/** Bounded breadth-first expansion of recall hits along record relations. */
module Traversal {
  import opened Bytes
  import opened Records
  import opened Wrappers

  /** One returned row; direct hits are hop 0 and carry no `via`. */
  datatype RelatedHit = RelatedHit(payload: seq<Byte>, score: real, hop: nat, via: Option<(RelationKind, Text)>)

  /** Extracts the record id from an index payload. */
  type KeyOf = seq<Byte> -> Text

  // -- one step of the relation graph ----------------------------------------------------

  function AdmittedEdges(s: seq<Record>, relations: seq<Relation>, f: Filter): (edges: seq<(RelationKind, Text)>)
    ensures forall e :: e in edges <==> Relation(e.0, e.1) in relations && AdmitsId(s, e.1, f)
  {
    if relations == [] then []
    else
      var front, last := relations[..|relations| - 1], relations[|relations| - 1];
      assert relations == front + [last];
      AdmittedEdges(s, front, f) + if AdmitsId(s, last.target, f) then [(last.kind, last.target)] else []
  }

  /** The traversable edges of `id`: none without a record, none from a hidden source,
      none to a hidden target, and all others. */
  function RelatedIds(s: seq<Record>, id: Text, f: Filter): (edges: seq<(RelationKind, Text)>)
    ensures forall e :: e in edges <==>
      && Lookup(s, id).Some? && AdmitsRecord(f, Lookup(s, id).value)
      && Relation(e.0, e.1) in Lookup(s, id).value.relations && AdmitsId(s, e.1, f)
  {
    var r := Lookup(s, id);
    if r.None? || !AdmitsId(s, id, f) then [] else AdmittedEdges(s, r.value.relations, f)
  }

  /** `at` lists, in ascending order, where the relations with an admitted target are, and
      `edges` are those relations. */
  ghost predicate EdgesAt(s: seq<Record>, relations: seq<Relation>, f: Filter, at: seq<nat>, edges: seq<(RelationKind, Text)>) {
    && |at| == |edges|
    && (forall i, j :: 0 <= i < j < |at| ==> at[i] < at[j])
    && (forall i: nat :: i in at <==> i < |relations| && AdmitsId(s, relations[i].target, f))
    && (forall j :: 0 <= j < |at| ==> at[j] < |relations| && edges[j] == (relations[at[j]].kind, relations[at[j]].target))
  }

  lemma EdgesAtStep(s: seq<Record>, front: seq<Relation>, last: Relation, f: Filter, at: seq<nat>, edges: seq<(RelationKind, Text)>)
    requires EdgesAt(s, front, f, at, edges)
    ensures if AdmitsId(s, last.target, f) then EdgesAt(s, front + [last], f, at + [|front|], edges + [(last.kind, last.target)])
            else EdgesAt(s, front + [last], f, at, edges)
  {
    hide AdmitsId;
    var longer := front + [last];
    assert forall i: nat :: i < |front| ==> longer[i] == front[i];
    assert longer[|front|] == last;
    assert forall j :: 0 <= j < |at| ==> at[j] in at;
  }

  lemma {:induction false} EdgesInOrder(s: seq<Record>, relations: seq<Relation>, f: Filter)
    ensures exists at: seq<nat> :: EdgesAt(s, relations, f, at, AdmittedEdges(s, relations, f))
  {
    hide AdmitsId, EdgesAt;
    if relations == [] {
      NoEdges(s, f);
      assert EdgesAt(s, relations, f, [], AdmittedEdges(s, relations, f));
    } else {
      var front, last := relations[..|relations| - 1], relations[|relations| - 1];
      assert relations == front + [last];
      EdgesInOrder(s, front, f);
      var at: seq<nat> :| EdgesAt(s, front, f, at, AdmittedEdges(s, front, f));
      var edges := AdmittedEdges(s, front, f);
      EdgesAtStep(s, front, last, f, at, edges);
      if AdmitsId(s, last.target, f) {
        assert EdgesAt(s, relations, f, at + [|front|], AdmittedEdges(s, relations, f));
      } else {
        assert AdmittedEdges(s, relations, f) == edges;
        assert EdgesAt(s, relations, f, at, AdmittedEdges(s, relations, f));
      }
    }
  }

  lemma NoEdges(s: seq<Record>, f: Filter)
    ensures EdgesAt(s, [], f, [], [])
  {
  }

  /** An admitted record's edges are its relations to admitted targets, each as often as it
      is recorded, in the record's own order. */
  lemma RelatedInOrder(s: seq<Record>, id: Text, f: Filter)
    ensures Lookup(s, id).Some? && AdmitsRecord(f, Lookup(s, id).value) ==>
      exists at: seq<nat> :: EdgesAt(s, Lookup(s, id).value.relations, f, at, RelatedIds(s, id, f))
  {
    hide EdgesAt, AdmitsRecord, Lookup, AdmittedEdges;
    if Lookup(s, id).Some? && AdmitsRecord(f, Lookup(s, id).value) {
      var relations := Lookup(s, id).value.relations;
      EdgesInOrder(s, relations, f);
      assert RelatedIds(s, id, f) == AdmittedEdges(s, relations, f);
      var at: seq<nat> :| EdgesAt(s, relations, f, at, AdmittedEdges(s, relations, f));
    }
  }

  ghost predicate Reaches(s: seq<Record>, f: Filter, a: Text, b: Text) {
    exists kind :: (kind, b) in RelatedIds(s, a, f)
  }

  // -- breadth-first layers ----------------------------------------------------------------

  /** The graph an expansion walks: records under a filter, the keys indexed in the
      region, and the keys of the direct hits. */
  datatype Graph = Graph(records: seq<Record>, filter: Filter, indexed: set<Text>, direct: set<Text>)

  ghost predicate Edge(g: Graph, a: Text, b: Text) {
    b in g.indexed && Reaches(g.records, g.filter, a, b)
  }

  ghost predicate FromLayer(g: Graph, layer: set<Text>, b: Text) {
    exists a :: a in layer && Edge(g, a, b)
  }

  ghost function Layer(g: Graph, h: nat): set<Text>
    decreases h, 1
  {
    if h == 0 then g.direct else set b | b in g.indexed && b !in UpTo(g, h - 1) && FromLayer(g, Layer(g, h - 1), b)
  }

  ghost function UpTo(g: Graph, h: nat): set<Text>
    decreases h, 2
  {
    if h == 0 then g.direct else UpTo(g, h - 1) + Layer(g, h)
  }

  ghost predicate IsPath(g: Graph, path: seq<Text>) {
    path != [] && path[0] in g.direct && forall i :: 0 < i < |path| ==> Edge(g, path[i - 1], path[i])
  }

  ghost predicate Joins(g: Graph, hops: nat, b: Text) {
    exists path :: IsPath(g, path) && |path| == hops + 1 && path[hops] == b
  }

  lemma JoinsStep(g: Graph, hops: nat, a: Text, b: Text)
    requires Joins(g, hops, a) && Edge(g, a, b)
    ensures Joins(g, hops + 1, b)
  {
    hide Edge;
    var path :| IsPath(g, path) && |path| == hops + 1 && path[hops] == a;
    var longer := path + [b];
    assert IsPath(g, longer) && |longer| == hops + 2 && longer[hops + 1] == b;
  }

  lemma JoinsDirect(g: Graph, b: Text)
    requires b in g.direct
    ensures Joins(g, 0, b)
  {
    assert IsPath(g, [b]) && |[b]| == 1 && [b][0] == b;
  }

  lemma LayerStep(g: Graph, h: nat, b: Text)
    requires b in Layer(g, h)
    ensures h == 0 ==> b in g.direct
    ensures h > 0 ==> b !in UpTo(g, h - 1) && FromLayer(g, Layer(g, h - 1), b)
  {
  }

  lemma {:induction false} LayerIsJoined(g: Graph, h: nat, b: Text)
    requires b in Layer(g, h)
    ensures Joins(g, h, b)
  {
    hide Edge, Joins, UpTo, Layer;
    LayerStep(g, h, b);
    if h == 0 {
      JoinsDirect(g, b);
    } else {
      var a :| a in Layer(g, h - 1) && Edge(g, a, b);
      LayerIsJoined(g, h - 1, a);
      JoinsStep(g, h - 1, a, b);
    }
  }

  lemma {:induction false} JoinedIsReached(g: Graph, h: nat, path: seq<Text>)
    requires IsPath(g, path) && |path| == h + 1
    ensures path[h] in UpTo(g, h)
  {
    if h == 0 {
    } else {
      assert IsPath(g, path[..h]);
      JoinedIsReached(g, h - 1, path[..h]);
      ReachedStep(g, h - 1, path[h - 1], path[h]);
    }
  }

  lemma {:induction false} ReachedStep(g: Graph, h: nat, a: Text, b: Text)
    requires a in UpTo(g, h) && Edge(g, a, b)
    ensures b in UpTo(g, h + 1)
  {
    hide UpTo, Layer, Edge;
    UpToStep(g, h);
    UpToStep(g, h + 1);
    if h > 0 && a in UpTo(g, h - 1) {
      ReachedStep(g, h - 1, a, b);
    } else if b !in UpTo(g, h) {
      EdgeLayer(g, h + 1, a, b);
    }
  }

  lemma EdgeLayer(g: Graph, h: nat, a: Text, b: Text)
    requires h > 0 && a in Layer(g, h - 1) && Edge(g, a, b) && b !in UpTo(g, h - 1)
    ensures b in Layer(g, h)
  {
    assert FromLayer(g, Layer(g, h - 1), b);
  }

  lemma {:induction false} ReachedAtSomeHop(g: Graph, h: nat, b: Text)
    requires b in UpTo(g, h)
    ensures exists l :: 0 <= l <= h && b in Layer(g, l)
  {
    if h > 0 && b in UpTo(g, h - 1) {
      ReachedAtSomeHop(g, h - 1, b);
    } else {
      assert b in Layer(g, h);
    }
  }

  /** Layer `h` is exactly what lies at distance `h`: joined to a direct hit by a path of
      `h` edges and by none shorter. */
  lemma LayerIsDistance(g: Graph, h: nat, b: Text)
    ensures b in Layer(g, h) <==> Joins(g, h, b) && forall l :: 0 <= l < h ==> !Joins(g, l, b)
  {
    hide UpTo, Layer, IsPath;
    if b in Layer(g, h) {
      LayerIsJoined(g, h, b);
      forall l | 0 <= l < h
        ensures !Joins(g, l, b)
      {
        NotJoinedEarlier(g, h, b, l);
      }
    } else if Joins(g, h, b) {
      var path :| IsPath(g, path) && |path| == h + 1 && path[h] == b;
      JoinedIsReached(g, h, path);
      ReachedAtSomeHop(g, h, b);
      var l :| 0 <= l <= h && b in Layer(g, l);
      LayerIsJoined(g, l, b);
    }
  }

  lemma NotJoinedEarlier(g: Graph, h: nat, b: Text, l: nat)
    requires b in Layer(g, h) && l < h
    ensures !Joins(g, l, b)
  {
    hide UpTo, Layer, IsPath, FromLayer;
    LayerStep(g, h, b);
    if Joins(g, l, b) {
      var path :| IsPath(g, path) && |path| == l + 1 && path[l] == b;
      JoinedIsReached(g, l, path);
      UpToGrows(g, l, h - 1);
    }
  }

  lemma {:induction false} UpToGrows(g: Graph, l: nat, h: nat)
    requires l <= h
    ensures UpTo(g, l) <= UpTo(g, h)
  {
    if l == h {
    } else {
      UpToGrows(g, l, h - 1);
    }
  }

  // -- the expansion -----------------------------------------------------------------------

  datatype Walk = Walk(hits: seq<RelatedHit>, seen: set<Text>, expanded: nat, next: seq<Text>)

  /** Key to payload; of several entries with one key, the last wins. */
  function Resolve(payloads: seq<seq<Byte>>, keyOf: KeyOf): (found: map<Text, seq<Byte>>)
    ensures forall t :: t in found ==> found[t] in payloads && keyOf(found[t]) == t
    ensures forall p :: p in payloads ==> keyOf(p) in found
  {
    if payloads == [] then map[]
    else
      var front, last := payloads[..|payloads| - 1], payloads[|payloads| - 1];
      assert payloads == front + [last];
      Resolve(front, keyOf)[keyOf(last) := last]
  }

  /** Of several entries with one key the last is the one a traversal returns. */
  lemma {:induction false} ResolveLast(payloads: seq<seq<Byte>>, keyOf: KeyOf, i: nat)
    requires i < |payloads| && forall j :: i < j < |payloads| ==> keyOf(payloads[j]) != keyOf(payloads[i])
    ensures keyOf(payloads[i]) in Resolve(payloads, keyOf) && Resolve(payloads, keyOf)[keyOf(payloads[i])] == payloads[i]
  {
    if i < |payloads| - 1 {
      ResolveLast(payloads[..|payloads| - 1], keyOf, i);
    }
  }

  /** The score of the first row with this key. */
  function FirstScore(hits: seq<RelatedHit>, keyOf: KeyOf, key: Text): real {
    if hits == [] then 0.0
    else if keyOf(hits[0].payload) == key then hits[0].score
    else FirstScore(hits[1..], keyOf, key)
  }

  /** A row inherits the score of the first row with its parent's key. */
  lemma {:induction false} FirstScoreIs(hits: seq<RelatedHit>, keyOf: KeyOf, key: Text, i: nat)
    requires i < |hits| && keyOf(hits[i].payload) == key && forall j :: 0 <= j < i ==> keyOf(hits[j].payload) != key
    ensures FirstScore(hits, keyOf, key) == hits[i].score
  {
    if i > 0 {
      FirstScoreIs(hits[1..], keyOf, key, i - 1);
    }
  }

  /** The body of the expansion loop: a target is marked seen even when it cannot be
      returned any more. */
  function Visit(w: Walk, found: map<Text, seq<Byte>>, keyOf: KeyOf, max: nat, hop: nat, parent: Text,
                 kind: RelationKind, target: Text): Walk
  {
    var marked := w.(seen := w.seen + {target});
    if target in w.seen || w.expanded >= max || target !in found then marked
    else
      marked.(hits := w.hits + [RelatedHit(found[target], FirstScore(w.hits, keyOf, parent), hop, Some((kind, parent)))],
              expanded := w.expanded + 1, next := w.next + [target])
  }

  lemma {:induction false} FirstScoreKept(hits: seq<RelatedHit>, more: seq<RelatedHit>, keyOf: KeyOf, key: Text)
    requires exists r :: r in hits && keyOf(r.payload) == key
    ensures FirstScore(hits + more, keyOf, key) == FirstScore(hits, keyOf, key)
  {
    assert (hits + more)[0] == hits[0];
    if keyOf(hits[0].payload) != key {
      assert (hits + more)[1..] == hits[1..] + more;
      FirstScoreKept(hits[1..], more, keyOf, key);
    }
  }

  ghost predicate HasRow(hits: seq<RelatedHit>, keyOf: KeyOf, key: Text) {
    exists r :: r in hits && keyOf(r.payload) == key
  }

  /** A returned row: indexed under its key at exactly its hop's distance, reached from a
      returned parent one hop earlier by an edge of the parent's record, with the
      parent's score. */
  ghost predicate RowOk(g: Graph, keyOf: KeyOf, found: map<Text, seq<Byte>>, hits: seq<RelatedHit>, r: RelatedHit) {
    && r.hop >= 1 && r.via.Some?
    && keyOf(r.payload) in Layer(g, r.hop)
    && keyOf(r.payload) in found && r.payload == found[keyOf(r.payload)]
    && (r.via.value.0, keyOf(r.payload)) in RelatedIds(g.records, r.via.value.1, g.filter)
    && r.via.value.1 in Layer(g, r.hop - 1) && HasRow(hits, keyOf, r.via.value.1)
    && r.score == FirstScore(hits, keyOf, r.via.value.1)
  }

  /** The rows after the direct ones are well formed, at most `upTo` hops out, and have
      pairwise distinct keys, none of them the key of a direct hit. */
  ghost predicate Rows(g: Graph, keyOf: KeyOf, found: map<Text, seq<Byte>>, direct: nat, upTo: nat, hits: seq<RelatedHit>) {
    && direct <= |hits|
    && (forall i :: direct <= i < |hits| ==> RowOk(g, keyOf, found, hits, hits[i]) && hits[i].hop <= upTo)
    && (forall i, j :: direct <= i < j < |hits| ==> keyOf(hits[i].payload) != keyOf(hits[j].payload))
    && (forall i :: direct <= i < |hits| ==> keyOf(hits[i].payload) !in g.direct)
  }

  ghost predicate InRows(keyOf: KeyOf, direct: nat, hits: seq<RelatedHit>, h: nat, t: Text) {
    exists i :: direct <= i < |hits| && keyOf(hits[i].payload) == t && hits[i].hop == h
  }

  /** Nothing within `upTo` hops is missing. */
  ghost predicate Complete(g: Graph, keyOf: KeyOf, direct: nat, upTo: nat, hits: seq<RelatedHit>) {
    forall h: nat, t :: 1 <= h <= upTo && t in Layer(g, h) ==> InRows(keyOf, direct, hits, h, t)
  }

  /** A row is there only when everything at a smaller distance is. */
  ghost predicate Layered(g: Graph, keyOf: KeyOf, direct: nat, hits: seq<RelatedHit>) {
    forall i, h: nat :: direct <= i < |hits| && h < hits[i].hop ==> Complete(g, keyOf, direct, h, hits)
  }

  ghost predicate GraphOf(g: Graph, keyOf: KeyOf, found: map<Text, seq<Byte>>) {
    g.indexed == found.Keys && forall t :: t in found ==> keyOf(found[t]) == t
  }

  /** Part way through hop `h`, after the edges in `done`. */
  ghost predicate Expanding(g: Graph, keyOf: KeyOf, found: map<Text, seq<Byte>>, max: nat, direct: nat, h: nat,
                            seen: set<Text>, w: Walk, done: seq<(Text, Text)>)
  {
    && h >= 1 && GraphOf(g, keyOf, found)
    && (forall t :: t in g.indexed ==> (t in seen <==> t in UpTo(g, h - 1)))
    && direct <= |w.hits| && Rows(g, keyOf, found, direct, h, w.hits) && w.expanded == |w.hits| - direct <= max
    && (forall t :: t in w.seen <==> t in seen || Targets(done, t))
    && (forall t :: t in w.next <==> InRows(keyOf, direct, w.hits, h, t))
    && (forall t :: t in w.next ==> t in w.seen)
    && (forall e :: e in done ==> e.0 in Layer(g, h - 1) && Reaches(g.records, g.filter, e.0, e.1))
    && (w.expanded < max ==> forall e :: e in done && e.1 in g.indexed && e.1 !in seen ==> e.1 in w.next)
  }

  lemma UpToStep(g: Graph, h: nat)
    ensures h == 0 ==> UpTo(g, h) == Layer(g, h) == g.direct
    ensures h > 0 ==> UpTo(g, h) == UpTo(g, h - 1) + Layer(g, h)
  {
  }

  lemma {:induction false} UpToContains(g: Graph, l: nat, h: nat)
    requires l <= h
    ensures Layer(g, l) <= UpTo(g, h)
  {
    hide Layer, UpTo;
    UpToStep(g, h);
    if l == h {
    } else {
      UpToContains(g, l, h - 1);
    }
  }

  lemma RowsAppend(g: Graph, keyOf: KeyOf, found: map<Text, seq<Byte>>, direct: nat, h: nat, hits: seq<RelatedHit>, r: RelatedHit)
    requires Rows(g, keyOf, found, direct, h, hits) && RowOk(g, keyOf, found, hits, r) && r.hop == h
    requires keyOf(r.payload) !in g.direct
    requires forall i :: direct <= i < |hits| ==> keyOf(hits[i].payload) != keyOf(r.payload)
    ensures Rows(g, keyOf, found, direct, h, hits + [r])
  {
    var more := hits + [r];
    hide RowOk;
    forall i | direct <= i < |more|
      ensures RowOk(g, keyOf, found, more, more[i])
    {
      assert more[i] == if i < |hits| then hits[i] else r;
      RowOkAppend(g, keyOf, found, hits, r, more[i]);
    }
  }

  lemma RowOkAppend(g: Graph, keyOf: KeyOf, found: map<Text, seq<Byte>>, hits: seq<RelatedHit>, r: RelatedHit, x: RelatedHit)
    requires RowOk(g, keyOf, found, hits, x)
    ensures RowOk(g, keyOf, found, hits + [r], x)
  {
    hide Layer, UpTo, RelatedIds;
    var parent := x.via.value.1;
    var p :| p in hits && keyOf(p.payload) == parent;
    FirstScoreKept(hits, [r], keyOf, parent);
    assert p in hits + [r];
  }

  lemma LayerMember(g: Graph, h: nat, a: Text, b: Text)
    requires h > 0 && a in Layer(g, h - 1) && b in g.indexed && b !in UpTo(g, h - 1)
    requires Reaches(g.records, g.filter, a, b)
    ensures b in Layer(g, h)
  {
    assert Edge(g, a, b);
    assert FromLayer(g, Layer(g, h - 1), b);
  }

  /** A target not yet seen has no row so far. */
  lemma UnseenHasNoRow(g: Graph, keyOf: KeyOf, found: map<Text, seq<Byte>>, max: nat, direct: nat, h: nat,
                       seen: set<Text>, w: Walk, done: seq<(Text, Text)>, t: Text)
    requires Expanding(g, keyOf, found, max, direct, h, seen, w, done) && t !in w.seen && t in g.indexed
    ensures t !in seen && t !in UpTo(g, h - 1) && t !in g.direct
    ensures forall i :: direct <= i < |w.hits| ==> keyOf(w.hits[i].payload) != t
  {
    hide Layer, UpTo, Reaches, Complete;
    UpToContains(g, 0, h - 1);
    UpToStep(g, 0);
    forall i | direct <= i < |w.hits|
      ensures keyOf(w.hits[i].payload) != t
    {
      var r := w.hits[i];
      assert RowOk(g, keyOf, found, w.hits, r);
      if r.hop == h {
        assert InRows(keyOf, direct, w.hits, h, keyOf(r.payload));
      } else {
        UpToContains(g, r.hop, h - 1);
      }
    }
  }

  lemma MarkKeeps(g: Graph, keyOf: KeyOf, found: map<Text, seq<Byte>>, max: nat, direct: nat, h: nat,
                  seen: set<Text>, w: Walk, done: seq<(Text, Text)>, parent: Text, target: Text)
    requires Expanding(g, keyOf, found, max, direct, h, seen, w, done)
    requires parent in Layer(g, h - 1) && Reaches(g.records, g.filter, parent, target)
    requires target in w.seen || w.expanded >= max || target !in found
    ensures Expanding(g, keyOf, found, max, direct, h, seen, w.(seen := w.seen + {target}), done + [(parent, target)])
  {
    hide Layer, UpTo, Reaches, Rows, InRows, Targets;
    DoneTargets(done, parent, target);
    if target in w.seen && target !in seen && w.expanded < max {
      TargetEdge(done, target);
    }
  }

  lemma TargetEdge(done: seq<(Text, Text)>, target: Text)
    requires Targets(done, target)
    ensures exists e :: e in done && e.1 == target
  {
  }

  ghost predicate Targets(done: seq<(Text, Text)>, t: Text) {
    exists e :: e in done && e.1 == t
  }

  lemma DoneTargets(done: seq<(Text, Text)>, parent: Text, target: Text)
    ensures forall t :: Targets(done + [(parent, target)], t) <==> t == target || Targets(done, t)
  {
    var more := done + [(parent, target)];
    assert (parent, target) in more && (parent, target).1 == target;
    forall t | Targets(done, t)
      ensures Targets(more, t)
    {
      var e :| e in done && e.1 == t;
      assert e in more;
    }
  }

  lemma NewRowOk(g: Graph, keyOf: KeyOf, found: map<Text, seq<Byte>>, h: nat, hits: seq<RelatedHit>, parent: Text,
                 kind: RelationKind, target: Text)
    requires h > 0 && GraphOf(g, keyOf, found) && target in found && target !in UpTo(g, h - 1)
    requires parent in Layer(g, h - 1) && HasRow(hits, keyOf, parent)
    requires (kind, target) in RelatedIds(g.records, parent, g.filter)
    ensures RowOk(g, keyOf, found, hits, RelatedHit(found[target], FirstScore(hits, keyOf, parent), h, Some((kind, parent))))
  {
    hide Layer, UpTo, RelatedIds, FirstScore, HasRow, Reaches;
    EdgeReaches(g, parent, kind, target);
    LayerMember(g, h, parent, target);
  }

  lemma AppendKeeps(g: Graph, keyOf: KeyOf, found: map<Text, seq<Byte>>, max: nat, direct: nat, h: nat,
                    seen: set<Text>, w: Walk, done: seq<(Text, Text)>, parent: Text, kind: RelationKind, target: Text)
    requires Expanding(g, keyOf, found, max, direct, h, seen, w, done)
    requires parent in Layer(g, h - 1) && HasRow(w.hits, keyOf, parent)
    requires (kind, target) in RelatedIds(g.records, parent, g.filter)
    requires target !in w.seen && w.expanded < max && target in found
    ensures Expanding(g, keyOf, found, max, direct, h, seen,
                      Visit(w, found, keyOf, max, h, parent, kind, target), done + [(parent, target)])
  {
    hide Layer, UpTo, RelatedIds, FirstScore, RowOk, Rows, InRows, Targets, HasRow, Reaches;
    var r := RelatedHit(found[target], FirstScore(w.hits, keyOf, parent), h, Some((kind, parent)));
    UnseenHasNoRow(g, keyOf, found, max, direct, h, seen, w, done, target);
    NewRowOk(g, keyOf, found, h, w.hits, parent, kind, target);
    RowsAppend(g, keyOf, found, direct, h, w.hits, r);
    DoneTargets(done, parent, target);
    InRowsAppend(keyOf, direct, w.hits, r, h);
    EdgeReaches(g, parent, kind, target);
  }

  lemma EdgeReaches(g: Graph, parent: Text, kind: RelationKind, target: Text)
    requires (kind, target) in RelatedIds(g.records, parent, g.filter)
    ensures Reaches(g.records, g.filter, parent, target)
  {
  }

  lemma InRowsAppend(keyOf: KeyOf, direct: nat, hits: seq<RelatedHit>, r: RelatedHit, h: nat)
    requires direct <= |hits|
    ensures forall t :: InRows(keyOf, direct, hits + [r], h, t) <==> InRows(keyOf, direct, hits, h, t) || (r.hop == h && keyOf(r.payload) == t)
  {
    var more := hits + [r];
    assert more[|hits|] == r;
    forall t | InRows(keyOf, direct, hits, h, t)
      ensures InRows(keyOf, direct, more, h, t)
    {
      var i :| direct <= i < |hits| && keyOf(hits[i].payload) == t && hits[i].hop == h;
      assert more[i] == hits[i];
    }
  }

  lemma VisitKeeps(g: Graph, keyOf: KeyOf, found: map<Text, seq<Byte>>, max: nat, direct: nat, h: nat,
                   seen: set<Text>, w: Walk, done: seq<(Text, Text)>, parent: Text, kind: RelationKind, target: Text)
    requires Expanding(g, keyOf, found, max, direct, h, seen, w, done)
    requires parent in Layer(g, h - 1) && HasRow(w.hits, keyOf, parent)
    requires (kind, target) in RelatedIds(g.records, parent, g.filter)
    ensures Expanding(g, keyOf, found, max, direct, h, seen,
                      Visit(w, found, keyOf, max, h, parent, kind, target), done + [(parent, target)])
    ensures w.hits <= Visit(w, found, keyOf, max, h, parent, kind, target).hits
  {
    hide Layer, UpTo, RelatedIds, FirstScore, Expanding, HasRow;
    EdgeReaches(g, parent, kind, target);
    if target in w.seen || w.expanded >= max || target !in found {
      MarkKeeps(g, keyOf, found, max, direct, h, seen, w, done, parent, target);
    } else {
      AppendKeeps(g, keyOf, found, max, direct, h, seen, w, done, parent, kind, target);
    }
  }

  // -- whole layers ---------------------------------------------------------------------------

  /** After all edges of layer `h - 1` without hitting the budget, layer `h` is complete. */
  lemma LayerComplete(g: Graph, keyOf: KeyOf, found: map<Text, seq<Byte>>, max: nat, direct: nat, h: nat,
                      seen: set<Text>, w: Walk, done: seq<(Text, Text)>)
    requires Expanding(g, keyOf, found, max, direct, h, seen, w, done) && w.expanded < max
    requires forall a, b :: a in Layer(g, h - 1) && Reaches(g.records, g.filter, a, b) ==> (a, b) in done
    ensures forall t :: t in w.next <==> t in Layer(g, h)
    ensures forall t :: t in g.indexed ==> (t in w.seen <==> t in UpTo(g, h))
  {
    hide UpTo, Reaches, Rows, InRows, Targets, Layer;
    forall t | t in w.next
      ensures t in Layer(g, h)
    {
      NextInLayer(g, keyOf, found, max, direct, h, seen, w, done, t);
    }
    forall t | t in Layer(g, h)
      ensures t in w.next
    {
      LayerInNext(g, keyOf, found, max, direct, h, seen, w, done, t);
    }
    UpToStep(g, h);
    forall t | t in g.indexed
      ensures t in w.seen <==> t in UpTo(g, h)
    {
      if Targets(done, t) && t !in seen {
        TargetEdge(done, t);
      }
    }
  }

  lemma NextInLayer(g: Graph, keyOf: KeyOf, found: map<Text, seq<Byte>>, max: nat, direct: nat, h: nat,
                    seen: set<Text>, w: Walk, done: seq<(Text, Text)>, t: Text)
    requires Expanding(g, keyOf, found, max, direct, h, seen, w, done) && t in w.next
    ensures t in Layer(g, h)
  {
    hide UpTo, Reaches, Targets, Layer, FirstScore, RelatedIds;
    assert InRows(keyOf, direct, w.hits, h, t);
    var i :| direct <= i < |w.hits| && keyOf(w.hits[i].payload) == t && w.hits[i].hop == h;
    assert RowOk(g, keyOf, found, w.hits, w.hits[i]);
  }

  lemma LayerInNext(g: Graph, keyOf: KeyOf, found: map<Text, seq<Byte>>, max: nat, direct: nat, h: nat,
                    seen: set<Text>, w: Walk, done: seq<(Text, Text)>, t: Text)
    requires Expanding(g, keyOf, found, max, direct, h, seen, w, done) && w.expanded < max
    requires forall a, b :: a in Layer(g, h - 1) && Reaches(g.records, g.filter, a, b) ==> (a, b) in done
    requires t in Layer(g, h)
    ensures t in w.next
  {
    hide UpTo, Reaches, Targets, Layer, FirstScore, RelatedIds, Rows;
    LayerStep(g, h, t);
    LayerIndexed(g, h, t);
    var a :| a in Layer(g, h - 1) && Edge(g, a, t);
    assert (a, t) in done && (a, t).1 == t;
  }

  lemma LayerIndexed(g: Graph, h: nat, t: Text)
    requires h > 0 && t in Layer(g, h)
    ensures t in g.indexed
  {
  }

  lemma CompleteStep(g: Graph, keyOf: KeyOf, direct: nat, h: nat, before: seq<RelatedHit>, hits: seq<RelatedHit>)
    requires h > 0 && Complete(g, keyOf, direct, h - 1, before) && before <= hits
    requires forall t :: t in Layer(g, h) ==> InRows(keyOf, direct, hits, h, t)
    ensures Complete(g, keyOf, direct, h, hits)
  {
    hide Layer;
    forall l: nat, t | 1 <= l <= h && t in Layer(g, l)
      ensures InRows(keyOf, direct, hits, l, t)
    {
      if l < h {
        assert InRows(keyOf, direct, before, l, t);
        var i :| direct <= i < |before| && keyOf(before[i].payload) == t && before[i].hop == l;
        assert hits[i] == before[i];
      }
    }
  }

  /** Once a layer is empty, so are all later ones. */
  lemma {:induction false} EmptyLayersStay(g: Graph, h: nat, l: nat)
    requires h <= l && Layer(g, h) == {}
    ensures Layer(g, l) == {}
  {
    hide Layer;
    if h == l {
    } else {
      EmptyLayersStay(g, h, l - 1);
      EmptyLayerNext(g, l);
    }
  }

  lemma EmptyLayerNext(g: Graph, h: nat)
    requires h > 0 && Layer(g, h - 1) == {}
    ensures Layer(g, h) == {}
  {
    hide UpTo, Edge;
    assert forall t :: !FromLayer(g, {}, t);
  }

  lemma CompleteWhenEmpty(g: Graph, keyOf: KeyOf, direct: nat, h: nat, hops: nat, hits: seq<RelatedHit>)
    requires Complete(g, keyOf, direct, h, hits) && Layer(g, h) == {} && h <= hops
    ensures Complete(g, keyOf, direct, hops, hits)
  {
    hide InRows, Layer;
    forall l: nat, t | 1 <= l <= hops && t in Layer(g, l)
      ensures InRows(keyOf, direct, hits, l, t)
    {
      if l > h {
        EmptyLayersStay(g, h, l);
      }
    }
  }

  // -- the methods ------------------------------------------------------------------------------

  /** The members of a set in no promised order, as a hash set is iterated. */
  method AnyOrder(keys: set<Text>) returns (order: seq<Text>)
    ensures forall t :: t in order <==> t in keys
  {
    order := [];
    var rest := keys;
    while rest != {}
      invariant rest <= keys && forall t :: t in order <==> t in keys - rest
      decreases |rest|
    {
      var t :| t in rest;
      order, rest := order + [t], rest - {t};
    }
  }

  /** Expands the edges of one layer, parent by parent. */
  method ExpandLayer(ghost g: Graph, records: seq<Record>, filter: Filter, keyOf: KeyOf, found: map<Text, seq<Byte>>,
                     max: nat, ghost direct: nat, hop: nat, start: Walk, frontier: seq<Text>) returns (w: Walk)
    requires g.records == records && g.filter == filter && hop > 0
    requires Expanding(g, keyOf, found, max, direct, hop, start.seen, start, [])
    requires forall t :: t in frontier <==> t in Layer(g, hop - 1)
    requires forall t :: t in frontier ==> HasRow(start.hits, keyOf, t)
    ensures start.hits <= w.hits && w.expanded <= max
    ensures Rows(g, keyOf, found, direct, hop, w.hits) && w.expanded == |w.hits| - direct
    ensures forall t :: t in w.next ==> HasRow(w.hits, keyOf, t)
    ensures w.expanded < max ==>
      && (forall t :: t in w.next <==> t in Layer(g, hop))
      && (forall t :: t in Layer(g, hop) ==> InRows(keyOf, direct, w.hits, hop, t))
      && (forall t :: t in g.indexed ==> (t in w.seen <==> t in UpTo(g, hop)))
  {
    hide Layer, UpTo, Expanding, HasRow, Rows, InRows, RelatedIds, Visit;
    w := start;
    ghost var done: seq<(Text, Text)> := [];
    for i := 0 to |frontier|
      invariant Expanding(g, keyOf, found, max, direct, hop, start.seen, w, done) && start.hits <= w.hits
      invariant forall j, t :: 0 <= j < i && Reaches(records, filter, frontier[j], t) ==> (frontier[j], t) in done
    {
      assert frontier[i] in frontier;
      w, done := ExpandParent(g, records, filter, keyOf, found, max, direct, hop, start.seen, w, frontier[i], done,
                              start.hits);
    }
    assert Expanding(g, keyOf, found, max, direct, hop, start.seen, w, done);
    ExpandedFacts(g, keyOf, found, max, direct, hop, start.seen, w, done);
    forall a, b | a in Layer(g, hop - 1) && Reaches(g.records, g.filter, a, b)
      ensures (a, b) in done
    {
      assert a in frontier;
    }
    if w.expanded < max {
      LayerComplete(g, keyOf, found, max, direct, hop, start.seen, w, done);
    }
  }

  lemma ExpandedFacts(g: Graph, keyOf: KeyOf, found: map<Text, seq<Byte>>, max: nat, direct: nat, h: nat,
                      seen: set<Text>, w: Walk, done: seq<(Text, Text)>)
    requires Expanding(g, keyOf, found, max, direct, h, seen, w, done)
    ensures Rows(g, keyOf, found, direct, h, w.hits) && w.expanded == |w.hits| - direct <= max
    ensures forall t :: t in w.next <==> InRows(keyOf, direct, w.hits, h, t)
    ensures forall t :: t in w.next ==> HasRow(w.hits, keyOf, t)
  {
    hide Rows, Layer, UpTo, Reaches, GraphOf, Targets;
    forall t | t in w.next
      ensures HasRow(w.hits, keyOf, t)
    {
      assert InRows(keyOf, direct, w.hits, h, t);
      var i :| direct <= i < |w.hits| && keyOf(w.hits[i].payload) == t && w.hits[i].hop == h;
      assert w.hits[i] in w.hits;
    }
  }

  lemma HasRowGrows(before: seq<RelatedHit>, hits: seq<RelatedHit>, keyOf: KeyOf, t: Text)
    requires before <= hits && HasRow(before, keyOf, t)
    ensures HasRow(hits, keyOf, t)
  {
    var r :| r in before && keyOf(r.payload) == t;
    assert r in hits;
  }

  /** The inner loop: the admitted edges of one parent, in the record's own order. */
  method ExpandParent(ghost g: Graph, records: seq<Record>, filter: Filter, keyOf: KeyOf, found: map<Text, seq<Byte>>,
                      max: nat, ghost direct: nat, hop: nat, ghost seen: set<Text>, start: Walk, parent: Text,
                      ghost before: seq<(Text, Text)>, ghost direct0: seq<RelatedHit>)
    returns (w: Walk, ghost done: seq<(Text, Text)>)
    requires g.records == records && g.filter == filter
    requires Expanding(g, keyOf, found, max, direct, hop, seen, start, before)
    requires hop > 0 && parent in Layer(g, hop - 1) && HasRow(direct0, keyOf, parent) && direct0 <= start.hits
    ensures Expanding(g, keyOf, found, max, direct, hop, seen, w, done) && start.hits <= w.hits
    ensures forall e :: e in before ==> e in done
    ensures forall t :: Reaches(records, filter, parent, t) ==> (parent, t) in done
  {
    hide Layer, UpTo, Expanding, HasRow, RelatedIds, Visit;
    w, done := start, before;
    var edges := RelatedIds(records, parent, filter);
    for j := 0 to |edges|
      invariant Expanding(g, keyOf, found, max, direct, hop, seen, w, done) && start.hits <= w.hits
      invariant forall e :: e in before ==> e in done
      invariant forall i :: 0 <= i < j ==> (parent, edges[i].1) in done
    {
      var kind, target := edges[j].0, edges[j].1;
      HasRowGrows(direct0, w.hits, keyOf, parent);
      assert edges[j] in edges && edges[j] == (kind, target);
      VisitKeeps(g, keyOf, found, max, direct, hop, seen, w, done, parent, kind, target);
      w := Visit(w, found, keyOf, max, hop, parent, kind, target);
      done := done + [(parent, target)];
    }
  }

  function Keys(hits: seq<RelatedHit>, keyOf: KeyOf): (keys: set<Text>)
    ensures forall t :: t in keys <==> HasRow(hits, keyOf, t)
  {
    var keys := set r | r in hits :: keyOf(r.payload);
    assert forall r :: r in hits ==> keyOf(r.payload) in keys;
    keys
  }

  function CappedHops(hops: nat): nat {
    if hops < 2 then hops else 2
  }

  /** What a bounded expansion returns: the direct rows, then at most `max` rows with
      distinct keys, each at its own breadth-first distance of at most two; all of those
      unless the budget was used up, and all nearer ones before any farther one. */
  ghost predicate Related(g: Graph, keyOf: KeyOf, found: map<Text, seq<Byte>>, direct: seq<RelatedHit>, hops: nat, max: nat,
                          hits: seq<RelatedHit>)
  {
    && direct <= hits && |hits| - |direct| <= max
    && Rows(g, keyOf, found, |direct|, CappedHops(hops), hits)
    && (|hits| - |direct| < max ==> Complete(g, keyOf, |direct|, CappedHops(hops), hits))
    && Layered(g, keyOf, |direct|, hits)
  }

  /** No row is more than two hops out, nor more than asked for; and with budget left nothing
      within that many hops is missing. */
  lemma RelatedReach(g: Graph, keyOf: KeyOf, found: map<Text, seq<Byte>>, direct: seq<RelatedHit>, hops: nat, max: nat, hits: seq<RelatedHit>)
    requires Related(g, keyOf, found, direct, hops, max, hits)
    ensures forall i :: |direct| <= i < |hits| ==> 1 <= hits[i].hop <= 2 && hits[i].hop <= hops
    ensures |hits| - |direct| < max ==> forall h: nat, t :: 1 <= h <= 2 && h <= hops && t in Layer(g, h) ==> InRows(keyOf, |direct|, hits, h, t)
  {
    hide Layer, RelatedIds;
  }

  lemma StartWalk(g: Graph, keyOf: KeyOf, found: map<Text, seq<Byte>>, max: nat, direct: nat, h: nat, w: Walk)
    requires h > 0 && GraphOf(g, keyOf, found) && direct <= |w.hits| && w.expanded == |w.hits| - direct <= max
    requires Rows(g, keyOf, found, direct, h - 1, w.hits) && w.next == []
    requires forall t :: t in g.indexed ==> (t in w.seen <==> t in UpTo(g, h - 1))
    ensures Expanding(g, keyOf, found, max, direct, h, w.seen, w, [])
  {
    hide Layer, UpTo, RowOk;
    forall t
      ensures !InRows(keyOf, direct, w.hits, h, t)
    {
    }
  }

  lemma NoFrontier(g: Graph, h: nat, frontier: seq<Text>)
    requires frontier == [] && forall t :: t in frontier <==> t in Layer(g, h)
    ensures Layer(g, h) == {}
  {
    hide Layer;
  }

  /** Expands direct hits up to two hops, at most `max` rows. */
  method ExpandRelated(records: seq<Record>, filter: Filter, keyOf: KeyOf, payloads: seq<seq<Byte>>,
                       direct: seq<RelatedHit>, hops: nat, max: nat) returns (hits: seq<RelatedHit>)
    ensures Related(Graph(records, filter, Resolve(payloads, keyOf).Keys, Keys(direct, keyOf)), keyOf,
                    Resolve(payloads, keyOf), direct, if max == 0 then 0 else hops, max, hits)
  {
    hide Layer, UpTo, RelatedIds, HasRow, Expanding, Rows, Complete, Layered;
    var found := Resolve(payloads, keyOf);
    ghost var g := Graph(records, filter, found.Keys, Keys(direct, keyOf));
    hits := direct;
    NothingAdded(g, keyOf, found, direct);
    if hops == 0 || max == 0 {
      return;
    }
    var seen := Keys(direct, keyOf);
    var frontier := AnyOrder(seen);
    var expanded, hop := 0, 1;
    UpToStep(g, 0);
    while hop <= CappedHops(hops) && frontier != [] && expanded < max
      invariant 1 <= hop <= CappedHops(hops) + 1
      invariant direct <= hits && expanded == |hits| - |direct| <= max
      invariant Rows(g, keyOf, found, |direct|, hop - 1, hits)
      invariant Layered(g, keyOf, |direct|, hits)
      invariant expanded < max ==> Complete(g, keyOf, |direct|, hop - 1, hits)
      invariant expanded < max ==> forall t :: t in frontier <==> t in Layer(g, hop - 1)
      invariant forall t :: t in frontier ==> HasRow(hits, keyOf, t)
      invariant expanded < max ==> forall t :: t in g.indexed ==> (t in seen <==> t in UpTo(g, hop - 1))
      decreases CappedHops(hops) + 1 - hop
    {
      var start := Walk(hits, seen, expanded, []);
      StartWalk(g, keyOf, found, max, |direct|, hop, start);
      var w := ExpandLayer(g, records, filter, keyOf, found, max, |direct|, hop, start, frontier);
      LayeredStep(g, keyOf, found, |direct|, hop, hits, w.hits);
      if w.expanded < max {
        CompleteStep(g, keyOf, |direct|, hop, hits, w.hits);
      }
      hits, seen, expanded, frontier := w.hits, w.seen, w.expanded, w.next;
      hop := hop + 1;
    }
    if expanded < max && hop <= CappedHops(hops) {
      NoFrontier(g, hop - 1, frontier);
      CompleteWhenEmpty(g, keyOf, |direct|, hop - 1, CappedHops(hops), hits);
    }
    RowsUpTo(g, keyOf, found, |direct|, hop - 1, CappedHops(hops), hits);
  }

  lemma NothingAdded(g: Graph, keyOf: KeyOf, found: map<Text, seq<Byte>>, direct: seq<RelatedHit>)
    ensures forall h: nat :: Rows(g, keyOf, found, |direct|, h, direct)
    ensures Complete(g, keyOf, |direct|, 0, direct) && Layered(g, keyOf, |direct|, direct)
  {
  }

  /** A hop starts only once everything nearer is there. */
  lemma LayeredStep(g: Graph, keyOf: KeyOf, found: map<Text, seq<Byte>>, direct: nat, h: nat, before: seq<RelatedHit>, hits: seq<RelatedHit>)
    requires h > 0 && Complete(g, keyOf, direct, h - 1, before) && before <= hits && Rows(g, keyOf, found, direct, h, hits)
    ensures Layered(g, keyOf, direct, hits)
  {
    hide Layer, RowOk;
    forall l: nat, t | 1 <= l < h && t in Layer(g, l)
      ensures InRows(keyOf, direct, hits, l, t)
    {
      assert InRows(keyOf, direct, before, l, t);
      var i :| direct <= i < |before| && keyOf(before[i].payload) == t && before[i].hop == l;
      assert hits[i] == before[i];
    }
  }

  lemma RowsUpTo(g: Graph, keyOf: KeyOf, found: map<Text, seq<Byte>>, direct: nat, h: nat, l: nat, hits: seq<RelatedHit>)
    requires Rows(g, keyOf, found, direct, h, hits) && h <= l
    ensures Rows(g, keyOf, found, direct, l, hits)
  {
    hide RowOk;
  }
}
