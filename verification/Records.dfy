/** Logical memory records: their parts, their lifecycle, and which ones recall shows. */
module Records {
  import opened Wrappers
  import opened Bytes

  datatype Scope = Scope(tenant: Text, workspace: Text, agent: Text)

  datatype Provenance = Provenance(source: Text, sourceRecord: Option<Text>, observedAt: Option<U64>)

  datatype Sensitivity = Public | Internal | Confidential | Restricted

  datatype Embedding = Embedding(provider: Text, model: Text, revision: Option<Text>, dimension: U64,
                                 projection: Option<Text>, quantization: Option<Text>)

  datatype Status = Active | Tombstoned(atGeneration: U64) | Superseded(replacement: Text, atGeneration: U64)

  datatype Retention = Retention(expiresAt: Option<U64>, retainUntil: Option<U64>)

  datatype RelationKind = Confirms | Contradicts | Supersedes | SupersededBy

  datatype Relation = Relation(kind: RelationKind, target: Text)

  datatype Record = Record(id: Text, payload: seq<Byte>, scope: Scope, provenance: seq<Provenance>, createdAt: Option<U64>,
                           generation: U64, causalRegion: Option<Text>, sensitivity: Sensitivity, status: Status,
                           retention: Retention, embedding: Embedding, relations: seq<Relation>)

  datatype RecordError = SelfRelation | NonMonotonicGeneration(current: U64, proposed: U64) | UnknownMemoryId(id: Text)

  // -- what the constructors guarantee ----------------------------------------------

  predicate NonBlank(v: Option<Text>) {
    v.Some? ==> !Blank(v.value)
  }

  predicate ValidProvenance(p: Provenance) {
    !Blank(p.source) && NonBlank(p.sourceRecord)
  }

  predicate ValidEmbedding(e: Embedding) {
    && !Blank(e.provider) && !Blank(e.model) && e.dimension > 0
    && NonBlank(e.revision) && NonBlank(e.projection) && NonBlank(e.quantization)
  }

  predicate ValidRecord(r: Record) {
    && !Blank(r.id)
    && !Blank(r.scope.tenant) && !Blank(r.scope.workspace) && !Blank(r.scope.agent)
    && (forall i :: 0 <= i < |r.provenance| ==> ValidProvenance(r.provenance[i]))
    && (r.status.Superseded? ==> !Blank(r.status.replacement))
    && ValidEmbedding(r.embedding)
    && (forall i :: 0 <= i < |r.relations| ==> !Blank(r.relations[i].target))
  }

  // -- lifecycle ----------------------------------------------------------------------

  predicate ExpiredAt(r: Retention, now: U64) {
    r.expiresAt.Some? && now >= r.expiresAt.value
  }

  predicate PermitsPurgeAt(r: Retention, now: U64) {
    r.retainUntil.None? || now >= r.retainUntil.value
  }

  predicate VisibleAt(r: Record, now: U64) {
    r.status.Active? && !ExpiredAt(r.retention, now)
  }

  predicate PurgeableAt(r: Record, now: U64) {
    !r.status.Active? && PermitsPurgeAt(r.retention, now)
  }

  function AdvanceGeneration(r: Record, generation: U64): Result<Record, RecordError> {
    if generation <= r.generation then Err(NonMonotonicGeneration(r.generation, generation))
    else Ok(r.(generation := generation))
  }

  function Tombstone(r: Record, generation: U64): Result<Record, RecordError> {
    var r :- AdvanceGeneration(r, generation);
    Ok(r.(status := Tombstoned(generation)))
  }

  function Supersede(r: Record, replacement: Text, generation: U64): Result<Record, RecordError> {
    if replacement == r.id then Err(SelfRelation)
    else
      var r :- AdvanceGeneration(r, generation);
      Ok(r.(relations := r.relations + [Relation(SupersededBy, replacement)], status := Superseded(replacement, generation)))
  }

  function UpsertPayload(r: Record, payload: seq<Byte>, generation: U64): Result<Record, RecordError> {
    var r :- AdvanceGeneration(r, generation);
    Ok(r.(payload := payload, status := Active))
  }

  function AddRelation(r: Record, kind: RelationKind, target: Text): Result<Record, RecordError> {
    if target == r.id then Err(SelfRelation) else Ok(r.(relations := r.relations + [Relation(kind, target)]))
  }

  // -- recall filter ------------------------------------------------------------------

  datatype Filter = Filter(now: U64, tenant: Option<Text>, workspace: Option<Text>, agent: Option<Text>, clearance: Sensitivity)

  function Rank(s: Sensitivity): nat {
    match s
    case Public => 0
    case Internal => 1
    case Confidential => 2
    case Restricted => 3
  }

  predicate Wanted(want: Option<Text>, have: Text) {
    want.None? || want.value == have
  }

  predicate AdmitsScope(f: Filter, s: Scope) {
    Wanted(f.tenant, s.tenant) && Wanted(f.workspace, s.workspace) && Wanted(f.agent, s.agent)
  }

  predicate AdmitsRecord(f: Filter, r: Record) {
    VisibleAt(r, f.now) && AdmitsScope(f, r.scope) && Rank(r.sensitivity) <= Rank(f.clearance)
  }

  /** What recall shows: active and not yet expired records, of the tenant, workspace and
      agent the filter fixes, and no more sensitive than its clearance. */
  lemma AdmitsRecordMeans(f: Filter, r: Record)
    ensures AdmitsRecord(f, r) <==>
      && r.status.Active? && (r.retention.expiresAt.Some? ==> f.now < r.retention.expiresAt.value)
      && (f.tenant.Some? ==> f.tenant.value == r.scope.tenant)
      && (f.workspace.Some? ==> f.workspace.value == r.scope.workspace)
      && (f.agent.Some? ==> f.agent.value == r.scope.agent)
      && (f.clearance.Public? ==> r.sensitivity.Public?)
      && (f.clearance.Internal? ==> r.sensitivity.Public? || r.sensitivity.Internal?)
      && (f.clearance.Confidential? ==> !r.sensitivity.Restricted?)
  {
  }

  /** What a purge removes: tombstoned and superseded records from their retention floor on. */
  lemma PurgeableMeans(r: Record, now: U64)
    ensures PurgeableAt(r, now) <==>
      && (r.status.Tombstoned? || r.status.Superseded?)
      && (r.retention.retainUntil.Some? ==> now >= r.retention.retainUntil.value)
  {
  }

  /** Every field of the record a lifecycle step makes, and every refusal. */
  lemma LifecycleWritten(r: Record, payload: seq<Byte>, other: Text, kind: RelationKind, g: U64)
    ensures Tombstone(r, g) ==
      if g <= r.generation then Err(NonMonotonicGeneration(r.generation, g))
      else Ok(Record(r.id, r.payload, r.scope, r.provenance, r.createdAt, g, r.causalRegion, r.sensitivity, Tombstoned(g),
                     r.retention, r.embedding, r.relations))
    ensures UpsertPayload(r, payload, g) ==
      if g <= r.generation then Err(NonMonotonicGeneration(r.generation, g))
      else Ok(Record(r.id, payload, r.scope, r.provenance, r.createdAt, g, r.causalRegion, r.sensitivity, Active,
                     r.retention, r.embedding, r.relations))
    ensures Supersede(r, other, g) ==
      if other == r.id then Err(SelfRelation)
      else if g <= r.generation then Err(NonMonotonicGeneration(r.generation, g))
      else Ok(Record(r.id, r.payload, r.scope, r.provenance, r.createdAt, g, r.causalRegion, r.sensitivity, Superseded(other, g),
                     r.retention, r.embedding, r.relations + [Relation(SupersededBy, other)]))
    ensures AddRelation(r, kind, other) ==
      if other == r.id then Err(SelfRelation)
      else Ok(Record(r.id, r.payload, r.scope, r.provenance, r.createdAt, r.generation, r.causalRegion, r.sensitivity, r.status,
                     r.retention, r.embedding, r.relations + [Relation(kind, other)]))
  {
  }

  /** The states a lifecycle step can lead to. */
  predicate NextState(r: Record, next: Record, generation: U64, replacement: Text, payload: seq<Byte>) {
    || Tombstone(r, generation) == Ok(next)
    || Supersede(r, replacement, generation) == Ok(next)
    || UpsertPayload(r, payload, generation) == Ok(next)
  }

  /** A lifecycle step keeps identity and validity, moves the generation strictly forward,
      is therefore accepted by a store holding the old state, and cannot be replayed. Once
      inactive, the record is hidden from every filter at every time. */
  lemma LifecycleStep(s: seq<Record>, r: Record, next: Record, generation: U64, replacement: Text, payload: seq<Byte>, f: Filter)
    requires Lookup(s, r.id) == Some(r) && NextState(r, next, generation, replacement, payload)
    requires ValidRecord(r) && !Blank(replacement)
    ensures next.id == r.id && ValidRecord(next) && next.generation == generation > r.generation
    ensures Put(s, next).Ok? && Put(Put(s, next).value, next).Err? && Put(Put(s, next).value, r).Err?
    ensures !next.status.Active? ==> !AdmitsRecord(f, next)
    ensures next.status.Active? <==> UpsertPayload(r, payload, generation) == Ok(next)
  {
    hide Blank;
    var i := Position(s, r.id);
    var after := s[i := next];
    assert Put(s, next) == Ok(after);
    ReplacedPosition(s, i, next);
  }

  lemma {:induction false} ReplacedPosition(s: seq<Record>, i: nat, r: Record)
    requires i < |s| && i == Position(s, r.id)
    ensures Position(s[i := r], r.id) == i
  {
    if i == 0 {
    } else {
      assert s[i := r][1..] == s[1..][i - 1 := r];
      ReplacedPosition(s[1..], i - 1, r);
    }
  }

  // -- the store: records in ascending id order ------------------------------------

  /** Byte order of strings, the order of the source's tree map. */
  predicate Less(a: seq<Byte>, b: seq<Byte>) {
    b != [] && (a == [] || a[0] < b[0] || (a[0] == b[0] && Less(a[1..], b[1..])))
  }

  /** `a` and `b` agree on the first `n` bytes, and there `a` ends or is smaller. */
  ghost predicate SmallerAt(a: seq<Byte>, b: seq<Byte>, n: nat) {
    n <= |a| && n < |b| && a[..n] == b[..n] && (n == |a| || a[n] < b[n])
  }

  lemma {:induction false} LessHasPlace(a: seq<Byte>, b: seq<Byte>)
    requires Less(a, b)
    ensures exists n: nat :: SmallerAt(a, b, n)
  {
    if a == [] || a[0] < b[0] {
      assert SmallerAt(a, b, 0);
    } else {
      LessHasPlace(a[1..], b[1..]);
      var n: nat :| SmallerAt(a[1..], b[1..], n);
      assert a[..n + 1] == [a[0]] + a[1..][..n] && b[..n + 1] == [b[0]] + b[1..][..n];
      assert SmallerAt(a, b, n + 1);
    }
  }

  lemma {:induction false} PlaceMakesLess(a: seq<Byte>, b: seq<Byte>, n: nat)
    requires SmallerAt(a, b, n)
    ensures Less(a, b)
  {
    if n == 0 {
    } else {
      assert a[..n][0] == a[0] && b[..n][0] == b[0];
      assert a[1..][..n - 1] == a[..n][1..] && b[1..][..n - 1] == b[..n][1..];
      PlaceMakesLess(a[1..], b[1..], n - 1);
    }
  }

  /** The first difference decides, and a proper prefix comes first. */
  lemma LessMeans(a: seq<Byte>, b: seq<Byte>)
    ensures Less(a, b) <==> exists n: nat :: SmallerAt(a, b, n)
  {
    if Less(a, b) {
      LessHasPlace(a, b);
    }
    if n: nat :| SmallerAt(a, b, n) {
      PlaceMakesLess(a, b, n);
    }
  }

  lemma {:induction false} LessTransitive(a: seq<Byte>, b: seq<Byte>, c: seq<Byte>)
    requires Less(a, b) && Less(b, c)
    ensures Less(a, c)
  {
    if a != [] && a[0] == b[0] && b[0] == c[0] {
      LessTransitive(a[1..], b[1..], c[1..]);
    }
  }

  lemma {:induction false} LessIrreflexive(a: seq<Byte>)
    ensures !Less(a, a)
  {
    if a == [] {
    } else {
      LessIrreflexive(a[1..]);
    }
  }

  lemma {:induction false} LessTotal(a: seq<Byte>, b: seq<Byte>)
    ensures a == b || Less(a, b) || Less(b, a)
    ensures !(Less(a, b) && Less(b, a)) && !Less(a, a)
  {
    LessIrreflexive(a);
    if a != [] && b != [] {
      LessTotal(a[1..], b[1..]);
      if a[1..] == b[1..] && a[0] == b[0] {
        assert a == [a[0]] + a[1..] && b == [b[0]] + b[1..];
      }
    }
  }

  ghost predicate Ascending(s: seq<Record>) {
    forall i, j :: 0 <= i < j < |s| ==> Less(s[i].id, s[j].id)
  }

  function Position(s: seq<Record>, id: Text): (i: nat)
    ensures i <= |s|
    ensures forall j :: 0 <= j < i ==> s[j].id != id
    ensures i < |s| ==> s[i].id == id
  {
    if s == [] || s[0].id == id then 0 else 1 + Position(s[1..], id)
  }

  function Lookup(s: seq<Record>, id: Text): Option<Record> {
    var i := Position(s, id);
    if i < |s| then Some(s[i]) else None
  }

  /** Looking up an id finds the one stored record with that id. */
  lemma LookupMeans(s: seq<Record>, id: Text)
    requires Ascending(s)
    ensures forall r :: Lookup(s, id) == Some(r) <==> r in s && r.id == id
  {
    forall r | r in s && r.id == id
      ensures Lookup(s, id) == Some(r)
    {
      var j: nat :| j < |s| && s[j] == r;
      LookupAt(s, j);
    }
  }

  /** Where a new id goes: before the first larger one. */
  function InsertionPoint(s: seq<Record>, id: Text): (i: nat)
    ensures i <= |s|
    ensures forall j :: 0 <= j < i ==> !Less(id, s[j].id)
    ensures i < |s| ==> Less(id, s[i].id)
  {
    if s == [] || Less(id, s[0].id) then 0 else 1 + InsertionPoint(s[1..], id)
  }

  /** Insert or replace; replacing needs a strictly newer generation. */
  function Put(s: seq<Record>, r: Record): Result<seq<Record>, RecordError> {
    var i := Position(s, r.id);
    if i < |s| then
      if r.generation <= s[i].generation then Err(NonMonotonicGeneration(s[i].generation, r.generation)) else Ok(s[i := r])
    else
      var k := InsertionPoint(s, r.id);
      Ok(s[..k] + [r] + s[k..])
  }

  /** A put keeps the order, stores the record, and changes no other id. */
  lemma PutMeaning(s: seq<Record>, r: Record, id: Text)
    requires Ascending(s) && Put(s, r).Ok?
    ensures Ascending(Put(s, r).value)
    ensures Lookup(Put(s, r).value, id) == if id == r.id then Some(r) else Lookup(s, id)
  {
    var after := Put(s, r).value;
    PutAscending(s, r);
    if id == r.id {
      var j: nat :| j < |after| && after[j] == r;
      LookupAt(after, j);
    } else if Lookup(s, id).Some? {
      var i := Position(s, id);
      var j: nat :| j < |after| && after[j] == s[i];
      LookupAt(after, j);
    } else {
      forall j | 0 <= j < |after|
        ensures after[j].id != id
      {
        assert after[j] in after;
      }
    }
  }

  lemma LookupAt(s: seq<Record>, j: nat)
    requires Ascending(s) && j < |s|
    ensures Lookup(s, s[j].id) == Some(s[j])
  {
    var i := Position(s, s[j].id);
    if i != j {
      LessTotal(s[i].id, s[j].id);
    }
  }

  lemma PutAscending(s: seq<Record>, r: Record)
    requires Ascending(s) && Put(s, r).Ok?
    ensures Ascending(Put(s, r).value) && r in Put(s, r).value
    ensures forall x :: x in s && x.id != r.id ==> x in Put(s, r).value
    ensures forall x :: x in Put(s, r).value ==> x == r || x in s
  {
    hide Less;
    var i, after := Position(s, r.id), Put(s, r).value;
    if i == |s| {
      InsertAscending(s, r, InsertionPoint(s, r.id));
    } else {
      assert after[i] == r;
      assert forall j :: 0 <= j < |s| && j != i ==> after[j] == s[j];
    }
  }

  lemma InsertAscending(s: seq<Record>, r: Record, k: nat)
    requires Ascending(s) && k <= |s|
    requires forall j :: 0 <= j < k ==> !Less(r.id, s[j].id)
    requires k < |s| ==> Less(r.id, s[k].id)
    requires forall j :: 0 <= j < |s| ==> s[j].id != r.id
    ensures Ascending(s[..k] + [r] + s[k..])
  {
    hide Less;
    forall j | 0 <= j < |s|
      ensures if j < k then Less(s[j].id, r.id) else Less(r.id, s[j].id)
    {
      LessTotal(s[j].id, r.id);
      if j > k {
        LessTransitive(r.id, s[k].id, s[j].id);
      }
    }
    var after := s[..k] + [r] + s[k..];
    assert after[k] == r;
    assert forall j :: 0 <= j < k ==> after[j] == s[j];
    assert forall j :: k <= j < |s| ==> after[j + 1] == s[j];
    assert forall j :: k < j < |after| ==> after[j] == s[j - 1];
  }

  // -- visibility and purging ------------------------------------------------------------

  /** A record the filter hides is hidden; an id without a record passes. */
  predicate AdmitsId(s: seq<Record>, id: Text, f: Filter) {
    match Lookup(s, id)
    case Some(r) => AdmitsRecord(f, r)
    case None => true
  }

  /** `f` asks no earlier than `g`, in no wider a scope and with no more clearance. */
  predicate Narrower(f: Filter, g: Filter) {
    && f.now >= g.now && Rank(f.clearance) <= Rank(g.clearance)
    && (g.tenant.None? || f.tenant == g.tenant)
    && (g.workspace.None? || f.workspace == g.workspace)
    && (g.agent.None? || f.agent == g.agent)
  }

  /** What a filter hides, it hides at every later time and from every narrower filter. */
  lemma NarrowerAdmitsLess(s: seq<Record>, id: Text, f: Filter, g: Filter)
    requires Narrower(f, g) && AdmitsId(s, id, f)
    ensures AdmitsId(s, id, g)
  {
  }

  /** What a purge leaves of one lookup. */
  function Spared(r: Option<Record>, now: U64): Option<Record> {
    if r.Some? && PurgeableAt(r.value, now) then None else r
  }

  function Unpurgeable(s: seq<Record>, now: U64): seq<Record> {
    if s == [] then []
    else
      var front := Unpurgeable(s[..|s| - 1], now);
      if PurgeableAt(s[|s| - 1], now) then front else front + [s[|s| - 1]]
  }

  lemma {:induction false} UnpurgeableMembers(s: seq<Record>, now: U64)
    requires Ascending(s)
    ensures Ascending(Unpurgeable(s, now)) && |Unpurgeable(s, now)| <= |s|
    ensures forall x :: x in Unpurgeable(s, now) <==> (x in s && !PurgeableAt(x, now))
  {
    hide Less;
    if s == [] {
    } else {
      var front, last := s[..|s| - 1], s[|s| - 1];
      UnpurgeableMembers(front, now);
      assert s == front + [last];
      var rest := Unpurgeable(front, now);
      forall j | 0 <= j < |rest|
        ensures Less(rest[j].id, last.id)
      {
        assert rest[j] in rest;
        assert rest[j] in front;
      }
    }
  }

  lemma UnpurgeableMeaning(s: seq<Record>, now: U64)
    requires Ascending(s)
    ensures Ascending(Unpurgeable(s, now)) && |Unpurgeable(s, now)| <= |s|
    ensures forall id :: Lookup(Unpurgeable(s, now), id) == Spared(Lookup(s, id), now)
  {
    UnpurgeableMembers(s, now);
    var kept := Unpurgeable(s, now);
    forall id: Text
      ensures Lookup(kept, id) == Spared(Lookup(s, id), now)
    {
      hide Unpurgeable, PurgeableAt, Less;
      LookupMember(s, id);
      LookupMember(kept, id);
    }
  }

  /** A lookup finds the one record with the id. */
  lemma LookupMember(s: seq<Record>, id: Text)
    requires Ascending(s)
    ensures Lookup(s, id).Some? ==> Lookup(s, id).value in s && Lookup(s, id).value.id == id
    ensures forall x :: x in s && x.id == id ==> Lookup(s, id) == Some(x)
  {
    forall x | x in s && x.id == id
      ensures Lookup(s, id) == Some(x)
    {
      var j: nat :| j < |s| && s[j] == x;
      LookupAt(s, j);
    }
  }
}
