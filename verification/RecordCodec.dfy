/** The `RECS` v1 binary format of the record layer: printer, guarded parser, and the
    two directions of their round trip. */
module RecordCodec {
  import opened Wrappers
  import opened Bytes
  import opened Records

  const MAGIC: seq<Byte> := [82, 69, 67, 83]
  const VERSION: U32 := 1
  const MIN_ENCODED_RECORD_BYTES: nat := 54

  datatype LoadLimits = LoadLimits(maxFileBytes: nat, maxRecords: nat, maxPayloadBytes: nat)

  predicate Short(s: seq<Byte>) {
    |s| < 0x1_0000_0000
  }

  predicate ShortOpt(v: Option<seq<Byte>>) {
    v.Some? ==> Short(v.value)
  }

  // -- scope ------------------------------------------------------------------------

  function WriteScope(s: Scope, rest: Input): Input {
    WriteLpBytes(s.tenant, WriteLpBytes(s.workspace, WriteLpBytes(s.agent, rest)))
  }

  function ReadScope(r: Input): Read<Scope> {
    var (tenant, r) :- ReadLpString(r);
    var (workspace, r) :- ReadLpString(r);
    var (agent, r) :- ReadLpString(r);
    if Blank(tenant) || Blank(workspace) || Blank(agent) then Err(InvalidData) else Ok((Scope(tenant, workspace, agent), r))
  }

  predicate ScopeOk(s: Scope) {
    && !Blank(s.tenant) && !Blank(s.workspace) && !Blank(s.agent)
    && Short(s.tenant) && Short(s.workspace) && Short(s.agent)
  }

  lemma ScopeRoundTrip(s: Scope, rest: Input)
    requires ScopeOk(s)
    ensures ReadScope(WriteScope(s, rest)) == Ok((s, rest))
  {
    hide WriteLpBytes, ReadLpString;
    LpStringRoundTrip(s.tenant, WriteLpBytes(s.workspace, WriteLpBytes(s.agent, rest)));
    LpStringRoundTrip(s.workspace, WriteLpBytes(s.agent, rest));
    LpStringRoundTrip(s.agent, rest);
  }

  lemma ScopeExact(r: Input)
    ensures ReadScope(r).Ok? ==> ScopeOk(ReadScope(r).value.0) && r == WriteScope(ReadScope(r).value.0, ReadScope(r).value.1)
  {
    hide WriteLpBytes, ReadLpString, Blank;
    LpStringExact(r);
    if ReadLpString(r).Ok? {
      var r1 := ReadLpString(r).value.1;
      LpStringExact(r1);
      if ReadLpString(r1).Ok? {
        LpStringExact(ReadLpString(r1).value.1);
      }
    }
  }

  // -- provenance ---------------------------------------------------------------------

  function WriteProvenance(p: Provenance, rest: Input): Input {
    WriteLpBytes(p.source, WriteOptText(p.sourceRecord, WriteOptU64(p.observedAt, rest)))
  }

  function ReadProvenance(r: Input): Read<Provenance> {
    var (source, r) :- ReadLpString(r);
    if Blank(source) then Err(InvalidData)
    else
      var (sourceRecord, r) :- ReadOptText(r);
      if !NonBlank(sourceRecord) then Err(InvalidData)
      else
        var (observedAt, r) :- ReadOptU64(r);
        Ok((Provenance(source, sourceRecord, observedAt), r))
  }

  predicate ProvenanceOk(p: Provenance) {
    ValidProvenance(p) && Short(p.source) && ShortOpt(p.sourceRecord)
  }

  lemma ProvenanceRoundTrip(p: Provenance, rest: Input)
    requires ProvenanceOk(p)
    ensures ReadProvenance(WriteProvenance(p, rest)) == Ok((p, rest))
    ensures |WriteProvenance(p, rest)| >= 3 + |rest|
  {
    LpStringRoundTrip(p.source, WriteOptText(p.sourceRecord, WriteOptU64(p.observedAt, rest)));
    OptTextRoundTrip(p.sourceRecord, WriteOptU64(p.observedAt, rest));
    OptU64RoundTrip(p.observedAt, rest);
  }

  lemma ProvenanceExact(r: Input)
    ensures ReadProvenance(r).Ok? ==>
      ProvenanceOk(ReadProvenance(r).value.0) && r == WriteProvenance(ReadProvenance(r).value.0, ReadProvenance(r).value.1)
  {
    hide WriteLpBytes, ReadLpString, WriteOptText, ReadOptText, WriteOptU64, ReadOptU64, Blank;
    LpStringExact(r);
    if ReadLpString(r).Ok? {
      var r1 := ReadLpString(r).value.1;
      OptTextExact(r1);
      if ReadOptText(r1).Ok? {
        OptU64Exact(ReadOptText(r1).value.1);
      }
    }
  }

  function WriteProvenances(ps: seq<Provenance>, rest: Input): Input {
    if ps == [] then rest else WriteProvenance(ps[0], WriteProvenances(ps[1..], rest))
  }

  function ReadProvenances(n: nat, r: Input): Read<seq<Provenance>> {
    if n == 0 then Ok(([], r))
    else
      var (p, r) :- ReadProvenance(r);
      var (ps, r) :- ReadProvenances(n - 1, r);
      Ok(([p] + ps, r))
  }

  lemma {:induction false} ProvenancesRoundTrip(ps: seq<Provenance>, rest: Input)
    requires forall i :: 0 <= i < |ps| ==> ProvenanceOk(ps[i])
    ensures ReadProvenances(|ps|, WriteProvenances(ps, rest)) == Ok((ps, rest))
    ensures |WriteProvenances(ps, rest)| >= 3 * |ps| + |rest|
  {
    hide ReadProvenance, WriteProvenance, ProvenanceOk;
    if ps == [] {
    } else {
      ProvenancesRoundTrip(ps[1..], rest);
      ProvenanceRoundTrip(ps[0], WriteProvenances(ps[1..], rest));
      assert ps == [ps[0]] + ps[1..];
    }
  }

  lemma {:induction false} ProvenancesExact(n: nat, r: Input)
    ensures ReadProvenances(n, r).Ok? ==>
      var (ps, rest) := ReadProvenances(n, r).value;
      && |ps| == n && r == WriteProvenances(ps, rest)
      && forall i :: 0 <= i < |ps| ==> ProvenanceOk(ps[i])
  {
    hide WriteProvenance, ReadProvenance, ProvenanceOk;
    if n > 0 && ReadProvenances(n, r).Ok? {
      ProvenanceExact(r);
      var (p, r1) := ReadProvenance(r).value;
      ProvenancesExact(n - 1, r1);
      var (ps, rest) := ReadProvenances(n, r).value;
      assert ps[1..] == ReadProvenances(n - 1, r1).value.0;
    }
  }

  function WriteProvenanceList(ps: seq<Provenance>, rest: Input): Input {
    WriteU32(|ps| % 0x1_0000_0000, WriteProvenances(ps, rest))
  }

  function ReadProvenanceList(r: Input): Read<seq<Provenance>> {
    var (n, r) :- ReadU32(r);
    if !CountFits(n, 3, |r|) then Err(InvalidData) else ReadProvenances(n, r)
  }

  // -- relations ------------------------------------------------------------------------

  function KindCode(k: RelationKind): Byte {
    match k
    case Confirms => 0
    case Contradicts => 1
    case Supersedes => 2
    case SupersededBy => 3
  }

  function ReadKind(r: Input): Read<RelationKind> {
    var (code, r) :- ReadU8(r);
    if code == 0 then Ok((Confirms, r)) else if code == 1 then Ok((Contradicts, r))
    else if code == 2 then Ok((Supersedes, r)) else if code == 3 then Ok((SupersededBy, r))
    else Err(InvalidData)
  }

  function WriteRelation(x: Relation, rest: Input): Input {
    WriteU8(KindCode(x.kind), WriteLpBytes(x.target, rest))
  }

  function ReadId(r: Input): Read<Text> {
    var (id, r) :- ReadLpString(r);
    if Blank(id) then Err(InvalidData) else Ok((id, r))
  }

  function ReadRelation(r: Input): Read<Relation> {
    var (kind, r) :- ReadKind(r);
    var (target, r) :- ReadId(r);
    Ok((Relation(kind, target), r))
  }

  predicate RelationOk(x: Relation) {
    !Blank(x.target) && Short(x.target)
  }

  lemma RelationRoundTrip(x: Relation, rest: Input)
    requires RelationOk(x)
    ensures ReadRelation(WriteRelation(x, rest)) == Ok((x, rest))
    ensures |WriteRelation(x, rest)| >= 5 + |rest|
  {
    U8RoundTrip(KindCode(x.kind), WriteLpBytes(x.target, rest));
    LpStringRoundTrip(x.target, rest);
  }

  lemma RelationExact(r: Input)
    ensures ReadRelation(r).Ok? ==>
      RelationOk(ReadRelation(r).value.0) && r == WriteRelation(ReadRelation(r).value.0, ReadRelation(r).value.1)
  {
    U8Exact(r);
    if ReadU8(r).Ok? {
      LpStringExact(ReadU8(r).value.1);
    }
  }

  function WriteRelations(xs: seq<Relation>, rest: Input): Input {
    if xs == [] then rest else WriteRelation(xs[0], WriteRelations(xs[1..], rest))
  }

  function ReadRelations(n: nat, r: Input): Read<seq<Relation>> {
    if n == 0 then Ok(([], r))
    else
      var (x, r) :- ReadRelation(r);
      var (xs, r) :- ReadRelations(n - 1, r);
      Ok(([x] + xs, r))
  }

  lemma {:induction false} RelationsRoundTrip(xs: seq<Relation>, rest: Input)
    requires forall i :: 0 <= i < |xs| ==> RelationOk(xs[i])
    ensures ReadRelations(|xs|, WriteRelations(xs, rest)) == Ok((xs, rest))
    ensures |WriteRelations(xs, rest)| >= 5 * |xs| + |rest|
  {
    hide ReadRelation, WriteRelation, RelationOk;
    if xs == [] {
    } else {
      RelationsRoundTrip(xs[1..], rest);
      RelationRoundTrip(xs[0], WriteRelations(xs[1..], rest));
      assert xs == [xs[0]] + xs[1..];
    }
  }

  lemma {:induction false} RelationsExact(n: nat, r: Input)
    ensures ReadRelations(n, r).Ok? ==>
      var (xs, rest) := ReadRelations(n, r).value;
      && |xs| == n && r == WriteRelations(xs, rest)
      && forall i :: 0 <= i < |xs| ==> RelationOk(xs[i])
  {
    hide WriteRelation, ReadRelation, RelationOk;
    if n > 0 && ReadRelations(n, r).Ok? {
      RelationExact(r);
      var (x, r1) := ReadRelation(r).value;
      RelationsExact(n - 1, r1);
      var (xs, rest) := ReadRelations(n, r).value;
      assert xs[1..] == ReadRelations(n - 1, r1).value.0;
    }
  }

  function WriteRelationList(xs: seq<Relation>, rest: Input): Input {
    WriteU32(|xs| % 0x1_0000_0000, WriteRelations(xs, rest))
  }

  function ReadRelationList(r: Input): Read<seq<Relation>> {
    var (n, r) :- ReadU32(r);
    if !CountFits(n, 5, |r|) then Err(InvalidData) else ReadRelations(n, r)
  }

  lemma ProvenanceListRoundTrip(ps: seq<Provenance>, rest: Input)
    requires |ps| < 0x1_0000_0000 && forall i :: 0 <= i < |ps| ==> ProvenanceOk(ps[i])
    ensures ReadProvenanceList(WriteProvenanceList(ps, rest)) == Ok((ps, rest))
  {
    hide WriteU32, ReadU32, WriteProvenances, ReadProvenances, ProvenanceOk;
    ProvenancesRoundTrip(ps, rest);
    U32RoundTrip(|ps|, WriteProvenances(ps, rest));
  }

  lemma RelationListRoundTrip(xs: seq<Relation>, rest: Input)
    requires |xs| < 0x1_0000_0000 && forall i :: 0 <= i < |xs| ==> RelationOk(xs[i])
    ensures ReadRelationList(WriteRelationList(xs, rest)) == Ok((xs, rest))
  {
    hide WriteU32, ReadU32, WriteRelations, ReadRelations, RelationOk;
    RelationsRoundTrip(xs, rest);
    U32RoundTrip(|xs|, WriteRelations(xs, rest));
  }

  lemma ProvenanceListExact(r: Input)
    ensures ReadProvenanceList(r).Ok? ==>
      var (ps, rest) := ReadProvenanceList(r).value;
      && |ps| < 0x1_0000_0000 && r == WriteProvenanceList(ps, rest)
      && forall i :: 0 <= i < |ps| ==> ProvenanceOk(ps[i])
  {
    hide WriteU32, ReadU32, WriteProvenances, ReadProvenances, ProvenanceOk;
    if ReadProvenanceList(r).Ok? {
      U32Exact(r);
      var (n, r1) := ReadU32(r).value;
      ProvenancesExact(n, r1);
    }
  }

  lemma RelationListExact(r: Input)
    ensures ReadRelationList(r).Ok? ==>
      var (xs, rest) := ReadRelationList(r).value;
      && |xs| < 0x1_0000_0000 && r == WriteRelationList(xs, rest)
      && forall i :: 0 <= i < |xs| ==> RelationOk(xs[i])
  {
    hide WriteU32, ReadU32, WriteRelations, ReadRelations, RelationOk;
    if ReadRelationList(r).Ok? {
      U32Exact(r);
      var (n, r1) := ReadU32(r).value;
      RelationsExact(n, r1);
    }
  }

  // -- sensitivity, status, retention ---------------------------------------------------

  function ReadSensitivity(r: Input): Read<Sensitivity> {
    var (code, r) :- ReadU8(r);
    if code == 0 then Ok((Public, r)) else if code == 1 then Ok((Internal, r))
    else if code == 2 then Ok((Confidential, r)) else if code == 3 then Ok((Restricted, r))
    else Err(InvalidData)
  }

  function WriteStatus(s: Status, rest: Input): Input {
    match s
    case Active => WriteU8(0, rest)
    case Tombstoned(g) => WriteU8(1, WriteU64(g, rest))
    case Superseded(replacement, g) => WriteU8(2, WriteLpBytes(replacement, WriteU64(g, rest)))
  }

  function ReadStatus(r: Input): Read<Status> {
    var (code, r) :- ReadU8(r);
    if code == 0 then Ok((Active, r))
    else if code == 1 then
      var (g, r) :- ReadU64(r);
      Ok((Tombstoned(g), r))
    else if code == 2 then
      var (replacement, r) :- ReadId(r);
      var (g, r) :- ReadU64(r);
      Ok((Superseded(replacement, g), r))
    else Err(InvalidData)
  }

  predicate StatusOk(s: Status) {
    s.Superseded? ==> !Blank(s.replacement) && Short(s.replacement)
  }

  lemma StatusRoundTrip(s: Status, rest: Input)
    requires StatusOk(s)
    ensures ReadStatus(WriteStatus(s, rest)) == Ok((s, rest))
  {
    match s
    case Active =>
      U8RoundTrip(0, rest);
    case Tombstoned(g) =>
      U8RoundTrip(1, WriteU64(g, rest));
      U64RoundTrip(g, rest);
    case Superseded(replacement, g) =>
      U8RoundTrip(2, WriteLpBytes(replacement, WriteU64(g, rest)));
      LpStringRoundTrip(replacement, WriteU64(g, rest));
      U64RoundTrip(g, rest);
      hide WriteLpBytes, ReadLpString, WriteU64, ReadU64;
  }

  lemma StatusExact(r: Input)
    ensures ReadStatus(r).Ok? ==> StatusOk(ReadStatus(r).value.0) && r == WriteStatus(ReadStatus(r).value.0, ReadStatus(r).value.1)
  {
    hide WriteLpBytes, ReadLpString, WriteU64, ReadU64, Blank;
    U8Exact(r);
    if ReadU8(r).Ok? {
      var r1 := ReadU8(r).value.1;
      U64Exact(r1);
      LpStringExact(r1);
      if ReadLpString(r1).Ok? {
        U64Exact(ReadLpString(r1).value.1);
      }
    }
  }

  // -- embedding identity ---------------------------------------------------------------

  function WriteEmbedding(e: Embedding, rest: Input): Input {
    WriteLpBytes(e.provider, WriteLpBytes(e.model, WriteOptText(e.revision, WriteU64(e.dimension, WriteEmbeddingTail(e, rest)))))
  }

  function WriteEmbeddingTail(e: Embedding, rest: Input): Input {
    WriteOptText(e.projection, WriteOptText(e.quantization, rest))
  }

  /** Blank parts are refused only once the dimension was read, and a zero dimension first. */
  function ReadEmbedding(r: Input): Read<Embedding> {
    var (provider, r) :- ReadLpString(r);
    var (model, r) :- ReadLpString(r);
    var (revision, r) :- ReadOptText(r);
    var (dimension, r) :- ReadU64(r);
    if dimension == 0 || Blank(provider) || Blank(model) || !NonBlank(revision) then Err(InvalidData)
    else
      var (tail, r) :- ReadEmbeddingTail(r);
      Ok((Embedding(provider, model, revision, dimension, tail.0, tail.1), r))
  }

  function ReadEmbeddingTail(r: Input): Read<(Option<Text>, Option<Text>)> {
    var (projection, r) :- ReadOptText(r);
    if !NonBlank(projection) then Err(InvalidData)
    else
      var (quantization, r) :- ReadOptText(r);
      if !NonBlank(quantization) then Err(InvalidData) else Ok(((projection, quantization), r))
  }

  predicate EmbeddingOk(e: Embedding) {
    && ValidEmbedding(e)
    && Short(e.provider) && Short(e.model) && ShortOpt(e.revision) && ShortOpt(e.projection) && ShortOpt(e.quantization)
  }

  lemma EmbeddingRoundTrip(e: Embedding, rest: Input)
    requires EmbeddingOk(e)
    ensures ReadEmbedding(WriteEmbedding(e, rest)) == Ok((e, rest))
  {
    hide WriteLpBytes, ReadLpString, WriteOptText, ReadOptText, WriteU64, ReadU64, Blank;
    var r4 := WriteEmbeddingTail(e, rest);
    var r3 := WriteU64(e.dimension, r4);
    var r2 := WriteOptText(e.revision, r3);
    var r1 := WriteLpBytes(e.model, r2);
    LpStringRoundTrip(e.provider, r1);
    LpStringRoundTrip(e.model, r2);
    OptTextRoundTrip(e.revision, r3);
    U64RoundTrip(e.dimension, r4);
    OptTextRoundTrip(e.projection, WriteOptText(e.quantization, rest));
    OptTextRoundTrip(e.quantization, rest);
  }

  lemma EmbeddingTailExact(r: Input)
    ensures ReadEmbeddingTail(r).Ok? ==>
      var ((projection, quantization), rest) := ReadEmbeddingTail(r).value;
      && r == WriteOptText(projection, WriteOptText(quantization, rest))
      && NonBlank(projection) && NonBlank(quantization) && ShortOpt(projection) && ShortOpt(quantization)
  {
    hide WriteOptText, ReadOptText, Blank;
    OptTextExact(r);
    if ReadOptText(r).Ok? {
      OptTextExact(ReadOptText(r).value.1);
    }
  }

  lemma EmbeddingExact(r: Input)
    ensures ReadEmbedding(r).Ok? ==>
      EmbeddingOk(ReadEmbedding(r).value.0) && r == WriteEmbedding(ReadEmbedding(r).value.0, ReadEmbedding(r).value.1)
  {
    hide WriteLpBytes, ReadLpString, WriteOptText, ReadOptText, WriteU64, ReadU64, ReadEmbeddingTail, Blank;
    LpStringExact(r);
    if ReadEmbedding(r).Ok? {
      var r1 := ReadLpString(r).value.1;
      LpStringExact(r1);
      var r2 := ReadLpString(r1).value.1;
      OptTextExact(r2);
      var r3 := ReadOptText(r2).value.1;
      U64Exact(r3);
      EmbeddingTailExact(ReadU64(r3).value.1);
    }
  }

  // -- one record ---------------------------------------------------------------------

  function WriteRecord(x: Record, rest: Input): Input {
    WriteLpBytes(x.id, WriteLpBytes(x.payload, WriteScope(x.scope, WriteProvenanceList(x.provenance, WriteBody(x, rest)))))
  }

  function WriteBody(x: Record, rest: Input): Input {
    WriteOptU64(x.createdAt, WriteU64(x.generation, WriteOptText(x.causalRegion, WriteU8(Rank(x.sensitivity), WriteStatus(x.status, WriteEnd(x, rest))))))
  }

  function WriteEnd(x: Record, rest: Input): Input {
    WriteOptU64(x.retention.expiresAt, WriteOptU64(x.retention.retainUntil, WriteEmbedding(x.embedding, WriteRelationList(x.relations, rest))))
  }

  /** The payload is charged against the budget before it is copied. */
  function ReadPayload(r: Input, used: nat, limits: LoadLimits): Read<seq<Byte>> {
    var (n, r) :- ReadU32(r);
    if !CountFits(n, 1, |r|) || used + n > limits.maxPayloadBytes then Err(InvalidData) else Ok((r[..n], r[n..]))
  }

  datatype Body = Body(createdAt: Option<U64>, generation: U64, causalRegion: Option<Text>, sensitivity: Sensitivity, status: Status)

  function ReadBody(r: Input): Read<Body> {
    var (createdAt, r) :- ReadOptU64(r);
    var (generation, r) :- ReadU64(r);
    var (causalRegion, r) :- ReadOptText(r);
    var (sensitivity, r) :- ReadSensitivity(r);
    var (status, r) :- ReadStatus(r);
    Ok((Body(createdAt, generation, causalRegion, sensitivity, status), r))
  }

  datatype End = End(retention: Retention, embedding: Embedding, relations: seq<Relation>)

  function ReadEnd(r: Input): Read<End> {
    var (expiresAt, r) :- ReadOptU64(r);
    var (retainUntil, r) :- ReadOptU64(r);
    var (embedding, r) :- ReadEmbedding(r);
    var (relations, r) :- ReadRelationList(r);
    Ok((End(Retention(expiresAt, retainUntil), embedding, relations), r))
  }

  function Assembled(id: Text, payload: seq<Byte>, scope: Scope, provenance: seq<Provenance>, b: Body, e: End): Record {
    Record(id, payload, scope, provenance, b.createdAt, b.generation, b.causalRegion, b.sensitivity, b.status,
           e.retention, e.embedding, e.relations)
  }

  /** A blank id is noticed only after everything else was read. */
  function ReadRecord(r: Input, used: nat, limits: LoadLimits): Read<Record> {
    var (id, r) :- ReadLpString(r);
    var (payload, r) :- ReadPayload(r, used, limits);
    var (scope, r) :- ReadScope(r);
    var (provenance, r) :- ReadProvenanceList(r);
    var (b, r) :- ReadBody(r);
    var (e, r) :- ReadEnd(r);
    if Blank(id) then Err(InvalidData) else Ok((Assembled(id, payload, scope, provenance, b, e), r))
  }

  /** What encoding can represent: valid parts whose lengths and counts fit 32 bits. */
  predicate BodyOk(x: Record) {
    ShortOpt(x.causalRegion) && StatusOk(x.status)
  }

  predicate EndOk(x: Record) {
    && EmbeddingOk(x.embedding) && |x.relations| < 0x1_0000_0000
    && forall i :: 0 <= i < |x.relations| ==> RelationOk(x.relations[i])
  }

  predicate RecordOk(x: Record) {
    && !Blank(x.id) && Short(x.id) && Short(x.payload) && ScopeOk(x.scope)
    && |x.provenance| < 0x1_0000_0000
    && (forall i :: 0 <= i < |x.provenance| ==> ProvenanceOk(x.provenance[i]))
    && BodyOk(x) && EndOk(x)
  }

  lemma SensitivityRoundTrip(v: Sensitivity, rest: Input)
    ensures ReadSensitivity(WriteU8(Rank(v), rest)) == Ok((v, rest))
  {
    U8RoundTrip(Rank(v), rest);
  }

  lemma SensitivityExact(r: Input)
    ensures ReadSensitivity(r).Ok? ==> r == WriteU8(Rank(ReadSensitivity(r).value.0), ReadSensitivity(r).value.1)
  {
    U8Exact(r);
  }

  lemma PayloadRoundTrip(b: seq<Byte>, rest: Input, used: nat, limits: LoadLimits)
    requires Short(b) && used + |b| <= limits.maxPayloadBytes
    ensures ReadPayload(WriteLpBytes(b, rest), used, limits) == Ok((b, rest))
  {
    U32RoundTrip(|b|, b + rest);
    assert (b + rest)[..|b|] == b && (b + rest)[|b|..] == rest;
  }

  lemma PayloadExact(r: Input, used: nat, limits: LoadLimits)
    ensures ReadPayload(r, used, limits).Ok? ==>
      var (b, rest) := ReadPayload(r, used, limits).value;
      Short(b) && used + |b| <= limits.maxPayloadBytes && r == WriteLpBytes(b, rest)
  {
    LpBytesExact(r);
  }

  lemma BodyRoundTrip(x: Record, rest: Input)
    requires BodyOk(x)
    ensures ReadBody(WriteBody(x, rest)) ==
      Ok((Body(x.createdAt, x.generation, x.causalRegion, x.sensitivity, x.status), WriteEnd(x, rest)))
  {
    hide WriteOptU64, ReadOptU64, WriteU64, ReadU64, WriteOptText, ReadOptText, WriteU8, ReadSensitivity, WriteStatus, ReadStatus, StatusOk, WriteEnd;
    var r4 := WriteStatus(x.status, WriteEnd(x, rest));
    var r3 := WriteU8(Rank(x.sensitivity), r4);
    var r2 := WriteOptText(x.causalRegion, r3);
    var r1 := WriteU64(x.generation, r2);
    OptU64RoundTrip(x.createdAt, r1);
    U64RoundTrip(x.generation, r2);
    OptTextRoundTrip(x.causalRegion, r3);
    SensitivityRoundTrip(x.sensitivity, r4);
    StatusRoundTrip(x.status, WriteEnd(x, rest));
  }

  lemma BodyExact(r: Input, x: Record, rest: Input)
    requires ReadBody(r).Ok?
    requires ReadBody(r).value.0 == Body(x.createdAt, x.generation, x.causalRegion, x.sensitivity, x.status)
    requires ReadBody(r).value.1 == WriteEnd(x, rest)
    ensures BodyOk(x) && r == WriteBody(x, rest)
  {
    hide WriteOptU64, ReadOptU64, WriteU64, ReadU64, WriteOptText, ReadOptText, WriteU8, ReadSensitivity, WriteStatus, ReadStatus, StatusOk, WriteEnd;
    OptU64Exact(r);
    var r1 := ReadOptU64(r).value.1;
    U64Exact(r1);
    var r2 := ReadU64(r1).value.1;
    OptTextExact(r2);
    var r3 := ReadOptText(r2).value.1;
    SensitivityExact(r3);
    StatusExact(ReadSensitivity(r3).value.1);
  }

  lemma EndRoundTrip(x: Record, rest: Input)
    requires EndOk(x)
    ensures ReadEnd(WriteEnd(x, rest)) == Ok((End(x.retention, x.embedding, x.relations), rest))
  {
    hide WriteOptU64, ReadOptU64, WriteEmbedding, ReadEmbedding, WriteRelationList, ReadRelationList, EmbeddingOk, RelationOk;
    var r3 := WriteRelationList(x.relations, rest);
    var r2 := WriteEmbedding(x.embedding, r3);
    var r1 := WriteOptU64(x.retention.retainUntil, r2);
    OptU64RoundTrip(x.retention.expiresAt, r1);
    OptU64RoundTrip(x.retention.retainUntil, r2);
    EmbeddingRoundTrip(x.embedding, r3);
    RelationListRoundTrip(x.relations, rest);
  }

  lemma EndExact(r: Input, x: Record)
    requires ReadEnd(r).Ok?
    requires ReadEnd(r).value.0 == End(x.retention, x.embedding, x.relations)
    ensures EndOk(x) && r == WriteEnd(x, ReadEnd(r).value.1)
  {
    hide WriteOptU64, ReadOptU64, WriteEmbedding, ReadEmbedding, WriteRelationList, ReadRelationList, EmbeddingOk, RelationOk;
    OptU64Exact(r);
    var r1 := ReadOptU64(r).value.1;
    OptU64Exact(r1);
    var r2 := ReadOptU64(r1).value.1;
    EmbeddingExact(r2);
    RelationListExact(ReadEmbedding(r2).value.1);
  }

  /** A payload over the budget is refused before it is copied. */
  lemma PayloadRefused(x: Record, rest: Input, used: nat, limits: LoadLimits)
    requires RecordOk(x) && used + |x.payload| > limits.maxPayloadBytes
    ensures ReadRecord(WriteRecord(x, rest), used, limits).Err?
  {
    hide ReadLpString, WriteScope, ReadScope, WriteProvenanceList, ReadProvenanceList, WriteBody, ReadBody, ReadEnd, ReadU32, WriteU32;
    hide ScopeOk, ProvenanceOk, BodyOk, EndOk, Blank;
    var r2 := WriteScope(x.scope, WriteProvenanceList(x.provenance, WriteBody(x, rest)));
    LpStringRoundTrip(x.id, WriteLpBytes(x.payload, r2));
    U32RoundTrip(|x.payload|, x.payload + r2);
  }

  /** Reading what was written gives the record back and leaves exactly the rest. */
  lemma RecordRoundTrip(x: Record, rest: Input, used: nat, limits: LoadLimits)
    requires RecordOk(x) && used + |x.payload| <= limits.maxPayloadBytes
    ensures ReadRecord(WriteRecord(x, rest), used, limits) == Ok((x, rest))
  {
    hide WriteLpBytes, ReadLpString, ReadPayload, WriteScope, ReadScope, WriteProvenanceList, ReadProvenanceList, WriteBody, ReadBody, ReadEnd, WriteEnd;
    hide ScopeOk, ProvenanceOk, BodyOk, EndOk, Blank;
    var r4 := WriteBody(x, rest);
    var r3 := WriteProvenanceList(x.provenance, r4);
    var r2 := WriteScope(x.scope, r3);
    var r1 := WriteLpBytes(x.payload, r2);
    LpStringRoundTrip(x.id, r1);
    PayloadRoundTrip(x.payload, r2, used, limits);
    ScopeRoundTrip(x.scope, r3);
    ProvenanceListRoundTrip(x.provenance, r4);
    BodyRoundTrip(x, rest);
    EndRoundTrip(x, rest);
  }

  /** Whatever reads as a record is exactly that record's encoding. */
  lemma RecordExact(r: Input, used: nat, limits: LoadLimits)
    requires ReadRecord(r, used, limits).Ok?
    ensures var (x, rest) := ReadRecord(r, used, limits).value;
      RecordOk(x) && used + |x.payload| <= limits.maxPayloadBytes && r == WriteRecord(x, rest)
  {
    hide WriteLpBytes, ReadLpString, ReadPayload, WriteScope, ReadScope, WriteProvenanceList, ReadProvenanceList, WriteBody, ReadBody, ReadEnd, WriteEnd;
    hide ScopeOk, ProvenanceOk, BodyOk, EndOk, Blank;
    var (x, rest) := ReadRecord(r, used, limits).value;
    LpStringExact(r);
    var r1 := ReadLpString(r).value.1;
    PayloadExact(r1, used, limits);
    var r2 := ReadPayload(r1, used, limits).value.1;
    ScopeExact(r2);
    var r3 := ReadScope(r2).value.1;
    ProvenanceListExact(r3);
    var r4 := ReadProvenanceList(r3).value.1;
    EndExact(ReadBody(r4).value.1, x);
    BodyExact(r4, x, rest);
  }

  /** The guard constant is a lower bound: no record encodes shorter. */
  lemma RecordLength(x: Record, rest: Input)
    requires RecordOk(x)
    ensures |WriteRecord(x, rest)| >= MIN_ENCODED_RECORD_BYTES + |rest|
  {
    hide Blank, ProvenanceOk, RelationOk, ValidEmbedding, WriteProvenances, WriteRelations, LittleEndian;
    ProvenancesRoundTrip(x.provenance, WriteBody(x, rest));
    RelationsRoundTrip(x.relations, rest);
    EndLength(x, rest);
    BodyLength(x, rest);
    hide WriteBody, WriteEnd;
  }

  lemma EndLength(x: Record, rest: Input)
    requires EndOk(x)
    ensures |WriteEnd(x, rest)| >= 25 + |rest|
  {
    hide Blank, RelationOk, ValidEmbedding, WriteRelations, LittleEndian;
    RelationsRoundTrip(x.relations, rest);
  }

  lemma BodyLength(x: Record, rest: Input)
    ensures |WriteBody(x, rest)| >= 12 + |WriteEnd(x, rest)|
  {
    hide WriteEnd, LittleEndian;
  }

  // -- appending ----------------------------------------------------------------------

  lemma U32Append(n: U32, a: Input, b: Input)
    ensures WriteU32(n, a) + b == WriteU32(n, a + b)
  {
  }

  lemma U64Append(n: U64, a: Input, b: Input)
    ensures WriteU64(n, a) + b == WriteU64(n, a + b)
  {
  }

  lemma LpAppend(s: seq<Byte>, a: Input, b: Input)
    ensures WriteLpBytes(s, a) + b == WriteLpBytes(s, a + b)
  {
    U32Append(|s| % 0x1_0000_0000, s + a, b);
    assert s + a + b == s + (a + b);
  }

  lemma U8Append(n: Byte, a: Input, b: Input)
    ensures WriteU8(n, a) + b == WriteU8(n, a + b)
  {
  }

  lemma OptAppend(v: Option<Text>, n: Option<U64>, a: Input, b: Input)
    ensures WriteOptText(v, a) + b == WriteOptText(v, a + b)
    ensures WriteOptU64(n, a) + b == WriteOptU64(n, a + b)
  {
    hide WriteU8, WriteU64, WriteLpBytes;
    U8Append(0, a, b);
    if v.Some? {
      LpAppend(v.value, a, b);
      U8Append(1, WriteLpBytes(v.value, a), b);
    }
    if n.Some? {
      U64Append(n.value, a, b);
      U8Append(1, WriteU64(n.value, a), b);
    }
  }

  lemma ScopeAppend(s: Scope, a: Input, b: Input)
    ensures WriteScope(s, a) + b == WriteScope(s, a + b)
  {
    hide WriteLpBytes;
    LpAppend(s.agent, a, b);
    LpAppend(s.workspace, WriteLpBytes(s.agent, a), b);
    LpAppend(s.tenant, WriteLpBytes(s.workspace, WriteLpBytes(s.agent, a)), b);
  }

  lemma {:induction false} ProvenancesAppend(ps: seq<Provenance>, a: Input, b: Input)
    ensures WriteProvenances(ps, a) + b == WriteProvenances(ps, a + b)
  {
    hide WriteLpBytes, WriteOptText, WriteOptU64;
    if ps == [] {
    } else {
      ProvenancesAppend(ps[1..], a, b);
      var p, r := ps[0], WriteProvenances(ps[1..], a);
      OptAppend(p.sourceRecord, p.observedAt, r, b);
      OptAppend(p.sourceRecord, p.observedAt, WriteOptU64(p.observedAt, r), b);
      LpAppend(p.source, WriteOptText(p.sourceRecord, WriteOptU64(p.observedAt, r)), b);
    }
  }

  lemma {:induction false} RelationsAppend(xs: seq<Relation>, a: Input, b: Input)
    ensures WriteRelations(xs, a) + b == WriteRelations(xs, a + b)
  {
    hide WriteLpBytes;
    if xs == [] {
    } else {
      RelationsAppend(xs[1..], a, b);
      var r := WriteRelations(xs[1..], a);
      LpAppend(xs[0].target, r, b);
      U8Append(KindCode(xs[0].kind), WriteLpBytes(xs[0].target, r), b);
    }
  }

  lemma StatusAppend(s: Status, a: Input, b: Input)
    ensures WriteStatus(s, a) + b == WriteStatus(s, a + b)
  {
    hide WriteLpBytes, WriteU64, WriteU8;
    match s
    case Active =>
      U8Append(0, a, b);
    case Tombstoned(g) =>
      U64Append(g, a, b);
      U8Append(1, WriteU64(g, a), b);
    case Superseded(replacement, g) =>
      U64Append(g, a, b);
      LpAppend(replacement, WriteU64(g, a), b);
      U8Append(2, WriteLpBytes(replacement, WriteU64(g, a)), b);
  }

  lemma EmbeddingAppend(e: Embedding, a: Input, b: Input)
    ensures WriteEmbedding(e, a) + b == WriteEmbedding(e, a + b)
  {
    hide WriteLpBytes, WriteOptText, WriteU64;
    var r4 := WriteOptText(e.quantization, a);
    var r3 := WriteOptText(e.projection, r4);
    var r2 := WriteU64(e.dimension, r3);
    var r1 := WriteOptText(e.revision, r2);
    OptAppend(e.quantization, None, a, b);
    OptAppend(e.projection, None, r4, b);
    U64Append(e.dimension, r3, b);
    OptAppend(e.revision, None, r2, b);
    LpAppend(e.model, r1, b);
    LpAppend(e.provider, WriteLpBytes(e.model, r1), b);
  }

  lemma EndAppend(x: Record, a: Input, b: Input)
    ensures WriteEnd(x, a) + b == WriteEnd(x, a + b)
  {
    hide WriteOptU64, WriteEmbedding, WriteRelations, WriteU32;
    var r4 := WriteRelations(x.relations, a);
    var r3 := WriteRelationList(x.relations, a);
    var r2 := WriteEmbedding(x.embedding, r3);
    RelationsAppend(x.relations, a, b);
    U32Append(|x.relations| % 0x1_0000_0000, r4, b);
    EmbeddingAppend(x.embedding, r3, b);
    OptAppend(None, x.retention.retainUntil, r2, b);
    OptAppend(None, x.retention.expiresAt, WriteOptU64(x.retention.retainUntil, r2), b);
  }

  lemma BodyAppend(x: Record, a: Input, b: Input)
    ensures WriteBody(x, a) + b == WriteBody(x, a + b)
  {
    hide WriteOptU64, WriteOptText, WriteU64, WriteU8, WriteStatus, WriteEnd;
    var r4 := WriteStatus(x.status, WriteEnd(x, a));
    var r3 := WriteU8(Rank(x.sensitivity), r4);
    var r2 := WriteOptText(x.causalRegion, r3);
    EndAppend(x, a, b);
    StatusAppend(x.status, WriteEnd(x, a), b);
    U8Append(Rank(x.sensitivity), r4, b);
    OptAppend(x.causalRegion, None, r3, b);
    U64Append(x.generation, r2, b);
    OptAppend(None, x.createdAt, WriteU64(x.generation, r2), b);
  }

  /** Writing before some bytes is writing, then appending them. */
  lemma RecordAppend(x: Record, a: Input, b: Input)
    ensures WriteRecord(x, a) + b == WriteRecord(x, a + b)
  {
    hide WriteLpBytes, WriteScope, WriteProvenances, WriteU32, WriteBody;
    var r4 := WriteBody(x, a);
    var r3 := WriteProvenances(x.provenance, r4);
    var r2 := WriteProvenanceList(x.provenance, r4);
    var r1 := WriteScope(x.scope, r2);
    BodyAppend(x, a, b);
    ProvenancesAppend(x.provenance, r4, b);
    U32Append(|x.provenance| % 0x1_0000_0000, r3, b);
    ScopeAppend(x.scope, r2, b);
    LpAppend(x.payload, r1, b);
    LpAppend(x.id, WriteLpBytes(x.payload, r1), b);
  }
}
