/** The global snapshot of a sharded store: every region and the record layer in one
    generation, selected by one pointer. Regions are themselves generation stores. */
module ShardedStore {
  import opened Wrappers
  import G = Generations
  import opened Faults
  import opened GenerationNumbers
  import opened Pruning
  import S = GenerationStore

  datatype Store = Store(dim: nat, regions: map<string, G.Memory>, records: int)

  predicate WellFormed(s: Store) {
    forall r :: r in s.regions ==> G.Coupled(s.regions[r]) && s.regions[r].dim == s.dim
  }

  datatype Target = LegacyTarget | GenerationTarget(n: nat)

  datatype File =
    | RecordsFile(records: int)
    | ManifestFile(dim: nat, regionHashes: map<string, G.Digest>, recordsHash: Digest)
    | LegacyManifestFile(dim: nat, regions: set<string>, hasRecords: bool)
    | PointerFile(target: Target, manifestHash: Digest)
    | TornFile

  datatype Digest = Digest(content: File)

  datatype Dir = Dir(regions: map<string, G.Disk>, records: Option<File>, manifest: Option<File>)

  const EMPTY_RECORDS: int := 0
  const EMPTY_DIR := Dir(map[], None, None)
  const EMPTY_DISK := G.Disk(map[], map[], map[], 0, None, None, None, None)

  /** `legacy` is the v1/v2 layout kept directly in the root; a v1 manifest, or a v2 one
      without the flag, has no record layer. */
  datatype Disk = Disk(generations: map<nat, Dir>, staging: map<nat, Dir>, temps: map<nat, File>, nextNonce: nat,
                       current: Option<File>, previous: Option<File>, legacy: Dir)

  datatype OpenError = BadPointer | NotADirectory | NoManifest | ManifestHashMismatch | BadManifest
                     | DimensionMismatch | RegionMismatch | RecordsMismatch | NoPointer

  datatype Request = Request(dim: nat, maxRecords: nat)

  // -- opening -------------------------------------------------------------------

  predicate RegionOpens(dirs: map<string, G.Disk>, r: string, unix: bool, q: Request) {
    r in dirs && G.Open(dirs[r], unix, G.Request(q.dim, None, q.maxRecords)).Ok?
  }

  predicate RegionBound(dirs: map<string, G.Disk>, r: string, hash: G.Digest) {
    r in dirs && dirs[r].current.Some? && G.Digest(dirs[r].current.value) == hash
  }

  function OpenDir(dir: Dir, unix: bool, q: Request): Result<Store, OpenError> {
    match dir.manifest
    case None => Err(NoManifest)
    case Some(ManifestFile(dim, hashes, recordsHash)) =>
      if dim != q.dim then Err(DimensionMismatch)
      else if !(forall r :: r in hashes ==> RegionBound(dir.regions, r, hashes[r]) && RegionOpens(dir.regions, r, unix, q)) then Err(RegionMismatch)
      else if dir.records.None? || !dir.records.value.RecordsFile? || Digest(dir.records.value) != recordsHash then Err(RecordsMismatch)
      else Ok(Store(dim, OpenedRegions(dir.regions, hashes.Keys, unix, q), dir.records.value.records))
    case Some(LegacyManifestFile(dim, regions, hasRecords)) =>
      if dim != q.dim then Err(DimensionMismatch)
      else if !(forall r :: r in regions ==> RegionOpens(dir.regions, r, unix, q)) then Err(RegionMismatch)
      else if !hasRecords then Ok(Store(dim, OpenedRegions(dir.regions, regions, unix, q), EMPTY_RECORDS))
      else if dir.records.None? || !dir.records.value.RecordsFile? then Err(RecordsMismatch)
      else Ok(Store(dim, OpenedRegions(dir.regions, regions, unix, q), dir.records.value.records))
    case _ => Err(BadManifest)
  }

  function OpenedRegions(dirs: map<string, G.Disk>, regions: set<string>, unix: bool, q: Request): map<string, G.Memory>
    requires forall r :: r in regions ==> RegionOpens(dirs, r, unix, q)
  {
    map r | r in regions :: OpenedRegion(dirs, r, unix, q)
  }

  function OpenedRegion(dirs: map<string, G.Disk>, r: string, unix: bool, q: Request): G.Memory
    requires RegionOpens(dirs, r, unix, q)
  {
    G.Open(dirs[r], unix, G.Request(q.dim, None, q.maxRecords)).value
  }

  function Authority(d: Disk, unix: bool): Option<File> {
    if d.current.Some? then d.current else if !unix then d.previous else None
  }

  function TargetDir(d: Disk, t: Target): Option<Dir> {
    match t
    case LegacyTarget => Some(d.legacy)
    case GenerationTarget(n) => if n in d.generations then Some(d.generations[n]) else None
  }

  function OpenPointer(d: Disk, pointer: File, unix: bool, q: Request): Result<Store, OpenError> {
    match pointer
    case PointerFile(target, hash) =>
      (match TargetDir(d, target)
       case None => Err(NotADirectory)
       case Some(dir) =>
         if dir.manifest.None? || Digest(dir.manifest.value) != hash then Err(ManifestHashMismatch)
         else OpenDir(dir, unix, q))
    case _ => Err(BadPointer)
  }

  /** Without a pointer the legacy root is read only while no global generation exists. */
  function Open(d: Disk, unix: bool, q: Request): Result<Store, OpenError> {
    var authority := Authority(d, unix);
    if authority.Some? then OpenPointer(d, authority.value, unix, q)
    else if d.generations.Keys != {} then Err(NoPointer)
    else OpenDir(d.legacy, unix, q)
  }

  /** What a directory opens to: exactly the regions its manifest lists, each opened from
      its own store, and its record layer. A current manifest binds every region's pointer
      and the records by their digests; a legacy one binds nothing, and without the flag
      there are no records. */
  lemma OpensIff(dir: Dir, unix: bool, q: Request, s: Store)
    ensures OpenDir(dir, unix, q) == Ok(s) <==>
      && dir.manifest.Some? && s.dim == q.dim
      && (forall r :: r in s.regions ==>
            r in dir.regions && G.Open(dir.regions[r], unix, G.Request(q.dim, None, q.maxRecords)) == Ok(s.regions[r]))
      && match dir.manifest.value
         case ManifestFile(dim, hashes, recordsHash) =>
           && dim == q.dim && s.regions.Keys == hashes.Keys
           && (forall r :: r in hashes ==> dir.regions[r].current.Some? && G.Digest(dir.regions[r].current.value) == hashes[r])
           && dir.records == Some(RecordsFile(s.records)) && recordsHash == Digest(RecordsFile(s.records))
         case LegacyManifestFile(dim, regions, hasRecords) =>
           && dim == q.dim && s.regions.Keys == regions
           && (if hasRecords then dir.records == Some(RecordsFile(s.records)) else s.records == EMPTY_RECORDS)
         case _ => false
  {
    hide G.Open;
    if OpenDir(dir, unix, q).Ok? && OpenDir(dir, unix, q).value.regions.Keys == s.regions.Keys
       && (forall r :: r in s.regions ==> OpenDir(dir, unix, q).value.regions[r] == s.regions[r]) {
      assert OpenDir(dir, unix, q).value.regions == s.regions;
    }
  }

  /** What a pointer opens to: the directory it names, if that has the manifest it binds. */
  lemma PointerOpensIff(d: Disk, pointer: File, unix: bool, q: Request, s: Store)
    ensures OpenPointer(d, pointer, unix, q) == Ok(s) <==>
      && pointer.PointerFile?
      && (pointer.target.GenerationTarget? ==> pointer.target.n in d.generations)
      && var dir := if pointer.target.LegacyTarget? then d.legacy else d.generations[pointer.target.n];
         dir.manifest.Some? && Digest(dir.manifest.value) == pointer.manifestHash && OpenDir(dir, unix, q) == Ok(s)
  {
    hide OpenDir;
  }

  /** Readers obey CURRENT. The moved-aside pointer counts off Unix only, and there only
      while CURRENT is missing. */
  lemma ReadersPointer(d: Disk, moved: File, unix: bool, q: Request)
    ensures unix || d.current.Some? ==> Open(d.(previous := Some(moved)), unix, q) == Open(d, unix, q)
    ensures d.current.None? ==> Open(d.(previous := Some(moved)), false, q) == OpenPointer(d, moved, false, q)
    ensures d.current.Some? ==> Open(d, unix, q) == OpenPointer(d, d.current.value, unix, q)
  {
    hide OpenDir;
  }

  // -- complete snapshots -----------------------------------------------------------

  function ManifestOf(s: Store): File {
    ManifestFile(s.dim, map r | r in s.regions :: G.Digest(G.PointerTo(s.regions[r], None, 1)), Digest(RecordsFile(s.records)))
  }

  /** A nested region store holding exactly one save of `m`. */
  ghost predicate Nested(disk: G.Disk, m: G.Memory) {
    disk.current == Some(G.PointerTo(m, None, 1)) && G.Names(disk, disk.current.value, m, None)
  }

  ghost predicate HoldsSnapshot(dir: Dir, s: Store) {
    && dir.manifest == Some(ManifestOf(s))
    && dir.records == Some(RecordsFile(s.records))
    && forall r :: r in s.regions ==> r in dir.regions && Nested(dir.regions[r], s.regions[r])
  }

  function PointerTo(s: Store, n: nat): File {
    PointerFile(GenerationTarget(n), Digest(ManifestOf(s)))
  }

  ghost predicate Names(d: Disk, pointer: File, s: Store) {
    && pointer.PointerFile? && pointer.target.GenerationTarget?
    && pointer == PointerTo(s, pointer.target.n)
    && pointer.target.n in d.generations
    && HoldsSnapshot(d.generations[pointer.target.n], s)
  }

  predicate Asks(q: Request, s: Store) {
    q.dim == s.dim && forall r :: r in s.regions ==> s.regions[r].sketch.count <= q.maxRecords
  }

  lemma SnapshotOpens(dir: Dir, s: Store, unix: bool, q: Request)
    requires WellFormed(s) && HoldsSnapshot(dir, s) && Asks(q, s)
    ensures OpenDir(dir, unix, q) == Ok(s)
  {
    hide RegionBound, RegionOpens, OpenedRegion, Nested, G.PointerTo;
    var hashes := ManifestOf(s).regionHashes;
    forall r | r in hashes
      ensures RegionBound(dir.regions, r, hashes[r]) && RegionOpens(dir.regions, r, unix, q)
      ensures OpenedRegion(dir.regions, r, unix, q) == s.regions[r]
    {
      RegionMatches(dir.regions, r, s.regions[r], unix, q);
    }
    assert OpenedRegions(dir.regions, hashes.Keys, unix, q) == s.regions;
  }

  lemma RegionMatches(dirs: map<string, G.Disk>, r: string, m: G.Memory, unix: bool, q: Request)
    requires r in dirs && Nested(dirs[r], m) && G.Coupled(m) && m.dim == q.dim && m.sketch.count <= q.maxRecords
    ensures RegionBound(dirs, r, G.Digest(G.PointerTo(m, None, 1))) && RegionOpens(dirs, r, unix, q)
    ensures OpenedRegion(dirs, r, unix, q) == m
  {
    hide G.Open;
    RegionReopens(dirs[r], m, unix, q);
  }

  /** A named snapshot opens to its regions and its records, together. */
  lemma NamedOpens(d: Disk, unix: bool, pointer: File, s: Store, q: Request)
    requires WellFormed(s) && Names(d, pointer, s) && Authority(d, unix) == Some(pointer) && Asks(q, s)
    ensures Open(d, unix, q) == Ok(s)
  {
    SnapshotOpens(d.generations[pointer.target.n], s, unix, q);
    hide OpenDir;
  }

  lemma RegionReopens(disk: G.Disk, m: G.Memory, unix: bool, q: Request)
    requires Nested(disk, m) && G.Coupled(m) && m.dim == q.dim && m.sketch.count <= q.maxRecords
    ensures G.Open(disk, unix, G.Request(q.dim, None, q.maxRecords)) == Ok(m)
  {
    G.NamedOpens(disk, unix, disk.current.value, m, None, G.Request(q.dim, None, q.maxRecords));
  }

  // -- what a save may leave behind --------------------------------------------------

  ghost function Next(d: Disk): nat {
    NumberAfter(d.generations.Keys)
  }

  /** Off Unix, a pointer that only survives as the moved-aside copy. */
  predicate AtRisk(d: Disk, unix: bool) {
    !unix && d.current.None? && d.previous.Some?
  }

  /** A save starts by pointing CURRENT at the legacy root. */
  predicate Unnamed(d: Disk) {
    d.current.None? && d.legacy.manifest.Some? && d.generations.Keys == {}
  }

  /** A save refuses to do that once a generation exists. */
  predicate Stuck(d: Disk) {
    d.current.None? && d.legacy.manifest.Some? && d.generations.Keys != {}
  }

  /** The states in which an interrupted save can leave readers without any pointer. */
  ghost predicate CanLosePointer(d: Disk, unix: bool) {
    AtRisk(d, unix) && (d.legacy.manifest.None? || d.generations.Keys == {}) && Next(d) <= MAX_GENERATION
  }

  /** The states in which an interrupted save can leave only the moved-aside pointer. */
  ghost predicate CanBeInGap(d: Disk, unix: bool) {
    !unix && (d.current.Some? || Unnamed(d)) && Next(d) <= MAX_GENERATION
  }

  ghost predicate LegacyPointer(d: Disk, pointer: File) {
    d.legacy.manifest.Some? && pointer == PointerFile(LegacyTarget, Digest(d.legacy.manifest.value))
  }

  ghost predicate GenerationsAfter(d: Disk, after: Disk, s: Store) {
    || after.generations == d.generations
    || (Next(d) <= MAX_GENERATION && Next(d) in after.generations && HoldsSnapshot(after.generations[Next(d)], s)
        && after.generations == d.generations[Next(d) := after.generations[Next(d)]])
  }

  /** Where the readers' pointer may be after a save: unmoved, on the new snapshot, on a
      legacy layout named for the first time, or lost. */
  ghost predicate AuthorityAfter(d: Disk, after: Disk, unix: bool, s: Store) {
    || Authority(after, unix) == Authority(d, unix)
    || (Next(d) in after.generations && Authority(after, unix) == Some(PointerTo(s, Next(d))))
    || (Unnamed(d) && Authority(after, unix).Some? && LegacyPointer(d, Authority(after, unix).value))
    || (CanLosePointer(d, unix) && Authority(after, unix).None?)
  }

  /** Existing generations and the legacy layout are untouched, at most one complete
      snapshot is added, pointers move only once it is in place, and a legacy layout is
      never left without a pointer beside it. */
  ghost predicate SaveOutcome(d: Disk, after: Disk, unix: bool, s: Store, ok: bool) {
    && after.legacy == d.legacy
    && GenerationsAfter(d, after, s)
    && AuthorityAfter(d, after, unix, s)
    && (after.generations == d.generations && !Unnamed(d) ==> after.current == d.current && after.previous == d.previous)
    && (after.generations != d.generations && d.legacy.manifest.Some? ==> Authority(after, unix).Some?)
    && (Stuck(d) ==> after == d && !ok)
    && (ok ==> Next(d) in after.generations && after.current == Some(PointerTo(s, Next(d))))
  }

  ghost predicate SameVisible(d: Disk, after: Disk) {
    && after.generations == d.generations && after.current == d.current && after.previous == d.previous && after.legacy == d.legacy
  }

  ghost predicate PublishOutcome(d: Disk, after: Disk, unix: bool, pointer: File, ok: bool) {
    && after.generations == d.generations && after.legacy == d.legacy
    && (|| Authority(after, unix) == Authority(d, unix)
        || Authority(after, unix) == Some(pointer)
        || (AtRisk(d, unix) && Authority(after, unix).None?))
    && (ok ==> after.current == Some(pointer))
  }

  // -- what a prune may leave behind -------------------------------------------------

  ghost predicate NamesGeneration(d: Disk) {
    d.current.Some? && d.current.value.PointerFile? && d.current.value.target.GenerationTarget?
  }

  /** The source then prunes each region of the legacy root on its own: CURRENT is on the
      legacy root, or there is neither a pointer nor a generation. */
  predicate PrunesRegions(d: Disk) {
    if d.current.None? then d.generations.Keys == {} else d.current.value.PointerFile? && d.current.value.target.LegacyTarget?
  }

  /** CURRENT names a generation whose manifest it binds. */
  ghost predicate CanPrune(d: Disk) {
    && NamesGeneration(d) && d.current.value.target.n in d.generations
    && d.generations[d.current.value.target.n].manifest.Some?
    && Digest(d.generations[d.current.value.target.n].manifest.value) == d.current.value.manifestHash
  }

  predicate PartOf(part: Dir, whole: Dir) {
    && (part.records == None || part.records == whole.records)
    && (part.manifest == None || part.manifest == whole.manifest)
    && part.regions.Keys <= whole.regions.Keys
    && forall r :: r in part.regions ==> part.regions[r] == whole.regions[r]
  }

  ghost predicate PruneOutcome(d: Disk, after: Disk, keep: nat, r: Result<nat, Failure>) {
    if CanPrune(d) then
      var current := d.current.value.target.n;
      && after == d.(generations := after.generations)
      && Spares(d.generations, after.generations, keep, current)
      && (forall g :: g in after.generations ==> PartOf(after.generations[g], d.generations[g]))
      && (r.Ok? ==>
            && Complete(d.generations, after.generations, keep, current)
            && (forall g :: g in after.generations ==> after.generations[g] == d.generations[g])
            && r.value == |d.generations| - |after.generations|)
    else
      after == d && r == Err(Failed)
  }

  // -- the operations ------------------------------------------------------------------

  /** The save phases at which the source can be told to fail. */
  datatype Phase = AfterFirstShard | AfterRecords | AfterManifest | AfterGenerationRename | BeforeCurrentRename

  /** The entries of a generation directory. */
  datatype Entry = RecordsEntry | ManifestEntry | RegionEntry(region: string)

  function Without(dir: Dir, e: Entry): Dir {
    match e
    case RecordsEntry => dir.(records := None)
    case ManifestEntry => dir.(manifest := None)
    case RegionEntry(region) => dir.(regions := dir.regions - {region})
  }

  /** The calls that fill a staging directory, when all of them work. */
  function StagingCalls(s: Store): nat {
    RegionCalls(s.regions.Keys) + 6
  }

  /** The calls it takes off Unix to name a legacy root. */
  function NamingCalls(d: Disk): nat {
    if Unnamed(d) then 6 else 0
  }

  class ShardedDir {
    const unix: bool
    const faults: nat -> Fault
    var disk: Disk
    var calls: nat

    constructor (unix: bool, disk: Disk, faults: nat -> Fault, calls: nat)
      ensures this.unix == unix && this.disk == disk && this.faults == faults && this.calls == calls
    {
      this.unix, this.disk, this.faults, this.calls := unix, disk, faults, calls;
    }

    method Do(next: Disk) returns (r: Result<(), Failure>)
      modifies this
      ensures calls == old(calls) + 1
      ensures r.Ok? <==> faults(old(calls)) == Works
      ensures r == Err(Crashed) <==> faults(old(calls)) == Crashes
      ensures disk == if r.Ok? then next else old(disk)
    {
      var fault := faults(calls);
      calls := calls + 1;
      match fault
      case Works => disk := next; r := Ok(());
      case Fails => r := Err(Failed);
      case Crashes => r := Err(Crashed);
    }

    /** Switches CURRENT. */
    method PublishCurrent(pointer: File, failBeforeRename: bool) returns (r: Result<(), Failure>)
      modifies this
      ensures PublishOutcome(old(disk), disk, unix, pointer, r.Ok?)
      ensures Faultless(faults) ==> (r.Ok? <==> !failBeforeRename)
      ensures failBeforeRename ==> r.Err?
      ensures CrashesAfter(faults, old(calls), 3) && AtRisk(old(disk), unix) && !failBeforeRename ==> r.Err? && Authority(disk, unix).None?
      ensures CrashesAfter(faults, old(calls), 4) && !unix && old(disk).current.Some? && !failBeforeRename ==>
        r.Err? && disk.current == None && disk.previous == old(disk).current
      ensures Working(faults, old(calls), 6) && !unix && old(disk).current.None? && !failBeforeRename ==>
        r.Ok? && calls == old(calls) + 6
    {
      var temp := disk.nextNonce;
      var _ :- Do(disk.(temps := disk.temps[temp := TornFile], nextNonce := temp + 1));
      var _ :- Do(disk.(temps := disk.temps[temp := pointer]));
      if failBeforeRename {
        var cleaned := Do(disk.(temps := disk.temps - {temp}));
        return Err(if cleaned == Err(Crashed) then Crashed else Failed);
      }
      if unix {
        var _ :- Do(disk.(current := Some(disk.temps[temp]), temps := disk.temps - {temp}));
      } else {
        var _ :- ReplaceAside(temp);
      }
      r := Do(disk);  // sync the root
    }

    /** Off Unix the moved-aside pointer of an earlier switch is deleted first, whether
        or not CURRENT exists. */
    method ReplaceAside(temp: nat) returns (r: Result<(), Failure>)
      requires !unix && temp in disk.temps
      modifies this
      ensures PublishOutcome(old(disk), disk, unix, old(disk).temps[temp], r.Ok?)
      ensures Faultless(faults) ==> r.Ok?
      ensures CrashesAfter(faults, old(calls), 1) && old(disk).current.None? ==> r.Err? && disk.current == disk.previous == None
      ensures CrashesAfter(faults, old(calls), 2) && old(disk).current.Some? ==>
        r.Err? && disk.current == None && disk.previous == old(disk).current
      ensures Working(faults, old(calls), 3) && old(disk).current.None? ==> r.Ok? && calls == old(calls) + 3
    {
      var cleared := Do(disk.(previous := None));
      if cleared == Err(Crashed) {
        return cleared;
      }
      if disk.current.Some? {
        var _ :- Do(disk.(previous := disk.current, current := None));
      }
      var renamed := Do(disk.(current := Some(disk.temps[temp]), temps := disk.temps - {temp}));
      if renamed.Err? {
        if renamed == Err(Failed) && disk.previous.Some? {
          var _ := Do(disk.(current := disk.previous, previous := None));
        }
        return renamed;
      }
      var dropped := Do(disk.(previous := None));
      if dropped == Err(Crashed) {
        return dropped;
      }
      r := Ok(());
    }

    /** Before the first global save of a legacy store, points CURRENT at the legacy root. */
    method EnsureLegacyCurrent() returns (r: Result<(), Failure>)
      modifies this
      ensures !Unnamed(old(disk)) ==> disk == old(disk) && calls == old(calls) && r == if Stuck(disk) then Err(Failed) else Ok(())
      ensures Unnamed(old(disk)) ==>
        PublishOutcome(old(disk), disk, unix, PointerFile(LegacyTarget, Digest(old(disk).legacy.manifest.value)), r.Ok?)
      ensures Faultless(faults) ==> (r.Ok? <==> !Stuck(old(disk)))
      ensures CrashesAfter(faults, old(calls), 3) && AtRisk(old(disk), unix) && Unnamed(old(disk)) ==> r.Err? && Authority(disk, unix).None?
      ensures !unix && Working(faults, old(calls), NamingCalls(old(disk))) && !Stuck(old(disk)) ==>
        r.Ok? && calls == old(calls) + NamingCalls(old(disk))
    {
      if disk.current.Some? || disk.legacy.manifest.None? {
        return Ok(());
      }
      var h := HighestGeneration(disk.generations.Keys);
      if h.Some? {
        return Err(Failed);
      }
      r := PublishCurrent(PointerFile(LegacyTarget, Digest(disk.legacy.manifest.value)), false);
    }

    /** Writes every region and the record layer into one immutable generation and
        publishes it with one pointer switch. */
    method SaveDir(s: Store, failAt: Option<Phase>) returns (r: Result<(), Failure>)
      modifies this
      ensures SaveOutcome(old(disk), disk, unix, s, r.Ok?)
      ensures r.Ok? ==> failAt.None? || (failAt == Some(AfterFirstShard) && s.regions == map[])
      ensures Faultless(faults) && failAt == Some(AfterGenerationRename) && old(disk).current.Some? && Next(old(disk)) <= MAX_GENERATION ==>
        Next(old(disk)) in disk.generations && disk.current == old(disk).current
      ensures Faultless(faults) && failAt.None? ==> (r.Ok? <==> !Stuck(old(disk)) && Next(old(disk)) <= MAX_GENERATION)
      ensures Stuck(old(disk)) ==> r == Err(Failed)
      ensures failAt.None? && CanLosePointer(old(disk), unix) && CrashesAfter(faults, old(calls), LossCall(old(disk), s)) ==>
        && r.Err? && Authority(disk, unix).None?
        && (old(disk).legacy.manifest.None? ==> disk.generations.Keys != {})
      ensures failAt.None? && CanBeInGap(old(disk), unix) && CrashesAfter(faults, old(calls), GapCall(old(disk), s)) ==>
        && r.Err? && Next(old(disk)) in disk.generations && AtRisk(disk, unix)
        && (old(disk).current.Some? ==> disk.previous == old(disk).current)
    {
      hide HoldsSnapshot, ManifestOf, StagingCalls;
      var _ :- EnsureLegacyCurrent();
      ghost var named := disk;
      r := SaveNamed(s, failAt);
      AfterNaming(old(disk), named, disk, unix, s, r.Ok?);
    }

    /** The save proper: into a fresh staging directory, which is cleaned up on errors. */
    method SaveNamed(s: Store, failAt: Option<Phase>) returns (r: Result<(), Failure>)
      requires disk.current.Some? || disk.legacy.manifest.None?
      modifies this
      ensures SaveOutcome(old(disk), disk, unix, s, r.Ok?)
      ensures r.Ok? ==> failAt.None? || (failAt == Some(AfterFirstShard) && s.regions == map[])
      ensures Faultless(faults) && failAt == Some(AfterGenerationRename) && old(disk).current.Some? && Next(old(disk)) <= MAX_GENERATION ==>
        Next(old(disk)) in disk.generations && disk.current == old(disk).current
      ensures Faultless(faults) && failAt.None? ==> (r.Ok? <==> Next(old(disk)) <= MAX_GENERATION)
      ensures failAt.None? && CanLosePointer(old(disk), unix) && CrashesAfter(faults, old(calls), 1 + (StagingCalls(s) + 5)) ==>
        r.Err? && Authority(disk, unix).None? && disk.generations.Keys != {}
      ensures failAt.None? && CanBeInGap(old(disk), unix) && CrashesAfter(faults, old(calls), 1 + (StagingCalls(s) + 6)) ==>
        && r.Err? && Next(old(disk)) in disk.generations && AtRisk(disk, unix)
        && (old(disk).current.Some? ==> disk.previous == old(disk).current)
    {
      hide HoldsSnapshot, ManifestOf, StagingCalls, SaveOutcome, CrashesAfter, Working, NumberAfter;
      CrashLater(faults, calls, StagingCalls(s) + 5);
      CrashLater(faults, calls, StagingCalls(s) + 6);
      Unchanged(disk, disk, unix, s);
      var generation := NextGeneration(disk.generations.Keys);
      if generation > MAX_GENERATION {
        return Err(Failed);
      }
      var nonce := disk.nextNonce;
      var _ :- Do(disk.(staging := disk.staging[nonce := EMPTY_DIR], nextNonce := nonce + 1));
      ghost var started := disk;
      r := StageAndPublish(s, failAt, generation, nonce);
      ghost var done := disk;
      if r == Err(Failed) && nonce in disk.staging {
        RemoveStaging(nonce);
      }
      StagingUnseen(old(disk), started, done, disk, unix, s, r.Ok?);
    }

    /** Best-effort removal of the staging directory; errors are ignored. */
    method RemoveStaging(nonce: nat)
      modifies this
      ensures SameVisible(old(disk), disk)
    {
      var _ := Do(disk.(staging := disk.staging - {nonce}));
    }

    method StageAndPublish(s: Store, failAt: Option<Phase>, generation: nat, nonce: nat) returns (r: Result<(), Failure>)
      requires nonce in disk.staging && disk.staging[nonce] == EMPTY_DIR && generation == Next(disk) <= MAX_GENERATION
      requires disk.current.Some? || disk.legacy.manifest.None?
      modifies this
      ensures SaveOutcome(old(disk), disk, unix, s, r.Ok?)
      ensures r.Ok? ==> failAt.None? || (failAt == Some(AfterFirstShard) && s.regions == map[])
      ensures Faultless(faults) && failAt == Some(AfterGenerationRename) && old(disk).current.Some? ==>
        Next(old(disk)) in disk.generations && disk.current == old(disk).current
      ensures Faultless(faults) && failAt.None? ==> r.Ok?
      ensures failAt.None? && AtRisk(old(disk), unix) && CrashesAfter(faults, old(calls), StagingCalls(s) + 5) ==>
        r.Err? && Authority(disk, unix).None? && generation in disk.generations
      ensures failAt.None? && !unix && old(disk).current.Some? && CrashesAfter(faults, old(calls), StagingCalls(s) + 6) ==>
        r.Err? && disk.current == None && disk.previous == old(disk).current && generation in disk.generations
    {
      hide HoldsSnapshot, ManifestOf, StagingCalls, SaveOutcome;
      var hash := StageSnapshot(s, failAt, nonce);
      if hash.Err? {
        Unchanged(old(disk), disk, unix, s);
        return Err(hash.error);
      }
      ghost var staged := disk;
      r := Commit(s, failAt, generation, nonce, hash.value);
      StagingUnseen(old(disk), staged, disk, disk, unix, s, r.Ok?);
    }

    /** The staging directory becomes a generation, and then the pointer moves. */
    method Commit(s: Store, failAt: Option<Phase>, generation: nat, nonce: nat, manifestHash: Digest) returns (r: Result<(), Failure>)
      requires nonce in disk.staging && HoldsSnapshot(disk.staging[nonce], s) && generation == Next(disk) <= MAX_GENERATION
      requires disk.current.Some? || disk.legacy.manifest.None?
      requires manifestHash == Digest(ManifestOf(s)) && failAt != Some(AfterRecords) && failAt != Some(AfterManifest)
      modifies this
      ensures SaveOutcome(old(disk), disk, unix, s, r.Ok?)
      ensures r.Ok? ==> failAt.None? || failAt == Some(AfterFirstShard)
      ensures Faultless(faults) && failAt == Some(AfterGenerationRename) && old(disk).current.Some? ==>
        Next(old(disk)) in disk.generations && disk.current == old(disk).current
      ensures Faultless(faults) && failAt.None? ==> r.Ok?
      ensures failAt.None? && AtRisk(old(disk), unix) && CrashesAfter(faults, old(calls), 5) ==>
        r.Err? && Authority(disk, unix).None? && generation in disk.generations
      ensures failAt.None? && !unix && old(disk).current.Some? && CrashesAfter(faults, old(calls), 6) ==>
        r.Err? && disk.current == None && disk.previous == old(disk).current && generation in disk.generations
    {
      hide HoldsSnapshot, ManifestOf, SaveOutcome;
      Unchanged(disk, disk, unix, s);
      var _ :- Do(disk.(generations := disk.generations[generation := disk.staging[nonce]], staging := disk.staging - {nonce}));
      ghost var renamed := disk;
      AfterRename(old(disk), renamed, renamed, unix, s, false);
      var _ :- Do(disk);  // sync the root
      if failAt == Some(AfterGenerationRename) {
        return Err(Failed);
      }
      r := PublishCurrent(PointerFile(GenerationTarget(generation), manifestHash), failAt == Some(BeforeCurrentRename));
      AfterRename(old(disk), renamed, disk, unix, s, r.Ok?);
      assert failAt.None? || failAt.value.AfterFirstShard? || failAt.value.AfterRecords? || failAt.value.AfterManifest?
          || failAt.value.AfterGenerationRename? || failAt.value.BeforeCurrentRename?;
    }

    /** The whole snapshot in its staging directory, visible to no reader. */
    method StageSnapshot(s: Store, failAt: Option<Phase>, nonce: nat) returns (r: Result<Digest, Failure>)
      requires nonce in disk.staging && disk.staging[nonce] == EMPTY_DIR
      modifies this
      ensures SameVisible(old(disk), disk)
      ensures r.Ok? ==> nonce in disk.staging && HoldsSnapshot(disk.staging[nonce], s) && r.value == Digest(ManifestOf(s))
      ensures r.Ok? ==> failAt != Some(AfterRecords) && failAt != Some(AfterManifest) && (failAt != Some(AfterFirstShard) || s.regions == map[])
      ensures Faultless(faults) && (failAt.None? || failAt == Some(AfterGenerationRename)) ==> r.Ok?
      ensures Working(faults, old(calls), StagingCalls(s)) && failAt.None? ==> r.Ok? && calls == old(calls) + StagingCalls(s)
    {
      var hashes :- StageRegions(s, failAt, nonce);
      hide HoldsSnapshot, ManifestOf, Nested;
      var manifestHash :- StageRecordsAndManifest(s, failAt, nonce, hashes);
      var _ :- Do(disk);  // sync the staging directory
      r := Ok(manifestHash);
    }

    /** Saves each region as a fresh nested store and records the digest of its CURRENT. */
    method StageRegions(s: Store, failAt: Option<Phase>, nonce: nat) returns (r: Result<map<string, G.Digest>, Failure>)
      requires nonce in disk.staging && disk.staging[nonce] == EMPTY_DIR
      modifies this
      ensures SameVisible(old(disk), disk)
      ensures r.Ok? ==> nonce in disk.staging && r.value == ManifestOf(s).regionHashes
      ensures r.Ok? ==> forall region :: region in s.regions ==>
        region in disk.staging[nonce].regions && Nested(disk.staging[nonce].regions[region], s.regions[region])
      ensures r.Ok? ==> failAt != Some(AfterFirstShard) || s.regions == map[]
      ensures Faultless(faults) && failAt != Some(AfterFirstShard) ==> r.Ok?
      ensures Working(faults, old(calls), RegionCalls(s.regions.Keys)) && failAt != Some(AfterFirstShard) ==>
        r.Ok? && calls == old(calls) + RegionCalls(s.regions.Keys)
    {
      hide Nested, Staged, RegionAdded, HoldsSnapshot, ManifestOf, RegionCalls, Working;
      var hashes: map<string, G.Digest> := map[];
      StagedNone(disk.staging[nonce], s);
      var left := s.regions.Keys;
      while left != {}
        invariant SameVisible(old(disk), disk) && nonce in disk.staging
        invariant left <= s.regions.Keys && hashes.Keys == s.regions.Keys - left
        invariant Staged(disk.staging[nonce], hashes, s)
        invariant hashes != map[] ==> failAt != Some(AfterFirstShard)
        invariant Working(faults, old(calls), RegionCalls(s.regions.Keys)) ==>
          Working(faults, calls, RegionCalls(left)) && calls + RegionCalls(left) == old(calls) + RegionCalls(s.regions.Keys)
        decreases left
      {
        var region :| region in left;
        OneRegion(faults, calls, left, region);
        ghost var dir := disk.staging[nonce];
        var saved := SaveRegion(region, s.regions[region], nonce);
        if saved.Err? {
          return Err(saved.error);
        }
        StagedMore(dir, disk.staging[nonce], hashes, s, region);
        hashes := hashes[region := G.Digest(disk.staging[nonce].regions[region].current.value)];
        left := left - {region};
        if failAt == Some(AfterFirstShard) {
          return Err(Failed);
        }
      }
      StagedAll(disk.staging[nonce], hashes, s);
      r := Ok(hashes);
    }

    method SaveRegion(region: string, m: G.Memory, nonce: nat) returns (r: Result<(), Failure>)
      requires nonce in disk.staging
      modifies this
      ensures SameVisible(old(disk), disk) && nonce in disk.staging
      ensures r.Ok? ==> RegionAdded(old(disk).staging[nonce], disk.staging[nonce], region, m)
      ensures Faultless(faults) ==> r.Ok?
      ensures Working(faults, old(calls), S.CALLS) ==> r.Ok? && calls == old(calls) + S.CALLS
    {
      var nested := new S.StoreDir(unix, EMPTY_DISK, faults, calls);
      r := nested.Save(m, None);
      calls := nested.calls;
      var dir := disk.staging[nonce];
      disk := disk.(staging := disk.staging[nonce := dir.(regions := dir.regions[region := nested.disk])]);
      if r.Ok? {
        assert S.Next(EMPTY_DISK) == 1;
        assert Nested(nested.disk, m);
      }
    }

    method StageRecordsAndManifest(s: Store, failAt: Option<Phase>, nonce: nat, hashes: map<string, G.Digest>) returns (r: Result<Digest, Failure>)
      requires nonce in disk.staging && hashes == ManifestOf(s).regionHashes
      requires forall region :: region in s.regions ==>
        region in disk.staging[nonce].regions && Nested(disk.staging[nonce].regions[region], s.regions[region])
      modifies this
      ensures SameVisible(old(disk), disk)
      ensures r.Ok? ==> nonce in disk.staging && HoldsSnapshot(disk.staging[nonce], s) && r.value == Digest(ManifestOf(s))
      ensures r.Ok? ==> failAt != Some(AfterRecords) && failAt != Some(AfterManifest)
      ensures Faultless(faults) && failAt != Some(AfterRecords) && failAt != Some(AfterManifest) ==> r.Ok?
      ensures Working(faults, old(calls), 5) && failAt.None? ==> r.Ok? && calls == old(calls) + 5
    {
      var dir := disk.staging[nonce];
      var _ :- Do(disk.(staging := disk.staging[nonce := dir.(records := Some(TornFile))]));
      dir := dir.(records := Some(RecordsFile(s.records)));
      var _ :- Do(disk.(staging := disk.staging[nonce := dir]));
      var _ :- Do(disk);  // sync and hash the records
      if failAt == Some(AfterRecords) {
        return Err(Failed);
      }
      var manifest := ManifestFile(s.dim, hashes, Digest(disk.staging[nonce].records.value));
      var _ :- Do(disk.(staging := disk.staging[nonce := dir.(manifest := Some(TornFile))]));
      dir := dir.(manifest := Some(manifest));
      var _ :- Do(disk.(staging := disk.staging[nonce := dir]));
      if failAt == Some(AfterManifest) {
        return Err(Failed);
      }
      r := Ok(Digest(manifest));
    }

    /** Deletes all but the newest `keep` snapshots and the one CURRENT names. Unlike a
        region store it accepts `keep == 0`. */
    method PruneGlobal(keep: nat) returns (r: Result<nat, Failure>)
      requires !PrunesRegions(disk)
      modifies this
      ensures PruneOutcome(old(disk), disk, keep, r)
      ensures Faultless(faults) ==> (r.Ok? <==> CanPrune(old(disk)))
    {
      if disk.current.None? || !disk.current.value.PointerFile? || disk.current.value.target.n !in disk.generations {
        return Err(Failed);
      }
      var current := disk.current.value.target.n;
      var bound := disk.generations[current].manifest;
      if bound.None? || Digest(bound.value) != disk.current.value.manifestHash {
        return Err(Failed);
      }
      var sorted := NewestFirstListing(disk.generations.Keys);
      r := RemoveUnretained(sorted, keep, current);
    }

    method RemoveUnretained(sorted: seq<nat>, keep: nat, current: nat) returns (r: Result<nat, Failure>)
      requires Lists(sorted, disk.generations.Keys)
      requires CanPrune(disk) && disk.current.value.target.n == current
      modifies this
      ensures PruneOutcome(old(disk), disk, keep, r)
      ensures Faultless(faults) ==> r.Ok?
    {
      hide Kept, Progress, Lists, PartOf, PruneOutcome;
      ghost var before := disk;
      ProgressStarts(before.generations, sorted, keep, current, 0);
      var removed := 0;
      var k := 0;
      while k < |sorted|
        invariant disk == before.(generations := disk.generations)
        invariant Progress(before.generations, disk.generations, sorted, keep, current, k)
        invariant removed == |before.generations| - |disk.generations|
      {
        var generation := sorted[k];
        ProgressStep(before.generations, disk.generations, sorted, keep, current, k);
        if k >= keep && generation != current {
          ghost var now := disk;
          var gone := RemoveGeneration(generation);
          if gone.Err? {
            PruneInterrupted(before, now, disk, sorted, keep, k, gone.error);
            return Err(gone.error);
          }
          removed := removed + 1;
        }
        k := k + 1;
      }
      PruneDone(before, disk, sorted, keep, k, Failed);
      var synced := Do(disk);  // sync the root
      if synced.Err? {
        PruneDone(before, disk, sorted, keep, k, synced.error);
        return Err(synced.error);
      }
      r := Ok(removed);
    }

    /** Removes the entries of a directory one by one, in any order, and then itself. */
    method RemoveGeneration(g: nat) returns (r: Result<(), Failure>)
      requires g in disk.generations
      modifies this
      ensures r.Ok? ==> disk == old(disk).(generations := old(disk).generations - {g}) && |disk.generations| == |old(disk).generations| - 1
      ensures r.Err? ==>
        && g in disk.generations && PartOf(disk.generations[g], old(disk).generations[g])
        && disk == old(disk).(generations := old(disk).generations[g := disk.generations[g]])
      ensures Faultless(faults) ==> r.Ok?
    {
      hide PartOf, Without;
      PartRefl();
      var left := {RecordsEntry, ManifestEntry} + set region | region in disk.generations[g].regions :: RegionEntry(region);
      while left != {}
        invariant g in disk.generations && PartOf(disk.generations[g], old(disk).generations[g])
        invariant disk == old(disk).(generations := old(disk).generations[g := disk.generations[g]])
        decreases left
      {
        var e :| e in left;
        PartShrinks(disk.generations[g], old(disk).generations[g], e);
        var _ :- Do(disk.(generations := disk.generations[g := Without(disk.generations[g], e)]));
        left := left - {e};
      }
      r := Do(disk.(generations := disk.generations - {g}));
      assert r.Ok? ==> disk.generations == old(disk).generations - {g};
      assert r.Ok? ==> disk.generations.Keys == old(disk).generations.Keys - {g};
    }
  }

  /** The call at which a crash leaves no pointer, in a state that can lose it: the one
      that would put the new pointer in place. */
  function LossCall(d: Disk, s: Store): nat {
    if d.legacy.manifest.Some? then 3 else 1 + StagingCalls(s) + 5
  }

  /** The call at which a crash off Unix leaves only the moved-aside pointer. */
  function GapCall(d: Disk, s: Store): nat {
    NamingCalls(d) + 1 + StagingCalls(s) + 6
  }

  ghost predicate RegionAdded(before: Dir, after: Dir, region: string, m: G.Memory) {
    && region in after.regions && Nested(after.regions[region], m)
    && after == before.(regions := before.regions[region := after.regions[region]])
  }

  /** The regions hashed so far are saved in full. */
  ghost predicate Staged(dir: Dir, hashes: map<string, G.Digest>, s: Store) {
    && hashes.Keys <= s.regions.Keys
    && forall r :: r in hashes ==>
        && hashes[r] == G.Digest(G.PointerTo(s.regions[r], None, 1))
        && r in dir.regions && Nested(dir.regions[r], s.regions[r])
  }

  lemma StagedNone(dir: Dir, s: Store)
    ensures Staged(dir, map[], s) && RegionCalls({}) == 0
  {
  }

  lemma StagedMore(dir: Dir, after: Dir, hashes: map<string, G.Digest>, s: Store, region: string)
    requires Staged(dir, hashes, s) && region in s.regions && RegionAdded(dir, after, region, s.regions[region])
    ensures after.regions[region].current.Some?
    ensures Staged(after, hashes[region := G.Digest(after.regions[region].current.value)], s)
  {
    var hash := G.Digest(after.regions[region].current.value);
    assert hash == G.Digest(G.PointerTo(s.regions[region], None, 1));
    hide Nested;
  }

  lemma StagedAll(dir: Dir, hashes: map<string, G.Digest>, s: Store)
    requires Staged(dir, hashes, s) && hashes.Keys == s.regions.Keys
    ensures hashes == ManifestOf(s).regionHashes
    ensures forall r :: r in s.regions ==> r in dir.regions && Nested(dir.regions[r], s.regions[r])
  {
    hide Nested;
  }

  /** The calls it takes to save these regions. */
  function RegionCalls(left: set<string>): nat {
    S.CALLS * |left|
  }

  lemma OneRegion(faults: nat -> Fault, from: nat, left: set<string>, region: string)
    requires region in left
    ensures RegionCalls(left) == S.CALLS + RegionCalls(left - {region})
    ensures Working(faults, from, RegionCalls(left)) ==>
      Working(faults, from, S.CALLS) && Working(faults, from + S.CALLS, RegionCalls(left - {region}))
  {
    assert |left| == |left - {region}| + 1;
  }

  /** Nothing that happens in staging directories is seen. */
  lemma StagingUnseen(d: Disk, staged: Disk, done: Disk, after: Disk, unix: bool, s: Store, ok: bool)
    requires SameVisible(d, staged) && SameVisible(done, after) && (d.current.Some? || d.legacy.manifest.None?)
    requires SaveOutcome(staged, done, unix, s, ok)
    ensures SaveOutcome(d, after, unix, s, ok)
  {
    hide HoldsSnapshot, ManifestOf;
  }

  lemma Unchanged(d: Disk, after: Disk, unix: bool, s: Store)
    requires SameVisible(d, after) && (d.current.Some? || d.legacy.manifest.None?)
    ensures SaveOutcome(d, after, unix, s, false)
  {
  }

  /** A save after the legacy root was named, or did not have to be. */
  lemma AfterNaming(d: Disk, named: Disk, after: Disk, unix: bool, s: Store, ok: bool)
    requires !Stuck(d) && (if Unnamed(d) then
      PublishOutcome(d, named, unix, PointerFile(LegacyTarget, Digest(d.legacy.manifest.value)), true) else named == d)
    requires SaveOutcome(named, after, unix, s, ok)
    ensures SaveOutcome(d, after, unix, s, ok)
  {
    hide HoldsSnapshot, ManifestOf;
  }

  /** The pointer switch, from a store that has a pointer or no legacy layout. */
  lemma AfterRename(d: Disk, renamed: Disk, after: Disk, unix: bool, s: Store, ok: bool)
    requires Next(d) <= MAX_GENERATION && (d.current.Some? || d.legacy.manifest.None?)
    requires Next(d) in renamed.generations && HoldsSnapshot(renamed.generations[Next(d)], s)
    requires renamed.generations == d.generations[Next(d) := renamed.generations[Next(d)]]
    requires renamed.current == d.current && renamed.previous == d.previous && renamed.legacy == d.legacy
    requires PublishOutcome(renamed, after, unix, PointerTo(s, Next(d)), ok)
    ensures SaveOutcome(d, after, unix, s, ok)
  {
    hide HoldsSnapshot, ManifestOf;
  }

  lemma PartRefl()
    ensures forall dir: Dir :: PartOf(dir, dir)
  {
  }

  lemma PartTrans(a: Dir, b: Dir, c: Dir)
    requires PartOf(a, b) && PartOf(b, c)
    ensures PartOf(a, c)
  {
  }

  lemma PartShrinks(part: Dir, whole: Dir, e: Entry)
    requires PartOf(part, whole)
    ensures PartOf(Without(part, e), whole)
  {
  }

  lemma PruneInterrupted(before: Disk, now: Disk, after: Disk, sorted: seq<nat>, keep: nat, k: nat, e: Failure)
    requires CanPrune(before) && Lists(sorted, before.generations.Keys) && k < |sorted|
    requires Progress(before.generations, now.generations, sorted, keep, before.current.value.target.n, k)
    requires !Kept(before.generations.Keys, keep, before.current.value.target.n, sorted[k])
    requires sorted[k] in now.generations && sorted[k] in after.generations
    requires after == before.(generations := now.generations[sorted[k] := after.generations[sorted[k]]])
    requires PartOf(after.generations[sorted[k]], now.generations[sorted[k]])
    ensures PruneOutcome(before, after, keep, Err(e))
  {
    hide Kept;
    ProgressStops(before.generations, now.generations, after.generations, sorted, keep, before.current.value.target.n, k);
  }

  lemma PruneDone(before: Disk, now: Disk, sorted: seq<nat>, keep: nat, k: nat, e: Failure)
    requires CanPrune(before) && Lists(sorted, before.generations.Keys) && k >= |sorted|
    requires Progress(before.generations, now.generations, sorted, keep, before.current.value.target.n, k)
    requires now == before.(generations := now.generations)
    ensures |now.generations| <= |before.generations|
    ensures PruneOutcome(before, now, keep, Ok(|before.generations| - |now.generations|))
    ensures PruneOutcome(before, now, keep, Err(e))
  {
    hide Kept;
    ProgressCompletes(before.generations, now.generations, sorted, keep, before.current.value.target.n, k);
  }
}
