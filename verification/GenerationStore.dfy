/** Saving and pruning, one filesystem call at a time. Every call may work, fail with
    an error the code handles, or be the last thing that happens before a crash. */
module GenerationStore {
  import opened Wrappers
  import opened Faults
  import opened GenerationNumbers
  import opened Generations
  import opened Pruning

  // -- what a save may leave behind ------------------------------------------------

  ghost function Next(d: Disk): nat {
    NumberAfter(d.generations.Keys)
  }

  /** Whatever happened, existing generations are untouched, at most the next number was
      added and complete, and readers see either what they saw before or this memory. */
  ghost predicate SaveOutcome(d: Disk, after: Disk, unix: bool, m: Memory, fingerprint: Option<string>, ok: bool) {
    var g := Next(d);
    && after.legacyTree == d.legacyTree && after.legacySketch == d.legacySketch && after.nextNonce >= d.nextNonce
    && (after.generations == d.generations || after.generations == d.generations[g := DirOf(m, fingerprint, g)])
    && (|| Authority(after, unix) == Authority(d, unix)
        || (g in after.generations && Authority(after, unix) == Some(PointerTo(m, fingerprint, g))))
    && (ok ==> g in after.generations && after.current == Some(PointerTo(m, fingerprint, g)))
  }

  /** Only staging directories and pointer temporaries differ. */
  ghost predicate SameVisible(d: Disk, after: Disk) {
    && after.generations == d.generations && after.current == d.current && after.previous == d.previous
    && after.legacyTree == d.legacyTree && after.legacySketch == d.legacySketch && after.nextNonce >= d.nextNonce
  }

  ghost predicate PublishOutcome(d: Disk, after: Disk, unix: bool, pointer: File, ok: bool) {
    && after.generations == d.generations && after.nextNonce >= d.nextNonce
    && after.legacyTree == d.legacyTree && after.legacySketch == d.legacySketch
    && (Authority(after, unix) == Authority(d, unix) || Authority(after, unix) == Some(pointer))
    && (ok ==> after.current == Some(pointer))
  }

  /** Some files of the directory are gone, the others are as they were. */
  predicate PartOf(part: Dir, whole: Dir) {
    && (part.tree == None || part.tree == whole.tree)
    && (part.sketch == None || part.sketch == whole.sketch)
    && (part.manifest == None || part.manifest == whole.manifest)
  }

  ghost predicate CanPrune(d: Disk, keep: nat) {
    keep > 0 && d.current.Some? && d.current.value.PointerFile?
  }

  /** A prune removes generations only; what it has to keep is intact and what it was
      stopped at is partly gone. Done, it has removed all the others. */
  ghost predicate PruneOutcome(d: Disk, after: Disk, keep: nat, r: Result<nat, Failure>) {
    if CanPrune(d, keep) then
      var current := d.current.value.generation;
      && after == d.(generations := after.generations)
      && Spares(d.generations, after.generations, keep, current)
      && (forall g :: g in after.generations ==> PartOf(after.generations[g], d.generations[g]))
      && (r.Ok? ==>
            && Complete(d.generations, after.generations, keep, current)
            && (forall g :: g in after.generations ==> after.generations[g] == d.generations[g])
            && r.value == |d.generations| - |after.generations|)
    else
      after == d && r == Err(Failed)
  }

  /** The files of a generation directory. */
  datatype Component = TreeComponent | SketchComponent | ManifestComponent

  function Without(dir: Dir, c: Component): Dir {
    match c
    case TreeComponent => dir.(tree := None)
    case SketchComponent => dir.(sketch := None)
    case ManifestComponent => dir.(manifest := None)
  }

  /** The number of filesystem calls of a save that works, in a store without pointers,
      and the number up to the rename of the generation directory. */
  const CALLS: nat := 18
  const CALLS_TO_RENAME: nat := 13

  class StoreDir {
    const unix: bool
    const faults: nat -> Fault
    var disk: Disk
    var calls: nat

    constructor (unix: bool, disk: Disk, faults: nat -> Fault, calls: nat)
      ensures this.unix == unix && this.disk == disk && this.faults == faults && this.calls == calls
    {
      this.unix, this.disk, this.faults, this.calls := unix, disk, faults, calls;
    }

    /** One filesystem call: it takes effect entirely or not at all. */
    method Do(next: Disk) returns (r: Result<(), Failure>)
      modifies this
      ensures calls == old(calls) + 1
      ensures r.Ok? <==> faults(old(calls)) == Works
      ensures r == Err(Crashed) <==> faults(old(calls)) == Crashes
      ensures disk == if r.Ok? then next else old(disk)
    {
      var fault := faults(calls);
      calls := calls + 1;
      match fault
      case Works => disk := next; r := Ok(());
      case Fails => r := Err(Failed);
      case Crashes => r := Err(Crashed);
    }

    /** Publishes `m` as the next generation. */
    method Save(m: Memory, fingerprint: Option<string>) returns (r: Result<(), Failure>)
      modifies this
      ensures SaveOutcome(old(disk), disk, unix, m, fingerprint, r.Ok?)
      ensures disk.generations != old(disk).generations ==> disk.nextNonce > old(disk).nextNonce
      ensures Faultless(faults) ==> (r.Ok? <==> Next(old(disk)) <= MAX_GENERATION)
      ensures Next(old(disk)) <= MAX_GENERATION && old(disk).current.None? && old(disk).previous.None? && Working(faults, old(calls), CALLS) ==>
        r.Ok? && calls == old(calls) + CALLS
      ensures Next(old(disk)) <= MAX_GENERATION && CrashesAfter(faults, old(calls), CALLS_TO_RENAME) ==>
        && r.Err? && Next(old(disk)) in disk.generations
        && disk.current == old(disk).current && disk.previous == old(disk).previous
    {
      var generation := NextGeneration(disk.generations.Keys);
      if generation > MAX_GENERATION {
        return Err(Failed);
      }
      var nonce := disk.nextNonce;
      var _ :- Do(disk.(staging := disk.staging[nonce := EMPTY_DIR], nextNonce := nonce + 1));
      r := StageAndPublish(m, fingerprint, generation, nonce);
      if r == Err(Failed) && nonce in disk.staging {
        RemoveStaging(nonce);
      }
    }

    /** Best-effort removal of the staging directory, file by file; errors are ignored. */
    method RemoveStaging(nonce: nat)
      requires nonce in disk.staging
      modifies this
      ensures SameVisible(old(disk), disk)
    {
      var emptied := Do(disk.(staging := disk.staging[nonce := EMPTY_DIR]));
      if emptied.Ok? {
        var _ := Do(disk.(staging := disk.staging - {nonce}));
      }
    }

    /** The body of a save: stage, rename the directory into place, move the pointer.
        The directory rename publishes nothing by itself. */
    method StageAndPublish(m: Memory, fingerprint: Option<string>, generation: nat, nonce: nat) returns (r: Result<(), Failure>)
      requires nonce in disk.staging && generation == Next(disk)
      modifies this
      ensures SaveOutcome(old(disk), disk, unix, m, fingerprint, r.Ok?)
      ensures Faultless(faults) ==> r.Ok?
      ensures old(disk).current.None? && old(disk).previous.None? && Working(faults, old(calls), CALLS - 1) ==>
        r.Ok? && calls == old(calls) + (CALLS - 1)
      ensures CrashesAfter(faults, old(calls), CALLS_TO_RENAME - 1) ==>
        && r == Err(Crashed) && generation in disk.generations
        && disk.current == old(disk).current && disk.previous == old(disk).previous
    {
      var manifestHash :- Stage(m, fingerprint, generation, nonce);
      var _ :- Do(disk.(generations := disk.generations[generation := disk.staging[nonce]], staging := disk.staging - {nonce}));
      var _ :- Do(disk);  // sync the root
      r := PublishCurrent(PointerFile(generation, manifestHash));
    }

    /** Writes both components, hashes what was written and binds it in a manifest. */
    method Stage(m: Memory, fingerprint: Option<string>, generation: nat, nonce: nat) returns (r: Result<Digest, Failure>)
      requires nonce in disk.staging
      modifies this
      ensures SameVisible(old(disk), disk)
      ensures r.Ok? ==> nonce in disk.staging && disk.staging[nonce] == DirOf(m, fingerprint, generation)
      ensures r.Ok? ==> r.value == Digest(ManifestFile(ManifestOf(m, fingerprint, generation)))
      ensures Working(faults, old(calls), 11) ==> r.Ok? && calls == old(calls) + 11
    {
      var dir := EMPTY_DIR;
      var _ :- Do(disk.(staging := disk.staging[nonce := dir.(tree := Some(Torn))]));
      dir := dir.(tree := Some(TreeFile(m.tree)));
      var _ :- Do(disk.(staging := disk.staging[nonce := dir]));
      var _ :- Do(disk.(staging := disk.staging[nonce := dir.(sketch := Some(Torn))]));
      dir := dir.(sketch := Some(SketchFile(m.sketch)));
      var _ :- Do(disk.(staging := disk.staging[nonce := dir]));
      var _ :- Do(disk);  // sync tree
      var _ :- Do(disk);  // sync sketch
      var treeHash := Digest(disk.staging[nonce].tree.value);
      var _ :- Do(disk);  // the tree was read back to hash it
      var sketchHash := Digest(disk.staging[nonce].sketch.value);
      var _ :- Do(disk);  // the sketch was read back to hash it
      var manifest := Manifest(generation, m.dim, m.sketch.count, m.shortlist, fingerprint, treeHash, sketchHash);
      var _ :- Do(disk.(staging := disk.staging[nonce := dir.(manifest := Some(Torn))]));
      dir := dir.(manifest := Some(ManifestFile(manifest)));
      var _ :- Do(disk.(staging := disk.staging[nonce := dir]));
      var _ :- Do(disk);  // sync the staging directory
      r := Ok(Digest(ManifestFile(manifest)));
    }

    /** Switches CURRENT: on Unix a rename replaces the old pointer. */
    method PublishCurrent(pointer: File) returns (r: Result<(), Failure>)
      modifies this
      ensures PublishOutcome(old(disk), disk, unix, pointer, r.Ok?)
      ensures Faultless(faults) ==> r.Ok?
      ensures old(disk).current.None? && old(disk).previous.None? && Working(faults, old(calls), 4) ==>
        r.Ok? && calls == old(calls) + 4
    {
      var temp :- WriteTemp(pointer);
      if unix {
        var renamed := Do(disk.(current := Some(disk.temps[temp]), temps := disk.temps - {temp}));
        if renamed.Err? {
          if renamed == Err(Failed) {
            var _ := Do(disk.(temps := disk.temps - {temp}));
          }
          return renamed;
        }
      } else {
        var _ :- ReplaceAside(temp);
      }
      r := Do(disk);  // sync the root
    }

    /** A file removed again when it cannot be written in full. */
    method WriteTemp(pointer: File) returns (r: Result<nat, Failure>)
      modifies this
      ensures SameVisible(old(disk), disk)
      ensures r.Ok? ==> r.value in disk.temps && disk.temps[r.value] == pointer
      ensures Working(faults, old(calls), 2) ==> r.Ok? && calls == old(calls) + 2
    {
      var temp := disk.nextNonce;
      var _ :- Do(disk.(temps := disk.temps[temp := Torn], nextNonce := temp + 1));
      var written := Do(disk.(temps := disk.temps[temp := pointer]));
      if written.Err? {
        if written == Err(Failed) {
          var _ := Do(disk.(temps := disk.temps - {temp}));
        }
        return Err(written.error);
      }
      r := Ok(temp);
    }

    /** Off Unix the old pointer is first moved aside and stays authoritative during
        the gap. */
    method ReplaceAside(temp: nat) returns (r: Result<(), Failure>)
      requires !unix && temp in disk.temps
      modifies this
      ensures PublishOutcome(old(disk), disk, unix, old(disk).temps[temp], r.Ok?)
      ensures Faultless(faults) ==> r.Ok?
      ensures old(disk).current.None? && old(disk).previous.None? && Working(faults, old(calls), 1) ==>
        r.Ok? && calls == old(calls) + 1
    {
      if disk.current.Some? {
        if disk.previous.Some? {
          var _ :- Do(disk.(previous := None));
        }
        var _ :- Do(disk.(previous := disk.current, current := None));
      }
      var renamed := Do(disk.(current := Some(disk.temps[temp]), temps := disk.temps - {temp}));
      if renamed.Err? {
        if renamed == Err(Failed) {
          PutBack(temp);
        }
        return renamed;
      }
      if disk.previous.Some? {
        var _ :- Do(disk.(previous := None));
      }
      r := Ok(());
    }

    /** Best effort after a failed rename: the old pointer back in its place, and the
        temporary file gone. */
    method PutBack(temp: nat)
      requires !unix && (disk.current.None? || disk.previous.None?)
      modifies this
      ensures disk == old(disk).(current := disk.current, previous := disk.previous, temps := disk.temps)
      ensures Authority(disk, unix) == Authority(old(disk), unix)
    {
      var restored := Ok(());
      if disk.previous.Some? {
        restored := Do(disk.(current := disk.previous, previous := None));
      }
      if restored != Err(Crashed) {
        var _ := Do(disk.(temps := disk.temps - {temp}));
      }
    }

    /** Deletes all but the newest `keep` generations and the one CURRENT names. */
    method Prune(keep: nat) returns (r: Result<nat, Failure>)
      modifies this
      ensures PruneOutcome(old(disk), disk, keep, r)
      ensures Faultless(faults) ==> (r.Ok? <==> CanPrune(old(disk), keep))
    {
      if keep == 0 || disk.current.None? || !disk.current.value.PointerFile? {
        return Err(Failed);
      }
      var sorted := NewestFirstListing(disk.generations.Keys);
      r := RemoveBeyond(sorted, keep, disk.current.value.generation);
    }

    /** Removes the generations after the first `keep`, sparing the current one. */
    method RemoveBeyond(sorted: seq<nat>, keep: nat, current: nat) returns (r: Result<nat, Failure>)
      requires Lists(sorted, disk.generations.Keys)
      requires CanPrune(disk, keep) && disk.current.value.generation == current
      modifies this
      ensures PruneOutcome(old(disk), disk, keep, r)
      ensures Faultless(faults) ==> r.Ok?
    {
      hide Kept, Progress, Lists, PartOf, PruneOutcome;
      ghost var before := disk;
      ProgressStarts(before.generations, sorted, keep, current, keep);
      var removed := 0;
      var k := keep;
      while k < |sorted|
        invariant keep <= k && disk == before.(generations := disk.generations)
        invariant Progress(before.generations, disk.generations, sorted, keep, current, k)
        invariant removed == |before.generations| - |disk.generations|
      {
        var generation := sorted[k];
        ProgressStep(before.generations, disk.generations, sorted, keep, current, k);
        if generation != current {
          ghost var now := disk;
          var gone := RemoveGeneration(generation);
          if gone.Err? {
            PruneInterrupted(before, now, disk, sorted, keep, k, gone.error);
            return Err(gone.error);
          }
          removed := removed + 1;
        }
        k := k + 1;
      }
      PruneDone(before, disk, sorted, keep, k, Failed);
      if removed > 0 {
        var synced := Do(disk);  // sync the root
        if synced.Err? {
          PruneDone(before, disk, sorted, keep, k, synced.error);
          return Err(synced.error);
        }
      }
      r := Ok(removed);
    }

    /** Removing a directory removes its files one by one, in any order, and the empty
        directory last. */
    method RemoveGeneration(g: nat) returns (r: Result<(), Failure>)
      requires g in disk.generations
      modifies this
      ensures r.Ok? ==> disk == old(disk).(generations := old(disk).generations - {g}) && |disk.generations| == |old(disk).generations| - 1
      ensures r.Err? ==>
        && g in disk.generations && PartOf(disk.generations[g], old(disk).generations[g])
        && disk == old(disk).(generations := old(disk).generations[g := disk.generations[g]])
      ensures Faultless(faults) ==> r.Ok?
    {
      hide PartOf, Without;
      PartRefl();
      var left := {TreeComponent, SketchComponent, ManifestComponent};
      while left != {}
        invariant g in disk.generations && PartOf(disk.generations[g], old(disk).generations[g])
        invariant disk == old(disk).(generations := old(disk).generations[g := disk.generations[g]])
        decreases left
      {
        var c :| c in left;
        PartShrinks(disk.generations[g], old(disk).generations[g], c);
        var _ :- Do(disk.(generations := disk.generations[g := Without(disk.generations[g], c)]));
        left := left - {c};
      }
      r := Do(disk.(generations := disk.generations - {g}));
      assert r.Ok? ==> disk.generations == old(disk).generations - {g};
      assert r.Ok? ==> disk.generations.Keys == old(disk).generations.Keys - {g};
    }
  }

  lemma PartRefl()
    ensures forall dir: Dir :: PartOf(dir, dir)
  {
  }

  lemma PartTrans(a: Dir, b: Dir, c: Dir)
    requires PartOf(a, b) && PartOf(b, c)
    ensures PartOf(a, c)
  {
  }

  lemma PartShrinks(part: Dir, whole: Dir, c: Component)
    requires PartOf(part, whole)
    ensures PartOf(Without(part, c), whole)
  {
  }

  lemma PruneInterrupted(before: Disk, now: Disk, after: Disk, sorted: seq<nat>, keep: nat, k: nat, e: Failure)
    requires CanPrune(before, keep) && Lists(sorted, before.generations.Keys) && k < |sorted|
    requires Progress(before.generations, now.generations, sorted, keep, before.current.value.generation, k)
    requires !Kept(before.generations.Keys, keep, before.current.value.generation, sorted[k])
    requires sorted[k] in now.generations && sorted[k] in after.generations
    requires after == before.(generations := now.generations[sorted[k] := after.generations[sorted[k]]])
    requires PartOf(after.generations[sorted[k]], now.generations[sorted[k]])
    ensures PruneOutcome(before, after, keep, Err(e))
  {
    hide Kept;
    ProgressStops(before.generations, now.generations, after.generations, sorted, keep, before.current.value.generation, k);
  }

  lemma PruneDone(before: Disk, now: Disk, sorted: seq<nat>, keep: nat, k: nat, e: Failure)
    requires CanPrune(before, keep) && Lists(sorted, before.generations.Keys) && k >= |sorted|
    requires Progress(before.generations, now.generations, sorted, keep, before.current.value.generation, k)
    requires now == before.(generations := now.generations)
    ensures |now.generations| <= |before.generations|
    ensures PruneOutcome(before, now, keep, Ok(|before.generations| - |now.generations|))
    ensures PruneOutcome(before, now, keep, Err(e))
  {
    hide Kept;
    ProgressCompletes(before.generations, now.generations, sorted, keep, before.current.value.generation, k);
  }
}
