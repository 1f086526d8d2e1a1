/** Histories of one sharded store: saves that may fail at a phase or crash anywhere, with
    prunes in between. */
module ShardedHistory {
  import opened Wrappers
  import opened Faults
  import opened GenerationNumbers
  import opened Pruning
  import opened ShardedStore
  import G = Generations

  datatype Event =
    | Saved(s: Store, ok: bool)
    | PrunedTo(keep: nat, result: Result<nat, Failure>)

  /** A prune step is one of the global snapshots. Where the source prunes the regions of a
      legacy root instead there is no step: that prune is not part of a history. */
  ghost predicate Stepped(d: Disk, after: Disk, unix: bool, e: Event) {
    match e
    case Saved(s, ok) => WellFormed(s) && SaveOutcome(d, after, unix, s, ok)
    case PrunedTo(keep, result) => !PrunesRegions(d) && PruneOutcome(d, after, keep, result)
  }

  ghost predicate History(disks: seq<Disk>, events: seq<Event>, unix: bool) {
    && |disks| == |events| + 1
    && forall i :: 0 <= i < |events| ==> Stepped(disks[i], disks[i + 1], unix, events[i])
  }

  ghost predicate NoneAcknowledged(events: seq<Event>, from: nat) {
    forall j :: from <= j < |events| ==> events[j].Saved? ==> !events[j].ok
  }

  ghost predicate ServedBy(d: Disk, unix: bool, events: seq<Event>, i: nat) {
    && i < |events| && events[i].Saved? && WellFormed(events[i].s)
    && Authority(d, unix).Some? && Names(d, Authority(d, unix).value, events[i].s)
  }

  ghost predicate NoSnapshotNamed(d: Disk, unix: bool) {
    Authority(d, unix).None? || LegacyPointer(d, Authority(d, unix).value)
  }

  // -- what readers are served ---------------------------------------------------------

  /** A step keeps serving the same save or switches to the one it writes. It can leave
      readers without a pointer only from the states where a pointer can be lost. */
  lemma StepServes(d: Disk, after: Disk, unix: bool, e: Event, pointer: File, served: Store)
    requires Stepped(d, after, unix, e)
    requires Authority(d, unix) == Some(pointer) && Names(d, pointer, served)
    ensures Authority(after, unix).None? ==> e.Saved? && CanLosePointer(d, unix)
    ensures Authority(after, unix).Some? ==>
      || Names(after, Authority(after, unix).value, served)
      || (e.Saved? && Names(after, Authority(after, unix).value, e.s))
    ensures e.Saved? && e.ok ==> Authority(after, unix).Some? && Names(after, Authority(after, unix).value, e.s)
  {
    hide HoldsSnapshot;
    match e
    case Saved(s, ok) =>
      assert Next(d) !in d.generations;
    case PrunedTo(keep, result) =>
  }

  /** The same where readers are served no snapshot yet. */
  lemma StepServesFirst(d: Disk, after: Disk, unix: bool, e: Event)
    requires Stepped(d, after, unix, e) && NoSnapshotNamed(d, unix)
    ensures NoSnapshotNamed(after, unix) || (e.Saved? && Names(after, Authority(after, unix).value, e.s))
    ensures e.Saved? && e.ok ==> !NoSnapshotNamed(after, unix)
  {
    hide HoldsSnapshot;
    assert Next(d) !in d.generations;
  }

  /** Save `j` lost the readers' pointer, in one of the states where that can happen. */
  ghost predicate LosesPointer(disks: seq<Disk>, events: seq<Event>, unix: bool, j: nat) {
    j + 1 < |disks| && j < |events| && events[j].Saved? && CanLosePointer(disks[j], unix) && Authority(disks[j + 1], unix).None?
  }

  /** After any history at all the legacy layout is as it was, and readers are served the
      regions and records of one save, no acknowledged save after it; or no snapshot,
      and then no save was acknowledged or one lost the pointer, as none can on Unix. */
  lemma {:induction false} HistoryServesOneSave(disks: seq<Disk>, events: seq<Event>, unix: bool)
    requires History(disks, events, unix) && disks[0].current.None? && disks[0].previous.None?
    ensures var last := disks[|events|];
      && last.legacy == disks[0].legacy
      && (|| (NoSnapshotNamed(last, unix) && (NoneAcknowledged(events, 0) || exists j: nat :: LosesPointer(disks, events, unix, j)))
          || exists i: nat :: ServedBy(last, unix, events, i) && NoneAcknowledged(events, i + 1))
    decreases |events|
  {
    hide SaveOutcome, PruneOutcome, Names, LegacyPointer, CanLosePointer;
    if events == [] {
      assert NoSnapshotNamed(disks[0], unix) && NoneAcknowledged(events, 0);
    } else {
      var n := |events| - 1;
      var earlier, e, d, after := events[..n], events[n], disks[n], disks[n + 1];
      var past := disks[..n + 1];
      HistoryServesOneSave(past, earlier, unix);
      assert Stepped(d, after, unix, e);
      StepKeepsLegacy(d, after, unix, e);
      if i: nat :| ServedBy(d, unix, earlier, i) && NoneAcknowledged(earlier, i + 1) {
        StepServes(d, after, unix, e, Authority(d, unix).value, earlier[i].s);
        if Authority(after, unix).None? {
          assert LosesPointer(disks, events, unix, n);
        } else if e.Saved? && Names(after, Authority(after, unix).value, e.s) {
          assert ServedBy(after, unix, events, n) && NoneAcknowledged(events, n + 1);
        } else {
          assert ServedBy(after, unix, events, i) && NoneAcknowledged(events, i + 1);
        }
      } else {
        StepServesFirst(d, after, unix, e);
        if !NoSnapshotNamed(after, unix) {
          assert ServedBy(after, unix, events, n) && NoneAcknowledged(events, n + 1);
        } else if j: nat :| LosesPointer(past, earlier, unix, j) {
          assert LosesPointer(disks, events, unix, j);
        }
      }
    }
  }

  /** So after any history whatever opens is exactly one save, in full and no older than the
      last acknowledged one, or the layout the store started from; anything else is an error. */
  lemma HistoryOpens(disks: seq<Disk>, events: seq<Event>, unix: bool, q: Request)
    requires History(disks, events, unix) && disks[0].current.None? && disks[0].previous.None?
    ensures var last := disks[|events|];
      || ((Open(last, unix, q) == Err(NoPointer) || Open(last, unix, q) == OpenDir(disks[0].legacy, unix, q))
          && (NoneAcknowledged(events, 0) || exists j: nat :: LosesPointer(disks, events, unix, j)))
      || exists i: nat :: ServedBy(last, unix, events, i) && NoneAcknowledged(events, i + 1)
          && if Asks(q, events[i].s) then Open(last, unix, q) == Ok(events[i].s) else Open(last, unix, q).Err?
  {
    hide OpenDir, LosesPointer;
    HistoryServesOneSave(disks, events, unix);
    var last := disks[|events|];
    if i: nat :| ServedBy(last, unix, events, i) && NoneAcknowledged(events, i + 1) {
      ServedOpens(last, unix, events, i, q);
    }
  }

  /** Reopening returns regions and records of one save, for the requests that fit it and
      for no others. */
  lemma ServedOpens(d: Disk, unix: bool, events: seq<Event>, i: nat, q: Request)
    requires ServedBy(d, unix, events, i)
    ensures if Asks(q, events[i].s) then Open(d, unix, q) == Ok(events[i].s) else Open(d, unix, q).Err?
  {
    var pointer := Authority(d, unix).value;
    if Asks(q, events[i].s) {
      NamedOpens(d, unix, pointer, events[i].s, q);
    } else {
      NotAsked(d.generations[pointer.target.n], events[i].s, unix, q);
      hide OpenDir;
    }
  }

  lemma NotAsked(dir: Dir, s: Store, unix: bool, q: Request)
    requires WellFormed(s) && HoldsSnapshot(dir, s) && !Asks(q, s)
    ensures OpenDir(dir, unix, q).Err?
  {
    var hashes := ManifestOf(s).regionHashes;
    if q.dim == s.dim {
      var r :| r in s.regions && s.regions[r].sketch.count > q.maxRecords;
      var disk := dir.regions[r];
      G.NamedOpens(disk, unix, disk.current.value, s.regions[r], None, G.Request(q.dim, None, q.maxRecords));
      assert r in hashes && !RegionOpens(dir.regions, r, unix, q);
    }
  }

  /** A prune changes no reader's result. */
  lemma PruneInvisible(d: Disk, after: Disk, unix: bool, keep: nat, r: Result<nat, Failure>, q: Request)
    requires PruneOutcome(d, after, keep, r)
    ensures Open(after, unix, q) == Open(d, unix, q)
  {
    hide OpenDir;
    if after != d {
      var current := d.current.value.target.n;
      assert Kept(d.generations.Keys, keep, current, current);
    }
  }

  // -- the legacy layout ---------------------------------------------------------------

  lemma StepKeepsSome(d: Disk, after: Disk, unix: bool, e: Event)
    requires Stepped(d, after, unix, e) && d.generations.Keys != {}
    ensures after.generations.Keys != {}
    ensures NoSnapshotNamed(after, unix) && Authority(after, unix).Some? ==> Authority(after, unix) == Authority(d, unix)
  {
    hide HoldsSnapshot;
    if e.PrunedTo? && CanPrune(d) {
      var current := d.current.value.target.n;
      assert Kept(d.generations.Keys, e.keep, current, current);
      assert current in after.generations;
    }
  }

  /** Once a global generation exists the legacy layout is never chosen again: not by
      default, when no pointer is left, and by a pointer only if that pointer was there
      before and never moved since. */
  lemma {:induction false} LegacyNeverReturns(disks: seq<Disk>, events: seq<Event>, unix: bool, i: nat, j: nat, q: Request)
    requires History(disks, events, unix) && i <= j < |disks| && disks[i].generations.Keys != {}
    ensures disks[j].generations.Keys != {}
    ensures Authority(disks[j], unix).None? ==> Open(disks[j], unix, q) == Err(NoPointer)
    ensures Authority(disks[j], unix).Some? && LegacyPointer(disks[j], Authority(disks[j], unix).value) ==>
      Authority(disks[i], unix) == Authority(disks[j], unix)
    decreases j
  {
    if i == j {
    } else {
      assert Stepped(disks[j - 1], disks[j], unix, events[j - 1]);
      LegacyNeverReturns(disks, events, unix, i, j - 1, q);
      StepKeepsSome(disks[j - 1], disks[j], unix, events[j - 1]);
      StepKeepsLegacy(disks[j - 1], disks[j], unix, events[j - 1]);
    }
  }

  lemma StepKeepsLegacy(d: Disk, after: Disk, unix: bool, e: Event)
    requires Stepped(d, after, unix, e)
    ensures after.legacy == d.legacy
  {
  }

  // -- losing the pointer ----------------------------------------------------------------

  /** A save attempt, wherever it stops, can make a readable store unreadable only off Unix,
      from a moved-aside pointer without CURRENT, in a store that never had a legacy layout. */
  lemma UnreadableOnlyAtRisk(d: Disk, after: Disk, unix: bool, s: Store, ok: bool, q: Request, q': Request)
    requires SaveOutcome(d, after, unix, s, ok)
    requires Open(d, unix, q).Ok? && Open(after, unix, q') == Err(NoPointer)
    ensures AtRisk(d, unix) && d.legacy.manifest.None? && Next(d) <= MAX_GENERATION
  {
    hide HoldsSnapshot;
    if Authority(after, unix).Some? && Authority(after, unix).value.PointerFile? {
      var dir := TargetDir(after, Authority(after, unix).value.target);
      if dir.Some? {
        NotNoPointer(dir.value, unix, q');
      }
    }
    if after.generations.Keys == {} {
      NotNoPointer(after.legacy, unix, q');
    }
  }

  lemma NotNoPointer(dir: Dir, unix: bool, q: Request)
    ensures OpenDir(dir, unix, q) != Err(NoPointer)
  {
  }

  /** And from each of these states a save can: it deletes the moved-aside pointer before
      it has a replacement, and stops. With a legacy layout and no generation the pointer
      is lost too, but the layout is still read. */
  method LosePointer(d: Disk, s: Store) returns (lost: Disk)
    requires CanLosePointer(d, false)
    ensures SaveOutcome(d, lost, false, s, false) && Authority(lost, false).None?
    ensures d.legacy.manifest.None? ==> forall q :: Open(lost, false, q) == Err(NoPointer)
    ensures d.legacy.manifest.Some? ==> forall q :: Open(lost, false, q) == OpenDir(d.legacy, false, q)
  {
    hide StagingCalls, HoldsSnapshot, OpenDir;
    var run := new ShardedDir(false, d, CrashAt(LossCall(d, s)), 0);
    var _ := run.SaveDir(s, None);
    lost := run.disk;
  }

  /** From any published store without a legacy layout, two interrupted saves get there:
      the first stops between the two renames and leaves only the moved-aside pointer. */
  method TwoCrashesLosePointer(d: Disk, first: Store, second: Store) returns (gap: Disk, lost: Disk)
    requires d.current.Some? && d.legacy.manifest.None? && Next(d) < MAX_GENERATION
    ensures SaveOutcome(d, gap, false, first, false) && Authority(gap, false) == Authority(d, false)
    ensures SaveOutcome(gap, lost, false, second, false) && forall q :: Open(lost, false, q) == Err(NoPointer)
  {
    hide StagingCalls, HoldsSnapshot, OpenDir;
    var run := new ShardedDir(false, d, CrashAt(GapCall(d, first)), 0);
    var _ := run.SaveDir(first, None);
    gap := run.disk;
    lost := LosePointer(gap, second);
  }

  // -- a store no save can change ----------------------------------------------------------

  /** A store can get stuck only off Unix, where a legacy layout was upgraded. */
  lemma StuckOnlyOffUnix(d: Disk, after: Disk, unix: bool, e: Event)
    requires Stepped(d, after, unix, e) && !Stuck(d) && Stuck(after)
    ensures e.Saved? && d.legacy.manifest.Some? && CanBeInGap(d, unix)
  {
    hide HoldsSnapshot;
  }

  /** And from each of these states it can: a save that stops between the two renames
      leaves it without CURRENT, so that the next save, which nothing disturbs, refuses to
      name the legacy root once more. Readers still have the moved-aside pointer. */
  method Strand(d: Disk, s: Store, later: Store) returns (stuck: Disk, refused: Result<(), Failure>, after: Disk)
    requires d.legacy.manifest.Some? && CanBeInGap(d, false)
    ensures SaveOutcome(d, stuck, false, s, false) && Stuck(stuck) && AtRisk(stuck, false)
    ensures d.current.Some? ==> Authority(stuck, false) == Authority(d, false)
    ensures refused == Err(Failed) && after == stuck
  {
    hide StagingCalls, HoldsSnapshot;
    var run := new ShardedDir(false, d, CrashAt(GapCall(d, s)), 0);
    var _ := run.SaveDir(s, None);
    stuck := run.disk;
    var again := new ShardedDir(false, stuck, _ => Works, 0);
    refused := again.SaveDir(later, None);
    after := again.disk;
  }

  /** A stuck store never changes again: every save and every prune is refused. */
  lemma {:induction false} StuckForever(disks: seq<Disk>, events: seq<Event>, unix: bool, i: nat, j: nat)
    requires History(disks, events, unix) && i <= j < |disks| && Stuck(disks[i])
    ensures disks[j] == disks[i]
    ensures j < |events| ==> if events[j].Saved? then !events[j].ok else events[j].result.Err?
    decreases j
  {
    if i == j {
    } else {
      StuckForever(disks, events, unix, i, j - 1);
      assert Stepped(disks[j - 1], disks[j], unix, events[j - 1]);
    }
    if j < |events| {
      assert Stepped(disks[j], disks[j + 1], unix, events[j]);
    }
  }

  // -- snapshot numbers ----------------------------------------------------------------------

  /** Every step but a prune that keeps none while CURRENT does not name the highest number. */
  ghost predicate KeepsHighest(d: Disk, e: Event) {
    e.PrunedTo? && CanPrune(d) ==> e.keep > 0 || d.current.value.target.n == Highest(d.generations.Keys)
  }

  /** A step adds no number up to the highest, and lowers the highest only as a prune that
      keeps none while CURRENT does not name it. Surviving directories are not rewritten. */
  lemma StepNumbers(d: Disk, after: Disk, unix: bool, e: Event)
    requires Stepped(d, after, unix, e)
    ensures Highest(after.generations.Keys) >= Highest(d.generations.Keys) || !KeepsHighest(d, e)
    ensures forall g :: g in after.generations && g !in d.generations ==> g > Highest(d.generations.Keys)
    ensures forall g :: g in after.generations && g in d.generations ==> PartOf(after.generations[g], d.generations[g])
  {
    hide HoldsSnapshot;
    var h := Highest(d.generations.Keys);
    if e.PrunedTo? && CanPrune(d) {
      assert Newer(d.generations.Keys, h) == {};
      assert KeepsHighest(d, e) ==> Kept(d.generations.Keys, e.keep, d.current.value.target.n, h);
    }
  }

  /** So as long as no prune can drop the highest number, a number is used once. */
  lemma {:induction false} NeverReused(disks: seq<Disk>, events: seq<Event>, unix: bool, i: nat, j: nat, g: nat)
    requires History(disks, events, unix) && i <= j < |disks| && g <= Highest(disks[i].generations.Keys)
    requires forall k :: 0 <= k < |events| ==> KeepsHighest(disks[k], events[k])
    ensures Highest(disks[i].generations.Keys) <= Highest(disks[j].generations.Keys)
    ensures g in disks[j].generations ==> g in disks[i].generations && PartOf(disks[j].generations[g], disks[i].generations[g])
    decreases j
  {
    hide Stepped, PartOf, Highest;
    PartRefl();
    if i == j {
    } else {
      assert Stepped(disks[j - 1], disks[j], unix, events[j - 1]);
      NeverReused(disks, events, unix, i, j - 1, g);
      StepNumbers(disks[j - 1], disks[j], unix, events[j - 1]);
      if g in disks[j].generations {
        PartTrans(disks[j].generations[g], disks[j - 1].generations[g], disks[i].generations[g]);
      }
    }
  }

  /** A completed prune lowers the highest number exactly when it keeps none and CURRENT
      does not name the highest. */
  lemma PruneLowersHighest(d: Disk, after: Disk, keep: nat, removed: nat)
    requires PruneOutcome(d, after, keep, Ok(removed))
    ensures Highest(after.generations.Keys) < Highest(d.generations.Keys) <==>
      keep == 0 && d.current.value.target.n != Highest(d.generations.Keys)
  {
    HighestAfterPrune(d.generations, after.generations, keep, d.current.value.target.n);
  }

  /** In any published store whose CURRENT names the highest number: a save that fails after
      its directory is in place, a prune to nothing but CURRENT and another save give one
      number to two different snapshots. */
  method ReuseNumber(d: Disk, unix: bool, orphan: Store, s: Store) returns (orphaned: Disk, after: Disk)
    requires CanPrune(d) && d.current.value.target.n == Highest(d.generations.Keys) && Next(d) <= MAX_GENERATION
    ensures Next(d) in orphaned.generations && HoldsSnapshot(orphaned.generations[Next(d)], orphan)
    ensures Next(d) in after.generations && HoldsSnapshot(after.generations[Next(d)], s)
    ensures after.current == Some(PointerTo(s, Next(d)))
  {
    hide StagingCalls, HoldsSnapshot;
    var store := new ShardedDir(unix, d, _ => Works, 0);
    var _ := store.SaveDir(orphan, Some(AfterGenerationRename));
    orphaned := store.disk;
    var removed := store.PruneGlobal(0);
    assert store.disk.generations.Keys == {d.current.value.target.n};
    assert Next(store.disk) == Next(d);
    var _ := store.SaveDir(s, None);
    after := store.disk;
  }
}
