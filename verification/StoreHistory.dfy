/** Whole histories of one store: saves that may fail or crash anywhere, with prunes in
    between. */
module StoreHistory {
  import opened Wrappers
  import opened Faults
  import opened GenerationNumbers
  import opened Generations
  import opened GenerationStore
  import opened Pruning

  datatype Event =
    | Saved(m: Memory, fingerprint: Option<string>, ok: bool)
    | PrunedTo(keep: nat, result: Result<nat, Failure>)

  ghost predicate Stepped(d: Disk, after: Disk, unix: bool, e: Event) {
    match e
    case Saved(m, fingerprint, ok) => Coupled(m) && SaveOutcome(d, after, unix, m, fingerprint, ok)
    case PrunedTo(keep, result) => PruneOutcome(d, after, keep, result)
  }

  ghost predicate History(disks: seq<Disk>, events: seq<Event>, unix: bool) {
    && |disks| == |events| + 1
    && forall i :: 0 <= i < |events| ==> Stepped(disks[i], disks[i + 1], unix, events[i])
  }

  /** Readers of `d` are served by the save of event `i`. */
  ghost predicate ServedBy(d: Disk, unix: bool, events: seq<Event>, i: nat) {
    && i < |events| && events[i].Saved? && Coupled(events[i].m)
    && Authority(d, unix).Some?
    && Names(d, Authority(d, unix).value, events[i].m, events[i].fingerprint)
  }

  ghost predicate NoneAcknowledged(events: seq<Event>, from: nat) {
    forall j :: from <= j < |events| ==> events[j].Saved? ==> !events[j].ok
  }

  /** A step keeps serving the same save, or switches to the one it writes. */
  lemma StepServes(d: Disk, after: Disk, unix: bool, e: Event, pointer: File, m: Memory, fingerprint: Option<string>)
    requires Stepped(d, after, unix, e)
    requires Authority(d, unix) == Some(pointer) && Names(d, pointer, m, fingerprint)
    ensures Authority(after, unix).Some?
    ensures Names(after, Authority(after, unix).value, m, fingerprint)
         || (e.Saved? && Names(after, Authority(after, unix).value, e.m, e.fingerprint))
    ensures e.Saved? && e.ok ==> Names(after, Authority(after, unix).value, e.m, e.fingerprint)
  {
    match e
    case Saved(m', fp', ok) =>
      assert Next(d) !in d.generations;
    case PrunedTo(keep, result) =>
  }

  /** The same where no pointer is visible yet. */
  lemma StepServesFirst(d: Disk, after: Disk, unix: bool, e: Event)
    requires Stepped(d, after, unix, e) && Authority(d, unix).None?
    ensures Authority(after, unix).Some? ==> e.Saved? && Names(after, Authority(after, unix).value, e.m, e.fingerprint)
    ensures e.Saved? && e.ok ==> Authority(after, unix).Some?
  {
  }

  /** After any history that starts with no pointer, readers see one complete save: no
      acknowledged save came after it, and nothing was ever mixed. If no pointer is
      visible, no save was acknowledged at all. */
  lemma {:induction false} HistoryServesOneSave(disks: seq<Disk>, events: seq<Event>, unix: bool)
    requires History(disks, events, unix) && disks[0].current.None? && disks[0].previous.None?
    ensures var last := disks[|events|];
      || (Authority(last, unix).None? && NoneAcknowledged(events, 0))
      || exists i: nat :: ServedBy(last, unix, events, i) && NoneAcknowledged(events, i + 1)
    decreases |events|
  {
    hide SaveOutcome, PruneOutcome, Names;
    if events == [] {
      assert NoneAcknowledged(events, 0);
    } else {
      var n := |events| - 1;
      var earlier, e, d, after := events[..n], events[n], disks[n], disks[n + 1];
      HistoryServesOneSave(disks[..n + 1], earlier, unix);
      assert Stepped(d, after, unix, e);
      if Authority(d, unix).None? && NoneAcknowledged(earlier, 0) {
        StepServesFirst(d, after, unix, e);
        if Authority(after, unix).Some? {
          assert ServedBy(after, unix, events, n) && NoneAcknowledged(events, n + 1);
        }
      } else {
        var i: nat :| ServedBy(d, unix, earlier, i) && NoneAcknowledged(earlier, i + 1);
        StepServes(d, after, unix, e, Authority(d, unix).value, earlier[i].m, earlier[i].fingerprint);
        if e.Saved? && Names(after, Authority(after, unix).value, e.m, e.fingerprint) {
          assert ServedBy(after, unix, events, n) && NoneAcknowledged(events, n + 1);
        } else {
          assert ServedBy(after, unix, events, i) && NoneAcknowledged(events, i + 1);
        }
      }
    }
  }

  /** So every reader whose request fits gets exactly what was saved, or an error that
      says no save was ever acknowledged. */
  lemma HistoryOpens(disks: seq<Disk>, events: seq<Event>, unix: bool, q: Request)
    requires History(disks, events, unix) && disks[0].current.None? && disks[0].previous.None?
    ensures var last := disks[|events|];
      Authority(last, unix).Some? ==>
        exists i: nat :: ServedBy(last, unix, events, i) && NoneAcknowledged(events, i + 1)
          && (Asks(q, events[i].m, events[i].fingerprint) ==> Open(last, unix, q) == Ok(events[i].m))
          && (Open(last, unix, q).Ok? ==> Open(last, unix, q) == Ok(events[i].m))
  {
    HistoryServesOneSave(disks, events, unix);
    var last := disks[|events|];
    if Authority(last, unix).Some? {
      var i: nat :| ServedBy(last, unix, events, i) && NoneAcknowledged(events, i + 1);
      NamedOpens(last, unix, Authority(last, unix).value, events[i].m, events[i].fingerprint, q);
    }
  }

  // -- generation numbers ------------------------------------------------------------

  /** A step adds no number at or below the highest ever seen, never lowers the highest,
      and leaves surviving directories alone unless a prune was interrupted in them. */
  lemma StepNumbers(d: Disk, after: Disk, unix: bool, e: Event)
    requires Stepped(d, after, unix, e)
    ensures Highest(after.generations.Keys) >= Highest(d.generations.Keys)
    ensures forall g :: g in after.generations && g !in d.generations ==> g > Highest(d.generations.Keys)
    ensures forall g :: g in after.generations && g in d.generations ==>
      after.generations[g] == d.generations[g] || (e.PrunedTo? && PartOf(after.generations[g], d.generations[g]))
  {
    var h := Highest(d.generations.Keys);
    if e.PrunedTo? && d.generations.Keys != {} && after != d {
      assert Newer(d.generations.Keys, h) == {};
      assert Kept(d.generations.Keys, e.keep, d.current.value.generation, h);
    }
  }

  lemma {:induction false} NumbersOnlyGrow(disks: seq<Disk>, events: seq<Event>, unix: bool, i: nat, j: nat)
    requires History(disks, events, unix) && i <= j < |disks|
    ensures Highest(disks[i].generations.Keys) <= Highest(disks[j].generations.Keys)
    decreases j
  {
    if i == j {
    } else {
      assert Stepped(disks[j - 1], disks[j], unix, events[j - 1]);
      NumbersOnlyGrow(disks, events, unix, i, j - 1);
      StepNumbers(disks[j - 1], disks[j], unix, events[j - 1]);
    }
  }

  /** Over a whole history a number is used once: once it lies at or below the highest
      and is gone it stays gone, and while it is there its directory is never rewritten;
      only an interrupted prune takes files out of it. */
  lemma {:induction false} NeverReused(disks: seq<Disk>, events: seq<Event>, unix: bool, i: nat, j: nat, g: nat)
    requires History(disks, events, unix) && i <= j < |disks| && g <= Highest(disks[i].generations.Keys)
    ensures g in disks[j].generations ==>
      && g in disks[i].generations
      && PartOf(disks[j].generations[g], disks[i].generations[g])
    decreases j
  {
    hide Stepped, PartOf, Highest;
    PartRefl();
    if i == j {
    } else {
      assert Stepped(disks[j - 1], disks[j], unix, events[j - 1]);
      NeverReused(disks, events, unix, i, j - 1, g);
      NumbersOnlyGrow(disks, events, unix, i, j - 1);
      StepNumbers(disks[j - 1], disks[j], unix, events[j - 1]);
      if g in disks[j].generations {
        PartTrans(disks[j].generations[g], disks[j - 1].generations[g], disks[i].generations[g]);
      }
    }
  }

  /** Pruning never changes what a reader gets. */
  lemma PruneInvisible(d: Disk, after: Disk, unix: bool, keep: nat, r: Result<nat, Failure>, q: Request)
    requires PruneOutcome(d, after, keep, r)
    ensures Open(after, unix, q) == Open(d, unix, q)
  {
    hide OpenGeneration;
    if after != d {
      var pointer := Authority(d, unix).value;
      assert Kept(d.generations.Keys, keep, pointer.generation, pointer.generation);
      OpenFrame(d, after, pointer.generation, pointer.manifestHash, q);
    }
  }

  lemma OpenFrame(d: Disk, after: Disk, g: nat, h: Digest, q: Request)
    requires g in d.generations <==> g in after.generations
    requires g in d.generations ==> after.generations[g] == d.generations[g]
    ensures OpenGeneration(after, g, h, q) == OpenGeneration(d, g, h, q)
  {
    hide LoadComponents;
  }

  // -- the v0.4 layout -----------------------------------------------------------------

  /** A save attempt, wherever it stops, can make a readable store unreadable only when
      neither a pointer nor a generation was there before it. */
  lemma OnlyLegacyVanishes(d: Disk, after: Disk, unix: bool, m: Memory, fingerprint: Option<string>, ok: bool, q: Request, q': Request)
    requires SaveOutcome(d, after, unix, m, fingerprint, ok)
    requires Open(d, unix, q).Ok? && Open(after, unix, q') == Err(NoPointer)
    ensures Authority(d, unix).None? && d.generations.Keys == {}
  {
    hide OpenGeneration, LoadComponents;
    if Authority(after, unix).Some? {
      var pointer := Authority(after, unix).value;
      if pointer.PointerFile? {
        NotNoPointer(after, pointer.generation, pointer.manifestHash, q');
      }
    }
  }

  lemma NotNoPointer(d: Disk, g: nat, h: Digest, q: Request)
    ensures OpenGeneration(d, g, h, q) != Err(NoPointer)
  {
  }

  /** And every such store can be lost that way: its first save, stopped right after the
      generation directory is renamed into place, leaves nothing a reader accepts. */
  method HideLegacy(d: Disk, unix: bool, m: Memory, fingerprint: Option<string>) returns (after: Disk)
    requires Authority(d, unix).None? && d.generations.Keys == {}
    ensures SaveOutcome(d, after, unix, m, fingerprint, false)
    ensures after.legacyTree == d.legacyTree && after.legacySketch == d.legacySketch
    ensures forall q :: Open(after, unix, q) == Err(NoPointer)
  {
    var store := new StoreDir(unix, d, CrashAt(CALLS_TO_RENAME), 0);
    var r := store.Save(m, fingerprint);
    after := store.disk;
  }

  lemma StepKeepsSome(d: Disk, after: Disk, unix: bool, e: Event)
    requires Stepped(d, after, unix, e) && d.generations.Keys != {}
    ensures after.generations.Keys != {}
  {
    var h := Highest(d.generations.Keys);
    if e.PrunedTo? && CanPrune(d, e.keep) {
      assert Newer(d.generations.Keys, h) == {};
      assert Kept(d.generations.Keys, e.keep, d.current.value.generation, h);
    }
    assert h in after.generations;
  }

  /** Over any history the v0.4 files are never read again once a generation exists, not
      even when no pointer is left. */
  lemma {:induction false} LegacyNeverReturns(disks: seq<Disk>, events: seq<Event>, unix: bool, i: nat, j: nat, q: Request)
    requires History(disks, events, unix) && i <= j < |disks| && disks[i].generations.Keys != {}
    ensures disks[j].generations.Keys != {}
    ensures Authority(disks[j], unix).None? ==> Open(disks[j], unix, q) == Err(NoPointer)
    decreases j
  {
    if i == j {
    } else {
      assert Stepped(disks[j - 1], disks[j], unix, events[j - 1]);
      LegacyNeverReturns(disks, events, unix, i, j - 1, q);
      StepKeepsSome(disks[j - 1], disks[j], unix, events[j - 1]);
    }
  }

  /** What a reader of a legacy store finds after a save attempt. */
  lemma LegacyAfterSave(d: Disk, after: Disk, unix: bool, m: Memory, fingerprint: Option<string>, ok: bool, q: Request)
    requires Authority(d, unix).None? && d.generations.Keys == {} && Coupled(m)
    requires SaveOutcome(d, after, unix, m, fingerprint, ok)
    ensures after.generations.Keys == {} ==> Open(after, unix, q) == Open(d, unix, q)
    ensures after.generations.Keys != {} && Authority(after, unix).None? ==> Open(after, unix, q) == Err(NoPointer)
    ensures Authority(after, unix).Some? && Asks(q, m, fingerprint) ==> Open(after, unix, q) == Ok(m)
  {
    assert Next(d) == 1;
    if Authority(after, unix).Some? {
      NamedOpens(after, unix, Authority(after, unix).value, m, fingerprint, q);
    }
  }
}
