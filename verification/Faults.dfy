/** How a filesystem call may end, and how an operation may. A schedule says it for every
    call a process will ever make, by its number. */
module Faults {

  datatype Fault = Works | Fails | Crashes

  datatype Failure = Failed | Crashed

  ghost predicate Faultless(faults: nat -> Fault) {
    forall i: nat :: faults(i) == Works
  }

  /** The next `n` calls work. */
  ghost predicate Working(faults: nat -> Fault, from: nat, n: nat) {
    forall i: nat :: from <= i < from + n ==> faults(i) == Works
  }

  /** Exactly the next `n` calls work, and the one after them is the last thing that happens. */
  ghost predicate CrashesAfter(faults: nat -> Fault, from: nat, n: nat) {
    Working(faults, from, n) && faults(from + n) == Crashes
  }

  lemma CrashLater(faults: nat -> Fault, from: nat, n: nat)
    ensures CrashesAfter(faults, from, 1 + n) ==> faults(from) == Works && CrashesAfter(faults, from + 1, n)
  {
    assert from + 1 + n == from + (1 + n);
  }

  function CrashAt(n: nat): nat -> Fault {
    (i: nat) => if i < n then Works else Crashes
  }
}
