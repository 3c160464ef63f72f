/** The run counters: five fields the application object keeps and updates
    under one lock. Each method below is one locked section. */
module Counters {

  /** Which of the three outcome counters a finished worker bumps. */
  datatype Counter = ConvertedCounter | SkippedCounter | ErrorsCounter

  /** A copy of the five counters taken under the lock. */
  datatype Counts = Counts(total: nat, processed: nat, converted: nat, skipped: nat, errors: nat)
  {
    function Outcomes(): nat
    {
      converted + skipped + errors
    }

    /** What holds each time the lock is released during a run: the
        coordinator counts a task only after its worker has recorded an
        outcome, and no more outcomes are recorded than files were found. */
    predicate Consistent()
    {
      processed <= Outcomes() <= total
    }
  }

  const Zero := Counts(0, 0, 0, 0, 0)

  /** The counts after a worker records one outcome. */
  function Bump(c: Counts, k: Counter): (r: Counts)
    ensures r.total == c.total && r.processed == c.processed
    ensures r.Outcomes() == c.Outcomes() + 1
  {
    match k
    case ConvertedCounter => c.(converted := c.converted + 1)
    case SkippedCounter => c.(skipped := c.skipped + 1)
    case ErrorsCounter => c.(errors := c.errors + 1)
  }

  class JobCounters {
    var total: nat
    var processed: nat
    var converted: nat
    var skipped: nat
    var errors: nat

    function Snapshot(): Counts
      reads this
    {
      Counts(total, processed, converted, skipped, errors)
    }

    /** All counters start at zero. */
    constructor ()
      ensures Snapshot() == Zero
    {
      total, processed, converted, skipped, errors := 0, 0, 0, 0, 0;
    }

    /** Start of a run: every counter back to zero. */
    method Reset()
      modifies this
      ensures Snapshot() == Zero
    {
      total := 0;
      processed := 0;
      converted := 0;
      skipped := 0;
      errors := 0;
    }

    /** After discovery: the number of files found; nothing else changes. */
    method SetTotal(n: nat)
      modifies this
      ensures Snapshot() == old(Snapshot()).(total := n)
    {
      total := n;
    }

    /** A worker's locked increment: exactly one outcome counter goes up. */
    method RecordOutcome(k: Counter)
      modifies this
      ensures Snapshot() == Bump(old(Snapshot()), k)
    {
      match k
      case ConvertedCounter => converted := converted + 1;
      case SkippedCounter => skipped := skipped + 1;
      case ErrorsCounter => errors := errors + 1;
    }

    /** The coordinator's locked section for one completed task: `processed`
        goes up by one and the counters are read back in the same section. */
    method RecordCompletion() returns (snap: Counts)
      modifies this
      ensures Snapshot() == old(Snapshot()).(processed := old(processed) + 1)
      ensures snap == Snapshot()
    {
      processed := processed + 1;
      snap := Counts(total, processed, converted, skipped, errors);
    }
  }
}
