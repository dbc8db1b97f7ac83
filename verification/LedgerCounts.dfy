/** Exactly-once processing when runs overlap: several may list the same transaction, but only
    one stores its row and counts it as processed; the others count it as failed. */
module LedgerCounts {
  import opened Categorization
  import opened Ledger
  import opened LedgerInvariant
  import opened LedgerMachine
  import opened LedgerExact
  import opened RunOnce

  /** What the runs report as processed. */
  function Processed(runs: seq<RunJob>): nat {
    if runs == [] then 0 else Processed(runs[..|runs| - 1]) + runs[|runs| - 1].done
  }

  /** Every transaction a run listed is processed, failed or still to come. */
  function ListedBy(run: RunJob): nat {
    run.done + run.failed + |run.pending|
  }

  lemma {:induction false} OneRunCounts(runs: seq<RunJob>, i: nat, run: RunJob)
    requires i < |runs|
    ensures Processed(runs[i := run]) == Processed(runs) - runs[i].done + run.done
  {
    var (changed, last) := (runs[i := run], |runs| - 1);
    if i < last {
      OneRunCounts(runs[..last], i, run);
      assert changed[..last] == runs[..last][i := run];
    } else {
      assert changed[..last] == runs[..last];
    }
  }

  lemma WriteCounts(t: Tables, raw: int, o: Outcome, fault: Fault)
    requires RowsNumbered(t) && raw in t.raws
    ensures |WriteNew(t, raw, o, fault).rows| == |t.rows| + if NewGoesThrough(t, raw, o, fault) then 1 else 0
  {
    StoreAddsOne(t, raw, o);
  }

  lemma SameKeysSameSize(rows: map<int, Row>, rows': map<int, Row>)
    requires rows'.Keys == rows.Keys
    ensures |rows'| == |rows|
  {
    assert |rows| == |rows.Keys| && |rows'| == |rows'.Keys|;
  }

  /** Other actions add no row and leave the runs as they are, but for a new one. */
  lemma OthersCountNothing(m: Machine, a: Action)
    requires !a.RunWrite? && !a.RunDecide? && !a.Crash?
    ensures Next(m, a).t.rows.Keys == m.t.rows.Keys
    ensures |m.runs| <= |Next(m, a).runs| && Next(m, a).runs[..|m.runs|] == m.runs
    ensures Processed(Next(m, a).runs) == Processed(m.runs)
  {
  }

  lemma StepCounts(m: Machine, a: Action)
    requires RowsNumbered(m.t)
    ensures var m' := Next(m, a);
            && (!a.Crash? ==> |m'.t.rows| - |m.t.rows| == Processed(m'.runs) - Processed(m.runs))
            && (!a.Crash? ==> |m.runs| <= |m'.runs| && forall i :: 0 <= i < |m.runs| ==> ListedBy(m'.runs[i]) == ListedBy(m.runs[i]))
            && |m'.t.rows| - |m.t.rows| >= Processed(m'.runs) - Processed(m.runs)
            && (a.Crash? ==> m' == Machine(m.t, [], []))
  {
    var m' := Next(m, a);
    match a
    case RunWrite(run, fault) =>
      if RunAt(m, run, true) {
        WriteCounts(m.t, m.runs[run].pending[0], m.runs[run].decided.value, fault);
        OneRunCounts(m.runs, run, m'.runs[run]);
      }
    case RunDecide(run, fault) =>
      if RunAt(m, run, false) {
        OneRunCounts(m.runs, run, m'.runs[run]);
      }
    case Crash =>
    case _ =>
      hide Next;
      OthersCountNothing(m, a);
      SameKeysSameSize(m.t.rows, m'.t.rows);
      assert forall i :: 0 <= i < |m.runs| ==> m'.runs[i] == m'.runs[..|m.runs|][i];
  }

  /** Over every interleaving of runs, however many overlap, with everything else: without a crash
      the processed counters grow by exactly the rows added, a crash only forgets counts; no
      transaction ever has two rows; and each run accounts for all it listed. */
  lemma {:induction false} CountsAreRows(m: Machine, actions: seq<Action>)
    requires Flowing(m)
    ensures var m' := Execute(m, actions);
            && (forall a, b :: a in m'.t.rows && b in m'.t.rows && m'.t.rows[a].raw == m'.t.rows[b].raw ==> a == b)
            && |m'.t.rows| - |m.t.rows| >= Processed(m'.runs) - Processed(m.runs)
            && ((forall a :: a in actions ==> !a.Crash?) ==>
                  && |m'.t.rows| - |m.t.rows| == Processed(m'.runs) - Processed(m.runs)
                  && |m.runs| <= |m'.runs|
                  && forall i :: 0 <= i < |m.runs| ==> ListedBy(m'.runs[i]) == ListedBy(m.runs[i]))
    decreases |actions|
  {
    if actions != [] {
      hide Next, ListedBy;
      assert actions[0] in actions && forall a :: a in actions[1..] ==> a in actions;
      assert RowsNumbered(m.t);
      StepFlows(m, actions[0]);
      StepCounts(m, actions[0]);
      CountsAreRows(Next(m, actions[0]), actions[1..]);
    }
  }
}
