/** The waiver walks beside the ledger itself: what covers a month between its check and its waiver
    is a run, a re-apply or an assignment, and only those clear it again. */
module WaiverLedger {
  import opened Calendar
  import opened Ledger
  import opened LedgerCredit
  import opened Arrears
  import opened Waivers
  import LedgerMachine
  import WaiverMachine
  import opened Association

  ghost predicate Ready(s: State) {
    InStep(s) && CoverageRowed(s.ledger.t) && WaiverMachine.Numbered(s.waivers)
  }

  lemma StaysReady(s: State, x: Step)
    requires Ready(s)
    ensures Ready(Next(s, x))
  {
    hide LedgerMachine.Next, WaiverMachine.Next, DeskPart, BookPart, LedgerPart, CoverageRowed;
    StaysInStep(s, x);
    CreditStep(s.ledger, LedgerPart(s, x), CoverKey(0, YearMonth(0, 0)), 0);
    WaiverStays(s, x);
  }

  lemma WaiverStays(s: State, x: Step)
    requires WaiverMachine.Numbered(s.waivers)
    ensures WaiverMachine.Numbered(Next(s, x).waivers)
  {
    hide LedgerMachine.Next, WaiverMachine.Next, DeskPart, BookPart, LedgerPart;
    if x.Waiver? {
      WaiverMachine.NextNumbered(s.waivers, x.waiver);
    }
  }

  lemma {:induction false} AlwaysReady(s: State, steps: seq<Step>)
    requires Ready(s)
    ensures Ready(Execute(s, steps))
  {
    if steps != [] {
      hide Next, Ready;
      AlwaysReady(s, steps[..|steps| - 1]);
      StaysReady(Execute(s, steps[..|steps| - 1]), steps[|steps| - 1]);
    }
  }

  // ---- Paid since ----

  /** The ledger's part of step `k` of a history. */
  function ActionAt(s: State, steps: seq<Step>, k: nat): LedgerMachine.Action
    requires k < |steps|
  {
    LedgerPart(Execute(s, steps[..k]), steps[k])
  }

  /** Step `k` credits the month, and no later step clears the row. */
  ghost predicate PaidAt(s: State, steps: seq<Step>, key: CoverKey, member: int, k: nat)
    requires k < |steps|
  {
    && CreditedBy(Execute(s, steps[..k]).ledger, ActionAt(s, steps, k), key, member)
    && forall j :: k < j < |steps| ==> !ClearedBy(Execute(s, steps[..j]).ledger, ActionAt(s, steps, j), key.row)
  }

  ghost predicate PaidSince(s: State, steps: seq<Step>, from: nat, key: CoverKey, member: int) {
    exists k :: from <= k < |steps| && PaidAt(s, steps, key, member, k)
  }

  lemma PaidLonger(s: State, steps: seq<Step>, from: nat, key: CoverKey, member: int)
    requires from < |steps|
    ensures var (front, n) := (steps[..|steps| - 1], |steps| - 1);
            var (m, a) := (Execute(s, front).ledger, ActionAt(s, steps, n));
            PaidSince(s, steps, from, key, member) <==>
              CreditedBy(m, a, key, member) || (PaidSince(s, front, from, key, member) && !ClearedBy(m, a, key.row))
  {
    hide Execute, LedgerPart, CreditedBy, ClearedBy;
    var (front, n) := (steps[..|steps| - 1], |steps| - 1);
    forall k | 0 <= k <= n ensures steps[..k] == front[..k] {
    }
    assert steps[..n] == front;
    forall k | 0 <= k < n
      ensures PaidAt(s, steps, key, member, k) <==>
                PaidAt(s, front, key, member, k) && !ClearedBy(Execute(s, front).ledger, ActionAt(s, steps, n), key.row)
    {
      assert forall j :: 0 <= j < n ==> front[j] == steps[j] && ActionAt(s, steps, j) == ActionAt(s, front, j);
    }
    assert PaidAt(s, steps, key, member, n) <==> CreditedBy(Execute(s, front).ledger, ActionAt(s, steps, n), key, member);
  }

  /** A month not credited at step `from` is credited at the end exactly when it was paid since. */
  lemma {:induction false} CreditedWhenPaid(s: State, steps: seq<Step>, from: nat, key: CoverKey, member: int)
    requires Ready(s) && from <= |steps| && !Credits(Execute(s, steps[..from]).ledger.t, key, member)
    ensures Credits(Execute(s, steps).ledger.t, key, member) <==> PaidSince(s, steps, from, key, member)
    decreases |steps|
  {
    if from == |steps| {
      assert steps[..from] == steps;
    } else {
      hide LedgerMachine.Next, LedgerPart, PaidSince, Credits, Ready;
      assert steps[..|steps| - 1][..from] == steps[..from];
      CreditedWhenPaid(s, steps[..|steps| - 1], from, key, member);
      CreditedOneMore(s, steps, from, key, member);
    }
  }

  lemma CreditedOneMore(s: State, steps: seq<Step>, from: nat, key: CoverKey, member: int)
    requires Ready(s) && from < |steps| && Execute(s, steps) == Next(Execute(s, steps[..|steps| - 1]), steps[|steps| - 1])
    requires var front := steps[..|steps| - 1];
             Credits(Execute(s, front).ledger.t, key, member) <==> PaidSince(s, front, from, key, member)
    ensures Credits(Execute(s, steps).ledger.t, key, member) <==> PaidSince(s, steps, from, key, member)
  {
    hide Execute, LedgerMachine.Next, LedgerPart, PaidSince, Credits, Ready, CreditedBy, ClearedBy;
    var (front, n) := (steps[..|steps| - 1], |steps| - 1);
    assert steps[..n] == front;
    AlwaysReady(s, front);
    ReadyLedger(Execute(s, front));
    CreditStep(Execute(s, front).ledger, LedgerPart(Execute(s, front), steps[n]), key, member);
    PaidLonger(s, steps, from, key, member);
  }

  lemma ReadyLedger(s: State)
    requires Ready(s)
    ensures CoverageRowed(s.ledger.t) && s.waivers.coverage == s.ledger.t.coverage
  {
  }

  lemma CoveredIsCredited(t: Tables, member: int, month: YearMonth)
    ensures Covered(t.coverage, member, month) <==> exists key: CoverKey :: key.month == month && Credits(t, key, member)
  {
    if Covered(t.coverage, member, month) {
      var key :| key in t.coverage && key.month == month && t.coverage[key] == member;
      assert Credits(t, key, member);
    }
  }

  // ---- Checked before ----

  lemma WritingComesFromCheck(s: State, x: Step, w: nat)
    requires Ready(s) && WaiverMachine.Stands(Next(s, x).waivers, w, Writing)
    ensures || (WaiverMachine.Stands(s.waivers, w, Writing) && s.waivers.walks[w] == Next(s, x).waivers.walks[w])
            || (x == Waiver(WaiverMachine.Check(w, true)) && w in s.waivers.walks
                && s.waivers.walks[w] == Next(s, x).waivers.walks[w].(stage := Checking)
                && !Covered(s.ledger.t.coverage, s.waivers.walks[w].member, s.waivers.walks[w].Month())
                && Next(s, x).ledger.t.coverage == s.ledger.t.coverage)
  {
    hide WaiverMachine.Next, DeskPart, BookPart;
    if x.Waiver? && WaiverPart(s, x) != s.waivers {
      WaiverMachine.WritingComesFromCheck(s.waivers, x.waiver, w);
    }
  }

  /** The walk's check of the month it is about to write, at step `k`. */
  ghost predicate CheckedAt(s: State, steps: seq<Step>, w: nat, k: nat)
    requires k < |steps|
  {
    && steps[k] == Waiver(WaiverMachine.Check(w, true))
    && w in Execute(s, steps).waivers.walks && w in Execute(s, steps[..k]).waivers.walks
    && var walk := Execute(s, steps).waivers.walks[w];
       && Execute(s, steps[..k]).waivers.walks[w] == walk.(stage := Checking)
       && !Covered(Execute(s, steps[..k + 1]).ledger.t.coverage, walk.member, walk.Month())
  }

  lemma {:induction false} WritingWasChecked(s: State, steps: seq<Step>, w: nat) returns (k: nat)
    requires Ready(s) && s.waivers.walks == map[] && WaiverMachine.Stands(Execute(s, steps).waivers, w, Writing)
    ensures k < |steps| && CheckedAt(s, steps, w, k)
    decreases |steps|
  {
    hide Next, Ready, Covered;
    assert steps != [];
    var (front, x) := (steps[..|steps| - 1], steps[|steps| - 1]);
    AlwaysReady(s, front);
    WritingComesFromCheck(Execute(s, front), x, w);
    if WaiverMachine.Stands(Execute(s, front).waivers, w, Writing) {
      k := WritingWasChecked(s, front, w);
      assert front[..k] == steps[..k] && front[..k + 1] == steps[..k + 1];
    } else {
      k := |front|;
      assert steps[..k + 1] == steps;
    }
  }

  lemma GainIsWrite(s: State, x: Step, key: MonthKey)
    requires key !in s.waivers.waivers && key in Next(s, x).waivers.waivers
    ensures x.Waiver? && x.waiver.Write? && WaiverMachine.Stands(s.waivers, x.waiver.walk, Writing)
    ensures s.waivers.walks[x.waiver.walk].Key() == key
  {
    hide WaiverMachine.Next, LedgerMachine.Next, DeskPart, BookPart, LedgerPart;
    WaiverMachine.GainNeedsWriting(s.waivers, x.waiver, key);
  }

  /** In any history of the association, a month that gains a waiver was uncovered at its walk's
      check, and it is covered at the write if and only if since that check a run, a re-apply or an
      assignment credited it to the member and none of them, nor an unassignment, cleared that row. */
  lemma WaivedWhilePaid(s: State, steps: seq<Step>, x: Step, key: MonthKey) returns (k: nat)
    requires Ready(s) && s.waivers.walks == map[]
    requires key !in Execute(s, steps).waivers.waivers && key in Next(Execute(s, steps), x).waivers.waivers
    ensures x.Waiver? && x.waiver.Write? && k < |steps| && CheckedAt(s, steps, x.waiver.walk, k)
    ensures Execute(s, steps).waivers.walks[x.waiver.walk].Key() == key
    ensures Covered(Execute(s, steps).ledger.t.coverage, key.member, key.month) <==>
              exists paid: CoverKey :: paid.month == key.month && PaidSince(s, steps, k + 1, paid, key.member)
  {
    hide Next, Ready, PaidSince, Covered, Credits;
    GainIsWrite(Execute(s, steps), x, key);
    k := WritingWasChecked(s, steps, x.waiver.walk);
    CoveredIsCredited(Execute(s, steps[..k + 1]).ledger.t, key.member, key.month);
    CoveredIsCredited(Execute(s, steps).ledger.t, key.member, key.month);
    forall paid: CoverKey | paid.month == key.month
      ensures Credits(Execute(s, steps).ledger.t, paid, key.member) <==> PaidSince(s, steps, k + 1, paid, key.member)
    {
      CreditedWhenPaid(s, steps, k + 1, paid, key.member);
    }
  }
}
