/** Closed budget years beside live ones: re-applies confined to later years, however many
    overlap, move no figure of a closed year while everything else goes on. */
module ClosedYears {
  import opened Calendar
  import opened Categorization
  import opened Ledger
  import opened LedgerInvariant
  import opened LedgerMachine
  import opened BudgetLines
  import opened BudgetReport

  /** Without override-rules a re-apply starts in the current year at the earliest. */
  lemma WithoutOverrideCurrentYear(text: FromText, today: Date, year: int)
    requires year < today.year
    ensures ReapplyFromDate(text, today, false).Start? ==> NotAfter(Date(year + 1, 1, 1), ReapplyFromDate(text, today, false).date)
  {
    if text.Parsed? && NotAfter(StartOfCurrentYear(today), text.date) {
      NotAfterTransitive(Date(year + 1, 1, 1), StartOfCurrentYear(today), text.date);
    }
  }

  predicate DatedIn(rt: RawTransaction, year: int) {
    NotAfter(Date(year, 1, 1), rt.date) && !NotAfter(Date(year + 1, 1, 1), rt.date)
  }

  /** A re-apply starts after the year, and nobody books or assigns a transaction of the year. */
  predicate LeavesYear(m: Machine, a: Action, year: int) {
    match a
    case StartReapply(_, from) => NotAfter(Date(year + 1, 1, 1), from)
    case RunWrite(run, _) => RunAt(m, run, true) ==> !DatedIn(m.t.raws[m.runs[run].pending[0]], year)
    case Assign(id, _, _, _) => !CountsIn(m.t, id, year)
    case Unassign(id, _) => !CountsIn(m.t, id, year)
    case _ => true
  }

  ghost predicate AllLeaveYear(m: Machine, actions: seq<Action>, year: int)
    decreases |actions|
  {
    actions != [] ==> LeavesYear(m, actions[0], year) && AllLeaveYear(Next(m, actions[0]), actions[1..], year)
  }

  ghost predicate Numbered(t: Tables) {
    RowsNumbered(t) && (forall raw :: raw in t.raws ==> raw < t.nextRaw) && forall id :: id in t.rows ==> t.rows[id].raw in t.raws
  }

  ghost predicate Later(t: Tables, c: Candidate, year: int) {
    c.id in t.rows && t.rows[c.id].raw in t.raws && NotAfter(Date(year + 1, 1, 1), t.raws[t.rows[c.id].raw].date)
  }

  /** Every candidate in flight is dated after the year. */
  ghost predicate LaterOnly(m: Machine, year: int) {
    Numbered(m.t) && forall i, c :: 0 <= i < |m.reapplies| && c in m.reapplies[i].pending ==> Later(m.t, c, year)
  }

  // ---- Each write ----

  lemma NewLeavesYear(t: Tables, raw: int, o: Outcome, fault: Fault, year: int)
    requires Numbered(t) && raw in t.raws && !DatedIn(t.raws[raw], year)
    ensures YearUntouched(t, WriteNew(t, raw, o, fault), year) && Numbered(WriteNew(t, raw, o, fault))
  {
  }

  lemma ChangeLeavesYear(t: Tables, c: Candidate, o: Outcome, fault: Fault, year: int)
    requires Numbered(t) && Later(t, c, year)
    ensures YearUntouched(t, WriteChange(t, c, o, fault), year) && Numbered(WriteChange(t, c, o, fault))
  {
    WriteKeepsClosedYears(t, c, o, fault, Date(year + 1, 1, 1), year);
  }

  lemma AssignLeavesYear(t: Tables, id: int, request: AssignRequest, thisYear: int, fault: Fault, year: int)
    requires Numbered(t) && !CountsIn(t, id, year)
    ensures YearUntouched(t, AssignRow(t, id, request, thisYear, fault), year) && Numbered(AssignRow(t, id, request, thisYear, fault))
  {
  }

  lemma UnassignLeavesYear(t: Tables, id: int, fault: Fault, year: int)
    requires Numbered(t) && !CountsIn(t, id, year)
    ensures YearUntouched(t, UnassignRow(t, id, fault), year) && Numbered(UnassignRow(t, id, fault))
  {
  }

  lemma DeleteRuleLeavesYear(t: Tables, rule: int, year: int)
    requires Numbered(t)
    ensures YearUntouched(t, DeleteRule(t, rule), year) && Numbered(DeleteRule(t, rule))
  {
  }

  lemma ArrivalLeavesYear(t: Tables, rt: RawTransaction, year: int)
    requires Numbered(t)
    ensures YearUntouched(t, AddRaw(t, rt), year) && Numbered(AddRaw(t, rt))
  {
  }

  // ---- Each action, and every history ----

  lemma StepLeavesTables(m: Machine, a: Action, year: int)
    requires LaterOnly(m, year) && LeavesYear(m, a, year)
    ensures YearUntouched(m.t, Next(m, a).t, year) && Numbered(Next(m, a).t)
  {
    match a
    case RunWrite(run, fault) =>
      if RunAt(m, run, true) {
        NewLeavesYear(m.t, m.runs[run].pending[0], m.runs[run].decided.value, fault, year);
      }
    case ReapplyWrite(i, fault) =>
      if ReapplyAt(m, i, true) {
        assert m.reapplies[i].pending[0] in m.reapplies[i].pending;
        ChangeLeavesYear(m.t, m.reapplies[i].pending[0], m.reapplies[i].decided.value, fault, year);
      }
    case Assign(id, request, thisYear, fault) => AssignLeavesYear(m.t, id, request, thisYear, fault, year);
    case Unassign(id, fault) => UnassignLeavesYear(m.t, id, fault, year);
    case RemoveRule(rule) => DeleteRuleLeavesYear(m.t, rule, year);
    case Arrive(rt) => ArrivalLeavesYear(m.t, rt, year);
    case _ =>
  }

  /** Every candidate in flight was in flight before, or has just been listed. */
  lemma PendingFrom(m: Machine, a: Action, i: nat, c: Candidate)
    requires i < |Next(m, a).reapplies| && c in Next(m, a).reapplies[i].pending
    ensures (i < |m.reapplies| && c in m.reapplies[i].pending)
            || (a.StartReapply? && c in CandidatesBelow(m.t, m.t.nextRow, a.from))
  {
  }

  lemma StepLaterOnly(m: Machine, a: Action, year: int)
    requires LaterOnly(m, year) && LeavesYear(m, a, year)
    ensures LaterOnly(Next(m, a), year)
  {
    hide Next, YearUntouched;
    StepLeavesTables(m, a, year);
    forall i, c | 0 <= i < |Next(m, a).reapplies| && c in Next(m, a).reapplies[i].pending ensures Later(Next(m, a).t, c, year) {
      PendingFrom(m, a, i, c);
      if i < |m.reapplies| && c in m.reapplies[i].pending {
        LaterStays(m.t, Next(m, a).t, c, year);
      } else {
        ListedIsLater(m.t, c, a.from, year);
        LaterStays(m.t, Next(m, a).t, c, year);
      }
    }
  }

  lemma LaterStays(t: Tables, t': Tables, c: Candidate, year: int)
    requires Later(t, c, year) && YearUntouched(t, t', year)
    ensures Later(t', c, year)
  {
  }

  lemma ListedIsLater(t: Tables, c: Candidate, from: Date, year: int)
    requires c in CandidatesBelow(t, t.nextRow, from) && NotAfter(Date(year + 1, 1, 1), from)
    ensures Later(t, c, year)
  {
    CandidatesExact(t, t.nextRow, from);
    NotAfterTransitive(Date(year + 1, 1, 1), from, t.raws[t.rows[c.id].raw].date);
  }

  lemma UntouchedTransitive(t: Tables, u: Tables, v: Tables, year: int)
    requires YearUntouched(t, u, year) && YearUntouched(u, v, year)
    ensures YearUntouched(t, v, year)
  {
  }

  lemma {:induction false} StepsLeaveYear(m: Machine, actions: seq<Action>, year: int)
    requires LaterOnly(m, year) && AllLeaveYear(m, actions, year)
    ensures YearUntouched(m.t, Execute(m, actions).t, year)
    decreases |actions|
  {
    if actions != [] {
      StepLeavesTables(m, actions[0], year);
      StepLaterOnly(m, actions[0], year);
      StepsLeaveYear(Next(m, actions[0]), actions[1..], year);
      UntouchedTransitive(m.t, Next(m, actions[0]).t, Execute(m, actions).t, year);
    }
  }

  // ---- The year's figures ----

  /** Ids that do not exist yet add nothing. */
  lemma {:induction false} LineActualBeyond(t: Tables, b: Book, line: int, n: nat)
    requires RowsNumbered(t) && line in b.lines && t.nextRow <= n
    ensures LineActual(t, b, line, n) == LineActual(t, b, line, t.nextRow)
  {
    if t.nextRow < n {
      LineActualBeyond(t, b, line, n - 1);
    }
  }

  lemma {:induction false} GroupTotalBeyond(t: Tables, b: Book, tree: Tree, year: int, g: Group, n: nat)
    requires RowsNumbered(t) && t.nextRow <= n
    ensures GroupTotal(t, b, tree, year, g, n) == GroupTotal(t, b, tree, year, g, t.nextRow)
  {
    if t.nextRow < n {
      GroupTotalBeyond(t, b, tree, year, g, n - 1);
    }
  }

  /** Runs, re-applies from later dates, however many overlap, rule edits, assignments elsewhere and
      arrivals, in any order: every line actual and unbudgeted total of the year stands. */
  lemma ClosedYearStays(m: Machine, actions: seq<Action>, b: Book, tree: Tree, year: int)
    requires LaterOnly(m, year) && AllLeaveYear(m, actions, year)
    ensures var t' := Execute(m, actions).t;
            && (forall line :: From(b, year, line) ==> LineActual(t', b, line, t'.nextRow) == LineActual(m.t, b, line, m.t.nextRow))
            && (forall g :: GroupTotal(t', b, tree, year, g, t'.nextRow) == GroupTotal(m.t, b, tree, year, g, m.t.nextRow))
            && (forall groups :: UnbudgetedGroups(t', b, tree, year, groups) <==> UnbudgetedGroups(m.t, b, tree, year, groups))
  {
    var t' := Execute(m, actions).t;
    StepsLeaveYear(m, actions, year);
    forall line | From(b, year, line) ensures LineActual(t', b, line, t'.nextRow) == LineActual(m.t, b, line, m.t.nextRow) {
      SameLineActual(m.t, t', b, line, t'.nextRow);
      LineActualBeyond(m.t, b, line, t'.nextRow);
    }
    forall g ensures GroupTotal(t', b, tree, year, g, t'.nextRow) == GroupTotal(m.t, b, tree, year, g, m.t.nextRow) {
      SameGroupTotal(m.t, t', b, tree, year, g, t'.nextRow);
      GroupTotalBeyond(m.t, b, tree, year, g, t'.nextRow);
    }
    assert forall id :: Unbudgeted(t', b, tree, year, id) == Unbudgeted(m.t, b, tree, year, id);
  }
}
