/** Which ledger writes credit a month to a member, and which take it away again. */
module LedgerCredit {
  import opened Options
  import opened Calendar
  import opened Categorization
  import opened Ledger
  import opened LedgerInvariant
  import opened LedgerMachine

  ghost predicate Credits(t: Tables, key: CoverKey, member: int) {
    key in t.coverage && t.coverage[key] == member
  }

  /** The action goes through and writes a coverage row: a run or a re-apply that found the
      member, or an assignment of the month. */
  ghost predicate CreditedBy(m: Machine, a: Action, key: CoverKey, member: int) {
    match a
    case RunWrite(run, fault) =>
      && RunAt(m, run, true)
      && var (raw, o) := (m.runs[run].pending[0], m.runs[run].decided.value);
         && NewGoesThrough(m.t, raw, o, fault) && o.member == Some(member)
         && key == CoverKey(m.t.nextRow, DefaultCoveredMonth(m.t.raws[raw].date))
    case ReapplyWrite(i, fault) =>
      && MemberRewritten(m, i, fault)
      && var (c, o) := (m.reapplies[i].pending[0], m.reapplies[i].decided.value);
         o.member == Some(member) && key == CoverKey(c.id, DefaultCoveredMonth(c.rt.date))
    case Assign(id, request, thisYear, fault) =>
      && AssignResponse(m.t, id, request, thisYear, fault) == Ok && request.member == Some(member)
      && key.row == id && key.month in AssignedMonths(m.t, id, request)
    case _ => false
  }

  ghost predicate MemberRewritten(m: Machine, i: nat, fault: Fault) {
    && ReapplyAt(m, i, true)
    && var (c, o) := (m.reapplies[i].pending[0], m.reapplies[i].decided.value);
       WriteEffect(m.t, c, o, fault) == Changed && o.member != c.listed.member
  }

  /** The action goes through and deletes the row's coverage. */
  ghost predicate ClearedBy(m: Machine, a: Action, row: int) {
    match a
    case ReapplyWrite(i, fault) => MemberRewritten(m, i, fault) && m.reapplies[i].pending[0].id == row
    case Assign(id, request, thisYear, fault) => AssignResponse(m.t, id, request, thisYear, fault) == Ok && id == row
    case Unassign(id, fault) => UnassignResponse(m.t, id, fault) == Ok && id == row
    case _ => false
  }

  ghost predicate CoverageRowed(t: Tables) {
    RowsNumbered(t) && CoverageHasRows(t)
  }

  lemma NewCredits(t: Tables, raw: int, o: Outcome, fault: Fault, key: CoverKey, member: int)
    requires CoverageRowed(t) && raw in t.raws
    ensures CoverageRowed(WriteNew(t, raw, o, fault))
    ensures Credits(WriteNew(t, raw, o, fault), key, member) <==>
              || Credits(t, key, member)
              || (NewGoesThrough(t, raw, o, fault) && o.member == Some(member)
                  && key == CoverKey(t.nextRow, DefaultCoveredMonth(t.raws[raw].date)))
  {
  }

  lemma ChangeCredits(t: Tables, c: Candidate, o: Outcome, fault: Fault, key: CoverKey, member: int)
    requires CoverageRowed(t)
    ensures CoverageRowed(WriteChange(t, c, o, fault))
    ensures var rewritten := WriteEffect(t, c, o, fault) == Changed && o.member != c.listed.member;
            Credits(WriteChange(t, c, o, fault), key, member) <==>
              || (Credits(t, key, member) && !(rewritten && c.id == key.row))
              || (rewritten && o.member == Some(member) && key == CoverKey(c.id, DefaultCoveredMonth(c.rt.date)))
  {
  }

  lemma AssignCredits(t: Tables, id: int, req: AssignRequest, thisYear: int, fault: Fault, key: CoverKey, member: int)
    requires CoverageRowed(t)
    ensures CoverageRowed(AssignRow(t, id, req, thisYear, fault))
    ensures var ok := AssignResponse(t, id, req, thisYear, fault) == Ok;
            Credits(AssignRow(t, id, req, thisYear, fault), key, member) <==>
              || (Credits(t, key, member) && !(ok && id == key.row))
              || (ok && req.member == Some(member) && key.row == id && key.month in AssignedMonths(t, id, req))
  {
    if AssignResponse(t, id, req, thisYear, fault) == Ok && req.member.Some? {
      CoversExact(DeleteCoverage(t.coverage, id), id, AssignedMonths(t, id, req), req.member.value);
    }
  }

  lemma UnassignCredits(t: Tables, id: int, fault: Fault, key: CoverKey, member: int)
    requires CoverageRowed(t)
    ensures CoverageRowed(UnassignRow(t, id, fault))
    ensures Credits(UnassignRow(t, id, fault), key, member) <==>
              Credits(t, key, member) && !(UnassignResponse(t, id, fault) == Ok && id == key.row)
  {
  }

  lemma DeleteCredits(t: Tables, rule: int)
    requires CoverageRowed(t)
    ensures CoverageRowed(DeleteRule(t, rule)) && DeleteRule(t, rule).coverage == t.coverage
  {
  }

  /** A month is credited after an action exactly when the action credits it, or it was credited
      and the action does not clear the row. */
  lemma CreditStep(m: Machine, a: Action, key: CoverKey, member: int)
    requires CoverageRowed(m.t)
    ensures CoverageRowed(Next(m, a).t)
    ensures Credits(Next(m, a).t, key, member) <==>
              CreditedBy(m, a, key, member) || (Credits(m.t, key, member) && !ClearedBy(m, a, key.row))
  {
    match a
    case RunWrite(run, fault) =>
      if RunAt(m, run, true) {
        NewCredits(m.t, m.runs[run].pending[0], m.runs[run].decided.value, fault, key, member);
      }
    case ReapplyWrite(i, fault) =>
      if ReapplyAt(m, i, true) {
        ChangeCredits(m.t, m.reapplies[i].pending[0], m.reapplies[i].decided.value, fault, key, member);
      }
    case Assign(id, request, thisYear, fault) => AssignCredits(m.t, id, request, thisYear, fault, key, member);
    case Unassign(id, fault) => UnassignCredits(m.t, id, fault, key, member);
    case RemoveRule(rule) => DeleteCredits(m.t, rule);
    case _ =>
  }
}
