/** The processing job, rule re-apply and manual edits as the source performs them:
    statement by statement on mutable tables, rolled back when one fails. Each is
    proved to be the single ledger transaction of the same name. */
module Processing {
  import opened Options
  import opened Calendar
  import opened Categorization
  import opened Ledger

  /** A run over one transaction more. */
  lemma RunRowsStep(t: Tables, raws: seq<int>, i: nat, rules: seq<Rule>, accounts: set<string>, faults: map<int, Fault>)
    requires i < |raws| && forall raw :: raw in raws ==> raw in t.raws
    ensures raws[i] in t.raws && (forall raw :: raw in raws[..i] ==> raw in t.raws) && forall raw :: raw in raws[..i + 1] ==> raw in t.raws
    ensures var before := RunRows(t, raws[..i], rules, accounts, faults);
            var fault := FaultAt(faults, raws[i]);
            var ok := ProcessSucceeds(before.tables, raws[i], rules, accounts, fault);
            RunRows(t, raws[..i + 1], rules, accounts, faults)
            == Progress(ProcessRow(before.tables, raws[i], rules, accounts, fault),
                        before.done + (if ok then 1 else 0), before.failed + (if ok then 0 else 1))
  {
    var all := raws[..i + 1];
    assert all[..i] == raws[..i] && all[i] == raws[i] && raws[i] in raws;
    assert all[|all| - 1] == raws[i] && all[..|all| - 1] == raws[..i];
  }

  lemma AssignEffect(t: Tables, id: int, req: AssignRequest, thisYear: int, fault: Fault)
    ensures var (response, t') := (AssignResponse(t, id, req, thisYear, fault), AssignRow(t, id, req, thisYear, fault));
            && (response != Ok ==> t' == t)
            && (response == Ok ==>
                  && t'.rows == t.rows[id := t.rows[id].(
                       member := req.member, category := RequestedCategory(req),
                       matchedBy := if req.member.Some? then Some(ByHand) else None,
                       adminComment := if req.comment == Some("") then None else req.comment,
                       setManually := true)]
                  && t'.coverage == (if req.member.None? then DeleteCoverage(t.coverage, id)
                                     else InsertCovers(DeleteCoverage(t.coverage, id), id, AssignedMonths(t, id, req), req.member.value))
                  && t' == t.(rows := t'.rows, coverage := t'.coverage))
  {
  }

  class Database {
    var raws: map<int, RawTransaction>
    var nextRaw: nat
    var rows: map<int, Row>
    var nextRow: nat
    var coverage: map<CoverKey, int>
    var rules: map<int, Rule>
    var nextRule: nat
    var env: Env
    var members: set<int>
    var categories: set<CategoryId>

    function View(): Tables
      reads this
    {
      Tables(raws, nextRaw, rows, nextRow, coverage, rules, nextRule, env, members, categories)
    }

    constructor (t: Tables)
      ensures View() == t
    {
      raws, nextRaw, rows, nextRow, coverage := t.raws, t.nextRaw, t.rows, t.nextRow, t.coverage;
      rules, nextRule, env, members, categories := t.rules, t.nextRule, t.env, t.members, t.categories;
    }

    // ---- Statements ----

    /** INSERT ... RETURNING id; None when a unique or foreign key constraint rejects it. */
    method CreateProcessedTransaction(raw: int, direction: Direction, o: Outcome) returns (id: Option<int>)
      modifies this`rows, this`nextRow
      ensures id.None? <==> raw !in raws || HasRow(old(View()), raw) || !Storable(old(View()), o)
      ensures id.None? ==> View() == old(View())
      ensures id.Some? ==>
                && id.value == old(nextRow) && nextRow == old(nextRow) + 1
                && rows == old(rows)[old(nextRow) := Row(raw, o.member, o.category, direction, o.matchedBy, false, o.rule, None)]
    {
      if raw !in raws || HasRow(View(), raw) || !Storable(View(), o) {
        return None;
      }
      id := Some(nextRow);
      rows := rows[nextRow := Row(raw, o.member, o.category, direction, o.matchedBy, false, o.rule, None)];
      nextRow := nextRow + 1;
    }

    method CreatePaymentCoverage(row: int, month: YearMonth, member: int)
      modifies this`coverage
      ensures coverage == InsertCoverage(old(coverage), CoverKey(row, month), member)
    {
      if CoverKey(row, month) !in coverage {
        coverage := coverage[CoverKey(row, month) := member];
      }
    }

    method DeleteCoverageForTransaction(row: int)
      modifies this`coverage
      ensures coverage == DeleteCoverage(old(coverage), row)
    {
      coverage := map key | key in coverage && key.row != row :: coverage[key];
    }

    /** UPDATE guarded against manual rows: the affected-row count, or None on a foreign key violation. */
    method ReapplyCategorization(id: int, o: Outcome) returns (affected: Option<nat>)
      modifies this`rows
      ensures var t := old(View());
              && (affected == Some(0) <==> id !in t.rows || t.rows[id].ByHand())
              && (affected == None <==> id in t.rows && !t.rows[id].ByHand() && !Storable(t, o))
              && rows == if affected == Some(1) then t.rows[id := t.rows[id].Redecided(o)] else t.rows
      ensures affected in {None, Some(0), Some(1)}
    {
      if id !in rows || rows[id].ByHand() {
        return Some(0);
      }
      if !Storable(View(), o) {
        return None;
      }
      rows := rows[id := rows[id].(category := o.category, member := o.member, matchedBy := o.matchedBy, rule := o.rule)];
      affected := Some(1);
    }

    // ---- Queries ----

    method ListUnprocessedTransactions() returns (ids: seq<int>)
      ensures ids == UnprocessedBelow(View(), nextRaw)
    {
      ids := [];
      for id := 0 to nextRaw
        invariant ids == UnprocessedBelow(View(), id)
      {
        if id in raws && !HasRow(View(), id) {
          ids := ids + [id];
        }
      }
    }

    method ListReapplyCandidates(from: Date) returns (candidates: seq<Candidate>)
      ensures candidates == CandidatesBelow(View(), nextRow, from)
    {
      candidates := [];
      for id := 0 to nextRow
        invariant candidates == CandidatesBelow(View(), id, from)
      {
        if Listed(View(), id, from) {
          candidates := candidates + [CandidateOf(View(), id)];
        }
      }
    }

    method LoadRules() returns (enabled: seq<Rule>, ourAccounts: set<string>)
      ensures enabled == EnabledBelow(rules, nextRule) && ourAccounts == env.accounts
    {
      enabled := [];
      for id := 0 to nextRule
        invariant enabled == EnabledBelow(rules, id)
      {
        if id in rules && rules[id].enabled {
          enabled := InsertInOrder(enabled, rules[id]);
        }
      }
      ourAccounts := env.accounts;
    }

    // ---- The processing run ----

    /** Row and coverage in one transaction: a failure at any statement leaves neither. */
    method ProcessOne(raw: int, enabled: seq<Rule>, ourAccounts: set<string>, fault: Fault) returns (ok: bool)
      requires raw in raws
      modifies this`rows, this`nextRow, this`coverage
      ensures View() == ProcessRow(old(View()), raw, enabled, ourAccounts, fault)
      ensures ok == ProcessSucceeds(old(View()), raw, enabled, ourAccounts, fault)
    {
      var rt := raws[raw];
      var direction := DirectionOf(rt.amount);
      var verdict := Categorize(enabled, rt, direction, Env(env.identifiers, ourAccounts), fault);
      if verdict.LookupFailed? {
        return false;
      }
      if fault == WriteFault(Begin) || fault == WriteFault(RowWrite) {
        return false;
      }
      var savedRows, savedNext, savedCoverage := rows, nextRow, coverage;
      var id := CreateProcessedTransaction(raw, direction, verdict.outcome);
      if id.None? {
        return false;
      }
      if verdict.outcome.member.Some? {
        if fault == WriteFault(CoverageInsert) {
          rows, nextRow := savedRows, savedNext;
          return false;
        }
        CreatePaymentCoverage(id.value, DefaultCoveredMonth(rt.date), verdict.outcome.member.value);
      }
      if fault == WriteFault(Commit) {
        rows, nextRow, coverage := savedRows, savedNext, savedCoverage;
        return false;
      }
      ok := true;
    }

    /** Processes every unprocessed transaction, carrying on past rows that fail. */
    method Run(faults: map<int, Fault>) returns (processed: nat, failed: nat)
      modifies this`rows, this`nextRow, this`coverage
      ensures Progress(View(), processed, failed) == RunAll(old(View()), faults)
    {
      hide ProcessRow, ProcessSucceeds;
      var ids := ListUnprocessedTransactions();
      var enabled, ourAccounts := LoadRules();
      UnprocessedExact(View(), nextRaw);
      processed, failed := 0, 0;
      ghost var start := View();
      for i := 0 to |ids|
        invariant raws == start.raws && forall raw :: raw in ids[..i] ==> raw in start.raws
        invariant Progress(View(), processed, failed) == RunRows(start, ids[..i], enabled, ourAccounts, faults)
      {
        RunRowsStep(start, ids, i, enabled, ourAccounts, faults);
        var ok := ProcessOne(ids[i], enabled, ourAccounts, FaultAt(faults, ids[i]));
        if ok {
          processed := processed + 1;
        } else {
          failed := failed + 1;
        }
      }
      assert ids[..|ids|] == ids;
    }

    // ---- Re-apply ----

    /** Returns what the caller is told: a failing commit is rolled back, yet reported as changed
        together with the error. */
    method WriteOutcome(c: Candidate, o: Outcome, fault: Fault) returns (changed: bool, error: bool)
      modifies this`rows, this`coverage
      ensures var effect := WriteEffect(old(View()), c, o, fault);
              && changed == effect.CountsChanged() && error == effect.CountsFailed()
              && View() == if effect == Changed then Rewrite(old(View()), c, o) else old(View())
    {
      var memberChanged := o.member != c.listed.member;
      if o.category == c.listed.category && !memberChanged && o.matchedBy == c.listed.matchedBy && o.rule == c.listed.rule {
        return false, false;
      }
      if fault == WriteFault(Begin) || fault == WriteFault(RowWrite) {
        return false, true;
      }
      var savedRows, savedCoverage := rows, coverage;
      var affected := ReapplyCategorization(c.id, o);
      if affected.None? {
        return false, true;
      }
      if affected.value == 0 {
        // Edited by hand since it was listed.
        return false, false;
      }
      if memberChanged {
        if fault == WriteFault(CoverageDelete) {
          rows := savedRows;
          return false, true;
        }
        DeleteCoverageForTransaction(c.id);
        if o.member.Some? {
          if fault == WriteFault(CoverageInsert) {
            rows, coverage := savedRows, savedCoverage;
            return false, true;
          }
          CreatePaymentCoverage(c.id, DefaultCoveredMonth(c.rt.date), o.member.value);
        }
      }
      if fault == WriteFault(Commit) {
        rows, coverage := savedRows, savedCoverage;
        return true, true;
      }
      changed, error := true, false;
    }

    /** Positions in evaluation order, by rule id. */
    method BuildOrder(enabled: seq<Rule>) returns (order: map<int, nat>)
      ensures forall id :: OrderOf(enabled, id) == if id in order then Some(order[id]) else None
    {
      order := map[];
      for i := 0 to |enabled|
        invariant forall id :: OrderOf(enabled[..i], id) == if id in order then Some(order[id]) else None
      {
        assert enabled[..i + 1][..i] == enabled[..i] && enabled[..i + 1][i] == enabled[i];
        order := order[enabled[i].id := i];
      }
      assert enabled[..|enabled|] == enabled;
    }

    /** Handles one candidate: skipped when an earlier rule decided it, rewritten when the target matches. */
    method ReapplyOne(job: Job, order: map<int, nat>, c: Candidate, fault: Fault) returns (changed: bool, error: bool)
      requires forall id :: OrderOf(job.rules, id) == if id in order then Some(order[id]) else None
      modifies this`rows, this`coverage
      ensures var effect := ReapplyEffect(old(View()), job, c, fault);
              changed == effect.CountsChanged() && error == effect.CountsFailed()
      ensures View() == ReapplyRow(old(View()), job, c, fault)
    {
      hide WriteEffect, Rewrite, Walk;
      var targetOrder := if job.target.id in order then order[job.target.id] else 0;
      if c.listed.rule.Some? && c.listed.rule.value in order && order[c.listed.rule.value] < targetOrder {
        return false, false;
      }
      match ApplyRule(job.target, c.rt, c.direction, Env(env.identifiers, job.accounts), fault) {
        case NoMatch => changed, error := false, false;
        case LookupFailed => changed, error := false, true;
        case Matched(o) => changed, error := WriteOutcome(c, o, fault);
      }
    }

    method ReapplyRule(ruleId: int, from: Date, faults: map<int, Fault>) returns (result: ReapplyResult)
      modifies this`rows, this`coverage
      ensures result == ReapplyAll(old(View()), ruleId, from, faults)
      ensures View() == if result.Reapplied? then result.progress.tables else old(View())
    {
      hide ReapplyRow, ReapplyEffect;
      if ruleId !in rules {
        return RuleNotFound;
      }
      var target := rules[ruleId];
      if !target.enabled {
        return RuleDisabled;
      }
      var enabled, ourAccounts := LoadRules();
      var order := BuildOrder(enabled);
      var job := Job(target, enabled, ourAccounts);
      var candidates := ListReapplyCandidates(from);
      var changed, failed := 0, 0;
      ghost var start := View();
      for i := 0 to |candidates|
        invariant Progress(View(), changed, failed) == ReapplyRows(start, job, candidates[..i], faults)
      {
        assert candidates[..i + 1][..i] == candidates[..i] && candidates[..i + 1][i] == candidates[i];
        var isChanged, isFailed := ReapplyOne(job, order, candidates[i], FaultAt(faults, candidates[i].id));
        if isChanged {
          changed := changed + 1;
        }
        if isFailed {
          failed := failed + 1;
        }
      }
      assert candidates[..|candidates|] == candidates;
      result := Reapplied(Progress(View(), changed, failed));
    }

    // ---- Manual edits ----

    method CoverMonths(id: int, months: seq<YearMonth>, member: int)
      modifies this`coverage
      ensures coverage == InsertCovers(old(coverage), id, months, member)
    {
      for i := 0 to |months|
        invariant coverage == InsertCovers(old(coverage), id, months[..i], member)
      {
        assert months[..i + 1][..i] == months[..i] && months[..i + 1][i] == months[i];
        CreatePaymentCoverage(id, months[i], member);
      }
      assert months[..|months|] == months;
    }

    /** Replaces member, category and coverage of one row, in one transaction. */
    method AssignTransaction(id: int, req: AssignRequest, thisYear: int, fault: Fault) returns (response: Response)
      modifies this`rows, this`coverage
      ensures response == AssignResponse(old(View()), id, req, thisYear, fault)
      ensures View() == AssignRow(old(View()), id, req, thisYear, fault)
    {
      hide AssignRow, DeleteCoverage, InsertCovers, DefaultCoveredMonth;
      AssignEffect(View(), id, req, thisYear, fault);
      if req.member.Some? && req.member.value < 1 {
        return BadRequest;
      }
      var category := if req.category.Some? then req.category.value else MEMBERSHIP_FEE;
      if |req.covers| > 0 && (category != MEMBERSHIP_FEE || req.member.None?) {
        return BadRequest;
      }
      for i := 0 to |req.covers|
        invariant forall k :: 0 <= k < i ==> ValidCover(req.covers[k], thisYear)
      {
        if !ValidCover(req.covers[i], thisYear) {
          return BadRequest;
        }
      }
      if (req.member.Some? && req.member.value !in members) || category !in categories {
        return BadRequest;
      }
      if id !in rows || rows[id].raw !in raws {
        return NotFound;
      }
      var months := [];
      if category == MEMBERSHIP_FEE && req.member.Some? {
        months := if |req.covers| > 0 then req.covers else [DefaultCoveredMonth(raws[rows[id].raw].date)];
      }
      if fault == WriteFault(Begin) || fault == WriteFault(RowWrite) {
        return ServerError;
      }
      var savedRows, savedCoverage := rows, coverage;
      rows := rows[id := rows[id].(
        member := req.member, category := category,
        matchedBy := if req.member.Some? then Some(ByHand) else None,
        adminComment := if req.comment == Some("") then None else req.comment,
        setManually := true)];
      if fault == WriteFault(CoverageDelete) {
        rows := savedRows;
        return ServerError;
      }
      DeleteCoverageForTransaction(id);
      if req.member.Some? {
        CoverMonths(id, months, req.member.value);
      }
      if fault == WriteFault(Commit) || (fault == WriteFault(CoverageInsert) && |months| > 0) {
        rows, coverage := savedRows, savedCoverage;
        return ServerError;
      }
      response := Ok;
    }

    /** Clears the match and puts the row back under automatic categorisation. */
    method UnassignTransaction(id: int, fault: Fault) returns (response: Response)
      modifies this`rows, this`coverage
      ensures response == UnassignResponse(old(View()), id, fault)
      ensures View() == UnassignRow(old(View()), id, fault)
    {
      if id !in rows || rows[id].raw !in raws {
        return NotFound;
      }
      if fault == WriteFault(Begin) || fault == WriteFault(CoverageDelete) {
        return ServerError;
      }
      var savedRows, savedCoverage := rows, coverage;
      DeleteCoverageForTransaction(id);
      if fault == WriteFault(RowWrite) {
        coverage := savedCoverage;
        return ServerError;
      }
      rows := rows[id := rows[id].(
        member := None, matchedBy := None, setManually := false,
        category := FallbackCategory(rows[id].direction))];
      if fault == WriteFault(Commit) {
        rows, coverage := savedRows, savedCoverage;
        return ServerError;
      }
      response := Ok;
    }
  }
}
