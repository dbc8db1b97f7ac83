/** What every ledger transaction keeps true of the tables, and exactly when a
    re-apply that writes from a stale snapshot keeps it. */
module LedgerInvariant {
  import opened Options
  import opened Calendar
  import opened Categorization
  import opened Ledger

  /** The member rule is unique, undeletable and always means membership_fee. */
  ghost predicate RulesOk(t: Tables) {
    && KeyedById(t.rules)
    && (forall id :: id in t.rules ==> 0 <= id < t.nextRule)
    && (forall id :: id in t.rules && t.rules[id].kind == MemberVariableSymbol ==> t.rules[id].category == MEMBERSHIP_FEE)
    && (forall a, b :: && a in t.rules && t.rules[a].kind == MemberVariableSymbol
                       && b in t.rules && t.rules[b].kind == MemberVariableSymbol
                       ==> a == b)
  }

  /** Each row belongs to one stored raw transaction, and no two rows to the same one. */
  ghost predicate RowsOk(t: Tables) {
    && (forall raw :: raw in t.raws ==> 0 <= raw < t.nextRaw)
    && (forall id :: id in t.rows ==> 0 <= id < t.nextRow && t.rows[id].raw in t.raws)
    && (forall id :: id in t.rows ==> t.rows[id].direction == DirectionOf(t.raws[t.rows[id].raw].amount))
    && (forall a, b :: a in t.rows && b in t.rows && t.rows[a].raw == t.rows[b].raw ==> a == b)
  }

  /** Coverage never outlives its row and always credits the row's own member. */
  ghost predicate CoverageOk(t: Tables) {
    forall key :: key in t.coverage ==> key.row in t.rows && t.rows[key.row].member == Some(t.coverage[key])
  }

  /** The outcomes rules can produce. */
  ghost predicate OutcomeOk(t: Tables, o: Outcome) {
    if o.member.Some? then
      && o.category == MEMBERSHIP_FEE && o.matchedBy == Some(ByVariableSymbol)
      && o.rule.Some? && o.rule.value in t.rules && t.rules[o.rule.value].kind == MemberVariableSymbol
    else
      o.matchedBy.None?
  }

  /** A row not set by hand carries a rule outcome, and exactly its default coverage row if it has a member. */
  ghost predicate AutomaticOk(t: Tables, id: int)
    requires id in t.rows && t.rows[id].raw in t.raws
  {
    var row := t.rows[id];
    && (row.matchedBy == Some(ByHand) ==> row.setManually)
    && (!row.setManually ==>
          && OutcomeOk(t, row.Decided())
          && forall month :: CoverKey(id, month) in t.coverage <==>
                               row.member.Some? && month == DefaultCoveredMonth(t.raws[row.raw].date))
  }

  ghost predicate RowsNumbered(t: Tables) {
    forall id :: id in t.rows ==> 0 <= id < t.nextRow
  }

  ghost predicate SameCoverage(t: Tables, t': Tables, id: int) {
    forall month :: && (CoverKey(id, month) in t'.coverage <==> CoverKey(id, month) in t.coverage)
                    && (CoverKey(id, month) in t.coverage ==> t'.coverage[CoverKey(id, month)] == t.coverage[CoverKey(id, month)])
  }

  ghost predicate LedgerOk(t: Tables) {
    && RulesOk(t) && RowsOk(t) && CoverageOk(t)
    && forall id :: id in t.rows ==> AutomaticOk(t, id)
  }

  /** A snapshot of rules, possibly outdated: ids are never reused and kinds never change. */
  ghost predicate SnapshotOk(t: Tables, rules: seq<Rule>) {
    forall r :: r in rules ==> RuleSnapshotOk(t, r)
  }

  ghost predicate RuleSnapshotOk(t: Tables, r: Rule) {
    && 0 <= r.id < t.nextRule
    && (r.id in t.rules ==> t.rules[r.id].kind == r.kind)
    && (r.kind == MemberVariableSymbol ==> r.category == MEMBERSHIP_FEE && r.id in t.rules)
  }

  lemma SnapshotIsOk(t: Tables)
    requires RulesOk(t)
    ensures SnapshotOk(t, EnabledBelow(t.rules, t.nextRule))
  {
    EnabledInOrder(t.rules, t.nextRule);
  }

  lemma {:induction false} WalkOutcomeOk(t: Tables, rules: seq<Rule>, rt: RawTransaction, d: Direction, env: Env, fault: Fault)
    requires SnapshotOk(t, rules)
    ensures var v := Walk(rules, rt, d, env, fault); v.Matched? ==> OutcomeOk(t, v.outcome)
  {
    if rules != [] {
      assert rules[0] in rules && forall r :: r in rules[1..] ==> r in rules;
      WalkOutcomeOk(t, rules[1..], rt, d, env, fault);
    }
  }

  // ---- Each transaction keeps the ledger ----

  lemma StoreKeepsTables(t: Tables, raw: int, o: Outcome)
    requires RowsOk(t) && CoverageOk(t) && raw in t.raws && !HasRow(t, raw)
    ensures RowsOk(Store(t, raw, o)) && CoverageOk(Store(t, raw, o))
  {
    assert forall key :: key in t.coverage ==> key.row != t.nextRow;
  }

  lemma StoreKeepsAutomatic(t: Tables, raw: int, o: Outcome, id: int)
    requires RowsOk(t) && CoverageOk(t) && raw in t.raws && OutcomeOk(t, o)
    requires id in t.rows ==> AutomaticOk(t, id)
    requires id in t.rows || id == t.nextRow
    ensures AutomaticOk(Store(t, raw, o), id)
  {
    assert forall key :: key in t.coverage ==> key.row != t.nextRow;
  }

  lemma WriteNewKeeps(t: Tables, raw: int, o: Outcome, fault: Fault)
    requires LedgerOk(t) && raw in t.raws && OutcomeOk(t, o)
    ensures LedgerOk(WriteNew(t, raw, o, fault))
  {
    if !HasRow(t, raw) {
      StoreKeeps(t, raw, o);
    }
  }

  lemma ProcessRowKeeps(t: Tables, raw: int, rules: seq<Rule>, accounts: set<string>, fault: Fault)
    requires LedgerOk(t) && SnapshotOk(t, rules) && raw in t.raws
    ensures LedgerOk(ProcessRow(t, raw, rules, accounts, fault))
  {
    WalkOutcomeOk(t, rules, t.raws[raw], DirectionOf(t.raws[raw].amount), Env(t.env.identifiers, accounts), fault);
    ProcessIsDecideThenWrite(t, raw, rules, accounts, fault);
    if VerdictFor(t, raw, rules, accounts, fault).Matched? {
      WriteNewKeeps(t, raw, VerdictFor(t, raw, rules, accounts, fault).outcome, fault);
    }
  }

  lemma StoreKeeps(t: Tables, raw: int, o: Outcome)
    requires LedgerOk(t) && raw in t.raws && !HasRow(t, raw) && OutcomeOk(t, o)
    ensures LedgerOk(Store(t, raw, o))
  {
    var t' := Store(t, raw, o);
    StoreKeepsTables(t, raw, o);
    forall id | id in t'.rows ensures AutomaticOk(t', id) {
      StoreKeepsAutomatic(t, raw, o, id);
    }
  }

  lemma {:induction false} CoversExact(coverage: map<CoverKey, int>, row: int, months: seq<YearMonth>, member: int)
    requires forall key :: key in coverage && key.row == row ==> coverage[key] == member
    ensures var c := InsertCovers(coverage, row, months, member);
            && (forall key :: key in c <==> key in coverage || (key.row == row && key.month in months))
            && (forall key :: key in c ==> c[key] == if key in coverage then coverage[key] else member)
  {
    if months != [] {
      var front := months[..|months| - 1];
      CoversExact(coverage, row, front, member);
      assert forall m :: m in months <==> m in front || m == months[|months| - 1];
    }
  }

  lemma AssignKeepsTables(t: Tables, id: int, req: AssignRequest, thisYear: int, fault: Fault)
    requires RowsOk(t) && CoverageOk(t) && AssignResponse(t, id, req, thisYear, fault) == Ok
    ensures var t' := AssignRow(t, id, req, thisYear, fault); RowsOk(t') && CoverageOk(t') && OnlyRowChanges(t, t', id)
  {
    if req.member.Some? {
      CoversExact(DeleteCoverage(t.coverage, id), id, AssignedMonths(t, id, req), req.member.value);
    }
  }

  /** The months an accepted request covers: those it names, or the one month an automatic match of
      the same transaction covers; a request for another category or without a member covers none. */
  ghost predicate CoversMonth(t: Tables, id: int, req: AssignRequest, month: YearMonth)
    requires id in t.rows && t.rows[id].raw in t.raws
  {
    && req.member.Some? && req.category in {None, Some(MEMBERSHIP_FEE)}
    && if req.covers == [] then month == DefaultCoveredMonth(t.raws[t.rows[id].raw].date) else month in req.covers
  }

  /** What an accepted assignment stores. */
  lemma AssignStores(t: Tables, id: int, req: AssignRequest, thisYear: int, fault: Fault)
    ensures AssignResponse(t, id, req, thisYear, fault) != Ok ==> AssignRow(t, id, req, thisYear, fault) == t
    ensures AssignResponse(t, id, req, thisYear, fault) == Ok ==>
              var (t', row) := (AssignRow(t, id, req, thisYear, fault), t.rows[id]);
              && t'.rows == t.rows[id := Row(
                   row.raw, req.member, if req.category == None then MEMBERSHIP_FEE else req.category.value, row.direction,
                   if req.member == None then None else Some(ByHand), true, row.rule, if req.comment == Some("") then None else req.comment)]
              && (forall month :: CoverKey(id, month) in t'.coverage <==> CoversMonth(t, id, req, month))
              && (forall key :: key in t'.coverage && key.row == id ==> Some(t'.coverage[key]) == req.member)
              && (forall other :: other != id ==> SameCoverage(t, t', other))
  {
    if AssignResponse(t, id, req, thisYear, fault) == Ok && req.member.Some? {
      CoversExact(DeleteCoverage(t.coverage, id), id, AssignedMonths(t, id, req), req.member.value);
    }
  }

  lemma AssignRowKeeps(t: Tables, id: int, req: AssignRequest, thisYear: int, fault: Fault)
    requires LedgerOk(t)
    ensures LedgerOk(AssignRow(t, id, req, thisYear, fault))
  {
    if AssignResponse(t, id, req, thisYear, fault) == Ok {
      AssignKeepsTables(t, id, req, thisYear, fault);
      AutomaticBeside(t, AssignRow(t, id, req, thisYear, fault), id);
    }
  }

  /** When an assignment is accepted, and which answer it gets otherwise. */
  lemma AssignAnswers(t: Tables, id: int, req: AssignRequest, thisYear: int, fault: Fault)
    ensures var valid :=
              && (req.member == None || (req.member.value >= 1 && req.member.value in t.members))
              && (req.category.Some? ==> req.category.value in t.categories) && (req.category == None ==> MEMBERSHIP_FEE in t.categories)
              && (req.covers != [] ==> req.member.Some? && req.category in {None, Some(MEMBERSHIP_FEE)})
              && (forall ym :: ym in req.covers ==> 1 <= ym.month <= 12 && 2000 <= ym.year <= thisYear + 1);
            var known := id in t.rows && t.rows[id].raw in t.raws;
            var breaks := && fault.WriteFault?
                          && (fault.at != CoverageInsert || (known && exists month :: CoversMonth(t, id, req, month)));
            AssignResponse(t, id, req, thisYear, fault)
            == if !valid then BadRequest else if !known then NotFound else if breaks then ServerError else Ok
  {
    if exists i :: 0 <= i < |req.covers| && !ValidCover(req.covers[i], thisYear) {
      var i :| 0 <= i < |req.covers| && !ValidCover(req.covers[i], thisYear);
      assert req.covers[i] in req.covers;
    }
    if id in t.rows && t.rows[id].raw in t.raws {
      var months := AssignedMonths(t, id, req);
      assert months != [] ==> months[0] in months;
      assert forall month :: month in months <==> CoversMonth(t, id, req, month);
    }
  }

  /** All three writes that choose a month by default choose the same for the same transaction:
      storing a match, rewriting a row's member, and assigning a member without naming months. */
  lemma DefaultMonthAgrees(t: Tables, raw: int, o: Outcome, c: Candidate, id: int, req: AssignRequest, thisYear: int, month: YearMonth)
    requires RowsOk(t) && CoverageOk(t) && raw in t.raws && o.member.Some?
    requires c.id in t.rows && c.rt == t.raws[raw] && o.member != c.listed.member
    requires AssignResponse(t, id, req, thisYear, NoFault) == Ok && t.raws[t.rows[id].raw] == t.raws[raw]
    requires req.member.Some? && req.category == None && req.covers == []
    ensures var covers := CoverKey(t.nextRow, month) in Store(t, raw, o).coverage;
            && (CoverKey(c.id, month) in Rewrite(t, c, o).coverage <==> covers)
            && (CoverKey(id, month) in AssignRow(t, id, req, thisYear, NoFault).coverage <==> covers)
  {
    CoversExact(DeleteCoverage(t.coverage, id), id, AssignedMonths(t, id, req), req.member.value);
  }

  /** Rules, transactions, and every row and its coverage but for row `id` are as before. */
  ghost predicate OnlyRowChanges(t: Tables, t': Tables, id: int) {
    && t'.raws == t.raws && t'.rules == t.rules && t'.rows.Keys == t.rows.Keys
    && (forall other :: other in t.rows && other != id ==> t'.rows[other] == t.rows[other])
    && (forall key: CoverKey :: key.row != id ==> (key in t'.coverage <==> key in t.coverage))
  }

  lemma AutomaticBeside(t: Tables, t': Tables, id: int)
    requires OnlyRowChanges(t, t', id) && RowsOk(t)
    requires forall other :: other in t.rows ==> AutomaticOk(t, other)
    ensures forall other :: other in t'.rows && other != id ==> t'.rows[other].raw in t'.raws && AutomaticOk(t', other)
  {
    forall other | other in t'.rows && other != id ensures AutomaticOk(t', other) {
      assert AutomaticOk(t, other);
    }
  }

  lemma UnassignKeepsTables(t: Tables, id: int, fault: Fault)
    requires RowsOk(t) && CoverageOk(t) && UnassignResponse(t, id, fault) == Ok
    ensures var t' := UnassignRow(t, id, fault); RowsOk(t') && CoverageOk(t') && OnlyRowChanges(t, t', id)
  {
  }

  /** The row is automatic again, in its fallback category, without member and coverage. */
  lemma UnassignRowKeeps(t: Tables, id: int, fault: Fault)
    requires LedgerOk(t)
    ensures LedgerOk(UnassignRow(t, id, fault))
    ensures UnassignResponse(t, id, fault) == Ok ==>
              var t' := UnassignRow(t, id, fault);
              && t'.rows == t.rows[id := t.rows[id].(
                   member := None, matchedBy := None, setManually := false,
                   category := if t.raws[t.rows[id].raw].amount < 0 then OTHER_EXPENSE else OTHER_INCOME)]
              && (forall key :: key in t'.coverage <==> key in t.coverage && key.row != id)
  {
    if UnassignResponse(t, id, fault) == Ok {
      UnassignKeepsTables(t, id, fault);
      AutomaticBeside(t, UnassignRow(t, id, fault), id);
    }
  }

  lemma DeleteRuleKeeps(t: Tables, id: int)
    requires LedgerOk(t)
    ensures LedgerOk(DeleteRule(t, id))
  {
    var t' := DeleteRule(t, id);
    forall other | other in t'.rows ensures AutomaticOk(t', other) {
      assert AutomaticOk(t, other);
    }
  }

  lemma UpdateRuleKeeps(t: Tables, id: int, req: RuleRequest)
    requires LedgerOk(t)
    ensures LedgerOk(UpdateRule(t, id, req))
  {
    var t' := UpdateRule(t, id, req);
    forall other | other in t'.rows ensures AutomaticOk(t', other) {
      assert AutomaticOk(t, other);
    }
  }

  lemma CreateRuleKeeps(t: Tables, req: RuleRequest)
    requires LedgerOk(t)
    ensures LedgerOk(CreateRule(t, req))
  {
    var t' := CreateRule(t, req);
    forall other | other in t'.rows ensures AutomaticOk(t', other) {
      assert AutomaticOk(t, other);
    }
  }

  lemma AddRawKeeps(t: Tables, rt: RawTransaction)
    requires LedgerOk(t)
    ensures LedgerOk(AddRaw(t, rt))
  {
    var t' := AddRaw(t, rt);
    forall other | other in t'.rows ensures AutomaticOk(t', other) {
      assert AutomaticOk(t, other);
    }
  }

  /** The Orca sync, bank account and category administration. */
  lemma AdministrationKeeps(t: Tables, env: Env, members: set<int>, categories: set<CategoryId>)
    requires LedgerOk(t)
    ensures LedgerOk(t.(env := env, members := members, categories := categories))
  {
    var t' := t.(env := env, members := members, categories := categories);
    forall id | id in t'.rows ensures AutomaticOk(t', id) {
      assert AutomaticOk(t, id);
    }
  }

  // ---- The stale write ----

  /** Apart from the rewritten row nothing can go wrong. */
  lemma RewriteBeside(t: Tables, c: Candidate, o: Outcome)
    requires LedgerOk(t) && c.id in t.rows
    ensures var t' := Rewrite(t, c, o);
            && RulesOk(t') && RowsOk(t')
            && (forall other :: other in t'.rows && other != c.id ==> AutomaticOk(t', other))
  {
    var t' := Rewrite(t, c, o);
    assert OnlyRowChanges(t, t', c.id);
    AutomaticBeside(t, t', c.id);
  }

  /** The rewritten row itself. */
  lemma RewriteAtRow(t: Tables, c: Candidate, o: Outcome)
    requires RowsOk(t) && CoverageOk(t) && c.id in t.rows && AutomaticOk(t, c.id) && !t.rows[c.id].ByHand()
    requires OutcomeOk(t, o) && c.rt == t.raws[t.rows[c.id].raw]
    requires o.member != c.listed.member || o.member == t.rows[c.id].member
    ensures CoverageOk(Rewrite(t, c, o)) && AutomaticOk(Rewrite(t, c, o), c.id)
  {
  }

  lemma RewriteLeavesWrongCoverage(t: Tables, c: Candidate, o: Outcome)
    requires CoverageOk(t) && c.id in t.rows && t.rows[c.id].raw in t.raws && AutomaticOk(t, c.id) && !t.rows[c.id].ByHand()
    requires c.rt == t.raws[t.rows[c.id].raw]
    requires o.member == c.listed.member && o.member != t.rows[c.id].member
    ensures !(CoverageOk(Rewrite(t, c, o)) && AutomaticOk(Rewrite(t, c, o), c.id))
  {
    var t', key := Rewrite(t, c, o), CoverKey(c.id, DefaultCoveredMonth(c.rt.date));
    assert t'.coverage == t.coverage;
    assert key in t'.coverage <==> t.rows[c.id].member.Some?;
  }

  /** writeOutcome compares members with the listed snapshot, not with the row it
      rewrites. A write that happens keeps the ledger exactly when the snapshot saw
      the member change, or the row already has the new member. */
  lemma StaleWriteExact(t: Tables, c: Candidate, o: Outcome, fault: Fault)
    requires LedgerOk(t) && OutcomeOk(t, o)
    requires WriteEffect(t, c, o, fault) == Changed
    requires c.rt == t.raws[t.rows[c.id].raw]
    ensures LedgerOk(Rewrite(t, c, o)) <==> o.member != c.listed.member || o.member == t.rows[c.id].member
  {
    RewriteBeside(t, c, o);
    assert AutomaticOk(t, c.id);
    if o.member != c.listed.member || o.member == t.rows[c.id].member {
      RewriteAtRow(t, c, o);
    } else {
      RewriteLeavesWrongCoverage(t, c, o);
    }
  }

  /** What stays true of a listed candidate until its turn, when nobody else re-applies:
      its row either kept the listed member, lost it to an unassign, or is set by hand. */
  ghost predicate CandidateOk(t: Tables, c: Candidate) {
    && c.id in t.rows && t.rows[c.id].raw in t.raws && c.rt == t.raws[t.rows[c.id].raw]
    && OutcomeOk(t, c.listed)
    && (!t.rows[c.id].setManually ==> t.rows[c.id].member.None? || t.rows[c.id].member == c.listed.member)
  }

  ghost predicate JobOk(t: Tables, job: Job, cs: seq<Candidate>) {
    && RuleSnapshotOk(t, job.target)
    && (forall c :: c in cs ==> CandidateOk(t, c))
    && (forall i, j :: 0 <= i < j < |cs| ==> cs[i].id != cs[j].id)
  }

  /** Only the one member rule finds members, so the member fixes the outcome. */
  lemma SameMemberSameOutcome(t: Tables, a: Outcome, b: Outcome)
    requires RulesOk(t) && OutcomeOk(t, a) && OutcomeOk(t, b) && a.member.Some? && a.member == b.member
    ensures a == b
  {
    assert a.rule.value == b.rule.value;
  }

  /** The argument behind the stale comparison: if the decided member equals the listed one,
      both outcomes are the one member rule's, so there is nothing to write. */
  lemma WriteChangeKeeps(t: Tables, c: Candidate, o: Outcome, fault: Fault)
    requires LedgerOk(t) && CandidateOk(t, c) && OutcomeOk(t, o)
    ensures LedgerOk(WriteChange(t, c, o, fault))
  {
    if o.member.Some? && o.member == c.listed.member {
      SameMemberSameOutcome(t, o, c.listed);
    }
    if WriteEffect(t, c, o, fault) == Changed {
      assert AutomaticOk(t, c.id);
      StaleWriteExact(t, c, o, fault);
    }
  }

  lemma ReapplyDecisionOk(t: Tables, job: Job, c: Candidate, fault: Fault)
    requires RulesOk(t) && RuleSnapshotOk(t, job.target)
    ensures var v := ReapplyDecision(t, job, c, fault); v.Matched? ==> OutcomeOk(t, v.outcome)
  {
  }

  lemma {:induction false} CandidatesExact(t: Tables, n: nat, from: Date)
    ensures forall c :: c in CandidatesBelow(t, n, from) <==> 0 <= c.id < n && Listed(t, c.id, from) && c == CandidateOf(t, c.id)
    ensures forall i, j :: 0 <= i < j < |CandidatesBelow(t, n, from)| ==>
              CandidatesBelow(t, n, from)[i].id < CandidatesBelow(t, n, from)[j].id
  {
    if n > 0 {
      CandidatesExact(t, n - 1, from);
      var rest := CandidatesBelow(t, n - 1, from);
      forall i | 0 <= i < |rest| ensures rest[i].id < n - 1 {
        assert rest[i] in rest;
      }
    }
  }

  lemma FreshJobOk(t: Tables, rule: int, from: Date)
    requires LedgerOk(t) && rule in t.rules
    ensures JobOk(t, JobFor(t, rule), CandidatesBelow(t, t.nextRow, from))
  {
    CandidatesExact(t, t.nextRow, from);
    forall c | c in CandidatesBelow(t, t.nextRow, from) ensures CandidateOk(t, c) {
      assert AutomaticOk(t, c.id);
    }
  }
}
