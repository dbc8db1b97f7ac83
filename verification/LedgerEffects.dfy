/** What each ledger write comes to, spelled out in rows, months and statements: when it goes through,
    what it stores, and that a failure at any of its statements leaves everything as it was. */
module LedgerEffects {
  import opened Options
  import opened Calendar
  import opened Categorization
  import opened Ledger
  import opened LedgerInvariant
  import opened LedgerMachine

  /** The tables accept the outcome. */
  ghost predicate Accepted(t: Tables, o: Outcome) {
    && o.category in t.categories
    && (o.rule == None || o.rule.value in t.rules)
    && (o.member == None || o.member.value in t.members)
  }

  /** A statement of the write fails: the coverage statements only if it has them. */
  ghost predicate Breaks(fault: Fault, clears: bool, covers: bool) {
    match fault
    case WriteFault(CoverageDelete) => clears
    case WriteFault(CoverageInsert) => covers
    case WriteFault(_) => true
    case _ => false
  }

  /** Storing a new row. */
  lemma StoreExact(t: Tables, raw: int, o: Outcome, fault: Fault)
    requires RowsOk(t) && CoverageOk(t) && raw in t.raws
    ensures var t' := WriteNew(t, raw, o, fault);
            if (forall id :: id in t.rows ==> t.rows[id].raw != raw) && Accepted(t, o) && !Breaks(fault, false, o.member.Some?) then
              && t' == t.(rows := t'.rows, nextRow := t.nextRow + 1, coverage := t'.coverage)
              && t'.rows == t.rows[t.nextRow := Row(
                   raw, o.member, o.category, if t.raws[raw].amount < 0 then Outgoing else Incoming, o.matchedBy, false, o.rule, None)]
              && (forall key :: key in t'.coverage <==>
                    key in t.coverage || (o.member.Some? && key == CoverKey(t.nextRow, DefaultCoveredMonth(t.raws[raw].date))))
              && (forall key :: key in t'.coverage ==>
                    Some(t'.coverage[key]) == if key in t.coverage then Some(t.coverage[key]) else o.member)
            else t' == t
  {
    assert HasRow(t, raw) <==> exists id :: id in t.rows && t.rows[id].raw == raw;
    assert Accepted(t, o) <==> Storable(t, o);
    assert !Breaks(fault, false, o.member.Some?) <==> !fault.Strikes(StoreStatements(o));
  }

  /** When a re-apply write goes through, when it fails, and when it reports both. */
  lemma WriteEffectExact(t: Tables, c: Candidate, o: Outcome, fault: Fault)
    requires c.id in t.rows
    ensures var (row, moves) := (t.rows[c.id], o.member != c.listed.member);
            var effect := WriteEffect(t, c, o, fault);
            var hand := row.setManually || row.matchedBy == Some(ByHand);
            var breaks := Breaks(fault, moves, moves && o.member.Some?);
            && (effect == Changed <==> o != c.listed && !hand && Accepted(t, o) && !breaks)
            && (effect.CountsFailed() <==>
                  o != c.listed && (fault in {WriteFault(Begin), WriteFault(RowWrite)} || (!hand && (!Accepted(t, o) || breaks))))
            && (effect.CountsChanged() && effect != Changed <==> o != c.listed && !hand && Accepted(t, o) && fault == WriteFault(Commit))
  {
    FaultsExact(c, o, fault);
    hide Breaks, CoverageStatements;
    assert Accepted(t, o) <==> Storable(t, o);
  }

  /** Where a fault strikes a re-apply write. */
  lemma FaultsExact(c: Candidate, o: Outcome, fault: Fault)
    ensures var moves := o.member != c.listed.member;
            var (early, late) := (fault.Strikes({Begin, RowWrite}), fault.Strikes({Commit}));
            && (early <==> fault in {WriteFault(Begin), WriteFault(RowWrite)})
            && (late <==> fault == WriteFault(Commit))
            && (Breaks(fault, moves, moves && o.member.Some?) <==> early || fault.Strikes(CoverageStatements(c, o)) || late)
            && (late ==> !early && !fault.Strikes(CoverageStatements(c, o)))
  {
    var s := CoverageStatements(c, o);
    assert Begin !in s && RowWrite !in s && Commit !in s;
    assert CoverageDelete in s <==> o.member != c.listed.member;
    assert CoverageInsert in s <==> o.member != c.listed.member && o.member.Some?;
    if fault.WriteFault? {
      match fault.at
      case Begin =>
      case RowWrite =>
      case CoverageDelete =>
      case CoverageInsert =>
      case Commit =>
    }
  }

  /** What it stores: the outcome on the row, and the default month alone if the member moved. */
  lemma RewriteExact(t: Tables, c: Candidate, o: Outcome, fault: Fault)
    requires c.id in t.rows
    ensures WriteEffect(t, c, o, fault) != Changed ==> WriteChange(t, c, o, fault) == t
    ensures WriteEffect(t, c, o, fault) == Changed ==>
              var (t', row, moves) := (WriteChange(t, c, o, fault), t.rows[c.id], o.member != c.listed.member);
              && t' == t.(rows := t'.rows, coverage := t'.coverage)
              && t'.rows == t.rows[c.id := Row(
                   row.raw, o.member, o.category, row.direction, o.matchedBy, row.setManually, o.rule, row.adminComment)]
              && (forall key :: key in t'.coverage <==>
                    if moves && key.row == c.id then o.member.Some? && key.month == DefaultCoveredMonth(c.rt.date)
                    else key in t.coverage)
              && (forall key :: key in t'.coverage ==>
                    Some(t'.coverage[key]) == if moves && key.row == c.id then o.member else Some(t.coverage[key]))
  {
    hide WriteEffect;
  }

  /** Which candidates a re-apply passes over: those an enabled rule decided that runs before the target. */
  lemma PassedOver(job: Job, listed: Outcome, i: nat, j: nat)
    requires i < |job.rules| && job.rules[i].id == job.target.id && j < |job.rules| && listed.rule == Some(job.rules[j].id)
    requires forall a, b :: 0 <= a < b < |job.rules| ==> job.rules[a].id != job.rules[b].id
    ensures DecidedEarlier(job, listed) <==> j < i
  {
    OrderIs(job.rules, i);
    OrderIs(job.rules, j);
  }

  /** A target missing from the chain passes nothing over. */
  lemma AbsentTarget(job: Job, listed: Outcome)
    requires forall rule :: rule in job.rules ==> rule.id != job.target.id
    ensures !DecidedEarlier(job, listed)
  {
    NotInOrder(job.rules, job.target.id);
  }

  lemma {:induction false} NotInOrder(rules: seq<Rule>, id: int)
    requires forall rule :: rule in rules ==> rule.id != id
    ensures OrderOf(rules, id) == None
  {
    if rules != [] {
      NotInOrder(rules[..|rules| - 1], id);
    }
  }

  lemma {:induction false} OrderIs(rules: seq<Rule>, i: nat)
    requires i < |rules| && forall a, b :: 0 <= a < b < |rules| ==> rules[a].id != rules[b].id
    ensures OrderOf(rules, rules[i].id) == Some(i)
    decreases |rules|
  {
    if i < |rules| - 1 {
      OrderIs(rules[..|rules| - 1], i);
    }
  }

  /** Which rows a re-apply lists: not set by hand, and dated on or after the start. */
  lemma ListedExact(t: Tables, id: int, from: Date)
    requires id in t.rows && t.rows[id].raw in t.raws
    ensures var (row, rt) := (t.rows[id], t.raws[t.rows[id].raw]);
            && (Listed(t, id, from) <==> !row.setManually && row.matchedBy != Some(ByHand) && NotAfter(from, rt.date))
            && CandidateOf(t, id) == Candidate(id, row.direction, Outcome(row.category, row.rule, row.member, row.matchedBy), rt)
  {
  }

  /** When an unassignment goes through. */
  lemma UnassignAnswers(t: Tables, id: int, fault: Fault)
    ensures UnassignResponse(t, id, fault) ==
              if id !in t.rows || t.rows[id].raw !in t.raws then NotFound else if Breaks(fault, true, false) then ServerError else Ok
    ensures UnassignResponse(t, id, fault) != Ok ==> UnassignRow(t, id, fault) == t
  {
  }

  // ---- Rule administration and arrivals ----

  /** A pattern rule needs a known category and a condition besides the direction. */
  ghost predicate GoodPattern(t: Tables, req: RuleRequest) {
    && (exists category :: req.category == Some(category) && category in t.categories)
    && (req.counterAccount != None || req.variableSymbol != None || req.constantSymbol != None
        || req.textContains != None || req.typeContains != None)
  }

  lemma NewRuleExact(m: Machine, req: RuleRequest)
    ensures var (t, t') := (m.t, Next(m, NewRule(req)).t);
            t' == if !GoodPattern(t, req) then t else
              t.(nextRule := t.nextRule + 1,
                 rules := t.rules[t.nextRule := Rule(
                   t.nextRule, req.priority, Pattern, req.category.value, req.enabled,
                   req.counterAccount, req.variableSymbol, req.constantSymbol, req.textContains, req.typeContains, req.direction)])
  {
  }

  /** No condition and no direction, and the category is left out or left alone. */
  ghost predicate GoodBuiltIn(rule: Rule, req: RuleRequest) {
    && req.counterAccount == None && req.variableSymbol == None && req.constantSymbol == None
    && req.textContains == None && req.typeContains == None && req.direction == None
    && (req.category == None || req.category.value == rule.category)
  }

  lemma BuiltInExact(t: Tables, rule: int, req: RuleRequest)
    requires rule in t.rules && t.rules[rule].kind != Pattern
    ensures UpdateAccepted(t, rule, req) <==> GoodBuiltIn(t.rules[rule], req)
  {
  }

  /** An edit replaces a pattern rule; of a built-in one it changes priority and enabling only. */
  lemma EditRuleExact(m: Machine, rule: int, req: RuleRequest)
    requires KeyedById(m.t.rules) && rule in m.t.rules
    ensures var (t, t', was) := (m.t, Next(m, EditRule(rule, req)).t, m.t.rules[rule]);
            if was.kind == Pattern then
              t' == if !GoodPattern(t, req) then t else
                t.(rules := t.rules[rule := Rule(
                     rule, req.priority, Pattern, req.category.value, req.enabled,
                     req.counterAccount, req.variableSymbol, req.constantSymbol, req.textContains, req.typeContains, req.direction)])
            else
              t' == if !GoodBuiltIn(was, req) then t else
                t.(rules := t.rules[rule := Rule(
                     rule, req.priority, was.kind, was.category, req.enabled, None, None, None, None, None, None)])
  {
    if m.t.rules[rule].kind != Pattern {
      BuiltInExact(m.t, rule, req);
    }
  }

  /** A deleted pattern rule is gone from the chain and from the rows; everything else stays. */
  lemma RemoveRuleExact(m: Machine, rule: int)
    ensures var t' := Next(m, RemoveRule(rule)).t;
            if rule in m.t.rules && m.t.rules[rule].kind == Pattern then
              && t' == m.t.(rules := m.t.rules - {rule}, rows := t'.rows) && t'.rows.Keys == m.t.rows.Keys
              && forall id :: id in m.t.rows ==>
                   t'.rows[id] == if m.t.rows[id].rule == Some(rule) then m.t.rows[id].(rule := None) else m.t.rows[id]
            else t' == m.t
  {
    assert rule in m.t.rules && m.t.rules[rule].kind == Pattern ==> Next(m, RemoveRule(rule)).t.rules == m.t.rules - {rule};
  }

  /** What comes from outside is taken as it is, and touches nothing else. */
  lemma ArrivalsExact(m: Machine, rt: RawTransaction, env: Env, members: set<int>, categories: set<CategoryId>)
    ensures Next(m, Arrive(rt)) == m.(t := m.t.(raws := m.t.raws[m.t.nextRaw := rt], nextRaw := m.t.nextRaw + 1))
    ensures Next(m, Refresh(env, members, categories)) == m.(t := m.t.(env := env, members := members, categories := categories))
  {
  }
}
