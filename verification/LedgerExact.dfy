/** Overlapping re-applies: over every interleaving, however many are in flight, the ledger stays
    sound if and only if no write meets a row whose member another re-apply has changed back. */
module LedgerExact {
  import opened Options
  import opened Calendar
  import opened Categorization
  import opened Ledger
  import opened LedgerInvariant
  import opened LedgerMachine

  // ---- What holds however re-applies overlap ----

  ghost predicate Following(t: Tables, r: ReapplyJob) {
    && RuleSnapshotOk(t, r.job.target)
    && (forall c :: c in r.pending ==> c.id in t.rows && t.rows[c.id].raw in t.raws && c.rt == t.raws[t.rows[c.id].raw])
    && (r.decided.Some? ==> OutcomeOk(t, r.decided.value))
  }

  ghost predicate Flowing(m: Machine) {
    && RulesOk(m.t) && RowsOk(m.t)
    && (forall i :: 0 <= i < |m.runs| ==> RunOk(m.t, m.runs[i]))
    && (forall i :: 0 <= i < |m.reapplies| ==> Following(m.t, m.reapplies[i]))
  }

  /** Rows and transactions stay, rules come and go by the rules' rules. */
  ghost predicate Grows(t: Tables, t': Tables) {
    Tolerable(t, t', t.rows.Keys)
  }

  lemma FlowStays(m: Machine, t': Tables)
    requires Flowing(m) && RulesOk(t') && RowsOk(t') && Grows(m.t, t')
    ensures Flowing(m.(t := t'))
  {
    var all := m.t.rows.Keys;
    forall i | 0 <= i < |m.reapplies| ensures Following(t', m.reapplies[i]) {
      assert Following(m.t, m.reapplies[i]);
      if m.reapplies[i].decided.Some? {
        OutcomeStays(m.t, t', all, m.reapplies[i].decided.value);
      }
    }
    forall i | 0 <= i < |m.runs| ensures RunOk(t', m.runs[i]) {
      assert RunOk(m.t, m.runs[i]);
      if m.runs[i].decided.Some? {
        OutcomeStays(m.t, t', all, m.runs[i].decided.value);
      }
    }
  }

  lemma RunMoves(m: Machine, run: nat, job: RunJob)
    requires Flowing(m) && run < |m.runs| && RunOk(m.t, job)
    ensures Flowing(m.(runs := m.runs[run := job]))
  {
  }

  lemma JobMoves(m: Machine, i: nat, job: ReapplyJob)
    requires Flowing(m) && i < |m.reapplies| && Following(m.t, job)
    ensures Flowing(m.(reapplies := m.reapplies[i := job]))
  {
  }

  lemma SeededFlows(env: Env, members: set<int>, categories: set<CategoryId>)
    ensures Flowing(Seeded(env, members, categories))
  {
  }

  // ---- Each write ----

  lemma NewGrows(t: Tables, raw: int, o: Outcome, fault: Fault)
    requires RulesOk(t) && RowsOk(t) && raw in t.raws
    ensures var t' := WriteNew(t, raw, o, fault); RulesOk(t') && RowsOk(t') && Grows(t, t')
  {
    NewTolerable(t, raw, o, fault);
  }

  lemma ChangeGrows(t: Tables, c: Candidate, o: Outcome, fault: Fault)
    requires RulesOk(t) && RowsOk(t) && c.id in t.rows
    ensures var t' := WriteChange(t, c, o, fault); RulesOk(t') && RowsOk(t') && Grows(t, t')
  {
    ChangeTolerable(t, c, o, fault);
  }

  lemma AssignGrows(t: Tables, id: int, request: AssignRequest, thisYear: int, fault: Fault)
    requires RulesOk(t) && RowsOk(t)
    ensures var t' := AssignRow(t, id, request, thisYear, fault); RulesOk(t') && RowsOk(t') && Grows(t, t')
  {
    AssignTolerable(t, id, request, thisYear, fault);
  }

  lemma UnassignGrows(t: Tables, id: int, fault: Fault)
    requires RulesOk(t) && RowsOk(t)
    ensures var t' := UnassignRow(t, id, fault); RulesOk(t') && RowsOk(t') && Grows(t, t')
  {
    UnassignTolerable(t, id, fault);
  }

  lemma CreateGrows(t: Tables, request: RuleRequest)
    requires RulesOk(t) && RowsOk(t)
    ensures RulesOk(CreateRule(t, request)) && RowsOk(CreateRule(t, request)) && Grows(t, CreateRule(t, request))
  {
  }

  lemma UpdateGrows(t: Tables, rule: int, request: RuleRequest)
    requires RulesOk(t) && RowsOk(t)
    ensures RulesOk(UpdateRule(t, rule, request)) && RowsOk(UpdateRule(t, rule, request)) && Grows(t, UpdateRule(t, rule, request))
  {
  }

  lemma DeleteGrows(t: Tables, rule: int)
    requires RulesOk(t) && RowsOk(t)
    ensures RulesOk(DeleteRule(t, rule)) && RowsOk(DeleteRule(t, rule)) && Grows(t, DeleteRule(t, rule))
  {
    DeleteRuleTolerable(t, rule);
  }

  lemma ArriveGrows(t: Tables, rt: RawTransaction)
    requires RulesOk(t) && RowsOk(t)
    ensures RulesOk(AddRaw(t, rt)) && RowsOk(AddRaw(t, rt)) && Grows(t, AddRaw(t, rt))
  {
  }

  // ---- Each action ----

  lemma RunDecideFlows(m: Machine, run: nat, fault: Fault)
    requires Flowing(m)
    ensures Flowing(Next(m, RunDecide(run, fault)))
  {
    if RunAt(m, run, false) {
      var (job, raw) := (m.runs[run], m.runs[run].pending[0]);
      assert RunOk(m.t, job) && forall r :: r in job.pending[1..] ==> r in job.pending;
      var rt := m.t.raws[raw];
      WalkOutcomeOk(m.t, job.rules, rt, DirectionOf(rt.amount), Env(m.t.env.identifiers, job.accounts), fault);
      RunMoves(m, run, AfterRunDecision(job, VerdictFor(m.t, raw, job.rules, job.accounts, fault)));
    }
  }

  lemma RunWriteFlows(m: Machine, run: nat, fault: Fault)
    requires Flowing(m)
    ensures Flowing(Next(m, RunWrite(run, fault)))
  {
    if RunAt(m, run, true) {
      var job := m.runs[run];
      assert RunOk(m.t, job) && forall r :: r in job.pending[1..] ==> r in job.pending;
      NewGrows(m.t, job.pending[0], job.decided.value, fault);
      FlowStays(m, WriteNew(m.t, job.pending[0], job.decided.value, fault));
      var m1 := m.(t := WriteNew(m.t, job.pending[0], job.decided.value, fault));
      assert RunOk(m1.t, job);
      RunMoves(m1, run, Next(m, RunWrite(run, fault)).runs[run]);
    }
  }

  lemma StartReapplyFlows(m: Machine, rule: int, from: Date)
    requires Flowing(m)
    ensures Flowing(Next(m, StartReapply(rule, from)))
  {
    CandidatesExact(m.t, m.t.nextRow, from);
  }

  lemma ReapplyDecideFlows(m: Machine, i: nat, fault: Fault)
    requires Flowing(m)
    ensures Flowing(Next(m, ReapplyDecide(i, fault)))
  {
    if ReapplyAt(m, i, false) {
      var job := m.reapplies[i];
      assert Following(m.t, job) && forall c :: c in job.pending[1..] ==> c in job.pending;
      ReapplyDecisionOk(m.t, job.job, job.pending[0], fault);
      JobMoves(m, i, AfterReapplyDecision(job, ReapplyDecision(m.t, job.job, job.pending[0], fault)));
    }
  }

  lemma ReapplyWriteFlows(m: Machine, i: nat, fault: Fault)
    requires Flowing(m)
    ensures Flowing(Next(m, ReapplyWrite(i, fault)))
  {
    if ReapplyAt(m, i, true) {
      var job := m.reapplies[i];
      assert Following(m.t, job) && forall c :: c in job.pending[1..] ==> c in job.pending;
      var t' := WriteChange(m.t, job.pending[0], job.decided.value, fault);
      ChangeGrows(m.t, job.pending[0], job.decided.value, fault);
      FlowStays(m, t');
      assert Following(t', job);
      JobMoves(m.(t := t'), i, job.(pending := job.pending[1..], decided := None));
    }
  }

  lemma StepFlows(m: Machine, a: Action)
    requires Flowing(m)
    ensures Flowing(Next(m, a))
  {
    match a
    case StartRun =>
      SnapshotIsOk(m.t);
      UnprocessedExact(m.t, m.t.nextRaw);
    case RunDecide(run, fault) => RunDecideFlows(m, run, fault);
    case RunWrite(run, fault) => RunWriteFlows(m, run, fault);
    case StartReapply(rule, from) => StartReapplyFlows(m, rule, from);
    case ReapplyDecide(i, fault) => ReapplyDecideFlows(m, i, fault);
    case ReapplyWrite(i, fault) => ReapplyWriteFlows(m, i, fault);
    case Assign(id, request, thisYear, fault) =>
      AssignGrows(m.t, id, request, thisYear, fault);
      FlowStays(m, Next(m, a).t);
    case Unassign(id, fault) =>
      UnassignGrows(m.t, id, fault);
      FlowStays(m, Next(m, a).t);
    case NewRule(definition) =>
      CreateGrows(m.t, definition);
      FlowStays(m, Next(m, a).t);
    case EditRule(rule, definition) =>
      UpdateGrows(m.t, rule, definition);
      FlowStays(m, Next(m, a).t);
    case RemoveRule(rule) =>
      DeleteGrows(m.t, rule);
      FlowStays(m, Next(m, a).t);
    case Arrive(rt) =>
      ArriveGrows(m.t, rt);
      FlowStays(m, Next(m, a).t);
    case Crash =>
    case Refresh(env, members, categories) => FlowStays(m, Next(m, a).t);
  }

  // ---- Which writes break the ledger ----

  /** A re-apply's write is harmless unless it goes through although its listing saw the new member
      already and the row has another one by now. */
  predicate Harmless(m: Machine, a: Action) {
    a.ReapplyWrite? && ReapplyAt(m, a.job, true) ==>
      var (c, o) := (m.reapplies[a.job].pending[0], m.reapplies[a.job].decided.value);
      WriteEffect(m.t, c, o, a.fault) == Changed ==> o.member != c.listed.member || o.member == m.t.rows[c.id].member
  }

  lemma StepExact(m: Machine, a: Action)
    requires Flowing(m) && LedgerOk(m.t)
    ensures LedgerOk(Next(m, a).t) <==> Harmless(m, a)
  {
    match a
    case RunWrite(run, fault) =>
      if RunAt(m, run, true) {
        assert RunOk(m.t, m.runs[run]);
        WriteNewKeeps(m.t, m.runs[run].pending[0], m.runs[run].decided.value, fault);
      }
    case ReapplyWrite(i, fault) =>
      if ReapplyAt(m, i, true) {
        var (c, o) := (m.reapplies[i].pending[0], m.reapplies[i].decided.value);
        assert Following(m.t, m.reapplies[i]) && c in m.reapplies[i].pending;
        if WriteEffect(m.t, c, o, fault) == Changed {
          StaleWriteExact(m.t, c, o, fault);
        }
      }
    case Assign(id, request, thisYear, fault) => AssignRowKeeps(m.t, id, request, thisYear, fault);
    case Unassign(id, fault) => UnassignRowKeeps(m.t, id, fault);
    case NewRule(definition) => CreateRuleKeeps(m.t, definition);
    case EditRule(rule, definition) => UpdateRuleKeeps(m.t, rule, definition);
    case RemoveRule(rule) => DeleteRuleKeeps(m.t, rule);
    case Arrive(rt) => AddRawKeeps(m.t, rt);
    case Refresh(env, members, categories) => AdministrationKeeps(m.t, env, members, categories);
    case _ =>
  }

  ghost predicate SoundThroughout(m: Machine, actions: seq<Action>)
    decreases |actions|
  {
    LedgerOk(m.t) && (actions != [] ==> SoundThroughout(Next(m, actions[0]), actions[1..]))
  }

  ghost predicate AllHarmless(m: Machine, actions: seq<Action>)
    decreases |actions|
  {
    actions != [] ==> Harmless(m, actions[0]) && AllHarmless(Next(m, actions[0]), actions[1..])
  }

  /** Over every interleaving, with any number of re-applies at a time: the ledger is sound at
      every moment if and only if every re-apply write is harmless where it strikes. */
  lemma {:induction false} BreaksExactly(m: Machine, actions: seq<Action>)
    requires Flowing(m) && LedgerOk(m.t)
    ensures SoundThroughout(m, actions) <==> AllHarmless(m, actions)
    decreases |actions|
  {
    if actions != [] {
      StepExact(m, actions[0]);
      StepFlows(m, actions[0]);
      if LedgerOk(Next(m, actions[0]).t) {
        BreaksExactly(Next(m, actions[0]), actions[1..]);
      }
    }
  }

  /** However re-applies overlap, no transaction ever has two rows, and no row loses its transaction. */
  lemma {:induction false} EveryHistoryFlows(m: Machine, actions: seq<Action>)
    requires Flowing(m)
    ensures Flowing(Execute(m, actions))
    decreases |actions|
  {
    if actions != [] {
      StepFlows(m, actions[0]);
      EveryHistoryFlows(Next(m, actions[0]), actions[1..]);
    }
  }
}
