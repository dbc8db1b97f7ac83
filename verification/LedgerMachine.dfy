/** The ledger under concurrency: any number of processing runs, re-applies, manual
    edits, rule edits and syncs interleave. A rule's decision for a row, with its member
    lookup, and the database transaction that writes it are separate actions. */
module LedgerMachine {
  import opened Options
  import opened Calendar
  import opened Categorization
  import opened Ledger
  import opened LedgerInvariant

  /** A processing run between listing and finishing, with its counters; `decided` is the first
      pending transaction's outcome, once known. */
  datatype RunJob = RunJob(
    rules: seq<Rule>, accounts: set<string>, pending: seq<int>, decided: Option<Outcome>, done: nat, failed: nat)

  /** A re-apply between listing its candidates and writing the last of them. */
  datatype ReapplyJob = ReapplyJob(job: Job, pending: seq<Candidate>, decided: Option<Outcome>)

  datatype Machine = Machine(t: Tables, runs: seq<RunJob>, reapplies: seq<ReapplyJob>)

  datatype Action =
    | StartRun
    | RunDecide(run: nat, fault: Fault)
    | RunWrite(run: nat, fault: Fault)
    | StartReapply(rule: int, from: Date)
    | ReapplyDecide(job: nat, fault: Fault)
    | ReapplyWrite(job: nat, fault: Fault)
    | Assign(id: int, request: AssignRequest, thisYear: int, fault: Fault)
    | Unassign(id: int, fault: Fault)
    | NewRule(definition: RuleRequest)
    | EditRule(rule: int, definition: RuleRequest)
    | RemoveRule(rule: int)
    | Arrive(rt: RawTransaction)
    /** The process dies: whatever was under way is abandoned between two transactions. */
    | Crash
    /** The Orca sync, bank account and category administration. */
    | Refresh(env: Env, members: set<int>, categories: set<CategoryId>)

  /** The run's next transaction, if it is at this stage. */
  predicate RunAt(m: Machine, run: nat, decided: bool) {
    && run < |m.runs| && m.runs[run].pending != [] && m.runs[run].pending[0] in m.t.raws
    && m.runs[run].decided.Some? == decided
  }

  predicate ReapplyAt(m: Machine, i: nat, decided: bool) {
    i < |m.reapplies| && m.reapplies[i].pending != [] && m.reapplies[i].decided.Some? == decided
  }

  /** A decision is kept for the write; without one the transaction is done with. */
  function AfterRunDecision(job: RunJob, v: Verdict): RunJob
    requires job.pending != []
  {
    if v.Matched? then job.(decided := Some(v.outcome)) else job.(pending := job.pending[1..], failed := job.failed + 1)
  }

  function AfterRunWrite(job: RunJob, through: bool): RunJob
    requires job.pending != []
  {
    var next := job.(pending := job.pending[1..], decided := None);
    if through then next.(done := job.done + 1) else next.(failed := job.failed + 1)
  }

  function AfterReapplyDecision(job: ReapplyJob, v: Verdict): ReapplyJob
    requires job.pending != []
  {
    if v.Matched? then job.(decided := Some(v.outcome)) else job.(pending := job.pending[1..])
  }

  /** One action; an action that does not apply changes nothing. */
  function Next(m: Machine, a: Action): Machine {
    match a
    case StartRun =>
      m.(runs := m.runs + [RunJob(EnabledBelow(m.t.rules, m.t.nextRule), m.t.env.accounts, UnprocessedBelow(m.t, m.t.nextRaw), None, 0, 0)])
    case RunDecide(run, fault) =>
      if RunAt(m, run, false) then
        var job := m.runs[run];
        m.(runs := m.runs[run := AfterRunDecision(job, VerdictFor(m.t, job.pending[0], job.rules, job.accounts, fault))])
      else m
    case RunWrite(run, fault) =>
      if RunAt(m, run, true) then
        var job := m.runs[run];
        m.(t := WriteNew(m.t, job.pending[0], job.decided.value, fault),
           runs := m.runs[run := AfterRunWrite(job, NewGoesThrough(m.t, job.pending[0], job.decided.value, fault))])
      else m
    case StartReapply(rule, from) =>
      if rule in m.t.rules && m.t.rules[rule].enabled then
        m.(reapplies := m.reapplies + [ReapplyJob(JobFor(m.t, rule), CandidatesBelow(m.t, m.t.nextRow, from), None)])
      else m
    case ReapplyDecide(i, fault) =>
      if ReapplyAt(m, i, false) then
        var job := m.reapplies[i];
        m.(reapplies := m.reapplies[i := AfterReapplyDecision(job, ReapplyDecision(m.t, job.job, job.pending[0], fault))])
      else m
    case ReapplyWrite(i, fault) =>
      if ReapplyAt(m, i, true) then
        var job := m.reapplies[i];
        m.(t := WriteChange(m.t, job.pending[0], job.decided.value, fault), reapplies := Taken(m, i).reapplies)
      else m
    case Assign(id, request, thisYear, fault) => m.(t := AssignRow(m.t, id, request, thisYear, fault))
    case Unassign(id, fault) => m.(t := UnassignRow(m.t, id, fault))
    case NewRule(request) => m.(t := CreateRule(m.t, request))
    case EditRule(rule, request) => m.(t := UpdateRule(m.t, rule, request))
    case RemoveRule(rule) => m.(t := DeleteRule(m.t, rule))
    case Arrive(rt) => m.(t := AddRaw(m.t, rt))
    case Crash => m.(runs := [], reapplies := [])
    case Refresh(env, members, categories) => m.(t := m.t.(env := env, members := members, categories := categories))
  }

  /** The re-apply is done with its next candidate. */
  function Taken(m: Machine, i: nat): Machine
    requires i < |m.reapplies| && m.reapplies[i].pending != []
  {
    m.(reapplies := m.reapplies[i := m.reapplies[i].(pending := m.reapplies[i].pending[1..], decided := None)])
  }

  function Execute(m: Machine, actions: seq<Action>): Machine
    decreases |actions|
  {
    if actions == [] then m else Execute(Next(m, actions[0]), actions[1..])
  }

  /** No re-apply still has candidates to write. */
  ghost predicate Idle(m: Machine) {
    forall i :: 0 <= i < |m.reapplies| ==> m.reapplies[i].pending == []
  }

  /** The hypothesis the stale comparison rests on: re-applies run one at a time. */
  ghost predicate OneAtATime(m: Machine, actions: seq<Action>)
    decreases |actions|
  {
    actions != [] ==>
      && (actions[0].StartReapply? ==> Idle(m))
      && OneAtATime(Next(m, actions[0]), actions[1..])
  }

  ghost predicate RunOk(t: Tables, run: RunJob) {
    && SnapshotOk(t, run.rules)
    && (forall raw :: raw in run.pending ==> raw in t.raws)
    && (run.decided.Some? ==> OutcomeOk(t, run.decided.value))
  }

  ghost predicate ReapplyOk(t: Tables, r: ReapplyJob) {
    JobOk(t, r.job, r.pending) && (r.decided.Some? ==> OutcomeOk(t, r.decided.value))
  }

  ghost predicate MachineOk(m: Machine) {
    && LedgerOk(m.t)
    && (forall i :: 0 <= i < |m.runs| ==> RunOk(m.t, m.runs[i]))
    && (forall i :: 0 <= i < |m.reapplies| ==> ReapplyOk(m.t, m.reapplies[i]))
    && (forall i, j :: 0 <= i < j < |m.reapplies| ==> m.reapplies[i].pending == [] || m.reapplies[j].pending == [])
  }

  // ---- What jobs in flight rely on ----

  /** Everything but the rows in `written` changes only in ways a listed candidate tolerates. */
  ghost predicate Tolerable(t: Tables, t': Tables, written: set<int>) {
    && t.nextRule <= t'.nextRule
    && (forall id :: id in t.rules && t.rules[id].kind == MemberVariableSymbol ==> id in t'.rules)
    && (forall id :: id in t'.rules && id < t.nextRule ==> id in t.rules && t'.rules[id].kind == t.rules[id].kind)
    && (forall raw :: raw in t.raws ==> raw in t'.raws && t'.raws[raw] == t.raws[raw])
    && (forall id :: id in t.rows ==> id in t'.rows && t'.rows[id].raw == t.rows[id].raw)
    && (forall id :: id in t.rows && id !in written && !t'.rows[id].setManually ==>
          || t'.rows[id].member.None?
          || (!t.rows[id].setManually && t'.rows[id].member == t.rows[id].member))
  }

  lemma OutcomeStays(t: Tables, t': Tables, written: set<int>, o: Outcome)
    requires RulesOk(t) && Tolerable(t, t', written) && OutcomeOk(t, o)
    ensures OutcomeOk(t', o)
  {
    assert o.member.Some? ==> o.rule.value < t.nextRule;
  }

  lemma JobStays(t: Tables, t': Tables, written: set<int>, job: Job, pending: seq<Candidate>)
    requires RulesOk(t) && Tolerable(t, t', written) && JobOk(t, job, pending)
    requires forall c :: c in pending ==> c.id !in written
    ensures JobOk(t', job, pending)
  {
    forall c | c in pending ensures CandidateOk(t', c) {
      assert CandidateOk(t, c);
      OutcomeStays(t, t', written, c.listed);
    }
  }

  lemma JobsTolerate(m: Machine, t': Tables, written: set<int>)
    requires MachineOk(m) && LedgerOk(t') && Tolerable(m.t, t', written)
    requires forall i, c :: 0 <= i < |m.reapplies| && c in m.reapplies[i].pending ==> c.id !in written
    ensures MachineOk(m.(t := t'))
  {
    forall i | 0 <= i < |m.reapplies| ensures ReapplyOk(t', m.reapplies[i]) {
      assert ReapplyOk(m.t, m.reapplies[i]);
      JobStays(m.t, t', written, m.reapplies[i].job, m.reapplies[i].pending);
      if m.reapplies[i].decided.Some? {
        OutcomeStays(m.t, t', written, m.reapplies[i].decided.value);
      }
    }
    forall i | 0 <= i < |m.runs| ensures RunOk(t', m.runs[i]) {
      assert RunOk(m.t, m.runs[i]);
      if m.runs[i].decided.Some? {
        OutcomeStays(m.t, t', written, m.runs[i].decided.value);
      }
    }
  }

  /** A job that lost its first candidate, or gained a decision for it, is still in order. */
  lemma OneJobMoves(m: Machine, i: nat, job: ReapplyJob)
    requires MachineOk(m) && i < |m.reapplies| && m.reapplies[i].pending != []
    requires job.job == m.reapplies[i].job && job.pending in {m.reapplies[i].pending, m.reapplies[i].pending[1..]}
    requires job.decided.Some? ==> OutcomeOk(m.t, job.decided.value)
    ensures MachineOk(m.(reapplies := m.reapplies[i := job]))
  {
    var before := m.reapplies[i];
    assert ReapplyOk(m.t, before);
    assert forall d :: d in before.pending[1..] ==> d in before.pending;
    var moved := m.(reapplies := m.reapplies[i := job]);
    forall k | 0 <= k < |moved.reapplies| ensures ReapplyOk(m.t, moved.reapplies[k]) {
      assert ReapplyOk(m.t, m.reapplies[k]);
    }
  }

  lemma TakenIsNotPending(m: Machine, i: nat, k: nat, d: Candidate)
    requires MachineOk(m) && i < |m.reapplies| && m.reapplies[i].pending != []
    requires k < |m.reapplies| && d in Taken(m, i).reapplies[k].pending
    ensures d.id != m.reapplies[i].pending[0].id
  {
    var pending := m.reapplies[i].pending;
    assert ReapplyOk(m.t, m.reapplies[i]);
    assert k == i;
    var n :| 0 <= n < |pending[1..]| && pending[1..][n] == d;
    assert pending[n + 1] == d;
  }

  lemma ChangeTolerable(t: Tables, c: Candidate, o: Outcome, fault: Fault)
    requires c.id in t.rows
    ensures Tolerable(t, WriteChange(t, c, o, fault), {c.id})
  {
  }

  lemma ReapplyDecideKeeps(m: Machine, i: nat, fault: Fault)
    requires MachineOk(m) && ReapplyAt(m, i, false)
    ensures MachineOk(Next(m, ReapplyDecide(i, fault)))
  {
    var job := m.reapplies[i];
    assert ReapplyOk(m.t, job);
    ReapplyDecisionOk(m.t, job.job, job.pending[0], fault);
    OneJobMoves(m, i, AfterReapplyDecision(job, ReapplyDecision(m.t, job.job, job.pending[0], fault)));
  }

  lemma ReapplyWriteKeeps(m: Machine, i: nat, fault: Fault)
    requires MachineOk(m) && ReapplyAt(m, i, true)
    ensures MachineOk(Next(m, ReapplyWrite(i, fault)))
  {
    var job := m.reapplies[i];
    var (c, o) := (job.pending[0], job.decided.value);
    assert ReapplyOk(m.t, job) && CandidateOk(m.t, c);
    WriteChangeKeeps(m.t, c, o, fault);
    ChangeTolerable(m.t, c, o, fault);
    OneJobMoves(m, i, job.(pending := job.pending[1..], decided := None));
    forall k, d | 0 <= k < |m.reapplies| && d in Taken(m, i).reapplies[k].pending
      ensures d.id !in {c.id}
    {
      TakenIsNotPending(m, i, k, d);
    }
    JobsTolerate(Taken(m, i), WriteChange(m.t, c, o, fault), {c.id});
  }

  lemma StartReapplyKeeps(m: Machine, rule: int, from: Date)
    requires MachineOk(m) && Idle(m)
    ensures MachineOk(Next(m, StartReapply(rule, from)))
  {
    if rule in m.t.rules {
      FreshJobOk(m.t, rule, from);
    }
  }

  lemma NewTolerable(t: Tables, raw: int, o: Outcome, fault: Fault)
    requires RowsOk(t) && raw in t.raws
    ensures Tolerable(t, WriteNew(t, raw, o, fault), {})
  {
  }

  lemma OneRunMoves(m: Machine, run: nat, job: RunJob)
    requires MachineOk(m) && run < |m.runs| && RunOk(m.t, job)
    ensures MachineOk(m.(runs := m.runs[run := job]))
  {
    var moved := m.(runs := m.runs[run := job]);
    forall k | 0 <= k < |moved.runs| ensures RunOk(m.t, moved.runs[k]) {
      assert RunOk(m.t, m.runs[k]);
    }
  }

  lemma RunDecideKeeps(m: Machine, run: nat, fault: Fault)
    requires MachineOk(m) && RunAt(m, run, false)
    ensures MachineOk(Next(m, RunDecide(run, fault)))
  {
    var job := m.runs[run];
    assert RunOk(m.t, job) && forall raw :: raw in job.pending[1..] ==> raw in job.pending;
    var rt := m.t.raws[job.pending[0]];
    WalkOutcomeOk(m.t, job.rules, rt, DirectionOf(rt.amount), Env(m.t.env.identifiers, job.accounts), fault);
    OneRunMoves(m, run, AfterRunDecision(job, VerdictFor(m.t, job.pending[0], job.rules, job.accounts, fault)));
  }

  lemma RunWriteKeeps(m: Machine, run: nat, fault: Fault)
    requires MachineOk(m) && RunAt(m, run, true)
    ensures MachineOk(Next(m, RunWrite(run, fault)))
  {
    var job := m.runs[run];
    assert RunOk(m.t, job) && forall raw :: raw in job.pending[1..] ==> raw in job.pending;
    WriteNewKeeps(m.t, job.pending[0], job.decided.value, fault);
    NewTolerable(m.t, job.pending[0], job.decided.value, fault);
    var moved := m.(runs := Next(m, RunWrite(run, fault)).runs);
    OneRunMoves(m, run, moved.runs[run]);
    JobsTolerate(moved, WriteNew(m.t, job.pending[0], job.decided.value, fault), {});
  }

  lemma AssignTolerable(t: Tables, id: int, request: AssignRequest, thisYear: int, fault: Fault)
    ensures Tolerable(t, AssignRow(t, id, request, thisYear, fault), {})
  {
  }

  lemma AssignKeeps(m: Machine, id: int, request: AssignRequest, thisYear: int, fault: Fault)
    requires MachineOk(m)
    ensures MachineOk(Next(m, Assign(id, request, thisYear, fault)))
  {
    AssignRowKeeps(m.t, id, request, thisYear, fault);
    AssignTolerable(m.t, id, request, thisYear, fault);
    JobsTolerate(m, AssignRow(m.t, id, request, thisYear, fault), {});
  }

  lemma UnassignTolerable(t: Tables, id: int, fault: Fault)
    ensures Tolerable(t, UnassignRow(t, id, fault), {})
  {
  }

  lemma UnassignKeeps(m: Machine, id: int, fault: Fault)
    requires MachineOk(m)
    ensures MachineOk(Next(m, Unassign(id, fault)))
  {
    UnassignRowKeeps(m.t, id, fault);
    UnassignTolerable(m.t, id, fault);
    JobsTolerate(m, UnassignRow(m.t, id, fault), {});
  }

  lemma NewRuleKeeps(m: Machine, definition: RuleRequest)
    requires MachineOk(m)
    ensures MachineOk(Next(m, NewRule(definition)))
  {
    CreateRuleKeeps(m.t, definition);
    JobsTolerate(m, CreateRule(m.t, definition), {});
  }

  lemma EditRuleKeeps(m: Machine, rule: int, definition: RuleRequest)
    requires MachineOk(m)
    ensures MachineOk(Next(m, EditRule(rule, definition)))
  {
    UpdateRuleKeeps(m.t, rule, definition);
    JobsTolerate(m, UpdateRule(m.t, rule, definition), {});
  }

  lemma DeleteRuleTolerable(t: Tables, rule: int)
    ensures Tolerable(t, DeleteRule(t, rule), {})
  {
  }

  lemma RemoveRuleKeeps(m: Machine, rule: int)
    requires MachineOk(m)
    ensures MachineOk(Next(m, RemoveRule(rule)))
  {
    DeleteRuleKeeps(m.t, rule);
    DeleteRuleTolerable(m.t, rule);
    JobsTolerate(m, DeleteRule(m.t, rule), {});
  }

  lemma ArriveKeeps(m: Machine, rt: RawTransaction)
    requires MachineOk(m)
    ensures MachineOk(Next(m, Arrive(rt)))
  {
    AddRawKeeps(m.t, rt);
    JobsTolerate(m, AddRaw(m.t, rt), {});
  }

  lemma RefreshKeeps(m: Machine, env: Env, members: set<int>, categories: set<CategoryId>)
    requires MachineOk(m)
    ensures MachineOk(Next(m, Refresh(env, members, categories)))
  {
    AdministrationKeeps(m.t, env, members, categories);
    JobsTolerate(m, m.t.(env := env, members := members, categories := categories), {});
  }

  lemma StartRunKeeps(m: Machine)
    requires MachineOk(m)
    ensures MachineOk(Next(m, StartRun))
  {
    SnapshotIsOk(m.t);
    UnprocessedExact(m.t, m.t.nextRaw);
  }

  lemma NextKeeps(m: Machine, a: Action)
    requires MachineOk(m) && (a.StartReapply? ==> Idle(m))
    ensures MachineOk(Next(m, a))
  {
    match a
    case StartRun => StartRunKeeps(m);
    case RunDecide(run, fault) =>
      if RunAt(m, run, false) {
        RunDecideKeeps(m, run, fault);
      }
    case RunWrite(run, fault) =>
      if RunAt(m, run, true) {
        RunWriteKeeps(m, run, fault);
      }
    case StartReapply(rule, from) => StartReapplyKeeps(m, rule, from);
    case ReapplyDecide(i, fault) =>
      if ReapplyAt(m, i, false) {
        ReapplyDecideKeeps(m, i, fault);
      }
    case ReapplyWrite(i, fault) =>
      if ReapplyAt(m, i, true) {
        ReapplyWriteKeeps(m, i, fault);
      }
    case Assign(id, request, thisYear, fault) => AssignKeeps(m, id, request, thisYear, fault);
    case Unassign(id, fault) => UnassignKeeps(m, id, fault);
    case NewRule(definition) => NewRuleKeeps(m, definition);
    case EditRule(rule, definition) => EditRuleKeeps(m, rule, definition);
    case RemoveRule(rule) => RemoveRuleKeeps(m, rule);
    case Arrive(rt) => ArriveKeeps(m, rt);
    case Crash =>
    case Refresh(env, members, categories) => RefreshKeeps(m, env, members, categories);
  }

  /** Safety over every run in which re-applies do not overlap. */
  lemma {:induction false} EveryReachableLedgerOk(m: Machine, actions: seq<Action>)
    requires MachineOk(m) && OneAtATime(m, actions)
    ensures MachineOk(Execute(m, actions))
    decreases |actions|
  {
    if actions != [] {
      NextKeeps(m, actions[0]);
      EveryReachableLedgerOk(Next(m, actions[0]), actions[1..]);
    }
  }

  /** The rules the database is seeded with: the two built-in ones and two patterns. */
  const SEEDED_RULES: map<int, Rule> := map[
    1 := Rule(1, 100, OwnAccount, INTERNAL_TRANSFER, true, None, None, None, None, None, None),
    2 := Rule(2, 200, Pattern, CREDITED_INTEREST, true, None, None, None, None, Some("úrok"), None),
    3 := Rule(3, 300, MemberVariableSymbol, MEMBERSHIP_FEE, true, None, None, None, None, None, None),
    4 := Rule(4, 500, Pattern, SALARY, true, None, None, None, Some("mzda"), None, None)]

  /** The seeded database, before any transaction. */
  function Seeded(env: Env, members: set<int>, categories: set<CategoryId>): Machine {
    Machine(Tables(map[], 1, map[], 1, map[], SEEDED_RULES, 5, env, members, categories), [], [])
  }

  /** From the seeded database on: one processed row per raw transaction, coverage that
      credits the row's own member, and on automatic rows exactly the default coverage. */
  lemma LedgerSafety(env: Env, members: set<int>, categories: set<CategoryId>, actions: seq<Action>)
    requires OneAtATime(Seeded(env, members, categories), actions)
    ensures var t := Execute(Seeded(env, members, categories), actions).t;
            && (forall a, b :: a in t.rows && b in t.rows && t.rows[a].raw == t.rows[b].raw ==> a == b)
            && (forall id :: id in t.rows ==> t.rows[id].raw in t.raws)
            && (forall key :: key in t.coverage ==> key.row in t.rows && t.rows[key.row].member == Some(t.coverage[key]))
            && (forall id :: id in t.rows && t.rows[id].matchedBy == Some(ByHand) ==> t.rows[id].setManually)
            && (forall id, month :: id in t.rows && !t.rows[id].setManually ==>
                  (CoverKey(id, month) in t.coverage <==>
                   t.rows[id].member.Some? && month == DefaultCoveredMonth(t.raws[t.rows[id].raw].date)))
  {
    var m := Seeded(env, members, categories);
    EveryReachableLedgerOk(m, actions);
    var t := Execute(m, actions).t;
    forall id | id in t.rows
      ensures t.rows[id].matchedBy == Some(ByHand) ==> t.rows[id].setManually
      ensures forall month :: !t.rows[id].setManually ==>
                (CoverKey(id, month) in t.coverage <==>
                 t.rows[id].member.Some? && month == DefaultCoveredMonth(t.raws[t.rows[id].raw].date))
    {
      assert AutomaticOk(t, id);
    }
  }

  // ---- Rows set by hand ----

  ghost predicate Touches(a: Action, id: int) {
    (a.Assign? && a.id == id) || (a.Unassign? && a.id == id)
  }

  /** Unchanged, except that deleting a rule clears the reference to it. */
  ghost predicate SameRow(row: Row, row': Row) {
    row' == row || row' == row.(rule := None)
  }

  ghost predicate CoverageHasRows(t: Tables) {
    forall key :: key in t.coverage ==> key.row in t.rows
  }

  /** Row `id` and its coverage come through; `exactly` when no rule was deleted. */
  ghost predicate HandKept(t: Tables, t': Tables, id: int, exactly: bool) {
    && RowsNumbered(t') && CoverageHasRows(t') && id in t.rows && id in t'.rows
    && SameRow(t.rows[id], t'.rows[id]) && (exactly ==> t'.rows[id] == t.rows[id])
    && SameCoverage(t, t', id)
  }

  lemma HandKeptByAssign(t: Tables, id: int, req: AssignRequest, thisYear: int, fault: Fault, hand: int)
    requires RowsNumbered(t) && CoverageHasRows(t) && hand in t.rows && hand != id
    ensures HandKept(t, AssignRow(t, id, req, thisYear, fault), hand, true)
  {
    if AssignResponse(t, id, req, thisYear, fault) == Ok && req.member.Some? {
      CoversSameRow(DeleteCoverage(t.coverage, id), id, AssignedMonths(t, id, req), req.member.value);
    }
  }

  lemma HandKeptByUnassign(t: Tables, id: int, fault: Fault, hand: int)
    requires RowsNumbered(t) && CoverageHasRows(t) && hand in t.rows && hand != id
    ensures HandKept(t, UnassignRow(t, id, fault), hand, true)
  {
  }

  lemma HandKeptByNew(t: Tables, raw: int, o: Outcome, fault: Fault, hand: int)
    requires RowsNumbered(t) && CoverageHasRows(t) && hand in t.rows && raw in t.raws
    ensures HandKept(t, WriteNew(t, raw, o, fault), hand, true)
  {
  }

  lemma HandKeptByChange(t: Tables, c: Candidate, o: Outcome, fault: Fault, hand: int)
    requires RowsNumbered(t) && CoverageHasRows(t) && hand in t.rows && t.rows[hand].ByHand()
    ensures HandKept(t, WriteChange(t, c, o, fault), hand, true)
  {
  }

  lemma HandKeptByDelete(t: Tables, rule: int, hand: int)
    requires RowsNumbered(t) && CoverageHasRows(t) && hand in t.rows
    ensures HandKept(t, DeleteRule(t, rule), hand, false)
  {
  }

  lemma HandRowSurvivesStep(m: Machine, a: Action, id: int)
    requires RowsNumbered(m.t) && CoverageHasRows(m.t) && id in m.t.rows && m.t.rows[id].ByHand() && !Touches(a, id)
    ensures HandKept(m.t, Next(m, a).t, id, !a.RemoveRule?)
  {
    match a
    case StartRun =>
    case RunDecide(run, fault) =>
    case RunWrite(run, fault) =>
      if RunAt(m, run, true) {
        HandKeptByNew(m.t, m.runs[run].pending[0], m.runs[run].decided.value, fault, id);
      }
    case StartReapply(rule, from) =>
    case ReapplyDecide(i, fault) =>
    case ReapplyWrite(i, fault) =>
      if ReapplyAt(m, i, true) {
        HandKeptByChange(m.t, m.reapplies[i].pending[0], m.reapplies[i].decided.value, fault, id);
      }
    case Assign(row, request, thisYear, fault) => HandKeptByAssign(m.t, row, request, thisYear, fault, id);
    case Unassign(row, fault) => HandKeptByUnassign(m.t, row, fault, id);
    case NewRule(definition) =>
    case EditRule(rule, definition) =>
    case RemoveRule(rule) => HandKeptByDelete(m.t, rule, id);
    case Arrive(rt) =>
    case Crash =>
    case Refresh(env, members, categories) =>
  }

  lemma {:induction false} CoversSameRow(coverage: map<CoverKey, int>, row: int, months: seq<YearMonth>, member: int)
    ensures var c := InsertCovers(coverage, row, months, member);
            && (forall key :: key in c ==> key in coverage || key.row == row)
            && (forall key :: key in coverage ==> key in c && c[key] == coverage[key])
  {
    if months != [] {
      CoversSameRow(coverage, row, months[..|months| - 1], member);
    }
  }

  /** No interleaving of runs and re-applies, however many overlap, changes a row set by
      hand or its coverage until that row itself is assigned or unassigned. */
  lemma {:induction false} HandRowStays(m: Machine, actions: seq<Action>, id: int)
    requires RowsNumbered(m.t) && CoverageHasRows(m.t) && id in m.t.rows && m.t.rows[id].ByHand()
    requires forall a :: a in actions ==> !Touches(a, id)
    ensures var t' := Execute(m, actions).t;
            && id in t'.rows && SameRow(m.t.rows[id], t'.rows[id]) && SameCoverage(m.t, t', id)
            && ((forall a :: a in actions ==> !a.RemoveRule?) ==> t'.rows[id] == m.t.rows[id])
    decreases |actions|
  {
    if actions != [] {
      assert actions[0] in actions && forall a :: a in actions[1..] ==> a in actions;
      HandRowSurvivesStep(m, actions[0], id);
      HandRowStays(Next(m, actions[0]), actions[1..], id);
    }
  }
}
