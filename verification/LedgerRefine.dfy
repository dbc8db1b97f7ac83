/** Re-applying a rule while runs and manual assignments go on: when the last candidate is done,
    every automatic row is as the new chain decides it, as long as the chain stays put and
    no run that loaded an older chain is still at work. */
module LedgerRefine {
  import opened Options
  import opened Calendar
  import opened Categorization
  import opened Ledger
  import opened LedgerInvariant
  import opened LedgerMachine
  import opened Reapply

  function Chain(t: Tables): seq<Rule> {
    EnabledBelow(t.rules, t.nextRule)
  }

  /** The run is over, or works with the current chain, and what it decided is what the chain decides. */
  ghost predicate RunCurrent(t: Tables, run: RunJob) {
    run.pending != [] ==>
      && run.rules == Chain(t) && run.accounts == t.env.accounts
      && (run.decided.Some? && run.pending[0] in t.raws ==>
            Walk(Chain(t), t.raws[run.pending[0]], DirectionOf(t.raws[run.pending[0]].amount), t.env, NoFault)
            == Matched(run.decided.value))
  }

  ghost predicate RowAgrees(t: Tables, id: int)
    requires id in t.rows && t.rows[id].raw in t.raws
  {
    Agrees(t.rows[id], t.raws[t.rows[id].raw], Chain(t), t.env)
  }

  /** A candidate still to be handled: its row was set by hand since, or is as listed and as the old chain decided. */
  ghost predicate Waiting(t: Tables, c: Candidate, from: Date, previous: seq<Rule>) {
    && c.id in t.rows && t.rows[c.id].raw in t.raws
    && (t.rows[c.id].ByHand() ||
        (Listed(t, c.id, from) && c == CandidateOf(t, c.id) && Agrees(t.rows[c.id], c.rt, previous, t.env)))
  }

  /** Half way through the re-apply `j`: every automatic row agrees with the new chain or is still to be handled. */
  ghost predicate Refining(m: Machine, j: nat, rule: int, from: Date, previous: seq<Rule>) {
    && MachineOk(m) && j < |m.reapplies| && rule in m.t.rules
    && m.reapplies[j].job == JobFor(m.t, rule)
    && (forall i :: 0 <= i < |m.runs| ==> RunCurrent(m.t, m.runs[i]))
    && (forall c :: c in m.reapplies[j].pending ==> Waiting(m.t, c, from, previous))
    && (forall id :: Listed(m.t, id, from) ==> RowAgrees(m.t, id) || Mentions(m.reapplies[j].pending, id))
    && (m.reapplies[j].decided.Some? ==>
          && m.reapplies[j].pending != []
          && ReapplyDecision(m.t, m.reapplies[j].job, m.reapplies[j].pending[0], NoFault) == Matched(m.reapplies[j].decided.value))
  }

  /** Runs, assignments and arrivals go on, and the re-apply proceeds without failure; nobody changes the
      chain, the identifiers or our accounts, unassigns a row or starts another re-apply. */
  ghost predicate Undisturbed(m: Machine, a: Action, j: nat) {
    match a
    case StartRun => true
    case RunDecide(_, _) => true
    case RunWrite(_, _) => true
    case Assign(_, _, _, _) => true
    case Arrive(_) => true
    case ReapplyDecide(i, fault) => i == j && !fault.LookupFault?
    case ReapplyWrite(i, fault) =>
      && i == j && !fault.LookupFault?
      && (ReapplyAt(m, j, true) ==> !WriteEffect(m.t, m.reapplies[j].pending[0], m.reapplies[j].decided.value, fault).CountsFailed())
    case _ => false
  }

  ghost predicate AllUndisturbed(m: Machine, actions: seq<Action>, j: nat)
    decreases |actions|
  {
    actions != [] ==> Undisturbed(m, actions[0], j) && AllUndisturbed(Next(m, actions[0]), actions[1..], j)
  }

  // ---- One row ----

  /** A candidate still as listed, handled without failure, ends as the new chain decides. */
  lemma HandledAgrees(t: Tables, rule: int, c: Candidate, from: Date, fault: Fault, previous: seq<Rule>)
    requires RulesOk(t) && Ordered(previous) && IdsUnique(previous) && rule in t.rules && t.rules[rule].enabled
    requires AddedOrMovedEarlier(previous, Chain(t), t.rules[rule])
    requires Listed(t, c.id, from) && c == CandidateOf(t, c.id) && Agrees(t.rows[c.id], c.rt, previous, t.env)
    requires !ReapplyEffect(t, JobFor(t, rule), c, fault).CountsFailed()
    ensures Agrees(ReapplyRow(t, JobFor(t, rule), c, fault).rows[c.id], c.rt, Chain(t), t.env)
  {
    var (rules, target, rt, d) := (Chain(t), t.rules[rule], c.rt, c.direction);
    EnabledInOrder(t.rules, t.nextRule);
    if DecidedBy(previous, rt, d, t.env, rule) {
      var was :| Decides(previous, was, rt, d, t.env) && was.id == rule;
      StillDecides(previous, rules, was, target, rt, d, t.env);
    }
    RowAgreesExact(t, c.id, JobFor(t, rule), from, fault, previous, t.env);
  }

  lemma StillDecides(previous: seq<Rule>, rules: seq<Rule>, was: Rule, target: Rule, rt: RawTransaction, d: Direction, env: Env)
    requires AddedOrMovedEarlier(previous, rules, target) && was.id == target.id && Decides(previous, was, rt, d, env)
    requires forall q :: q in rules && q.id == target.id ==> q == target
    ensures Decides(rules, target, rt, d, env)
  {
    forall q | q in rules && Matches(q, rt, d, env) && q != target ensures Precedes(target, q) {
      assert q.id != target.id && q in previous;
    }
  }

  /** A lookup that fails can only stop the walk, not change what it finds. */
  lemma {:induction false} WalkUnderFault(rules: seq<Rule>, rt: RawTransaction, d: Direction, env: Env, fault: Fault)
    ensures Walk(rules, rt, d, env, fault).Matched? ==> Walk(rules, rt, d, env, NoFault) == Walk(rules, rt, d, env, fault)
  {
    if rules != [] {
      WalkUnderFault(rules[1..], rt, d, env, fault);
    }
  }

  // ---- What the other actions leave alone ----

  ghost predicate Extends(t: Tables, t': Tables) {
    && t'.rules == t.rules && t'.nextRule == t.nextRule && t'.env == t.env
    && forall raw :: raw in t.raws ==> raw in t'.raws && t'.raws[raw] == t.raws[raw]
  }

  /** The row is the same, or set by hand now. */
  ghost predicate KeptOrHand(t: Tables, t': Tables, id: int)
    requires id in t.rows
  {
    id in t'.rows && (t'.rows[id] == t.rows[id] || (t'.rows[id].ByHand() && t'.rows[id].raw == t.rows[id].raw))
  }

  lemma WaitingStays(t: Tables, t': Tables, c: Candidate, from: Date, previous: seq<Rule>)
    requires Extends(t, t') && Waiting(t, c, from, previous) && KeptOrHand(t, t', c.id)
    ensures Waiting(t', c, from, previous)
  {
  }

  lemma AgreementStays(t: Tables, t': Tables, id: int, from: Date)
    requires Extends(t, t') && id in t.rows && t.rows[id].raw in t.raws && KeptOrHand(t, t', id) && Listed(t', id, from)
    ensures Listed(t, id, from) && (RowAgrees(t, id) ==> RowAgrees(t', id))
  {
  }

  lemma RunStaysCurrent(t: Tables, t': Tables, run: RunJob)
    requires Extends(t, t') && RunCurrent(t, run) && forall raw :: raw in run.pending ==> raw in t.raws
    ensures RunCurrent(t', run)
  {
    assert Chain(t') == Chain(t);
    if run.decided.Some? && run.pending != [] {
      var raw := run.pending[0];
      assert raw in run.pending && t'.raws[raw] == t.raws[raw];
    }
  }

  lemma DecisionStays(t: Tables, t': Tables, job: Job, c: Candidate)
    requires Extends(t, t')
    ensures ReapplyDecision(t', job, c, NoFault) == ReapplyDecision(t, job, c, NoFault)
  {
  }

  /** An action outside the re-apply that keeps rows or sets them by hand, and stores only what the chain decides. */
  lemma OthersKeepRefining(m: Machine, m': Machine, j: nat, rule: int, from: Date, previous: seq<Rule>)
    requires Refining(m, j, rule, from, previous) && MachineOk(m') && Extends(m.t, m'.t) && m'.reapplies == m.reapplies
    requires forall id :: id in m.t.rows ==> KeptOrHand(m.t, m'.t, id)
    requires forall id :: id in m'.t.rows && id !in m.t.rows ==> m'.t.rows[id].raw in m'.t.raws && RowAgrees(m'.t, id)
    requires forall i :: 0 <= i < |m'.runs| ==> RunCurrent(m'.t, m'.runs[i])
    ensures Refining(m', j, rule, from, previous)
  {
    hide MachineOk, RowAgrees, ReapplyDecision, KeptOrHand;
    forall c | c in m.reapplies[j].pending ensures Waiting(m'.t, c, from, previous) {
      WaitingStays(m.t, m'.t, c, from, previous);
    }
    forall id | Listed(m'.t, id, from) ensures RowAgrees(m'.t, id) || Mentions(m.reapplies[j].pending, id) {
      if id in m.t.rows {
        RowHasRaw(m, id);
        AgreementStays(m.t, m'.t, id, from);
      }
    }
    if m.reapplies[j].decided.Some? {
      DecisionStays(m.t, m'.t, m.reapplies[j].job, m.reapplies[j].pending[0]);
    }
  }

  lemma RowHasRaw(m: Machine, id: int)
    requires MachineOk(m) && id in m.t.rows
    ensures m.t.rows[id].raw in m.t.raws
  {
  }

  // ---- Each action ----

  lemma RunPendingKnown(m: Machine, i: nat)
    requires MachineOk(m) && i < |m.runs|
    ensures forall raw :: raw in m.runs[i].pending ==> raw in m.t.raws
  {
    assert RunOk(m.t, m.runs[i]);
  }

  lemma RunsStayCurrent(m: Machine, t': Tables)
    requires MachineOk(m) && Extends(m.t, t') && forall i :: 0 <= i < |m.runs| ==> RunCurrent(m.t, m.runs[i])
    ensures forall i :: 0 <= i < |m.runs| ==> RunCurrent(t', m.runs[i])
  {
    hide MachineOk, RunCurrent;
    forall i | 0 <= i < |m.runs| ensures RunCurrent(t', m.runs[i]) {
      RunPendingKnown(m, i);
      RunStaysCurrent(m.t, t', m.runs[i]);
    }
  }

  lemma StoreExtends(t: Tables, raw: int, o: Outcome, fault: Fault, id: int)
    requires RowsOk(t) && raw in t.raws
    ensures var t' := WriteNew(t, raw, o, fault);
            && Extends(t, t') && (id in t.rows ==> KeptOrHand(t, t', id))
            && (id in t'.rows && id !in t.rows ==>
                  t'.rows[id].raw == raw && raw in t'.raws && t'.rows[id].direction == DirectionOf(t.raws[raw].amount) && t'.rows[id].Decided() == o)
  {
  }

  lemma RunDecideRefines(m: Machine, j: nat, rule: int, from: Date, previous: seq<Rule>, run: nat, fault: Fault)
    requires Refining(m, j, rule, from, previous) && MachineOk(Next(m, RunDecide(run, fault)))
    ensures Refining(Next(m, RunDecide(run, fault)), j, rule, from, previous)
  {
    var m' := Next(m, RunDecide(run, fault));
    if RunAt(m, run, false) {
      var (job, raw) := (m.runs[run], m.runs[run].pending[0]);
      var rt := m.t.raws[raw];
      assert RunCurrent(m.t, job);
      WalkUnderFault(job.rules, rt, DirectionOf(rt.amount), m.t.env, fault);
      assert RunCurrent(m.t, m'.runs[run]);
    }
    OthersKeepRefining(m, m', j, rule, from, previous);
  }

  lemma RunWriteRefines(m: Machine, j: nat, rule: int, from: Date, previous: seq<Rule>, run: nat, fault: Fault)
    requires Refining(m, j, rule, from, previous) && MachineOk(Next(m, RunWrite(run, fault)))
    ensures Refining(Next(m, RunWrite(run, fault)), j, rule, from, previous)
  {
    hide MachineOk, KeptOrHand;
    var m' := Next(m, RunWrite(run, fault));
    if RunAt(m, run, true) {
      var (job, raw) := (m.runs[run], m.runs[run].pending[0]);
      assert RunCurrent(m.t, job);
      LedgerPart(m);
      forall id ensures id in m.t.rows ==> KeptOrHand(m.t, m'.t, id)
                ensures id in m'.t.rows && id !in m.t.rows ==> m'.t.rows[id].raw in m'.t.raws && RowAgrees(m'.t, id)
                ensures Extends(m.t, m'.t)
      {
        StoreExtends(m.t, raw, job.decided.value, fault, id);
      }
      StoreExtends(m.t, raw, job.decided.value, fault, 0);
      RunsStayCurrent(m, m'.t);
      assert RunCurrent(m'.t, m'.runs[run]);
      OthersKeepRefining(m, m', j, rule, from, previous);
    }
  }

  lemma LedgerPart(m: Machine)
    requires MachineOk(m)
    ensures RowsOk(m.t) && RulesOk(m.t)
  {
  }

  lemma AssignExtends(t: Tables, id: int, request: AssignRequest, thisYear: int, fault: Fault, row: int)
    ensures var t' := AssignRow(t, id, request, thisYear, fault);
            Extends(t, t') && t'.rows.Keys == t.rows.Keys && (row in t.rows ==> KeptOrHand(t, t', row))
  {
  }

  lemma AssignRefines(m: Machine, j: nat, rule: int, from: Date, previous: seq<Rule>, a: Action)
    requires a.Assign? && Refining(m, j, rule, from, previous) && MachineOk(Next(m, a))
    ensures Refining(Next(m, a), j, rule, from, previous)
  {
    hide MachineOk, KeptOrHand, AssignRow;
    var m' := Next(m, a);
    forall id ensures id in m.t.rows ==> KeptOrHand(m.t, m'.t, id) ensures Extends(m.t, m'.t) && m'.t.rows.Keys == m.t.rows.Keys {
      AssignExtends(m.t, a.id, a.request, a.thisYear, a.fault, id);
    }
    AssignExtends(m.t, a.id, a.request, a.thisYear, a.fault, 0);
    RunsStayCurrent(m, m'.t);
    OthersKeepRefining(m, m', j, rule, from, previous);
  }

  lemma ArriveRefines(m: Machine, j: nat, rule: int, from: Date, previous: seq<Rule>, rt: RawTransaction)
    requires Refining(m, j, rule, from, previous) && MachineOk(Next(m, Arrive(rt)))
    ensures Refining(Next(m, Arrive(rt)), j, rule, from, previous)
  {
    hide MachineOk;
    LedgerPart(m);
    RunsStayCurrent(m, Next(m, Arrive(rt)).t);
    OthersKeepRefining(m, Next(m, Arrive(rt)), j, rule, from, previous);
  }

  lemma StartRunRefines(m: Machine, j: nat, rule: int, from: Date, previous: seq<Rule>)
    requires Refining(m, j, rule, from, previous) && MachineOk(Next(m, StartRun))
    ensures Refining(Next(m, StartRun), j, rule, from, previous)
  {
    hide MachineOk;
    OthersKeepRefining(m, Next(m, StartRun), j, rule, from, previous);
  }

  /** The candidate at the head is done: its row agrees, or is set by hand. */
  lemma HeadDone(m: Machine, m': Machine, j: nat, rule: int, from: Date, previous: seq<Rule>)
    requires Refining(m, j, rule, from, previous) && MachineOk(m') && m.reapplies[j].pending != []
    requires m' == m.(t := m'.t, reapplies := m.reapplies[j := m.reapplies[j].(pending := m.reapplies[j].pending[1..], decided := None)])
    requires Extends(m.t, m'.t) && m'.t.rows.Keys == m.t.rows.Keys
    requires var c := m.reapplies[j].pending[0];
             && c.id in m.t.rows
             && (forall id :: id in m.t.rows && id != c.id ==> m'.t.rows[id] == m.t.rows[id])
             && (Listed(m'.t, c.id, from) ==> RowAgrees(m'.t, c.id))
    ensures Refining(m', j, rule, from, previous)
  {
    hide MachineOk, RowAgrees, ReapplyDecision;
    var (pending, c) := (m.reapplies[j].pending, m.reapplies[j].pending[0]);
    RunsStayCurrent(m, m'.t);
    HeadIsAlone(m, j);
    forall d | d in pending[1..] ensures Waiting(m'.t, d, from, previous) {
      assert d in pending;
      WaitingStays(m.t, m'.t, d, from, previous);
    }
    forall id | Listed(m'.t, id, from) ensures RowAgrees(m'.t, id) || Mentions(pending[1..], id) {
      if id != c.id {
        RowHasRaw(m, id);
        AgreementStays(m.t, m'.t, id, from);
        if Mentions(pending, id) {
          var d :| d in pending && d.id == id;
          assert d in pending[1..];
        }
      }
    }
  }

  lemma HeadIsAlone(m: Machine, j: nat)
    requires MachineOk(m) && j < |m.reapplies| && m.reapplies[j].pending != []
    ensures forall d :: d in m.reapplies[j].pending[1..] ==> d.id != m.reapplies[j].pending[0].id
  {
    assert ReapplyOk(m.t, m.reapplies[j]);
    var pending := m.reapplies[j].pending;
    forall d | d in pending[1..] ensures d.id != pending[0].id {
      var n :| 0 <= n < |pending[1..]| && pending[1..][n] == d;
      assert pending[n + 1] == d;
    }
  }

  ghost predicate Qualifies(t: Tables, rule: int, previous: seq<Rule>) {
    && Ordered(previous) && IdsUnique(previous) && rule in t.rules && t.rules[rule].enabled
    && AddedOrMovedEarlier(previous, Chain(t), t.rules[rule])
  }

  lemma ReapplyDecideRefines(m: Machine, j: nat, rule: int, from: Date, previous: seq<Rule>, fault: Fault)
    requires Refining(m, j, rule, from, previous) && Qualifies(m.t, rule, previous) && !fault.LookupFault?
    requires MachineOk(Next(m, ReapplyDecide(j, fault)))
    ensures Refining(Next(m, ReapplyDecide(j, fault)), j, rule, from, previous)
  {
    if ReapplyAt(m, j, false) {
      hide MachineOk;
      var (m', c, job) := (Next(m, ReapplyDecide(j, fault)), m.reapplies[j].pending[0], JobFor(m.t, rule));
      DecisionWithoutLookupFault(m.t, job, c, fault);
      assert c in m.reapplies[j].pending && Waiting(m.t, c, from, previous);
      if !ReapplyDecision(m.t, job, c, fault).Matched? {
        if Listed(m.t, c.id, from) {
          LedgerPart(m);
          ReapplyIsDecideThenWrite(m.t, job, c, fault);
          HandledAgrees(m.t, rule, c, from, fault, previous);
        }
        HeadDone(m, m', j, rule, from, previous);
      }
    }
  }

  lemma DecisionWithoutLookupFault(t: Tables, job: Job, c: Candidate, fault: Fault)
    requires !fault.LookupFault?
    ensures ReapplyDecision(t, job, c, fault) == ReapplyDecision(t, job, c, NoFault)
    ensures !ReapplyDecision(t, job, c, fault).LookupFailed?
    ensures !ReapplyDecision(t, job, c, fault).Matched? ==> ReapplyEffect(t, job, c, fault) == Unchanged
    ensures ReapplyDecision(t, job, c, fault).Matched? ==>
              ReapplyEffect(t, job, c, fault) == WriteEffect(t, c, ReapplyDecision(t, job, c, fault).outcome, fault)
  {
  }

  lemma ReapplyWriteRefines(m: Machine, j: nat, rule: int, from: Date, previous: seq<Rule>, fault: Fault)
    requires Refining(m, j, rule, from, previous) && Qualifies(m.t, rule, previous) && Undisturbed(m, ReapplyWrite(j, fault), j)
    requires MachineOk(Next(m, ReapplyWrite(j, fault)))
    ensures Refining(Next(m, ReapplyWrite(j, fault)), j, rule, from, previous)
  {
    if ReapplyAt(m, j, true) {
      hide MachineOk;
      var (m', c, job) := (Next(m, ReapplyWrite(j, fault)), m.reapplies[j].pending[0], JobFor(m.t, rule));
      DecisionWithoutLookupFault(m.t, job, c, fault);
      assert c in m.reapplies[j].pending && Waiting(m.t, c, from, previous);
      WriteChangesHead(m.t, c, m.reapplies[j].decided.value, fault);
      if Listed(m.t, c.id, from) {
        LedgerPart(m);
        ReapplyIsDecideThenWrite(m.t, job, c, fault);
        HandledAgrees(m.t, rule, c, from, fault, previous);
      }
      HeadDone(m, m', j, rule, from, previous);
    }
  }

  lemma WriteChangesHead(t: Tables, c: Candidate, o: Outcome, fault: Fault)
    requires c.id in t.rows
    ensures var t' := WriteChange(t, c, o, fault);
            && Extends(t, t') && t'.rows.Keys == t.rows.Keys && t'.rows[c.id].raw == t.rows[c.id].raw
            && t'.rows[c.id].direction == t.rows[c.id].direction
            && (t.rows[c.id].ByHand() ==> t' == t)
            && (forall id :: id in t.rows && id != c.id ==> t'.rows[id] == t.rows[id])
  {
  }

  lemma QualifiesStays(m: Machine, a: Action, j: nat, rule: int, from: Date, previous: seq<Rule>)
    requires Refining(m, j, rule, from, previous) && Undisturbed(m, a, j) && Qualifies(m.t, rule, previous)
    ensures Qualifies(Next(m, a).t, rule, previous) && Chain(Next(m, a).t) == Chain(m.t)
  {
    hide MachineOk, AddedOrMovedEarlier;
    match a
    case RunWrite(run, fault) =>
      if RunAt(m, run, true) {
        LedgerPart(m);
        StoreExtends(m.t, m.runs[run].pending[0], m.runs[run].decided.value, fault, 0);
      }
    case Assign(id, request, thisYear, fault) => AssignExtends(m.t, id, request, thisYear, fault, 0);
    case _ =>
  }

  lemma StepRefines(m: Machine, a: Action, j: nat, rule: int, from: Date, previous: seq<Rule>)
    requires Refining(m, j, rule, from, previous) && Qualifies(m.t, rule, previous) && Undisturbed(m, a, j)
    ensures Refining(Next(m, a), j, rule, from, previous)
  {
    hide Qualifies, WriteEffect;
    NextKeeps(m, a);
    hide MachineOk;
    match a
    case StartRun => StartRunRefines(m, j, rule, from, previous);
    case RunDecide(run, fault) => RunDecideRefines(m, j, rule, from, previous, run, fault);
    case RunWrite(run, fault) => RunWriteRefines(m, j, rule, from, previous, run, fault);
    case ReapplyDecide(_, fault) => ReapplyDecideRefines(m, j, rule, from, previous, fault);
    case ReapplyWrite(_, fault) => ReapplyWriteRefines(m, j, rule, from, previous, fault);
    case Assign(_, _, _, _) => AssignRefines(m, j, rule, from, previous, a);
    case Arrive(rt) => ArriveRefines(m, j, rule, from, previous, rt);
    case _ =>
  }

  lemma {:induction false} StepsRefine(m: Machine, actions: seq<Action>, j: nat, rule: int, from: Date, previous: seq<Rule>)
    requires Refining(m, j, rule, from, previous) && Qualifies(m.t, rule, previous) && AllUndisturbed(m, actions, j)
    ensures Refining(Execute(m, actions), j, rule, from, previous) && Chain(Execute(m, actions).t) == Chain(m.t)
    decreases |actions|
  {
    if actions != [] {
      hide Refining, Qualifies, Undisturbed, Next;
      StepRefines(m, actions[0], j, rule, from, previous);
      QualifiesStays(m, actions[0], j, rule, from, previous);
      StepsRefine(Next(m, actions[0]), actions[1..], j, rule, from, previous);
    }
  }

  /** When the listing is taken, every candidate is still to be handled. */
  lemma StartRefines(m: Machine, rule: int, from: Date, previous: seq<Rule>)
    requires MachineOk(m) && Idle(m) && rule in m.t.rules && m.t.rules[rule].enabled
    requires forall i :: 0 <= i < |m.runs| ==> RunCurrent(m.t, m.runs[i])
    requires forall id :: Listed(m.t, id, from) ==> Agrees(m.t.rows[id], m.t.raws[m.t.rows[id].raw], previous, m.t.env)
    ensures Refining(Next(m, StartReapply(rule, from)), |m.reapplies|, rule, from, previous)
  {
    NextKeeps(m, StartReapply(rule, from));
    CandidatesExact(m.t, m.t.nextRow, from);
    LedgerPart(m);
    forall id | Listed(m.t, id, from) ensures Mentions(CandidatesBelow(m.t, m.t.nextRow, from), id) {
      assert CandidateOf(m.t, id) in CandidatesBelow(m.t, m.t.nextRow, from);
    }
  }

  /** A rule was added, enabled or moved earlier; runs of the old chain have ended, and the automatic
      rows dated on or after `from` are as the old chain decided them. The rule is re-applied while runs,
      assignments and arrivals go on in any order. Once its last candidate is handled, every automatic
      row from `from` on, old or new, is as the new chain decides it. */
  lemma ReapplyRefinesInterleaved(m: Machine, rule: int, from: Date, actions: seq<Action>, previous: seq<Rule>)
    requires MachineOk(m) && Idle(m) && Qualifies(m.t, rule, previous)
    requires forall i :: 0 <= i < |m.runs| ==> RunCurrent(m.t, m.runs[i])
    requires forall id :: Listed(m.t, id, from) ==> Agrees(m.t.rows[id], m.t.raws[m.t.rows[id].raw], previous, m.t.env)
    requires AllUndisturbed(Next(m, StartReapply(rule, from)), actions, |m.reapplies|)
    ensures var m' := Execute(Next(m, StartReapply(rule, from)), actions);
            && |m.reapplies| < |m'.reapplies| && Chain(m'.t) == Chain(m.t)
            && (m'.reapplies[|m.reapplies|].pending == [] ==> forall id :: Listed(m'.t, id, from) ==> RowAgrees(m'.t, id))
  {
    StartRefines(m, rule, from, previous);
    StepsRefine(Next(m, StartReapply(rule, from)), actions, |m.reapplies|, rule, from, previous);
  }
}
