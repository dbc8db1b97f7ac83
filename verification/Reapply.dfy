/** Re-applying one rule to history: what it changes, that doing it twice is doing it
    once, and exactly when it agrees with re-running the whole rule chain. */
module Reapply {
  import opened Options
  import opened Calendar
  import opened Categorization
  import opened Ledger
  import opened LedgerInvariant

  // ---- Effect of a whole re-apply, row by row ----

  /** Everything a candidate's effect depends on besides its own row. */
  ghost predicate SameContext(t: Tables, t': Tables) {
    && t'.raws == t.raws && t'.nextRaw == t.nextRaw && t'.rules == t.rules && t'.nextRule == t.nextRule
    && t'.env == t.env && t'.categories == t.categories && t'.members == t.members
    && t'.nextRow == t.nextRow && t'.rows.Keys == t.rows.Keys
  }

  ghost predicate DistinctIds(cs: seq<Candidate>) {
    forall i, j :: 0 <= i < j < |cs| ==> cs[i].id != cs[j].id
  }

  ghost predicate Mentions(cs: seq<Candidate>, id: int) {
    exists c :: c in cs && c.id == id
  }

  lemma OneRowOnly(t: Tables, job: Job, c: Candidate, fault: Fault)
    requires c.id in t.rows
    ensures var t' := ReapplyRow(t, job, c, fault);
            && SameContext(t, t')
            && forall id :: id in t.rows && id != c.id ==> t'.rows[id] == t.rows[id] && SameCoverage(t, t', id)
  {
  }

  lemma EffectIsLocal(t: Tables, t': Tables, job: Job, c: Candidate, fault: Fault)
    requires SameContext(t, t') && c.id in t.rows && t'.rows[c.id] == t.rows[c.id]
    ensures ReapplyEffect(t', job, c, fault) == ReapplyEffect(t, job, c, fault)
    ensures ReapplyRow(t', job, c, fault).rows[c.id] == ReapplyRow(t, job, c, fault).rows[c.id]
  {
  }

  /** Candidates do not interfere: each row ends as if its candidate had been the only
      one, and every other row keeps its content and coverage. */
  lemma {:induction false} ReapplyRowsPointwise(t: Tables, job: Job, cs: seq<Candidate>, faults: map<int, Fault>)
    requires DistinctIds(cs) && forall c :: c in cs ==> c.id in t.rows
    ensures var t' := ReapplyRows(t, job, cs, faults).tables;
            && SameContext(t, t')
            && (forall id :: id in t.rows && !Mentions(cs, id) ==> t'.rows[id] == t.rows[id] && SameCoverage(t, t', id))
            && (forall c :: c in cs ==> t'.rows[c.id] == ReapplyRow(t, job, c, FaultAt(faults, c.id)).rows[c.id])
  {
    if cs != [] {
      var front, c := cs[..|cs| - 1], cs[|cs| - 1];
      assert forall d :: d in cs <==> d in front || d == c;
      ReapplyRowsPointwise(t, job, front, faults);
      var before := ReapplyRows(t, job, front, faults).tables;
      var after := ReapplyRows(t, job, cs, faults).tables;
      assert after == ReapplyRow(before, job, c, FaultAt(faults, c.id));
      hide ReapplyRow, ReapplyEffect, ReapplyRows;
      OneRowOnly(before, job, c, FaultAt(faults, c.id));
      EffectIsLocal(t, before, job, c, FaultAt(faults, c.id));
      forall id | id in t.rows && !Mentions(cs, id)
        ensures after.rows[id] == t.rows[id] && SameCoverage(t, after, id)
      {
        assert !Mentions(front, id) && id != c.id;
        assert SameCoverage(t, before, id) && SameCoverage(before, after, id);
      }
      forall d | d in cs
        ensures after.rows[d.id] == ReapplyRow(t, job, d, FaultAt(faults, d.id)).rows[d.id]
      {
        if d != c {
          assert d in front && d.id != c.id;
        }
      }
    }
  }

  /** What the counters tell about the single candidates. */
  lemma {:induction false} ReapplyCounters(t: Tables, job: Job, cs: seq<Candidate>, faults: map<int, Fault>)
    requires DistinctIds(cs) && forall c :: c in cs ==> c.id in t.rows
    ensures var p := ReapplyRows(t, job, cs, faults);
            && (p.failed == 0 ==> forall c :: c in cs ==> !ReapplyEffect(t, job, c, FaultAt(faults, c.id)).CountsFailed())
            && ((forall c :: c in cs ==> !ReapplyEffect(t, job, c, FaultAt(faults, c.id)).CountsChanged()) ==>
                  p.done == 0 && p.tables == t)
  {
    if cs != [] {
      var front, c := cs[..|cs| - 1], cs[|cs| - 1];
      assert forall d :: d in cs <==> d in front || d == c;
      ReapplyCounters(t, job, front, faults);
      ReapplyRowsPointwise(t, job, front, faults);
      assert !Mentions(front, c.id);
      EffectIsLocal(t, ReapplyRows(t, job, front, faults).tables, job, c, FaultAt(faults, c.id));
    }
  }

  /** The candidates that meet an effect, judged from the tables at the start. */
  function WithEffect(t: Tables, job: Job, cs: seq<Candidate>, faults: map<int, Fault>, effect: Effect): seq<Candidate> {
    if cs == [] then []
    else
      var c := cs[|cs| - 1];
      WithEffect(t, job, cs[..|cs| - 1], faults, effect)
      + if ReapplyEffect(t, job, c, FaultAt(faults, c.id)) == effect then [c] else []
  }

  lemma EffectOnRow(t: Tables, job: Job, c: Candidate, fault: Fault)
    requires c.id in t.rows
    ensures ReapplyRow(t, job, c, fault).rows[c.id]
            == if ReapplyEffect(t, job, c, fault) == Changed
               then t.rows[c.id].Redecided(OutcomeOf(job.target, c.rt, Env(t.env.identifiers, job.accounts)))
               else t.rows[c.id]
  {
  }

  /** The reported counters: rows rewritten, rows failed, and, in both, exactly the rows whose
      commit failed. So Changed exceeds the rows written by the failed commits, which leave
      their rows as they were. */
  lemma {:induction false} CountersExact(t: Tables, job: Job, cs: seq<Candidate>, faults: map<int, Fault>)
    requires DistinctIds(cs) && forall c :: c in cs ==> c.id in t.rows
    ensures var p := ReapplyRows(t, job, cs, faults);
            var commits := |WithEffect(t, job, cs, faults, CommitFailed)|;
            && p.tables.rows.Keys == t.rows.Keys
            && p.done == |WithEffect(t, job, cs, faults, Changed)| + commits
            && p.failed == |WithEffect(t, job, cs, faults, Failed)| + commits
            && (forall c :: c in cs && ReapplyEffect(t, job, c, FaultAt(faults, c.id)) != Changed ==> p.tables.rows[c.id] == t.rows[c.id])
            && (forall c :: c in cs && ReapplyEffect(t, job, c, FaultAt(faults, c.id)) == Changed ==>
                  p.tables.rows[c.id] == t.rows[c.id].Redecided(OutcomeOf(job.target, c.rt, Env(t.env.identifiers, job.accounts))))
  {
    ReapplyRowsPointwise(t, job, cs, faults);
    forall c | c in cs {
      EffectOnRow(t, job, c, FaultAt(faults, c.id));
    }
    if cs != [] {
      hide ReapplyEffect, ReapplyRow;
      var front, c := cs[..|cs| - 1], cs[|cs| - 1];
      assert forall d :: d in front ==> d in cs;
      CountersExact(t, job, front, faults);
      ReapplyRowsPointwise(t, job, front, faults);
      assert !Mentions(front, c.id);
      EffectIsLocal(t, ReapplyRows(t, job, front, faults).tables, job, c, FaultAt(faults, c.id));
    }
  }

  lemma CandidatesDistinct(t: Tables, from: Date)
    ensures var cs := CandidatesBelow(t, t.nextRow, from);
            DistinctIds(cs) && forall c :: c in cs ==> c.id in t.rows
  {
    CandidatesExact(t, t.nextRow, from);
  }

  /** Rows set by hand and rows of transactions dated before `from` come out untouched. */
  lemma ReapplyLeavesOlderRows(t: Tables, rule: int, from: Date, faults: map<int, Fault>, id: int)
    requires ReapplyAll(t, rule, from, faults).Reapplied? && id in t.rows && !Listed(t, id, from)
    ensures var t' := ReapplyAll(t, rule, from, faults).progress.tables;
            id in t'.rows && t'.rows[id] == t.rows[id] && SameCoverage(t, t', id) && SameContext(t, t')
  {
    CandidatesDistinct(t, from);
    CandidatesExact(t, t.nextRow, from);
    ReapplyRowsPointwise(t, JobFor(t, rule), CandidatesBelow(t, t.nextRow, from), faults);
  }

  // ---- Twice is once ----

  lemma SecondTimeNothing(t: Tables, once: Tables, job: Job, id: int, from: Date, fault: Fault, fault2: Fault)
    requires Listed(once, id, from) && Listed(t, id, from) && SameContext(t, once)
    requires OrderOf(job.rules, job.target.id).Some?
    requires var c := CandidateOf(t, id);
             !ReapplyEffect(t, job, c, fault).CountsFailed() && once.rows[id] == ReapplyRow(t, job, c, fault).rows[id]
    ensures !ReapplyEffect(once, job, CandidateOf(once, id), fault2).CountsChanged()
  {
  }

  /** What a second re-apply finds for one of its candidates. */
  lemma AgainUnchanged(t: Tables, rule: int, from: Date, faults: map<int, Fault>, id: int, fault2: Fault)
    requires RulesOk(t) && ReapplyAll(t, rule, from, faults).Reapplied? && ReapplyAll(t, rule, from, faults).progress.failed == 0
    requires 0 <= id < t.nextRow && Listed(ReapplyAll(t, rule, from, faults).progress.tables, id, from)
    ensures var once := ReapplyAll(t, rule, from, faults).progress.tables;
            !ReapplyEffect(once, JobFor(t, rule), CandidateOf(once, id), fault2).CountsChanged()
  {
    var job := JobFor(t, rule);
    var cs := CandidatesBelow(t, t.nextRow, from);
    CandidatesDistinct(t, from);
    CandidatesExact(t, t.nextRow, from);
    ReapplyRowsPointwise(t, job, cs, faults);
    ReapplyCounters(t, job, cs, faults);
    EnabledInOrder(t.rules, t.nextRule);
    OrderOfPosition(job.rules, job.target);
    assert !Listed(t, id, from) ==> !Mentions(cs, id);
    assert CandidateOf(t, id) in cs;
    SecondTimeNothing(t, ReapplyAll(t, rule, from, faults).progress.tables, job, id, from, FaultAt(faults, id), fault2);
  }

  /** After a re-apply without failures, an immediate second one changes no row, whatever fails in it. */
  lemma ReapplyIdempotent(t: Tables, rule: int, from: Date, faults: map<int, Fault>, faults2: map<int, Fault>)
    requires RulesOk(t) && RowsNumbered(t)
    requires ReapplyAll(t, rule, from, faults).Reapplied? && ReapplyAll(t, rule, from, faults).progress.failed == 0
    ensures var once := ReapplyAll(t, rule, from, faults).progress.tables;
            var again := ReapplyAll(once, rule, from, faults2);
            again.Reapplied? && again.progress.done == 0 && again.progress.tables == once
  {
    var job := JobFor(t, rule);
    var once := ReapplyAll(t, rule, from, faults).progress.tables;
    CandidatesDistinct(t, from);
    ReapplyRowsPointwise(t, job, CandidatesBelow(t, t.nextRow, from), faults);
    CandidatesDistinct(once, from);
    CandidatesExact(once, once.nextRow, from);
    forall c | c in CandidatesBelow(once, once.nextRow, from)
      ensures !ReapplyEffect(once, job, c, FaultAt(faults2, c.id)).CountsChanged()
    {
      AgainUnchanged(t, rule, from, faults, c.id, FaultAt(faults2, c.id));
    }
    ReapplyCounters(once, job, CandidatesBelow(once, once.nextRow, from), faults2);
  }

  // ---- Agreement with the whole chain ----

  ghost predicate IdsUnique(rules: seq<Rule>) {
    forall a, b :: a in rules && b in rules && a.id == b.id ==> a == b
  }

  lemma {:induction false} OrderOfPosition(rules: seq<Rule>, rule: Rule)
    requires Ordered(rules) && IdsUnique(rules)
    ensures var p := OrderOf(rules, rule.id);
            && (rule in rules ==> p.Some? && p.value < |rules| && rules[p.value] == rule)
            && (p.Some? ==> p.value < |rules| && rules[p.value].id == rule.id)
  {
    if rules != [] {
      var front := rules[..|rules| - 1];
      assert forall r :: r in rules <==> r in front || r == rules[|rules| - 1];
      OrderOfPosition(front, rule);
    }
  }

  ghost predicate Agrees(row: Row, rt: RawTransaction, rules: seq<Rule>, env: Env) {
    Walk(rules, rt, row.direction, env, NoFault) == Matched(row.Decided())
  }

  ghost predicate DecidedBy(rules: seq<Rule>, rt: RawTransaction, d: Direction, env: Env, id: int) {
    exists rule :: Decides(rules, rule, rt, d, env) && rule.id == id
  }

  /** Between two rule chains, only the rule `target` treats the transaction differently:
      it may be new, enabled, edited, moved, or see other identifiers and accounts. */
  ghost predicate OnlyDiffersAt(
    previous: seq<Rule>, previousEnv: Env, rules: seq<Rule>, env: Env, target: int, rt: RawTransaction, d: Direction)
  {
    && (forall q: Rule :: q.id != target ==> (q in previous <==> q in rules))
    && (forall q :: q in rules && q.id != target ==>
          && Matches(q, rt, d, previousEnv) == Matches(q, rt, d, env)
          && OutcomeOf(q, rt, previousEnv) == OutcomeOf(q, rt, env))
  }

  /** An earlier rule that decided before still decides. */
  lemma EarlierStays(
    previous: seq<Rule>, previousEnv: Env, rules: seq<Rule>, env: Env, target: Rule, o: Rule, rt: RawTransaction, d: Direction)
    requires IdsUnique(rules) && target in rules
    requires OnlyDiffersAt(previous, previousEnv, rules, env, target.id, rt, d)
    requires Decides(previous, o, rt, d, previousEnv) && o.id != target.id && Precedes(o, target)
    ensures Decides(rules, o, rt, d, env)
  {
    forall q | q in rules && Matches(q, rt, d, env) && q != o ensures Precedes(o, q) {
      if q.id == target.id {
        assert q == target;
      } else {
        assert q in previous;
      }
    }
  }

  /** A matching target takes over from a later rule or from the fallback. */
  lemma TargetTakesOver(
    previous: seq<Rule>, previousEnv: Env, rules: seq<Rule>, env: Env, target: Rule, o: Option<Rule>, rt: RawTransaction, d: Direction)
    requires IdsUnique(rules) && target in rules && Matches(target, rt, d, env)
    requires OnlyDiffersAt(previous, previousEnv, rules, env, target.id, rt, d)
    requires if o.Some? then Decides(previous, o.value, rt, d, previousEnv) && Precedes(target, o.value)
             else NoneMatch(previous, rt, d, previousEnv)
    ensures Decides(rules, target, rt, d, env)
  {
    forall q | q in rules && Matches(q, rt, d, env) && q != target ensures Precedes(target, q) {
      assert q.id != target.id && q in previous;
    }
  }

  /** A target that does not match leaves the decision where it was. */
  lemma OthersStay(
    previous: seq<Rule>, previousEnv: Env, rules: seq<Rule>, env: Env, target: Rule, o: Option<Rule>, rt: RawTransaction, d: Direction)
    requires Ordered(rules) && IdsUnique(rules) && target in rules && !Matches(target, rt, d, env)
    requires OnlyDiffersAt(previous, previousEnv, rules, env, target.id, rt, d)
    requires if o.Some? then Decides(previous, o.value, rt, d, previousEnv) && o.value.id != target.id
             else NoneMatch(previous, rt, d, previousEnv)
    ensures Walk(rules, rt, d, env, NoFault) == Matched(if o.Some? then OutcomeOf(o.value, rt, previousEnv) else Fallback(d))
  {
    forall q | q in rules && Matches(q, rt, d, env) ensures q in previous && Matches(q, rt, d, previousEnv) {
      assert q.id != target.id;
    }
    DeciderIsWalked(rules, o, rt, d, env);
  }

  /** The old decision of a row: a rule, whose id the row carries, or the fallback. */
  lemma OldDecision(rules: seq<Rule>, rt: RawTransaction, d: Direction, env: Env, listed: Outcome) returns (o: Option<Rule>)
    requires Ordered(rules) && Walk(rules, rt, d, env, NoFault) == Matched(listed)
    ensures if o.Some? then Decides(rules, o.value, rt, d, env) && listed == OutcomeOf(o.value, rt, env)
            else NoneMatch(rules, rt, d, env) && listed == Fallback(d)
    ensures forall id :: DecidedBy(rules, rt, d, env, id) <==> o.Some? && o.value.id == id
  {
    WalkFindsDecider(rules, rt, d, env);
    if NoneMatch(rules, rt, d, env) {
      o := None;
    } else {
      var rule :| Decides(rules, rule, rt, d, env) && listed == OutcomeOf(rule, rt, env);
      o := Some(rule);
    }
  }

  /** A row after its candidate was handled: unless the target decides now, it is as it was. */
  lemma AfterHandling(t: Tables, id: int, job: Job, from: Date, fault: Fault)
    requires Listed(t, id, from) && !ReapplyEffect(t, job, CandidateOf(t, id), fault).CountsFailed() && job.accounts == t.env.accounts
    ensures var c := CandidateOf(t, id);
            var after := ReapplyRow(t, job, c, fault).rows[id];
            if DecidedEarlier(job, c.listed) || !Matches(job.target, c.rt, c.direction, t.env) then after == t.rows[id]
            else after.Decided() == OutcomeOf(job.target, c.rt, t.env) && after.direction == c.direction
  {
    assert Env(t.env.identifiers, job.accounts) == t.env;
  }

  /** One row that agreed with the old chain, after its candidate was handled without failure. */
  lemma RowAgreesExact(t: Tables, id: int, job: Job, from: Date, fault: Fault, previous: seq<Rule>, previousEnv: Env)
    requires Listed(t, id, from)
    requires Ordered(previous) && IdsUnique(previous)
    requires Ordered(job.rules) && IdsUnique(job.rules) && job.target in job.rules && job.accounts == t.env.accounts
    requires var c := CandidateOf(t, id);
             && OnlyDiffersAt(previous, previousEnv, job.rules, t.env, job.target.id, c.rt, c.direction)
             && Agrees(t.rows[id], c.rt, previous, previousEnv)
             && !ReapplyEffect(t, job, c, fault).CountsFailed()
    ensures var c := CandidateOf(t, id);
            var after := ReapplyRow(t, job, c, fault).rows[id];
            Agrees(after, c.rt, job.rules, t.env) <==>
              !DecidedBy(previous, c.rt, c.direction, previousEnv, job.target.id)
              || DecidedBy(job.rules, c.rt, c.direction, t.env, job.target.id)
  {
    var c := CandidateOf(t, id);
    var (rt, d, env, target, rules) := (c.rt, c.direction, t.env, job.target, job.rules);
    var after := ReapplyRow(t, job, c, fault).rows[id];
    AfterHandling(t, id, job, from, fault);
    hide ReapplyRow, ReapplyEffect, Matches, OutcomeOf, Walk;
    var o := OldDecision(previous, rt, d, previousEnv, c.listed);
    TargetDecided(rules, rt, d, env, target);
    OrderOfPosition(rules, target);
    if o.Some? {
      OrderOfPosition(rules, o.value);
    }
    if DecidedEarlier(job, c.listed) {
      assert o.Some? && o.value.id != target.id && o.value in rules && Precedes(o.value, target);
      EarlierStays(previous, previousEnv, rules, env, target, o.value, rt, d);
      DeciderIsWalked(rules, o, rt, d, env);
    } else if Matches(target, rt, d, env) {
      if o.None? || o.value.id != target.id {
        assert o.Some? ==> o.value in rules && Precedes(target, o.value);
        TargetTakesOver(previous, previousEnv, rules, env, target, o, rt, d);
      }
    } else if o.None? || o.value.id != target.id {
      OthersStay(previous, previousEnv, rules, env, target, o, rt, d);
    }
  }

  /** The walk's outcome names `target` exactly when `target` decides. */
  lemma TargetDecided(rules: seq<Rule>, rt: RawTransaction, d: Direction, env: Env, target: Rule)
    requires Ordered(rules) && IdsUnique(rules) && target in rules
    ensures var v := Walk(rules, rt, d, env, NoFault);
            && v.Matched?
            && (v.outcome.rule == Some(target.id) <==> DecidedBy(rules, rt, d, env, target.id))
            && (v.outcome.rule == Some(target.id) ==> Matches(target, rt, d, env) && v.outcome == OutcomeOf(target, rt, env))
  {
    WalkFindsDecider(rules, rt, d, env);
  }

  /** Re-applying one rule is as good as re-running the chain on a row, exactly when
      that rule had not decided the row before, or still does. */
  lemma ReapplyAgreesExact(t: Tables, rule: int, from: Date, faults: map<int, Fault>, previous: seq<Rule>, previousEnv: Env, id: int)
    requires RulesOk(t) && RowsNumbered(t) && Listed(t, id, from)
    requires Ordered(previous) && IdsUnique(previous)
    requires ReapplyAll(t, rule, from, faults).Reapplied? && ReapplyAll(t, rule, from, faults).progress.failed == 0
    requires var (rt, d) := (t.raws[t.rows[id].raw], t.rows[id].direction);
             && OnlyDiffersAt(previous, previousEnv, EnabledBelow(t.rules, t.nextRule), t.env, rule, rt, d)
             && Agrees(t.rows[id], rt, previous, previousEnv)
    ensures var (rt, d, rules) := (t.raws[t.rows[id].raw], t.rows[id].direction, EnabledBelow(t.rules, t.nextRule));
            var t' := ReapplyAll(t, rule, from, faults).progress.tables;
            && id in t'.rows
            && (Agrees(t'.rows[id], rt, rules, t.env) <==>
                  !DecidedBy(previous, rt, d, previousEnv, rule) || DecidedBy(rules, rt, d, t.env, rule))
  {
    var job := JobFor(t, rule);
    EnabledInOrder(t.rules, t.nextRule);
    CandidatesDistinct(t, from);
    CandidatesExact(t, t.nextRow, from);
    ReapplyRowsPointwise(t, job, CandidatesBelow(t, t.nextRow, from), faults);
    ReapplyCounters(t, job, CandidatesBelow(t, t.nextRow, from), faults);
    assert CandidateOf(t, id) in CandidatesBelow(t, t.nextRow, from);
    RowAgreesExact(t, id, job, from, FaultAt(faults, id), previous, previousEnv);
  }

  /** `rule` is new in the chain, or the same but for moving to an earlier place. */
  ghost predicate AddedOrMovedEarlier(previous: seq<Rule>, rules: seq<Rule>, rule: Rule) {
    && rule in rules
    && (forall q: Rule :: q.id != rule.id ==> (q in previous <==> q in rules))
    && (forall q :: q in previous && q.id == rule.id ==> q.(priority := rule.priority) == rule && rule.priority <= q.priority)
  }

  /** A rule added, enabled or moved earlier and then re-applied without failures leaves
      every automatic row dated on or after `from` as the new chain would decide it,
      and touches no earlier row and no row set by hand. */
  lemma ReapplyRefinesFullRerun(t: Tables, rule: int, from: Date, faults: map<int, Fault>, previous: seq<Rule>)
    requires RulesOk(t) && RowsNumbered(t) && Ordered(previous) && IdsUnique(previous)
    requires ReapplyAll(t, rule, from, faults).Reapplied? && ReapplyAll(t, rule, from, faults).progress.failed == 0
    requires AddedOrMovedEarlier(previous, EnabledBelow(t.rules, t.nextRule), t.rules[rule])
    requires forall id :: Listed(t, id, from) ==> Agrees(t.rows[id], t.raws[t.rows[id].raw], previous, t.env)
    ensures var t' := ReapplyAll(t, rule, from, faults).progress.tables;
            && (forall id :: Listed(t, id, from) ==>
                  id in t'.rows && Agrees(t'.rows[id], t.raws[t.rows[id].raw], EnabledBelow(t.rules, t.nextRule), t.env))
            && (forall id :: id in t.rows && !Listed(t, id, from) ==>
                  id in t'.rows && t'.rows[id] == t.rows[id] && SameCoverage(t, t', id))
  {
    EnabledInOrder(t.rules, t.nextRule);
    var t' := ReapplyAll(t, rule, from, faults).progress.tables;
    var rules, target := EnabledBelow(t.rules, t.nextRule), t.rules[rule];
    forall id | Listed(t, id, from)
      ensures id in t'.rows && Agrees(t'.rows[id], t.raws[t.rows[id].raw], rules, t.env)
    {
      var (rt, d) := (t.raws[t.rows[id].raw], t.rows[id].direction);
      if DecidedBy(previous, rt, d, t.env, rule) {
        var was :| Decides(previous, was, rt, d, t.env) && was.id == rule;
        assert Decides(rules, target, rt, d, t.env) by {
          forall q | q in rules && Matches(q, rt, d, t.env) && q != target ensures Precedes(target, q) {
            assert q.id != rule && q in previous;
          }
        }
      }
      ReapplyAgreesExact(t, rule, from, faults, previous, t.env, id);
    }
    forall id | id in t.rows && !Listed(t, id, from)
      ensures id in t'.rows && t'.rows[id] == t.rows[id] && SameCoverage(t, t', id)
    {
      ReapplyLeavesOlderRows(t, rule, from, faults, id);
    }
  }
}
