/** A run, and a re-apply, left alone among the machine's actions: their single steps add up to the
    run and the re-apply as one call. */
module LedgerSolo {
  import opened Calendar
  import opened Categorization
  import opened Ledger
  import opened LedgerMachine

  /** Decide and write, transaction by transaction. */
  function RunScript(run: nat, raws: seq<int>, faults: map<int, Fault>): seq<Action> {
    if raws == [] then []
    else
      var fault := FaultAt(faults, raws[|raws| - 1]);
      RunScript(run, raws[..|raws| - 1], faults) + [RunDecide(run, fault), RunWrite(run, fault)]
  }

  function ReapplyScript(job: nat, cs: seq<Candidate>, faults: map<int, Fault>): seq<Action> {
    if cs == [] then []
    else
      var fault := FaultAt(faults, cs[|cs| - 1].id);
      ReapplyScript(job, cs[..|cs| - 1], faults) + [ReapplyDecide(job, fault), ReapplyWrite(job, fault)]
  }

  lemma {:induction false} ExecuteTwoMore(m: Machine, actions: seq<Action>, a: Action, b: Action)
    ensures Execute(m, actions + [a, b]) == Next(Next(Execute(m, actions), a), b)
    decreases |actions|
  {
    if actions == [] {
      assert actions + [a, b] == [a, b] && [a, b][1..] == [b] && [b][1..] == [];
      assert Execute(m, [a, b]) == Execute(Next(m, a), [b]) == Execute(Next(Next(m, a), b), []);
    } else {
      assert (actions + [a, b])[1..] == actions[1..] + [a, b];
      ExecuteTwoMore(Next(m, actions[0]), actions[1..], a, b);
    }
  }

  /** One transaction of the run. */
  lemma RunTakesOne(m: Machine, run: nat, fault: Fault)
    requires run < |m.runs| && m.runs[run].pending != [] && m.runs[run].decided.None? && m.runs[run].pending[0] in m.t.raws
    ensures var (job, m') := (m.runs[run], Next(Next(m, RunDecide(run, fault)), RunWrite(run, fault)));
            var (raw, ok) := (job.pending[0], ProcessSucceeds(m.t, job.pending[0], job.rules, job.accounts, fault));
            && m'.t == ProcessRow(m.t, raw, job.rules, job.accounts, fault) && |m'.runs| == |m.runs| && m'.reapplies == m.reapplies
            && m'.runs[run] == job.(
                 pending := job.pending[1..], done := job.done + (if ok then 1 else 0), failed := job.failed + (if ok then 0 else 1))
  {
    ProcessIsDecideThenWrite(m.t, m.runs[run].pending[0], m.runs[run].rules, m.runs[run].accounts, fault);
  }

  /** The run after its first transactions. */
  lemma {:induction false} RunTakes(m: Machine, run: nat, raws: seq<int>, rest: seq<int>, faults: map<int, Fault>)
    requires run < |m.runs| && m.runs[run].pending == raws + rest && m.runs[run].decided.None?
    requires m.runs[run].done == 0 && m.runs[run].failed == 0 && forall raw :: raw in raws + rest ==> raw in m.t.raws
    requires forall raw :: raw in raws ==> raw in m.t.raws
    ensures var (job, m') := (m.runs[run], Execute(m, RunScript(run, raws, faults)));
            var p := RunRows(m.t, raws, job.rules, job.accounts, faults);
            && m'.t == p.tables && |m'.runs| == |m.runs| && m'.runs[run] == job.(pending := rest, done := p.done, failed := p.failed)
    decreases |raws|
  {
    var job := m.runs[run];
    if raws == [] {
      assert raws + rest == rest;
    } else {
      var (front, last) := (raws[..|raws| - 1], raws[|raws| - 1]);
      var fault := FaultAt(faults, last);
      assert front + ([last] + rest) == raws + rest && forall raw :: raw in front ==> raw in raws;
      RunTakes(m, run, front, [last] + rest, faults);
      var before := Execute(m, RunScript(run, front, faults));
      assert ([last] + rest)[1..] == rest && last in raws;
      hide Next, Execute, ProcessRow, ProcessSucceeds;
      RunTakesOne(before, run, fault);
      ExecuteTwoMore(m, RunScript(run, front, faults), RunDecide(run, fault), RunWrite(run, fault));
    }
  }

  /** A run alone is the run as one call, counters included. */
  lemma SoloRun(m: Machine, faults: map<int, Fault>)
    ensures var (run, raws) := (|m.runs|, UnprocessedBelow(m.t, m.t.nextRaw));
            var m' := Execute(Next(m, StartRun), RunScript(run, raws, faults));
            var p := RunAll(m.t, faults);
            && m'.t == p.tables && run < |m'.runs|
            && m'.runs[run].pending == [] && m'.runs[run].done == p.done && m'.runs[run].failed == p.failed
  {
    UnprocessedExact(m.t, m.t.nextRaw);
    var raws := UnprocessedBelow(m.t, m.t.nextRaw);
    assert raws + [] == raws;
    RunTakes(Next(m, StartRun), |m.runs|, raws, [], faults);
  }

  lemma ReapplyTakesOne(m: Machine, job: nat, fault: Fault)
    requires job < |m.reapplies| && m.reapplies[job].pending != [] && m.reapplies[job].decided.None?
    ensures var (r, m') := (m.reapplies[job], Next(Next(m, ReapplyDecide(job, fault)), ReapplyWrite(job, fault)));
            && m'.t == ReapplyRow(m.t, r.job, r.pending[0], fault) && |m'.reapplies| == |m.reapplies|
            && m'.reapplies[job] == r.(pending := r.pending[1..])
  {
    ReapplyIsDecideThenWrite(m.t, m.reapplies[job].job, m.reapplies[job].pending[0], fault);
    hide ReapplyRow, WriteChange, ReapplyDecision;
  }

  lemma {:induction false} ReapplyTakes(m: Machine, job: nat, cs: seq<Candidate>, rest: seq<Candidate>, faults: map<int, Fault>)
    requires job < |m.reapplies| && m.reapplies[job].pending == cs + rest && m.reapplies[job].decided.None?
    ensures var (r, m') := (m.reapplies[job], Execute(m, ReapplyScript(job, cs, faults)));
            && m'.t == ReapplyRows(m.t, r.job, cs, faults).tables && |m'.reapplies| == |m.reapplies|
            && m'.reapplies[job] == r.(pending := rest)
    decreases |cs|
  {
    if cs == [] {
      assert cs + rest == rest;
    } else {
      var (front, last) := (cs[..|cs| - 1], cs[|cs| - 1]);
      var fault := FaultAt(faults, last.id);
      assert front + ([last] + rest) == cs + rest && ([last] + rest)[1..] == rest;
      ReapplyTakes(m, job, front, [last] + rest, faults);
      hide Next, Execute, ReapplyRow;
      ReapplyTakesOne(Execute(m, ReapplyScript(job, front, faults)), job, fault);
      ExecuteTwoMore(m, ReapplyScript(job, front, faults), ReapplyDecide(job, fault), ReapplyWrite(job, fault));
    }
  }

  /** A re-apply alone is the re-apply as one call. */
  lemma SoloReapply(m: Machine, rule: int, from: Date, faults: map<int, Fault>)
    requires ReapplyAll(m.t, rule, from, faults).Reapplied?
    ensures var (job, cs) := (|m.reapplies|, CandidatesBelow(m.t, m.t.nextRow, from));
            var m' := Execute(Next(m, StartReapply(rule, from)), ReapplyScript(job, cs, faults));
            m'.t == ReapplyAll(m.t, rule, from, faults).progress.tables && job < |m'.reapplies| && m'.reapplies[job].pending == []
  {
    var cs := CandidatesBelow(m.t, m.t.nextRow, from);
    assert cs + [] == cs;
    ReapplyTakes(Next(m, StartReapply(rule, from)), |m.reapplies|, cs, [], faults);
  }
}
