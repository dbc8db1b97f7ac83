/** What a run row says: over every interleaving a run closed as a success stored all the bank
    served it, and a run closed as a failure failed. */
module FioReport {
  import opened Options
  import opened Calendar
  import opened FioSync
  import opened FioSafety
  import opened FioLoss

  // ---- What ends a run ----

  /** The run is under way and this step of it fails. */
  ghost predicate Fails(w: World, a: Action, run: nat) {
    && Live(w, run)
    && var job := w.jobs[run];
       match a
       case Reseed(r, _, accepted) => r == run && !accepted && job.kind.Cursor? && job.phase.Started?
       case Fetch(r, answer) => r == run && answer in {Refused, Unread} && job.phase.Started?
       case ReadMax(r, ok) => r == run && !ok && job.kind.Cursor? && job.phase.Fetched?
       case Insert(r, failAt) =>
         r == run && job.kind.Period? && job.phase.Fetched? && exists row :: 0 <= row <= |job.phase.batch| && failAt == Some(row)
       case Finish(r, _) => r == run && job.phase.InsertFailed?
       case Panic(r) => r == run
       case _ => false
  }

  /** The bank has nothing for the job. */
  ghost predicate NothingToServe(s: Server, kind: Kind) {
    forall tx :: tx in s.movements ==>
                   match kind
                   case Cursor => tx.id <= s.cursor
                   case Period(from, to) => !(NotAfter(from, tx.rt.date) && NotAfter(tx.rt.date, to))
  }

  /** The run is under way and this step ends it well. */
  ghost predicate Succeeds(w: World, a: Action, run: nat) {
    && Live(w, run)
    && var job := w.jobs[run];
       match a
       case Fetch(r, answer) => r == run && answer == Served && job.phase.Started? && NothingToServe(w.servers[job.account], job.kind)
       case Finish(r, _) => r == run && job.phase.Inserted?
       case _ => false
  }

  lemma NothingIsEmpty(s: Server, kind: Kind)
    ensures NothingToServe(s, kind) <==> Batch(s, kind) == []
  {
    match kind {
      case Cursor => NewSinceExact(s.movements, s.cursor);
      case Period(from, to) => InPeriodExact(s.movements, from, to);
    }
    if Batch(s, kind) != [] {
      assert Batch(s, kind)[0] in Batch(s, kind);
    }
  }

  function Took(phase: Phase): nat {
    match phase
    case Started => 0
    case Fetched(batch) => |batch|
    case MaxRead(batch, _) => |batch|
    case InsertFailed(batch, _) => |batch|
    case Inserted(batch, _) => |batch|
  }

  function Stored(phase: Phase): nat {
    match phase
    case Inserted(_, count) => count
    case _ => 0
  }

  /** The run's row after the step, as far as the step is its own. */
  ghost function RowAfter(w: World, a: Action, run: nat): SyncRun
    requires run < |w.runs|
  {
    var row := w.runs[run];
    if Fails(w, a, run) then
      row.(status := Failure, fetched := Took(w.jobs[run].phase), inserted := if a.Panic? then Stored(w.jobs[run].phase) else 0)
    else if Succeeds(w, a, run) then
      row.(status := Success, fetched := Took(w.jobs[run].phase), inserted := Stored(w.jobs[run].phase))
    else row
  }

  lemma OthersLeaveRow(w: World, a: Action, run: nat)
    requires run < |w.runs| && (run !in w.jobs || RunOf(w, a) != run)
    requires forall r :: r in w.jobs ==> r < |w.runs|
    ensures var w' := Next(w, a); run < |w'.runs| && w'.runs[run] == w.runs[run] && (run !in w.jobs ==> run !in w'.jobs)
  {
    hide NewSince, InPeriod, MaxId, InsertAll, PositionBefore, Reseeded;
  }

  lemma OwnStepReports(w: World, a: Action, run: nat)
    requires Live(w, run) && JobOk(w, run) && RunOf(w, a) == run && run < |w.runs| && !a.Arrive? && !a.Start?
    requires NothingToServe(w.servers[w.jobs[run].account], w.jobs[run].kind) <==> Batch(w.servers[w.jobs[run].account], w.jobs[run].kind) == []
    ensures var w' := Next(w, a);
            && run < |w'.runs| && w'.runs[run] == RowAfter(w, a, run)
            && (Fails(w, a, run) || Succeeds(w, a, run) ==> run !in w'.jobs)
  {
    hide NothingToServe, NewSince, InPeriod, MaxId, InsertAll, PositionBefore, Reseeded;
  }

  /** The row of a run after one step of anybody. */
  lemma StepReports(w: World, a: Action, run: nat)
    requires WorldOk(w) && run < |w.runs|
    ensures var w' := Next(w, a);
            && run < |w'.runs| && w'.runs[run] == RowAfter(w, a, run)
            && (run !in w.jobs || Fails(w, a, run) || Succeeds(w, a, run) ==> run !in w'.jobs)
  {
    forall r | r in w.jobs ensures r < |w.runs| {
      JobIsOk(w, r);
      JobNumber(w, r);
    }
    if run in w.jobs && RunOf(w, a) == run {
      JobIsOk(w, run);
      NothingIsEmpty(w.servers[w.jobs[run].account], w.jobs[run].kind);
      OwnStepReports(w, a, run);
    } else {
      hide Next, NothingToServe;
      OthersLeaveRow(w, a, run);
    }
  }

  // ---- Over whole histories ----

  lemma StateAfter(w: World, actions: seq<Action>, n: nat)
    requires n < |actions|
    ensures Execute(w, actions[..n + 1]) == Next(Execute(w, actions[..n]), actions[n])
  {
    assert actions[..n + 1] == actions[..n] + [actions[n]];
    ExecuteConcat(w, actions[..n], [actions[n]]);
    assert [actions[n]][1..] == [];
  }

  lemma {:induction false} WorldThroughout(w: World, actions: seq<Action>)
    requires WorldOk(w)
    ensures WorldOk(Execute(w, actions)) && |w.runs| <= |Execute(w, actions).runs|
    decreases |actions|
  {
    if actions != [] {
      StepKeepsWorld(w, actions[0]);
      RunsOnlyGrow(w, actions[0]);
      WorldThroughout(Next(w, actions[0]), actions[1..]);
    }
  }

  ghost predicate FailsAt(w: World, actions: seq<Action>, run: nat, k: nat)
    requires k < |actions|
  {
    Fails(Execute(w, actions[..k]), actions[k], run)
  }

  ghost predicate SucceedsAt(w: World, actions: seq<Action>, run: nat, k: nat)
    requires k < |actions|
  {
    Succeeds(Execute(w, actions[..k]), actions[k], run)
  }

  ghost predicate Failed(w: World, actions: seq<Action>, run: nat) {
    exists k :: 0 <= k < |actions| && FailsAt(w, actions, run, k)
  }

  ghost predicate Succeeded(w: World, actions: seq<Action>, run: nat) {
    exists k :: 0 <= k < |actions| && SucceedsAt(w, actions, run, k)
  }

  lemma LongerHistory(w: World, actions: seq<Action>, run: nat)
    requires actions != []
    ensures var (front, n) := (actions[..|actions| - 1], |actions| - 1);
            && (Failed(w, actions, run) <==> Failed(w, front, run) || FailsAt(w, actions, run, n))
            && (Succeeded(w, actions, run) <==> Succeeded(w, front, run) || SucceedsAt(w, actions, run, n))
  {
    hide Execute, Fails, Succeeds;
    var (front, n) := (actions[..|actions| - 1], |actions| - 1);
    forall k | 0 <= k < n
      ensures FailsAt(w, actions, run, k) <==> FailsAt(w, front, run, k)
      ensures SucceedsAt(w, actions, run, k) <==> SucceedsAt(w, front, run, k)
    {
      assert actions[..k] == front[..k];
    }
  }

  /** A run started in the history says Failure exactly when one of its steps failed, Success exactly
      when its last step went well, and Running as long as neither has happened. */
  lemma {:induction false} StatusExact(w: World, actions: seq<Action>, run: nat)
    requires WorldOk(w) && |w.runs| <= run < |Execute(w, actions).runs|
    ensures var w' := Execute(w, actions);
            && (w'.runs[run].status == Failure <==> Failed(w, actions, run))
            && (w'.runs[run].status == Success <==> Succeeded(w, actions, run))
            && (w'.runs[run].status != Running ==> run !in w'.jobs)
            && (run in w'.jobs ==> w'.runs[run].fetched == 0 && w'.runs[run].inserted == 0)
    decreases |actions|
  {
    if actions == [] {
    } else {
      var (front, n) := (actions[..|actions| - 1], |actions| - 1);
      assert actions[..n + 1] == actions;
      StateAfter(w, actions, n);
      WorldThroughout(w, front);
      LongerHistory(w, actions, run);
      var before := Execute(w, front);
      if run < |before.runs| {
        StatusExact(w, front, run);
        hide Next, Fails, Succeeds;
        StepReports(before, actions[n], run);
      } else {
        NewRunIsOpen(before, actions[n], run);
        NotYetStarted(w, front, run);
      }
    }
  }

  lemma NewRunIsOpen(w: World, a: Action, run: nat)
    requires WorldOk(w) && |w.runs| <= run < |Next(w, a).runs|
    ensures Next(w, a).runs[run] == SyncRun(Next(w, a).runs[run].account, Running, 0, 0)
    ensures run in Next(w, a).jobs && Next(w, a).jobs[run].phase.Started? && Next(w, a).jobs[run].account == Next(w, a).runs[run].account
    ensures !Fails(w, a, run) && !Succeeds(w, a, run)
  {
    forall r | r in w.jobs ensures r < |w.runs| {
      JobIsOk(w, r);
      JobNumber(w, r);
    }
    hide NewSince, InPeriod, MaxId, InsertAll, PositionBefore, Reseeded;
  }

  lemma {:induction false} NotYetStarted(w: World, actions: seq<Action>, run: nat)
    requires WorldOk(w) && |Execute(w, actions).runs| <= run
    ensures !Failed(w, actions, run) && !Succeeded(w, actions, run)
    decreases |actions|
  {
    if actions != [] {
      var (front, n) := (actions[..|actions| - 1], |actions| - 1);
      assert actions[..n + 1] == actions;
      StateAfter(w, actions, n);
      WorldThroughout(w, front);
      LongerHistory(w, actions, run);
      var before := Execute(w, front);
      RunsOnlyGrow(before, actions[n]);
      NotYetStarted(w, front, run);
      forall r | r in before.jobs ensures r < |before.runs| {
        JobIsOk(before, r);
        JobNumber(before, r);
      }
    }
  }

  // ---- What a success stored ----

  /** Step `k` is the run's fetch, and `batch` is what the bank served. */
  ghost predicate ServedAt(w: World, actions: seq<Action>, run: nat, k: nat, account: int, batch: seq<FioTx>) {
    && k < |actions| && actions[k] == Fetch(run, Served)
    && var asked := Execute(w, actions[..k]);
       && Live(asked, run) && asked.jobs[run].phase.Started? && asked.jobs[run].account == account
       && batch == Batch(asked.servers[account], asked.jobs[run].kind)
  }

  ghost predicate AllHeld(w: World, account: int, batch: seq<FioTx>) {
    forall tx :: tx in batch ==> Holds(w.table, account, tx.id)
  }

  ghost predicate Traced(w: World, actions: seq<Action>, run: nat, k: nat) {
    var w' := Execute(w, actions);
    && run < |w'.runs|
    && (run in w'.jobs ==>
          && w'.jobs[run].account == w'.runs[run].account
          && (!w'.jobs[run].phase.Started? ==> ServedAt(w, actions, run, k, w'.jobs[run].account, w'.jobs[run].phase.batch))
          && (w'.jobs[run].phase.Inserted? ==> AllHeld(w', w'.jobs[run].account, w'.jobs[run].phase.batch)))
    && (w'.runs[run].status == Success ==> StoredAll(w, actions, run, k))
  }

  /** The run fetched at step `k`, reports the number of movements it was served, and holds them all. */
  ghost predicate StoredAll(w: World, actions: seq<Action>, run: nat, k: nat) {
    var w' := Execute(w, actions);
    run < |w'.runs| && exists batch ::
      && ServedAt(w, actions, run, k, w'.runs[run].account, batch)
      && w'.runs[run].fetched == |batch| && AllHeld(w', w'.runs[run].account, batch)
  }

  lemma ServedLonger(w: World, actions: seq<Action>, run: nat, k: nat, account: int, batch: seq<FioTx>)
    requires actions != [] && ServedAt(w, actions[..|actions| - 1], run, k, account, batch)
    ensures ServedAt(w, actions, run, k, account, batch)
  {
    assert actions[..|actions| - 1][..k] == actions[..k];
  }

  /** How a job moves on: its batch is what it was served, and it is stored by its insert. */
  lemma OwnMove(w: World, a: Action, run: nat)
    requires WorldOk(w) && Live(w, run) && run in Next(w, a).jobs
    ensures var (job, job') := (w.jobs[run], Next(w, a).jobs[run]);
            && job'.account == job.account
            && (job'.phase.Started? <==> job.phase.Started? && !(a == Fetch(run, Served)))
            && (!job'.phase.Started? && job.phase.Started? ==> job'.phase.batch == Batch(w.servers[job.account], job.kind))
            && (!job'.phase.Started? && !job.phase.Started? ==> job'.phase.batch == job.phase.batch)
            && (job'.phase.Inserted? && !job.phase.Inserted? ==> Next(w, a).table == InsertAll(w.table, job.account, job.phase.batch))
            && (!(a.Insert? && a.run == run) ==> (job'.phase.Inserted? <==> job.phase.Inserted?))
            && (job'.phase.Inserted? ==> !job.phase.Started?)
  {
    forall r | r in w.jobs ensures r < |w.runs| {
      JobIsOk(w, r);
      JobNumber(w, r);
    }
    hide WorldOk, NewSince, InPeriod, MaxId, InsertAll, PositionBefore, Reseeded;
  }

  lemma HeldStays(w: World, a: Action, account: int, batch: seq<FioTx>)
    requires WorldOk(w) && AllHeld(w, account, batch)
    ensures AllHeld(Next(w, a), account, batch)
  {
    hide Next, Holds;
    TableOnlyGrows(w, a, account);
  }

  /** A job under way after one step more. */
  lemma TracedJob(w: World, actions: seq<Action>, run: nat, k: nat) returns (j: nat)
    requires actions != [] && WorldOk(w) && WorldOk(Execute(w, actions[..|actions| - 1]))
    requires Execute(w, actions) == Next(Execute(w, actions[..|actions| - 1]), actions[|actions| - 1])
    requires Traced(w, actions[..|actions| - 1], run, k)
    requires run in Execute(w, actions[..|actions| - 1]).jobs && run in Execute(w, actions).jobs
    requires run < |Execute(w, actions).runs| && Execute(w, actions).runs[run] == Execute(w, actions[..|actions| - 1]).runs[run]
    requires Execute(w, actions).runs[run].status != Success
    ensures Traced(w, actions, run, j)
  {
    var (front, n) := (actions[..|actions| - 1], |actions| - 1);
    var (before, after, a) := (Execute(w, front), Execute(w, actions), actions[n]);
    hide Execute, Next, WorldOk, Holds;
    JobIsOk(before, run);
    OwnMove(before, a, run);
    var (job, job') := (before.jobs[run], after.jobs[run]);
    j := if job.phase.Started? then n else k;
    if !job'.phase.Started? {
      if job.phase.Started? {
        assert ServedAt(w, actions, run, n, job.account, job'.phase.batch);
      } else {
        ServedLonger(w, actions, run, k, job.account, job.phase.batch);
      }
    }
    if job'.phase.Inserted? {
      if job.phase.Inserted? {
        HeldStays(before, a, job.account, job.phase.batch);
      } else {
        TableIsUnique(before);
        InsertAllExact(before.table, job.account, job.phase.batch);
      }
    }
  }

  /** A run already closed. */
  lemma TracedClosed(w: World, actions: seq<Action>, run: nat, k: nat)
    requires actions != [] && WorldOk(Execute(w, actions[..|actions| - 1]))
    requires Execute(w, actions) == Next(Execute(w, actions[..|actions| - 1]), actions[|actions| - 1])
    requires Traced(w, actions[..|actions| - 1], run, k) && run !in Execute(w, actions).jobs
    requires run < |Execute(w, actions).runs| && Execute(w, actions).runs[run] == Execute(w, actions[..|actions| - 1]).runs[run]
    ensures Traced(w, actions, run, k)
  {
    var (front, a) := (actions[..|actions| - 1], actions[|actions| - 1]);
    var (before, account) := (Execute(w, front), Execute(w, actions).runs[run].account);
    if before.runs[run].status == Success {
      hide Execute, Next, WorldOk, Holds, AllHeld;
      var batch :| ServedAt(w, front, run, k, account, batch) && before.runs[run].fetched == |batch| && AllHeld(before, account, batch);
      ServedLonger(w, actions, run, k, account, batch);
      HeldStays(before, a, account, batch);
    }
  }

  /** A run that this step ends. */
  lemma TracedEnd(w: World, actions: seq<Action>, run: nat, k: nat) returns (j: nat)
    requires actions != [] && WorldOk(Execute(w, actions[..|actions| - 1]))
    requires Execute(w, actions) == Next(Execute(w, actions[..|actions| - 1]), actions[|actions| - 1])
    requires Traced(w, actions[..|actions| - 1], run, k)
    requires run in Execute(w, actions[..|actions| - 1]).jobs && run !in Execute(w, actions).jobs
    requires Execute(w, actions[..|actions| - 1]).runs[run].status == Running
    ensures Traced(w, actions, run, j)
  {
    var (front, n) := (actions[..|actions| - 1], |actions| - 1);
    var (before, after, a) := (Execute(w, front), Execute(w, actions), actions[n]);
    hide Execute, Next, WorldOk, Holds, AllHeld;
    StepReports(before, a, run);
    var job := before.jobs[run];
    j := if job.phase.Started? then n else k;
    if after.runs[run].status == Success {
      JobIsOk(before, run);
      if a.Fetch? {
        NothingIsEmpty(before.servers[job.account], job.kind);
        assert ServedAt(w, actions, run, n, job.account, []);
        NoneToHold(after, job.account);
      } else {
        ServedLonger(w, actions, run, k, job.account, job.phase.batch);
        HeldStays(before, a, job.account, job.phase.batch);
      }
    }
  }

  lemma NoneToHold(w: World, account: int)
    ensures AllHeld(w, account, [])
  {
  }

  /** Over every interleaving: a run closed as a success holds every movement the bank served it,
      reports their number, and keeps them whatever comes after. */
  lemma {:induction false} RunTraced(w: World, actions: seq<Action>, run: nat) returns (k: nat)
    requires WorldOk(w) && |w.runs| <= run < |Execute(w, actions).runs|
    ensures Traced(w, actions, run, k)
    decreases |actions|
  {
    assert actions != [];
    var (front, n) := (actions[..|actions| - 1], |actions| - 1);
    assert actions[..n + 1] == actions;
    StateAfter(w, actions, n);
    WorldThroughout(w, front);
    var (before, after, a) := (Execute(w, front), Execute(w, actions), actions[n]);
    hide Next, Execute, WorldOk, Traced, Fails, Succeeds;
    if run >= |before.runs| {
      k := 0;
      NewRunIsOpen(before, a, run);
      NewIsTraced(w, actions, run);
    } else {
      k := RunTraced(w, front, run);
      StatusExact(w, front, run);
      StepReports(before, a, run);
      if run !in before.jobs {
        TracedClosed(w, actions, run, k);
      } else if run in after.jobs {
        k := TracedJob(w, actions, run, k);
      } else {
        k := TracedEnd(w, actions, run, k);
      }
    }
  }

  lemma NewIsTraced(w: World, actions: seq<Action>, run: nat)
    requires var w' := Execute(w, actions);
             && run < |w'.runs| && w'.runs[run].status == Running
             && run in w'.jobs && w'.jobs[run].phase.Started? && w'.jobs[run].account == w'.runs[run].account
    ensures Traced(w, actions, run, 0)
  {
  }

  lemma SuccessStoredAll(w: World, actions: seq<Action>, run: nat) returns (k: nat)
    requires WorldOk(w) && |w.runs| <= run < |Execute(w, actions).runs| && Execute(w, actions).runs[run].status == Success
    ensures StoredAll(w, actions, run, k)
  {
    k := RunTraced(w, actions, run);
  }
}
