/** A sync and a backfill statement by statement. Before every statement but the first the rest
    of the system may have acted; `elsewhere` says what it did. */
module FioJob {
  import opened Options
  import opened Calendar
  import opened FioSync
  import opened FioLoss

  /** How one sync fares, should it get that far: `reseed` is set when the bank first demands
      strong authorisation. */
  datatype Attempt = Attempt(reseed: Option<(Date, bool)>, answer: Answer, maxRead: bool, failAt: Option<nat>, rewound: bool)

  // ---- What a job does, with others in between ----

  ghost predicate Foreign(actions: seq<Action>, run: nat) {
    forall a :: a in actions ==> a.Arrive? || a.Start? || a.run != run
  }

  /** Own actions in order, each after what others did; once the job has ended, nothing more is waited for. */
  function Played(w: World, run: nat, script: seq<Action>, elsewhere: nat -> seq<Action>): World {
    if script == [] then w
    else
      var (n, before) := (|script| - 1, Played(w, run, script[..|script| - 1], elsewhere));
      if run !in before.jobs then before else Next(Execute(before, elsewhere(n)), script[n])
  }

  function SyncScript(run: nat, attempt: Attempt): seq<Action> {
    (if attempt.reseed.Some? then [Reseed(run, attempt.reseed.value.0, attempt.reseed.value.1)] else [])
    + [Fetch(run, attempt.answer), ReadMax(run, attempt.maxRead), Insert(run, attempt.failAt), Finish(run, attempt.rewound)]
  }

  function BackfillScript(run: nat, answer: Answer, failAt: Option<nat>): seq<Action> {
    [Fetch(run, answer), Insert(run, failAt), Finish(run, true)]
  }

  /** The first `n` own actions, each after what others did before it. */
  function Interleaved(script: seq<Action>, elsewhere: nat -> seq<Action>, n: nat): seq<Action>
    requires n <= |script|
  {
    if n == 0 then [] else Interleaved(script, elsewhere, n - 1) + elsewhere(n - 1) + [script[n - 1]]
  }

  /** `n` own actions were taken: the job was under way before each of them, and has ended if some are left. */
  ghost predicate TakenFrom(w: World, run: nat, script: seq<Action>, elsewhere: nat -> seq<Action>, n: nat) {
    && n <= |script|
    && (forall i :: 0 <= i < n ==> run in Execute(w, Interleaved(script, elsewhere, i)).jobs)
    && (n < |script| ==> run !in Execute(w, Interleaved(script, elsewhere, n)).jobs)
  }

  lemma OwnStep(w: World, script: seq<Action>, elsewhere: nat -> seq<Action>, n: nat)
    requires n < |script|
    ensures Execute(w, Interleaved(script, elsewhere, n + 1))
            == Next(Execute(Execute(w, Interleaved(script, elsewhere, n)), elsewhere(n)), script[n])
  {
    var before := Interleaved(script, elsewhere, n);
    ExecuteConcat(w, before, elsewhere(n));
    ExecuteConcat(w, before + elsewhere(n), [script[n]]);
    assert [script[n]][1..] == [];
  }

  lemma {:induction false} SamePrefix(script: seq<Action>, elsewhere: nat -> seq<Action>, m: nat, n: nat)
    requires n <= m <= |script|
    ensures Interleaved(script[..m], elsewhere, n) == Interleaved(script, elsewhere, n)
  {
    if n > 0 {
      SamePrefix(script, elsewhere, m, n - 1);
    }
  }

  /** So a job is one of the interleavings the safety theorems range over, namely its own actions
      up to its end, each after the actions of the others. */
  lemma {:induction false} PlayedIsExecuted(w: World, run: nat, script: seq<Action>, elsewhere: nat -> seq<Action>) returns (n: nat)
    ensures TakenFrom(w, run, script, elsewhere, n)
    ensures Played(w, run, script, elsewhere) == Execute(w, Interleaved(script, elsewhere, n))
    decreases |script|
  {
    n := 0;
    if script != [] {
      var last := |script| - 1;
      n := PlayedIsExecuted(w, run, script[..last], elsewhere);
      forall i | 0 <= i <= last ensures Interleaved(script[..last], elsewhere, i) == Interleaved(script, elsewhere, i) {
        SamePrefix(script, elsewhere, last, i);
      }
      if run in Played(w, run, script[..last], elsewhere).jobs {
        OwnStep(w, script, elsewhere, last);
        n := last + 1;
      }
    }
  }

  /** Nobody else moves a job. */
  lemma {:induction false} ForeignLeavesJob(w: World, actions: seq<Action>, run: nat)
    requires run in w.jobs && run < |w.runs| && w.jobs[run].account in w.servers && Foreign(actions, run)
    ensures var w' := Execute(w, actions);
            run in w'.jobs && w'.jobs[run] == w.jobs[run] && run < |w'.runs| && w.jobs[run].account in w'.servers
    decreases |actions|
  {
    if actions != [] {
      var a := actions[0];
      assert a in actions && forall b :: b in actions[1..] ==> b in actions;
      RunsOnlyGrow(w, a);
      FloorKnown(w, a, w.jobs[run].account);
      if !a.Arrive? && !a.Start? {
        OtherJobStays(w, a, run);
      }
      ForeignLeavesJob(Next(w, a), actions[1..], run);
    }
  }

  lemma FloorKnown(w: World, a: Action, account: int)
    requires account in w.servers
    ensures account in Next(w, a).servers
  {
    hide NewSince, InPeriod, MaxId, InsertAll, PositionBefore;
  }

  class Desk {
    var servers: map<int, Server>
    var table: seq<Stored>
    var runs: seq<SyncRun>
    /** Which jobs are under way, and how far: the local state of everybody's code. */
    var jobs: map<nat, Job>

    function View(): World
      reads this
    {
      World(servers, table, runs, jobs)
    }

    constructor (w: World)
      ensures View() == w
    {
      servers, table, runs, jobs := w.servers, w.table, w.runs, w.jobs;
    }

    /** What the rest of the system does meanwhile. */
    method Elsewhere(actions: seq<Action>)
      modifies this
      ensures View() == Execute(old(View()), actions)
    {
      var w := Execute(View(), actions);
      servers, table, runs, jobs := w.servers, w.table, w.runs, w.jobs;
    }

    method CreateSyncRun(account: int, kind: Kind) returns (run: nat)
      requires account in servers
      modifies this`runs, this`jobs
      ensures View() == Next(old(View()), Start(account, kind))
      ensures run == |old(runs)|
    {
      run := |runs|;
      runs := runs + [SyncRun(account, Running, 0, 0)];
      jobs := jobs[run := Job(account, kind, Started)];
    }

    method FinishRun(run: nat, status: Status, fetched: nat, inserted: nat)
      requires run < |runs|
      modifies this`runs, this`jobs
      ensures View() == Close(old(View()), run, status, fetched, inserted)
    {
      runs := runs[run := runs[run].(status := status, fetched := fetched, inserted := inserted)];
      jobs := map r | r in jobs && r != run :: jobs[r];
    }

    /** The bank answers with everything past the cursor and moves the cursor with it. */
    method FetchNew(account: int) returns (batch: seq<FioTx>)
      requires account in servers
      modifies this`servers
      ensures batch == Batch(old(servers)[account], Cursor)
      ensures servers == old(servers)[account := Advanced(old(servers)[account], Cursor)]
    {
      var s := servers[account];
      batch := [];
      for i := 0 to |s.movements|
        invariant batch == NewSince(s.movements[..i], s.cursor)
      {
        assert s.movements[..i + 1][..i] == s.movements[..i];
        if s.movements[i].id > s.cursor {
          batch := batch + [s.movements[i]];
        }
      }
      assert s.movements[..|s.movements|] == s.movements;
      servers := servers[account := if |batch| > 0 then s.(cursor := batch[|batch| - 1].id) else s];
    }

    /** The bank answers with the movements of the period, both days included. */
    method FetchPeriod(account: int, from: Date, to: Date) returns (batch: seq<FioTx>)
      requires account in servers
      ensures batch == Batch(servers[account], Period(from, to))
    {
      var s := servers[account];
      batch := [];
      for i := 0 to |s.movements|
        invariant batch == InPeriod(s.movements[..i], from, to)
      {
        assert s.movements[..i + 1][..i] == s.movements[..i];
        if NotAfter(from, s.movements[i].rt.date) && NotAfter(s.movements[i].rt.date, to) {
          batch := batch + [s.movements[i]];
        }
      }
      assert s.movements[..|s.movements|] == s.movements;
    }

    method GetMaxFioTransactionId(account: int) returns (max: int)
      ensures max == MaxId(table, account)
    {
      max := 0;
      var found := false;
      for i := 0 to |table|
        invariant max == MaxId(table[..i], account) && found == HoldsAny(table[..i], account)
      {
        assert table[..i + 1][..i] == table[..i] && table[..i + 1][i] == table[i];
        if table[i].account == account && (table[i].tx.id > max || !found) {
          max := table[i].tx.id;
        }
        assert HoldsAny(table[..i], account) ==> HoldsAny(table[..i + 1], account) by {
          if k :| 0 <= k < |table[..i]| && table[..i][k].account == account {
            assert table[..i + 1][k].account == account;
          }
        }
        found := found || table[i].account == account;
      }
      assert table[..|table|] == table;
    }

    /** One transaction for the whole batch. `failAt` is the row whose insert fails,
        or the batch length when the commit does. */
    method InsertTransactions(account: int, txs: seq<FioTx>, failAt: Option<nat>) returns (inserted: Option<nat>)
      modifies this`table
      ensures inserted.None? <==> InsertFails(txs, failAt)
      ensures table == if inserted.None? then old(table) else InsertAll(old(table), account, txs)
      ensures inserted.Some? ==> inserted.value == |table| - |old(table)|
    {
      var saved := table;
      var count := 0;
      for i := 0 to |txs|
        invariant table == InsertAll(saved, account, txs[..i]) && count == |table| - |saved|
        invariant failAt.Some? ==> failAt.value >= i
      {
        assert txs[..i + 1][..i] == txs[..i] && txs[..i + 1][i] == txs[i];
        if failAt == Some(i) {
          table := saved;
          return None;
        }
        if !Holds(table, account, txs[i].id) {
          table := table + [Stored(account, txs[i])];
          count := count + 1;
        }
      }
      assert txs[..|txs|] == txs;
      if failAt == Some(|txs|) {
        table := saved;
        return None;
      }
      inserted := Some(count);
    }

    method SetLastDate(run: nat, date: Date, accepted: bool)
      requires Live(View(), run) && run < |runs| && jobs[run].kind.Cursor? && jobs[run].phase.Started?
      modifies this
      ensures View() == Next(old(View()), Reseed(run, date, accepted))
      ensures run in jobs <==> accepted
      ensures accepted ==> Live(View(), run) && run < |runs| && jobs[run] == old(jobs)[run]
    {
      if accepted {
        servers := servers[jobs[run].account := Reseeded(servers[jobs[run].account], date)];
      } else {
        FinishRun(run, Failure, 0, 0);
      }
    }

    /** Fetches and parses; None when the run has ended. */
    method FetchBatch(run: nat, answer: Answer) returns (batch: Option<seq<FioTx>>)
      requires Live(View(), run) && run < |runs| && jobs[run].phase.Started?
      modifies this
      ensures View() == Next(old(View()), Fetch(run, answer))
      ensures run in jobs <==> batch.Some?
      ensures batch.Some? ==>
                Live(View(), run) && run < |runs| && jobs[run] == old(jobs)[run].(phase := Fetched(batch.value))
    {
      var (account, kind) := (jobs[run].account, jobs[run].kind);
      if answer.Refused? {
        FinishRun(run, Failure, 0, 0);
        return None;
      }
      var txs;
      if kind.Cursor? {
        txs := FetchNew(account);
      } else {
        txs := FetchPeriod(account, kind.from, kind.to);
        servers := servers[account := servers[account]];
      }
      if answer.Unread? {
        FinishRun(run, Failure, 0, 0);
        return None;
      }
      if |txs| == 0 {
        FinishRun(run, Success, 0, 0);
        return None;
      }
      jobs := jobs[run := jobs[run].(phase := Fetched(txs))];
      batch := Some(txs);
    }

    method ReadPreviousMax(run: nat, batch: seq<FioTx>, ok: bool) returns (max: Option<int>)
      requires Live(View(), run) && run < |runs| && jobs[run].kind.Cursor? && jobs[run].phase == Fetched(batch)
      modifies this`runs, this`jobs
      ensures View() == Next(old(View()), ReadMax(run, ok))
      ensures run in jobs <==> max.Some?
      ensures max.Some? ==>
                Live(View(), run) && run < |runs| && jobs[run] == old(jobs)[run].(phase := MaxRead(batch, max.value))
    {
      if !ok {
        FinishRun(run, Failure, |batch|, 0);
        return None;
      }
      var previous := GetMaxFioTransactionId(jobs[run].account);
      jobs := jobs[run := jobs[run].(phase := MaxRead(batch, previous))];
      max := Some(previous);
    }

    method InsertBatch(run: nat, batch: seq<FioTx>, failAt: Option<nat>) returns (inserted: Option<nat>)
      requires Live(View(), run) && run < |runs| && ReadyToInsert(jobs[run]) && jobs[run].phase.batch == batch
      modifies this`table, this`runs, this`jobs
      ensures View() == Next(old(View()), Insert(run, failAt))
      ensures inserted.None? <==> InsertFails(batch, failAt)
      ensures run in jobs <==> inserted.Some? || old(jobs)[run].kind.Cursor?
      ensures run in jobs ==> Live(View(), run) && run < |runs|
      ensures run in jobs && inserted.Some? ==> jobs[run] == old(jobs)[run].(phase := Inserted(batch, inserted.value))
      ensures run in jobs && inserted.None? ==> jobs[run] == old(jobs)[run].(phase := InsertFailed(batch, old(jobs)[run].phase.max))
    {
      var job := jobs[run];
      inserted := InsertTransactions(job.account, batch, failAt);
      if inserted.Some? {
        jobs := jobs[run := job.(phase := Inserted(batch, inserted.value))];
      } else if job.kind.Cursor? {
        jobs := jobs[run := job.(phase := InsertFailed(batch, job.phase.max))];
      } else {
        FinishRun(run, Failure, |batch|, 0);
      }
    }

    /** Sends the cursor back after a failed insert, and closes the run. */
    method Settle(run: nat, batch: seq<FioTx>, max: int, inserted: Option<nat>, rewound: bool)
      requires Live(View(), run) && run < |runs|
      requires jobs[run].phase == if inserted.Some? then Inserted(batch, inserted.value) else InsertFailed(batch, max)
      modifies this
      ensures View() == Next(old(View()), Finish(run, rewound))
      ensures run !in jobs
    {
      if inserted.Some? {
        FinishRun(run, Success, |batch|, inserted.value);
        return;
      }
      if rewound {
        servers := servers[jobs[run].account := servers[jobs[run].account].(cursor := max)];
      }
      FinishRun(run, Failure, |batch|, 0);
    }

    /** One cursor sync. Whatever the others do before each of its statements, it is the play of its script. */
    method SyncAccount(account: int, attempt: Attempt, elsewhere: nat -> seq<Action>)
      requires account in servers && forall k :: Foreign(elsewhere(k), |runs|)
      modifies this
      ensures var run := |old(runs)|;
              View() == Played(Next(old(View()), Start(account, Cursor)), run, SyncScript(run, attempt), elsewhere)
    {
      var run := CreateSyncRun(account, Cursor);
      ghost var (w, script) := (View(), SyncScript(run, attempt));
      assert View() == Played(w, run, script[..0], elsewhere);
      hide Next, Played, Execute;
      var k: nat := 0;
      if attempt.reseed.Some? {
        Turn(w, run, script, elsewhere, k);
        SetLastDate(run, attempt.reseed.value.0, attempt.reseed.value.1);
        k := k + 1;
        if !attempt.reseed.value.1 {
          PlayedEnds(w, run, script, elsewhere, k);
          return;
        }
      }
      SyncFromFetch(run, attempt, elsewhere, k, w, script);
    }

    /** The others' turn, after which the job stands where it stood. */
    method Turn(ghost w: World, run: nat, ghost script: seq<Action>, elsewhere: nat -> seq<Action>, k: nat)
      requires k < |script| && View() == Played(w, run, script[..k], elsewhere)
      requires Live(View(), run) && run < |runs| && Foreign(elsewhere(k), run)
      modifies this
      ensures Live(View(), run) && run < |runs| && jobs[run] == old(jobs)[run]
      ensures Played(w, run, script[..k + 1], elsewhere) == Next(View(), script[k])
    {
      assert script[..k + 1][..k] == script[..k];
      ForeignLeavesJob(View(), elsewhere(k), run);
      Elsewhere(elsewhere(k));
    }

    method SyncFromFetch(run: nat, attempt: Attempt, elsewhere: nat -> seq<Action>, start: nat, ghost w: World, ghost script: seq<Action>)
      requires |script| == start + 4
      requires script[start] == Fetch(run, attempt.answer) && script[start + 1] == ReadMax(run, attempt.maxRead)
      requires script[start + 2] == Insert(run, attempt.failAt) && script[start + 3] == Finish(run, attempt.rewound)
      requires View() == Played(w, run, script[..start], elsewhere) && Live(View(), run) && run < |runs|
      requires jobs[run].kind.Cursor? && jobs[run].phase.Started? && forall k :: Foreign(elsewhere(k), run)
      modifies this
      ensures View() == Played(w, run, script, elsewhere)
    {
      hide Next, Played, Execute;
      Turn(w, run, script, elsewhere, start);
      var fetched := FetchBatch(run, attempt.answer);
      if fetched.None? {
        PlayedEnds(w, run, script, elsewhere, start + 1);
        return;
      }
      var batch := fetched.value;
      Turn(w, run, script, elsewhere, start + 1);
      var previousMax := ReadPreviousMax(run, batch, attempt.maxRead);
      if previousMax.None? {
        PlayedEnds(w, run, script, elsewhere, start + 2);
        return;
      }
      StoreBatch(run, batch, previousMax.value, attempt.failAt, attempt.rewound, elsewhere, start + 2, w, script);
    }

    /** From the insert on; `max` matters to a cursor sync only. */
    method StoreBatch(
      run: nat, batch: seq<FioTx>, max: int, failAt: Option<nat>, rewound: bool,
      elsewhere: nat -> seq<Action>, start: nat, ghost w: World, ghost script: seq<Action>)
      requires |script| == start + 2 && script[start] == Insert(run, failAt) && script[start + 1] == Finish(run, rewound)
      requires View() == Played(w, run, script[..start], elsewhere) && Live(View(), run) && run < |runs|
      requires ReadyToInsert(jobs[run]) && jobs[run].phase.batch == batch && (jobs[run].kind.Cursor? ==> jobs[run].phase.max == max)
      requires forall k :: Foreign(elsewhere(k), run)
      modifies this
      ensures View() == Played(w, run, script, elsewhere)
    {
      hide Next, Played, Execute;
      Turn(w, run, script, elsewhere, start);
      var inserted := InsertBatch(run, batch, failAt);
      if run !in jobs {
        PlayedEnds(w, run, script, elsewhere, start + 1);
        return;
      }
      Turn(w, run, script, elsewhere, start + 1);
      Settle(run, batch, max, inserted, rewound);
      assert script[..start + 2] == script;
    }

    /** One backfill, likewise. */
    method BackfillAccount(account: int, from: Date, to: Date, answer: Answer, failAt: Option<nat>, elsewhere: nat -> seq<Action>)
      requires account in servers && forall k :: Foreign(elsewhere(k), |runs|)
      modifies this
      ensures var run := |old(runs)|;
              View() == Played(Next(old(View()), Start(account, Period(from, to))), run, BackfillScript(run, answer, failAt), elsewhere)
    {
      var run := CreateSyncRun(account, Period(from, to));
      ghost var (w, script) := (View(), BackfillScript(run, answer, failAt));
      assert View() == Played(w, run, script[..0], elsewhere);
      hide Next, Played, Execute;
      Turn(w, run, script, elsewhere, 0);
      var fetched := FetchBatch(run, answer);
      if fetched.None? {
        PlayedEnds(w, run, script, elsewhere, 1);
        return;
      }
      StoreBatch(run, fetched.value, 0, failAt, true, elsewhere, 1, w, script);
    }
  }

  /** Nothing is played after the job has ended. */
  lemma {:induction false} PlayedEnds(w: World, run: nat, script: seq<Action>, elsewhere: nat -> seq<Action>, k: nat)
    requires k <= |script| && run !in Played(w, run, script[..k], elsewhere).jobs
    ensures Played(w, run, script, elsewhere) == Played(w, run, script[..k], elsewhere)
    decreases |script|
  {
    if k == |script| {
      assert script[..k] == script;
    } else {
      assert script[..|script| - 1][..k] == script[..k];
      PlayedEnds(w, run, script[..|script| - 1], elsewhere, k);
    }
  }
}
