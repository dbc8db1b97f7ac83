/** What a sync or a backfill reports in the end, whatever others do between its statements: its
    status and counts as a function of how its own statements fared. */
module FioVerdict {
  import opened Options
  import opened Calendar
  import opened FioSync
  import opened FioSafety
  import opened FioLoss
  import opened FioJob
  import opened FioReport
  import opened FioOutcome

  /** Refused reseeding, no answer, an unreadable answer, an unread largest id and a failed insert make
      a failure; an empty answer and a stored batch make a success. */
  function Verdict(kind: Kind, batch: seq<FioTx>, attempt: Attempt): (Status, nat) {
    if kind.Cursor? && attempt.reseed.Some? && attempt.reseed.value.1 == false then (Failure, 0)
    else if attempt.answer in {Refused, Unread} then (Failure, 0)
    else if batch == [] then (Success, 0)
    else if kind.Cursor? && !attempt.maxRead then (Failure, |batch|)
    else if attempt.failAt.Some? && attempt.failAt.value <= |batch| then (Failure, |batch|)
    else (Success, |batch|)
  }

  /** The job fares as attempted and holds the batch it was served, or has reported its verdict. */
  ghost predicate OnTrack(w: World, run: nat, account: int, kind: Kind, batch: seq<FioTx>, attempt: Attempt) {
    && WorldOk(w) && run < |w.runs| && w.runs[run].account == account
    && if run in w.jobs then
         && w.jobs[run].account == account && account in w.servers && w.jobs[run].kind == kind
         && Fares(w, w.jobs[run].phase, account, kind, batch, attempt)
       else
         && (w.runs[run].status, w.runs[run].fetched) == Verdict(kind, batch, attempt)
         && (w.runs[run].status == Success ==> AllHeld(w, account, batch))
  }

  ghost predicate Fares(w: World, phase: Phase, account: int, kind: Kind, batch: seq<FioTx>, attempt: Attempt) {
    var known := kind.Cursor? ==> attempt.maxRead;
    var fails := attempt.failAt.Some? && attempt.failAt.value <= |batch|;
    match phase
    case Started => true
    case Fetched(b) => b == batch && Serves(kind, batch, attempt)
    case MaxRead(b, _) => b == batch && Serves(kind, batch, attempt) && known
    case InsertFailed(b, _) => b == batch && Serves(kind, batch, attempt) && known && fails
    case Inserted(b, _) => b == batch && Serves(kind, batch, attempt) && known && !fails && AllHeld(w, account, batch)
  }

  ghost predicate Serves(kind: Kind, batch: seq<FioTx>, attempt: Attempt) {
    batch != [] && attempt.answer == Served && (kind.Cursor? && attempt.reseed.Some? ==> attempt.reseed.value.1)
  }

  /** One of the job's own actions, in a state where it applies. */
  ghost predicate OwnAction(w: World, a: Action, run: nat, kind: Kind, batch: seq<FioTx>, attempt: Attempt)
    requires run in w.jobs && w.jobs[run].account in w.servers
  {
    match w.jobs[run].phase
    case Started =>
      || (kind.Cursor? && attempt.reseed.Some? && a == Reseed(run, attempt.reseed.value.0, attempt.reseed.value.1))
      || (a == Fetch(run, attempt.answer) && batch == Batch(w.servers[w.jobs[run].account], kind)
          && (kind.Cursor? && attempt.reseed.Some? ==> attempt.reseed.value.1))
    case Fetched(_) => if kind.Cursor? then a == ReadMax(run, attempt.maxRead) else a == Insert(run, attempt.failAt)
    case MaxRead(_, _) => a == Insert(run, attempt.failAt)
    case _ => a.Finish? && a.run == run
  }

  lemma ReseedOnTrack(w: World, a: Action, run: nat, account: int, kind: Kind, batch: seq<FioTx>, attempt: Attempt)
    requires OnTrack(w, run, account, kind, batch, attempt) && run in w.jobs && OwnAction(w, a, run, kind, batch, attempt)
    requires a.Reseed?
    ensures OnTrack(Next(w, a), run, account, kind, batch, attempt)
  {
    StepKeepsWorld(w, a);
    hide WorldOk, Batch, MaxId, InsertAll, PositionBefore, Reseeded, Holds, AllHeld;
  }

  lemma FetchEffect(w: World, run: nat, answer: Answer)
    requires Live(w, run) && w.jobs[run].phase.Started? && run < |w.runs|
    ensures var (job, w') := (w.jobs[run], Next(w, Fetch(run, answer)));
            var batch := Batch(w.servers[job.account], job.kind);
            if answer == Served && batch != [] then
              w'.runs == w.runs && run in w'.jobs && w'.jobs[run] == job.(phase := Fetched(batch)) && w'.servers.Keys == w.servers.Keys
            else
              && run !in w'.jobs
              && w'.runs == w.runs[run := w.runs[run].(status := if answer == Served then Success else Failure, fetched := 0, inserted := 0)]
  {
    hide Batch, Advanced;
  }

  lemma FetchOnTrack(w: World, a: Action, run: nat, account: int, kind: Kind, batch: seq<FioTx>, attempt: Attempt)
    requires OnTrack(w, run, account, kind, batch, attempt) && run in w.jobs && OwnAction(w, a, run, kind, batch, attempt)
    requires a.Fetch?
    ensures OnTrack(Next(w, a), run, account, kind, batch, attempt)
  {
    StepKeepsWorld(w, a);
    hide WorldOk, Next, Batch;
    FetchEffect(w, run, attempt.answer);
  }

  lemma ReadMaxOnTrack(w: World, a: Action, run: nat, account: int, kind: Kind, batch: seq<FioTx>, attempt: Attempt)
    requires OnTrack(w, run, account, kind, batch, attempt) && run in w.jobs && OwnAction(w, a, run, kind, batch, attempt)
    requires a.ReadMax?
    ensures OnTrack(Next(w, a), run, account, kind, batch, attempt)
  {
    StepKeepsWorld(w, a);
    hide WorldOk, Batch, MaxId, InsertAll, PositionBefore, Reseeded, Holds, AllHeld;
  }

  lemma InsertEffect(w: World, run: nat, failAt: Option<nat>)
    requires Live(w, run) && ReadyToInsert(w.jobs[run]) && run < |w.runs| && Unique(w.table)
    ensures var (job, w') := (w.jobs[run], Next(w, Insert(run, failAt)));
            var batch := job.phase.batch;
            && w'.servers == w.servers
            && if !(failAt.Some? && failAt.value <= |batch|) then
                 && w'.runs == w.runs && run in w'.jobs
                 && w'.jobs[run] == job.(phase := Inserted(batch, |w'.table| - |w.table|)) && AllHeld(w', job.account, batch)
               else if job.kind.Cursor? then
                 w'.runs == w.runs && run in w'.jobs && w'.jobs[run] == job.(phase := InsertFailed(batch, job.phase.max))
               else
                 && run !in w'.jobs
                 && w'.runs == w.runs[run := w.runs[run].(status := Failure, fetched := |batch|, inserted := 0)]
  {
    InsertAllExact(w.table, w.jobs[run].account, w.jobs[run].phase.batch);
    hide InsertAll;
  }

  lemma InsertOnTrack(w: World, a: Action, run: nat, account: int, kind: Kind, batch: seq<FioTx>, attempt: Attempt)
    requires OnTrack(w, run, account, kind, batch, attempt) && run in w.jobs && OwnAction(w, a, run, kind, batch, attempt)
    requires a.Insert?
    ensures OnTrack(Next(w, a), run, account, kind, batch, attempt)
  {
    StepKeepsWorld(w, a);
    JobIsOk(w, run);
    TableIsUnique(w);
    hide WorldOk, Next, AllHeld;
    InsertEffect(w, run, attempt.failAt);
  }

  lemma FinishOnTrack(w: World, a: Action, run: nat, account: int, kind: Kind, batch: seq<FioTx>, attempt: Attempt)
    requires OnTrack(w, run, account, kind, batch, attempt) && run in w.jobs && OwnAction(w, a, run, kind, batch, attempt)
    requires a.Finish?
    ensures OnTrack(Next(w, a), run, account, kind, batch, attempt)
  {
    StepKeepsWorld(w, a);
    JobIsOk(w, run);
    hide WorldOk, NewSince, InPeriod, MaxId, InsertAll, PositionBefore, Reseeded, Holds;
  }

  lemma OwnStepOnTrack(w: World, a: Action, run: nat, account: int, kind: Kind, batch: seq<FioTx>, attempt: Attempt)
    requires OnTrack(w, run, account, kind, batch, attempt) && run in w.jobs && OwnAction(w, a, run, kind, batch, attempt)
    ensures OnTrack(Next(w, a), run, account, kind, batch, attempt)
  {
    match a
    case Reseed(_, _, _) => ReseedOnTrack(w, a, run, account, kind, batch, attempt);
    case Fetch(_, _) => FetchOnTrack(w, a, run, account, kind, batch, attempt);
    case ReadMax(_, _) => ReadMaxOnTrack(w, a, run, account, kind, batch, attempt);
    case Insert(_, _) => InsertOnTrack(w, a, run, account, kind, batch, attempt);
    case Finish(_, _) => FinishOnTrack(w, a, run, account, kind, batch, attempt);
    case _ =>
  }

  lemma {:induction false} OthersKeepTrack(w: World, actions: seq<Action>, run: nat, account: int, kind: Kind, batch: seq<FioTx>, attempt: Attempt)
    requires OnTrack(w, run, account, kind, batch, attempt) && run in w.jobs && Foreign(actions, run)
    ensures OnTrack(Execute(w, actions), run, account, kind, batch, attempt) && run in Execute(w, actions).jobs
    ensures Execute(w, actions).jobs[run] == w.jobs[run]
    decreases |actions|
  {
    if actions != [] {
      var a := actions[0];
      assert a in actions && forall b :: b in actions[1..] ==> b in actions;
      OtherStepKeepsTrack(w, a, run, account, kind, batch, attempt);
      OthersKeepTrack(Next(w, a), actions[1..], run, account, kind, batch, attempt);
    }
  }

  lemma OtherStepKeepsTrack(w: World, a: Action, run: nat, account: int, kind: Kind, batch: seq<FioTx>, attempt: Attempt)
    requires OnTrack(w, run, account, kind, batch, attempt) && run in w.jobs && (a.Arrive? || a.Start? || a.run != run)
    ensures OnTrack(Next(w, a), run, account, kind, batch, attempt) && run in Next(w, a).jobs && Next(w, a).jobs[run] == w.jobs[run]
  {
    assert Foreign([a], run);
    ForeignLeavesJob(w, [a], run) by {
      JobIsOk(w, run);
      JobNumber(w, run);
    }
    assert [a][1..] == [] && Execute(w, [a]) == Next(w, a);
    StepKeepsWorld(w, a);
    forall r | r in w.jobs ensures r < |w.runs| {
      JobIsOk(w, r);
      JobNumber(w, r);
    }
    hide Next, Execute, WorldOk;
    OthersLeaveRow(w, a, run);
    if w.jobs[run].phase.Inserted? {
      HeldStays(w, a, account, batch);
    }
  }

  // ---- The whole sync ----

  /** Own actions before the fetch. */
  function Before(attempt: Attempt): nat {
    if attempt.reseed.Some? then 1 else 0
  }

  /** What the bank has for the job when it is asked. */
  function ServedTo(w: World, script: seq<Action>, elsewhere: nat -> seq<Action>, fetch: nat, account: int, kind: Kind): seq<FioTx>
    requires fetch < |script|
  {
    var asked := Struck(w, script, elsewhere, fetch);
    if account in asked.servers then Batch(asked.servers[account], kind) else []
  }

  lemma RefusedReseedEnds(w: World, run: nat, date: Date)
    requires Live(w, run) && w.jobs[run].kind.Cursor? && w.jobs[run].phase.Started?
    ensures run !in Next(w, Reseed(run, date, false)).jobs
  {
  }

  lemma {:induction false} SyncOnTrack(w: World, run: nat, account: int, attempt: Attempt, elsewhere: nat -> seq<Action>, n: nat, i: nat)
    requires TakenFrom(w, run, SyncScript(run, attempt), elsewhere, n) && i <= n && forall k :: Foreign(elsewhere(k), run)
    requires run in w.jobs && SyncAt(w, run, account, 0)
    requires OnTrack(w, run, account, Cursor, ServedTo(w, SyncScript(run, attempt), elsewhere, Before(attempt), account, Cursor), attempt)
    ensures var script := SyncScript(run, attempt);
            var p := Execute(w, Interleaved(script, elsewhere, i));
            && OnTrack(p, run, account, Cursor, ServedTo(w, script, elsewhere, Before(attempt), account, Cursor), attempt)
            && (Before(attempt) <= i && run in p.jobs && attempt.reseed.Some? ==> attempt.reseed.value.1)
  {
    hide Next, Execute, Interleaved, OnTrack, Foreign, TakenFrom, SyncAt;
    var script := SyncScript(run, attempt);
    var batch := ServedTo(w, script, elsewhere, Before(attempt), account, Cursor);
    AtStart(w, script, elsewhere);
    if i > 0 {
      UnderWay(w, run, script, elsewhere, n, i);
      SyncOnTrack(w, run, account, attempt, elsewhere, n, i - 1);
      SyncStands(w, run, account, attempt, elsewhere, i - 1);
      var before := Execute(w, Interleaved(script, elsewhere, i - 1));
      OthersKeepTrack(before, elsewhere(i - 1), run, account, Cursor, batch, attempt);
      var struck := Struck(w, script, elsewhere, i - 1);
      SyncAtStays(before, struck, run, account, if i - 1 < Before(attempt) then 0 else i - 1 - Before(attempt), batch, attempt);
      OwnStep(w, script, elsewhere, i - 1);
      SyncTurn(struck, run, account, attempt, batch, i - 1);
    }
  }

  lemma AtStart(w: World, script: seq<Action>, elsewhere: nat -> seq<Action>)
    ensures Execute(w, Interleaved(script, elsewhere, 0)) == w
  {
  }

  lemma UnderWay(w: World, run: nat, script: seq<Action>, elsewhere: nat -> seq<Action>, n: nat, i: nat)
    requires TakenFrom(w, run, script, elsewhere, n) && 0 < i <= n
    ensures i <= |script| && run in Execute(w, Interleaved(script, elsewhere, i - 1)).jobs
    ensures forall j :: 0 <= j < i ==> run in Execute(w, Interleaved(script, elsewhere, j)).jobs
  {
  }

  lemma SyncAtStays(w: World, w': World, run: nat, account: int, stage: int, batch: seq<FioTx>, attempt: Attempt)
    requires run in w.jobs && SyncAt(w, run, account, stage)
    requires run in w'.jobs && w'.jobs[run] == w.jobs[run] && OnTrack(w', run, account, Cursor, batch, attempt)
    ensures SyncAt(w', run, account, stage)
  {
    hide WorldOk;
  }

  /** The sync's own action `i` in the state it strikes. */
  lemma SyncTurn(w: World, run: nat, account: int, attempt: Attempt, batch: seq<FioTx>, i: nat)
    requires i < |SyncScript(run, attempt)| && run in w.jobs && OnTrack(w, run, account, Cursor, batch, attempt)
    requires SyncAt(w, run, account, if i < Before(attempt) then 0 else i - Before(attempt))
    requires i == Before(attempt) ==> batch == if account in w.servers then Batch(w.servers[account], Cursor) else []
    requires Before(attempt) <= i && attempt.reseed.Some? ==> attempt.reseed.value.1
    ensures var w' := Next(w, SyncScript(run, attempt)[i]);
            && OnTrack(w', run, account, Cursor, batch, attempt)
            && (run in w'.jobs && attempt.reseed.Some? ==> attempt.reseed.value.1)
  {
    var a := SyncScript(run, attempt)[i];
    OwnActionOfSync(w, run, account, attempt, batch, i);
    OwnStepOnTrack(w, a, run, account, Cursor, batch, attempt);
    if i < Before(attempt) && !attempt.reseed.value.1 {
      RefusedReseedEnds(w, run, attempt.reseed.value.0);
    }
  }

  lemma OwnActionOfSync(w: World, run: nat, account: int, attempt: Attempt, batch: seq<FioTx>, i: nat)
    requires i < |SyncScript(run, attempt)| && run in w.jobs && OnTrack(w, run, account, Cursor, batch, attempt)
    requires SyncAt(w, run, account, if i < Before(attempt) then 0 else i - Before(attempt))
    requires i == Before(attempt) ==> batch == if account in w.servers then Batch(w.servers[account], Cursor) else []
    requires Before(attempt) <= i && attempt.reseed.Some? ==> attempt.reseed.value.1
    ensures OwnAction(w, SyncScript(run, attempt)[i], run, Cursor, batch, attempt)
  {
    hide WorldOk, Batch;
  }

  /** A sync's run row in the end, with any faults and anybody acting in between: it is closed with the
      verdict its statements add up to, and a success holds every movement it was served. */
  lemma SyncReports(w: World, account: int, attempt: Attempt, elsewhere: nat -> seq<Action>)
    requires WorldOk(w) && account in w.servers && forall k :: Foreign(elsewhere(k), |w.runs|)
    ensures var (begun, run, script) := (Next(w, Start(account, Cursor)), |w.runs|, SyncScript(|w.runs|, attempt));
            var w' := Played(begun, run, script, elsewhere);
            var batch := ServedTo(begun, script, elsewhere, Before(attempt), account, Cursor);
            && run !in w'.jobs && run < |w'.runs| && w'.runs[run].account == account
            && (w'.runs[run].status, w'.runs[run].fetched) == Verdict(Cursor, batch, attempt)
            && (w'.runs[run].status == Success ==> AllHeld(w', account, batch))
  {
    var (begun, run, script) := (Next(w, Start(account, Cursor)), |w.runs|, SyncScript(|w.runs|, attempt));
    var batch := ServedTo(begun, script, elsewhere, Before(attempt), account, Cursor);
    SyncStarts(w, account);
    JobStarts(w, account, Cursor, batch, attempt);
    var n := PlayedIsExecuted(begun, run, script, elsewhere);
    SyncOnTrack(begun, run, account, attempt, elsewhere, n, n);
    SyncStands(begun, run, account, attempt, elsewhere, n);
    hide Next, Execute, Interleaved, Played, WorldOk, AllHeld;
  }

  lemma JobStarts(w: World, account: int, kind: Kind, batch: seq<FioTx>, attempt: Attempt)
    requires WorldOk(w) && account in w.servers
    ensures var begun := Next(w, Start(account, kind));
            |w.runs| in begun.jobs && begun.jobs[|w.runs|].phase.Started? && OnTrack(begun, |w.runs|, account, kind, batch, attempt)
  {
    StepKeepsWorld(w, Start(account, kind));
    hide WorldOk;
  }

  // ---- The whole backfill ----

  function AttemptOf(answer: Answer, failAt: Option<nat>): Attempt {
    Attempt(None, answer, true, failAt, true)
  }

  /** Before the backfill's own action `i`. */
  ghost predicate BackfillAt(w: World, run: nat, i: nat) {
    run in w.jobs ==> match i
                      case 0 => w.jobs[run].phase.Started?
                      case 1 => w.jobs[run].phase.Fetched?
                      case 2 => w.jobs[run].phase.Inserted?
                      case _ => false
  }

  lemma BackfillTurn(w: World, run: nat, account: int, kind: Kind, answer: Answer, failAt: Option<nat>, batch: seq<FioTx>, i: nat)
    requires i < 3 && kind.Period? && run in w.jobs && OnTrack(w, run, account, kind, batch, AttemptOf(answer, failAt)) && BackfillAt(w, run, i)
    requires i == 0 ==> batch == if account in w.servers then Batch(w.servers[account], kind) else []
    ensures var w' := Next(w, BackfillScript(run, answer, failAt)[i]);
            OnTrack(w', run, account, kind, batch, AttemptOf(answer, failAt)) && BackfillAt(w', run, i + 1)
  {
    var a := BackfillScript(run, answer, failAt)[i];
    OwnActionOfBackfill(w, run, account, kind, answer, failAt, batch, i);
    OwnStepOnTrack(w, a, run, account, kind, batch, AttemptOf(answer, failAt));
    hide WorldOk, Batch, MaxId, InsertAll;
  }

  lemma OwnActionOfBackfill(w: World, run: nat, account: int, kind: Kind, answer: Answer, failAt: Option<nat>, batch: seq<FioTx>, i: nat)
    requires i < 3 && kind.Period? && run in w.jobs && OnTrack(w, run, account, kind, batch, AttemptOf(answer, failAt)) && BackfillAt(w, run, i)
    requires i == 0 ==> batch == if account in w.servers then Batch(w.servers[account], kind) else []
    ensures OwnAction(w, BackfillScript(run, answer, failAt)[i], run, kind, batch, AttemptOf(answer, failAt))
  {
    hide WorldOk, Batch;
  }

  lemma {:induction false} BackfillOnTrack(
    w: World, run: nat, account: int, kind: Kind, answer: Answer, failAt: Option<nat>, elsewhere: nat -> seq<Action>, n: nat, i: nat)
    requires TakenFrom(w, run, BackfillScript(run, answer, failAt), elsewhere, n) && i <= n && forall k :: Foreign(elsewhere(k), run)
    requires kind.Period? && run in w.jobs && BackfillAt(w, run, 0)
    requires OnTrack(w, run, account, kind, ServedTo(w, BackfillScript(run, answer, failAt), elsewhere, 0, account, kind), AttemptOf(answer, failAt))
    ensures var script := BackfillScript(run, answer, failAt);
            var p := Execute(w, Interleaved(script, elsewhere, i));
            && OnTrack(p, run, account, kind, ServedTo(w, script, elsewhere, 0, account, kind), AttemptOf(answer, failAt))
            && BackfillAt(p, run, i)
  {
    hide Next, Execute, Interleaved, OnTrack, Foreign, TakenFrom;
    var script := BackfillScript(run, answer, failAt);
    var batch := ServedTo(w, script, elsewhere, 0, account, kind);
    AtStart(w, script, elsewhere);
    if i > 0 {
      UnderWay(w, run, script, elsewhere, n, i);
      BackfillOnTrack(w, run, account, kind, answer, failAt, elsewhere, n, i - 1);
      var before := Execute(w, Interleaved(script, elsewhere, i - 1));
      OthersKeepTrack(before, elsewhere(i - 1), run, account, kind, batch, AttemptOf(answer, failAt));
      OwnStep(w, script, elsewhere, i - 1);
      BackfillTurn(Struck(w, script, elsewhere, i - 1), run, account, kind, answer, failAt, batch, i - 1);
    }
  }

  /** A backfill's run row in the end, likewise. */
  lemma BackfillReports(w: World, account: int, from: Date, to: Date, answer: Answer, failAt: Option<nat>, elsewhere: nat -> seq<Action>)
    requires WorldOk(w) && account in w.servers && forall k :: Foreign(elsewhere(k), |w.runs|)
    ensures var (kind, run, script) := (Period(from, to), |w.runs|, BackfillScript(|w.runs|, answer, failAt));
            var begun := Next(w, Start(account, kind));
            var (w', batch) := (Played(begun, run, script, elsewhere), ServedTo(begun, script, elsewhere, 0, account, kind));
            && run !in w'.jobs && run < |w'.runs| && w'.runs[run].account == account
            && (w'.runs[run].status, w'.runs[run].fetched) == Verdict(kind, batch, AttemptOf(answer, failAt))
            && (w'.runs[run].status == Success ==> AllHeld(w', account, batch))
  {
    var (kind, run, script) := (Period(from, to), |w.runs|, BackfillScript(|w.runs|, answer, failAt));
    var begun := Next(w, Start(account, kind));
    JobStarts(w, account, kind, ServedTo(begun, script, elsewhere, 0, account, kind), AttemptOf(answer, failAt));
    var n := PlayedIsExecuted(begun, run, script, elsewhere);
    BackfillOnTrack(begun, run, account, kind, answer, failAt, elsewhere, n, n);
    hide Next, Execute, Interleaved, Played, WorldOk, AllHeld;
  }
}
