/** What a whole sync comes to: the safety theorems applied to a job as its code runs it. */
module FioOutcome {
  import opened FioSync
  import opened FioSafety
  import opened FioLoss
  import opened FioOrdinary
  import opened FioJob

  /** Before each of the job's own actions the others act as in ordinary operation. */
  ghost predicate OrdinaryElsewhere(w: World, run: nat, script: seq<Action>, elsewhere: nat -> seq<Action>) {
    && (forall k :: Foreign(elsewhere(k), run))
    && forall i :: 0 <= i < |script| && run in Execute(w, Interleaved(script, elsewhere, i)).jobs ==>
         var before := Execute(w, Interleaved(script, elsewhere, i));
         OneSyncEach(before, elsewhere(i)) && AllOrdinary(before, elsewhere(i))
  }

  /** The state in which the job takes its own action `i`. */
  function Struck(w: World, script: seq<Action>, elsewhere: nat -> seq<Action>, i: nat): World
    requires i < |script|
  {
    Execute(Execute(w, Interleaved(script, elsewhere, i)), elsewhere(i))
  }

  /** So does the job, each time it acts. */
  ghost predicate OrdinaryScript(w: World, script: seq<Action>, elsewhere: nat -> seq<Action>, n: nat)
    requires n <= |script|
  {
    forall i :: 0 <= i < n ==> !script[i].Start? && Ordinary(Struck(w, script, elsewhere, i), script[i])
  }

  /** The whole interleaving is in order. */
  lemma {:induction false} InterleavedOrdinary(w: World, run: nat, script: seq<Action>, elsewhere: nat -> seq<Action>, n: nat)
    requires n <= |script| && OrdinaryElsewhere(w, run, script, elsewhere) && OrdinaryScript(w, script, elsewhere, n)
    requires forall i :: 0 <= i < n ==> run in Execute(w, Interleaved(script, elsewhere, i)).jobs
    ensures OneSyncEach(w, Interleaved(script, elsewhere, n)) && AllOrdinary(w, Interleaved(script, elsewhere, n))
  {
    hide OrdinaryElsewhere, Execute, Next, Interleaved, Struck, OneSyncEach, AllOrdinary, Ordinary;
    NothingIsOrdinary(w, script, elsewhere);
    if n > 0 {
      InterleavedOrdinary(w, run, script, elsewhere, n - 1);
      OthersOrdinary(w, run, script, elsewhere, n - 1);
      OneMoreOrdinary(w, script, elsewhere, n - 1);
    }
  }

  lemma NothingIsOrdinary(w: World, script: seq<Action>, elsewhere: nat -> seq<Action>)
    ensures OneSyncEach(w, Interleaved(script, elsewhere, 0)) && AllOrdinary(w, Interleaved(script, elsewhere, 0))
  {
  }

  lemma OthersOrdinary(w: World, run: nat, script: seq<Action>, elsewhere: nat -> seq<Action>, i: nat)
    requires OrdinaryElsewhere(w, run, script, elsewhere) && i < |script|
    requires run in Execute(w, Interleaved(script, elsewhere, i)).jobs
    ensures var before := Execute(w, Interleaved(script, elsewhere, i));
            OneSyncEach(before, elsewhere(i)) && AllOrdinary(before, elsewhere(i))
  {
  }

  lemma OneMoreOrdinary(w: World, script: seq<Action>, elsewhere: nat -> seq<Action>, n: nat)
    requires n < |script| && !script[n].Start? && Ordinary(Struck(w, script, elsewhere, n), script[n])
    requires OneSyncEach(w, Interleaved(script, elsewhere, n)) && AllOrdinary(w, Interleaved(script, elsewhere, n))
    requires var before := Execute(w, Interleaved(script, elsewhere, n));
             OneSyncEach(before, elsewhere(n)) && AllOrdinary(before, elsewhere(n))
    ensures OneSyncEach(w, Interleaved(script, elsewhere, n + 1)) && AllOrdinary(w, Interleaved(script, elsewhere, n + 1))
  {
    hide Next, Execute, Ordinary, OneSyncEach, AllOrdinary;
    var before := Interleaved(script, elsewhere, n);
    ConditionsConcat(w, before, elsewhere(n));
    ConditionsConcat(w, before + elsewhere(n), [script[n]]);
    ExecuteConcat(w, before, elsewhere(n));
    OneOrdinary(Struck(w, script, elsewhere, n), script[n]);
  }

  lemma OneOrdinary(w: World, a: Action)
    requires Ordinary(w, a) && !a.Start?
    ensures OneSyncEach(w, [a]) && AllOrdinary(w, [a])
  {
    assert [a][1..] == [];
  }

  /** A job that acts ordinarily among ordinary others: nothing is lost at any moment. */
  lemma PlayNeverLoses(w: World, run: nat, script: seq<Action>, elsewhere: nat -> seq<Action>, n: nat)
    requires Fine(w) && TakenFrom(w, run, script, elsewhere, n)
    requires OrdinaryElsewhere(w, run, script, elsewhere) && OrdinaryScript(w, script, elsewhere, n)
    ensures LosslessThroughout(w, Interleaved(script, elsewhere, n)) && Fine(Execute(w, Interleaved(script, elsewhere, n)))
    ensures n > 0 ==> Fine(Struck(w, script, elsewhere, n - 1))
  {
    InterleavedOrdinary(w, run, script, elsewhere, n);
    OrdinaryOperationNeverLoses(w, Interleaved(script, elsewhere, n));
    if n > 0 {
      var before := Interleaved(script, elsewhere, n - 1);
      ConditionsConcat(w, before + elsewhere(n - 1), [script[n - 1]]);
      OrdinaryOperationNeverLoses(w, before + elsewhere(n - 1));
      ExecuteConcat(w, before, elsewhere(n - 1));
    }
  }

  // ---- A cursor sync step by step ----

  function Stage(phase: Phase): nat {
    match phase
    case Started => 0
    case Fetched(_) => 1
    case MaxRead(_, _) => 2
    case InsertFailed(_, _) => 3
    case Inserted(_, _) => 3
  }

  /** The sync is over, or about to take the own action of this number, counted from its fetch. */
  ghost predicate SyncAt(w: World, run: nat, account: int, stage: int) {
    run in w.jobs ==>
      && w.jobs[run].account == account && account in w.servers && w.jobs[run].kind.Cursor? && run < |w.runs|
      && Stage(w.jobs[run].phase) == stage
  }

  lemma SyncAdvances(w: World, run: nat, account: int, a: Action)
    requires run in w.jobs && SyncAt(w, run, account, Stage(w.jobs[run].phase))
    requires match Stage(w.jobs[run].phase)
             case 0 => a.Fetch? && a.run == run
             case 1 => a.ReadMax? && a.run == run
             case 2 => a.Insert? && a.run == run
             case _ => a.Finish? && a.run == run
    ensures SyncAt(Next(w, a), run, account, Stage(w.jobs[run].phase) + 1)
    ensures a.Finish? ==> run !in Next(w, a).jobs
  {
    hide NewSince, InPeriod, MaxId, InsertAll, LastId;
  }

  lemma ReseedStays(w: World, run: nat, account: int, a: Action)
    requires run in w.jobs && SyncAt(w, run, account, 0) && a.Reseed? && a.run == run
    ensures SyncAt(Next(w, a), run, account, 0)
  {
    hide PositionBefore;
  }

  /** Where the sync stands before its own action `i`. */
  lemma {:induction false} SyncStands(w: World, run: nat, account: int, attempt: Attempt, elsewhere: nat -> seq<Action>, i: nat)
    requires var script := SyncScript(run, attempt);
             && i <= |script| && forall j :: 0 <= j < i ==> run in Execute(w, Interleaved(script, elsewhere, j)).jobs
    requires run in w.jobs && SyncAt(w, run, account, 0) && forall k :: Foreign(elsewhere(k), run)
    ensures var first := if attempt.reseed.Some? then 1 else 0;
            SyncAt(Execute(w, Interleaved(SyncScript(run, attempt), elsewhere, i)), run, account, if i < first then 0 else i - first)
    ensures i == |SyncScript(run, attempt)| ==> run !in Execute(w, Interleaved(SyncScript(run, attempt), elsewhere, i)).jobs
  {
    if i > 0 {
      var script := SyncScript(run, attempt);
      SyncStands(w, run, account, attempt, elsewhere, i - 1);
      OwnStep(w, script, elsewhere, i - 1);
      var before := Execute(w, Interleaved(script, elsewhere, i - 1));
      ForeignLeavesJob(before, elsewhere(i - 1), run);
      var struck := Execute(before, elsewhere(i - 1));
      if script[i - 1].Reseed? {
        ReseedStays(struck, run, account, script[i - 1]);
      } else {
        SyncAdvances(struck, run, account, script[i - 1]);
      }
    }
  }

  ghost predicate OrdinaryAttempt(attempt: Attempt) {
    !attempt.answer.Unread? && attempt.maxRead && attempt.rewound
  }

  /** A sync whose answer can be read and whose rewind works, among ordinary others: at no moment
      is a movement lost, and when the sync is over, whether it stored its batch, failed to, or
      got none, our table has every movement above the floor and up to the bank's cursor. */
  lemma OrdinarySyncNeverLoses(w: World, account: int, attempt: Attempt, elsewhere: nat -> seq<Action>) returns (n: nat)
    requires Fine(w) && account in w.servers && Allowed(w, Start(account, Cursor)) && OrdinaryAttempt(attempt)
    requires OrdinaryElsewhere(Next(w, Start(account, Cursor)), |w.runs|, SyncScript(|w.runs|, attempt), elsewhere)
    ensures var (begun, run, script) := (Next(w, Start(account, Cursor)), |w.runs|, SyncScript(|w.runs|, attempt));
            var w' := Played(begun, run, script, elsewhere);
            && TakenFrom(begun, run, script, elsewhere, n) && LosslessThroughout(begun, Interleaved(script, elsewhere, n))
            && Fine(w') && run !in w'.jobs && account in w'.servers && HeldUpTo(w', account, w'.servers[account].cursor)
  {
    var (begun, run, script) := (Next(w, Start(account, Cursor)), |w.runs|, SyncScript(|w.runs|, attempt));
    OrdinaryStep(w, Start(account, Cursor));
    n := PlayedIsExecuted(begun, run, script, elsewhere);
    SyncStarts(w, account);
    SyncIsOrdinary(begun, run, account, attempt, elsewhere, n);
    PlayNeverLoses(begun, run, script, elsewhere, n);
    SyncEnds(begun, run, account, attempt, elsewhere, n);
  }

  lemma SyncStarts(w: World, account: int)
    requires WorldOk(w) && account in w.servers
    ensures var begun := Next(w, Start(account, Cursor)); |w.runs| in begun.jobs && SyncAt(begun, |w.runs|, account, 0)
  {
  }

  lemma SyncIsOrdinary(w: World, run: nat, account: int, attempt: Attempt, elsewhere: nat -> seq<Action>, n: nat)
    requires TakenFrom(w, run, SyncScript(run, attempt), elsewhere, n) && OrdinaryAttempt(attempt)
    requires run in w.jobs && SyncAt(w, run, account, 0) && forall k :: Foreign(elsewhere(k), run)
    ensures OrdinaryScript(w, SyncScript(run, attempt), elsewhere, n)
  {
    var script := SyncScript(run, attempt);
    forall i | 0 <= i < n ensures !script[i].Start? && Ordinary(Struck(w, script, elsewhere, i), script[i]) {
      SyncStands(w, run, account, attempt, elsewhere, i);
      ForeignLeavesJob(Execute(w, Interleaved(script, elsewhere, i)), elsewhere(i), run);
    }
  }

  /** The end of the account's only sync leaves nothing in hand. */
  lemma SyncEnds(w: World, run: nat, account: int, attempt: Attempt, elsewhere: nat -> seq<Action>, n: nat)
    requires TakenFrom(w, run, SyncScript(run, attempt), elsewhere, n) && run in w.jobs && SyncAt(w, run, account, 0)
    requires forall k :: Foreign(elsewhere(k), run)
    requires n > 0 ==> Fine(Struck(w, SyncScript(run, attempt), elsewhere, n - 1))
    requires Lossless(Execute(w, Interleaved(SyncScript(run, attempt), elsewhere, n)))
    ensures var w' := Execute(w, Interleaved(SyncScript(run, attempt), elsewhere, n));
            run !in w'.jobs && account in w'.servers && HeldUpTo(w', account, w'.servers[account].cursor)
  {
    hide Lossless, HeldUpTo;
    var script := SyncScript(run, attempt);
    assert n > 0;
    SyncStands(w, run, account, attempt, elsewhere, n - 1);
    SyncStands(w, run, account, attempt, elsewhere, n);
    ForeignLeavesJob(Execute(w, Interleaved(script, elsewhere, n - 1)), elsewhere(n - 1), run);
    OwnStep(w, script, elsewhere, n - 1);
    LastStepHolds(Struck(w, script, elsewhere, n - 1), script[n - 1], run, account);
  }

  lemma LastStepHolds(w: World, a: Action, run: nat, account: int)
    requires Fine(w) && !a.Start? && Syncing(w, account, run) && account in w.servers
    requires run !in Next(w, a).jobs && Lossless(Next(w, a))
    ensures account in Next(w, a).servers && HeldUpTo(Next(w, a), account, Next(w, a).servers[account].cursor)
  {
    var w' := Next(w, a);
    StepKeepsWorld(w, a);
    JobsOnlyMove(w, a);
    forall tx ensures !InHand(w', account, tx) {
      if other :| other in w'.jobs && w'.jobs[other].account == account && tx in Pending(w'.jobs[other]) {
        assert Syncing(w, account, other);
      }
    }
    assert NoLoss(w', account);
  }
}
