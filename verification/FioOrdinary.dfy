/** Ordinary operation never loses a movement: if what falls between fetch and insert is only a
    failing insert, every rewind works and backfills fetch history, the table never gets a
    hole, so every rewind is harmless. */
module FioOrdinary {
  import opened FioSync
  import opened FioSafety
  import opened FioLoss

  ghost predicate Gapless(w: World) {
    forall account :: account in w.servers ==> NoGap(w, account)
  }

  /** A backfill holds nothing above what the account already has; an id read is at most the largest now. */
  ghost predicate JobFine(w: World, run: nat)
    requires run in w.jobs
  {
    var (job, max) := (w.jobs[run], MaxId(w.table, w.jobs[run].account));
    && (job.kind.Period? && job.phase.Fetched? ==> forall tx :: tx in job.phase.batch ==> tx.id <= max)
    && (job.phase.MaxRead? || job.phase.InsertFailed? ==> job.phase.max <= max)
  }

  ghost predicate Fine(w: World) {
    WorldOk(w) && Solo(w) && Lossless(w) && Gapless(w) && forall run :: run in w.jobs ==> JobFine(w, run)
  }

  ghost predicate Ordinary(w: World, a: Action) {
    match a
    case Fetch(run, answer) =>
      Live(w, run) && w.jobs[run].phase.Started? ==>
        if w.jobs[run].kind.Cursor? then !answer.Unread?
        else forall tx :: tx in Batch(w.servers[w.jobs[run].account], w.jobs[run].kind) ==> tx.id <= MaxId(w.table, w.jobs[run].account)
    case ReadMax(run, ok) => ok
    case Finish(run, rewound) => Live(w, run) && w.jobs[run].phase.InsertFailed? ==> rewound
    case Panic(run) => run in w.jobs ==> Pending(w.jobs[run]) == []
    case Vanish(run) => run in w.jobs ==> Pending(w.jobs[run]) == []
    case _ => true
  }

  ghost predicate AllOrdinary(w: World, actions: seq<Action>)
    decreases |actions|
  {
    actions != [] ==> Ordinary(w, actions[0]) && AllOrdinary(Next(w, actions[0]), actions[1..])
  }

  lemma OrdinaryIsHarmless(w: World, a: Action)
    requires Fine(w) && Ordinary(w, a)
    ensures Harmless(w, a)
  {
    if (a.Panic? || a.Vanish?) && Live(w, a.run) {
      NothingPending(w, a.run);
    } else if a.Finish? && Live(w, a.run) && w.jobs[a.run].phase.InsertFailed? {
      assert JobFine(w, a.run);
      assert NoGap(w, w.jobs[a.run].account);
    }
  }

  // ---- The largest id ----

  lemma MaxIdHeld(w: World, account: int, id: int)
    requires Holds(w.table, account, id)
    ensures id <= MaxId(w.table, account)
    ensures Holds(w.table, account, MaxId(w.table, account))
  {
    MaxIdExact(w.table, account);
    var i :| 0 <= i < |w.table| && w.table[i].account == account && w.table[i].tx.id == id;
    assert w.table[i] in w.table;
  }

  /** A larger table has a larger maximum, made of what it gained. */
  lemma MaxIdGrows(w: World, w': World, account: int)
    requires WorldOk(w) && WorldOk(w') && account in w.servers && account in w'.servers
    requires forall id :: Holds(w.table, account, id) ==> Holds(w'.table, account, id)
    ensures MaxId(w.table, account) <= MaxId(w'.table, account)
    ensures MaxId(w'.table, account) == MaxId(w.table, account) || Holds(w'.table, account, MaxId(w'.table, account))
  {
    MaxIdInside(w, account);
    MaxIdInside(w', account);
    MaxIdExact(w.table, account);
    MaxIdExact(w'.table, account);
    if HoldsAny(w.table, account) {
      MaxIdHeld(w', account, MaxId(w.table, account));
    }
  }

  lemma SameMax(w: World, w': World, account: int)
    requires WorldOk(w) && WorldOk(w') && account in w.servers && account in w'.servers
    requires forall id :: Holds(w.table, account, id) <==> Holds(w'.table, account, id)
    ensures MaxId(w'.table, account) == MaxId(w.table, account)
  {
    MaxIdGrows(w, w', account);
    MaxIdGrows(w', w, account);
  }

  // ---- No step makes a hole ----

  /** Storing a batch: a sync's reaches up to the cursor without a hole, a backfill's adds nothing on top. */
  lemma StoringMakesNoHole(w: World, w': World, run: nat)
    requires Fine(w) && WorldOk(w') && Live(w, run) && ReadyToInsert(w.jobs[run]) && w'.servers == w.servers
    requires w'.table == InsertAll(w.table, w.jobs[run].account, w.jobs[run].phase.batch)
    ensures NoGap(w', w.jobs[run].account)
  {
    var (account, batch) := (w.jobs[run].account, w.jobs[run].phase.batch);
    var s := w.servers[account];
    InsertAllExact(w.table, account, batch);
    MaxIdGrows(w, w', account);
    assert JobFine(w, run) && NoGap(w, account) && NoLoss(w, account);
    forall tx | tx in s.movements && s.floor < tx.id <= MaxId(w'.table, account) ensures Holds(w'.table, account, tx.id) {
      if tx.id > MaxId(w.table, account) {
        AboveTheOldTop(w, w', run, tx);
      }
    }
  }

  /** Above the old largest id, whatever the bank still had to give is in the batch. */
  lemma AboveTheOldTop(w: World, w': World, run: nat, tx: FioTx)
    requires WorldOk(w) && Solo(w) && Live(w, run) && ReadyToInsert(w.jobs[run]) && JobFine(w, run)
    requires w'.table == InsertAll(w.table, w.jobs[run].account, w.jobs[run].phase.batch)
    requires var (account, s) := (w.jobs[run].account, w.servers[w.jobs[run].account]);
             && NoLoss(w, account) && tx in s.movements && s.floor < tx.id
             && MaxId(w.table, account) < tx.id <= MaxId(w'.table, account)
             && Holds(w'.table, account, MaxId(w'.table, account))
    ensures Holds(w'.table, w.jobs[run].account, tx.id)
  {
    var account := w.jobs[run].account;
    TableIsUnique(w);
    InsertAllExact(w.table, account, w.jobs[run].phase.batch);
    TopIsNew(w, w', run);
    PendingInside(w, run);
    assert tx.id <= w.servers[account].cursor;
    if InHand(w, account, tx) {
      OnlyInHand(w, run, account, tx) by {
        assert Syncing(w, account, run);
      }
    }
  }

  /** If the largest id rose, it is one of a sync's batch. */
  lemma TopIsNew(w: World, w': World, run: nat)
    requires WorldOk(w) && Live(w, run) && ReadyToInsert(w.jobs[run]) && JobFine(w, run)
    requires w'.table == InsertAll(w.table, w.jobs[run].account, w.jobs[run].phase.batch)
    requires var account := w.jobs[run].account;
             MaxId(w'.table, account) > MaxId(w.table, account) && Holds(w'.table, account, MaxId(w'.table, account))
    ensures w.jobs[run].kind.Cursor?
    ensures exists tx :: tx in w.jobs[run].phase.batch && tx.id == MaxId(w'.table, w.jobs[run].account)
  {
    var account := w.jobs[run].account;
    InsertAllExact(w.table, account, w.jobs[run].phase.batch);
    if Holds(w.table, account, MaxId(w'.table, account)) {
      MaxIdHeld(w, account, MaxId(w'.table, account));
    }
  }

  /** An account whose holdings and movements stay, but for higher arrivals, has no new hole. */
  lemma QuietMakesNoHole(w: World, w': World, account: int)
    requires WorldOk(w) && WorldOk(w') && account in w.servers && account in w'.servers && NoGap(w, account)
    requires forall id :: Holds(w'.table, account, id) <==> Holds(w.table, account, id)
    requires w.servers[account].floor <= w'.servers[account].floor
    requires forall tx :: tx in w'.servers[account].movements && tx.id <= LastId(w.servers[account].movements) ==>
               tx in w.servers[account].movements
    ensures NoGap(w', account)
  {
    SameMax(w, w', account);
    MaxIdInside(w, account);
  }

  lemma FloorOnlyRises(w: World, a: Action, account: int)
    requires account in w.servers
    ensures account in Next(w, a).servers && w.servers[account].floor <= Next(w, a).servers[account].floor
  {
    hide NewSince, InPeriod, MaxId, InsertAll, PositionBefore;
  }

  predicate Stores(w: World, a: Action) {
    a.Insert? && Live(w, a.run) && ReadyToInsert(w.jobs[a.run]) && !InsertFails(w.jobs[a.run].phase.batch, a.failAt)
  }

  lemma OnlyStoringStores(w: World, a: Action)
    ensures !Stores(w, a) ==> Next(w, a).table == w.table
    ensures Stores(w, a) ==> Next(w, a).servers == w.servers
    ensures Stores(w, a) ==> Next(w, a).table == InsertAll(w.table, w.jobs[a.run].account, w.jobs[a.run].phase.batch)
  {
    hide NewSince, InPeriod, MaxId, InsertAll, PositionBefore;
  }

  lemma StepMakesNoHole(w: World, a: Action, account: int)
    requires Fine(w) && account in w.servers && WorldOk(Next(w, a)) && account in Next(w, a).servers
    ensures NoGap(Next(w, a), account)
  {
    hide WorldOk, Solo, Next, NoGap, Lossless, InsertAll;
    OnlyStoringStores(w, a);
    if Stores(w, a) && w.jobs[a.run].account == account {
      StoringMakesNoHole(w, Next(w, a), a.run);
    } else {
      if Stores(w, a) {
        TableIsUnique(w);
        InsertAllExact(w.table, w.jobs[a.run].account, w.jobs[a.run].phase.batch);
      }
      FloorOnlyRises(w, a, account);
      ServerIsOk(w, account);
      MovementsLonger(w, a, account);
      QuietMakesNoHole(w, Next(w, a), account);
    }
  }

  // ---- Jobs stay fine ----

  lemma JobStaysFine(w: World, a: Action, run: nat)
    requires Fine(w) && Ordinary(w, a) && WorldOk(Next(w, a)) && run in Next(w, a).jobs
    ensures JobFine(Next(w, a), run)
  {
    hide WorldOk, Solo, Lossless, Gapless, InsertAll, NewSince, InPeriod, PositionBefore;
    if run in w.jobs {
      JobIsOk(w, run);
      TableOnlyGrows(w, a, w.jobs[run].account);
      FloorOnlyRises(w, a, w.jobs[run].account);
      MaxIdGrows(w, Next(w, a), w.jobs[run].account);
      assert JobFine(w, run);
      FineOrRead(w, a, run);
    } else {
      NewJobIsStarted(w, a, run);
    }
  }

  lemma NewJobIsStarted(w: World, a: Action, run: nat)
    requires run in Next(w, a).jobs && run !in w.jobs
    ensures Next(w, a).jobs[run].phase.Started?
  {
    if !a.Start? {
      JobsOnlyMove(w, a);
    }
  }

  /** A job keeps its bound, or just got it from the table or from an ordinary fetch. */
  lemma FineOrRead(w: World, a: Action, run: nat)
    requires run in w.jobs && JobOk(w, run) && JobFine(w, run) && Ordinary(w, a) && run in Next(w, a).jobs
    requires MaxId(w.table, w.jobs[run].account) <= MaxId(Next(w, a).table, w.jobs[run].account)
    ensures JobFine(Next(w, a), run)
  {
    hide InsertAll, NewSince, InPeriod, PositionBefore, MaxId;
  }

  lemma OrdinaryStep(w: World, a: Action)
    requires Fine(w) && Ordinary(w, a) && Allowed(w, a)
    ensures Fine(Next(w, a))
  {
    hide WorldOk, Solo, Lossless, NoGap, JobFine, Ordinary, Allowed, Next;
    OrdinaryIsHarmless(w, a);
    StepExact(w, a);
    StepKeepsWorld(w, a);
    SoloKeeps(w, a);
    forall account | account in Next(w, a).servers ensures NoGap(Next(w, a), account) {
      StepMakesNoHole(w, a, account);
    }
    forall run | run in Next(w, a).jobs ensures JobFine(Next(w, a), run) {
      JobStaysFine(w, a, run);
    }
  }

  /** Across refused fetches, empty answers, reseeding, failed inserts and their rewinds, with
      backfills and arrivals between any two steps, no movement above the floor and up to
      the cursor is ever out of the table and out of hand, and the table never gets a hole. */
  lemma {:induction false} OrdinaryOperationNeverLoses(w: World, actions: seq<Action>)
    requires Fine(w) && OneSyncEach(w, actions) && AllOrdinary(w, actions)
    ensures LosslessThroughout(w, actions) && Fine(Execute(w, actions))
    decreases |actions|
  {
    if actions != [] {
      OrdinaryStep(w, actions[0]);
      OrdinaryOperationNeverLoses(Next(w, actions[0]), actions[1..]);
    }
  }

  lemma {:induction false} ConditionsConcat(w: World, a: seq<Action>, b: seq<Action>)
    ensures OneSyncEach(w, a + b) <==> OneSyncEach(w, a) && OneSyncEach(Execute(w, a), b)
    ensures AllOrdinary(w, a + b) <==> AllOrdinary(w, a) && AllOrdinary(Execute(w, a), b)
    decreases |a|
  {
    if a == [] {
      assert a + b == b;
    } else {
      assert (a + b)[0] == a[0] && (a + b)[1..] == a[1..] + b;
      ConditionsConcat(Next(w, a[0]), a[1..], b);
    }
  }
}
