/** When the cursor protocol loses a movement, with any number of syncs and backfills taking
    their steps in any order. A movement counts as safe while it is in our table, in the hands
    of a sync that has fetched it, or still to be served by the bank. */
module FioLoss {
  import opened Options
  import opened Calendar
  import opened FioSync
  import opened FioSafety

  /** The batch a cursor sync still has to store or give back. */
  function Pending(job: Job): seq<FioTx> {
    if job.kind.Cursor? && !job.phase.Started? && !job.phase.Inserted? then job.phase.batch else []
  }

  ghost predicate InHand(w: World, account: int, tx: FioTx) {
    exists run :: run in w.jobs && w.jobs[run].account == account && tx in Pending(w.jobs[run])
  }

  /** Every movement above the floor and up to the bank's cursor is stored or in hand. */
  ghost predicate NoLoss(w: World, account: int)
    requires account in w.servers
  {
    var s := w.servers[account];
    forall tx :: tx in s.movements && s.floor < tx.id <= s.cursor ==> Holds(w.table, account, tx.id) || InHand(w, account, tx)
  }

  ghost predicate Lossless(w: World) {
    forall account :: account in w.servers ==> NoLoss(w, account)
  }

  /** Every movement above the floor and up to `bound` is stored. */
  ghost predicate HeldUpTo(w: World, account: int, bound: int)
    requires account in w.servers
  {
    forall tx :: tx in w.servers[account].movements && w.servers[account].floor < tx.id <= bound ==> Holds(w.table, account, tx.id)
  }

  /** Our table has no hole up to its own largest id. */
  ghost predicate NoGap(w: World, account: int)
    requires account in w.servers
  {
    HeldUpTo(w, account, MaxId(w.table, account))
  }

  // ---- One cursor sync per account, where that is asked for ----

  ghost predicate Syncing(w: World, account: int, run: nat) {
    run in w.jobs && w.jobs[run].account == account && w.jobs[run].kind.Cursor?
  }

  /** At most one cursor sync per account, and what it holds lies up to the bank's cursor. */
  ghost predicate Solo(w: World) {
    && (forall a, x, y :: Syncing(w, a, x) && Syncing(w, a, y) ==> x == y)
    && (forall a, run, tx :: a in w.servers && Syncing(w, a, run) && tx in Pending(w.jobs[run]) ==> tx.id <= w.servers[a].cursor)
  }

  ghost predicate Allowed(w: World, a: Action) {
    a.Start? && a.kind.Cursor? ==> forall run :: !Syncing(w, a.account, run)
  }

  ghost predicate OneSyncEach(w: World, actions: seq<Action>)
    decreases |actions|
  {
    actions != [] ==> Allowed(w, actions[0]) && OneSyncEach(Next(w, actions[0]), actions[1..])
  }

  // ---- Which steps can lose ----

  /** In the hands of another sync of the account. */
  ghost predicate InHandBeside(w: World, account: int, run: nat, tx: FioTx) {
    exists r :: r in w.jobs && r != run && w.jobs[r].account == account && tx in Pending(w.jobs[r])
  }

  /** Safe without the job `run`. */
  ghost predicate Kept(w: World, account: int, run: nat, tx: FioTx) {
    Holds(w.table, account, tx.id) || InHandBeside(w, account, run, tx)
  }

  /** Of the job's batch, the bank will serve again what is not kept. */
  ghost predicate BatchKept(w: World, run: nat)
    requires Live(w, run)
  {
    var (account, s) := (w.jobs[run].account, w.servers[w.jobs[run].account]);
    forall tx :: tx in Pending(w.jobs[run]) && s.floor < tx.id <= s.cursor ==> Kept(w, account, run, tx)
  }

  /** The bank's next answer holds nothing new to us. */
  ghost predicate NothingNew(w: World, run: nat)
    requires Live(w, run)
  {
    var (account, s) := (w.jobs[run].account, w.servers[w.jobs[run].account]);
    forall tx :: tx in s.movements && tx.id > s.cursor && tx.id > s.floor ==> Kept(w, account, run, tx)
  }

  /** Everything up to the position is kept. */
  ghost predicate KeptUpTo(w: World, run: nat, bound: int)
    requires Live(w, run)
  {
    var (account, s) := (w.jobs[run].account, w.servers[w.jobs[run].account]);
    forall tx :: tx in s.movements && s.floor < tx.id <= bound ==> Kept(w, account, run, tx)
  }

  /** Steps that let go of a batch, and what each needs of the state it strikes. */
  ghost predicate Harmless(w: World, a: Action) {
    match a
    case Fetch(run, answer) =>
      answer.Unread? && Live(w, run) && w.jobs[run].kind.Cursor? && w.jobs[run].phase.Started? ==> NothingNew(w, run)
    case ReadMax(run, ok) => !ok && Live(w, run) && w.jobs[run].phase.Fetched? ==> BatchKept(w, run)
    case Finish(run, rewound) =>
      Live(w, run) && w.jobs[run].phase.InsertFailed? ==>
        if rewound then KeptUpTo(w, run, w.jobs[run].phase.max) else BatchKept(w, run)
    case Panic(run) => Live(w, run) ==> BatchKept(w, run)
    case Vanish(run) => Live(w, run) ==> BatchKept(w, run)
    case _ => true
  }

  // ---- Every step: no loss if and only if harmless ----

  /** The jobs are the same but for one, whose account and kind stay. */
  ghost predicate OnlyJob(w: World, w': World, run: nat) {
    && (forall r :: r in w'.jobs && r != run ==> r in w.jobs && w'.jobs[r] == w.jobs[r])
    && (forall r :: r in w.jobs && r != run ==> r in w'.jobs)
  }

  /** Other accounts see the same server, the same batches in hand, and a table that agrees on them. */
  lemma OthersKept(w: World, w': World, run: nat, account: int, other: int)
    requires other in w.servers && other in w'.servers && other != account && w'.servers[other] == w.servers[other]
    requires OnlyJob(w, w', run)
    requires run in w.jobs ==> w.jobs[run].account == account
    requires run in w'.jobs ==> w'.jobs[run].account == account
    requires forall id :: Holds(w'.table, other, id) <==> Holds(w.table, other, id)
    ensures NoLoss(w', other) <==> NoLoss(w, other)
  {
    assert forall tx :: InHand(w', other, tx) <==> InHand(w, other, tx);
  }

  lemma LosslessAt(w: World, w': World, run: nat, account: int)
    requires Lossless(w) && account in w'.servers && w'.servers.Keys == w.servers.Keys
    requires forall other :: other in w.servers && other != account ==>
               w'.servers[other] == w.servers[other] && forall id :: Holds(w'.table, other, id) <==> Holds(w.table, other, id)
    requires OnlyJob(w, w', run)
    requires run in w.jobs ==> w.jobs[run].account == account
    requires run in w'.jobs ==> w'.jobs[run].account == account
    ensures Lossless(w') <==> NoLoss(w', account)
  {
    forall other | other in w'.servers && other != account ensures NoLoss(w', other) {
      OthersKept(w, w', run, account, other);
    }
  }

  lemma OnlyInHand(w: World, run: nat, account: int, tx: FioTx)
    requires Solo(w) && Syncing(w, account, run) && InHand(w, account, tx)
    ensures tx in Pending(w.jobs[run])
  {
    var r :| r in w.jobs && w.jobs[r].account == account && tx in Pending(w.jobs[r]);
    assert Syncing(w, account, r);
  }

  lemma JobIsOk(w: World, run: nat)
    requires WorldOk(w) && run in w.jobs
    ensures JobOk(w, run)
  {
  }

  lemma TableIsUnique(w: World)
    requires WorldOk(w)
    ensures Unique(w.table)
  {
  }

  lemma ServerIsOk(w: World, account: int)
    requires WorldOk(w) && account in w.servers
    ensures Increasing(w.servers[account].movements) && w.servers[account].cursor <= LastId(w.servers[account].movements)
  {
  }

  lemma NothingPending(w: World, run: nat)
    requires Live(w, run) && Pending(w.jobs[run]) == []
    ensures BatchKept(w, run)
  {
  }

  /** What is in hand besides the one job that changes stays in hand. */
  lemma HandsAfter(w: World, w': World, run: nat, account: int)
    requires OnlyJob(w, w', run)
    ensures forall tx :: InHand(w', account, tx) <==>
              || InHandBeside(w, account, run, tx)
              || (run in w'.jobs && w'.jobs[run].account == account && tx in Pending(w'.jobs[run]))
  {
    forall tx | InHandBeside(w, account, run, tx) ensures InHand(w', account, tx) {
      var r :| r in w.jobs && r != run && w.jobs[r].account == account && tx in Pending(w.jobs[r]);
      assert r in w'.jobs && w'.jobs[r] == w.jobs[r];
    }
  }

  lemma HandsBefore(w: World, run: nat, account: int)
    ensures forall tx :: InHand(w, account, tx) <==>
              || InHandBeside(w, account, run, tx)
              || (run in w.jobs && w.jobs[run].account == account && tx in Pending(w.jobs[run]))
  {
  }

  /** A job that ends, having stored nothing, loses exactly what it alone had. */
  lemma DropExact(w: World, w': World, run: nat)
    requires WorldOk(w) && Lossless(w) && Live(w, run)
    requires w'.servers == w.servers && w'.table == w.table && run !in w'.jobs && OnlyJob(w, w', run)
    ensures Lossless(w') <==> BatchKept(w, run)
  {
    hide WorldOk;
    var account := w.jobs[run].account;
    LosslessAt(w, w', run, account);
    JobIsOk(w, run);
    assert NoLoss(w, account);
    hide Lossless, InHand, InHandBeside;
    HandsBefore(w, run, account);
    HandsAfter(w, w', run, account);
  }

  /** A job that moves on with the same batch in hand. */
  lemma MoveExact(w: World, w': World, run: nat)
    requires Lossless(w) && run in w.jobs && run in w'.jobs
    requires w'.servers == w.servers && w'.table == w.table && OnlyJob(w, w', run)
    requires w'.jobs[run].account == w.jobs[run].account && Pending(w'.jobs[run]) == Pending(w.jobs[run])
    ensures Lossless(w')
  {
    forall account, tx ensures InHand(w', account, tx) <==> InHand(w, account, tx) {
      if InHand(w, account, tx) {
        var r :| r in w.jobs && w.jobs[r].account == account && tx in Pending(w.jobs[r]);
        assert r in w'.jobs && tx in Pending(w'.jobs[r]);
      }
    }
    forall account | account in w'.servers ensures NoLoss(w', account) {
      assert NoLoss(w, account);
    }
  }

  lemma ArriveExact(w: World, account: int, tx: FioTx)
    requires WorldOk(w) && Lossless(w)
    ensures Lossless(Next(w, Arrive(account, tx)))
  {
    var w' := Next(w, Arrive(account, tx));
    if w' != w {
      LosslessAt(w, w', |w.runs|, account) by {
        forall r | r in w.jobs ensures r < |w.runs| {
          assert JobOk(w, r);
        }
      }
      assert NoLoss(w, account);
      assert forall other :: InHand(w', account, other) <==> InHand(w, account, other);
    }
  }

  lemma StartExact(w: World, account: int, kind: Kind)
    requires WorldOk(w) && Lossless(w)
    ensures Lossless(Next(w, Start(account, kind)))
  {
    var w' := Next(w, Start(account, kind));
    forall r | r in w.jobs ensures r < |w.runs| {
      assert JobOk(w, r);
    }
    forall other, tx ensures InHand(w', other, tx) <==> InHand(w, other, tx) {
      if InHand(w, other, tx) {
        var r :| r in w.jobs && w.jobs[r].account == other && tx in Pending(w.jobs[r]);
        assert r in w'.jobs && w'.jobs[r] == w.jobs[r];
      }
    }
    forall other | other in w'.servers ensures NoLoss(w', other) {
      assert NoLoss(w, other);
    }
  }

  /** A seed position after the cursor becomes the floor; one before it loses nothing. */
  lemma ReseedGivesUpOpenly(w: World, w': World, account: int, date: Date)
    requires account in w.servers && NoLoss(w, account)
    requires w'.servers == w.servers[account := Reseeded(w.servers[account], date)] && w'.table == w.table && w'.jobs == w.jobs
    ensures NoLoss(w', account)
  {
    assert forall tx :: InHand(w', account, tx) <==> InHand(w, account, tx);
  }

  lemma ReseedExact(w: World, run: nat, date: Date, accepted: bool)
    requires WorldOk(w) && Lossless(w)
    ensures Lossless(Next(w, Reseed(run, date, accepted)))
  {
    hide WorldOk, BatchKept;
    var w' := Next(w, Reseed(run, date, accepted));
    if Live(w, run) && w.jobs[run].kind.Cursor? && w.jobs[run].phase.Started? {
      var account := w.jobs[run].account;
      if accepted {
        LosslessAt(w, w', run, account);
        ReseedGivesUpOpenly(w, w', account, date);
      } else {
        DropExact(w, w', run);
        NothingPending(w, run);
      }
    }
  }

  /** A sync fetches. */
  lemma SyncFetchExact(w: World, w': World, run: nat, account: int)
    requires Live(w, run) && Syncing(w, account, run) && w.jobs[run].phase.Started? && NoLoss(w, account)
    requires var s := w.servers[account];
             && Increasing(s.movements) && s.cursor <= LastId(s.movements)
             && w'.servers == w.servers[account := Advanced(s, Cursor)]
    requires w'.table == w.table && OnlyJob(w, w', run)
    requires run in w'.jobs ==> w'.jobs[run].account == account && Pending(w'.jobs[run]) == Batch(w.servers[account], Cursor)
    ensures NoLoss(w', account) <==> run in w'.jobs || NothingNew(w, run)
  {
    var s := w.servers[account];
    BatchInside(s, Cursor);
    LastIsLargest(s.movements);
    HandsBefore(w, run, account);
    HandsAfter(w, w', run, account);
    hide InHand, InHandBeside, Batch, Advanced;
  }

  lemma EmptyIsNothingNew(w: World, run: nat)
    requires Live(w, run) && Batch(w.servers[w.jobs[run].account], Cursor) == []
    ensures NothingNew(w, run)
  {
    var s := w.servers[w.jobs[run].account];
    NewSinceExact(s.movements, s.cursor);
    assert forall tx :: tx in Batch(s, Cursor) <==> tx in s.movements && tx.id > s.cursor;
  }

  lemma FetchExact(w: World, run: nat, answer: Answer)
    requires WorldOk(w) && Lossless(w) && Live(w, run) && w.jobs[run].phase.Started?
    ensures Lossless(FetchStep(w, run, answer)) <==> Harmless(w, Fetch(run, answer))
  {
    hide WorldOk, NoLoss, BatchKept, NothingNew;
    ServerIsOk(w, w.jobs[run].account);
    var (job, w') := (w.jobs[run], FetchStep(w, run, answer));
    var batch := Batch(w.servers[job.account], job.kind);
    BatchInside(w.servers[job.account], job.kind);
    if answer.Refused? || (job.kind.Period? && (answer.Unread? || batch == [])) {
      DropExact(w, w', run);
      NothingPending(w, run);
    } else if job.kind.Period? {
      MoveExact(w, w', run);
    } else {
      LosslessAt(w, w', run, job.account);
      assert NoLoss(w, job.account) && Syncing(w, job.account, run);
      SyncFetchExact(w, w', run, job.account);
      if batch == [] {
        EmptyIsNothingNew(w, run);
      }
    }
  }

  lemma InsertExact(w: World, run: nat, failAt: Option<nat>)
    requires WorldOk(w) && Lossless(w) && Live(w, run) && ReadyToInsert(w.jobs[run])
    ensures Lossless(InsertStep(w, run, failAt))
  {
    hide WorldOk, NoLoss, BatchKept;
    JobIsOk(w, run);
    var (job, w') := (w.jobs[run], InsertStep(w, run, failAt));
    if InsertFails(job.phase.batch, failAt) {
      if job.kind.Cursor? {
        MoveExact(w, w', run);
      } else {
        DropExact(w, w', run);
        NothingPending(w, run);
      }
    } else {
      assert Unique(w.table) by { TableIsUnique(w); }
      InsertAllExact(w.table, job.account, job.phase.batch);
      LosslessAt(w, w', run, job.account);
      StoredExact(w, w', run);
    }
  }

  /** Storing a batch takes it out of hand without losing anything. */
  lemma StoredExact(w: World, w': World, run: nat)
    requires Live(w, run) && ReadyToInsert(w.jobs[run]) && NoLoss(w, w.jobs[run].account)
    requires w'.servers == w.servers && OnlyJob(w, w', run)
    requires forall id :: Holds(w'.table, w.jobs[run].account, id)
                          <==> Holds(w.table, w.jobs[run].account, id) || exists tx :: tx in w.jobs[run].phase.batch && tx.id == id
    ensures NoLoss(w', w.jobs[run].account)
  {
    var (account, s) := (w.jobs[run].account, w.servers[w.jobs[run].account]);
    forall tx | tx in s.movements && s.floor < tx.id <= s.cursor && !Holds(w'.table, account, tx.id)
      ensures InHand(w', account, tx)
    {
      var r :| r in w.jobs && w.jobs[r].account == account && tx in Pending(w.jobs[r]);
      assert r != run;
      assert r in w'.jobs && tx in Pending(w'.jobs[r]);
    }
  }

  /** After a rewind that works, everything up to the position must be kept. */
  lemma RewindExact(w: World, w': World, run: nat)
    requires Live(w, run) && w.jobs[run].phase.InsertFailed?
    requires var account := w.jobs[run].account;
             w'.servers == w.servers[account := w.servers[account].(cursor := w.jobs[run].phase.max)]
    requires w'.table == w.table && run !in w'.jobs && OnlyJob(w, w', run)
    ensures NoLoss(w', w.jobs[run].account) <==> KeptUpTo(w, run, w.jobs[run].phase.max)
  {
    HandsAfter(w, w', run, w.jobs[run].account);
    hide InHand, InHandBeside;
  }

  lemma FinishExact(w: World, run: nat, rewound: bool)
    requires WorldOk(w) && Lossless(w) && Live(w, run)
    ensures Lossless(FinishStep(w, run, rewound)) <==> Harmless(w, Finish(run, rewound))
  {
    hide WorldOk, KeptUpTo, BatchKept;
    var (job, w') := (w.jobs[run], FinishStep(w, run, rewound));
    JobIsOk(w, run);
    if job.phase.InsertFailed? && rewound {
      hide Lossless;
      LosslessAt(w, w', run, job.account);
      RewindExact(w, w', run);
    } else if job.phase.InsertFailed? {
      DropExact(w, w', run);
    } else if job.phase.Inserted? {
      DropExact(w, w', run);
      NothingPending(w, run);
    }
  }

  /** One step of anybody, from a state without loss: it loses nothing if and only if it is harmless there. */
  lemma StepExact(w: World, a: Action)
    requires WorldOk(w) && Lossless(w)
    ensures Lossless(Next(w, a)) <==> Harmless(w, a)
  {
    hide WorldOk, Lossless, BatchKept, KeptUpTo, NothingNew;
    var w' := Next(w, a);
    match a
    case Arrive(account, tx) => ArriveExact(w, account, tx);
    case Start(account, kind) => StartExact(w, account, kind);
    case Reseed(run, date, accepted) => ReseedExact(w, run, date, accepted);
    case Fetch(run, answer) =>
      if Live(w, run) && w.jobs[run].phase.Started? {
        FetchExact(w, run, answer);
      }
    case ReadMax(run, ok) =>
      if Live(w, run) {
        JobIsOk(w, run);
        if w.jobs[run].phase.Fetched? {
          if w.jobs[run].kind.Period? {
            NothingPending(w, run);
          } else if ok {
            MoveExact(w, w', run);
          } else {
            DropExact(w, w', run);
          }
        }
      }
    case Insert(run, failAt) =>
      if Live(w, run) && ReadyToInsert(w.jobs[run]) {
        InsertExact(w, run, failAt);
      }
    case Finish(run, rewound) =>
      if Live(w, run) {
        FinishExact(w, run, rewound);
      }
    case Panic(run) => GiveUpExact(w, w', run);
    case Vanish(run) => GiveUpExact(w, w', run);
  }

  lemma GiveUpExact(w: World, w': World, run: nat)
    requires WorldOk(w) && Lossless(w)
    requires w' == Next(w, Panic(run)) || w' == Next(w, Vanish(run))
    ensures Lossless(w') <==> (Live(w, run) ==> BatchKept(w, run))
  {
    hide WorldOk, BatchKept;
    if run in w.jobs {
      JobIsOk(w, run);
      DropExact(w, w', run);
    } else {
      assert w'.jobs == w.jobs;
    }
  }

  // ---- Over whole runs ----

  /** No new sync appears, and what is in hand stays up to the cursor. */
  lemma SoloStays(w: World, w': World)
    requires Solo(w)
    requires forall run :: run in w'.jobs ==> run in w.jobs && w'.jobs[run].account == w.jobs[run].account && w'.jobs[run].kind == w.jobs[run].kind
    requires forall run :: run in w'.jobs && w'.jobs[run].account in w'.servers ==>
               forall tx :: tx in Pending(w'.jobs[run]) ==> tx.id <= w'.servers[w'.jobs[run].account].cursor
    ensures Solo(w')
  {
    assert forall a, run :: Syncing(w', a, run) ==> Syncing(w, a, run);
  }

  lemma PendingInside(w: World, run: nat)
    requires Solo(w) && Live(w, run)
    ensures forall tx :: tx in Pending(w.jobs[run]) ==> tx.id <= w.servers[w.jobs[run].account].cursor
  {
    assert w.jobs[run].kind.Cursor? ==> Syncing(w, w.jobs[run].account, run);
  }

  /** No two syncs of an account. */
  lemma OneOfAccount(w: World, x: nat, y: nat)
    requires Solo(w) && x in w.jobs && y in w.jobs && w.jobs[x].account == w.jobs[y].account
    requires w.jobs[x].kind.Cursor? && w.jobs[y].kind.Cursor?
    ensures x == y
  {
    assert Syncing(w, w.jobs[x].account, x) && Syncing(w, w.jobs[x].account, y);
  }

  lemma JobsOnlyMove(w: World, a: Action)
    requires !a.Start?
    ensures forall run :: run in Next(w, a).jobs ==>
              && run in w.jobs
              && Next(w, a).jobs[run].account == w.jobs[run].account && Next(w, a).jobs[run].kind == w.jobs[run].kind
  {
    hide NewSince, InPeriod, MaxId, InsertAll, PositionBefore;
  }

  lemma JobsKeepSolo(w: World, a: Action)
    requires WorldOk(w) && Solo(w) && !a.Start? && !a.Arrive?
    ensures Solo(Next(w, a))
  {
    hide WorldOk, Solo, Next;
    var w' := Next(w, a);
    JobsOnlyMove(w, a);
    forall run | run in w'.jobs && w'.jobs[run].account in w'.servers
      ensures forall tx :: tx in Pending(w'.jobs[run]) ==> tx.id <= w'.servers[w'.jobs[run].account].cursor
    {
      JobIsOk(w, run);
      PendingStays(w, a, run);
    }
    SoloStays(w, w');
  }

  /** The action may move the account's cursor. */
  predicate MovesCursor(w: World, a: Action, account: int) {
    && (a.Reseed? || a.Fetch? || a.Finish?)
    && a.run in w.jobs && w.jobs[a.run].account == account && w.jobs[a.run].kind.Cursor?
  }

  lemma CursorStays(w: World, a: Action, account: int)
    requires WorldOk(w) && account in w.servers && !MovesCursor(w, a, account)
    ensures account in Next(w, a).servers && Next(w, a).servers[account].cursor == w.servers[account].cursor
    ensures Next(w, a).servers[account].floor == w.servers[account].floor
  {
    hide WorldOk, NewSince, InPeriod, MaxId, InsertAll, PositionBefore;
    if (a.Finish? || a.Fetch?) && a.run in w.jobs {
      JobIsOk(w, a.run);
    }
  }

  lemma OtherJobStays(w: World, a: Action, run: nat)
    requires !a.Arrive? && !a.Start? && run in w.jobs && RunOf(w, a) != run
    ensures run in Next(w, a).jobs && Next(w, a).jobs[run] == w.jobs[run]
  {
    hide NewSince, InPeriod, MaxId, InsertAll, PositionBefore;
  }

  lemma OwnPendingStays(w: World, a: Action, run: nat)
    requires !a.Arrive? && !a.Start? && Live(w, run) && RunOf(w, a) == run && run in Next(w, a).jobs
    ensures Live(Next(w, a), run)
    ensures Pending(Next(w, a).jobs[run]) in {[], Pending(w.jobs[run])}
            || (a.Fetch? && w.jobs[run].kind.Cursor?
                && Pending(Next(w, a).jobs[run]) == Batch(w.servers[w.jobs[run].account], Cursor)
                && Next(w, a).servers[w.jobs[run].account] == Advanced(w.servers[w.jobs[run].account], Cursor))
  {
    hide NewSince, InPeriod, MaxId, InsertAll, PositionBefore;
  }

  lemma PendingStays(w: World, a: Action, run: nat)
    requires WorldOk(w) && Solo(w) && !a.Start? && !a.Arrive?
    requires Live(w, run) && run in Next(w, a).jobs
    ensures Live(Next(w, a), run)
    ensures forall tx :: tx in Pending(Next(w, a).jobs[run]) ==> tx.id <= Next(w, a).servers[w.jobs[run].account].cursor
  {
    hide WorldOk, Solo;
    var account := w.jobs[run].account;
    StepKeepsWorld(w, a);
    PendingInside(w, run);
    if !MovesCursor(w, a, account) {
      CursorStays(w, a, account);
    }
    if RunOf(w, a) != run {
      OtherJobStays(w, a, run);
      if MovesCursor(w, a, account) && w.jobs[run].kind.Cursor? {
        OneOfAccount(w, run, a.run);
      }
    } else {
      OwnPendingStays(w, a, run);
      ServerIsOk(w, account);
      BatchInside(w.servers[account], Cursor);
      LastIsLargest(w.servers[account].movements);
      FinishEnds(w, a, run);
    }
  }

  /** The step that may rewind ends the job; reseeding comes before anything is in hand. */
  lemma FinishEnds(w: World, a: Action, run: nat)
    requires Live(w, run) && RunOf(w, a) == run && !a.Start? && !a.Arrive? && run in Next(w, a).jobs
    ensures a.Finish? ==> Next(w, a) == w
    ensures a.Reseed? && Next(w, a) != w ==> Pending(Next(w, a).jobs[run]) == []
    ensures a.Fetch? && w.jobs[run].phase.Started? && w.jobs[run].kind.Period? ==> Pending(Next(w, a).jobs[run]) == []
    ensures a.Fetch? && !w.jobs[run].phase.Started? ==> Next(w, a) == w
  {
    hide NewSince, InPeriod, MaxId, InsertAll, PositionBefore;
  }

  lemma SoloKeeps(w: World, a: Action)
    requires WorldOk(w) && Solo(w) && Allowed(w, a)
    ensures Solo(Next(w, a))
  {
    if a.Start? {
      StartKeepsSolo(w, a.account, a.kind);
    } else if a.Arrive? {
      SoloStays(w, Next(w, a)) by {
        forall run | Live(w, run) ensures forall tx :: tx in Pending(w.jobs[run]) ==> tx.id <= w.servers[w.jobs[run].account].cursor {
          PendingInside(w, run);
        }
        forall run | run in w.jobs ensures Live(w, run) {
          JobIsOk(w, run);
        }
      }
    } else {
      JobsKeepSolo(w, a);
    }
  }

  lemma JobNumber(w: World, run: nat)
    requires run in w.jobs && JobOk(w, run)
    ensures run < |w.runs|
  {
  }

  lemma StartKeepsSolo(w: World, account: int, kind: Kind)
    requires WorldOk(w) && Solo(w) && Allowed(w, Start(account, kind))
    ensures Solo(Next(w, Start(account, kind)))
  {
    hide WorldOk, JobOk;
    var w' := Next(w, Start(account, kind));
    forall r | r in w.jobs ensures r < |w.runs| {
      JobIsOk(w, r);
      JobNumber(w, r);
    }
    assert forall a, run :: Syncing(w', a, run) ==>
             Syncing(w, a, run) || (run == |w.runs| && a == account && kind.Cursor?);
    assert forall a, run :: Syncing(w', a, run) && run != |w.runs| ==> w'.jobs[run] == w.jobs[run];
  }

  /** At every moment of the run nothing is lost. */
  ghost predicate LosslessThroughout(w: World, actions: seq<Action>)
    decreases |actions|
  {
    Lossless(w) && (actions != [] ==> LosslessThroughout(Next(w, actions[0]), actions[1..]))
  }

  ghost predicate AllHarmless(w: World, actions: seq<Action>)
    decreases |actions|
  {
    actions != [] ==> Harmless(w, actions[0]) && AllHarmless(Next(w, actions[0]), actions[1..])
  }

  /** Over every interleaving of arrivals and of the steps of any number of syncs and backfills,
      several syncs of one account included: nothing is ever lost if and only if every step
      that lets go of a batch is harmless where it strikes. */
  lemma {:induction false} LosesExactly(w: World, actions: seq<Action>)
    requires WorldOk(w) && Lossless(w)
    ensures LosslessThroughout(w, actions) <==> AllHarmless(w, actions)
    decreases |actions|
  {
    if actions != [] {
      StepExact(w, actions[0]);
      StepKeepsWorld(w, actions[0]);
      if Lossless(Next(w, actions[0])) {
        LosesExactly(Next(w, actions[0]), actions[1..]);
      }
    }
  }

  /** If every step is harmless, then whenever no sync of an account holds a batch, the table
      has every movement above the floor and up to the cursor. */
  lemma {:induction false} NeverLost(w: World, actions: seq<Action>, account: int)
    requires WorldOk(w) && Lossless(w) && AllHarmless(w, actions)
    requires account in Execute(w, actions).servers && forall tx :: !InHand(Execute(w, actions), account, tx)
    ensures var w' := Execute(w, actions); HeldUpTo(w', account, w'.servers[account].cursor)
    decreases |actions|
  {
    if actions == [] {
      assert NoLoss(w, account);
    } else {
      StepExact(w, actions[0]);
      StepKeepsWorld(w, actions[0]);
      NeverLost(Next(w, actions[0]), actions[1..], account);
    }
  }

  lemma {:induction false} SoloThroughout(w: World, actions: seq<Action>)
    requires WorldOk(w) && Solo(w) && OneSyncEach(w, actions)
    ensures Solo(Execute(w, actions))
    decreases |actions|
  {
    if actions != [] {
      StepKeepsWorld(w, actions[0]);
      SoloKeeps(w, actions[0]);
      SoloThroughout(Next(w, actions[0]), actions[1..]);
    }
  }

  /** With one sync per account, only the table keeps what its rewind passes over. */
  lemma SoloRewind(w: World, run: nat, bound: int)
    requires Solo(w) && Live(w, run) && w.jobs[run].kind.Cursor?
    ensures KeptUpTo(w, run, bound) <==> HeldUpTo(w, w.jobs[run].account, bound)
  {
    var account := w.jobs[run].account;
    assert Syncing(w, account, run);
    forall tx ensures !InHandBeside(w, account, run, tx) {
      if r :| r in w.jobs && r != run && w.jobs[r].account == account && tx in Pending(w.jobs[r]) {
        assert Syncing(w, account, r);
      }
    }
  }

  // ---- The largest id read before the insert ----

  lemma TableOnlyGrows(w: World, a: Action, account: int)
    requires WorldOk(w)
    ensures forall id :: Holds(w.table, account, id) ==> Holds(Next(w, a).table, account, id)
  {
    if a.Insert? && Live(w, a.run) && ReadyToInsert(w.jobs[a.run]) {
      InsertAllExact(w.table, w.jobs[a.run].account, w.jobs[a.run].phase.batch);
    }
  }

  /** `later` has the same movements up to the old end, and may have more after it. */
  ghost predicate Longer(s: Server, later: Server) {
    && later.floor == s.floor && s.movements <= later.movements && LastId(s.movements) <= LastId(later.movements)
    && forall tx :: tx in later.movements && tx.id <= LastId(s.movements) ==> tx in s.movements
  }

  /** What a sync past its fetch finds later: its account's server longer, its table larger, its own id unchanged. */
  ghost predicate Framed(w: World, w': World, run: nat)
    requires Live(w, run)
  {
    var job := w.jobs[run];
    && Live(w', run) && w'.jobs[run].account == job.account && w'.jobs[run].kind.Cursor? && !w'.jobs[run].phase.Started?
    && Longer(w.servers[job.account], w'.servers[job.account])
    && (forall id :: Holds(w.table, job.account, id) ==> Holds(w'.table, job.account, id))
    && PhaseLater(job.phase, w'.jobs[run].phase)
  }

  /** The largest id, once read, stays; a stored batch stays stored. */
  predicate PhaseLater(p: Phase, p': Phase) {
    && (p.Inserted? ==> p'.Inserted?)
    && (p.MaxRead? || p.InsertFailed? ==> p'.Inserted? || ((p'.MaxRead? || p'.InsertFailed?) && p'.max == p.max))
  }

  lemma FramedTwice(w: World, w1: World, w2: World, run: nat)
    requires Live(w, run) && Live(w1, run) && Framed(w, w1, run) && Framed(w1, w2, run)
    ensures Framed(w, w2, run)
  {
  }

  lemma OwnPhaseLater(w: World, a: Action, run: nat)
    requires run in w.jobs && JobOk(w, run) && !w.jobs[run].phase.Started? && run in Next(w, a).jobs
    ensures PhaseLater(w.jobs[run].phase, Next(w, a).jobs[run].phase) && !Next(w, a).jobs[run].phase.Started?
    ensures Next(w, a).jobs[run].account == w.jobs[run].account && Next(w, a).jobs[run].kind == w.jobs[run].kind
  {
    hide NewSince, InPeriod, MaxId, InsertAll, PositionBefore;
  }

  lemma MovementsLonger(w: World, a: Action, account: int)
    requires account in w.servers && Increasing(w.servers[account].movements)
    ensures var (s, s') := (w.servers[account].movements, Next(w, a).servers[account].movements);
            && account in Next(w, a).servers && s <= s' && LastId(s) <= LastId(s')
            && forall tx :: tx in s' && tx.id <= LastId(s) ==> tx in s
  {
    hide NewSince, InPeriod, MaxId, InsertAll, PositionBefore;
  }

  /** While a sync is past its fetch, nobody else touches its account's floor or its own progress. */
  lemma SyncUndisturbed(w: World, a: Action, run: nat)
    requires WorldOk(w) && Solo(w) && Live(w, run) && w.jobs[run].kind.Cursor? && !w.jobs[run].phase.Started?
    requires run in Next(w, a).jobs
    ensures Framed(w, Next(w, a), run)
  {
    hide WorldOk, Solo, Next;
    var account := w.jobs[run].account;
    ServerIsOk(w, account);
    JobIsOk(w, run);
    OwnPhaseLater(w, a, run);
    MovementsLonger(w, a, account);
    TableOnlyGrows(w, a, account);
    if MovesCursor(w, a, account) {
      OneOfAccount(w, run, a.run);
      FloorStays(w, a, run);
    } else {
      CursorStays(w, a, account);
    }
  }

  lemma FloorStays(w: World, a: Action, run: nat)
    requires Live(w, run) && !w.jobs[run].phase.Started? && MovesCursor(w, a, w.jobs[run].account) && a.run == run
    ensures w.jobs[run].account in Next(w, a).servers
    ensures Next(w, a).servers[w.jobs[run].account].floor == w.servers[w.jobs[run].account].floor
  {
  }

  lemma {:induction false} GoneStaysGone(w: World, actions: seq<Action>, run: nat)
    requires run !in w.jobs && run < |w.runs|
    ensures run !in Execute(w, actions).jobs
    decreases |actions|
  {
    if actions != [] {
      if !actions[0].Start? {
        JobsOnlyMove(w, actions[0]);
      }
      RunsOnlyGrow(w, actions[0]);
      GoneStaysGone(Next(w, actions[0]), actions[1..], run);
    }
  }

  lemma RunsOnlyGrow(w: World, a: Action)
    ensures |Next(w, a).runs| >= |w.runs|
  {
    hide NewSince, InPeriod, MaxId, InsertAll, PositionBefore;
  }

  lemma {:induction false} SyncFrame(w: World, actions: seq<Action>, run: nat)
    requires WorldOk(w) && Solo(w) && OneSyncEach(w, actions)
    requires Live(w, run) && w.jobs[run].kind.Cursor? && !w.jobs[run].phase.Started? && run in Execute(w, actions).jobs
    ensures Framed(w, Execute(w, actions), run)
    decreases |actions|
  {
    if actions != [] {
      hide WorldOk, Solo, Next, Framed;
      var w1 := Next(w, actions[0]);
      if run !in w1.jobs {
        JobIsOk(w, run);
        RunsOnlyGrow(w, actions[0]);
        GoneStaysGone(w1, actions[1..], run);
      } else {
        SyncUndisturbed(w, actions[0], run);
        FramedParts(w, w1, run);
        StepKeepsWorld(w, actions[0]);
        SoloKeeps(w, actions[0]);
        SyncFrame(w1, actions[1..], run);
        FramedTwice(w, w1, Execute(w, actions), run);
      }
    }
  }

  lemma FramedParts(w: World, w': World, run: nat)
    requires Live(w, run) && Framed(w, w', run)
    ensures Live(w', run) && w'.jobs[run].kind.Cursor? && !w'.jobs[run].phase.Started?
  {
  }

  /** With one sync per account: the largest id is read in state `w`; then anybody acts, our insert fails, and the rewind
      is about to be tried. Without a hole when the id was read the rewind is harmless; and if
      nothing was stored for the account in between, it is harmless only then. */
  lemma MaxReadDecides(w: World, run: nat, between: seq<Action>)
    requires WorldOk(w) && Solo(w) && Live(w, run) && w.jobs[run].kind.Cursor? && w.jobs[run].phase.Fetched?
    requires var read := Next(w, ReadMax(run, true));
             && OneSyncEach(read, between)
             && run in Execute(read, between).jobs && Execute(read, between).jobs[run].phase.InsertFailed?
    ensures var (account, w') := (w.jobs[run].account, Execute(Next(w, ReadMax(run, true)), between));
            && (NoGap(w, account) ==> Harmless(w', Finish(run, true)))
            && ((forall id :: Holds(w'.table, account, id) ==> Holds(w.table, account, id)) ==>
                  (Harmless(w', Finish(run, true)) <==> NoGap(w, account)))
  {
    hide WorldOk, Solo, HeldUpTo, KeptUpTo, Longer;
    var (account, read) := (w.jobs[run].account, Next(w, ReadMax(run, true)));
    assert read.servers == w.servers && read.table == w.table && read.jobs[run].phase.max == MaxId(w.table, account);
    StepKeepsWorld(w, ReadMax(run, true));
    SoloKeeps(w, ReadMax(run, true));
    MaxIdInside(w, account);
    SyncFrame(read, between, run);
    SoloThroughout(read, between);
    SoloRewind(Execute(read, between), run, MaxId(w.table, account));
    GapSeen(w, Execute(read, between), account, MaxId(w.table, account));
  }

  lemma GapSeen(w: World, w': World, account: int, max: int)
    requires account in w.servers && account in w'.servers && Longer(w.servers[account], w'.servers[account])
    requires max <= LastId(w.servers[account].movements)
    requires forall id :: Holds(w.table, account, id) ==> Holds(w'.table, account, id)
    ensures HeldUpTo(w, account, max) ==> HeldUpTo(w', account, max)
    ensures (forall id :: Holds(w'.table, account, id) ==> Holds(w.table, account, id)) ==>
              (HeldUpTo(w', account, max) <==> HeldUpTo(w, account, max))
  {
    var (s, s') := (w.servers[account], w'.servers[account]);
    assert forall tx :: tx in s.movements ==> tx in s'.movements;
  }
}
