/** What the cursor protocol guarantees while syncs and backfills interleave step by step:
    no movement is stored twice, and exactly when one is lost. */
module FioSafety {
  import opened Options
  import opened Calendar
  import opened FioSync

  // ---- No duplicates ----

  lemma LastIsLargest(movements: seq<FioTx>)
    requires Increasing(movements)
    ensures forall tx :: tx in movements ==> 0 < tx.id <= LastId(movements)
    ensures LastId(movements) >= 0
  {
  }

  lemma MaxIdInside(w: World, account: int)
    requires WorldOk(w) && account in w.servers
    ensures 0 <= MaxId(w.table, account) <= LastId(w.servers[account].movements)
  {
    LastIsLargest(w.servers[account].movements);
    MaxIdExact(w.table, account);
    if HoldsAny(w.table, account) {
      var i :| 0 <= i < |w.table| && w.table[i].account == account && w.table[i].tx.id == MaxId(w.table, account);
      assert w.table[i] in w.table;
    }
  }

  lemma BatchInside(s: Server, kind: Kind)
    requires Increasing(s.movements) && s.cursor <= LastId(s.movements)
    ensures forall tx :: tx in Batch(s, kind) ==> tx in s.movements
    ensures kind.Cursor? ==> forall tx :: tx in Batch(s, kind) <==> tx in s.movements && tx.id > s.cursor
    ensures Advanced(s, kind).cursor == if kind.Cursor? && Batch(s, kind) != [] then LastId(s.movements) else s.cursor
  {
    NewSinceExact(s.movements, s.cursor);
    LastIsLargest(s.movements);
    if kind.Period? {
      InPeriodExact(s.movements, kind.from, kind.to);
    }
    if s.movements != [] {
      assert s.movements[|s.movements| - 1] in s.movements;
    }
  }

  lemma InsertKeeps(w: World, run: nat)
    requires WorldOk(w) && Live(w, run) && !w.jobs[run].phase.Started?
    ensures var table := InsertAll(w.table, w.jobs[run].account, w.jobs[run].phase.batch);
            Unique(table) && Mirrors(w.(table := table))
  {
    assert JobOk(w, run);
    InsertAllExact(w.table, w.jobs[run].account, w.jobs[run].phase.batch);
  }

  /** Changing one account at the bank: movements only grow, the cursor stays inside. */
  lemma ServerKeeps(w: World, account: int, s: Server)
    requires WorldOk(w) && account in w.servers
    requires w.servers[account].movements <= s.movements && Increasing(s.movements)
    requires s.cursor <= LastId(s.movements) && LastId(w.servers[account].movements) <= LastId(s.movements)
    ensures WorldOk(w.(servers := w.servers[account := s]))
  {
    var w' := w.(servers := w.servers[account := s]);
    assert forall tx :: tx in w.servers[account].movements ==> tx in s.movements;
    forall run | run in w'.jobs ensures JobOk(w', run) {
      assert JobOk(w, run);
    }
  }

  lemma ArriveKeeps(w: World, account: int, tx: FioTx)
    requires WorldOk(w)
    ensures WorldOk(Next(w, Arrive(account, tx)))
  {
    if account in w.servers {
      var s := w.servers[account];
      LastIsLargest(s.movements);
      if tx.id > LastId(s.movements) && tx.id > 0 {
        ServerKeeps(w, account, s.(movements := s.movements + [tx]));
      }
    }
  }

  lemma ReseedKeeps(w: World, run: nat, date: Date, accepted: bool)
    requires WorldOk(w)
    ensures WorldOk(Next(w, Reseed(run, date, accepted)))
  {
    if Live(w, run) {
      var s := w.servers[w.jobs[run].account];
      PositionInside(s.movements, date);
      ServerKeeps(w, w.jobs[run].account, Reseeded(s, date));
      CloseKeeps(w, run, Failure, 0, 0);
    }
  }

  lemma FetchKeeps(w: World, run: nat, answer: Answer)
    requires WorldOk(w) && Live(w, run) && w.jobs[run].phase.Started?
    ensures WorldOk(FetchStep(w, run, answer))
  {
    var job := w.jobs[run];
    var s := w.servers[job.account];
    BatchInside(s, job.kind);
    ServerKeeps(w, job.account, Advanced(s, job.kind));
    var moved := w.(servers := w.servers[job.account := Advanced(s, job.kind)]);
    CloseKeeps(w, run, Failure, 0, 0);
    CloseKeeps(moved, run, Failure, 0, 0);
    CloseKeeps(moved, run, Success, 0, 0);
    FetchedKeeps(moved, run, Batch(s, job.kind));
  }

  lemma FetchedKeeps(w: World, run: nat, batch: seq<FioTx>)
    requires WorldOk(w) && Live(w, run) && forall tx :: tx in batch ==> tx in w.servers[w.jobs[run].account].movements
    ensures WorldOk(Move(w, run, Fetched(batch)))
  {
    var w' := Move(w, run, Fetched(batch));
    forall r | r in w'.jobs ensures JobOk(w', r) {
      assert JobOk(w, r);
    }
  }

  lemma CloseKeeps(w: World, run: nat, status: Status, fetched: nat, inserted: nat)
    requires WorldOk(w)
    ensures WorldOk(Close(w, run, status, fetched, inserted))
  {
    var w' := Close(w, run, status, fetched, inserted);
    forall r | r in w'.jobs ensures JobOk(w', r) {
      assert JobOk(w, r);
    }
  }

  lemma MoveKeeps(w: World, run: nat, phase: Phase)
    requires WorldOk(w) && Live(w, run) && !phase.Started? && !w.jobs[run].phase.Started?
    requires phase.batch == w.jobs[run].phase.batch
    requires phase.MaxRead? || phase.InsertFailed? ==>
               w.jobs[run].kind.Cursor? && phase.max <= LastId(w.servers[w.jobs[run].account].movements)
    ensures WorldOk(Move(w, run, phase))
  {
    var w' := Move(w, run, phase);
    forall r | r in w'.jobs ensures JobOk(w', r) {
      assert JobOk(w, r);
    }
  }

  lemma InsertStepKeeps(w: World, run: nat, failAt: Option<nat>)
    requires WorldOk(w) && Live(w, run) && ReadyToInsert(w.jobs[run])
    ensures WorldOk(InsertStep(w, run, failAt))
  {
    var (account, phase) := (w.jobs[run].account, w.jobs[run].phase);
    assert JobOk(w, run);
    if InsertFails(phase.batch, failAt) {
      if phase.MaxRead? {
        MoveKeeps(w, run, InsertFailed(phase.batch, phase.max));
      } else {
        CloseKeeps(w, run, Failure, |phase.batch|, 0);
      }
    } else {
      InsertKeeps(w, run);
      var table := InsertAll(w.table, account, phase.batch);
      var stored := w.(table := table);
      assert WorldOk(stored) by {
        forall r | r in stored.jobs ensures JobOk(stored, r) {
          assert JobOk(w, r);
        }
      }
      MoveKeeps(stored, run, Inserted(phase.batch, |table| - |w.table|));
    }
  }

  lemma FinishKeeps(w: World, run: nat, rewound: bool)
    requires WorldOk(w) && Live(w, run)
    ensures WorldOk(FinishStep(w, run, rewound))
  {
    var (account, phase) := (w.jobs[run].account, w.jobs[run].phase);
    assert JobOk(w, run);
    if phase.InsertFailed? {
      var s := w.servers[account];
      ServerKeeps(w, account, s.(cursor := phase.max));
      var back := if rewound then w.(servers := w.servers[account := s.(cursor := phase.max)]) else w;
      CloseKeeps(back, run, Failure, |phase.batch|, 0);
    } else if phase.Inserted? {
      CloseKeeps(w, run, Success, |phase.batch|, phase.count);
    }
  }

  lemma StartKeeps(w: World, account: int, kind: Kind)
    requires WorldOk(w)
    ensures WorldOk(Next(w, Start(account, kind)))
  {
    var w' := Next(w, Start(account, kind));
    forall r | r in w'.jobs ensures JobOk(w', r) {
      if r in w.jobs {
        assert JobOk(w, r);
      }
    }
  }

  lemma VanishKeeps(w: World, run: nat)
    requires WorldOk(w)
    ensures WorldOk(Next(w, Vanish(run)))
  {
    var w' := Next(w, Vanish(run));
    forall r | r in w'.jobs ensures JobOk(w', r) {
      assert JobOk(w, r);
    }
  }

  /** Every action keeps the world in order. */
  lemma StepKeepsWorld(w: World, a: Action)
    requires WorldOk(w)
    ensures WorldOk(Next(w, a)) && Next(w, a).servers.Keys == w.servers.Keys
  {
    hide WorldOk;
    match a
    case Arrive(account, tx) => ArriveKeeps(w, account, tx);
    case Start(account, kind) => StartKeeps(w, account, kind);
    case Reseed(run, date, accepted) => ReseedKeeps(w, run, date, accepted);
    case Fetch(run, answer) =>
      if Live(w, run) && w.jobs[run].phase.Started? {
        FetchKeeps(w, run, answer);
      }
    case ReadMax(run, ok) =>
      if Live(w, run) && w.jobs[run].kind.Cursor? && w.jobs[run].phase.Fetched? {
        var batch := w.jobs[run].phase.batch;
        MaxIdInside(w, w.jobs[run].account);
        if ok {
          MoveKeeps(w, run, MaxRead(batch, MaxId(w.table, w.jobs[run].account)));
        } else {
          CloseKeeps(w, run, Failure, |batch|, 0);
        }
      }
    case Insert(run, failAt) =>
      if Live(w, run) && ReadyToInsert(w.jobs[run]) {
        InsertStepKeeps(w, run, failAt);
      }
    case Finish(run, rewound) =>
      if Live(w, run) {
        FinishKeeps(w, run, rewound);
      }
    case Panic(run) =>
      if run in w.jobs {
        CloseKeeps(w, run, Failure, FetchedCount(w.jobs[run].phase), InsertedCount(w.jobs[run].phase));
      }
    case Vanish(run) => VanishKeeps(w, run);
  }

  /** What a run has stored: the count it holds until its row is closed, then the row's. */
  function Counted(w: World, run: nat): nat {
    if run in w.jobs && w.jobs[run].phase.Inserted? then w.jobs[run].phase.count
    else if run < |w.runs| then w.runs[run].inserted
    else 0
  }

  function CountedBelow(w: World, n: nat): nat {
    if n == 0 then 0 else CountedBelow(w, n - 1) + Counted(w, n - 1)
  }

  /** What the run rows report. */
  function Reported(runs: seq<SyncRun>): nat {
    if runs == [] then 0 else Reported(runs[..|runs| - 1]) + runs[|runs| - 1].inserted
  }

  lemma {:induction false} OneRunChanges(w: World, w': World, run: nat, n: nat)
    requires forall r: nat :: r < n && r != run ==> Counted(w', r) == Counted(w, r)
    ensures CountedBelow(w', n) - CountedBelow(w, n) == if run < n then Counted(w', run) - Counted(w, run) else 0
  {
    if n > 0 {
      OneRunChanges(w, w', run, n - 1);
    }
  }

  lemma {:induction false} NobodyCounts(w: World, n: nat)
    requires w.jobs == map[] && n <= |w.runs|
    ensures CountedBelow(w, n) == Reported(w.runs[..n])
  {
    if n > 0 {
      NobodyCounts(w, n - 1);
      assert w.runs[..n][..n - 1] == w.runs[..n - 1];
    }
  }

  function RunOf(w: World, a: Action): nat {
    match a
    case Arrive(_, _) => |w.runs|
    case Start(_, _) => |w.runs|
    case Reseed(run, _, _) => run
    case Fetch(run, _) => run
    case ReadMax(run, _) => run
    case Insert(run, _) => run
    case Finish(run, _) => run
    case Panic(run) => run
    case Vanish(run) => run
  }

  /** A step adds to its own run's count what it adds to the table; only a vanishing job forgets its count. */
  lemma StepCounts(w: World, a: Action)
    requires forall r :: r in w.jobs ==> r < |w.runs| && w.runs[r].inserted == 0
    ensures var (w', run) := (Next(w, a), RunOf(w, a));
            && |w.runs| <= |w'.runs| <= |w.runs| + 1
            && (forall r: nat :: r != run ==> Counted(w', r) == Counted(w, r))
            && (if a.Vanish? then |w'.table| == |w.table| && Counted(w', run) <= Counted(w, run)
                else |w'.table| - |w.table| == Counted(w', run) - Counted(w, run))
            && (|w'.runs| == |w.runs| + 1 ==> Counted(w', |w.runs|) == 0)
            && (run >= |w.runs| ==> Counted(w', run) == Counted(w, run))
  {
    hide Batch, Advanced, Reseeded, MaxId, InsertAll;
  }

  lemma StepTotals(w: World, a: Action)
    requires WorldOk(w)
    ensures var w' := Next(w, a);
            && |w'.table| - |w.table| >= CountedBelow(w', |w'.runs|) - CountedBelow(w, |w.runs|)
            && (!a.Vanish? ==> |w'.table| - |w.table| == CountedBelow(w', |w'.runs|) - CountedBelow(w, |w.runs|))
  {
    forall r | r in w.jobs ensures r < |w.runs| && w.runs[r].inserted == 0 {
      assert JobOk(w, r);
    }
    StepCounts(w, a);
    OneRunChanges(w, Next(w, a), RunOf(w, a), |w.runs|);
  }

  /** Over every interleaving of arrivals and of the steps of any number of syncs and
      backfills, several for one account included, whatever fails: each movement is stored
      at most once, every stored row is the bank's own, and what the runs count never
      exceeds the growth of the table, and equals it unless a job vanished unreported. */
  lemma {:induction false} NoDuplicates(w: World, actions: seq<Action>)
    requires WorldOk(w)
    ensures var w' := Execute(w, actions);
            && WorldOk(w') && Unique(w'.table) && Mirrors(w')
            && |w'.table| - |w.table| >= CountedBelow(w', |w'.runs|) - CountedBelow(w, |w.runs|)
            && ((forall a :: a in actions ==> !a.Vanish?) ==>
                  |w'.table| - |w.table| == CountedBelow(w', |w'.runs|) - CountedBelow(w, |w.runs|))
    decreases |actions|
  {
    if actions != [] {
      assert actions[0] in actions && forall a :: a in actions[1..] ==> a in actions;
      StepKeepsWorld(w, actions[0]);
      StepTotals(w, actions[0]);
      NoDuplicates(Next(w, actions[0]), actions[1..]);
    }
  }

  /** Between two moments at which nothing is under way, the inserted counts of the run rows
      add up to the growth of the table. */
  lemma ReportsAddUp(w: World, actions: seq<Action>)
    requires WorldOk(w) && w.jobs == map[] && Execute(w, actions).jobs == map[]
    requires forall a :: a in actions ==> !a.Vanish?
    ensures var w' := Execute(w, actions); |w'.table| - |w.table| == Reported(w'.runs) - Reported(w.runs)
  {
    var w' := Execute(w, actions);
    NoDuplicates(w, actions);
    NobodyCounts(w, |w.runs|);
    NobodyCounts(w', |w'.runs|);
    assert w.runs[..|w.runs|] == w.runs && w'.runs[..|w'.runs|] == w'.runs;
  }
}
