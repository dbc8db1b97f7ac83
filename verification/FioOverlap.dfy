/** Why an account's cursor syncs must not overlap: the second one stores a later movement before
    the first reads the largest id, so the first one's rewind stops short of its own batch. */
module FioOverlap {
  import opened Options
  import opened FioSync
  import opened FioLoss
  import opened FioOrdinary
  import opened FioGap

  const FIRST: seq<FioTx> := [Movement(1)]

  /** Account 7 before the second movement arrives. */
  function Early(cursor: int, runs: seq<SyncRun>, jobs: map<nat, Job>): World {
    World(map[7 := Server(FIRST, cursor, 0)], [], runs, jobs)
  }

  const SYNC_A: seq<Action> := [Start(7, Cursor), Fetch(0, Served)]
  const SYNC_B: seq<Action> := [Arrive(7, Movement(2)), Start(7, Cursor), Fetch(1, Served), ReadMax(1, true), Insert(1, None), Finish(1, true)]

  lemma EarlyIsFine()
    ensures Fine(Early(0, [], map[]))
  {
  }

  /** The first sync holds movement 1. */
  function AFetched(): World {
    Early(1, [OPEN], map[0 := Sync(Fetched(FIRST))])
  }

  lemma FirstServed()
    ensures NewSince(FIRST, 0) == FIRST
  {
    assert FIRST[..0] == [];
  }

  lemma AFetches()
    ensures Next(Next(Early(0, [], map[]), SYNC_A[0]), SYNC_A[1]) == AFetched()
  {
    hide NewSince;
    FirstServed();
    var w := Early(0, [OPEN], map[0 := Sync(Started)]);
    assert Next(Early(0, [], map[]), SYNC_A[0]) == w;
    assert w.servers[7 := Server(FIRST, 1, 0)] == map[7 := Server(FIRST, 1, 0)];
  }

  /** The second sync at the given phase, the first still holding its batch. */
  function BAt(cursor: int, table: seq<Stored>, phase: Phase): World {
    At(cursor, table, [OPEN, OPEN], map[0 := Sync(Fetched(FIRST)), 1 := Sync(phase)])
  }

  lemma BStarts()
    ensures Next(Next(AFetched(), SYNC_B[0]), SYNC_B[1]) == BAt(1, [], Started)
    ensures Syncing(Next(AFetched(), SYNC_B[0]), 7, 0)
  {
    assert FIRST + [Movement(2)] == BOTH;
    var w := Next(AFetched(), SYNC_B[0]);
    assert w.servers == map[7 := Server(BOTH, 1, 0)];
    assert [OPEN] + [OPEN] == [OPEN, OPEN];
  }

  lemma SecondServed()
    ensures NewSince(BOTH, 1) == SECOND
  {
    assert BOTH[..1] == FIRST && FIRST[..0] == [];
    assert NewSince(FIRST, 1) == [];
  }

  lemma BFetches()
    ensures Next(BAt(1, [], Started), SYNC_B[2]) == BAt(2, [], Fetched(SECOND))
  {
    SecondServed();
    var w := BAt(1, [], Started);
    assert Batch(w.servers[7], Cursor) == SECOND;
    assert w.servers[7 := Server(BOTH, 2, 0)] == map[7 := Server(BOTH, 2, 0)];
  }

  lemma BStores()
    ensures Next(Next(BAt(2, [], Fetched(SECOND)), SYNC_B[3]), SYNC_B[4]) == BAt(2, HELD, Inserted(SECOND, 1))
  {
    SecondInserted();
    assert Next(BAt(2, [], Fetched(SECOND)), SYNC_B[3]) == BAt(2, [], MaxRead(SECOND, 0));
  }

  lemma BFinishes()
    ensures Next(BAt(2, HELD, Inserted(SECOND, 1)), SYNC_B[5]) == At(2, HELD, [OPEN, BACKFILLED], map[0 := Sync(Fetched(FIRST))])
  {
    var w := BAt(2, HELD, Inserted(SECOND, 1));
    assert [OPEN, OPEN][1 := BACKFILLED] == [OPEN, BACKFILLED];
    assert (map r | r in w.jobs && r != 1 :: w.jobs[r]) == map[0 := Sync(Fetched(FIRST))];
  }

  // ---- Together ----

  /** Actions that are ordinary wherever they strike, as long as every job is a cursor sync. */
  ghost predicate PlainlyOrdinary(a: Action) {
    match a
    case Start(_, kind) => kind.Cursor?
    case Fetch(_, answer) => !answer.Unread?
    case ReadMax(_, ok) => ok
    case Finish(_, rewound) => rewound
    case Panic(_) => false
    case Vanish(_) => false
    case _ => true
  }

  lemma {:induction false} PlainlyAllOrdinary(w: World, actions: seq<Action>)
    requires (forall run :: run in w.jobs ==> w.jobs[run].kind.Cursor?) && forall a :: a in actions ==> PlainlyOrdinary(a)
    ensures AllOrdinary(w, actions)
    decreases |actions|
  {
    if actions != [] {
      assert actions[0] in actions && forall a :: a in actions[1..] ==> a in actions;
      if !actions[0].Start? {
        JobsOnlyMove(w, actions[0]);
      }
      PlainlyAllOrdinary(Next(w, actions[0]), actions[1..]);
    }
  }

  lemma SecondSyncRuns()
    ensures Execute(AFetched(), SYNC_B) == At(2, HELD, [OPEN, BACKFILLED], map[0 := Sync(Fetched(FIRST))])
    ensures !OneSyncEach(AFetched(), SYNC_B)
  {
    BStarts();
    var arrived := Next(AFetched(), SYNC_B[0]);
    var rest := SYNC_B[1..];
    assert rest[0] == SYNC_B[1] && rest[1..] == [SYNC_B[2], SYNC_B[3], SYNC_B[4], SYNC_B[5]];
    assert Execute(AFetched(), SYNC_B) == Execute(arrived, rest);
    assert Execute(arrived, rest) == Execute(BAt(1, [], Started), rest[1..]);
    assert Syncing(arrived, 7, 0) && !Allowed(arrived, SYNC_B[1]);
    assert !OneSyncEach(arrived, rest);
    hide Next;
    BFetches();
    BStores();
    BFinishes();
    FourSteps(BAt(1, [], Started), SYNC_B[2], SYNC_B[3], SYNC_B[4], SYNC_B[5]);
  }

  /** Ordinary in every step, but with two syncs of one account, and the movement the first one had is lost. */
  lemma TwoSyncsLoseMovement()
    ensures Fine(Early(0, [], map[])) && AllOrdinary(Early(0, [], map[]), SYNC_A + SYNC_B + Failed(0))
    ensures !OneSyncEach(Early(0, [], map[]), SYNC_A + SYNC_B)
    ensures var w := Execute(Early(0, [], map[]), SYNC_A + SYNC_B + Failed(0));
            7 in w.servers && w.servers[7].cursor == 2 && w.jobs == map[] && !Holds(w.table, 7, 1) && !Lossless(w)
  {
    var w := Early(0, [], map[]);
    EarlyIsFine();
    PlainlyAllOrdinary(w, SYNC_A + SYNC_B + Failed(0));
    AFetches();
    assert Execute(w, SYNC_A) == AFetched() by {
      assert SYNC_A[1..] == [SYNC_A[1]] && [SYNC_A[1]][1..] == [];
    }
    SecondSyncRuns();
    hide Next, Execute, OneSyncEach, AllOrdinary, Fine, Lossless, Holds;
    ConditionsConcat(w, SYNC_A, SYNC_B);
    ExecuteConcat(w, SYNC_A, SYNC_B);
    ExecuteConcat(w, SYNC_A + SYNC_B, Failed(0));
    RewindSkipsFirst(0, [OPEN, BACKFILLED], FIRST);
  }
}
