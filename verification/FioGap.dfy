/** Why the hole matters, and when it is looked for: a backfill of one later day, a failed
    insert and a rewind that works leave an earlier movement behind for good. It makes no
    difference that the table had no hole when the bank was asked: what counts is the moment
    the largest id is read. */
module FioGap {
  import opened Options
  import opened Calendar
  import opened Categorization
  import opened FioSync
  import opened FioLoss

  function Movement(id: int): FioTx {
    FioTx(id, RawTransaction(Date(2026, 1, id), 100, "CZK", None, None, None, None, None, None, None))
  }

  const BOTH: seq<FioTx> := [Movement(1), Movement(2)]
  const SECOND: seq<FioTx> := [Movement(2)]
  const SECOND_DAY := Period(Date(2026, 1, 2), Date(2026, 1, 2))
  const HELD: seq<Stored> := [Stored(7, Movement(2))]
  const OPEN := SyncRun(7, Running, 0, 0)
  const BACKFILLED := SyncRun(7, Success, 1, 1)

  /** Account 7 at the bank, our table, and what is under way. */
  function At(cursor: int, table: seq<Stored>, runs: seq<SyncRun>, jobs: map<nat, Job>): World {
    World(map[7 := Server(BOTH, cursor, 0)], table, runs, jobs)
  }

  function Fresh(): World {
    At(0, [], [], map[])
  }

  function Sync(phase: Phase): Job {
    Job(7, Cursor, phase)
  }

  function Backfill(phase: Phase): Job {
    Job(7, SECOND_DAY, phase)
  }

  lemma FreshIsFine()
    ensures WorldOk(Fresh()) && Solo(Fresh()) && Lossless(Fresh()) && NoGap(Fresh(), 7)
  {
  }

  // ---- What the queries return here ----

  lemma BothServed()
    ensures NewSince(BOTH, 0) == BOTH
  {
    assert BOTH[..1] == [Movement(1)] && BOTH[..1][..0] == [];
    assert NewSince(BOTH[..1], 0) == [Movement(1)];
  }

  lemma SecondDayServed()
    ensures InPeriod(BOTH, Date(2026, 1, 2), Date(2026, 1, 2)) == SECOND
  {
    assert BOTH[..1] == [Movement(1)] && BOTH[..1][..0] == [];
    assert InPeriod(BOTH[..1], Date(2026, 1, 2), Date(2026, 1, 2)) == [];
  }

  lemma SecondInserted()
    ensures InsertAll([], 7, SECOND) == HELD
  {
    assert SECOND[..0] == [];
  }

  lemma SecondIsLargest()
    ensures MaxId(HELD, 7) == 2
  {
    assert HELD[..0] == [];
  }

  // ---- Steps ----

  lemma SyncStarts(runs: seq<SyncRun>, table: seq<Stored>)
    ensures Next(At(0, table, runs, map[]), Start(7, Cursor)) == At(0, table, runs + [OPEN], map[|runs| := Sync(Started)])
  {
  }

  lemma SyncFetches(run: nat, runs: seq<SyncRun>, table: seq<Stored>)
    ensures Next(At(0, table, runs, map[run := Sync(Started)]), Fetch(run, Served)) == At(2, table, runs, map[run := Sync(Fetched(BOTH))])
  {
    BothServed();
    var w := At(0, table, runs, map[run := Sync(Started)]);
    assert Batch(w.servers[7], Cursor) == BOTH;
    assert w.servers[7 := Server(BOTH, 2, 0)] == map[7 := Server(BOTH, 2, 0)];
  }

  lemma BackfillFetches(cursor: int, runs: seq<SyncRun>, jobs: map<nat, Job>, run: nat)
    ensures Next(At(cursor, [], runs, jobs[run := Backfill(Started)]), Fetch(run, Served))
            == At(cursor, [], runs, jobs[run := Backfill(Fetched(SECOND))])
  {
    SecondDayServed();
    var w := At(cursor, [], runs, jobs[run := Backfill(Started)]);
    assert w.servers[7 := w.servers[7]] == w.servers;
  }

  lemma BackfillInserts(cursor: int, runs: seq<SyncRun>, jobs: map<nat, Job>, run: nat)
    ensures Next(At(cursor, [], runs, jobs[run := Backfill(Fetched(SECOND))]), Insert(run, None))
            == At(cursor, HELD, runs, jobs[run := Backfill(Inserted(SECOND, 1))])
  {
    SecondInserted();
  }

  lemma BackfillFinishes(cursor: int, runs: seq<SyncRun>, jobs: map<nat, Job>)
    requires |runs| !in jobs
    ensures Next(At(cursor, HELD, runs + [OPEN], jobs[|runs| := Backfill(Inserted(SECOND, 1))]), Finish(|runs|, true))
            == At(cursor, HELD, runs + [BACKFILLED], jobs)
  {
    var (run, w) := (|runs|, At(cursor, HELD, runs + [OPEN], jobs[|runs| := Backfill(Inserted(SECOND, 1))]));
    assert (runs + [OPEN])[run := BACKFILLED] == runs + [BACKFILLED];
    assert (map r | r in w.jobs && r != run :: w.jobs[r]) == jobs;
  }

  /** A backfill of the second day beside whatever else is under way. */
  lemma BackfillRuns(cursor: int, runs: seq<SyncRun>, jobs: map<nat, Job>)
    requires |runs| !in jobs
    ensures var run := |runs|;
            Execute(At(cursor, [], runs, jobs), [Start(7, SECOND_DAY), Fetch(run, Served), Insert(run, None), Finish(run, true)])
            == At(cursor, HELD, runs + [BACKFILLED], jobs)
  {
    var (run, w) := (|runs|, At(cursor, [], runs, jobs));
    assert Next(w, Start(7, SECOND_DAY)) == At(cursor, [], runs + [OPEN], jobs[run := Backfill(Started)]);
    hide Next;
    BackfillFetches(cursor, runs + [OPEN], jobs, run);
    BackfillInserts(cursor, runs + [OPEN], jobs, run);
    BackfillFinishes(cursor, runs, jobs);
    FourSteps(w, Start(7, SECOND_DAY), Fetch(run, Served), Insert(run, None), Finish(run, true));
  }

  lemma FourSteps(w: World, a: Action, b: Action, c: Action, d: Action)
    ensures Execute(w, [a, b, c, d]) == Next(Next(Next(Next(w, a), b), c), d)
  {
    assert [a, b, c, d][1..] == [b, c, d];
    ThreeSteps(Next(w, a), b, c, d);
  }

  lemma ThreeSteps(w: World, a: Action, b: Action, c: Action)
    ensures Execute(w, [a, b, c]) == Next(Next(Next(w, a), b), c)
  {
    assert [a, b, c][1..] == [b, c] && [b, c][1..] == [c] && [c][1..] == [];
    assert Execute(w, [a, b, c]) == Execute(Next(w, a), [b, c]);
    assert Execute(Next(w, a), [b, c]) == Execute(Next(Next(w, a), b), [c]);
  }

  function Failed(run: nat): seq<Action> {
    [ReadMax(run, true), Insert(run, Some(0)), Finish(run, true)]
  }

  /** Largest id 2 read, insert failed, rewind to 2 accepted: movement 1 is behind the cursor and not in the table. */
  lemma RewindSkipsFirst(run: nat, runs: seq<SyncRun>, batch: seq<FioTx>)
    requires run < |runs|
    ensures var w := Execute(At(2, HELD, runs, map[run := Sync(Fetched(batch))]), Failed(run));
            7 in w.servers && w.servers[7].cursor == 2 && w.jobs == map[] && !Holds(w.table, 7, 1) && !Lossless(w)
  {
    SecondIsLargest();
    var w0 := At(2, HELD, runs, map[run := Sync(Fetched(batch))]);
    var w1 := At(2, HELD, runs, map[run := Sync(MaxRead(batch, 2))]);
    var w2 := At(2, HELD, runs, map[run := Sync(InsertFailed(batch, 2))]);
    assert Next(w0, ReadMax(run, true)) == w1;
    assert Next(w1, Insert(run, Some(0))) == w2;
    var w3 := Next(w2, Finish(run, true));
    assert w3.servers[7] == Server(BOTH, 2, 0) && w3.table == HELD && w3.jobs == map[];
    ThreeSteps(w0, ReadMax(run, true), Insert(run, Some(0)), Finish(run, true));
    FirstIsMissing(w3);
  }

  lemma FirstIsMissing(w: World)
    requires 7 in w.servers && w.servers[7] == Server(BOTH, 2, 0) && w.table == HELD && w.jobs == map[]
    ensures !Holds(w.table, 7, 1) && !Lossless(w)
  {
    assert BOTH[0] == Movement(1);
    assert Movement(1) in w.servers[7].movements && !InHand(w, 7, Movement(1));
    assert !NoLoss(w, 7);
  }

  // ---- The two ways there ----

  const BACKFILL_FIRST: seq<Action> := [Start(7, SECOND_DAY), Fetch(0, Served), Insert(0, None), Finish(0, true)]
  const SYNC_AFTER: seq<Action> := [Start(7, Cursor), Fetch(1, Served)]

  /** The hole is there before the sync starts. */
  lemma GapLosesMovement()
    ensures WorldOk(Fresh()) && Solo(Fresh()) && Lossless(Fresh())
    ensures var w := Execute(Fresh(), BACKFILL_FIRST + SYNC_AFTER + Failed(1));
            7 in w.servers && w.servers[7].cursor == 2 && w.jobs == map[] && !Holds(w.table, 7, 1) && !Lossless(w)
  {
    FreshIsFine();
    BackfillRuns(0, [], map[]);
    var w1 := At(0, HELD, [BACKFILLED], map[]);
    assert Execute(Fresh(), BACKFILL_FIRST) == w1 by {
      assert [] + [BACKFILLED] == [BACKFILLED];
    }
    SyncStarts([BACKFILLED], HELD);
    SyncFetches(1, [BACKFILLED, OPEN], HELD);
    var w2 := At(2, HELD, [BACKFILLED, OPEN], map[1 := Sync(Fetched(BOTH))]);
    assert Execute(w1, SYNC_AFTER) == w2 by {
      assert [BACKFILLED] + [OPEN] == [BACKFILLED, OPEN];
      assert SYNC_AFTER[1..] == [Fetch(1, Served)] && [Fetch(1, Served)][1..] == [];
    }
    ExecuteConcat(Fresh(), BACKFILL_FIRST, SYNC_AFTER);
    ExecuteConcat(Fresh(), BACKFILL_FIRST + SYNC_AFTER, Failed(1));
    RewindSkipsFirst(1, [BACKFILLED, OPEN], BOTH);
  }

  const SYNC_BEFORE: seq<Action> := [Start(7, Cursor), Fetch(0, Served)]
  const BACKFILL_INSIDE: seq<Action> := [Start(7, SECOND_DAY), Fetch(1, Served), Insert(1, None), Finish(1, true)]

  /** The backfill lands between the fetch and the reading of the largest id: no hole when the
      bank was asked, a hole when the id is read, and the same loss. */
  lemma BackfillInsideSyncLosesMovement()
    ensures WorldOk(Fresh()) && Solo(Fresh()) && Lossless(Fresh()) && NoGap(Fresh(), 7)
    ensures var (asked, read) := (Execute(Fresh(), SYNC_BEFORE), Execute(Fresh(), SYNC_BEFORE + BACKFILL_INSIDE));
            7 in asked.servers && NoGap(asked, 7) && 7 in read.servers && !NoGap(read, 7)
    ensures var w := Execute(Fresh(), SYNC_BEFORE + BACKFILL_INSIDE + Failed(0));
            7 in w.servers && w.servers[7].cursor == 2 && w.jobs == map[] && !Holds(w.table, 7, 1) && !Lossless(w)
  {
    FreshIsFine();
    SyncStarts([], []);
    SyncFetches(0, [OPEN], []);
    var w1 := At(2, [], [OPEN], map[0 := Sync(Fetched(BOTH))]);
    assert Execute(Fresh(), SYNC_BEFORE) == w1 by {
      assert [] + [OPEN] == [OPEN];
      assert SYNC_BEFORE[1..] == [Fetch(0, Served)] && [Fetch(0, Served)][1..] == [];
    }
    BackfillRuns(2, [OPEN], w1.jobs);
    var w2 := At(2, HELD, [OPEN, BACKFILLED], map[0 := Sync(Fetched(BOTH))]);
    assert Execute(w1, BACKFILL_INSIDE) == w2 by {
      assert [OPEN] + [BACKFILLED] == [OPEN, BACKFILLED];
    }
    ExecuteConcat(Fresh(), SYNC_BEFORE, BACKFILL_INSIDE);
    ExecuteConcat(Fresh(), SYNC_BEFORE + BACKFILL_INSIDE, Failed(0));
    RewindSkipsFirst(0, [OPEN, BACKFILLED], BOTH);
    HoleSeen(w2);
  }

  lemma HoleSeen(w: World)
    requires 7 in w.servers && w.servers[7] == Server(BOTH, 2, 0) && w.table == HELD
    ensures !NoGap(w, 7)
  {
    SecondIsLargest();
    assert BOTH[0] == Movement(1);
    assert Movement(1) in w.servers[7].movements && !Holds(w.table, 7, 1);
  }
}
