/** The Fio cursor protocol. The bank keeps the cursor and moves it when it answers;
    our insert is all-or-nothing; after a failed insert the cursor is sent back to the
    largest id we held before it. Syncs and backfills are jobs that take one step at a
    time, so anything else may happen between two steps of one job. */
module FioSync {
  import opened Options
  import opened Calendar
  import opened Categorization

  datatype FioTx = FioTx(id: int, rt: RawTransaction)

  /** One account at the bank: its movements in id order and the cursor of our token.
      `floor` is the position below which reseeding gave up history on purpose. */
  datatype Server = Server(movements: seq<FioTx>, cursor: int, floor: int)

  /** A row of raw_transactions. */
  datatype Stored = Stored(account: int, tx: FioTx)

  datatype Status = Running | Success | Failure

  /** A row of sync_fio_runs. */
  datatype SyncRun = SyncRun(account: int, status: Status, fetched: nat, inserted: nat)

  datatype Kind = Cursor | Period(from: Date, to: Date)

  /** How far a job has come. Only a cursor sync reads the largest id and can rewind. */
  datatype Phase =
    | Started
    | Fetched(batch: seq<FioTx>)
    | MaxRead(batch: seq<FioTx>, max: int)
    | InsertFailed(batch: seq<FioTx>, max: int)
    | Inserted(batch: seq<FioTx>, count: nat)

  /** A sync or backfill under way; its number is that of its run row. */
  datatype Job = Job(account: int, kind: Kind, phase: Phase)

  datatype World = World(servers: map<int, Server>, table: seq<Stored>, runs: seq<SyncRun>, jobs: map<nat, Job>)

  /** Refused: the bank did not answer and its cursor stays. Unread: it answered, but the
      response was lost or could not be decoded or parsed. */
  datatype Answer = Served | Refused | Unread

  datatype Action =
    | Arrive(account: int, tx: FioTx)
    | Start(account: int, kind: Kind)
    /** Seeds the cursor by date after the bank demanded strong authorisation. */
    | Reseed(run: nat, date: Date, accepted: bool)
    | Fetch(run: nat, answer: Answer)
    | ReadMax(run: nat, ok: bool)
    /** One database transaction; `failAt` is the row whose insert fails, or the batch length when the commit does. */
    | Insert(run: nat, failAt: Option<nat>)
    /** Rewinds after a failed insert, if the bank accepts, and closes the run row. */
    | Finish(run: nat, rewound: bool)
    /** A recovered panic: the run row is closed as failed. */
    | Panic(run: nat)
    /** The process dies, or the run row cannot be written: the row stays as it is. */
    | Vanish(run: nat)

  // ---- The bank ----

  function NewSince(movements: seq<FioTx>, cursor: int): seq<FioTx> {
    if movements == [] then []
    else
      var last := movements[|movements| - 1];
      var front := NewSince(movements[..|movements| - 1], cursor);
      if last.id > cursor then front + [last] else front
  }

  function LastId(movements: seq<FioTx>): int {
    if movements == [] then 0 else movements[|movements| - 1].id
  }

  function InPeriod(movements: seq<FioTx>, from: Date, to: Date): seq<FioTx> {
    if movements == [] then []
    else
      var last := movements[|movements| - 1];
      var front := InPeriod(movements[..|movements| - 1], from, to);
      if NotAfter(from, last.rt.date) && NotAfter(last.rt.date, to) then front + [last] else front
  }

  /** The position set-last-date establishes: the last movement dated before `date`. */
  function PositionBefore(movements: seq<FioTx>, date: Date): int {
    if movements == [] then 0
    else if !NotAfter(date, movements[|movements| - 1].rt.date) then movements[|movements| - 1].id
    else PositionBefore(movements[..|movements| - 1], date)
  }

  // ---- Our table ----

  predicate Holds(table: seq<Stored>, account: int, id: int) {
    exists i :: 0 <= i < |table| && table[i].account == account && table[i].tx.id == id
  }

  /** INSERT ... ON CONFLICT (bank_account_id, fio_transaction_id) DO NOTHING. */
  function InsertOne(table: seq<Stored>, account: int, tx: FioTx): seq<Stored> {
    if Holds(table, account, tx.id) then table else table + [Stored(account, tx)]
  }

  function InsertAll(table: seq<Stored>, account: int, txs: seq<FioTx>): (r: seq<Stored>)
    ensures |r| >= |table|
  {
    if txs == [] then table
    else InsertOne(InsertAll(table, account, txs[..|txs| - 1]), account, txs[|txs| - 1])
  }

  /** COALESCE(MAX(fio_transaction_id), 0). */
  function MaxId(table: seq<Stored>, account: int): int {
    if table == [] then 0
    else
      var last, front := table[|table| - 1], MaxId(table[..|table| - 1], account);
      if last.account == account && (last.tx.id > front || !HoldsAny(table[..|table| - 1], account)) then last.tx.id else front
  }

  predicate HoldsAny(table: seq<Stored>, account: int) {
    exists i :: 0 <= i < |table| && table[i].account == account
  }

  // ---- The steps ----

  function Reseeded(s: Server, date: Date): Server {
    var position := PositionBefore(s.movements, date);
    s.(cursor := position, floor := if position > s.cursor && position > s.floor then position else s.floor)
  }

  /** What the bank serves a job. */
  function Batch(s: Server, kind: Kind): seq<FioTx> {
    match kind
    case Cursor => NewSince(s.movements, s.cursor)
    case Period(from, to) => InPeriod(s.movements, from, to)
  }

  /** /periods/ never touches the cursor. */
  function Advanced(s: Server, kind: Kind): Server {
    if kind.Cursor? && Batch(s, kind) != [] then s.(cursor := LastId(Batch(s, kind))) else s
  }

  function Close(w: World, run: nat, status: Status, fetched: nat, inserted: nat): World {
    w.(runs := if run < |w.runs| then w.runs[run := w.runs[run].(status := status, fetched := fetched, inserted := inserted)] else w.runs,
       jobs := map r | r in w.jobs && r != run :: w.jobs[r])
  }

  function Move(w: World, run: nat, phase: Phase): World
    requires run in w.jobs
  {
    w.(jobs := w.jobs[run := w.jobs[run].(phase := phase)])
  }

  predicate Live(w: World, run: nat) {
    run in w.jobs && w.jobs[run].account in w.servers
  }

  /** The job has its batch and, for a cursor sync, the largest id: next is the insert. */
  predicate ReadyToInsert(job: Job) {
    if job.kind.Cursor? then job.phase.MaxRead? else job.phase.Fetched?
  }

  function FetchStep(w: World, run: nat, answer: Answer): World
    requires Live(w, run)
  {
    var job := w.jobs[run];
    var (s, batch) := (w.servers[job.account], Batch(w.servers[job.account], job.kind));
    var moved := w.(servers := w.servers[job.account := Advanced(s, job.kind)]);
    match answer
    case Refused => Close(w, run, Failure, 0, 0)
    case Unread => Close(moved, run, Failure, 0, 0)
    case Served => if batch == [] then Close(moved, run, Success, 0, 0) else Move(moved, run, Fetched(batch))
  }

  predicate InsertFails(batch: seq<FioTx>, failAt: Option<nat>) {
    failAt.Some? && failAt.value <= |batch|
  }

  function InsertStep(w: World, run: nat, failAt: Option<nat>): World
    requires Live(w, run) && ReadyToInsert(w.jobs[run])
  {
    var (account, phase) := (w.jobs[run].account, w.jobs[run].phase);
    if !InsertFails(phase.batch, failAt) then
      var table := InsertAll(w.table, account, phase.batch);
      Move(w.(table := table), run, Inserted(phase.batch, |table| - |w.table|))
    else if phase.MaxRead? then Move(w, run, InsertFailed(phase.batch, phase.max))
    else Close(w, run, Failure, |phase.batch|, 0)
  }

  function FinishStep(w: World, run: nat, rewound: bool): World
    requires Live(w, run)
  {
    var (account, phase) := (w.jobs[run].account, w.jobs[run].phase);
    match phase
    case InsertFailed(batch, max) =>
      var back := if rewound then w.(servers := w.servers[account := w.servers[account].(cursor := max)]) else w;
      Close(back, run, Failure, |batch|, 0)
    case Inserted(batch, count) => Close(w, run, Success, |batch|, count)
    case _ => w
  }

  function FetchedCount(phase: Phase): nat {
    if phase.Started? then 0 else |phase.batch|
  }

  function InsertedCount(phase: Phase): nat {
    if phase.Inserted? then phase.count else 0
  }

  /** An arriving movement gets an id above every earlier one of its account. An action that
      does not apply changes nothing. */
  function Next(w: World, a: Action): World {
    match a
    case Arrive(account, tx) =>
      if account in w.servers && tx.id > LastId(w.servers[account].movements) && tx.id > 0 then
        var s := w.servers[account];
        w.(servers := w.servers[account := s.(movements := s.movements + [tx])])
      else w
    case Start(account, kind) =>
      if account in w.servers then
        w.(runs := w.runs + [SyncRun(account, Running, 0, 0)], jobs := w.jobs[|w.runs| := Job(account, kind, Started)])
      else w
    case Reseed(run, date, accepted) =>
      if Live(w, run) && w.jobs[run].kind.Cursor? && w.jobs[run].phase.Started? then
        var account := w.jobs[run].account;
        if accepted then w.(servers := w.servers[account := Reseeded(w.servers[account], date)])
        else Close(w, run, Failure, 0, 0)
      else w
    case Fetch(run, answer) => if Live(w, run) && w.jobs[run].phase.Started? then FetchStep(w, run, answer) else w
    case ReadMax(run, ok) =>
      if Live(w, run) && w.jobs[run].kind.Cursor? && w.jobs[run].phase.Fetched? then
        var batch := w.jobs[run].phase.batch;
        if ok then Move(w, run, MaxRead(batch, MaxId(w.table, w.jobs[run].account)))
        else Close(w, run, Failure, |batch|, 0)
      else w
    case Insert(run, failAt) => if Live(w, run) && ReadyToInsert(w.jobs[run]) then InsertStep(w, run, failAt) else w
    case Finish(run, rewound) => if Live(w, run) then FinishStep(w, run, rewound) else w
    case Panic(run) =>
      if run in w.jobs then Close(w, run, Failure, FetchedCount(w.jobs[run].phase), InsertedCount(w.jobs[run].phase)) else w
    case Vanish(run) => w.(jobs := map r | r in w.jobs && r != run :: w.jobs[r])
  }

  function Execute(w: World, actions: seq<Action>): World
    decreases |actions|
  {
    if actions == [] then w else Execute(Next(w, actions[0]), actions[1..])
  }

  lemma {:induction false} ExecuteConcat(w: World, a: seq<Action>, b: seq<Action>)
    ensures Execute(w, a + b) == Execute(Execute(w, a), b)
    decreases |a|
  {
    if a == [] {
      assert a + b == b;
    } else {
      assert (a + b)[0] == a[0] && (a + b)[1..] == a[1..] + b;
      ExecuteConcat(Next(w, a[0]), a[1..], b);
    }
  }

  // ---- What always holds ----

  ghost predicate Increasing(movements: seq<FioTx>) {
    && (forall i :: 0 <= i < |movements| ==> movements[i].id > 0)
    && (forall i, j :: 0 <= i < j < |movements| ==> movements[i].id < movements[j].id)
  }

  ghost predicate Unique(table: seq<Stored>) {
    forall i, j :: 0 <= i < j < |table| ==> table[i].account != table[j].account || table[i].tx.id != table[j].tx.id
  }

  ghost predicate Mirrors(w: World) {
    forall row :: row in w.table ==> row.account in w.servers && row.tx in w.servers[row.account].movements
  }

  ghost predicate JobOk(w: World, run: nat)
    requires run in w.jobs
  {
    var job := w.jobs[run];
    && run < |w.runs| && job.account in w.servers && w.runs[run].inserted == 0
    && (job.kind.Period? ==> !job.phase.MaxRead? && !job.phase.InsertFailed?)
    && (job.phase.MaxRead? || job.phase.InsertFailed? ==> job.phase.max <= LastId(w.servers[job.account].movements))
    && (!job.phase.Started? ==> forall tx :: tx in job.phase.batch ==> tx in w.servers[job.account].movements)
  }

  ghost predicate WorldOk(w: World) {
    && Unique(w.table) && Mirrors(w)
    && (forall a :: a in w.servers ==> Increasing(w.servers[a].movements) && w.servers[a].cursor <= LastId(w.servers[a].movements))
    && (forall run :: run in w.jobs ==> JobOk(w, run))
  }

  lemma {:induction false} NewSinceExact(movements: seq<FioTx>, cursor: int)
    ensures forall tx :: tx in NewSince(movements, cursor) <==> tx in movements && tx.id > cursor
    ensures NewSince(movements, cursor) != [] ==> LastId(NewSince(movements, cursor)) in (set tx | tx in movements :: tx.id)
    ensures Increasing(movements) && NewSince(movements, cursor) != [] ==> LastId(NewSince(movements, cursor)) == LastId(movements)
  {
    if movements != [] {
      var front := movements[..|movements| - 1];
      NewSinceExact(front, cursor);
      assert forall tx :: tx in movements <==> tx in front || tx == movements[|movements| - 1];
    }
  }

  lemma {:induction false} InPeriodExact(movements: seq<FioTx>, from: Date, to: Date)
    ensures forall tx :: tx in InPeriod(movements, from, to) <==> tx in movements && NotAfter(from, tx.rt.date) && NotAfter(tx.rt.date, to)
  {
    if movements != [] {
      var front := movements[..|movements| - 1];
      InPeriodExact(front, from, to);
      assert forall tx :: tx in movements <==> tx in front || tx == movements[|movements| - 1];
    }
  }

  lemma {:induction false} PositionInside(movements: seq<FioTx>, date: Date)
    requires Increasing(movements)
    ensures 0 <= PositionBefore(movements, date) <= LastId(movements)
  {
    if movements != [] {
      PositionInside(movements[..|movements| - 1], date);
    }
  }

  /** The bank books a movement exactly if its id is positive and above all earlier ones. */
  lemma ArriveExact(w: World, account: int, tx: FioTx)
    requires account in w.servers && Increasing(w.servers[account].movements)
    ensures var s := w.servers[account];
            Next(w, Arrive(account, tx)) ==
              if tx.id > 0 && forall earlier :: earlier in s.movements ==> earlier.id < tx.id
              then w.(servers := w.servers[account := s.(movements := s.movements + [tx])])
              else w
  {
    var movements := w.servers[account].movements;
    assert movements != [] ==> movements[|movements| - 1] in movements;
  }

  /** After reseeding, the bank next serves what follows its last movement dated before the day: nothing
      older than the day. What lies between the old and the new position is given up. */
  lemma {:induction false} PositionExact(movements: seq<FioTx>, date: Date)
    requires Increasing(movements)
    ensures var position := PositionBefore(movements, date);
            && (forall tx :: tx in movements && tx.id > position ==> NotAfter(date, tx.rt.date))
            && (position == 0 || exists tx :: tx in movements && tx.id == position && !NotAfter(date, tx.rt.date))
  {
    if movements != [] {
      var (front, last) := (movements[..|movements| - 1], movements[|movements| - 1]);
      assert forall tx :: tx in movements <==> tx in front || tx == last;
      PositionExact(front, date);
    }
  }

  lemma ReseedServes(s: Server, date: Date)
    requires Increasing(s.movements)
    ensures var s' := Reseeded(s, date);
            && s' == s.(cursor := s'.cursor, floor := s'.floor)
            && (forall tx :: tx in Batch(s', Cursor) ==> NotAfter(date, tx.rt.date))
            && (s'.cursor == 0 || exists tx :: tx in s.movements && tx.id == s'.cursor && !NotAfter(date, tx.rt.date))
            && (s'.floor == s.floor || (s'.floor == s'.cursor && s'.cursor > s.cursor && s'.cursor > s.floor))
  {
    PositionExact(s.movements, date);
    NewSinceExact(s.movements, Reseeded(s, date).cursor);
  }

  lemma InsertOneExact(table: seq<Stored>, account: int, tx: FioTx)
    requires Unique(table)
    ensures var r := InsertOne(table, account, tx);
            && Unique(r)
            && (forall a, id :: Holds(r, a, id) <==> Holds(table, a, id) || (a == account && id == tx.id))
            && (forall row :: row in r ==> row in table || row == Stored(account, tx))
  {
    var r := InsertOne(table, account, tx);
    if !Holds(table, account, tx.id) {
      forall a, id ensures Holds(r, a, id) <==> Holds(table, a, id) || (a == account && id == tx.id) {
        if i :| 0 <= i < |table| && table[i].account == a && table[i].tx.id == id {
          assert r[i].account == a;
        }
        assert r[|table|].account == account;
      }
    }
  }

  lemma {:induction false} InsertAllExact(table: seq<Stored>, account: int, txs: seq<FioTx>)
    requires Unique(table)
    ensures var r := InsertAll(table, account, txs);
            && Unique(r)
            && (forall a, id :: Holds(r, a, id) <==> Holds(table, a, id) || (a == account && exists tx :: tx in txs && tx.id == id))
            && (forall row :: row in r ==> row in table || (row.account == account && row.tx in txs))
  {
    if txs != [] {
      var front, last := txs[..|txs| - 1], txs[|txs| - 1];
      assert forall tx :: tx in txs <==> tx in front || tx == last;
      InsertAllExact(table, account, front);
      InsertOneExact(InsertAll(table, account, front), account, last);
    }
  }

  lemma {:induction false} MaxIdExact(table: seq<Stored>, account: int)
    ensures forall row :: row in table && row.account == account ==> row.tx.id <= MaxId(table, account)
    ensures HoldsAny(table, account) ==> Holds(table, account, MaxId(table, account))
    ensures !HoldsAny(table, account) ==> MaxId(table, account) == 0
  {
    if table != [] {
      var front, last := table[..|table| - 1], table[|table| - 1];
      MaxIdExact(front, account);
      assert forall row :: row in table <==> row in front || row == last;
      if i :| 0 <= i < |front| && front[i].account == account {
        var k :| 0 <= k < |front| && front[k].account == account && front[k].tx.id == MaxId(front, account);
        assert table[k] == front[k] && table[i] == front[i];
      }
      assert table[|front|] == last;
      if HoldsAny(table, account) && !HoldsAny(front, account) {
        assert forall k :: 0 <= k < |front| ==> front[k].account != account && table[k] == front[k];
      }
    }
  }
}
