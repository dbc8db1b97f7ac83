/** Writing off months while payments come and go. A walk checks, writes and reads each month in
    separate statements, so a payment may land between a month's check and its waiver. */
module WaiverMachine {
  import opened Calendar
  import opened Ledger
  import opened Arrears
  import opened Waivers

  /** An accepted request between two of its statements. */
  datatype Walk = Walk(
    member: int, index: int, last: int, isRange: bool, reason: string,
    stage: Stage, waived: seq<(YearMonth, string)>, skipped: seq<YearMonth>)
  {
    function Month(): YearMonth {
      MonthFromIndex(index)
    }

    function Key(): MonthKey {
      MonthKey(member, Month())
    }
  }

  datatype Office = Office(
    coverage: map<CoverKey, int>, waivers: map<MonthKey, string>,
    walks: map<nat, Walk>, nextWalk: nat, replies: map<nat, WaiveResponse>)

  datatype Action =
    /** A run, a re-apply or an assignment commits a coverage row. */
    | Pay(key: CoverKey, member: int)
    /** A re-apply, an assignment or an unassignment clears a row's coverage. */
    | Unpay(row: int)
    | Unwaive(member: int, month: YearMonth)
    | Begin(member: int, first: int, last: int, isRange: bool, reason: string)
    | Check(walk: nat, ok: bool)
    | Write(walk: nat, ok: bool)
    | Read(walk: nat, ok: bool)

  predicate Stands(d: Office, w: nat, stage: Stage) {
    w in d.walks && d.walks[w].stage == stage
  }

  /** The walk ends with a response. */
  function Reply(d: Office, w: nat, response: WaiveResponse): Office {
    d.(walks := map other | other in d.walks && other != w :: d.walks[other], replies := d.replies[w := response])
  }

  /** On to the next month, if there is one. */
  function Advance(d: Office, w: nat, walk: Walk): Office {
    if walk.index >= walk.last then Reply(d, w, Accepted(walk.waived, walk.skipped))
    else d.(walks := d.walks[w := walk.(index := walk.index + 1, stage := Checking)])
  }

  function CheckStep(d: Office, w: nat): Office
    requires w in d.walks
  {
    var walk := d.walks[w];
    if !Covered(d.coverage, walk.member, walk.Month()) then d.(walks := d.walks[w := walk.(stage := Writing)])
    else if !walk.isRange then Reply(d, w, Rejected)
    else Advance(d, w, walk.(skipped := walk.skipped + [walk.Month()]))
  }

  /** INSERT ... ON CONFLICT DO NOTHING. */
  function WriteStep(d: Office, w: nat): Office
    requires w in d.walks
  {
    var walk := d.walks[w];
    d.(waivers := if walk.Key() in d.waivers then d.waivers else d.waivers[walk.Key() := walk.reason],
       walks := d.walks[w := walk.(stage := Reading)])
  }

  /** The reason on record; a waiver removed meanwhile cannot be read. */
  function ReadStep(d: Office, w: nat): Office
    requires w in d.walks
  {
    var walk := d.walks[w];
    if walk.Key() !in d.waivers then Reply(d, w, Broken)
    else Advance(d, w, walk.(waived := walk.waived + [(walk.Month(), d.waivers[walk.Key()])]))
  }

  /** One action; one that does not apply changes nothing. */
  function Next(d: Office, a: Action): Office {
    match a
    case Pay(key, member) => d.(coverage := InsertCoverage(d.coverage, key, member))
    case Unpay(row) => d.(coverage := DeleteCoverage(d.coverage, row))
    case Unwaive(member, month) => d.(waivers := map key | key in d.waivers && key != MonthKey(member, month) :: d.waivers[key])
    case Begin(member, first, last, isRange, reason) =>
      d.(walks := d.walks[d.nextWalk := Walk(member, first, last, isRange, reason, Checking, [], [])], nextWalk := d.nextWalk + 1)
    case Check(w, ok) => if !Stands(d, w, Checking) then d else if ok then CheckStep(d, w) else Reply(d, w, Broken)
    case Write(w, ok) => if !Stands(d, w, Writing) then d else if ok then WriteStep(d, w) else Reply(d, w, Broken)
    case Read(w, ok) => if !Stands(d, w, Reading) then d else if ok then ReadStep(d, w) else Reply(d, w, Broken)
  }

  function Execute(d: Office, actions: seq<Action>): Office {
    if actions == [] then d else Next(Execute(d, actions[..|actions| - 1]), actions[|actions| - 1])
  }

  lemma {:induction false} ExecuteConcat(d: Office, a: seq<Action>, b: seq<Action>)
    ensures Execute(d, a + b) == Execute(Execute(d, a), b)
    decreases |b|
  {
    if b == [] {
      assert a + b == a;
    } else {
      assert (a + b)[..|a + b| - 1] == a + b[..|b| - 1];
      ExecuteConcat(d, a, b[..|b| - 1]);
    }
  }

  // ---- Every new waiver was checked ----

  ghost predicate Numbered(d: Office) {
    forall w :: w in d.walks ==> w < d.nextWalk
  }

  lemma NextNumbered(d: Office, a: Action)
    requires Numbered(d)
    ensures Numbered(Next(d, a))
  {
  }

  lemma {:induction false} NumberedStays(d: Office, actions: seq<Action>)
    requires Numbered(d)
    ensures Numbered(Execute(d, actions))
  {
    if actions != [] {
      NumberedStays(d, actions[..|actions| - 1]);
      NextNumbered(Execute(d, actions[..|actions| - 1]), actions[|actions| - 1]);
    }
  }

  /** Only a walk that is about to write adds a waiver, and it adds its month's with its reason. */
  lemma GainNeedsWriting(d: Office, a: Action, key: MonthKey)
    requires key !in d.waivers && key in Next(d, a).waivers
    ensures a.Write? && a.ok && Stands(d, a.walk, Writing) && d.walks[a.walk].Key() == key
    ensures Next(d, a).waivers[key] == d.walks[a.walk].reason
  {
  }

  /** A walk comes to its write only through its own check, finding the month uncovered. */
  lemma WritingComesFromCheck(d: Office, a: Action, w: nat)
    requires Numbered(d) && Stands(Next(d, a), w, Writing)
    ensures || (Stands(d, w, Writing) && d.walks[w] == Next(d, a).walks[w])
            || (a == Check(w, true) && Stands(d, w, Checking) && d.walks[w] == Next(d, a).walks[w].(stage := Checking)
                && !Covered(d.coverage, d.walks[w].member, d.walks[w].Month()) && Next(d, a).coverage == d.coverage)
  {
  }

  /** The split of a history at the check that let a walk write. */
  ghost predicate CheckedIn(d: Office, history: seq<Action>, w: nat, before: seq<Action>, between: seq<Action>) {
    && history == before + [Check(w, true)] + between
    && Stands(Execute(d, history), w, Writing)
    && var (walk, seen) := (Execute(d, history).walks[w], Execute(d, before));
       && w in seen.walks && seen.walks[w] == walk.(stage := Checking)
       && !Covered(seen.coverage, walk.member, walk.Month())
       && !Covered(Execute(d, before + [Check(w, true)]).coverage, walk.member, walk.Month())
  }

  lemma {:induction false} WritingWasChecked(d: Office, history: seq<Action>, w: nat) returns (before: seq<Action>, between: seq<Action>)
    requires d.walks == map[] && Stands(Execute(d, history), w, Writing)
    ensures CheckedIn(d, history, w, before, between)
    decreases |history|
  {
    var (front, a) := (history[..|history| - 1], history[|history| - 1]);
    NumberedStays(d, front);
    WritingComesFromCheck(Execute(d, front), a, w);
    if Stands(Execute(d, front), w, Writing) {
      before, between := WritingWasChecked(d, front, w);
      between := between + [a];
      assert history == before + [Check(w, true)] + between;
    } else {
      before, between := front, [];
      assert history == front + [Check(w, true)] + [];
      assert (front + [Check(w, true)])[..|front|] == front;
    }
  }

  // ---- A covered month with a new waiver ----

  ghost predicate Credits(coverage: map<CoverKey, int>, key: CoverKey, member: int) {
    key in coverage && coverage[key] == member
  }

  /** The payment lands on a free row and month, and nobody clears the row afterwards. */
  ghost predicate Lands(d: Office, actions: seq<Action>, key: CoverKey, member: int, k: nat)
    requires k < |actions|
  {
    && actions[k] == Pay(key, member) && key !in Execute(d, actions[..k]).coverage
    && forall j :: k < j < |actions| ==> actions[j] != Unpay(key.row)
  }

  ghost predicate Landed(d: Office, actions: seq<Action>, key: CoverKey, member: int) {
    exists k :: 0 <= k < |actions| && Lands(d, actions, key, member, k)
  }

  lemma CreditStep(d: Office, a: Action, key: CoverKey, member: int)
    ensures Credits(Next(d, a).coverage, key, member) <==>
              || (Credits(d.coverage, key, member) && a != Unpay(key.row))
              || (a == Pay(key, member) && key !in d.coverage)
  {
  }

  lemma LandedLonger(d: Office, front: seq<Action>, a: Action, key: CoverKey, member: int)
    ensures Landed(d, front + [a], key, member) <==>
              || (Landed(d, front, key, member) && a != Unpay(key.row))
              || (a == Pay(key, member) && key !in Execute(d, front).coverage)
  {
    hide Execute;
    var actions := front + [a];
    assert actions[..|front|] == front;
    forall k | 0 <= k < |front|
      ensures Lands(d, actions, key, member, k) <==> Lands(d, front, key, member, k) && a != Unpay(key.row)
    {
      assert actions[..k] == front[..k] && actions[|front|] == a;
      assert Lands(d, actions, key, member, k) ==> forall j :: k < j < |front| ==> front[j] == actions[j];
    }
    assert Lands(d, actions, key, member, |front|) <==> a == Pay(key, member) && key !in Execute(d, front).coverage;
  }

  lemma {:induction false} CreditedWhenLanded(d: Office, actions: seq<Action>, key: CoverKey, member: int)
    requires !Credits(d.coverage, key, member)
    ensures Credits(Execute(d, actions).coverage, key, member) <==> Landed(d, actions, key, member)
    decreases |actions|
  {
    if actions != [] {
      hide Next, Landed, Credits;
      var (front, a) := (actions[..|actions| - 1], actions[|actions| - 1]);
      assert actions == front + [a];
      CreditedWhenLanded(d, front, key, member);
      CreditStep(Execute(d, front), a, key, member);
      LandedLonger(d, front, a, key, member);
    }
  }

  /** An uncovered month is covered after a history exactly when the history pays it on a row and
      month that are free at that time, and does not clear that row afterwards. */
  lemma CoveredWhenLanded(d: Office, actions: seq<Action>, member: int, month: YearMonth)
    requires !Covered(d.coverage, member, month)
    ensures Covered(Execute(d, actions).coverage, member, month) <==>
              exists key: CoverKey :: key.month == month && Landed(d, actions, key, member)
  {
    hide Landed, Execute;
    var d' := Execute(d, actions);
    forall key: CoverKey | key.month == month ensures Landed(d, actions, key, member) <==> Credits(d'.coverage, key, member) {
      CreditedWhenLanded(d, actions, key, member);
    }
    if Covered(d'.coverage, member, month) {
      var key :| key in d'.coverage && key.month == month && d'.coverage[key] == member;
      assert Credits(d'.coverage, key, member);
    }
  }

  /** A month that gains a waiver, in any history, was uncovered when its walk checked it; it is
      covered at the moment of the write if and only if a payment landed in between on a free
      row and month, and that row was not cleared since. */
  lemma NewWaiverWasChecked(d: Office, history: seq<Action>, a: Action, key: MonthKey) returns (before: seq<Action>, between: seq<Action>)
    requires d.walks == map[] && key !in Execute(d, history).waivers && key in Next(Execute(d, history), a).waivers
    ensures a.Write? && CheckedIn(d, history, a.walk, before, between)
    ensures Execute(d, history).walks[a.walk].Key() == key
    ensures Covered(Execute(d, history).coverage, key.member, key.month) <==>
              exists paid: CoverKey ::
                paid.month == key.month && Landed(Execute(d, before + [Check(a.walk, true)]), between, paid, key.member)
  {
    GainNeedsWriting(Execute(d, history), a, key);
    before, between := WritingWasChecked(d, history, a.walk);
    ExecuteConcat(d, before + [Check(a.walk, true)], between);
    CoveredWhenLanded(Execute(d, before + [Check(a.walk, true)]), between, key.member, key.month);
  }

  const MAY := YearMonth(2026, 5)
  const PAYMENT_FOR_MAY := CoverKey(1, MAY)

  const NOTHING_YET := Office(map[], map[], map[], 0, map[])

  /** The payment of member 7 for May lands between the check of May and its waiver. */
  const PAID_BETWEEN: seq<Action> := [
    Begin(7, MonthIndex(2026, 5), MonthIndex(2026, 5), false, "hardship"),
    Check(0, true), Pay(PAYMENT_FOR_MAY, 7), Write(0, true)]

  function OneWalk(coverage: map<CoverKey, int>, stage: Stage): Office {
    Office(coverage, map[], map[0 := Walk(7, MonthIndex(2026, 5), MonthIndex(2026, 5), false, "hardship", stage, [], [])], 1, map[])
  }

  lemma UncoveredThenPaid()
    ensures !Covered(map[], 7, MAY) && Covered(map[PAYMENT_FOR_MAY := 7], 7, MAY)
    ensures MonthFromIndex(MonthIndex(2026, 5)) == MAY
  {
    assert PAYMENT_FOR_MAY in map[PAYMENT_FOR_MAY := 7];
  }

  lemma CheckedUncovered()
    ensures Next(Next(NOTHING_YET, PAID_BETWEEN[0]), Check(0, true)) == OneWalk(map[], Writing)
  {
    UncoveredThenPaid();
    assert Next(NOTHING_YET, PAID_BETWEEN[0]) == OneWalk(map[], Checking);
    assert OneWalk(map[], Checking).walks[0].Month() == MAY;
  }

  /** A covered month gains a waiver. */
  lemma PaidMonthIsWaived()
    ensures var (checked, paid) := (Execute(NOTHING_YET, PAID_BETWEEN[..2]), Execute(NOTHING_YET, PAID_BETWEEN[..3]));
            && checked.walks == OneWalk(map[], Writing).walks && !Covered(checked.coverage, 7, MAY)
            && Covered(paid.coverage, 7, MAY) && MonthKey(7, MAY) !in paid.waivers
            && MonthKey(7, MAY) in Next(paid, PAID_BETWEEN[3]).waivers
  {
    hide Execute, Covered, MonthFromIndex, MonthIndex;
    UncoveredThenPaid();
    OneMore(NOTHING_YET, PAID_BETWEEN, 0);
    OneMore(NOTHING_YET, PAID_BETWEEN, 1);
    OneMore(NOTHING_YET, PAID_BETWEEN, 2);
    CheckedUncovered();
    assert map[][PAYMENT_FOR_MAY := 7] == map[PAYMENT_FOR_MAY := 7];
    assert Next(OneWalk(map[], Writing), PAID_BETWEEN[2]) == OneWalk(map[PAYMENT_FOR_MAY := 7], Writing);
    assert OneWalk(map[PAYMENT_FOR_MAY := 7], Writing).walks[0].Month() == MAY;
  }

  lemma OneMore(d: Office, actions: seq<Action>, k: nat)
    requires k < |actions|
    ensures Execute(d, actions[..k + 1]) == Next(Execute(d, actions[..k]), actions[k]) && Execute(d, actions[..0]) == d
  {
    assert actions[..k + 1][..k] == actions[..k];
  }

  // ---- Which waivers stand ----

  /** The walk whose turn it is writes the month. */
  ghost predicate Writes(d: Office, a: Action, key: MonthKey) {
    exists w :: a == Write(w, true) && w in d.walks && d.walks[w].stage == Writing && d.walks[w].Key() == key
  }

  ghost predicate WrittenAt(d: Office, history: seq<Action>, key: MonthKey, k: nat)
    requires k < |history|
  {
    Writes(Execute(d, history[..k]), history[k], key) && forall j :: k < j < |history| ==> history[j] != Unwaive(key.member, key.month)
  }

  ghost predicate Written(d: Office, history: seq<Action>, key: MonthKey) {
    exists k :: 0 <= k < |history| && WrittenAt(d, history, key, k)
  }

  lemma WaiverStep(d: Office, a: Action, key: MonthKey)
    ensures key in Next(d, a).waivers <==> Writes(d, a, key) || (key in d.waivers && a != Unwaive(key.member, key.month))
  {
    if a.Write? && a.ok && Stands(d, a.walk, Writing) && d.walks[a.walk].Key() == key {
      assert Writes(d, a, key);
    }
  }

  lemma WrittenLonger(d: Office, front: seq<Action>, a: Action, key: MonthKey)
    ensures Written(d, front + [a], key) <==>
              Writes(Execute(d, front), a, key) || (Written(d, front, key) && a != Unwaive(key.member, key.month))
  {
    hide Execute, Writes;
    var history := front + [a];
    assert history[..|front|] == front;
    forall k | 0 <= k < |front|
      ensures WrittenAt(d, history, key, k) <==> WrittenAt(d, front, key, k) && a != Unwaive(key.member, key.month)
    {
      assert history[..k] == front[..k] && history[|front|] == a;
      assert WrittenAt(d, history, key, k) ==> forall j :: k < j < |front| ==> front[j] == history[j];
    }
    assert WrittenAt(d, history, key, |front|) <==> Writes(Execute(d, front), a, key);
  }

  /** A month stands waived after a history exactly when some walk wrote it and nobody removed the
      waiver since. */
  lemma {:induction false} WaivedWhenWritten(d: Office, history: seq<Action>, key: MonthKey)
    requires key !in d.waivers
    ensures key in Execute(d, history).waivers <==> Written(d, history, key)
    decreases |history|
  {
    if history != [] {
      hide Next, Written, Writes;
      var (front, a) := (history[..|history| - 1], history[|history| - 1]);
      assert history == front + [a];
      WaivedWhenWritten(d, front, key);
      WaiverStep(Execute(d, front), a, key);
      WrittenLonger(d, front, a, key);
    }
  }

  /** A waiver keeps its first reason until it is removed. */
  lemma {:induction false} ReasonStays(d: Office, history: seq<Action>, key: MonthKey)
    requires key in d.waivers && forall i :: 0 <= i < |history| ==> history[i] != Unwaive(key.member, key.month)
    ensures key in Execute(d, history).waivers && Execute(d, history).waivers[key] == d.waivers[key]
  {
    if history != [] {
      ReasonStays(d, history[..|history| - 1], key);
    }
  }
}
