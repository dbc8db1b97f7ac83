/** The waiver handlers statement by statement. Before every statement of a walk the rest of the
    system may have acted; `elsewhere` says what it did. */
module WaiverDesk {
  import opened Options
  import opened Calendar
  import opened Ledger
  import opened Arrears
  import opened Waivers
  import opened WaiverMachine

  predicate About(a: Action, w: nat) {
    (a.Check? || a.Write? || a.Read?) && a.walk == w
  }

  ghost predicate Foreign(actions: seq<Action>, w: nat) {
    forall i :: 0 <= i < |actions| ==> !About(actions[i], w)
  }

  /** The walk's next own action; the fault strikes the statement it names. */
  function OwnAction(w: nat, walk: Walk, fault: Option<WaiveFault>): Action {
    var ok := fault != Some(WaiveFault(walk.index, walk.stage));
    match walk.stage
    case Checking => Check(w, ok)
    case Writing => Write(w, ok)
    case Reading => Read(w, ok)
  }

  /** `k` own actions, each after what others did; once the walk has ended, nothing more is waited for. */
  function Played(d: Office, w: nat, fault: Option<WaiveFault>, elsewhere: nat -> seq<Action>, k: nat): Office {
    if k == 0 then d
    else
      var before := Played(d, w, fault, elsewhere, k - 1);
      if w !in before.walks then before
      else
        var there := Execute(before, elsewhere(k - 1));
        if w in there.walks then WaiverMachine.Next(there, OwnAction(w, there.walks[w], fault)) else there
  }

  /** The same as a list: the walk's own actions until it ends, each after the actions of the others. */
  function History(d: Office, w: nat, fault: Option<WaiveFault>, elsewhere: nat -> seq<Action>, k: nat): seq<Action> {
    if k == 0 then []
    else
      var (before, so) := (Played(d, w, fault, elsewhere, k - 1), History(d, w, fault, elsewhere, k - 1));
      if w !in before.walks then so
      else
        var there := Execute(before, elsewhere(k - 1));
        so + elsewhere(k - 1) + if w in there.walks then [OwnAction(w, there.walks[w], fault)] else []
  }

  /** So a walk is part of a history the theorems range over. */
  lemma {:induction false} PlayedIsExecuted(d: Office, w: nat, fault: Option<WaiveFault>, elsewhere: nat -> seq<Action>, k: nat)
    ensures Played(d, w, fault, elsewhere, k) == Execute(d, History(d, w, fault, elsewhere, k))
  {
    hide Execute, WaiverMachine.Next;
    if k == 0 {
      NothingDone(d);
    } else {
      PlayedIsExecuted(d, w, fault, elsewhere, k - 1);
      var (before, so) := (Played(d, w, fault, elsewhere, k - 1), History(d, w, fault, elsewhere, k - 1));
      var there := Execute(before, elsewhere(k - 1));
      ExecuteConcat(d, so, elsewhere(k - 1));
      if w in before.walks && w in there.walks {
        var own := OwnAction(w, there.walks[w], fault);
        ExecuteConcat(d, so + elsewhere(k - 1), [own]);
        OneDone(there, own);
      } else {
        assert so + elsewhere(k - 1) + [] == so + elsewhere(k - 1);
      }
    }
  }

  lemma NothingDone(d: Office)
    ensures Execute(d, []) == d
  {
  }

  lemma OneDone(d: Office, a: Action)
    ensures Execute(d, [a]) == WaiverMachine.Next(d, a)
  {
    assert [a][..0] == [];
  }

  /** Whoever waives months, whatever went before and goes on beside: each month to which the walk
      itself adds a waiver was uncovered at its check, and is covered by then if and only if
      somebody paid it in between on a free row and month and nobody cleared that row since. */
  lemma OwnWaiverWasChecked(
    start: Office, past: seq<Action>, begin: Action, fault: Option<WaiveFault>, elsewhere: nat -> seq<Action>, k: nat, key: MonthKey)
    returns (before: seq<Action>, between: seq<Action>)
    requires start.walks == map[] && begin.Begin?
    requires var (d, w) := (Execute(start, past + [begin]), Execute(start, past).nextWalk);
             && w in Played(d, w, fault, elsewhere, k).walks
             && key !in Execute(Played(d, w, fault, elsewhere, k), elsewhere(k)).waivers
             && key in Played(d, w, fault, elsewhere, k + 1).waivers
    ensures var (d, w) := (Execute(start, past + [begin]), Execute(start, past).nextWalk);
            var history := past + [begin] + History(d, w, fault, elsewhere, k) + elsewhere(k);
            && CheckedIn(start, history, w, before, between) && Execute(start, history).walks[w].Key() == key
            && (Covered(Execute(start, history).coverage, key.member, key.month) <==>
                  exists paid: CoverKey ::
                    paid.month == key.month && Landed(Execute(start, before + [Check(w, true)]), between, paid, key.member))
  {
    hide Execute, WaiverMachine.Next, Landed, CheckedIn, Covered;
    var (d, w) := (Execute(start, past + [begin]), Execute(start, past).nextWalk);
    var so := History(d, w, fault, elsewhere, k);
    PlayedIsExecuted(d, w, fault, elsewhere, k);
    ExecuteConcat(start, past + [begin], so);
    ExecuteConcat(start, past + [begin] + so, elsewhere(k));
    var there := Execute(start, past + [begin] + so + elsewhere(k));
    before, between := NewWaiverWasChecked(start, past + [begin] + so + elsewhere(k), OwnAction(w, there.walks[w], fault), key);
  }

  lemma {:induction false} PlayedEnds(d: Office, w: nat, fault: Option<WaiveFault>, elsewhere: nat -> seq<Action>, k: nat, n: nat)
    requires k <= n && w !in Played(d, w, fault, elsewhere, k).walks
    ensures Played(d, w, fault, elsewhere, n) == Played(d, w, fault, elsewhere, k)
    decreases n
  {
    if k < n {
      PlayedEnds(d, w, fault, elsewhere, k, n - 1);
    }
  }

  lemma OtherWalkStays(d: Office, a: Action, w: nat)
    requires w in d.walks && w < d.nextWalk && !About(a, w)
    ensures var d' := WaiverMachine.Next(d, a); w in d'.walks && d'.walks[w] == d.walks[w] && w < d'.nextWalk
  {
    hide Covered, MonthFromIndex;
  }

  /** Nobody else moves a walk. */
  lemma {:induction false} ForeignLeavesWalk(d: Office, actions: seq<Action>, w: nat)
    requires w in d.walks && w < d.nextWalk && Foreign(actions, w)
    ensures var d' := Execute(d, actions); w in d'.walks && d'.walks[w] == d.walks[w] && w < d'.nextWalk
  {
    if actions != [] {
      hide WaiverMachine.Next;
      ForeignLeavesWalk(d, actions[..|actions| - 1], w);
      OtherWalkStays(Execute(d, actions[..|actions| - 1]), actions[|actions| - 1], w);
    }
  }

  class Desk {
    var members: set<int>
    var coverage: map<CoverKey, int>
    var waivers: map<MonthKey, string>
    /** Which walks are under way, and how far: the local state of everybody's code. */
    var walks: map<nat, Walk>
    var nextWalk: nat
    var replies: map<nat, WaiveResponse>

    function View(): Office
      reads this
    {
      Office(coverage, waivers, walks, nextWalk, replies)
    }

    constructor (members: set<int>, d: Office)
      ensures this.members == members && View() == d
    {
      this.members := members;
      coverage, waivers, walks, nextWalk, replies := d.coverage, d.waivers, d.walks, d.nextWalk, d.replies;
    }

    /** What the rest of the system does meanwhile. */
    method Elsewhere(actions: seq<Action>)
      modifies this
      ensures members == old(members) && View() == Execute(old(View()), actions)
    {
      var d := Execute(View(), actions);
      coverage, waivers, walks, nextWalk, replies := d.coverage, d.waivers, d.walks, d.nextWalk, d.replies;
    }

    /** INSERT ... ON CONFLICT DO NOTHING. */
    method CreatePaymentWaiver(member: int, month: YearMonth, reason: string)
      modifies this`waivers
      ensures waivers == if MonthKey(member, month) in old(waivers) then old(waivers) else old(waivers)[MonthKey(member, month) := reason]
    {
      if MonthKey(member, month) !in waivers {
        waivers := waivers[MonthKey(member, month) := reason];
      }
    }

    method End(w: nat, response: WaiveResponse)
      modifies this`walks, this`replies
      ensures View() == Reply(old(View()), w, response)
    {
      walks := map other | other in walks && other != w :: walks[other];
      replies := replies[w := response];
    }

    /** Takes note of the walk's progress, and ends it after its last month. */
    method Proceed(w: nat, walk: Walk)
      requires w in walks
      modifies this`walks, this`replies
      ensures View() == Advance(old(View()), w, walk)
    {
      if walk.index >= walk.last {
        End(w, Accepted(walk.waived, walk.skipped));
      } else {
        walks := walks[w := walk.(index := walk.index + 1, stage := Checking)];
      }
    }

    /** PaymentCoverageExists; None when the walk has ended. */
    method CheckMonth(w: nat, walk: Walk, ok: bool) returns (covered: Option<bool>)
      requires w in walks && walks[w] == walk && walk.stage == Checking
      modifies this`walks, this`replies
      ensures View() == WaiverMachine.Next(old(View()), Check(w, ok))
      ensures covered.None? <==> !ok || (Covered(coverage, walk.member, walk.Month()) && !walk.isRange)
      ensures covered.Some? ==> covered.value == Covered(coverage, walk.member, walk.Month())
      ensures covered.None? ==> w !in walks && w in replies && replies[w] == if ok then Rejected else Broken
      ensures covered == Some(false) ==> walks == old(walks)[w := walk.(stage := Writing)]
      ensures covered == Some(true) ==> Proceeded(w, walk.(skipped := walk.skipped + [walk.Month()]))
    {
      if !ok {
        End(w, Broken);
        return None;
      }
      covered := Some(Covered(coverage, walk.member, walk.Month()));
      if covered.value {
        if !walk.isRange {
          End(w, Rejected);
          return None;
        }
        Proceed(w, walk.(skipped := walk.skipped + [walk.Month()]));
      } else {
        walks := walks[w := walk.(stage := Writing)];
      }
    }

    /** The walk is at its next month, or has been accepted after its last. */
    ghost predicate Proceeded(w: nat, walk: Walk)
      reads this
    {
      if walk.index >= walk.last then w !in walks && w in replies && replies[w] == Accepted(walk.waived, walk.skipped)
      else w in walks && walks[w] == walk.(index := walk.index + 1, stage := Checking)
    }

    method WriteMonth(w: nat, walk: Walk, ok: bool)
      requires w in walks && walks[w] == walk && walk.stage == Writing
      modifies this`waivers, this`walks, this`replies
      ensures View() == WaiverMachine.Next(old(View()), Write(w, ok))
      ensures !ok ==> w !in walks && w in replies && replies[w] == Broken && waivers == old(waivers)
      ensures ok ==> w in walks && walks[w] == walk.(stage := Reading) && walk.Key() in waivers
      ensures ok ==> waivers == if walk.Key() in old(waivers) then old(waivers) else old(waivers)[walk.Key() := walk.reason]
    {
      if !ok {
        End(w, Broken);
        return;
      }
      CreatePaymentWaiver(walk.member, walk.Month(), walk.reason);
      walks := walks[w := walk.(stage := Reading)];
    }

    /** GetPaymentWaiver: the reason on record, or None when the walk has ended without it. */
    method ReadMonth(w: nat, walk: Walk, ok: bool) returns (reason: Option<string>)
      requires w in walks && walks[w] == walk && walk.stage == Reading
      modifies this`walks, this`replies
      ensures View() == WaiverMachine.Next(old(View()), Read(w, ok))
      ensures reason.None? <==> !ok || walk.Key() !in waivers
      ensures reason.None? ==> w !in walks && w in replies && replies[w] == Broken
      ensures reason.Some? ==>
                && reason.value == waivers[walk.Key()]
                && Proceeded(w, walk.(waived := walk.waived + [(walk.Month(), reason.value)]))
    {
      if !ok || MonthKey(walk.member, walk.Month()) !in waivers {
        End(w, Broken);
        return None;
      }
      reason := Some(waivers[MonthKey(walk.member, walk.Month())]);
      Proceed(w, walk.(waived := walk.waived + [(walk.Month(), reason.value)]));
    }

    /** The others' turn, after which the walk stands where it stood. */
    method Turn(ghost d: Office, w: nat, fault: Option<WaiveFault>, elsewhere: nat -> seq<Action>, ghost k: nat, now: nat)
      requires now == k && View() == Played(d, w, fault, elsewhere, k)
      requires w in walks && w < nextWalk && Foreign(elsewhere(k), w)
      modifies this
      ensures members == old(members) && w in walks && walks[w] == old(walks)[w] && w < nextWalk
      ensures Played(d, w, fault, elsewhere, k + 1) == WaiverMachine.Next(View(), OwnAction(w, walks[w], fault))
      ensures elsewhere(k) == [] ==> View() == old(View())
    {
      ForeignLeavesWalk(View(), elsewhere(now), w);
      Elsewhere(elsewhere(now));
    }

    /** An uncovered month: write its waiver and read back the reason on record. */
    method WaiveOne(ghost d: Office, w: nat, walk: Walk, fault: Option<WaiveFault>, elsewhere: nat -> seq<Action>, k: nat)
      returns (next: nat, reason: Option<string>)
      requires View() == Played(d, w, fault, elsewhere, k) && w in walks && walks[w] == walk && w < nextWalk
      requires walk.stage == Writing && forall i :: Foreign(elsewhere(i), w)
      modifies this
      ensures k < next <= k + 2 && View() == Played(d, w, fault, elsewhere, next) && members == old(members) && w < nextWalk
      ensures reason.None? ==> w !in walks && w in replies && replies[w] == Broken
      ensures reason.Some? ==> Proceeded(w, walk.(waived := walk.waived + [(walk.Month(), reason.value)]))
      ensures Quiet(elsewhere) ==>
                && coverage == old(coverage)
                && (reason.None? <==> fault in {Some(WaiveFault(walk.index, Writing)), Some(WaiveFault(walk.index, Reading))})
                && waivers == (if fault == Some(WaiveFault(walk.index, Writing)) || walk.Key() in old(waivers) then old(waivers)
                               else old(waivers)[walk.Key() := walk.reason])
                && (reason.Some? ==> walk.Key() in waivers && waivers[walk.Key()] == reason.value)
    {
      hide Played, WaiverMachine.Next, Execute, Covered, MonthFromIndex;
      Turn(d, w, fault, elsewhere, k, k);
      WriteMonth(w, walk, fault != Some(WaiveFault(walk.index, Writing)));
      if w !in walks {
        return k + 1, None;
      }
      Turn(d, w, fault, elsewhere, k + 1, k + 1);
      reason := ReadMonth(w, walk.(stage := Reading), fault != Some(WaiveFault(walk.index, Reading)));
      next := k + 2;
    }

    /** One month of the walk: check it, and if it is not paid waive it. */
    method OneMonth(ghost d: Office, w: nat, walk: Walk, fault: Option<WaiveFault>, elsewhere: nat -> seq<Action>, k: nat)
      returns (next: nat, done: Month)
      requires View() == Played(d, w, fault, elsewhere, k) && w in walks && walks[w] == walk && w < nextWalk
      requires walk.stage == Checking && forall i :: Foreign(elsewhere(i), w)
      modifies this
      ensures k < next <= k + 3 && View() == Played(d, w, fault, elsewhere, next) && members == old(members) && w < nextWalk
      ensures done.Ended? ==> w !in walks && w in replies && replies[w] == done.response && !done.response.Accepted?
      ensures done.Skipped? ==> Proceeded(w, walk.(skipped := walk.skipped + [walk.Month()]))
      ensures done.Waived? ==> Proceeded(w, walk.(waived := walk.waived + [(walk.Month(), done.reason)]))
      ensures Quiet(elsewhere) ==> coverage == old(coverage) && QuietMonth(coverage, old(waivers), waivers, walk, fault, done)
    {
      hide Played, WaiverMachine.Next, Execute, Covered, MonthFromIndex, About;
      Turn(d, w, fault, elsewhere, k, k);
      var covered := CheckMonth(w, walk, fault != Some(WaiveFault(walk.index, Checking)));
      if covered.None? {
        return k + 1, Ended(replies[w]);
      } else if covered.value {
        return k + 1, Skipped;
      }
      var reason;
      next, reason := WaiveOne(d, w, walk.(stage := Writing), fault, elsewhere, k + 1);
      done := if reason.None? then Ended(Broken) else Waived(reason.value);
    }

    /** The walk over the months of an accepted request. Not one transaction: whatever ends it,
        the months written before stay written. */
    method WaiveMonths(
      w: nat, member: int, first: int, last: int, isRange: bool, reason: string,
      fault: Option<WaiveFault>, elsewhere: nat -> seq<Action>) returns (response: WaiveResponse)
      requires 12 < first <= last && w in walks && w < nextWalk && forall i :: Foreign(elsewhere(i), w)
      requires walks[w] == Walk(member, first, last, isRange, reason, Checking, [], [])
      modifies this
      ensures View() == Played(old(View()), w, fault, elsewhere, 3 * (last + 1 - first)) && members == old(members)
      ensures w !in walks && w in replies && replies[w] == response
      ensures Quiet(elsewhere) ==>
                coverage == old(coverage) && QuietWalk(coverage, old(waivers), waivers, member, first, last, isRange, reason, fault, response)
    {
      hide Played, WaiverMachine.Next, Execute, Covered, QuietMonth, QuietWalk;
      ghost var d := View();
      var waived: seq<(YearMonth, string)>, skipped: seq<YearMonth> := [], [];
      var index, k := first, 0;
      PlayedNothing(d, w, fault, elsewhere);
      ghost var quiet := Quiet(elsewhere);
      QuietStart(coverage, waivers, member, first, isRange, reason, fault);
      while index <= last
        invariant first <= index <= last + 1 && k <= 3 * (index - first) && members == old(members) && w < nextWalk
        invariant View() == Played(d, w, fault, elsewhere, k)
        invariant index <= last ==> w in walks && walks[w] == Walk(member, index, last, isRange, reason, Checking, waived, skipped)
        invariant index > last ==> w !in walks && w in replies && replies[w] == Accepted(waived, skipped)
        invariant quiet ==> coverage == old(coverage)
        invariant quiet ==> QuietSoFar(coverage, old(waivers), waivers, member, first, index, isRange, reason, fault, waived, skipped)
      {
        var walk := Walk(member, index, last, isRange, reason, Checking, waived, skipped);
        ghost var was := waivers;
        var done;
        k, done := OneMonth(d, w, walk, fault, elsewhere, k);
        if quiet && !done.Ended? {
          QuietStep(coverage, old(waivers), was, waivers, walk, first, fault, done);
        }
        match done {
          case Ended(_) =>
            PlayedEnds(d, w, fault, elsewhere, k, 3 * (last + 1 - first));
            response := replies[w];
            if quiet {
              QuietEnd(coverage, old(waivers), was, waivers, walk, first, fault, done);
            }
            return;
          case Skipped => skipped := skipped + [walk.Month()];
          case Waived(recorded) => waived := waived + [(walk.Month(), recorded)];
        }
        index := index + 1;
      }
      PlayedEnds(d, w, fault, elsewhere, k, 3 * (last + 1 - first));
      response := Accepted(waived, skipped);
      if quiet {
        QuietAccepted(coverage, old(waivers), waivers, member, first, last, isRange, reason, fault, waived, skipped);
      }
    }

    /** Writes off a month or a range; a paid month rejects a single-month request and is skipped in a range. */
    method WaivePayment(member: int, req: WaiveRequest, thisYear: int, fault: Option<WaiveFault>, elsewhere: nat -> seq<Action>)
      returns (response: WaiveResponse)
      requires forall i :: Foreign(elsewhere(i), nextWalk)
      modifies this
      ensures var first, last := MonthIndex(req.year, req.month), LastIndex(req);
              if !WellFormed(req, thisYear) || member !in members then response == Rejected && View() == old(View())
              else
                && View() == Played(WaiverMachine.Next(old(View()), Begin(member, first, last, IsRange(req), req.reason)), old(nextWalk),
                                    fault, elsewhere, 3 * (last + 1 - first))
                && old(nextWalk) in replies && replies[old(nextWalk)] == response
      ensures members == old(members)
      ensures Quiet(elsewhere) ==>
                var first, last := MonthIndex(req.year, req.month), LastIndex(req);
                var blocked := !IsRange(req) && Covered(coverage, member, YearMonth(req.year, req.month));
                var fails := fault.Some? && Fails(coverage, member, fault.value, first, last + 1);
                && coverage == old(coverage)
                && (response.Broken? <==> WellFormed(req, thisYear) && member in members && fails)
                && (response.Rejected? <==> !WellFormed(req, thisYear) || member !in members || (blocked && !fails))
                && (response.Rejected? ==> waivers == old(waivers))
                && (response.Broken? ==>
                      waivers == WaiveUpTo(old(waivers), coverage, member, first, fault.value.Next(), req.reason))
                && (response.Accepted? ==>
                      && waivers == WaiveUpTo(old(waivers), coverage, member, first, last + 1, req.reason)
                      && response.skipped == MonthsWhere(coverage, member, true, first, last + 1)
                      && Recorded(response.waived, member, waivers, MonthsWhere(coverage, member, false, first, last + 1)))
    {
      if !WellFormed(req, thisYear) || member !in members {
        return Rejected;
      }
      hide Played, Covered, Execute;
      var first, last, w := MonthIndex(req.year, req.month), LastIndex(req), nextWalk;
      MonthIndexInjective(MonthAt(first), YearMonth(req.year, req.month));
      walks, nextWalk := walks[w := Walk(member, first, last, IsRange(req), req.reason, Checking, [], [])], nextWalk + 1;
      response := WaiveMonths(w, member, first, last, IsRange(req), req.reason, fault, elsewhere);
    }

    /** The month reappears in the missing lists; false when there was no waiver. */
    method UnwaivePayment(member: int, month: YearMonth) returns (found: bool)
      modifies this`waivers
      ensures found == (MonthKey(member, month) in old(waivers))
      ensures waivers == old(waivers) - {MonthKey(member, month)}
    {
      found := MonthKey(member, month) in waivers;
      waivers := map key | key in waivers && key != MonthKey(member, month) :: waivers[key];
    }
  }

  datatype Month = Ended(response: WaiveResponse) | Skipped | Waived(reason: string)

  /** Nobody else acts. */
  ghost predicate Quiet(elsewhere: nat -> seq<Action>) {
    forall k :: elsewhere(k) == []
  }

  /** A month with nothing in between. */
  ghost predicate QuietMonth(
    coverage: map<CoverKey, int>, waivers: map<MonthKey, string>, waivers': map<MonthKey, string>,
    walk: Walk, fault: Option<WaiveFault>, done: Month)
  {
    var covered := Covered(coverage, walk.member, walk.Month());
    var fails := fault.Some? && fault.value.index == walk.index && (fault.value.at != Checking ==> !covered);
    && (done.Ended? <==> fails || (covered && !walk.isRange))
    && (done.Ended? ==> done.response == if fails then Broken else Rejected)
    && (done.Skipped? ==> covered) && (done.Waived? ==> !covered)
    && (done.Waived? ==> walk.Key() in waivers' && waivers'[walk.Key()] == done.reason)
    && waivers' == if done.Skipped? || (done.Ended? && (!fails || fault.value.at != Reading)) || walk.Key() in waivers then waivers
                   else waivers[walk.Key() := walk.reason]
  }

  // ---- The walk with nothing in between ----

  /** Every month of [first, next) is done, none ended the walk. */
  ghost predicate QuietSoFar(
    coverage: map<CoverKey, int>, waivers: map<MonthKey, string>, waivers': map<MonthKey, string>,
    member: int, first: int, next: int, isRange: bool, reason: string, fault: Option<WaiveFault>,
    waived: seq<(YearMonth, string)>, skipped: seq<YearMonth>)
  {
    && (fault.Some? ==> !Fails(coverage, member, fault.value, first, next))
    && (!isRange && next > first ==> !Covered(coverage, member, MonthAt(first)))
    && waivers' == WaiveUpTo(waivers, coverage, member, first, next, reason)
    && skipped == MonthsWhere(coverage, member, true, first, next)
    && Recorded(waived, member, waivers', MonthsWhere(coverage, member, false, first, next))
  }

  ghost predicate QuietWalk(
    coverage: map<CoverKey, int>, waivers: map<MonthKey, string>, waivers': map<MonthKey, string>,
    member: int, first: int, last: int, isRange: bool, reason: string, fault: Option<WaiveFault>, response: WaiveResponse)
  {
    var fails := fault.Some? && Fails(coverage, member, fault.value, first, last + 1);
    && (response.Broken? ==> fails && waivers' == WaiveUpTo(waivers, coverage, member, first, fault.value.Next(), reason))
    && (response.Rejected? ==>
          && !isRange
          && (first == last ==> Covered(coverage, member, MonthAt(first)) && !fails && waivers' == waivers))
    && (response.Accepted? ==>
          && !fails && (isRange || !Covered(coverage, member, MonthAt(first)))
          && QuietSoFar(coverage, waivers, waivers', member, first, last + 1, isRange, reason, fault, response.waived, response.skipped))
  }

  lemma PlayedNothing(d: Office, w: nat, fault: Option<WaiveFault>, elsewhere: nat -> seq<Action>)
    ensures Played(d, w, fault, elsewhere, 0) == d
  {
  }

  lemma QuietStart(
    coverage: map<CoverKey, int>, waivers: map<MonthKey, string>, member: int, first: int, isRange: bool, reason: string, fault: Option<WaiveFault>)
    ensures QuietSoFar(coverage, waivers, waivers, member, first, first, isRange, reason, fault, [], [])
  {
  }

  lemma WalkMonth(walk: Walk)
    requires walk.index > 12
    ensures walk.Month() == MonthAt(walk.index)
  {
    MonthFromIndexExact(MonthAt(walk.index));
  }

  lemma QuietStep(
    coverage: map<CoverKey, int>, waivers: map<MonthKey, string>, was: map<MonthKey, string>, waivers': map<MonthKey, string>,
    walk: Walk, first: int, fault: Option<WaiveFault>, done: Month)
    requires 12 < first <= walk.index && QuietMonth(coverage, was, waivers', walk, fault, done) && !done.Ended?
    requires QuietSoFar(coverage, waivers, was, walk.member, first, walk.index, walk.isRange, walk.reason, fault, walk.waived, walk.skipped)
    ensures QuietSoFar(coverage, waivers, waivers', walk.member, first, walk.index + 1, walk.isRange, walk.reason, fault,
                       if done.Waived? then walk.waived + [(walk.Month(), done.reason)] else walk.waived,
                       if done.Skipped? then walk.skipped + [walk.Month()] else walk.skipped)
  {
    hide Covered, MonthFromIndex, MonthAt;
    WalkMonth(walk);
  }

  lemma QuietEnd(
    coverage: map<CoverKey, int>, waivers: map<MonthKey, string>, was: map<MonthKey, string>, waivers': map<MonthKey, string>,
    walk: Walk, first: int, fault: Option<WaiveFault>, done: Month)
    requires 12 < first <= walk.index <= walk.last && QuietMonth(coverage, was, waivers', walk, fault, done) && done.Ended?
    requires QuietSoFar(coverage, waivers, was, walk.member, first, walk.index, walk.isRange, walk.reason, fault, walk.waived, walk.skipped)
    ensures QuietWalk(coverage, waivers, waivers', walk.member, first, walk.last, walk.isRange, walk.reason, fault, done.response)
  {
    hide Covered, MonthFromIndex, MonthAt;
    WalkMonth(walk);
  }

  lemma QuietAccepted(
    coverage: map<CoverKey, int>, waivers: map<MonthKey, string>, waivers': map<MonthKey, string>,
    member: int, first: int, last: int, isRange: bool, reason: string, fault: Option<WaiveFault>,
    waived: seq<(YearMonth, string)>, skipped: seq<YearMonth>)
    requires first <= last
    requires QuietSoFar(coverage, waivers, waivers', member, first, last + 1, isRange, reason, fault, waived, skipped)
    ensures QuietWalk(coverage, waivers, waivers', member, first, last, isRange, reason, fault, Accepted(waived, skipped))
  {
  }
}
