/** Writing off missed months: one month or a range, walked month by month. */
module Waivers {
  import opened Options
  import opened Calendar
  import opened Ledger
  import opened Arrears

  /** Integer division as Go has it: toward zero. */
  function QuotientTowardZero(a: int, b: int): int
    requires b > 0
  {
    if a >= 0 then a / b else -((-a) / b)
  }

  function MonthFromIndex(index: int): YearMonth {
    var year := QuotientTowardZero(index - 1, 12);
    YearMonth(year, index - year * 12)
  }

  /** MonthFromIndex inverts MonthIndex exactly for January and for years from 0 on:
      below zero the truncating division picks the year after. */
  lemma MonthFromIndexExact(ym: YearMonth)
    requires ValidMonth(ym)
    ensures MonthFromIndex(MonthIndex(ym.year, ym.month)) == ym <==> ym.year >= 0 || ym.month == 1
    ensures ym.year >= 0 ==> MonthFromIndex(MonthIndex(ym.year, ym.month)) == MonthAt(MonthIndex(ym.year, ym.month))
  {
    var n := 12 * ym.year + ym.month - 1;
    MonthIndexInjective(MonthAt(MonthIndex(ym.year, ym.month)), ym);
    if n >= 0 {
      assert n / 12 == ym.year;
    } else if ym.month == 1 {
      assert (-n) / 12 == -ym.year;
    } else {
      assert -n == 12 * (-ym.year - 1) + (13 - ym.month);
      assert (-n) / 12 == -ym.year - 1;
    }
  }

  // ---- The walk as a function ----

  /** The month's waiver is written unless a payment covers it or a waiver is already there. */
  function WaiveMonth(
    waivers: map<MonthKey, string>, coverage: map<CoverKey, int>, member: int, month: YearMonth, reason: string): map<MonthKey, string>
  {
    if Covered(coverage, member, month) || MonthKey(member, month) in waivers then waivers
    else waivers[MonthKey(member, month) := reason]
  }

  /** After the months with indices in [first, next). */
  function WaiveUpTo(
    waivers: map<MonthKey, string>, coverage: map<CoverKey, int>, member: int, first: int, next: int, reason: string): map<MonthKey, string>
    decreases next - first
  {
    if next <= first then waivers
    else WaiveMonth(WaiveUpTo(waivers, coverage, member, first, next - 1, reason), coverage, member, MonthAt(next - 1), reason)
  }

  /** The months of [first, next) in order, those covered or those not. */
  function MonthsWhere(coverage: map<CoverKey, int>, member: int, covered: bool, first: int, next: int): seq<YearMonth>
    decreases next - first
  {
    if next <= first then []
    else MonthsWhere(coverage, member, covered, first, next - 1)
         + (if Covered(coverage, member, MonthAt(next - 1)) == covered then [MonthAt(next - 1)] else [])
  }

  /** Exactly the uncovered months of the range gain a waiver; existing waivers keep their first reason. */
  lemma {:induction false} WaiveExact(
    waivers: map<MonthKey, string>, coverage: map<CoverKey, int>, member: int, first: int, next: int, reason: string)
    ensures var w := WaiveUpTo(waivers, coverage, member, first, next, reason);
            && (forall key :: key in waivers ==> key in w && w[key] == waivers[key])
            && (forall key :: key in w && key !in waivers ==>
                  && w[key] == reason && key.member == member && ValidMonth(key.month)
                  && first <= MonthIndex(key.month.year, key.month.month) < next && !Covered(coverage, member, key.month))
            && (forall index :: first <= index < next && !Covered(coverage, member, MonthAt(index)) ==> MonthKey(member, MonthAt(index)) in w)
    decreases next - first
  {
    hide Covered, MonthAt, MonthIndex;
    if first < next {
      WaiveExact(waivers, coverage, member, first, next - 1, reason);
    }
  }

  /** Repeating the call, even with another reason, changes nothing. */
  lemma {:induction false} WaiveIdempotent(
    waivers: map<MonthKey, string>, coverage: map<CoverKey, int>, member: int, first: int, next: int, upto: int,
    reason: string, other: string)
    requires upto <= next
    ensures var w := WaiveUpTo(waivers, coverage, member, first, next, reason);
            WaiveUpTo(w, coverage, member, first, upto, other) == w
    decreases upto - first
  {
    WaiveExact(waivers, coverage, member, first, next, reason);
    if first < upto {
      WaiveIdempotent(waivers, coverage, member, first, next, upto - 1, reason, other);
    }
  }

  ghost predicate Ascending(months: seq<YearMonth>, first: int, next: int) {
    && (forall i :: 0 <= i < |months| ==> first <= MonthIndex(months[i].year, months[i].month) < next)
    && (forall i, j :: 0 <= i < j < |months| ==> MonthIndex(months[i].year, months[i].month) < MonthIndex(months[j].year, months[j].month))
  }

  lemma {:induction false} MonthsWhereAscending(coverage: map<CoverKey, int>, member: int, covered: bool, first: int, next: int)
    ensures Ascending(MonthsWhere(coverage, member, covered, first, next), first, next)
    decreases next - first
  {
    if first < next {
      MonthsWhereAscending(coverage, member, covered, first, next - 1);
    }
  }

  lemma {:induction false} MonthsWhereExact(coverage: map<CoverKey, int>, member: int, covered: bool, first: int, next: int, index: int)
    ensures MonthAt(index) in MonthsWhere(coverage, member, covered, first, next)
            <==> first <= index < next && Covered(coverage, member, MonthAt(index)) == covered
    decreases next - first
  {
    if first < next {
      MonthsWhereExact(coverage, member, covered, first, next - 1, index);
      assert MonthAt(index) == MonthAt(next - 1) ==> index == next - 1;
    }
  }

  lemma {:induction false} MonthsWhereSizes(coverage: map<CoverKey, int>, member: int, first: int, next: int)
    requires first <= next
    ensures |MonthsWhere(coverage, member, false, first, next)| + |MonthsWhere(coverage, member, true, first, next)| == next - first
    decreases next - first
  {
    if first < next {
      MonthsWhereSizes(coverage, member, first, next - 1);
    }
  }

  /** Waived and skipped months partition the range: every month is in exactly one of the
      two lists, once, and both lists are in calendar order. */
  lemma RangePartition(coverage: map<CoverKey, int>, member: int, first: int, next: int)
    requires first <= next
    ensures var (waived, skipped) := (MonthsWhere(coverage, member, false, first, next), MonthsWhere(coverage, member, true, first, next));
            && Ascending(waived, first, next) && Ascending(skipped, first, next)
            && |waived| + |skipped| == next - first
            && (forall index :: first <= index < next ==>
                  && (MonthAt(index) in waived <==> !Covered(coverage, member, MonthAt(index)))
                  && (MonthAt(index) in skipped <==> Covered(coverage, member, MonthAt(index))))
  {
    MonthsWhereAscending(coverage, member, false, first, next);
    MonthsWhereAscending(coverage, member, true, first, next);
    MonthsWhereSizes(coverage, member, first, next);
    forall index | first <= index < next
      ensures MonthAt(index) in MonthsWhere(coverage, member, false, first, next) <==> !Covered(coverage, member, MonthAt(index))
      ensures MonthAt(index) in MonthsWhere(coverage, member, true, first, next) <==> Covered(coverage, member, MonthAt(index))
    {
      MonthsWhereExact(coverage, member, false, first, next, index);
      MonthsWhereExact(coverage, member, true, first, next, index);
    }
  }

  // ---- The handler ----

  /** `reason` after trimming; the end is given as a pair or not at all. */
  datatype WaiveRequest = WaiveRequest(year: int, month: int, reason: string, endYear: Option<int>, endMonth: Option<int>)

  /** The three statements a month takes: is it paid, write the waiver, read back the reason on record. */
  datatype Stage = Checking | Writing | Reading

  /** The statement of the walk that fails. */
  datatype WaiveFault = WaiveFault(index: int, at: Stage)
  {
    /** The first month not written any more. */
    function Next(): int {
      if at == Reading then index + 1 else index
    }
  }

  datatype WaiveResponse =
    | Rejected
    | Broken
    | Accepted(waived: seq<(YearMonth, string)>, skipped: seq<YearMonth>)

  predicate ValidBound(year: int, month: int, thisYear: int) {
    1 <= month <= 12 && 2000 <= year <= thisYear + 1
  }

  predicate IsRange(req: WaiveRequest) {
    req.endYear.Some? || req.endMonth.Some?
  }

  function LastIndex(req: WaiveRequest): int {
    if req.endYear.Some? && req.endMonth.Some? then MonthIndex(req.endYear.value, req.endMonth.value)
    else MonthIndex(req.year, req.month)
  }

  predicate WellFormed(req: WaiveRequest, thisYear: int) {
    && ValidBound(req.year, req.month, thisYear)
    && req.reason != ""
    && (IsRange(req) ==>
          && req.endYear.Some? && req.endMonth.Some?
          && ValidBound(req.endYear.value, req.endMonth.value, thisYear)
          && MonthIndex(req.year, req.month) <= LastIndex(req))
  }

  ghost predicate MonthNotAfter(a: YearMonth, b: YearMonth) {
    a.year < b.year || (a.year == b.year && a.month <= b.month)
  }

  /** Which requests are accepted: a reason, months from the year 2000 to next year, both ends of a range
      or neither, and the end not before the start. */
  lemma WellFormedExact(req: WaiveRequest, thisYear: int)
    ensures WellFormed(req, thisYear) <==>
              && req.reason != "" && 1 <= req.month <= 12 && 2000 <= req.year <= thisYear + 1
              && (req.endYear == None <==> req.endMonth == None)
              && (req.endYear.Some? && req.endMonth.Some? ==>
                    && 1 <= req.endMonth.value <= 12 && 2000 <= req.endYear.value <= thisYear + 1
                    && MonthNotAfter(YearMonth(req.year, req.month), YearMonth(req.endYear.value, req.endMonth.value)))
  {
  }

  /** The months an accepted request walks over: its one month, or all from its start to its end. */
  lemma WalkedMonthsExact(req: WaiveRequest, thisYear: int, month: YearMonth)
    requires WellFormed(req, thisYear) && ValidMonth(month)
    ensures var start := YearMonth(req.year, req.month);
            MonthIndex(req.year, req.month) <= MonthIndex(month.year, month.month) <= LastIndex(req) <==>
              && MonthNotAfter(start, month)
              && MonthNotAfter(month, if req.endYear == None then start else YearMonth(req.endYear.value, req.endMonth.value))
    ensures IsRange(req) <==> req.endYear.Some?
  {
  }

  /** The fault lies on the walk over [first, next); for a paid month nothing is written or read back. */
  predicate Fails(coverage: map<CoverKey, int>, member: int, fault: WaiveFault, first: int, next: int) {
    first <= fault.index < next && (fault.at != Checking ==> !Covered(coverage, member, MonthAt(fault.index)))
  }

  /** The waived list names the months in order, each with the reason on record. */
  ghost predicate Recorded(waived: seq<(YearMonth, string)>, member: int, waivers: map<MonthKey, string>, months: seq<YearMonth>) {
    && |waived| == |months|
    && forall i :: 0 <= i < |waived| ==>
         && waived[i].0 == months[i]
         && MonthKey(member, months[i]) in waivers
         && waived[i].1 == waivers[MonthKey(member, months[i])]
  }
}
