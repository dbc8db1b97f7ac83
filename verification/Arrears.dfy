/** Missing payments: the monthly list, the yearly list and the total-arrears view, each
    as its query states it, and how they fit together. */
module Arrears {
  import opened Options
  import opened Calendar
  import opened Ledger

  datatype Member = Member(feeStart: Option<Date>, feeStop: Option<Date>)

  datatype MonthKey = MonthKey(member: int, month: YearMonth)

  /** The tables the arrears queries join, and CURRENT_DATE. */
  datatype Books = Books(members: map<int, Member>, coverage: map<CoverKey, int>, waivers: map<MonthKey, string>, today: Date)

  function Trunc(d: Date): int {
    MonthIndex(d.year, d.month)
  }

  function Least(a: int, b: int): int {
    if a <= b then a else b
  }

  function Greatest(a: int, b: int): int {
    if a >= b then a else b
  }

  /** A real payment covers the member's month. */
  predicate Covered(coverage: map<CoverKey, int>, member: int, month: YearMonth) {
    exists key :: key in coverage && key.month == month && coverage[key] == member
  }

  /** The NOT EXISTS pair every arrears query shares. */
  predicate Unpaid(b: Books, member: int, month: YearMonth) {
    !Covered(b.coverage, member, month) && MonthKey(member, month) !in b.waivers
  }

  // ---- The liability window ----

  predicate Tracked(b: Books, member: int) {
    member in b.members && b.members[member].feeStart.Some?
  }

  function WindowStart(b: Books, member: int): int
    requires Tracked(b, member)
  {
    Trunc(b.members[member].feeStart.value)
  }

  /** Stop month (or today), capped two months back: month M is overdue once M+1 has elapsed. */
  function WindowEnd(b: Books, member: int): int
    requires Tracked(b, member)
  {
    var stop := b.members[member].feeStop;
    Least(Trunc(if stop.Some? then stop.value else b.today), Trunc(b.today) - 2)
  }

  // ---- The queries ----

  predicate MissingInMonth(b: Books, member: int, year: int, month: int)
    requires 1 <= month <= 12
  {
    && Tracked(b, member)
    && WindowStart(b, member) <= MonthIndex(year, month) <= WindowEnd(b, member)
    && Unpaid(b, member, YearMonth(year, month))
  }

  /** generate_series over first-of-month timestamps with a step of one month. */
  function Series(from: int, last: int): (months: seq<YearMonth>)
    decreases last - from + 1
  {
    if from > last then [] else [MonthAt(from)] + Series(from + 1, last)
  }

  predicate AnyUnpaid(b: Books, member: int, months: seq<YearMonth>) {
    exists i :: 0 <= i < |months| && Unpaid(b, member, months[i])
  }

  predicate MissingInYear(b: Books, member: int, year: int) {
    && Tracked(b, member)
    && AnyUnpaid(b, member, Series(Greatest(WindowStart(b, member), MonthIndex(year, 1)),
                                   Least(WindowEnd(b, member), MonthIndex(year, 12))))
  }

  function CountUnpaid(b: Books, member: int, months: seq<YearMonth>): nat {
    if months == [] then 0
    else (if Unpaid(b, member, months[0]) then 1 else 0) + CountUnpaid(b, member, months[1..])
  }

  /** member_arrears.total_missed_months. */
  function TotalMissed(b: Books, member: int): nat
    requires Tracked(b, member)
  {
    CountUnpaid(b, member, Series(WindowStart(b, member), WindowEnd(b, member)))
  }

  // ---- Yearly list against monthly lists ----

  lemma {:induction false} SeriesExact(from: int, last: int)
    ensures |Series(from, last)| == if from > last then 0 else last - from + 1
    ensures forall i :: 0 <= i < |Series(from, last)| ==> Series(from, last)[i] == MonthAt(from + i)
    decreases last - from + 1
  {
    if from <= last {
      SeriesExact(from + 1, last);
    }
  }

  lemma AnyUnpaidInWindow(b: Books, member: int, from: int, last: int)
    ensures AnyUnpaid(b, member, Series(from, last)) <==> exists index :: from <= index <= last && Unpaid(b, member, MonthAt(index))
  {
    SeriesExact(from, last);
    var months := Series(from, last);
    if index :| from <= index <= last && Unpaid(b, member, MonthAt(index)) {
      assert months[index - from] == MonthAt(index);
    }
  }

  /** A member is on a year's list exactly when on one of its twelve monthly lists. */
  lemma YearIsItsTwelveMonths(b: Books, member: int, year: int)
    ensures MissingInYear(b, member, year) <==> exists month :: 1 <= month <= 12 && MissingInMonth(b, member, year, month)
  {
    if Tracked(b, member) {
      var from := Greatest(WindowStart(b, member), MonthIndex(year, 1));
      var last := Least(WindowEnd(b, member), MonthIndex(year, 12));
      AnyUnpaidInWindow(b, member, from, last);
      if MissingInYear(b, member, year) {
        var index :| from <= index <= last && Unpaid(b, member, MonthAt(index));
        MonthIndexInjective(MonthAt(index), YearMonth(year, index - year * 12));
        assert MissingInMonth(b, member, year, index - year * 12);
      }
      if month :| 1 <= month <= 12 && MissingInMonth(b, member, year, month) {
        MonthIndexInjective(MonthAt(MonthIndex(year, month)), YearMonth(year, month));
        assert from <= MonthIndex(year, month) <= last;
      }
    }
  }

  // ---- The total against the monthly lists ----

  /** Indices of the months whose list names the member. */
  function ListedMonths(b: Books, member: int): set<int>
    requires Tracked(b, member)
  {
    ListedBetween(b, member, WindowStart(b, member), WindowEnd(b, member))
  }

  function ListedBetween(b: Books, member: int, from: int, last: int): set<int> {
    set index | from <= index <= last && Unpaid(b, member, MonthAt(index))
  }

  lemma {:induction false} CountIsCardinality(b: Books, member: int, from: int, last: int)
    ensures CountUnpaid(b, member, Series(from, last)) == |ListedBetween(b, member, from, last)|
    decreases last - from + 1
  {
    hide Unpaid, MonthAt;
    if from <= last {
      CountIsCardinality(b, member, from + 1, last);
      var rest := ListedBetween(b, member, from + 1, last);
      assert Series(from, last)[1..] == Series(from + 1, last);
      assert ListedBetween(b, member, from, last) == if Unpaid(b, member, MonthAt(from)) then rest + {from} else rest;
    } else {
      assert ListedBetween(b, member, from, last) == {};
    }
  }

  /** total_missed_months is the number of months whose list names the member, so it is
      at least one for anyone listed. */
  lemma TotalCountsListings(b: Books, member: int)
    requires Tracked(b, member)
    ensures TotalMissed(b, member) == |ListedMonths(b, member)|
    ensures forall ym :: ValidMonth(ym) ==>
              (MissingInMonth(b, member, ym.year, ym.month) <==> MonthIndex(ym.year, ym.month) in ListedMonths(b, member))
    ensures forall ym :: ValidMonth(ym) && MissingInMonth(b, member, ym.year, ym.month) ==> TotalMissed(b, member) >= 1
  {
    CountIsCardinality(b, member, WindowStart(b, member), WindowEnd(b, member));
    forall ym | ValidMonth(ym)
      ensures MissingInMonth(b, member, ym.year, ym.month) <==> MonthIndex(ym.year, ym.month) in ListedMonths(b, member)
      ensures MissingInMonth(b, member, ym.year, ym.month) ==> TotalMissed(b, member) >= 1
    {
      MonthIndexInjective(MonthAt(MonthIndex(ym.year, ym.month)), ym);
      if MissingInMonth(b, member, ym.year, ym.month) {
        SizeWithout(ListedMonths(b, member), MonthIndex(ym.year, ym.month));
      }
    }
  }

  function Interval(from: int, last: int): (indices: set<int>)
    ensures forall index :: index in indices <==> from <= index <= last
    ensures |indices| == if last < from then 0 else last - from + 1
    decreases last - from + 1
  {
    if last < from then {} else Interval(from, last - 1) + {last}
  }

  /** Indices of the months the member owes a fee for by now. */
  function LiableMonths(b: Books, member: int): set<int>
    requires Tracked(b, member)
  {
    Interval(WindowStart(b, member), WindowEnd(b, member))
  }

  function PaidMonths(b: Books, member: int): set<int>
    requires Tracked(b, member)
  {
    set index | index in LiableMonths(b, member) && Covered(b.coverage, member, MonthAt(index))
  }

  function WrittenOffMonths(b: Books, member: int): set<int>
    requires Tracked(b, member)
  {
    set index | index in LiableMonths(b, member)
                && MonthKey(member, MonthAt(index)) in b.waivers && !Covered(b.coverage, member, MonthAt(index))
  }

  /** The liable months split exactly into paid, waived but unpaid, and missing ones; the
      missing ones are those the total counts. */
  lemma LiableMonthsSplit(b: Books, member: int)
    requires Tracked(b, member)
    ensures var (paid, written, missing) := (PaidMonths(b, member), WrittenOffMonths(b, member), ListedMonths(b, member));
            && LiableMonths(b, member) == paid + written + missing
            && paid !! written !! missing
            && |LiableMonths(b, member)| == |paid| + |written| + TotalMissed(b, member)
            && |LiableMonths(b, member)|
               == if WindowEnd(b, member) < WindowStart(b, member) then 0 else WindowEnd(b, member) - WindowStart(b, member) + 1
  {
    hide MonthAt, Covered, WindowStart, WindowEnd, TotalMissed;
    var (paid, written, missing) := (PaidMonths(b, member), WrittenOffMonths(b, member), ListedMonths(b, member));
    assert LiableMonths(b, member) == paid + written + missing;
    assert paid !! written && (paid + written) !! missing;
    TotalCountsListings(b, member);
  }

  // ---- What one payment, waiver or unwaiver does to the total ----

  ghost predicate SameElsewhere(b: Books, b': Books, member: int, month: YearMonth) {
    b'.members == b.members && b'.today == b.today &&
    forall ym :: ym != month ==> Unpaid(b', member, ym) == Unpaid(b, member, ym)
  }

  lemma SameBeside(b: Books, b': Books, member: int, month: YearMonth, from: int, last: int)
    requires SameElsewhere(b, b', member, month)
    ensures var index := MonthIndex(month.year, month.month);
            ListedBetween(b, member, from, last) - {index} == ListedBetween(b', member, from, last) - {index}
  {
    var index := MonthIndex(month.year, month.month);
    forall i | i != index ensures i in ListedBetween(b, member, from, last) <==> i in ListedBetween(b', member, from, last) {
      assert MonthAt(i) != month;
      assert Unpaid(b', member, MonthAt(i)) == Unpaid(b, member, MonthAt(i));
    }
  }

  lemma ListedAt(b: Books, member: int, month: YearMonth)
    requires Tracked(b, member) && ValidMonth(month)
    ensures MonthIndex(month.year, month.month) in ListedBetween(b, member, WindowStart(b, member), WindowEnd(b, member))
            <==> MissingInMonth(b, member, month.year, month.month)
  {
    MonthIndexInjective(MonthAt(MonthIndex(month.year, month.month)), month);
  }

  /** If one month's standing changes, the total moves by that month alone. */
  lemma TotalMovesByOne(b: Books, b': Books, member: int, month: YearMonth)
    requires Tracked(b, member) && ValidMonth(month) && SameElsewhere(b, b', member, month)
    ensures Tracked(b', member)
    ensures TotalMissed(b', member) - TotalMissed(b, member) ==
              (if MissingInMonth(b', member, month.year, month.month) then 1 else 0)
              - (if MissingInMonth(b, member, month.year, month.month) then 1 else 0)
  {
    hide ListedBetween, Unpaid, MissingInMonth;
    var index := MonthIndex(month.year, month.month);
    var (from, last) := (WindowStart(b, member), WindowEnd(b, member));
    CountIsCardinality(b, member, from, last);
    CountIsCardinality(b', member, from, last);
    var (l, l') := (ListedBetween(b, member, from, last), ListedBetween(b', member, from, last));
    SameBeside(b, b', member, month, from, last);
    SizeWithout(l, index);
    SizeWithout(l', index);
    ListedAt(b, member, month);
    ListedAt(b', member, month);
  }

  lemma SizeWithout(s: set<int>, x: int)
    ensures |s| == |s - {x}| + (if x in s then 1 else 0)
  {
    if x in s {
      assert s == (s - {x}) + {x};
    } else {
      assert s == s - {x};
    }
  }

  /** A coverage row for a missing month lowers the total by one; for any other month it changes nothing. */
  lemma PaymentLowersTotal(b: Books, member: int, key: CoverKey)
    requires Tracked(b, member) && ValidMonth(key.month) && key !in b.coverage
    ensures var b' := b.(coverage := InsertCoverage(b.coverage, key, member));
            && Tracked(b', member)
            && TotalMissed(b', member) == TotalMissed(b, member)
                 - (if MissingInMonth(b, member, key.month.year, key.month.month) then 1 else 0)
  {
    var b' := b.(coverage := InsertCoverage(b.coverage, key, member));
    assert b'.coverage[key] == member;
    forall ym | ym != key.month ensures Covered(b'.coverage, member, ym) == Covered(b.coverage, member, ym) {
      if k :| k in b.coverage && k.month == ym && b.coverage[k] == member {
        assert b'.coverage[k] == member;
      }
    }
    TotalMovesByOne(b, b', member, key.month);
  }

  /** A waiver for a missing month lowers the total by one; for any other month it changes nothing. */
  lemma WaiverLowersTotal(b: Books, member: int, month: YearMonth, reason: string)
    requires Tracked(b, member) && ValidMonth(month)
    ensures var b' := b.(waivers := b.waivers[MonthKey(member, month) := reason]);
            && Tracked(b', member)
            && TotalMissed(b', member) == TotalMissed(b, member)
                 - (if MissingInMonth(b, member, month.year, month.month) then 1 else 0)
  {
    TotalMovesByOne(b, b.(waivers := b.waivers[MonthKey(member, month) := reason]), member, month);
  }

  /** Removing the waiver of an uncovered liable month brings the month back, and only that. */
  lemma UnwaivingRestores(b: Books, member: int, month: YearMonth)
    requires Tracked(b, member) && ValidMonth(month) && MonthKey(member, month) in b.waivers
    ensures var b' := b.(waivers := b.waivers - {MonthKey(member, month)});
            var liable := WindowStart(b, member) <= MonthIndex(month.year, month.month) <= WindowEnd(b, member);
            && Tracked(b', member)
            && (MissingInMonth(b', member, month.year, month.month) <==> liable && !Covered(b.coverage, member, month))
            && TotalMissed(b', member) == TotalMissed(b, member)
                 + (if liable && !Covered(b.coverage, member, month) then 1 else 0)
  {
    TotalMovesByOne(b, b.(waivers := b.waivers - {MonthKey(member, month)}), member, month);
  }
}
