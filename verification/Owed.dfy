/** When a month is owed, read off the calendar: the fee had started by its last day, had not stopped
    before its first, and the month after it is over. */
module Owed {
  import opened Calendar
  import opened Arrears

  /** No payment covers the month and no waiver writes it off. */
  ghost predicate Open(b: Books, member: int, ym: YearMonth) {
    && (forall key :: key in b.coverage && b.coverage[key] == member ==> key.month != ym)
    && (forall key :: key in b.waivers && key.member == member ==> key.month != ym)
  }

  ghost predicate Due(m: Member, ym: YearMonth, today: Date) {
    && m.feeStart.Some? && NotAfter(m.feeStart.value, Date(ym.year, ym.month, DaysIn(ym.year, ym.month)))
    && (m.feeStop.Some? ==> NotAfter(Date(ym.year, ym.month, 1), m.feeStop.value))
    && NotAfter(AddMonths(Date(ym.year, ym.month, 1), 2), today)
  }

  ghost predicate Owes(b: Books, member: int, ym: YearMonth) {
    member in b.members && Due(b.members[member], ym, b.today) && Open(b, member, ym)
  }

  ghost predicate DatesValid(b: Books, member: int) {
    && ValidDate(b.today)
    && (member in b.members ==>
          && (b.members[member].feeStart.Some? ==> ValidDate(b.members[member].feeStart.value))
          && (b.members[member].feeStop.Some? ==> ValidDate(b.members[member].feeStop.value)))
  }

  lemma OpenExact(b: Books, member: int, ym: YearMonth)
    ensures Unpaid(b, member, ym) <==> Open(b, member, ym)
  {
    var key := MonthKey(member, ym);
    assert key.member == member && key.month == ym;
  }

  /** The first of the month is not after a day exactly when the month is not after the day's. */
  lemma MonthBegun(ym: YearMonth, d: Date)
    requires ValidMonth(ym) && ValidDate(d)
    ensures NotAfter(Date(ym.year, ym.month, 1), d) <==> MonthIndex(ym.year, ym.month) <= MonthIndex(d.year, d.month)
    ensures NotAfter(d, Date(ym.year, ym.month, DaysIn(ym.year, ym.month))) <==> MonthIndex(d.year, d.month) <= MonthIndex(ym.year, ym.month)
  {
  }

  lemma TwoMonthsOn(ym: YearMonth)
    requires ValidMonth(ym)
    ensures var later := AddMonths(Date(ym.year, ym.month, 1), 2);
            later.day == 1 && 1 <= later.month <= 12 && MonthIndex(later.year, later.month) == MonthIndex(ym.year, ym.month) + 2
  {
  }

  /** The monthly list names exactly the members who owe the month. */
  lemma MonthListsOwing(b: Books, member: int, ym: YearMonth)
    requires ValidMonth(ym) && DatesValid(b, member)
    ensures MissingInMonth(b, member, ym.year, ym.month) <==> Owes(b, member, ym)
  {
    hide Unpaid, Open, AddMonths;
    OpenExact(b, member, ym);
    TwoMonthsOn(ym);
    var later := AddMonths(Date(ym.year, ym.month, 1), 2);
    MonthBegun(YearMonth(later.year, later.month), b.today);
    if Tracked(b, member) {
      MonthBegun(ym, b.members[member].feeStart.value);
      if b.members[member].feeStop.Some? {
        MonthBegun(ym, b.members[member].feeStop.value);
      }
    }
  }

  /** The yearly list names exactly the members who owe a month of the year. */
  lemma YearListsOwing(b: Books, member: int, year: int)
    requires DatesValid(b, member)
    ensures MissingInYear(b, member, year) <==> exists ym :: ValidMonth(ym) && ym.year == year && Owes(b, member, ym)
  {
    hide Owes, MissingInMonth, MissingInYear;
    YearIsItsTwelveMonths(b, member, year);
    forall ym | ValidMonth(ym) ensures MissingInMonth(b, member, ym.year, ym.month) <==> Owes(b, member, ym) {
      MonthListsOwing(b, member, ym);
    }
    if month :| 1 <= month <= 12 && MissingInMonth(b, member, year, month) {
      assert ValidMonth(YearMonth(year, month)) && Owes(b, member, YearMonth(year, month));
    }
    if ym :| ValidMonth(ym) && ym.year == year && Owes(b, member, ym) {
      assert MissingInMonth(b, member, year, ym.month);
    }
  }

  /** The total is the number of months owed. */
  lemma TotalIsOwed(b: Books, member: int, owed: set<YearMonth>)
    requires Tracked(b, member) && DatesValid(b, member)
    requires forall ym :: ym in owed <==> ValidMonth(ym) && Owes(b, member, ym)
    ensures TotalMissed(b, member) == |owed|
  {
    hide Owes, MissingInMonth, TotalMissed, ListedMonths;
    TotalCountsListings(b, member);
    forall ym | ValidMonth(ym) ensures MonthIndex(ym.year, ym.month) in ListedMonths(b, member) <==> ym in owed {
      MonthListsOwing(b, member, ym);
    }
    SameSize(owed, ListedMonths(b, member));
  }

  /** Months and their indices correspond one to one. */
  lemma {:induction false} SameSize(months: set<YearMonth>, indices: set<int>)
    requires forall ym :: ym in months ==> ValidMonth(ym)
    requires forall ym :: ValidMonth(ym) ==> (MonthIndex(ym.year, ym.month) in indices <==> ym in months)
    ensures |months| == |indices|
    decreases |months|
  {
    if ym :| ym in months {
      var index := MonthIndex(ym.year, ym.month);
      forall other | ValidMonth(other) && MonthIndex(other.year, other.month) == index ensures other == ym {
        MonthIndexInjective(other, ym);
      }
      SameSize(months - {ym}, indices - {index});
    } else {
      forall index ensures index !in indices {
        assert ValidMonth(MonthAt(index)) && MonthAt(index) !in months;
      }
      assert indices == {};
    }
  }
}
