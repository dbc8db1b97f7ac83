/** Calendar dates and the one piece of date arithmetic the ledger relies on:
    `time.AddDate(0, k, 0)`, which normalises an overflowing day into the next
    month. The month a payment covers by default is built on it. */
module Calendar {

  datatype Date = Date(year: int, month: int, day: int)

  datatype YearMonth = YearMonth(year: int, month: int)

  predicate IsLeap(year: int) {
    year % 4 == 0 && (year % 100 != 0 || year % 400 == 0)
  }

  function DaysIn(year: int, month: int): (n: int)
    ensures 28 <= n <= 31
  {
    if month == 2 then (if IsLeap(year) then 29 else 28)
    else if month in {4, 6, 9, 11} then 30 else 31
  }

  predicate ValidMonth(ym: YearMonth) {
    1 <= ym.month <= 12
  }

  predicate ValidDate(d: Date) {
    1 <= d.month <= 12 && 1 <= d.day <= DaysIn(d.year, d.month)
  }

  /** `DATE` comparison. */
  predicate NotAfter(a: Date, b: Date) {
    a.year < b.year || (a.year == b.year && (a.month < b.month || (a.month == b.month && a.day <= b.day)))
  }

  /** Months as consecutive integers, so they can be stepped and compared. */
  function MonthIndex(year: int, month: int): int {
    year * 12 + month
  }

  /** The month with a given index, for every integer (floored division). */
  function MonthAt(index: int): (ym: YearMonth)
    ensures ValidMonth(ym) && MonthIndex(ym.year, ym.month) == index
  {
    YearMonth((index - 1) / 12, (index - 1) % 12 + 1)
  }

  lemma MonthIndexInjective(a: YearMonth, b: YearMonth)
    requires ValidMonth(a) && ValidMonth(b)
    requires MonthIndex(a.year, a.month) == MonthIndex(b.year, b.month)
    ensures a == b
  {
    assert 12 * (a.year - b.year) == b.month - a.month;
  }

  /** `AddDate(0, months, 0)`: shift the month, then carry a day the shifted
      month does not have into the month after it. */
  function AddMonths(d: Date, months: int): Date {
    var ym := MonthAt(MonthIndex(d.year, d.month) + months);
    var n := DaysIn(ym.year, ym.month);
    if d.day <= n then Date(ym.year, ym.month, d.day)
    else
      var next := MonthAt(MonthIndex(ym.year, ym.month) + 1);
      Date(next.year, next.month, d.day - n)
  }

  // ---- Reference: dates as a running day count ----

  function DaysBeforeMonth(year: int, month: int): int
    requires 1 <= month <= 12
  {
    var leap := if IsLeap(year) then 1 else 0;
    [0, 31, 59 + leap, 90 + leap, 120 + leap, 151 + leap, 181 + leap,
     212 + leap, 243 + leap, 273 + leap, 304 + leap, 334 + leap][month - 1]
  }

  /** Days from a fixed epoch to the first of the year, by the Gregorian leap rule. */
  function DaysBeforeYear(year: int): int {
    365 * year + (year - 1) / 4 - (year - 1) / 100 + (year - 1) / 400
  }

  function FirstOfMonth(year: int, month: int): int
    requires 1 <= month <= 12
  {
    DaysBeforeYear(year) + DaysBeforeMonth(year, month)
  }

  function DayNumber(d: Date): int
    requires 1 <= d.month <= 12
  {
    FirstOfMonth(d.year, d.month) + d.day - 1
  }

  lemma YearLength(year: int)
    ensures DaysBeforeYear(year + 1) == DaysBeforeYear(year) + (if IsLeap(year) then 366 else 365)
  {
    var (a, b, c) := (year / 4 - (year - 1) / 4, year / 100 - (year - 1) / 100, year / 400 - (year - 1) / 400);
    DivStep(year, 4);
    DivStep(year, 100);
    DivStep(year, 400);
    assert DaysBeforeYear(year + 1) == DaysBeforeYear(year) + 365 + a - b + c;
    assert a - b + c == if IsLeap(year) then 1 else 0 by {
      DivisorsNest(year);
    }
  }

  lemma DivisorsNest(year: int)
    ensures year % 100 == 0 ==> year % 4 == 0
    ensures year % 400 == 0 ==> year % 100 == 0
  {
    if year % 100 == 0 {
      Multiple(year, 25 * (year / 100), 4);
    }
    if year % 400 == 0 {
      Multiple(year, 4 * (year / 400), 100);
    }
  }

  lemma Multiple(n: int, q: int, k: int)
    requires k in {4, 100} && n == k * q
    ensures n % k == 0
  {
  }

  lemma DivStep(n: int, k: int)
    requires k in {4, 100, 400}
    ensures n / k - (n - 1) / k == if n % k == 0 then 1 else 0
  {
  }

  /** Month lengths tile the day count: each month starts where the one before it ends. */
  lemma MonthsTile(index: int)
    ensures var ym, next := MonthAt(index), MonthAt(index + 1);
            FirstOfMonth(next.year, next.month) == FirstOfMonth(ym.year, ym.month) + DaysIn(ym.year, ym.month)
  {
    var ym := MonthAt(index);
    var next := if ym.month == 12 then YearMonth(ym.year + 1, 1) else YearMonth(ym.year, ym.month + 1);
    MonthIndexInjective(next, MonthAt(index + 1));
    if ym.month == 12 {
      YearLength(ym.year);
    }
  }

  lemma {:induction false} LaterMonthStartsLater(i: int, j: int)
    requires i < j
    ensures var a, b := MonthAt(i), MonthAt(j);
            FirstOfMonth(a.year, a.month) + DaysIn(a.year, a.month) <= FirstOfMonth(b.year, b.month)
    decreases j - i
  {
    hide FirstOfMonth, MonthAt, IsLeap;
    MonthsTile(j - 1);
    if i < j - 1 {
      LaterMonthStartsLater(i, j - 1);
    }
  }

  /** A day number names at most one date, so "the date with this day number" is well defined. */
  lemma DayNumberInjective(a: Date, b: Date)
    requires ValidDate(a) && ValidDate(b)
    ensures DayNumber(a) == DayNumber(b) ==> a == b
  {
    var i, j := MonthIndex(a.year, a.month), MonthIndex(b.year, b.month);
    MonthIndexInjective(MonthAt(i), YearMonth(a.year, a.month));
    MonthIndexInjective(MonthAt(j), YearMonth(b.year, b.month));
    if i < j {
      LaterMonthStartsLater(i, j);
    } else if j < i {
      LaterMonthStartsLater(j, i);
    }
  }

  /** Comparing dates is comparing days. */
  lemma NotAfterIsDayOrder(a: Date, b: Date)
    requires ValidDate(a) && ValidDate(b)
    ensures NotAfter(a, b) <==> DayNumber(a) <= DayNumber(b)
  {
    var i, j := MonthIndex(a.year, a.month), MonthIndex(b.year, b.month);
    MonthIndexInjective(MonthAt(i), YearMonth(a.year, a.month));
    MonthIndexInjective(MonthAt(j), YearMonth(b.year, b.month));
    if i < j {
      LaterMonthStartsLater(i, j);
    } else if j < i {
      LaterMonthStartsLater(j, i);
    }
  }

  /** AddMonths is Go's normalisation: the unique valid date lying `day - 1` days
      after the first of the shifted month. */
  lemma AddMonthsNormalises(d: Date, months: int)
    requires ValidDate(d)
    ensures var r := AddMonths(d, months);
            var ym := MonthAt(MonthIndex(d.year, d.month) + months);
            && ValidDate(r)
            && DayNumber(r) == FirstOfMonth(ym.year, ym.month) + d.day - 1
            && forall other :: ValidDate(other) && DayNumber(other) == DayNumber(r) ==> other == r
  {
    var ym := MonthAt(MonthIndex(d.year, d.month) + months);
    MonthsTile(MonthIndex(ym.year, ym.month));
    MonthIndexInjective(MonthAt(MonthIndex(ym.year, ym.month)), ym);
    var r := AddMonths(d, months);
    assert ValidDate(r) by {
      if d.day > DaysIn(ym.year, ym.month) {
        assert 1 <= r.day <= 3;
      }
    }
    forall other | ValidDate(other) && DayNumber(other) == DayNumber(r)
      ensures other == r
    {
      DayNumberInjective(other, r);
    }
  }

  /** The month a payment covers when nobody says otherwise: dues are paid one month in arrears. */
  function DefaultCoveredMonth(d: Date): YearMonth {
    var r := AddMonths(d, -1);
    YearMonth(r.year, r.month)
  }

  /** The default is the calendar month before the transaction's exactly when that
      month has the transaction's day number; otherwise the day overflows and the
      payment covers its own month. */
  lemma DefaultCoveredMonthExact(d: Date)
    requires ValidDate(d)
    ensures var own := MonthIndex(d.year, d.month);
            var previous := MonthAt(own - 1);
            var covered := DefaultCoveredMonth(d);
            && ValidMonth(covered)
            && (covered == previous <==> d.day <= DaysIn(previous.year, previous.month))
            && (covered != previous ==> covered == YearMonth(d.year, d.month))
  {
    var own := MonthIndex(d.year, d.month);
    MonthIndexInjective(MonthAt(own), YearMonth(d.year, d.month));
  }
}
