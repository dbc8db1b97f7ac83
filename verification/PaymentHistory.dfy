/** A member's payment history: coverage rows grouped by transaction, then the waived months. */
module PaymentHistory {
  import opened Calendar
  import opened Ledger
  import opened LedgerInvariant
  import opened Arrears

  /** One row of the history query: a coverage row joined to its bank transaction. */
  datatype HistoryRow = HistoryRow(transaction: int, month: YearMonth, date: Date, amount: int, currency: string)

  datatype Entry =
    | Payment(transaction: int, date: Date, amount: int, currency: string, months: seq<YearMonth>)
    | Waived(month: YearMonth)

  // ---- The grouping as functions of the query rows ----

  /** Transactions in the order of their first row. */
  function FirstAppearances(rows: seq<HistoryRow>): seq<int> {
    if rows == [] then []
    else
      var before, last := FirstAppearances(rows[..|rows| - 1]), rows[|rows| - 1];
      if last.transaction in before then before else before + [last.transaction]
  }

  /** The months of one transaction, in query order. */
  function MonthsOf(rows: seq<HistoryRow>, transaction: int): seq<YearMonth> {
    if rows == [] then []
    else
      MonthsOf(rows[..|rows| - 1], transaction)
      + (if rows[|rows| - 1].transaction == transaction then [rows[|rows| - 1].month] else [])
  }

  /** Position of a transaction's first row. */
  function FirstRow(rows: seq<HistoryRow>, transaction: int): (i: nat)
    ensures i <= |rows|
  {
    if rows == [] then 0
    else
      var i := FirstRow(rows[..|rows| - 1], transaction);
      if i < |rows| - 1 || rows[|rows| - 1].transaction == transaction then i else |rows|
  }

  lemma {:induction false} FirstRowExact(rows: seq<HistoryRow>, transaction: int)
    ensures var i := FirstRow(rows, transaction);
            && (forall j :: 0 <= j < i ==> rows[j].transaction != transaction)
            && (i < |rows| ==> rows[i].transaction == transaction)
  {
    if rows != [] {
      FirstRowExact(rows[..|rows| - 1], transaction);
    }
  }

  /** The entry of a transaction: transaction fields from its first row, all of its months. */
  predicate IsEntryOf(entry: Entry, rows: seq<HistoryRow>, transaction: int) {
    var i := FirstRow(rows, transaction);
    && i < |rows|
    && entry == Payment(transaction, rows[i].date, rows[i].amount, rows[i].currency, MonthsOf(rows, transaction))
  }

  function PaidMonths(rows: seq<HistoryRow>): set<YearMonth> {
    set row | row in rows :: row.month
  }

  function WaivedEntries(waived: seq<YearMonth>, paid: set<YearMonth>): seq<Entry> {
    if waived == [] then []
    else
      WaivedEntries(waived[..|waived| - 1], paid)
      + (if waived[|waived| - 1] in paid then [] else [Waived(waived[|waived| - 1])])
  }

  /** One entry per transaction in order of first appearance, then the waived months no payment covers. */
  ghost predicate IsHistory(out: seq<Entry>, rows: seq<HistoryRow>, waived: seq<YearMonth>) {
    var order := FirstAppearances(rows);
    && |out| >= |order|
    && (forall i :: 0 <= i < |order| ==> IsEntryOf(out[i], rows, order[i]))
    && out[|order|..] == WaivedEntries(waived, PaidMonths(rows))
  }

  /** Each transaction of the rows once, in the order of their first rows. */
  lemma {:induction false} AppearancesExact(rows: seq<HistoryRow>)
    ensures var order := FirstAppearances(rows);
            && (forall i, j :: 0 <= i < j < |order| ==> FirstRow(rows, order[i]) < FirstRow(rows, order[j]))
            && (forall id :: id in order <==> FirstRow(rows, id) < |rows|)
            && (forall row :: row in rows ==> row.transaction in order)
            && (forall id :: id in order ==>
                  && rows[FirstRow(rows, id)].transaction == id
                  && forall j :: 0 <= j < FirstRow(rows, id) ==> rows[j].transaction != id)
  {
    if rows != [] {
      AppearancesExact(rows[..|rows| - 1]);
    }
    forall id {
      FirstRowExact(rows, id);
    }
  }

  // ---- The handler's loops ----

  ghost predicate Grouped(rows: seq<HistoryRow>, entries: map<int, Entry>) {
    && (forall id :: id in entries <==> FirstRow(rows, id) < |rows|)
    && (forall id :: id in entries ==> IsEntryOf(entries[id], rows, id))
  }

  /** Entry of the newest row's transaction, before and after that row. */
  lemma EntryGrows(rows: seq<HistoryRow>, id: int)
    requires rows != []
    ensures var front, last := rows[..|rows| - 1], rows[|rows| - 1];
            var i := FirstRow(front, id);
            if i < |front| || last.transaction != id then
              FirstRow(rows, id) == (if i < |front| then i else |rows|)
            else
              FirstRow(rows, id) == |front| && MonthsOf(front, id) == []
  {
    if FirstRow(rows[..|rows| - 1], id) == |rows| - 1 {
      NoMonthsYet(rows[..|rows| - 1], id);
    }
  }

  function WithMonth(entries: map<int, Entry>, row: HistoryRow): map<int, Entry> {
    var id := row.transaction;
    entries[id := if id in entries && entries[id].Payment?
                  then entries[id].(months := entries[id].months + [row.month])
                  else Payment(id, row.date, row.amount, row.currency, [row.month])]
  }

  function EntriesOf(rows: seq<HistoryRow>): map<int, Entry> {
    if rows == [] then map[] else WithMonth(EntriesOf(rows[..|rows| - 1]), rows[|rows| - 1])
  }

  lemma {:induction false} EntriesExact(rows: seq<HistoryRow>)
    ensures Grouped(rows, EntriesOf(rows))
  {
    if rows != [] {
      var front, last := rows[..|rows| - 1], rows[|rows| - 1];
      EntriesExact(front);
      var before, after := EntriesOf(front), EntriesOf(rows);
      forall id ensures id in after <==> FirstRow(rows, id) < |rows| {
        EntryGrows(rows, id);
      }
      forall id | id in after ensures IsEntryOf(after[id], rows, id) {
        EntryGrows(rows, id);
        assert id in before ==> IsEntryOf(before[id], front, id);
      }
    }
  }

  method GroupRows(rows: seq<HistoryRow>) returns (order: seq<int>, entries: map<int, Entry>, paidMonths: set<YearMonth>)
    ensures order == FirstAppearances(rows) && entries == EntriesOf(rows)
    ensures forall month :: month in paidMonths <==> exists j :: 0 <= j < |rows| && rows[j].month == month
  {
    order, entries, paidMonths := [], map[], {};
    for i := 0 to |rows|
      invariant order == FirstAppearances(rows[..i])
      invariant entries == EntriesOf(rows[..i])
      invariant forall month :: month in paidMonths <==> exists j :: 0 <= j < i && rows[j].month == month
    {
      var row := rows[i];
      assert rows[..i + 1][..i] == rows[..i] && rows[..i + 1][i] == row;
      KnownExact(rows[..i], row.transaction);
      ghost var before := entries;
      if row.transaction !in entries {
        entries := entries[row.transaction := Payment(row.transaction, row.date, row.amount, row.currency, [])];
        order := order + [row.transaction];
      }
      var entry := entries[row.transaction];
      entries := entries[row.transaction := entry.(months := entry.months + [row.month])];
      assert [] + [row.month] == [row.month];
      assert entries == WithMonth(before, row);
      paidMonths := paidMonths + {row.month};
    }
    assert rows[..|rows|] == rows;
  }

  lemma KnownExact(rows: seq<HistoryRow>, id: int)
    ensures id in EntriesOf(rows) <==> id in FirstAppearances(rows)
    ensures id in EntriesOf(rows) ==> EntriesOf(rows)[id].Payment?
  {
    EntriesExact(rows);
    AppearancesExact(rows);
    assert id in EntriesOf(rows) ==> IsEntryOf(EntriesOf(rows)[id], rows, id);
  }

  method ListPayments(order: seq<int>, entries: map<int, Entry>) returns (out: seq<Entry>)
    requires forall i :: 0 <= i < |order| ==> order[i] in entries
    ensures |out| == |order| && forall i :: 0 <= i < |order| ==> out[i] == entries[order[i]]
  {
    out := [];
    for k := 0 to |order|
      invariant |out| == k && forall i :: 0 <= i < k ==> out[i] == entries[order[i]]
    {
      out := out + [entries[order[k]]];
    }
  }

  method WritePaymentHistory(rows: seq<HistoryRow>, waived: seq<YearMonth>) returns (out: seq<Entry>)
    ensures IsHistory(out, rows, waived)
  {
    var order, entries, paidMonths := GroupRows(rows);
    PaymentsKnown(rows);
    out := ListPayments(order, entries);
    ghost var payments := out;
    for k := 0 to |waived|
      invariant out == payments + WaivedEntries(waived[..k], paidMonths)
    {
      assert waived[..k + 1][..k] == waived[..k] && waived[..k + 1][k] == waived[k];
      if waived[k] !in paidMonths {
        out := out + [Waived(waived[k])];
      }
    }
    assert waived[..|waived|] == waived;
    assert paidMonths == PaidMonths(rows);
    assert out[..|order|] == payments && out[|order|..] == WaivedEntries(waived, paidMonths);
  }

  lemma PaymentsKnown(rows: seq<HistoryRow>)
    ensures var order, entries := FirstAppearances(rows), EntriesOf(rows);
            forall i :: 0 <= i < |order| ==> order[i] in entries && IsEntryOf(entries[order[i]], rows, order[i])
  {
    AppearancesExact(rows);
    EntriesExact(rows);
    var order := FirstAppearances(rows);
    assert forall i :: 0 <= i < |order| ==> order[i] in order;
  }

  lemma {:induction false} NoMonthsYet(rows: seq<HistoryRow>, transaction: int)
    requires FirstRow(rows, transaction) == |rows|
    ensures MonthsOf(rows, transaction) == []
  {
    if rows != [] {
      NoMonthsYet(rows[..|rows| - 1], transaction);
    }
  }

  // ---- Conservation ----

  function Covers(rows: seq<HistoryRow>): seq<CoverKey> {
    seq(|rows|, i requires 0 <= i < |rows| => CoverKey(rows[i].transaction, rows[i].month))
  }

  function KeysOf(transaction: int, months: seq<YearMonth>): seq<CoverKey> {
    seq(|months|, i requires 0 <= i < |months| => CoverKey(transaction, months[i]))
  }

  /** The (transaction, month) pairs a history reports as paid, in order. */
  function Reported(out: seq<Entry>): seq<CoverKey> {
    if out == [] then []
    else
      Reported(out[..|out| - 1])
      + (if out[|out| - 1].Payment? then KeysOf(out[|out| - 1].transaction, out[|out| - 1].months) else [])
  }

  lemma {:induction false} MonthsCount(rows: seq<HistoryRow>, key: CoverKey)
    ensures multiset(Covers(rows))[key] == multiset(MonthsOf(rows, key.row))[key.month]
  {
    if rows != [] {
      var front, last := rows[..|rows| - 1], rows[|rows| - 1];
      MonthsCount(front, key);
      assert Covers(rows) == Covers(front) + [CoverKey(last.transaction, last.month)];
    }
  }

  lemma {:induction false} KeysCount(transaction: int, months: seq<YearMonth>, key: CoverKey)
    ensures multiset(KeysOf(transaction, months))[key] == if key.row == transaction then multiset(months)[key.month] else 0
  {
    if months != [] {
      var front, last := months[..|months| - 1], months[|months| - 1];
      KeysCount(transaction, front, key);
      assert months == front + [last];
      assert KeysOf(transaction, months) == KeysOf(transaction, front) + [CoverKey(transaction, last)];
    }
  }

  /** Payment entries for the distinct transactions of `order`, then waived entries. */
  ghost predicate HistoryOf(out: seq<Entry>, rows: seq<HistoryRow>, order: seq<int>) {
    && |order| <= |out|
    && (forall i :: 0 <= i < |order| ==> IsEntryOf(out[i], rows, order[i]))
    && (forall i :: |order| <= i < |out| ==> out[i].Waived?)
    && (forall i, j :: 0 <= i < j < |order| ==> order[i] != order[j])
  }

  lemma {:induction false} ReportedCount(out: seq<Entry>, rows: seq<HistoryRow>, order: seq<int>, key: CoverKey)
    requires HistoryOf(out, rows, order)
    ensures multiset(Reported(out))[key] == if key.row in order then multiset(MonthsOf(rows, key.row))[key.month] else 0
    decreases |out|
  {
    if out != [] {
      var front, last := out[..|out| - 1], out[|out| - 1];
      if |order| == |out| {
        var id := order[|order| - 1];
        assert order == order[..|order| - 1] + [id];
        assert forall i :: 0 <= i < |order| - 1 ==> order[i] != id;
        ReportedCount(front, rows, order[..|order| - 1], key);
        KeysCount(id, MonthsOf(rows, id), key);
      } else {
        ReportedCount(front, rows, order, key);
      }
    }
  }

  lemma {:induction false} WaivedEntriesExact(waived: seq<YearMonth>, paid: set<YearMonth>)
    ensures forall entry :: entry in WaivedEntries(waived, paid) <==> entry.Waived? && entry.month in waived && entry.month !in paid
  {
    if waived != [] {
      var front, last := waived[..|waived| - 1], waived[|waived| - 1];
      WaivedEntriesExact(front, paid);
      assert waived == front + [last];
    }
  }

  lemma HistoryShape(out: seq<Entry>, rows: seq<HistoryRow>, waived: seq<YearMonth>)
    requires IsHistory(out, rows, waived)
    ensures HistoryOf(out, rows, FirstAppearances(rows))
  {
    var order := FirstAppearances(rows);
    AppearancesExact(rows);
    WaivedEntriesExact(waived, PaidMonths(rows));
    forall i | |order| <= i < |out| ensures out[i].Waived? {
      assert out[i] == out[|order|..][i - |order|];
      assert out[i] in out[|order|..];
    }
  }

  /** Grouping neither loses, adds nor repeats a coverage row. */
  lemma HistoryConservesCoverage(out: seq<Entry>, rows: seq<HistoryRow>, waived: seq<YearMonth>)
    requires IsHistory(out, rows, waived)
    ensures multiset(Reported(out)) == multiset(Covers(rows))
  {
    HistoryShape(out, rows, waived);
    forall key: CoverKey ensures multiset(Reported(out))[key] == multiset(Covers(rows))[key] {
      ReportedCount(out, rows, FirstAppearances(rows), key);
      MonthsCount(rows, key);
      AppearancesExact(rows);
      if key.row !in FirstAppearances(rows) {
        NoMonthsYet(rows, key.row);
      }
    }
  }

  // ---- Over the tables ----

  /** What the query may return: the member's coverage rows, joined, newest month first;
      ties come in any order. */
  ghost predicate QueryResult(t: Tables, member: int, rows: seq<HistoryRow>) {
    && (forall i :: 0 <= i < |rows| ==>
          && Covers(rows)[i] in t.coverage && t.coverage[Covers(rows)[i]] == member
          && rows[i].transaction in t.rows && t.rows[rows[i].transaction].raw in t.raws
          && var rt := t.raws[t.rows[rows[i].transaction].raw];
             rows[i].date == rt.date && rows[i].amount == rt.amount && rows[i].currency == rt.currency)
    && (forall key :: key in t.coverage && t.coverage[key] == member && key.row in t.rows && t.rows[key.row].raw in t.raws ==>
          key in Covers(rows))
    && (forall i, j :: 0 <= i < j < |rows| ==> Covers(rows)[i] != Covers(rows)[j])
    && (forall i, j :: 0 <= i < j < |rows| ==>
          MonthIndex(rows[i].month.year, rows[i].month.month) >= MonthIndex(rows[j].month.year, rows[j].month.month))
  }

  lemma {:induction false} DistinctCount(keys: seq<CoverKey>, key: CoverKey)
    requires forall i, j :: 0 <= i < j < |keys| ==> keys[i] != keys[j]
    ensures multiset(keys)[key] == if key in keys then 1 else 0
  {
    if keys != [] {
      var front, last := keys[..|keys| - 1], keys[|keys| - 1];
      assert keys == front + [last];
      assert forall i :: 0 <= i < |front| ==> front[i] != last;
      DistinctCount(front, key);
    }
  }

  /** Every coverage row of the member is reported exactly once, and nothing else is. */
  lemma EachCoverageReportedOnce(t: Tables, member: int, rows: seq<HistoryRow>, waived: seq<YearMonth>, out: seq<Entry>, key: CoverKey)
    requires LedgerOk(t) && QueryResult(t, member, rows) && IsHistory(out, rows, waived)
    ensures multiset(Reported(out))[key] == if key in t.coverage && t.coverage[key] == member then 1 else 0
  {
    HistoryConservesCoverage(out, rows, waived);
    DistinctCount(Covers(rows), key);
  }

  lemma PaidMonthsExact(t: Tables, member: int, rows: seq<HistoryRow>, month: YearMonth)
    requires LedgerOk(t) && QueryResult(t, member, rows)
    ensures month in PaidMonths(rows) <==> Covered(t.coverage, member, month)
  {
    hide RulesOk, AutomaticOk;
    if Covered(t.coverage, member, month) {
      var key :| key in t.coverage && key.month == month && t.coverage[key] == member;
      assert key in Covers(rows);
      var i :| 0 <= i < |rows| && Covers(rows)[i] == key;
      assert rows[i] in rows;
    }
    if month in PaidMonths(rows) {
      var i :| 0 <= i < |rows| && rows[i].month == month;
      assert Covers(rows)[i] in t.coverage;
    }
  }

  /** A month shows as waived exactly when it has a waiver and no payment covers it. */
  lemma WaivedReportedExact(
    t: Tables, waivers: map<MonthKey, string>, member: int, rows: seq<HistoryRow>, waived: seq<YearMonth>, out: seq<Entry>, month: YearMonth)
    requires LedgerOk(t) && QueryResult(t, member, rows) && IsHistory(out, rows, waived)
    requires forall ym :: ym in waived <==> MonthKey(member, ym) in waivers
    ensures Waived(month) in out <==> MonthKey(member, month) in waivers && !Covered(t.coverage, member, month)
  {
    hide LedgerOk, Covered;
    PaidMonthsExact(t, member, rows, month);
    WaivedEntriesExact(waived, PaidMonths(rows));
    var order := FirstAppearances(rows);
    assert out == out[..|order|] + out[|order|..];
    assert Waived(month) !in out[..|order|];
  }

  ghost predicate NewestFirst(rows: seq<HistoryRow>) {
    && (forall i :: 0 <= i < |rows| ==> ValidMonth(rows[i].month))
    && (forall i, j :: 0 <= i < j < |rows| ==>
          && Covers(rows)[i] != Covers(rows)[j]
          && MonthIndex(rows[i].month.year, rows[i].month.month) >= MonthIndex(rows[j].month.year, rows[j].month.month))
  }

  lemma OlderComesLater(rows: seq<HistoryRow>, transaction: int, month: YearMonth)
    requires NewestFirst(rows) && rows != [] && rows[|rows| - 1].transaction == transaction
    requires CoverKey(transaction, month) in Covers(rows[..|rows| - 1])
    ensures MonthIndex(month.year, month.month) > MonthIndex(rows[|rows| - 1].month.year, rows[|rows| - 1].month.month)
  {
    var last := |rows| - 1;
    var i :| 0 <= i < last && Covers(rows[..last])[i] == CoverKey(transaction, month);
    assert Covers(rows)[i] != Covers(rows)[last] && Covers(rows)[i] == CoverKey(transaction, month);
    assert rows[i].month == month;
    if MonthIndex(month.year, month.month) == MonthIndex(rows[last].month.year, rows[last].month.month) {
      MonthIndexInjective(month, rows[last].month);
    }
  }

  lemma {:induction false} MonthsAreCovers(rows: seq<HistoryRow>, transaction: int, month: YearMonth)
    ensures month in MonthsOf(rows, transaction) <==> CoverKey(transaction, month) in Covers(rows)
  {
    if rows != [] {
      var front, last := rows[..|rows| - 1], rows[|rows| - 1];
      MonthsAreCovers(front, transaction, month);
      assert Covers(rows) == Covers(front) + [CoverKey(last.transaction, last.month)];
    }
  }

  ghost predicate Descending(months: seq<YearMonth>) {
    forall i, j :: 0 <= i < j < |months| ==> MonthIndex(months[i].year, months[i].month) > MonthIndex(months[j].year, months[j].month)
  }

  /** Inside an entry the months come newest first, none twice. */
  lemma {:induction false} MonthsNewestFirst(rows: seq<HistoryRow>, transaction: int)
    requires NewestFirst(rows)
    ensures Descending(MonthsOf(rows, transaction))
  {
    if rows != [] {
      var front, last := rows[..|rows| - 1], rows[|rows| - 1];
      assert forall i :: 0 <= i < |front| ==> Covers(front)[i] == Covers(rows)[i];
      assert NewestFirst(front);
      MonthsNewestFirst(front, transaction);
      var earlier := MonthsOf(front, transaction);
      if last.transaction == transaction {
        forall k | 0 <= k < |earlier|
          ensures MonthIndex(earlier[k].year, earlier[k].month) > MonthIndex(last.month.year, last.month.month)
        {
          MonthsAreCovers(front, transaction, earlier[k]);
          OlderComesLater(rows, transaction, earlier[k]);
        }
        assert MonthsOf(rows, transaction) == earlier + [last.month];
      } else {
        assert MonthsOf(rows, transaction) == earlier;
      }
    }
  }
}
