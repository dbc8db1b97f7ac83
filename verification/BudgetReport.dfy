/** Budget against actual: each line's actual, the unbudgeted totals, and the figures the
    budget page adds up from them. Amounts in hellers. */
module BudgetReport {
  import opened Options
  import opened Calendar
  import opened Categorization
  import opened Ledger
  import opened LedgerInvariant
  import opened BudgetLines

  /** Parent link of every category. */
  type Tree = map<CategoryId, Option<CategoryId>>

  // ---- The queries ----

  /** A CZK transaction of the year, with the half-open date range of the queries. */
  predicate CountsIn(t: Tables, id: int, year: int) {
    && id in t.rows && t.rows[id].raw in t.raws
    && var rt := t.raws[t.rows[id].raw];
       rt.currency == "CZK" && NotAfter(Date(year, 1, 1), rt.date) && !NotAfter(Date(year + 1, 1, 1), rt.date)
  }

  function Amount(t: Tables, id: int): int
    requires id in t.rows && t.rows[id].raw in t.raws
  {
    t.raws[t.rows[id].raw].amount
  }

  /** Mapping rows a transaction of the category joins through for one line. */
  function Feeding(b: Book, line: int, category: CategoryId): set<Mapping> {
    set m | m in b.mappings && m.line == line && m.category == category
  }

  /** The line's SUM over joined rows with id below `n`: one term for every mapping row joined. */
  function LineActual(t: Tables, b: Book, line: int, n: nat): int
    requires line in b.lines
  {
    if n == 0 then 0
    else
      LineActual(t, b, line, n - 1)
      + if CountsIn(t, n - 1, b.lines[line].year)
        then |Feeding(b, line, t.rows[n - 1].category)|
             * (if b.lines[line].kind == Income then Amount(t, n - 1) else -Amount(t, n - 1))
        else 0
  }

  predicate IsInternal(tree: Tree, category: CategoryId) {
    category == INTERNAL_TRANSFER || (category in tree && tree[category] == Some(INTERNAL_TRANSFER))
  }

  predicate Unbudgeted(t: Tables, b: Book, tree: Tree, year: int, id: int) {
    && CountsIn(t, id, year) && t.rows[id].category in tree
    && !IsInternal(tree, t.rows[id].category) && !Mapped(b, year, t.rows[id].category)
  }

  datatype Group = Group(category: CategoryId, direction: Direction)

  function GroupOf(row: Row): Group {
    Group(row.category, row.direction)
  }

  function Magnitude(a: int): nat {
    if a < 0 then -a else a
  }

  /** SUM(ABS(amount)) of one group. */
  function GroupTotal(t: Tables, b: Book, tree: Tree, year: int, g: Group, n: nat): nat {
    if n == 0 then 0
    else
      GroupTotal(t, b, tree, year, g, n - 1)
      + if Unbudgeted(t, b, tree, year, n - 1) && GroupOf(t.rows[n - 1]) == g then Magnitude(Amount(t, n - 1)) else 0
  }

  /** The rows of the unbudgeted query, in whatever order: one for each group that occurs. */
  ghost predicate UnbudgetedGroups(t: Tables, b: Book, tree: Tree, year: int, groups: seq<Group>) {
    && (forall i, j :: 0 <= i < j < |groups| ==> groups[i] != groups[j])
    && (forall g :: g in groups <==> exists id :: Unbudgeted(t, b, tree, year, id) && GroupOf(t.rows[id]) == g)
  }

  /** The lines of the year, in whatever order. */
  ghost predicate LinesOf(b: Book, year: int, lines: seq<int>) {
    && (forall i, j :: 0 <= i < j < |lines| ==> lines[i] != lines[j])
    && (forall id :: id in lines <==> From(b, year, id))
  }

  // ---- The page's figures ----

  /** Actual of the lines of one kind. */
  function KindActual(t: Tables, b: Book, lines: seq<int>, kind: Kind): int
    requires forall id :: id in lines ==> id in b.lines
  {
    if lines == [] then 0
    else
      var front, last := lines[..|lines| - 1], lines[|lines| - 1];
      assert last in lines && forall id :: id in front ==> id in lines;
      KindActual(t, b, front, kind) + (if b.lines[last].kind == kind then LineActual(t, b, last, t.nextRow) else 0)
  }

  function DirectionTotal(t: Tables, b: Book, tree: Tree, year: int, groups: seq<Group>, d: Direction): nat {
    if groups == [] then 0
    else
      var front, last := groups[..|groups| - 1], groups[|groups| - 1];
      DirectionTotal(t, b, tree, year, front, d) + (if last.direction == d then GroupTotal(t, b, tree, year, last, t.nextRow) else 0)
  }

  /** "Difference incl. unbudgeted". */
  function Difference(t: Tables, b: Book, tree: Tree, year: int, lines: seq<int>, groups: seq<Group>): int
    requires forall id :: id in lines ==> id in b.lines
  {
    KindActual(t, b, lines, Income) - KindActual(t, b, lines, Expense)
    + (DirectionTotal(t, b, tree, year, groups, Incoming) - DirectionTotal(t, b, tree, year, groups, Outgoing))
  }

  /** What should reconcile: the year's transactions, but for internal transfers no line maps. */
  predicate Reconciled(t: Tables, b: Book, tree: Tree, year: int, id: int) {
    CountsIn(t, id, year) && (Mapped(b, year, t.rows[id].category) || !IsInternal(tree, t.rows[id].category))
  }

  function SignedTotal(t: Tables, b: Book, tree: Tree, year: int, n: nat): int {
    if n == 0 then 0
    else SignedTotal(t, b, tree, year, n - 1) + (if Reconciled(t, b, tree, year, n - 1) then Amount(t, n - 1) else 0)
  }

  // ---- Lines: every mapped transaction counts once ----

  /** Number of ways a category joins through any of the lines. */
  function Shares(b: Book, lines: seq<int>, category: CategoryId): nat {
    if lines == [] then 0
    else Shares(b, lines[..|lines| - 1], category) + |Feeding(b, lines[|lines| - 1], category)|
  }

  function SharedTotal(t: Tables, b: Book, lines: seq<int>, year: int, n: nat): int {
    if n == 0 then 0
    else
      SharedTotal(t, b, lines, year, n - 1)
      + if CountsIn(t, n - 1, year) then Shares(b, lines, t.rows[n - 1].category) * Amount(t, n - 1) else 0
  }

  lemma Distribute(a: int, b: int, c: int)
    ensures (a + b) * c == a * c + b * c && a * -c == -(a * c)
  {
  }

  /** A line's actual, signed by its kind, is the amount through its mappings whatever the kind. */
  lemma {:induction false} SharedSplit(t: Tables, b: Book, lines: seq<int>, year: int, n: nat)
    requires lines != [] && From(b, year, lines[|lines| - 1])
    ensures var (front, last) := (lines[..|lines| - 1], lines[|lines| - 1]);
            SharedTotal(t, b, lines, year, n) == SharedTotal(t, b, front, year, n)
              + (if b.lines[last].kind == Income then LineActual(t, b, last, n) else -LineActual(t, b, last, n))
  {
    if n > 0 {
      SharedSplit(t, b, lines, year, n - 1);
      if CountsIn(t, n - 1, year) {
        var (front, last, category) := (lines[..|lines| - 1], lines[|lines| - 1], t.rows[n - 1].category);
        Distribute(Shares(b, front, category), |Feeding(b, last, category)|, Amount(t, n - 1));
        Distribute(0, |Feeding(b, last, category)|, Amount(t, n - 1));
      }
    }
  }

  lemma {:induction false} NoShares(t: Tables, b: Book, year: int, n: nat)
    ensures SharedTotal(t, b, [], year, n) == 0
  {
    if n > 0 {
      NoShares(t, b, year, n - 1);
    }
  }

  lemma {:induction false} KindsAreShares(t: Tables, b: Book, lines: seq<int>, year: int)
    requires forall id :: id in lines ==> id in b.lines && From(b, year, id)
    ensures KindActual(t, b, lines, Income) - KindActual(t, b, lines, Expense) == SharedTotal(t, b, lines, year, t.nextRow)
  {
    if lines == [] {
      NoShares(t, b, year, t.nextRow);
    } else {
      var front, last := lines[..|lines| - 1], lines[|lines| - 1];
      assert last in lines && forall id :: id in front ==> id in lines;
      KindsAreShares(t, b, front, year);
      SharedSplit(t, b, lines, year, t.nextRow);
    }
  }

  lemma FeedingIsOne(b: Book, year: int, line: int, category: CategoryId)
    requires BookOk(b) && From(b, year, line)
    ensures Feeding(b, line, category) == if Mapping(line, year, category) in b.mappings then {Mapping(line, year, category)} else {}
    ensures |Feeding(b, line, category)| == if Mapping(line, year, category) in b.mappings then 1 else 0
  {
    var one := Mapping(line, year, category);
    assert forall m :: m in Feeding(b, line, category) ==> m == one;
    assert Feeding(b, line, category) == if one in b.mappings then {one} else {};
  }

  /** One owner per category: all lines together join a category at most once. */
  lemma {:induction false} SharesExact(b: Book, year: int, lines: seq<int>, category: CategoryId)
    requires BookOk(b)
    requires (forall id :: id in lines ==> From(b, year, id)) && forall i, j :: 0 <= i < j < |lines| ==> lines[i] != lines[j]
    ensures Shares(b, lines, category) == if exists line :: line in lines && Mapping(line, year, category) in b.mappings then 1 else 0
  {
    if lines != [] {
      var front, last := lines[..|lines| - 1], lines[|lines| - 1];
      assert last in lines && forall id :: id in front ==> id in lines;
      SharesExact(b, year, front, category);
      FeedingIsOne(b, year, last, category);
      if line :| line in front && Mapping(line, year, category) in b.mappings {
        assert line != last;
        assert Mapping(last, year, category) !in b.mappings;
      }
    }
  }

  lemma MappedOnce(b: Book, year: int, lines: seq<int>, category: CategoryId)
    requires BookOk(b) && LinesOf(b, year, lines)
    ensures Shares(b, lines, category) == if Mapped(b, year, category) then 1 else 0
  {
    SharesExact(b, year, lines, category);
    if Mapped(b, year, category) {
      var m :| m in b.mappings && m.year == year && m.category == category;
      assert From(b, year, m.line) && m == Mapping(m.line, year, category);
    }
  }

  // ---- Unbudgeted rows: grouping loses nothing ----

  function Signed(g: Group, total: int): int {
    if g.direction == Incoming then total else -total
  }

  /** Signed sum over the rows that fall in one of the groups. */
  function GroupedTotal(t: Tables, b: Book, tree: Tree, year: int, groups: seq<Group>, n: nat): int {
    if n == 0 then 0
    else
      GroupedTotal(t, b, tree, year, groups, n - 1)
      + if Unbudgeted(t, b, tree, year, n - 1) && GroupOf(t.rows[n - 1]) in groups
        then Signed(GroupOf(t.rows[n - 1]), Magnitude(Amount(t, n - 1))) else 0
  }

  lemma {:induction false} GroupedSplit(t: Tables, b: Book, tree: Tree, year: int, groups: seq<Group>, n: nat)
    requires groups != [] && groups[|groups| - 1] !in groups[..|groups| - 1]
    ensures var (front, last) := (groups[..|groups| - 1], groups[|groups| - 1]);
            GroupedTotal(t, b, tree, year, groups, n)
            == GroupedTotal(t, b, tree, year, front, n) + Signed(last, GroupTotal(t, b, tree, year, last, n))
  {
    if n > 0 {
      GroupedSplit(t, b, tree, year, groups, n - 1);
      var front, last := groups[..|groups| - 1], groups[|groups| - 1];
      assert forall g :: g in groups <==> g in front || g == last;
    }
  }

  lemma {:induction false} NoGroups(t: Tables, b: Book, tree: Tree, year: int, n: nat)
    ensures GroupedTotal(t, b, tree, year, [], n) == 0
  {
    if n > 0 {
      NoGroups(t, b, tree, year, n - 1);
    }
  }

  lemma {:induction false} DirectionsAreGroups(t: Tables, b: Book, tree: Tree, year: int, groups: seq<Group>)
    requires forall i, j :: 0 <= i < j < |groups| ==> groups[i] != groups[j]
    ensures DirectionTotal(t, b, tree, year, groups, Incoming) - DirectionTotal(t, b, tree, year, groups, Outgoing)
            == GroupedTotal(t, b, tree, year, groups, t.nextRow)
  {
    if groups == [] {
      NoGroups(t, b, tree, year, t.nextRow);
    } else {
      DirectionsAreGroups(t, b, tree, year, groups[..|groups| - 1]);
      GroupedSplit(t, b, tree, year, groups, t.nextRow);
    }
  }

  // ---- Each figure on its own ----

  /** Number of ways a category joins through lines of one kind. */
  function SharesOf(b: Book, lines: seq<int>, kind: Kind, category: CategoryId): nat
    requires forall id :: id in lines ==> id in b.lines
  {
    if lines == [] then 0
    else
      var front, last := lines[..|lines| - 1], lines[|lines| - 1];
      assert last in lines && forall id :: id in front ==> id in lines;
      SharesOf(b, front, kind, category) + (if b.lines[last].kind == kind then |Feeding(b, last, category)| else 0)
  }

  /** The year's rows, each for every way it joins through lines of the kind, income positive. */
  function KindTotal(t: Tables, b: Book, lines: seq<int>, kind: Kind, year: int, n: nat): int
    requires forall id :: id in lines ==> id in b.lines
  {
    if n == 0 then 0
    else
      KindTotal(t, b, lines, kind, year, n - 1)
      + if CountsIn(t, n - 1, year)
        then SharesOf(b, lines, kind, t.rows[n - 1].category) * (if kind == Income then Amount(t, n - 1) else -Amount(t, n - 1)) else 0
  }

  lemma {:induction false} KindSplit(t: Tables, b: Book, lines: seq<int>, kind: Kind, year: int, n: nat)
    requires lines != [] && forall id :: id in lines ==> From(b, year, id)
    ensures var (front, last) := (lines[..|lines| - 1], lines[|lines| - 1]);
            && (forall id :: id in front ==> id in b.lines) && last in b.lines
            && KindTotal(t, b, lines, kind, year, n)
               == KindTotal(t, b, front, kind, year, n) + (if b.lines[last].kind == kind then LineActual(t, b, last, n) else 0)
  {
    var (front, last) := (lines[..|lines| - 1], lines[|lines| - 1]);
    assert last in lines && forall id :: id in front ==> id in lines;
    if n > 0 {
      KindSplit(t, b, lines, kind, year, n - 1);
      if CountsIn(t, n - 1, year) {
        var (category, a) := (t.rows[n - 1].category, if kind == Income then Amount(t, n - 1) else -Amount(t, n - 1));
        Distribute(SharesOf(b, front, kind, category), |Feeding(b, last, category)|, a);
      }
    }
  }

  lemma {:induction false} NoKind(t: Tables, b: Book, kind: Kind, year: int, n: nat)
    ensures KindTotal(t, b, [], kind, year, n) == 0
  {
    if n > 0 {
      NoKind(t, b, kind, year, n - 1);
    }
  }

  lemma {:induction false} KindIsTotal(t: Tables, b: Book, lines: seq<int>, kind: Kind, year: int)
    requires forall id :: id in lines ==> id in b.lines && From(b, year, id)
    ensures KindActual(t, b, lines, kind) == KindTotal(t, b, lines, kind, year, t.nextRow)
  {
    if lines == [] {
      NoKind(t, b, kind, year, t.nextRow);
    } else {
      var front := lines[..|lines| - 1];
      assert forall id :: id in front ==> id in lines;
      KindIsTotal(t, b, front, kind, year);
      KindSplit(t, b, lines, kind, year, t.nextRow);
    }
  }

  /** The lines of one kind join a category once if it is a line of that kind that owns it. */
  lemma {:induction false} SharesOfExact(b: Book, year: int, lines: seq<int>, kind: Kind, category: CategoryId)
    requires BookOk(b)
    requires (forall id :: id in lines ==> id in b.lines && From(b, year, id)) && forall i, j :: 0 <= i < j < |lines| ==> lines[i] != lines[j]
    ensures SharesOf(b, lines, kind, category)
            == if exists line :: line in lines && b.lines[line].kind == kind && Mapping(line, year, category) in b.mappings then 1 else 0
  {
    if lines != [] {
      var front, last := lines[..|lines| - 1], lines[|lines| - 1];
      assert last in lines && forall id :: id in front ==> id in lines;
      SharesOfExact(b, year, front, kind, category);
      FeedingIsOne(b, year, last, category);
      if line :| line in front && b.lines[line].kind == kind && Mapping(line, year, category) in b.mappings {
        assert line != last;
        assert Mapping(last, year, category) !in b.mappings;
      }
    }
  }

  /** The money of the year's CZK transactions whose category a line of the kind owns. */
  ghost function KindMoney(t: Tables, b: Book, year: int, kind: Kind, n: nat): int {
    if n == 0 then 0
    else
      KindMoney(t, b, year, kind, n - 1)
      + if && n - 1 in t.rows && t.rows[n - 1].raw in t.raws
           && t.raws[t.rows[n - 1].raw].currency == "CZK" && t.raws[t.rows[n - 1].raw].date.year == year
           && (exists line :: line in b.lines && b.lines[line].kind == kind && Mapping(line, year, t.rows[n - 1].category) in b.mappings)
        then (match kind case Income => t.raws[t.rows[n - 1].raw].amount case Expense => -t.raws[t.rows[n - 1].raw].amount)
        else 0
  }

  lemma {:induction false} TotalIsMoney(t: Tables, b: Book, year: int, lines: seq<int>, kind: Kind, n: nat)
    requires BookOk(b) && LinesOf(b, year, lines) && forall raw :: raw in t.raws ==> ValidDate(t.raws[raw].date)
    ensures KindTotal(t, b, lines, kind, year, n) == KindMoney(t, b, year, kind, n)
  {
    if n > 0 {
      TotalIsMoney(t, b, year, lines, kind, n - 1);
      if n - 1 in t.rows && t.rows[n - 1].raw in t.raws {
        CountsExact(t, n - 1, year);
        SharesOfExact(b, year, lines, kind, t.rows[n - 1].category);
      }
    }
  }

  /** Income actual and expense actual, each, is the money of the transactions its lines own. */
  lemma KindActualExact(t: Tables, b: Book, year: int, lines: seq<int>, kind: Kind)
    requires BookOk(b) && LinesOf(b, year, lines) && forall raw :: raw in t.raws ==> ValidDate(t.raws[raw].date)
    ensures KindActual(t, b, lines, kind) == KindMoney(t, b, year, kind, t.nextRow)
  {
    KindIsTotal(t, b, lines, kind, year);
    TotalIsMoney(t, b, year, lines, kind, t.nextRow);
  }

  /** The money of the unbudgeted rows of one direction. */
  ghost function DirectionMoney(t: Tables, b: Book, tree: Tree, year: int, groups: seq<Group>, d: Direction, n: nat): nat {
    if n == 0 then 0
    else
      DirectionMoney(t, b, tree, year, groups, d, n - 1)
      + if Unbudgeted(t, b, tree, year, n - 1) && t.rows[n - 1].direction == d && GroupOf(t.rows[n - 1]) in groups
        then (if Amount(t, n - 1) < 0 then -Amount(t, n - 1) else Amount(t, n - 1)) else 0
  }

  lemma {:induction false} DirectionSplit(t: Tables, b: Book, tree: Tree, year: int, groups: seq<Group>, d: Direction, n: nat)
    requires groups != [] && groups[|groups| - 1] !in groups[..|groups| - 1]
    ensures var (front, last) := (groups[..|groups| - 1], groups[|groups| - 1]);
            DirectionMoney(t, b, tree, year, groups, d, n)
            == DirectionMoney(t, b, tree, year, front, d, n) + (if last.direction == d then GroupTotal(t, b, tree, year, last, n) else 0)
  {
    if n > 0 {
      DirectionSplit(t, b, tree, year, groups, d, n - 1);
      var front, last := groups[..|groups| - 1], groups[|groups| - 1];
      assert forall g :: g in groups <==> g in front || g == last;
    }
  }

  lemma {:induction false} NoMoney(t: Tables, b: Book, tree: Tree, year: int, d: Direction, n: nat)
    ensures DirectionMoney(t, b, tree, year, [], d, n) == 0
  {
    if n > 0 {
      NoMoney(t, b, tree, year, d, n - 1);
    }
  }

  /** Unbudgeted incoming and unbudgeted outgoing, each, is the money of its rows. */
  lemma {:induction false} DirectionTotalExact(t: Tables, b: Book, tree: Tree, year: int, groups: seq<Group>, d: Direction)
    requires forall i, j :: 0 <= i < j < |groups| ==> groups[i] != groups[j]
    ensures DirectionTotal(t, b, tree, year, groups, d) == DirectionMoney(t, b, tree, year, groups, d, t.nextRow)
  {
    if groups == [] {
      NoMoney(t, b, tree, year, d, t.nextRow);
    } else {
      DirectionTotalExact(t, b, tree, year, groups[..|groups| - 1], d);
      DirectionSplit(t, b, tree, year, groups, d, t.nextRow);
    }
  }

  // ---- Reconciliation ----

  lemma {:induction false} TotalsAddUp(t: Tables, b: Book, tree: Tree, year: int, lines: seq<int>, groups: seq<Group>, n: nat)
    requires RowsOk(t) && BookOk(b) && LinesOf(b, year, lines) && UnbudgetedGroups(t, b, tree, year, groups)
    requires forall id :: id in t.rows ==> t.rows[id].category in tree
    ensures SharedTotal(t, b, lines, year, n) + GroupedTotal(t, b, tree, year, groups, n) == SignedTotal(t, b, tree, year, n)
  {
    if n > 0 {
      TotalsAddUp(t, b, tree, year, lines, groups, n - 1);
      if CountsIn(t, n - 1, year) {
        var row := t.rows[n - 1];
        MappedOnce(b, year, lines, row.category);
        assert row.direction == DirectionOf(Amount(t, n - 1));
      }
    }
  }

  /** Income actuals less expense actuals, plus unbudgeted incoming less unbudgeted outgoing,
      is the signed sum of the year's CZK transactions, leaving out only internal
      transfers that no line maps: nothing is dropped and nothing counts twice. */
  lemma BudgetReconciles(t: Tables, b: Book, tree: Tree, year: int, lines: seq<int>, groups: seq<Group>)
    requires RowsOk(t) && BookOk(b) && LinesOf(b, year, lines) && UnbudgetedGroups(t, b, tree, year, groups)
    requires forall id :: id in t.rows ==> t.rows[id].category in tree
    ensures Difference(t, b, tree, year, lines, groups) == SignedTotal(t, b, tree, year, t.nextRow)
  {
    KindsAreShares(t, b, lines, year);
    DirectionsAreGroups(t, b, tree, year, groups);
    TotalsAddUp(t, b, tree, year, lines, groups, t.nextRow);
  }

  /** A row the bottom figure has to account for: a CZK transaction booked in the year whose category a
      line of the year maps, or that is neither the internal transfer category nor a child of it. */
  ghost predicate Accountable(t: Tables, b: Book, tree: Tree, year: int, id: int) {
    && id in t.rows && t.rows[id].raw in t.raws
    && t.raws[t.rows[id].raw].currency == "CZK" && t.raws[t.rows[id].raw].date.year == year
    && var category := t.rows[id].category;
       || (exists line :: line in b.lines && Mapping(line, year, category) in b.mappings)
       || (category != INTERNAL_TRANSFER && (category in tree ==> tree[category] != Some(INTERNAL_TRANSFER)))
  }

  ghost function YearsMoney(t: Tables, b: Book, tree: Tree, year: int, n: nat): int {
    if n == 0 then 0
    else YearsMoney(t, b, tree, year, n - 1) + (if Accountable(t, b, tree, year, n - 1) then t.raws[t.rows[n - 1].raw].amount else 0)
  }

  lemma CountsExact(t: Tables, id: int, year: int)
    requires id in t.rows && t.rows[id].raw in t.raws && ValidDate(t.raws[t.rows[id].raw].date)
    ensures CountsIn(t, id, year) <==> t.raws[t.rows[id].raw].currency == "CZK" && t.raws[t.rows[id].raw].date.year == year
  {
  }

  lemma {:induction false} SignedIsYearsMoney(t: Tables, b: Book, tree: Tree, year: int, n: nat)
    requires BookOk(b) && forall raw :: raw in t.raws ==> ValidDate(t.raws[raw].date)
    ensures SignedTotal(t, b, tree, year, n) == YearsMoney(t, b, tree, year, n)
  {
    if n > 0 {
      SignedIsYearsMoney(t, b, tree, year, n - 1);
      if n - 1 in t.rows && t.rows[n - 1].raw in t.raws {
        CountsExact(t, n - 1, year);
        if m :| m in b.mappings && m.year == year && m.category == t.rows[n - 1].category {
          assert Mapping(m.line, year, m.category) == m;
        }
      }
    }
  }

  /** The same, read off the transactions themselves. */
  lemma BudgetIsYearsMoney(t: Tables, b: Book, tree: Tree, year: int, lines: seq<int>, groups: seq<Group>)
    requires RowsOk(t) && BookOk(b) && LinesOf(b, year, lines) && UnbudgetedGroups(t, b, tree, year, groups)
    requires forall id :: id in t.rows ==> t.rows[id].category in tree
    requires forall raw :: raw in t.raws ==> ValidDate(t.raws[raw].date)
    ensures Difference(t, b, tree, year, lines, groups) == YearsMoney(t, b, tree, year, t.nextRow)
  {
    BudgetReconciles(t, b, tree, year, lines, groups);
    SignedIsYearsMoney(t, b, tree, year, t.nextRow);
  }

  ghost predicate SameInternal(b: Book, b': Book, tree: Tree, year: int) {
    forall category :: IsInternal(tree, category) ==> (Mapped(b, year, category) <==> Mapped(b', year, category))
  }

  /** However the year's lines are edited, the bottom figure moves only if an internal
      transfer category gains or loses its line. */
  lemma BottomFigureIgnoresBudget(
    t: Tables, b: Book, b': Book, tree: Tree, year: int, lines: seq<int>, lines': seq<int>, groups: seq<Group>, groups': seq<Group>)
    requires RowsOk(t) && forall id :: id in t.rows ==> t.rows[id].category in tree
    requires BookOk(b) && LinesOf(b, year, lines) && UnbudgetedGroups(t, b, tree, year, groups)
    requires BookOk(b') && LinesOf(b', year, lines') && UnbudgetedGroups(t, b', tree, year, groups')
    requires SameInternal(b, b', tree, year)
    ensures Difference(t, b, tree, year, lines, groups) == Difference(t, b', tree, year, lines', groups')
  {
    BudgetReconciles(t, b, tree, year, lines, groups);
    BudgetReconciles(t, b', tree, year, lines', groups');
    SameSignedTotal(t, b, b', tree, year, t.nextRow);
  }

  lemma {:induction false} SameSignedTotal(t: Tables, b: Book, b': Book, tree: Tree, year: int, n: nat)
    requires SameInternal(b, b', tree, year)
    ensures SignedTotal(t, b, tree, year, n) == SignedTotal(t, b', tree, year, n)
  {
    if n > 0 {
      SameSignedTotal(t, b, b', tree, year, n - 1);
    }
  }

  // ---- Closed years stay closed ----

  /** The request's from date, as its text parses. */
  datatype FromText = Empty | Unparsable | Parsed(date: Date)

  datatype FromDate = Rejected | Start(date: Date)

  function StartOfCurrentYear(today: Date): Date {
    Date(today.year, 1, 1)
  }

  function ReapplyFromDate(text: FromText, today: Date, override: bool): FromDate {
    match text
    case Empty => Start(StartOfCurrentYear(today))
    case Unparsable => Rejected
    case Parsed(date) =>
      if !NotAfter(StartOfCurrentYear(today), date) && !override then Rejected else Start(date)
  }

  /** Which from dates a request gets: the first of January by default and at the earliest, any parsed
      date with override-rules. */
  lemma FromDateExact(text: FromText, today: Date, override: bool, from: Date)
    requires ValidDate(today) && (text.Parsed? ==> ValidDate(text.date))
    ensures ReapplyFromDate(text, today, override) == Start(from) <==>
              match text
              case Empty => from == Date(today.year, 1, 1)
              case Unparsable => false
              case Parsed(date) => from == date && (override || today.year <= date.year)
  {
  }

  /** The year counts the same rows as before, in the same groups; other rows may come and change. */
  ghost predicate YearUntouched(t: Tables, t': Tables, year: int) {
    && t.nextRow <= t'.nextRow
    && (forall raw :: raw in t.raws ==> raw in t'.raws && t'.raws[raw] == t.raws[raw])
    && (forall id :: id in t.rows ==> id in t'.rows && t'.rows[id].raw == t.rows[id].raw)
    && (forall id :: CountsIn(t', id, year) <==> CountsIn(t, id, year))
    && (forall id :: CountsIn(t, id, year) ==> GroupOf(t'.rows[id]) == GroupOf(t.rows[id]))
  }

  lemma {:induction false} SameLineActual(t: Tables, t': Tables, b: Book, line: int, n: nat)
    requires line in b.lines && YearUntouched(t, t', b.lines[line].year)
    ensures LineActual(t', b, line, n) == LineActual(t, b, line, n)
  {
    if n > 0 {
      SameLineActual(t, t', b, line, n - 1);
      assert CountsIn(t', n - 1, b.lines[line].year) == CountsIn(t, n - 1, b.lines[line].year);
    }
  }

  lemma {:induction false} SameGroupTotal(t: Tables, t': Tables, b: Book, tree: Tree, year: int, g: Group, n: nat)
    requires YearUntouched(t, t', year)
    ensures GroupTotal(t', b, tree, year, g, n) == GroupTotal(t, b, tree, year, g, n)
  {
    if n > 0 {
      SameGroupTotal(t, t', b, tree, year, g, n - 1);
      assert CountsIn(t', n - 1, year) == CountsIn(t, n - 1, year);
    }
  }

  lemma NotAfterTransitive(a: Date, b: Date, c: Date)
    requires NotAfter(a, b) && NotAfter(b, c)
    ensures NotAfter(a, c)
  {
  }

  /** One write for a row dated in the current year or later touches no closed year, whatever
      was decided and whatever else has happened since the row was listed. */
  lemma WriteKeepsClosedYears(t: Tables, c: Candidate, o: Outcome, fault: Fault, start: Date, year: int)
    requires c.id in t.rows ==> t.rows[c.id].raw in t.raws && NotAfter(start, t.raws[t.rows[c.id].raw].date)
    requires NotAfter(Date(year + 1, 1, 1), start)
    ensures YearUntouched(t, WriteChange(t, c, o, fault), year)
  {
    if c.id in t.rows {
      NotAfterTransitive(Date(year + 1, 1, 1), start, t.raws[t.rows[c.id].raw].date);
    }
  }

  lemma {:induction false} ReapplyRowsKeepClosedYears(
    t: Tables, job: Job, cs: seq<Candidate>, faults: map<int, Fault>, start: Date, year: int)
    requires NotAfter(Date(year + 1, 1, 1), start)
    requires forall c :: c in cs ==> c.id in t.rows && t.rows[c.id].raw in t.raws && NotAfter(start, t.raws[t.rows[c.id].raw].date)
    ensures YearUntouched(t, ReapplyRows(t, job, cs, faults).tables, year)
    ensures ReapplyRows(t, job, cs, faults).tables.nextRow == t.nextRow
  {
    if cs != [] {
      var front, c := cs[..|cs| - 1], cs[|cs| - 1];
      assert c in cs && forall d :: d in front ==> d in cs;
      ReapplyRowsKeepClosedYears(t, job, front, faults, start, year);
      var before := ReapplyRows(t, job, front, faults).tables;
      var fault := FaultAt(faults, c.id);
      ReapplyIsDecideThenWrite(before, job, c, fault);
      if ReapplyDecision(before, job, c, fault).Matched? {
        WriteKeepsClosedYears(before, c, ReapplyDecision(before, job, c, fault).outcome, fault, start, year);
      }
      assert forall id :: CountsIn(t, id, year) ==> CountsIn(before, id, year);
    }
  }

  /** A re-apply without override-rules moves no line actual, and no unbudgeted total, of any
      budget year before the current one. */
  lemma ClosedYearsStayClosed(
    t: Tables, rule: int, text: FromText, today: Date, faults: map<int, Fault>, b: Book, tree: Tree, year: int)
    requires ReapplyFromDate(text, today, false).Start? && year < today.year
    requires ReapplyAll(t, rule, ReapplyFromDate(text, today, false).date, faults).Reapplied?
    ensures var t' := ReapplyAll(t, rule, ReapplyFromDate(text, today, false).date, faults).progress.tables;
            && (forall line :: From(b, year, line) ==> LineActual(t', b, line, t'.nextRow) == LineActual(t, b, line, t.nextRow))
            && (forall g :: GroupTotal(t', b, tree, year, g, t'.nextRow) == GroupTotal(t, b, tree, year, g, t.nextRow))
            && (forall groups :: UnbudgetedGroups(t', b, tree, year, groups) <==> UnbudgetedGroups(t, b, tree, year, groups))
  {
    var start := ReapplyFromDate(text, today, false).date;
    var t' := ReapplyAll(t, rule, start, faults).progress.tables;
    CandidatesExact(t, t.nextRow, start);
    assert NotAfter(Date(year + 1, 1, 1), start);
    ReapplyRowsKeepClosedYears(t, JobFor(t, rule), CandidatesBelow(t, t.nextRow, start), faults, start, year);
    forall line | From(b, year, line) ensures LineActual(t', b, line, t'.nextRow) == LineActual(t, b, line, t.nextRow) {
      SameLineActual(t, t', b, line, t.nextRow);
    }
    forall g ensures GroupTotal(t', b, tree, year, g, t'.nextRow) == GroupTotal(t, b, tree, year, g, t.nextRow) {
      SameGroupTotal(t, t', b, tree, year, g, t.nextRow);
    }
    assert forall id :: Unbudgeted(t', b, tree, year, id) == Unbudgeted(t, b, tree, year, id);
  }
}
