/** The category tree: creating and deleting categories, and the summary rolled up over it. */
module Categories {
  import opened Options
  import opened Calendar
  import opened Categorization
  import opened Ledger
  import BudgetLines
  import BudgetReport

  datatype Category = Category(name: string, mandatory: bool, parent: Option<CategoryId>)

  type Catalog = map<CategoryId, Category>

  const NAME_MAX_LENGTH := 64

  datatype Reply = Refused | Missing | Conflict | Error | Done

  // ---- The two handlers, statement by statement ----

  predicate NameTaken(c: Catalog, name: string) {
    exists id :: id in c && c[id].name == name
  }

  predicate HasChildren(c: Catalog, id: CategoryId) {
    exists child :: child in c && c[child].parent == Some(id)
  }

  /** The checks before the insert: a parent must exist and be top-level. */
  predicate Creatable(c: Catalog, name: string, parent: Option<CategoryId>) {
    && 0 < |name| <= NAME_MAX_LENGTH
    && (parent.Some? ==> parent.value in c && c[parent.value].parent.None?)
  }

  /** The insert: unique name, and the foreign key of the parent. */
  function Insert(c: Catalog, id: CategoryId, name: string, parent: Option<CategoryId>): (Reply, Catalog) {
    if NameTaken(c, name) then (Conflict, c)
    else if parent.Some? && parent.value !in c then (Error, c)
    else (Done, c[id := Category(name, false, parent)])
  }

  /** A transaction, a rule or a budget line refers to the category. */
  predicate Used(t: Tables, b: BudgetLines.Book, id: CategoryId) {
    || (exists row :: row in t.rows && t.rows[row].category == id)
    || (exists rule :: rule in t.rules && t.rules[rule].category == id)
    || (exists m :: m in b.mappings && m.category == id)
  }

  /** The delete, with the referring tables as they are at that moment: its own guard, and the foreign keys. */
  function Remove(c: Catalog, id: CategoryId, t: Tables, b: BudgetLines.Book): (Reply, Catalog) {
    if id !in c || c[id].mandatory then (Missing, c)
    else if HasChildren(c, id) || Used(t, b, id) then (Conflict, c)
    else (Done, map other | other in c && other != id :: c[other])
  }

  class CategoryDesk {
    var catalog: Catalog
    /** Generated ids never repeat. */
    var nextId: nat

    constructor ()
      ensures catalog == SEEDED && nextId == FIRST_FREE
    {
      catalog, nextId := SEEDED, FIRST_FREE;
    }

    /** With nothing in between, the check and the insert keep the tree one level deep. */
    method CreateCategory(name: string, parent: Option<CategoryId>) returns (reply: Reply)
      modifies this
      ensures if Creatable(old(catalog), name, parent)
              then (reply, catalog) == Insert(old(catalog), old(nextId), name, parent)
              else reply == Refused && catalog == old(catalog)
      ensures nextId == old(nextId) + (if reply == Done then 1 else 0)
      ensures reply != Error
    {
      if name == "" || |name| > NAME_MAX_LENGTH {
        return Refused;
      }
      if parent.Some? {
        if parent.value !in catalog {
          return Refused;
        }
        if catalog[parent.value].parent.Some? {
          return Refused;
        }
      }
      if NameTaken(catalog, name) {
        return Conflict;
      }
      catalog, nextId := catalog[nextId := Category(name, false, parent)], nextId + 1;
      reply := Done;
    }

    method DeleteCategory(id: CategoryId, t: Tables, b: BudgetLines.Book) returns (reply: Reply)
      modifies this`catalog
      ensures catalog == Remove(old(catalog), id, t, b).1
      ensures reply == if id in old(catalog) && old(catalog)[id].mandatory then Refused else Remove(old(catalog), id, t, b).0
    {
      if id !in catalog {
        return Missing;
      }
      if catalog[id].mandatory {
        return Refused;
      }
      if HasChildren(catalog, id) {
        return Conflict;
      }
      if Used(t, b, id) {
        return Conflict;
      }
      catalog := map other | other in catalog && other != id :: catalog[other];
      reply := Done;
    }
  }

  // ---- The tree under interleaved requests ----

  /** The six mandatory categories, with ids 1 to 6. */
  function MandatoryName(id: nat): string {
    if id == MEMBERSHIP_FEE then "membership_fee"
    else if id == SALARY then "salary"
    else if id == OTHER_INCOME then "other_income"
    else if id == OTHER_EXPENSE then "other_expense"
    else if id == INTERNAL_TRANSFER then "internal_transfer"
    else "credited_interest"
  }

  const SEEDED: Catalog := map id: nat | 1 <= id < FIRST_FREE :: Category(MandatoryName(id), true, None)

  const FIRST_FREE: nat := 7

  /** A create request between its checks and its insert. */
  datatype Pending = Pending(name: string, parent: Option<CategoryId>)

  datatype Desk = Desk(catalog: Catalog, nextId: nat, pending: seq<Pending>)

  datatype Request =
    | Check(name: string, parent: Option<CategoryId>)
    | Write(i: nat)
    | Delete(id: CategoryId, t: Tables, b: BudgetLines.Book)

  function Next(d: Desk, r: Request): Desk {
    match r
    case Check(name, parent) =>
      if Creatable(d.catalog, name, parent) then d.(pending := d.pending + [Pending(name, parent)]) else d
    case Write(i) =>
      if i < |d.pending| then
        var p := d.pending[i];
        var (reply, catalog) := Insert(d.catalog, d.nextId, p.name, p.parent);
        Desk(catalog, d.nextId + 1, d.pending[..i] + d.pending[i + 1..])
      else d
    case Delete(id, t, b) => d.(catalog := Remove(d.catalog, id, t, b).1)
  }

  function Execute(d: Desk, requests: seq<Request>): Desk {
    if requests == [] then d else Next(Execute(d, requests[..|requests| - 1]), requests[|requests| - 1])
  }

  ghost predicate OneLevel(c: Catalog) {
    forall id :: id in c && c[id].parent.Some? ==> c[id].parent.value in c && c[c[id].parent.value].parent.None?
  }

  ghost predicate MandatoryKept(before: Catalog, c: Catalog) {
    forall id :: id in before && before[id].mandatory ==> id in c && c[id] == before[id]
  }

  ghost predicate DeskOk(d: Desk) {
    && OneLevel(d.catalog)
    && (forall id :: id in d.catalog ==> id < d.nextId)
    && (forall a, b :: a in d.catalog && b in d.catalog && d.catalog[a].name == d.catalog[b].name ==> a == b)
    && (forall i :: 0 <= i < |d.pending| ==> PendingOk(d, d.pending[i]))
  }

  /** Until its insert a request's parent stays top-level or disappears: parents are never
      changed, and ids never come back. */
  ghost predicate PendingOk(d: Desk, p: Pending) {
    p.parent.Some? ==>
      p.parent.value < d.nextId && (p.parent.value in d.catalog ==> d.catalog[p.parent.value].parent.None?)
  }

  lemma DeleteKeeps(d: Desk, id: CategoryId, t: Tables, b: BudgetLines.Book)
    requires DeskOk(d)
    ensures DeskOk(Next(d, Delete(id, t, b))) && MandatoryKept(d.catalog, Next(d, Delete(id, t, b)).catalog)
  {
    var d' := Next(d, Delete(id, t, b));
    assert forall other :: other in d'.catalog ==> other in d.catalog && d'.catalog[other] == d.catalog[other];
    forall i | 0 <= i < |d'.pending| ensures PendingOk(d', d'.pending[i]) {
      assert PendingOk(d, d.pending[i]);
    }
    if d'.catalog != d.catalog {
      forall other | other in d'.catalog && d'.catalog[other].parent.Some? ensures d'.catalog[other].parent.value in d'.catalog {
        assert d.catalog[other].parent != Some(id);
      }
    }
  }

  lemma WriteKeeps(d: Desk, i: nat)
    requires DeskOk(d) && i < |d.pending|
    ensures DeskOk(Next(d, Write(i))) && MandatoryKept(d.catalog, Next(d, Write(i)).catalog)
  {
    assert PendingOk(d, d.pending[i]);
    var d' := Next(d, Write(i));
    assert d.nextId !in d.catalog;
    forall k | 0 <= k < |d'.pending| ensures PendingOk(d', d'.pending[k]) {
      assert PendingOk(d, d.pending[if k < i then k else k + 1]);
    }
  }

  lemma NextKeeps(d: Desk, r: Request)
    requires DeskOk(d)
    ensures DeskOk(Next(d, r)) && MandatoryKept(d.catalog, Next(d, r).catalog)
  {
    match r
    case Check(name, parent) =>
      forall i | 0 <= i < |Next(d, r).pending| ensures PendingOk(Next(d, r), Next(d, r).pending[i]) {
        if i < |d.pending| {
          assert PendingOk(d, d.pending[i]);
        }
      }
    case Delete(id, t, b) => DeleteKeeps(d, id, t, b);
    case Write(i) =>
      if i < |d.pending| {
        WriteKeeps(d, i);
      }
  }

  /** Over every interleaving of create and delete requests the tree stays one level deep,
      names stay unique, and mandatory categories stay as they are. */
  lemma {:induction false} TreeStaysOneLevel(start: Desk, requests: seq<Request>)
    requires DeskOk(start)
    ensures DeskOk(Execute(start, requests)) && MandatoryKept(start.catalog, Execute(start, requests).catalog)
  {
    if requests != [] {
      TreeStaysOneLevel(start, requests[..|requests| - 1]);
      NextKeeps(Execute(start, requests[..|requests| - 1]), requests[|requests| - 1]);
    }
  }

  /** From the seeded categories on. */
  lemma SeededTreeStaysOneLevel(requests: seq<Request>)
    ensures var c := Execute(Desk(SEEDED, FIRST_FREE, []), requests).catalog;
            && OneLevel(c)
            && (forall x, y :: x in c && y in c && c[x].name == c[y].name ==> x == y)
            && (forall id: nat :: 1 <= id < FIRST_FREE ==> id in c && c[id] == Category(MandatoryName(id), true, None))
            && c[1].name == "membership_fee" && c[2].name == "salary" && c[3].name == "other_income"
            && c[4].name == "other_expense" && c[5].name == "internal_transfer" && c[6].name == "credited_interest"
  {
    SeededIsOk();
    TreeStaysOneLevel(Desk(SEEDED, FIRST_FREE, []), requests);
    forall id: nat | 1 <= id < FIRST_FREE ensures id in SEEDED && SEEDED[id].mandatory {
    }
  }

  lemma SeededIsOk()
    ensures DeskOk(Desk(SEEDED, FIRST_FREE, []))
  {
    forall a: nat, b: nat | 1 <= a < b < FIRST_FREE ensures MandatoryName(a) != MandatoryName(b) {
      assert |MandatoryName(a)| != |MandatoryName(b)| || MandatoryName(a)[0] != MandatoryName(b)[0];
    }
  }

  /** What a create stores, and when it goes through. */
  lemma CreateExact(c: Catalog, id: CategoryId, name: string, parent: Option<CategoryId>)
    ensures var (reply, c') := Insert(c, id, name, parent);
            && (Creatable(c, name, parent) <==>
                  && name != "" && |name| <= 64
                  && (parent == None || (parent.value in c && c[parent.value].parent == None)))
            && reply == (if exists other :: other in c && c[other].name == name then Conflict
                         else if parent == None || parent.value in c then Done
                         else Error)
            && c' == if reply == Done then c[id := Category(name, false, parent)] else c
  {
  }

  lemma DeleteExact(c: Catalog, id: CategoryId, t: Tables, b: BudgetLines.Book)
    ensures var (reply, c') := Remove(c, id, t, b);
            && reply == (if id !in c || c[id].mandatory then Missing
                         else if (exists child :: child in c && c[child].parent == Some(id)) || Used(t, b, id) then Conflict
                         else Done)
            && c' == if reply == Done then c - {id} else c
  {
    var c' := Remove(c, id, t, b).1;
    assert Remove(c, id, t, b).0 == Done ==> c' == c - {id};
  }

  /** A category disappears exactly when it is deleted while custom, childless and unused. */
  lemma StepKeepsCategory(d: Desk, r: Request, id: CategoryId)
    requires DeskOk(d) && id in d.catalog
    ensures var c := Next(d, r).catalog;
            && (id in c ==> c[id] == d.catalog[id])
            && (id !in c <==>
                  && r.Delete? && r.id == id && !d.catalog[id].mandatory
                  && (forall child :: child in d.catalog ==> d.catalog[child].parent != Some(id))
                  && (forall row :: row in r.t.rows ==> r.t.rows[row].category != id)
                  && (forall rule :: rule in r.t.rules ==> r.t.rules[rule].category != id)
                  && (forall m :: m in r.b.mappings ==> m.category != id))
  {
    if r.Delete? && Used(r.t, r.b, r.id) {
      assert Next(d, r).catalog == d.catalog;
    }
  }

  /** A category appears exactly when a checked request inserts it: under its name, which is free, and
      under its parent, which is still there. */
  lemma StepAddsCategory(d: Desk, r: Request, id: CategoryId)
    requires DeskOk(d) && id !in d.catalog
    ensures id in Next(d, r).catalog <==>
              && r.Write? && r.i < |d.pending| && id == d.nextId
              && (forall other :: other in d.catalog ==> d.catalog[other].name != d.pending[r.i].name)
              && (d.pending[r.i].parent == None || d.pending[r.i].parent.value in d.catalog)
    ensures id in Next(d, r).catalog ==> Next(d, r).catalog[id] == Category(d.pending[r.i].name, false, d.pending[r.i].parent)
    ensures forall p :: p in Next(d, r).pending ==> p in d.pending || r == Check(p.name, p.parent)
    ensures r.Check? && Creatable(d.catalog, r.name, r.parent) ==> Pending(r.name, r.parent) in Next(d, r).pending
  {
  }

  /** A category keeps its name and its parent as long as it is there; and ids never come back. */
  lemma {:induction false} CategoryStays(start: Desk, requests: seq<Request>, id: CategoryId)
    requires DeskOk(start) && id < start.nextId
    ensures var c := Execute(start, requests).catalog; id in c ==> id in start.catalog && c[id] == start.catalog[id]
    ensures start.nextId <= Execute(start, requests).nextId
  {
    if requests != [] {
      var front := requests[..|requests| - 1];
      CategoryStays(start, front, id);
      TreeStaysOneLevel(start, front);
      if id in Execute(start, front).catalog {
        StepKeepsCategory(Execute(start, front), requests[|requests| - 1], id);
      }
    }
  }

  // ---- The summary, plain and rolled up ----

  datatype Range = Range(from: Option<Date>, to: Option<Date>)

  function TreeOf(c: Catalog): BudgetReport.Tree {
    map id | id in c :: c[id].parent
  }

  /** The category a row is reported under. */
  function Shown(c: Catalog, category: CategoryId, rollup: bool): CategoryId
    requires category in c
  {
    if rollup && c[category].parent.Some? then c[category].parent.value else category
  }

  /** Joins and WHERE clause of the summary: the category shown must exist as well. */
  predicate Summed(t: Tables, c: Catalog, range: Range, rollup: bool, id: int) {
    && id in t.rows && t.rows[id].raw in t.raws
    && t.rows[id].category in c && Shown(c, t.rows[id].category, rollup) in c
    && !BudgetReport.IsInternal(TreeOf(c), t.rows[id].category)
    && (range.from.Some? ==> NotAfter(range.from.value, t.raws[t.rows[id].raw].date))
    && (range.to.Some? ==> NotAfter(t.raws[t.rows[id].raw].date, range.to.value))
  }

  /** A direction and currency, within which the summary lists categories. */
  datatype Bucket = Bucket(direction: Direction, currency: string)

  predicate InBucket(t: Tables, c: Catalog, range: Range, rollup: bool, bucket: Bucket, id: int) {
    && Summed(t, c, range, rollup, id)
    && t.rows[id].direction == bucket.direction && t.raws[t.rows[id].raw].currency == bucket.currency
  }

  /** SUM(ABS(amount)) of one summary row. */
  function Total(t: Tables, c: Catalog, range: Range, rollup: bool, bucket: Bucket, category: CategoryId, n: nat): nat {
    if n == 0 then 0
    else
      Total(t, c, range, rollup, bucket, category, n - 1)
      + if InBucket(t, c, range, rollup, bucket, n - 1) && Shown(c, t.rows[n - 1].category, rollup) == category
        then BudgetReport.Magnitude(BudgetReport.Amount(t, n - 1)) else 0
  }

  /** The same sum, read off the transactions: the category's rows of the direction, currency and period,
      internal transfers and their sub-categories left out. */
  ghost function CategoryMoney(t: Tables, c: Catalog, range: Range, bucket: Bucket, category: CategoryId, n: nat): nat {
    if n == 0 then 0
    else
      CategoryMoney(t, c, range, bucket, category, n - 1)
      + if n - 1 in t.rows && t.rows[n - 1].raw in t.raws && t.rows[n - 1].category == category then
          var (row, rt) := (t.rows[n - 1], t.raws[t.rows[n - 1].raw]);
          if && row.direction == bucket.direction && rt.currency == bucket.currency
             && category in c && category != INTERNAL_TRANSFER && c[category].parent != Some(INTERNAL_TRANSFER)
             && (range.from == None || NotAfter(range.from.value, rt.date)) && (range.to == None || NotAfter(rt.date, range.to.value))
          then (if rt.amount < 0 then -rt.amount else rt.amount) else 0
        else 0
  }

  lemma {:induction false} PlainTotalExact(t: Tables, c: Catalog, range: Range, bucket: Bucket, category: CategoryId, n: nat)
    ensures Total(t, c, range, false, bucket, category, n) == CategoryMoney(t, c, range, bucket, category, n)
  {
    if n > 0 {
      PlainTotalExact(t, c, range, bucket, category, n - 1);
    }
  }

  function TotalOf(t: Tables, c: Catalog, range: Range, rollup: bool, bucket: Bucket, categories: seq<CategoryId>): nat {
    if categories == [] then 0
    else
      TotalOf(t, c, range, rollup, bucket, categories[..|categories| - 1])
      + Total(t, c, range, rollup, bucket, categories[|categories| - 1], t.nextRow)
  }

  /** The same sum taken row by row. */
  function RowTotal(t: Tables, c: Catalog, range: Range, rollup: bool, bucket: Bucket, categories: seq<CategoryId>, n: nat): nat {
    if n == 0 then 0
    else
      RowTotal(t, c, range, rollup, bucket, categories, n - 1)
      + if InBucket(t, c, range, rollup, bucket, n - 1) && Shown(c, t.rows[n - 1].category, rollup) in categories
        then BudgetReport.Magnitude(BudgetReport.Amount(t, n - 1)) else 0
  }

  ghost predicate Distinct(categories: seq<CategoryId>) {
    forall i, j :: 0 <= i < j < |categories| ==> categories[i] != categories[j]
  }

  lemma {:induction false} RowTotalSplit(
    t: Tables, c: Catalog, range: Range, rollup: bool, bucket: Bucket, categories: seq<CategoryId>, n: nat)
    requires categories != [] && Distinct(categories)
    ensures var (front, last) := (categories[..|categories| - 1], categories[|categories| - 1]);
            RowTotal(t, c, range, rollup, bucket, categories, n)
            == RowTotal(t, c, range, rollup, bucket, front, n) + Total(t, c, range, rollup, bucket, last, n)
  {
    if n > 0 {
      RowTotalSplit(t, c, range, rollup, bucket, categories, n - 1);
      var front, last := categories[..|categories| - 1], categories[|categories| - 1];
      assert last !in front && forall category :: category in categories <==> category in front || category == last;
    }
  }

  lemma {:induction false} NoCategories(t: Tables, c: Catalog, range: Range, rollup: bool, bucket: Bucket, n: nat)
    ensures RowTotal(t, c, range, rollup, bucket, [], n) == 0
  {
    if n > 0 {
      NoCategories(t, c, range, rollup, bucket, n - 1);
    }
  }

  lemma {:induction false} TotalsAreRows(
    t: Tables, c: Catalog, range: Range, rollup: bool, bucket: Bucket, categories: seq<CategoryId>)
    requires Distinct(categories)
    ensures TotalOf(t, c, range, rollup, bucket, categories) == RowTotal(t, c, range, rollup, bucket, categories, t.nextRow)
  {
    if categories == [] {
      NoCategories(t, c, range, rollup, bucket, t.nextRow);
    } else {
      TotalsAreRows(t, c, range, rollup, bucket, categories[..|categories| - 1]);
      RowTotalSplit(t, c, range, rollup, bucket, categories, t.nextRow);
    }
  }

  /** `category` itself and its children, in any order. */
  ghost predicate Family(c: Catalog, category: CategoryId, family: seq<CategoryId>) {
    && Distinct(family)
    && forall id :: id in family <==> id in c && (id == category || c[id].parent == Some(category))
  }

  lemma {:induction false} RolledIsFamily(
    t: Tables, c: Catalog, range: Range, bucket: Bucket, category: CategoryId, family: seq<CategoryId>, n: nat)
    requires OneLevel(c) && Family(c, category, family) && category in c && c[category].parent.None?
    ensures Total(t, c, range, true, bucket, category, n) == RowTotal(t, c, range, false, bucket, family, n)
  {
    if n > 0 {
      RolledIsFamily(t, c, range, bucket, category, family, n - 1);
    }
  }

  /** A top-level category's rolled-up total is the sum of its own and its children's plain
      totals; a sub-category has none. */
  lemma RolledUpExact(t: Tables, c: Catalog, range: Range, bucket: Bucket, category: CategoryId, family: seq<CategoryId>)
    requires OneLevel(c) && category in c && Family(c, category, family)
    ensures Total(t, c, range, true, bucket, category, t.nextRow) ==
              if c[category].parent.None? then TotalOf(t, c, range, false, bucket, family) else 0
  {
    if c[category].parent.None? {
      RolledIsFamily(t, c, range, bucket, category, family, t.nextRow);
      TotalsAreRows(t, c, range, false, bucket, family);
    } else {
      SubCategoryNotShown(t, c, range, bucket, category, t.nextRow);
    }
  }

  lemma {:induction false} SubCategoryNotShown(t: Tables, c: Catalog, range: Range, bucket: Bucket, category: CategoryId, n: nat)
    requires OneLevel(c) && category in c && c[category].parent.Some?
    ensures Total(t, c, range, true, bucket, category, n) == 0
  {
    if n > 0 {
      SubCategoryNotShown(t, c, range, bucket, category, n - 1);
    }
  }

  /** The categories the query lists for one direction and currency, in any order. */
  ghost predicate ListedCategories(t: Tables, c: Catalog, range: Range, rollup: bool, bucket: Bucket, categories: seq<CategoryId>) {
    && Distinct(categories)
    && (forall category :: category in categories ==>
          exists id :: InBucket(t, c, range, rollup, bucket, id) && Shown(c, t.rows[id].category, rollup) == category)
    && (forall id :: InBucket(t, c, range, rollup, bucket, id) ==> Shown(c, t.rows[id].category, rollup) in categories)
  }

  lemma {:induction false} SameRows(
    t: Tables, c: Catalog, range: Range, bucket: Bucket, plain: seq<CategoryId>, rolled: seq<CategoryId>, n: nat)
    requires OneLevel(c) && ListedCategories(t, c, range, false, bucket, plain) && ListedCategories(t, c, range, true, bucket, rolled)
    ensures RowTotal(t, c, range, false, bucket, plain, n) == RowTotal(t, c, range, true, bucket, rolled, n)
  {
    if n > 0 {
      SameRows(t, c, range, bucket, plain, rolled, n - 1);
    }
  }

  /** Rolling up moves amounts between categories but never changes the grand total of a
      direction and currency: in a tree of one level every row's parent is there to be joined. */
  lemma RollupConservesTotals(t: Tables, c: Catalog, range: Range, bucket: Bucket, plain: seq<CategoryId>, rolled: seq<CategoryId>)
    requires OneLevel(c) && ListedCategories(t, c, range, false, bucket, plain) && ListedCategories(t, c, range, true, bucket, rolled)
    ensures TotalOf(t, c, range, false, bucket, plain) == TotalOf(t, c, range, true, bucket, rolled)
  {
    TotalsAreRows(t, c, range, false, bucket, plain);
    TotalsAreRows(t, c, range, true, bucket, rolled);
    SameRows(t, c, range, bucket, plain, rolled, t.nextRow);
  }
}
