/** The budget editor's handlers over the budget tables, statement by statement. */
module BudgetStore {
  import opened Options
  import opened Categorization
  import opened BudgetLines

  datatype Check = Passed | UnknownCategoryId | Taken(category: CategoryId, line: string)

  /** A line request after field validation; the category list is still as sent. */
  datatype Request = Request(line: Line, categories: seq<Option<CategoryId>>)

  datatype Reply =
    | BadRequest | BudgetNotFound | LineMissing
    | CategoryConflict(category: CategoryId, line: string) | Conflict
    | ServerError
    | Ok(id: int)

  /** The categories of a list before any that another line of the year owns. */
  ghost predicate NoneOwned(b: Book, year: int, categories: seq<CategoryId>, except: int) {
    forall category :: category in categories ==> !Owned(b, year, category, except)
  }

  ghost predicate AllKnown(request: Request, known: set<CategoryId>) {
    forall category :: Some(category) in request.categories ==> category in known
  }

  /** None of the first `n` categories of the request is another line's. */
  ghost predicate NoneTaken(b: Book, request: Request, id: int, n: nat)
    requires n <= |request.categories|
  {
    forall i :: 0 <= i < n && request.categories[i].Some? ==> !Owned(b, request.line.year, request.categories[i].value, id)
  }

  class Store {
    var years: set<int>
    var lines: map<int, Line>
    var nextLine: nat
    var mappings: set<Mapping>
    var categories: set<CategoryId>

    function View(): Book
      reads this
    {
      Book(years, lines, nextLine, mappings)
    }

    constructor (categories: set<CategoryId>)
      ensures View() == NO_BUDGETS && this.categories == categories
    {
      years, lines, nextLine, mappings := {}, map[], 1, {};
      this.categories := categories;
    }

    /** The year's mapping rows, in some order. */
    method ListBudgetLineCategories(year: int) returns (rows: seq<Mapping>)
      ensures forall m :: m in rows <==> m in mappings && m.year == year
    {
      var todo := set m | m in mappings && m.year == year;
      rows := [];
      while todo != {}
        invariant forall m :: m in todo || m in rows <==> m in mappings && m.year == year
        decreases |todo|
      {
        var m :| m in todo;
        rows := rows + [m];
        todo := todo - {m};
      }
    }

    /** Passes exactly when every category exists and none is owned by another line of the
        year; a conflict names the first such category and its owner. */
    method CheckLineCategories(year: int, id: int, wanted: seq<CategoryId>) returns (check: Check)
      requires BookOk(View())
      ensures check.UnknownCategoryId? <==> exists category :: category in wanted && category !in categories
      ensures check.Passed? <==>
                (forall category :: category in wanted ==> category in categories) && NoneOwned(View(), year, wanted, id)
      ensures check.Taken? ==>
                && Owner(View(), year, check.category, id, check.line)
                && exists i :: 0 <= i < |wanted| && wanted[i] == check.category && NoneOwned(View(), year, wanted[..i], id)
    {
      for i := 0 to |wanted|
        invariant forall j :: 0 <= j < i ==> wanted[j] in categories
      {
        if wanted[i] !in categories {
          return UnknownCategoryId;
        }
      }
      var rows := ListBudgetLineCategories(year);
      var owner: map<CategoryId, string> := map[];
      for i := 0 to |rows|
        invariant forall category :: category in owner ==> Owner(View(), year, category, id, owner[category])
        invariant forall j :: 0 <= j < i && rows[j].line != id ==> rows[j].category in owner
      {
        assert rows[i] in rows;
        if rows[i].line != id {
          assert Owner(View(), year, rows[i].category, id, lines[rows[i].line].name);
          owner := owner[rows[i].category := lines[rows[i].line].name];
        }
      }
      for i := 0 to |wanted|
        invariant forall j :: 0 <= j < i ==> wanted[j] !in owner
        invariant NoneOwned(View(), year, wanted[..i], id)
      {
        if wanted[i] in owner {
          assert wanted[i] in wanted && Owned(View(), year, wanted[i], id);
          return Taken(wanted[i], owner[wanted[i]]);
        }
      }
      assert wanted[..|wanted|] == wanted;
      check := Passed;
    }

    /** The line row and its mappings in one transaction: all of it is written, or none. */
    method SaveBudgetLine(id: int, line: Line, wanted: seq<CategoryId>) returns (result: SaveResult)
      modifies this`lines, this`nextLine, this`mappings
      ensures (result, View()) == SaveLine(old(View()), categories, id, line, wanted)
    {
      if id != 0 && (id !in lines || lines[id].year != line.year) {
        return LineNotFound;
      }
      if line.year !in years {
        return SaveResult.Broken;
      }
      if NameTaken(View(), line.year, line.name, id) {
        return Duplicate;
      }
      ghost var written := WithLine(View(), id, line);
      var (lines0, nextLine0, mappings0) := (lines, nextLine, mappings);
      var key := id;
      if id == 0 {
        key := nextLine;
        lines, nextLine := lines[key := line], nextLine + 1;
      } else {
        lines := lines[id := line];
        mappings := set m | m in mappings && m.line != id;
      }
      for i := 0 to |wanted|
        invariant InsertCategories(written, categories, key, line.year, wanted[..i]) == Inserted(View())
        invariant years == old(years)
      {
        assert wanted[..i + 1][..i] == wanted[..i] && wanted[..i + 1][i] == wanted[i];
        if wanted[i] !in categories || Mapped(View(), line.year, wanted[i]) {
          result := if wanted[i] !in categories then SaveResult.Broken else Duplicate;
          RefusedStays(written, categories, key, line.year, wanted, i + 1);
          lines, nextLine, mappings := lines0, nextLine0, mappings0;
          return;
        }
        mappings := mappings + {Mapping(key, line.year, wanted[i])};
      }
      assert wanted[..|wanted|] == wanted;
      result := Saved(key);
    }

    /** Checked and then saved with nothing in between: the answer is the first of its checks to
        fail, a save that passes them all goes through, and no constraint is met but the name's. */
    method HandleBudgetLineSave(id: int, request: Request) returns (reply: Reply)
      requires BookOk(View())
      modifies this`lines, this`nextLine, this`mappings
      ensures BookOk(View())
      ensures !reply.Ok? ==> View() == old(View())
      ensures reply.BadRequest? <==> !AllGiven(request.categories) || (request.line.year in years && !AllKnown(request, categories))
      ensures reply.BudgetNotFound? <==> AllGiven(request.categories) && request.line.year !in years
      ensures var passed := AllGiven(request.categories) && request.line.year in years && AllKnown(request, categories);
              var unowned := NoneTaken(old(View()), request, id, |request.categories|);
              var present := id == 0 || (id in old(lines) && old(lines)[id].year == request.line.year);
              var taken := NameTaken(old(View()), request.line.year, request.line.name, id);
              && (reply.CategoryConflict? <==> passed && !unowned)
              && (reply.LineMissing? <==> passed && unowned && !present)
              && (reply.Conflict? <==> passed && unowned && present && taken)
              && (reply.Ok? <==> passed && unowned && present && !taken)
      ensures reply.CategoryConflict? ==>
                && Owner(old(View()), request.line.year, reply.category, id, reply.line)
                && exists i :: 0 <= i < |request.categories| && request.categories[i] == Some(reply.category)
                               && NoneTaken(old(View()), request, id, i)
      ensures reply != ServerError
      ensures reply.Ok? ==>
                && reply.id == IdFor(old(View()), id)
                && View().lines == old(lines)[reply.id := request.line]
                && CategoriesOf(View(), reply.id) == (set category | category in request.categories && category.Some? :: category.value)
                && forall other :: other != reply.id ==> CategoriesOf(View(), other) == CategoriesOf(old(View()), other)
    {
      var year := request.line.year;
      var normalized := NormalizeCategoryIds(request.categories);
      if normalized.None? {
        return BadRequest;
      }
      var wanted := normalized.value;
      WantedExact(request.categories);
      if year !in years {
        return BudgetNotFound;
      }
      var check := CheckLineCategories(year, id, wanted);
      FirstTaken(View(), request, id);
      if check.UnknownCategoryId? {
        return BadRequest;
      } else if check.Taken? {
        return CategoryConflict(check.category, check.line);
      }
      var b := View();
      SaveExact(b, categories, id, request.line, wanted);
      NobodyIsNew(b, year, wanted);
      var result := SaveBudgetLine(id, request.line, wanted);
      match result {
        case Saved(saved) => reply := Ok(saved);
        case LineNotFound => reply := LineMissing;
        case Duplicate => reply := Conflict;
        case Broken => reply := ServerError;
      }
    }

    /** Budget row and copies in one transaction. */
    method CreateBudget(year: int, copyFrom: Option<int>) returns (result: CreateResult)
      modifies this
      ensures result == CreateResponse(old(View()), year, copyFrom)
      ensures View() == CreateYear(old(View()), year, copyFrom)
      ensures categories == old(categories)
    {
      if !(YEAR_MIN <= year <= YEAR_MAX) {
        return BadYear;
      }
      if copyFrom.Some? && copyFrom.value !in years {
        return NoSource;
      }
      if year in years {
        return YearTaken;
      }
      ghost var b := View();
      var (years0, lines0, nextLine0, mappings0) := (years, lines, nextLine, mappings);
      years := years + {year};
      if copyFrom.Some? {
        var from := copyFrom.value;
        for id := 0 to nextLine0
          invariant View() == CopyLinesBelow(WithYear(b, year), from, year, id) && categories == old(categories)
        {
          if id in lines0 && lines0[id].year == from {
            lines, nextLine := lines[nextLine := lines0[id].(year := year)], nextLine + 1;
          }
        }
        if CopyCollides(View(), from, year) {
          years, lines, nextLine, mappings := years0, lines0, nextLine0, mappings0;
          return CopyFailed;
        }
        mappings := mappings + CopyMappings(View(), from, year);
      }
      result := Created;
    }
  }

  /** `line` names the line other than `except` that owns the category. */
  ghost predicate Owner(b: Book, year: int, category: CategoryId, except: int, line: string) {
    exists m :: m in b.mappings && m.year == year && m.category == category && m.line != except
                && m.line in b.lines && b.lines[m.line].name == line
  }

  /** Once an insert is refused, the whole list is. */
  lemma {:induction false} RefusedStays(b: Book, known: set<CategoryId>, line: int, year: int, categories: seq<CategoryId>, i: nat)
    requires i <= |categories| && !InsertCategories(b, known, line, year, categories[..i]).Inserted?
    ensures InsertCategories(b, known, line, year, categories) == InsertCategories(b, known, line, year, categories[..i])
    decreases |categories|
  {
    if i == |categories| {
      assert categories[..i] == categories;
    } else {
      var front := categories[..|categories| - 1];
      assert front[..i] == categories[..i];
      RefusedStays(b, known, line, year, front, i);
    }
  }

  /** What the de-duplicated list has before `k`, the plain one has before its first occurrence of that. */
  lemma BeforeFirst(plain: seq<CategoryId>, k: nat, j: nat) returns (n: nat)
    requires k < |FirstOccurrences(plain)|
    ensures var (wanted, i) := (FirstOccurrences(plain), FirstIndex(plain, FirstOccurrences(plain)[k]));
            && i < |plain| && plain[i] == wanted[k]
            && (j < i ==> n < k && wanted[n] == plain[j])
  {
    var wanted := FirstOccurrences(plain);
    FirstOccurrencesExact(plain);
    assert wanted[k] in wanted;
    FirstIndexExact(plain, wanted[k]);
    n := 0;
    if j < FirstIndex(plain, wanted[k]) {
      assert plain[j] in plain;
      FirstIndexExact(plain, plain[j]);
      n :| 0 <= n < |wanted| && wanted[n] == plain[j];
    }
  }

  lemma FirstOwned(b: Book, year: int, plain: seq<CategoryId>, id: int, k: nat)
    requires k < |FirstOccurrences(plain)| && NoneOwned(b, year, FirstOccurrences(plain)[..k], id)
    ensures var i := FirstIndex(plain, FirstOccurrences(plain)[k]);
            && i < |plain| && plain[i] == FirstOccurrences(plain)[k]
            && forall j :: 0 <= j < i ==> !Owned(b, year, plain[j], id)
  {
    hide FirstOccurrences, FirstIndex, Owned;
    var wanted := FirstOccurrences(plain);
    var none := BeforeFirst(plain, k, 0);
    forall j | 0 <= j < FirstIndex(plain, wanted[k]) ensures !Owned(b, year, plain[j], id) {
      var n := BeforeFirst(plain, k, j);
      assert wanted[..k][n] == plain[j];
    }
  }

  /** The first owned category of the de-duplicated list is the first of the request. */
  lemma FirstTaken(b: Book, request: Request, id: int)
    requires AllGiven(request.categories)
    ensures var (wanted, year) := (FirstOccurrences(Given(request.categories)), request.line.year);
            && (NoneTaken(b, request, id, |request.categories|) <==> NoneOwned(b, year, wanted, id))
            && forall k :: 0 <= k < |wanted| && NoneOwned(b, year, wanted[..k], id) ==>
                 exists i :: 0 <= i < |request.categories| && request.categories[i] == Some(wanted[k]) && NoneTaken(b, request, id, i)
  {
    hide FirstOccurrences, FirstIndex, Owned;
    var (plain, year) := (Given(request.categories), request.line.year);
    var wanted := FirstOccurrences(plain);
    FirstOccurrencesExact(plain);
    assert forall i :: 0 <= i < |plain| ==> request.categories[i] == Some(plain[i]) && plain[i] in plain;
    forall k | 0 <= k < |wanted| && NoneOwned(b, year, wanted[..k], id)
      ensures exists i :: 0 <= i < |request.categories| && request.categories[i] == Some(wanted[k]) && NoneTaken(b, request, id, i)
    {
      FirstOwned(b, year, plain, id, k);
      var i := FirstIndex(plain, wanted[k]);
      assert NoneTaken(b, request, id, i);
    }
  }

  lemma {:induction false} FirstIndexExact(ids: seq<CategoryId>, id: CategoryId)
    ensures var i := FirstIndex(ids, id);
            && (i < |ids| ==> ids[i] == id)
            && (forall j :: 0 <= j < |ids| && ids[j] == id ==> i <= j)
  {
    if ids != [] {
      FirstIndexExact(ids[..|ids| - 1], id);
    }
  }

  lemma NobodyIsNew(b: Book, year: int, wanted: seq<CategoryId>)
    requires BookOk(b)
    ensures NoneOwned(b, year, wanted, 0) <==> NoneOwned(b, year, wanted, b.nextLine)
  {
    assert forall category :: Owned(b, year, category, 0) <==> Owned(b, year, category, b.nextLine);
  }

  lemma WantedExact(ids: seq<Option<CategoryId>>)
    requires AllGiven(ids)
    ensures var wanted := FirstOccurrences(Given(ids));
            Distinct(wanted) && forall category :: category in wanted <==> Some(category) in ids
  {
    var plain := Given(ids);
    FirstOccurrencesExact(plain);
    forall category ensures category in plain <==> Some(category) in ids {
      if Some(category) in ids {
        var i :| 0 <= i < |ids| && ids[i] == Some(category);
        assert plain[i] == category;
      }
    }
  }
}
