/** Budget lines and the categories that feed them: saving a line, copying a year, and
    the one-owner rule that keeps a payment from being counted twice. */
module BudgetLines {
  import opened Options
  import opened Categorization

  datatype Kind = Income | Expense

  /** Text fields after trimming; amounts in hellers. */
  datatype Line = Line(
    year: int, kind: Kind, group: Option<string>, name: string, budgeted: nat, sortOrder: int, note: Option<string>)

  /** A row of budget_line_categories. */
  datatype Mapping = Mapping(line: int, year: int, category: CategoryId)

  datatype Book = Book(years: set<int>, lines: map<int, Line>, nextLine: nat, mappings: set<Mapping>)

  // ---- De-duplicating a line's categories ----

  /** Each id at its first occurrence, in order. */
  function FirstOccurrences(ids: seq<CategoryId>): seq<CategoryId> {
    if ids == [] then []
    else
      var before, last := FirstOccurrences(ids[..|ids| - 1]), ids[|ids| - 1];
      if last in before then before else before + [last]
  }

  /** Position of the first occurrence. */
  function FirstIndex(ids: seq<CategoryId>, id: CategoryId): (i: nat)
    ensures i <= |ids|
  {
    if ids == [] then 0
    else
      var i := FirstIndex(ids[..|ids| - 1], id);
      if i < |ids| - 1 || ids[|ids| - 1] == id then i else |ids|
  }

  /** De-duplication keeps the set of ids, repeats none, and keeps the order of first occurrences. */
  lemma {:induction false} FirstOccurrencesExact(ids: seq<CategoryId>)
    ensures var kept := FirstOccurrences(ids);
            && (forall id :: id in kept <==> id in ids)
            && (forall id :: id in ids <==> FirstIndex(ids, id) < |ids|)
            && (forall i, j :: 0 <= i < j < |kept| ==> FirstIndex(ids, kept[i]) < FirstIndex(ids, kept[j]))
  {
    if ids != [] {
      var front, last := ids[..|ids| - 1], ids[|ids| - 1];
      assert forall id :: id in ids <==> id in front || id == last;
      FirstOccurrencesExact(front);
    }
  }

  ghost predicate AllGiven(ids: seq<Option<CategoryId>>) {
    forall i :: 0 <= i < |ids| ==> ids[i].Some?
  }

  ghost function Given(ids: seq<Option<CategoryId>>): (plain: seq<CategoryId>)
    requires AllGiven(ids)
  {
    seq(|ids|, i requires 0 <= i < |ids| => ids[i].value)
  }

  /** The de-duplication loop; a null id is rejected. */
  method NormalizeCategoryIds(ids: seq<Option<CategoryId>>) returns (kept: Option<seq<CategoryId>>)
    ensures kept.Some? <==> AllGiven(ids)
    ensures kept.Some? ==> kept.value == FirstOccurrences(Given(ids))
  {
    var seen: set<CategoryId> := {};
    var categoryIds: seq<CategoryId> := [];
    for i := 0 to |ids|
      invariant AllGiven(ids[..i])
      invariant categoryIds == FirstOccurrences(Given(ids[..i]))
      invariant forall id :: id in seen <==> id in categoryIds
    {
      if ids[i].None? {
        return None;
      }
      var id := ids[i].value;
      assert Given(ids[..i + 1])[..i] == Given(ids[..i]);
      if id !in seen {
        seen := seen + {id};
        categoryIds := categoryIds + [id];
      }
    }
    assert ids[..|ids|] == ids;
    kept := Some(categoryIds);
  }

  // ---- The tables and their constraints ----

  ghost predicate Distinct(ids: seq<CategoryId>) {
    forall i, j :: 0 <= i < j < |ids| ==> ids[i] != ids[j]
  }

  predicate NameTaken(b: Book, year: int, name: string, except: int) {
    exists id :: id in b.lines && id != except && b.lines[id].year == year && b.lines[id].name == name
  }

  /** Some line of the year other than `except` is fed by the category. */
  predicate Owned(b: Book, year: int, category: CategoryId, except: int) {
    exists m :: m in b.mappings && m.year == year && m.category == category && m.line != except
  }

  predicate Mapped(b: Book, year: int, category: CategoryId) {
    exists m :: m in b.mappings && m.year == year && m.category == category
  }

  function CategoriesOf(b: Book, line: int): set<CategoryId> {
    set m | m in b.mappings && m.line == line :: m.category
  }

  /** Names are unique within a year, mappings carry their line's year, and a category
      feeds at most one line per year. */
  ghost predicate BookOk(b: Book) {
    && b.nextLine >= 1
    && (forall id :: id in b.lines ==> 1 <= id < b.nextLine && b.lines[id].year in b.years)
    && (forall x, y ::
          && x in b.lines && y in b.lines
          && b.lines[x].year == b.lines[y].year && b.lines[x].name == b.lines[y].name
          ==> x == y)
    && (forall m :: m in b.mappings ==> m.line in b.lines && b.lines[m.line].year == m.year)
    && OneOwner(b)
  }

  ghost predicate OneOwner(b: Book) {
    forall m, n :: m in b.mappings && n in b.mappings && m.year == n.year && m.category == n.category ==> m == n
  }

  // ---- Saving one line ----

  datatype Insertion = Inserted(book: Book) | UniqueViolation | UnknownCategory

  /** The category inserts, one after the other, each checked by the constraints. */
  function InsertCategories(b: Book, known: set<CategoryId>, line: int, year: int, categories: seq<CategoryId>): Insertion {
    if categories == [] then Inserted(b)
    else
      var (before, last) := (InsertCategories(b, known, line, year, categories[..|categories| - 1]), categories[|categories| - 1]);
      if !before.Inserted? then before
      else if last !in known then UnknownCategory
      else if Mapped(before.book, year, last) then UniqueViolation
      else Inserted(before.book.(mappings := before.book.mappings + {Mapping(line, year, last)}))
  }

  datatype SaveResult = Saved(id: int) | LineNotFound | Duplicate | Broken

  /** The line row alone; an update also clears the line's mappings. */
  function WithLine(b: Book, id: int, line: Line): Book {
    if id == 0 then b.(lines := b.lines[b.nextLine := line], nextLine := b.nextLine + 1)
    else b.(lines := b.lines[id := line], mappings := set m | m in b.mappings && m.line != id)
  }

  function IdFor(b: Book, id: int): int {
    if id == 0 then b.nextLine else id
  }

  /** One database transaction; id 0 creates a line. */
  function SaveLine(b: Book, known: set<CategoryId>, id: int, line: Line, categories: seq<CategoryId>): (SaveResult, Book) {
    if id != 0 && (id !in b.lines || b.lines[id].year != line.year) then (LineNotFound, b)
    else if line.year !in b.years then (Broken, b)
    else if NameTaken(b, line.year, line.name, id) then (Duplicate, b)
    else
      match InsertCategories(WithLine(b, id, line), known, IdFor(b, id), line.year, categories)
      case Inserted(saved) => (Saved(IdFor(b, id)), saved)
      case UniqueViolation => (Duplicate, b)
      case UnknownCategory => (Broken, b)
  }

  lemma {:induction false} InsertCategoriesExact(b: Book, known: set<CategoryId>, line: int, year: int, categories: seq<CategoryId>)
    ensures var r := InsertCategories(b, known, line, year, categories);
            && (r.Inserted? <==>
                  && Distinct(categories)
                  && forall category :: category in categories ==> category in known && !Mapped(b, year, category))
            && (r.Inserted? ==>
                  && r.book == b.(mappings := r.book.mappings)
                  && forall m :: m in r.book.mappings <==>
                       m in b.mappings || (m.line == line && m.year == year && m.category in categories))
  {
    if categories != [] {
      var front, last := categories[..|categories| - 1], categories[|categories| - 1];
      InsertCategoriesExact(b, known, line, year, front);
      var before := InsertCategories(b, known, line, year, front);
      assert forall category :: category in categories <==> category in front || category == last;
      assert Distinct(categories) <==> Distinct(front) && last !in front;
      if before.Inserted? {
        assert Mapped(before.book, year, last) <==> Mapped(b, year, last) || last in front by {
          if last in front {
            assert Mapping(line, year, last) in before.book.mappings;
          }
          if Mapped(b, year, last) {
            var m :| m in b.mappings && m.year == year && m.category == last;
            assert m in before.book.mappings;
          }
        }
      }
    }
  }

  /** Whether the target of the save exists and the name is free. */
  predicate Writable(b: Book, id: int, line: Line) {
    && (id != 0 ==> id in b.lines && b.lines[id].year == line.year)
    && line.year in b.years
    && !NameTaken(b, line.year, line.name, id)
  }

  lemma OwnedBeside(b: Book, id: int, line: Line, category: CategoryId)
    requires BookOk(b) && Writable(b, id, line)
    ensures Mapped(WithLine(b, id, line), line.year, category) <==> Owned(b, line.year, category, IdFor(b, id))
  {
    var w := WithLine(b, id, line);
    if Mapped(w, line.year, category) {
      var m :| m in w.mappings && m.year == line.year && m.category == category;
      assert m in b.mappings && m.line != IdFor(b, id);
    }
    if Owned(b, line.year, category, IdFor(b, id)) {
      var m :| m in b.mappings && m.year == line.year && m.category == category && m.line != IdFor(b, id);
      assert m in w.mappings;
    }
  }

  /** A save goes through exactly when the line can be written and its categories are
      distinct, known and not owned by another line of the year; it then changes that
      line and its categories, and nothing else. */
  lemma SaveExact(b: Book, known: set<CategoryId>, id: int, line: Line, categories: seq<CategoryId>)
    requires BookOk(b)
    ensures var (result, b') := SaveLine(b, known, id, line, categories);
            && (result.Saved? <==>
                  && Writable(b, id, line) && Distinct(categories)
                  && forall category :: category in categories ==>
                       category in known && !Owned(b, line.year, category, IdFor(b, id)))
            && (!result.Saved? ==> b' == b)
            && (result.Saved? ==>
                  && result.id == IdFor(b, id) && (id == 0 ==> result.id !in b.lines)
                  && b'.years == b.years
                  && b'.lines == b.lines[result.id := line]
                  && CategoriesOf(b', result.id) == (set category | category in categories)
                  && forall other :: other != result.id ==> CategoriesOf(b', other) == CategoriesOf(b, other))
            && BookOk(b')
  {
    var key := IdFor(b, id);
    var (result, b') := SaveLine(b, known, id, line, categories);
    if Writable(b, id, line) {
      var w := WithLine(b, id, line);
      InsertCategoriesExact(w, known, key, line.year, categories);
      forall category ensures Mapped(w, line.year, category) <==> Owned(b, line.year, category, key) {
        OwnedBeside(b, id, line, category);
      }
      if result.Saved? {
        SavedBook(b, id, line, categories, b');
      }
    }
  }

  /** The tables after the inserts went through. */
  lemma SavedBook(b: Book, id: int, line: Line, categories: seq<CategoryId>, b': Book)
    requires BookOk(b) && Writable(b, id, line)
    requires forall category :: category in categories ==> !Owned(b, line.year, category, IdFor(b, id))
    requires b' == WithLine(b, id, line).(mappings := b'.mappings)
    requires forall m :: m in b'.mappings <==>
               || m in WithLine(b, id, line).mappings
               || (m.line == IdFor(b, id) && m.year == line.year && m.category in categories)
    ensures CategoriesOf(b', IdFor(b, id)) == (set category | category in categories)
    ensures forall other :: other != IdFor(b, id) ==> CategoriesOf(b', other) == CategoriesOf(b, other)
    ensures BookOk(b')
  {
    var key := IdFor(b, id);
    forall m | m in b'.mappings
      ensures if m.line == key then m.year == line.year && m.category in categories else m in b.mappings
    {
    }
    forall category | category in categories ensures category in CategoriesOf(b', key) {
      assert Mapping(key, line.year, category) in b'.mappings;
    }
    forall other | other != key ensures CategoriesOf(b', other) == CategoriesOf(b, other) {
      forall category ensures category in CategoriesOf(b', other) <==> category in CategoriesOf(b, other) {
        if category in CategoriesOf(b, other) {
          var m :| m in b.mappings && m.line == other && m.category == category;
          assert m in b'.mappings;
        }
      }
    }
    forall m, n | m in b'.mappings && n in b'.mappings && m.year == n.year && m.category == n.category ensures m == n {
      if m.line == key && n.line != key {
        assert Owned(b, line.year, n.category, key);
      } else if m.line != key && n.line == key {
        assert Owned(b, line.year, m.category, key);
      }
    }
    forall other | other in b.lines && other != key
      ensures b.lines[other].year != line.year || b.lines[other].name != line.name
    {
      assert b.lines[other].year == line.year && b.lines[other].name == line.name ==> NameTaken(b, line.year, line.name, id);
    }
  }

  // ---- Creating a year, with or without a copy ----

  /** INSERT ... SELECT of the year's lines, in id order. */
  function CopyLinesBelow(b: Book, from: int, year: int, n: nat): Book {
    if n == 0 then b
    else
      var before := CopyLinesBelow(b, from, year, n - 1);
      if n - 1 in b.lines && b.lines[n - 1].year == from
      then before.(lines := before.lines[before.nextLine := b.lines[n - 1].(year := year)], nextLine := before.nextLine + 1)
      else before
  }

  /** Number of the year's lines with a smaller id: where a line's copy lands. */
  function Rank(b: Book, from: int, n: nat): nat {
    if n == 0 then 0
    else Rank(b, from, n - 1) + (if n - 1 in b.lines && b.lines[n - 1].year == from then 1 else 0)
  }

  /** The joined rows of the category copy. */
  predicate CopyPair(b: Book, from: int, year: int, m: Mapping, line: int) {
    && m in b.mappings && m.line in b.lines && b.lines[m.line].year == from
    && line in b.lines && b.lines[line].year == year && b.lines[line].name == b.lines[m.line].name
  }

  /** Two joined rows, or a joined row and an existing one, would give a category two owners. */
  predicate CopyCollides(b: Book, from: int, year: int) {
    || (exists m, line, n, other ::
          && m in b.mappings && line in b.lines && n in b.mappings && other in b.lines
          && CopyPair(b, from, year, m, line) && CopyPair(b, from, year, n, other)
          && m.category == n.category && (m != n || line != other))
    || (exists m, line :: m in b.mappings && line in b.lines && CopyPair(b, from, year, m, line) && Mapped(b, year, m.category))
  }

  /** No collision: the joined rows bring in every category once, and none the year already maps. */
  lemma CollisionExact(b: Book, from: int, year: int)
    ensures !CopyCollides(b, from, year) <==>
              && (forall m, line, n, other ::
                    && m in b.mappings && line in b.lines && n in b.mappings && other in b.lines
                    && CopyPair(b, from, year, m, line) && CopyPair(b, from, year, n, other) && m.category == n.category
                    ==> m == n && line == other)
              && (forall m, line ::
                    m in b.mappings && line in b.lines && CopyPair(b, from, year, m, line) ==>
                      forall n :: n in b.mappings && n.category == m.category ==> n.year != year)
  {
  }

  function CopyMappings(b: Book, from: int, year: int): set<Mapping> {
    set m, line | m in b.mappings && line in b.lines && CopyPair(b, from, year, m, line) :: Mapping(line, year, m.category)
  }

  datatype CreateResult = Created | BadYear | NoSource | YearTaken | CopyFailed

  const YEAR_MIN := 2000
  const YEAR_MAX := 2100

  function WithYear(b: Book, year: int): Book {
    b.(years := b.years + {year})
  }

  function CopiedLines(b: Book, from: int, year: int): Book {
    CopyLinesBelow(WithYear(b, year), from, year, b.nextLine)
  }

  /** Both copies done. */
  function Copied(b: Book, from: int, year: int): Book {
    var copied := CopiedLines(b, from, year);
    copied.(mappings := copied.mappings + CopyMappings(copied, from, year))
  }

  function CreateResponse(b: Book, year: int, copyFrom: Option<int>): CreateResult {
    if !(YEAR_MIN <= year <= YEAR_MAX) then BadYear
    else if copyFrom.Some? && copyFrom.value !in b.years then NoSource
    else if year in b.years then YearTaken
    else if copyFrom.Some? && CopyCollides(CopiedLines(b, copyFrom.value, year), copyFrom.value, year) then CopyFailed
    else Created
  }

  /** One database transaction: the budget row, then the two copies. */
  function CreateYear(b: Book, year: int, copyFrom: Option<int>): Book {
    if CreateResponse(b, year, copyFrom) != Created then b
    else if copyFrom.None? then WithYear(b, year)
    else Copied(b, copyFrom.value, year)
  }

  lemma {:induction false} RankStep(b: Book, from: int, x: nat, y: nat)
    requires x < y && x in b.lines && b.lines[x].year == from
    ensures Rank(b, from, x) < Rank(b, from, y)
    decreases y
  {
    if x < y - 1 {
      RankStep(b, from, x, y - 1);
    }
  }

  lemma {:induction false} CopyShape(b: Book, from: int, year: int, n: nat)
    requires forall id :: id in b.lines ==> id < b.nextLine
    ensures var c := CopyLinesBelow(b, from, year, n);
            && c == b.(lines := c.lines, nextLine := b.nextLine + Rank(b, from, n))
            && (forall id :: id in c.lines <==> id in b.lines || b.nextLine <= id < c.nextLine)
            && (forall id :: id in b.lines ==> c.lines[id] == b.lines[id])
  {
    if n > 0 {
      CopyShape(b, from, year, n - 1);
    }
  }

  predicate From(b: Book, from: int, id: int) {
    id in b.lines && b.lines[id].year == from
  }

  /** A line's copy lands at its rank. */
  lemma {:induction false} CopyLands(b: Book, from: int, year: int, n: nat, id: nat)
    requires (forall x :: x in b.lines ==> x < b.nextLine) && id < n && From(b, from, id)
    ensures var (c, copy) := (CopyLinesBelow(b, from, year, n), b.nextLine + Rank(b, from, id));
            copy in c.lines && c.lines[copy] == b.lines[id].(year := year)
    decreases n
  {
    hide Rank;
    CopyShape(b, from, year, n - 1);
    if id < n - 1 {
      RankStep(b, from, id, n - 1);
      CopyLands(b, from, year, n - 1, id);
      var before, copy := CopyLinesBelow(b, from, year, n - 1), b.nextLine + Rank(b, from, id);
      assert copy < before.nextLine && copy in before.lines;
      assert CopyLinesBelow(b, from, year, n).lines[copy] == before.lines[copy];
    }
  }

  /** Every new line is some line's copy. */
  lemma {:induction false} CopyHasSource(b: Book, from: int, year: int, n: nat, copy: int) returns (id: nat)
    requires (forall x :: x in b.lines ==> x < b.nextLine)
    requires b.nextLine <= copy < b.nextLine + Rank(b, from, n)
    ensures id < n && From(b, from, id) && copy == b.nextLine + Rank(b, from, id)
    decreases n
  {
    if copy == b.nextLine + Rank(b, from, n - 1) {
      id := n - 1;
    } else {
      id := CopyHasSource(b, from, year, n - 1, copy);
    }
  }

  function CopyId(b: Book, from: int, year: int, id: int): int {
    b.nextLine + Rank(WithYear(b, year), from, if id < 0 then 0 else id)
  }

  /** A line's copy: at its rank, alike in everything but the year. */
  lemma CopyOfLine(b: Book, from: int, year: int, id: nat)
    requires BookOk(b) && year !in b.years && From(b, from, id)
    ensures var (c, copy) := (CopiedLines(b, from, year), CopyId(b, from, year, id));
            From(c, year, copy) && c.lines[copy] == b.lines[id].(year := year)
  {
    CopyLands(WithYear(b, year), from, year, b.nextLine, id);
  }

  /** Every line of the new year is a copy. */
  lemma LineOfCopy(b: Book, from: int, year: int, copy: int) returns (id: nat)
    requires BookOk(b) && year !in b.years && From(CopiedLines(b, from, year), year, copy)
    ensures From(b, from, id) && copy == CopyId(b, from, year, id)
    ensures CopiedLines(b, from, year).lines[copy] == b.lines[id].(year := year)
  {
    var b0 := WithYear(b, year);
    CopyShape(b0, from, year, b.nextLine);
    id := CopyHasSource(b0, from, year, b.nextLine, copy);
    CopyOfLine(b, from, year, id);
  }

  /** Lines of the two years correspond by name, one to one. */
  lemma SameNameIsCopy(b: Book, from: int, year: int, id: int, copy: int)
    requires BookOk(b) && year !in b.years && From(b, from, id) && From(CopiedLines(b, from, year), year, copy)
    requires CopiedLines(b, from, year).lines[copy].name == b.lines[id].name
    ensures id >= 0 && copy == CopyId(b, from, year, id)
    ensures CopiedLines(b, from, year).lines[copy] == b.lines[id].(year := year)
  {
    var source := LineOfCopy(b, from, year, copy);
    assert b.lines[source].name == b.lines[id].name;
  }

  /** The copy meets no constraint: no category gets two owners. */
  lemma CopyNeverCollides(b: Book, from: int, year: int)
    requires BookOk(b) && year !in b.years && from in b.years
    ensures !CopyCollides(CopiedLines(b, from, year), from, year)
  {
    var c := CopiedLines(b, from, year);
    CopyShape(WithYear(b, year), from, year, b.nextLine);
    forall m, line | CopyPair(c, from, year, m, line)
      ensures From(b, from, m.line) && m in b.mappings && m.year == from && !Mapped(c, year, m.category)
      ensures line == CopyId(b, from, year, m.line)
    {
      assert m.line in b.lines;
      SameNameIsCopy(b, from, year, m.line, line);
    }
  }

  lemma MappingGetsCopied(b: Book, from: int, year: int, m: Mapping)
    requires BookOk(b) && year !in b.years && m in b.mappings && m.year == from
    ensures Mapping(CopyId(b, from, year, m.line), year, m.category) in Copied(b, from, year).mappings
  {
    var c, copy := CopiedLines(b, from, year), CopyId(b, from, year, m.line);
    CopyShape(WithYear(b, year), from, year, b.nextLine);
    CopyOfLine(b, from, year, m.line);
    assert CopyPair(c, from, year, m, copy);
    assert Mapping(copy, year, m.category) in CopyMappings(c, from, year);
  }

  /** Mappings are those of before and the copies of the source year's. */
  lemma MappingIsCopy(b: Book, from: int, year: int, k: Mapping) returns (m: Mapping)
    requires BookOk(b) && year !in b.years && k in Copied(b, from, year).mappings
    ensures m in b.mappings && m.category == k.category
    ensures if k in b.mappings then m == k && k.year != year
            else k.year == year && m.year == from && k.line == CopyId(b, from, year, m.line) && k.line >= b.nextLine
  {
    var c := CopiedLines(b, from, year);
    CopyShape(WithYear(b, year), from, year, b.nextLine);
    if k in b.mappings {
      m := k;
    } else {
      m :| m in c.mappings && CopyPair(c, from, year, m, k.line) && k.category == m.category && k.year == year;
      SameNameIsCopy(b, from, year, m.line, k.line);
    }
  }

  lemma CopyIdInjective(b: Book, from: int, year: int, x: int, y: int)
    requires BookOk(b) && From(b, from, x) && From(b, from, y) && CopyId(b, from, year, x) == CopyId(b, from, year, y)
    ensures x == y
  {
    if x < y {
      RankStep(WithYear(b, year), from, x, y);
    } else if y < x {
      RankStep(WithYear(b, year), from, y, x);
    }
  }

  lemma CopyCategories(b: Book, from: int, year: int, id: int)
    requires BookOk(b) && year !in b.years && From(b, from, id)
    ensures CategoriesOf(Copied(b, from, year), CopyId(b, from, year, id)) == CategoriesOf(b, id)
  {
    var b', copy := Copied(b, from, year), CopyId(b, from, year, id);
    forall category ensures category in CategoriesOf(b', copy) <==> category in CategoriesOf(b, id) {
      if category in CategoriesOf(b, id) {
        var m :| m in b.mappings && m.line == id && m.category == category;
        MappingGetsCopied(b, from, year, m);
      }
      if category in CategoriesOf(b', copy) {
        var k :| k in b'.mappings && k.line == copy && k.category == category;
        var m := MappingIsCopy(b, from, year, k);
        CopyIdInjective(b, from, year, id, m.line);
        assert m.line == id;
      }
    }
  }

  lemma OldCategoriesStay(b: Book, from: int, year: int, id: int)
    requires BookOk(b) && year !in b.years && id in b.lines
    ensures CategoriesOf(Copied(b, from, year), id) == CategoriesOf(b, id)
  {
    var b' := Copied(b, from, year);
    CopyShape(WithYear(b, year), from, year, b.nextLine);
    forall category ensures category in CategoriesOf(b', id) <==> category in CategoriesOf(b, id) {
      if category in CategoriesOf(b', id) {
        var k :| k in b'.mappings && k.line == id && k.category == category;
        var m := MappingIsCopy(b, from, year, k);
      }
      if category in CategoriesOf(b, id) {
        var m :| m in b.mappings && m.line == id && m.category == category;
        assert m in b'.mappings;
      }
    }
  }

  /** `copy` has the fields of line `id` but for the year, and the same categories. */
  ghost predicate CopyOf(b: Book, b': Book, year: int, id: int, copy: int) {
    && id in b.lines && copy in b'.lines
    && b'.lines[copy] == b.lines[id].(year := year)
    && CategoriesOf(b', copy) == CategoriesOf(b, id)
  }

  lemma LineIsCopied(b: Book, from: int, year: int, id: int)
    requires BookOk(b) && year !in b.years && From(b, from, id)
    ensures From(Copied(b, from, year), year, CopyId(b, from, year, id))
    ensures CopyOf(b, Copied(b, from, year), year, id, CopyId(b, from, year, id))
  {
    CopyOfLine(b, from, year, id);
    CopyCategories(b, from, year, id);
  }

  lemma CopyIsLine(b: Book, from: int, year: int, copy: int) returns (id: int)
    requires BookOk(b) && year !in b.years
    requires copy in Copied(b, from, year).lines && copy !in b.lines
    ensures From(b, from, id) && copy == CopyId(b, from, year, id)
    ensures From(Copied(b, from, year), year, copy) && CopyOf(b, Copied(b, from, year), year, id, copy)
  {
    CopyShape(WithYear(b, year), from, year, b.nextLine);
    id := CopyHasSource(WithYear(b, year), from, year, b.nextLine, copy);
    LineIsCopied(b, from, year, id);
  }

  /** A copied year has the same lines, with the same category sets by line name, and
      leaves every other year as it was. */
  lemma CopyIsFaithful(b: Book, from: int, year: int)
    requires BookOk(b) && year !in b.years
    ensures var b' := Copied(b, from, year);
            && (forall id :: id in b.lines ==>
                  id in b'.lines && b'.lines[id] == b.lines[id] && CategoriesOf(b', id) == CategoriesOf(b, id))
            && (forall id :: id in b'.lines && id !in b.lines ==> From(b', year, id))
            && (forall id :: From(b, from, id) ==> exists copy :: From(b', year, copy) && CopyOf(b, b', year, id, copy))
            && (forall copy :: From(b', year, copy) ==> exists id :: From(b, from, id) && CopyOf(b, b', year, id, copy))
            && (forall id, copy :: From(b, from, id) && From(b', year, copy) && b'.lines[copy].name == b.lines[id].name ==>
                  CopyOf(b, b', year, id, copy))
  {
    CopyShape(WithYear(b, year), from, year, b.nextLine);
    var b' := Copied(b, from, year);
    forall id | id in b.lines ensures CategoriesOf(b', id) == CategoriesOf(b, id) {
      OldCategoriesStay(b, from, year, id);
    }
    forall id | From(b, from, id) ensures exists copy :: From(b', year, copy) && CopyOf(b, b', year, id, copy) {
      LineIsCopied(b, from, year, id);
    }
    forall copy | copy in b'.lines && copy !in b.lines
      ensures From(b', year, copy)
      ensures exists id :: From(b, from, id) && CopyOf(b, b', year, id, copy)
      ensures forall id :: From(b, from, id) && b'.lines[copy].name == b.lines[id].name ==> CopyOf(b, b', year, id, copy)
    {
      var source := CopyIsLine(b, from, year, copy);
    }
  }

  /** Copying a year from any budget never meets a constraint: the only failures are the
      checked ones, and the books stay in order. */
  lemma CopyGoesThrough(b: Book, from: int, year: int)
    requires BookOk(b) && YEAR_MIN <= year <= YEAR_MAX && from in b.years && year !in b.years
    ensures CreateResponse(b, year, Some(from)) == Created
    ensures CreateYear(b, year, Some(from)) == Copied(b, from, year) && BookOk(Copied(b, from, year))
  {
    CopyNeverCollides(b, from, year);
    CopyKeepsBook(b, from, year);
  }

  lemma CopyKeepsBook(b: Book, from: int, year: int)
    requires BookOk(b) && year !in b.years
    ensures BookOk(Copied(b, from, year))
  {
    var b' := Copied(b, from, year);
    CopyShape(WithYear(b, year), from, year, b.nextLine);
    forall x | x in b'.lines && x !in b.lines
      ensures b'.lines[x].year == year
      ensures forall y :: y in b'.lines && b'.lines[y].year == year && b'.lines[y].name == b'.lines[x].name ==> y == x
    {
      var source := CopyIsLine(b, from, year, x);
      forall y | y in b'.lines && b'.lines[y].year == year && b'.lines[y].name == b'.lines[x].name ensures y == x {
        SameNameIsCopy(b, from, year, source, y);
      }
    }
    forall k | k in b'.mappings ensures k.line in b'.lines && b'.lines[k.line].year == k.year {
      var m := MappingIsCopy(b, from, year, k);
      if k !in b.mappings {
        LineIsCopied(b, from, year, m.line);
      }
    }
    forall k, l | k in b'.mappings && l in b'.mappings && k.year == l.year && k.category == l.category
      ensures k == l
    {
      var m := MappingIsCopy(b, from, year, k);
      var n := MappingIsCopy(b, from, year, l);
      assert m == n;
    }
  }

  // ---- Every history of budget edits ----

  function DeleteLine(b: Book, year: int, id: int): Book {
    if !From(b, year, id) then b
    else b.(lines := map x | x in b.lines && x != id :: b.lines[x], mappings := set m | m in b.mappings && m.line != id)
  }

  function DeleteYear(b: Book, year: int): Book {
    b.(years := b.years - {year},
       lines := map x | x in b.lines && b.lines[x].year != year :: b.lines[x],
       mappings := set m | m in b.mappings && m.year != year)
  }

  /** One database transaction of the budget editor; `known` are the categories existing at that moment. */
  datatype Edit =
    | Create(year: int, copyFrom: Option<int>)
    | Save(known: set<CategoryId>, id: int, line: Line, categories: seq<CategoryId>)
    | RemoveLine(year: int, id: int)
    | RemoveYear(year: int)

  function Apply(b: Book, e: Edit): Book {
    match e
    case Create(year, copyFrom) => CreateYear(b, year, copyFrom)
    case Save(known, id, line, categories) => SaveLine(b, known, id, line, categories).1
    case RemoveLine(year, id) => DeleteLine(b, year, id)
    case RemoveYear(year) => DeleteYear(b, year)
  }

  function ApplyAll(b: Book, edits: seq<Edit>): Book {
    if edits == [] then b else Apply(ApplyAll(b, edits[..|edits| - 1]), edits[|edits| - 1])
  }

  /** Which years can be created, and that creating one without a copy adds nothing else. */
  lemma CreateExact(b: Book, year: int, copyFrom: Option<int>)
    requires BookOk(b)
    ensures CreateResponse(b, year, copyFrom) ==
              if year < 2000 || 2100 < year then BadYear
              else if copyFrom.Some? && copyFrom.value !in b.years then NoSource
              else if year in b.years then YearTaken
              else Created
    ensures var b' := Apply(b, Create(year, copyFrom));
            if CreateResponse(b, year, copyFrom) != Created then b' == b
            else
              && b'.years == b.years + {year}
              && b' == if copyFrom == None then b.(years := b'.years) else Copied(b, copyFrom.value, year)
  {
    if copyFrom.Some? && copyFrom.value in b.years && year !in b.years {
      CopyNeverCollides(b, copyFrom.value, year);
      CopyShape(WithYear(b, year), copyFrom.value, year, b.nextLine);
    }
  }

  /** A deleted line takes its own mappings with it, a deleted year its lines and theirs; nothing else goes. */
  lemma DeleteExact(b: Book, year: int, id: int)
    requires BookOk(b)
    ensures var b' := Apply(b, RemoveLine(year, id));
            if id in b.lines && b.lines[id].year == year then
              && b' == b.(lines := b.lines - {id}, mappings := b'.mappings)
              && (forall m :: m in b'.mappings <==> m in b.mappings && m.line != id)
            else b' == b
    ensures var b' := Apply(b, RemoveYear(year));
            && b' == b.(years := b.years - {year}, lines := b'.lines, mappings := b'.mappings)
            && (forall line :: line in b'.lines <==> line in b.lines && b.lines[line].year != year)
            && (forall line :: line in b'.lines ==> b'.lines[line] == b.lines[line])
            && (forall m :: m in b'.mappings <==> m in b.mappings && m.line in b'.lines)
  {
    if From(b, year, id) {
      assert Apply(b, RemoveLine(year, id)).lines == b.lines - {id};
    }
  }

  /** Which constraint refuses a save: a missing line or year, then the name, then the first category
      that is unknown or already mapped in the year. */
  lemma SaveAnswers(b: Book, known: set<CategoryId>, id: int, line: Line, categories: seq<CategoryId>)
    requires BookOk(b)
    ensures var result := SaveLine(b, known, id, line, categories).0;
            var present := id == 0 || (id in b.lines && b.lines[id].year == line.year);
            && (result == LineNotFound <==> !present)
            && (present && line.year !in b.years ==> result == Broken)
            && (present && line.year in b.years && NameTaken(b, line.year, line.name, id) ==> result == Duplicate)
            && (result == Broken ==> line.year !in b.years || exists category :: category in categories && category !in known)
            && (result == Duplicate ==>
                  || NameTaken(b, line.year, line.name, id) || !Distinct(categories)
                  || exists category :: category in categories && Owned(b, line.year, category, IdFor(b, id)))
  {
    if Writable(b, id, line) {
      var w := WithLine(b, id, line);
      RefusalExact(w, known, IdFor(b, id), line.year, categories);
      forall category ensures Mapped(w, line.year, category) <==> Owned(b, line.year, category, IdFor(b, id)) {
        OwnedBeside(b, id, line, category);
      }
    }
  }

  lemma {:induction false} RefusalExact(b: Book, known: set<CategoryId>, line: int, year: int, categories: seq<CategoryId>)
    ensures var r := InsertCategories(b, known, line, year, categories);
            && (r.UnknownCategory? ==> exists category :: category in categories && category !in known)
            && (r.UniqueViolation? ==>
                  !Distinct(categories) || exists category :: category in categories && Mapped(b, year, category))
  {
    if categories != [] {
      var (front, last) := (categories[..|categories| - 1], categories[|categories| - 1]);
      RefusalExact(b, known, line, year, front);
      InsertCategoriesExact(b, known, line, year, front);
      assert forall category :: category in categories <==> category in front || category == last;
      var before := InsertCategories(b, known, line, year, front);
      if before.Inserted? && last in known && Mapped(before.book, year, last) {
        var m :| m in before.book.mappings && m.year == year && m.category == last;
        if m !in b.mappings {
          assert last in front && !Distinct(categories);
        }
      }
    }
  }

  const NO_BUDGETS := Book({}, map[], 1, {})

  lemma EditKeepsBook(b: Book, e: Edit)
    requires BookOk(b)
    ensures BookOk(Apply(b, e))
  {
    match e
    case Create(year, copyFrom) =>
      if copyFrom.Some? && CreateResponse(b, year, copyFrom) == Created {
        CopyKeepsBook(b, copyFrom.value, year);
      }
    case Save(known, id, line, categories) => SaveExact(b, known, id, line, categories);
    case RemoveLine(year, id) =>
    case RemoveYear(year) =>
  }

  /** Over every history of creates, copies, saves and deletes a category feeds at most
      one line per year, whether or not saves were checked beforehand. */
  lemma {:induction false} EveryHistoryHasOneOwner(edits: seq<Edit>)
    ensures BookOk(ApplyAll(NO_BUDGETS, edits)) && OneOwner(ApplyAll(NO_BUDGETS, edits))
  {
    if edits != [] {
      EveryHistoryHasOneOwner(edits[..|edits| - 1]);
      EditKeepsBook(ApplyAll(NO_BUDGETS, edits[..|edits| - 1]), edits[|edits| - 1]);
    }
  }
}
