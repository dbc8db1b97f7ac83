/** No row, rule or budget line ever loses its category, and so the figures of the budget page and
    of the summary reconcile in every state the association can reach. */
module References {
  import opened Options
  import opened Categorization
  import opened Ledger
  import opened LedgerInvariant
  import opened LedgerExact
  import LedgerMachine
  import Categories
  import BudgetLines
  import BudgetReport
  import opened Association

  // ---- The ledger's references ----

  ghost predicate Refers(t: Tables, keys: set<CategoryId>) {
    && (forall row :: row in t.rows ==> t.rows[row].category in keys)
    && (forall rule :: rule in t.rules ==> t.rules[rule].category in keys)
  }

  lemma NewRefers(t: Tables, raw: int, o: Outcome, fault: Fault)
    requires raw in t.raws && Refers(t, t.categories)
    ensures Refers(WriteNew(t, raw, o, fault), t.categories)
  {
  }

  lemma ChangeRefers(t: Tables, c: Candidate, o: Outcome, fault: Fault)
    requires Refers(t, t.categories)
    ensures Refers(WriteChange(t, c, o, fault), t.categories)
  {
  }

  lemma AssignRefers(t: Tables, id: int, request: AssignRequest, thisYear: int, fault: Fault)
    requires Refers(t, t.categories)
    ensures Refers(AssignRow(t, id, request, thisYear, fault), t.categories)
  {
  }

  lemma UnassignRefers(t: Tables, id: int, fault: Fault)
    requires Refers(t, t.categories) && {OTHER_INCOME, OTHER_EXPENSE} <= t.categories
    ensures Refers(UnassignRow(t, id, fault), t.categories)
  {
  }

  lemma RulesRefer(t: Tables, rule: int, request: RuleRequest)
    requires Refers(t, t.categories)
    ensures Refers(CreateRule(t, request), t.categories)
    ensures Refers(UpdateRule(t, rule, request), t.categories)
    ensures Refers(DeleteRule(t, rule), t.categories)
  {
  }

  lemma LedgerRefers(m: LedgerMachine.Machine, a: LedgerMachine.Action)
    requires Refers(m.t, m.t.categories) && {OTHER_INCOME, OTHER_EXPENSE} <= m.t.categories && !a.Refresh?
    ensures Refers(LedgerMachine.Next(m, a).t, m.t.categories)
  {
    match a
    case RunWrite(run, fault) =>
      if LedgerMachine.RunAt(m, run, true) {
        NewRefers(m.t, m.runs[run].pending[0], m.runs[run].decided.value, fault);
      }
    case ReapplyWrite(i, fault) =>
      if LedgerMachine.ReapplyAt(m, i, true) {
        ChangeRefers(m.t, m.reapplies[i].pending[0], m.reapplies[i].decided.value, fault);
      }
    case Assign(id, request, thisYear, fault) => AssignRefers(m.t, id, request, thisYear, fault);
    case Unassign(id, fault) => UnassignRefers(m.t, id, fault);
    case NewRule(request) => RulesRefer(m.t, 0, request);
    case EditRule(rule, request) => RulesRefer(m.t, rule, request);
    case RemoveRule(rule) => RulesRefer(m.t, rule, RuleRequest(0, None, false, None, None, None, None, None, None));
    case _ =>
  }

  // ---- The book's references ----

  ghost predicate BookRefers(b: BudgetLines.Book, keys: set<CategoryId>) {
    forall m :: m in b.mappings ==> m.category in keys
  }

  lemma EditRefers(b: BudgetLines.Book, e: BudgetLines.Edit, keys: set<CategoryId>)
    requires BookRefers(b, keys) && (e.Save? ==> e.known == keys)
    ensures BookRefers(BudgetLines.Apply(b, e), keys)
  {
    match e
    case Create(year, copyFrom) => CreateRefers(b, year, copyFrom, keys);
    case Save(known, id, line, categories) =>
      BudgetLines.InsertCategoriesExact(
        BudgetLines.WithLine(b, id, line), known, BudgetLines.IdFor(b, id), line.year, categories);
    case _ =>
  }

  lemma CreateRefers(b: BudgetLines.Book, year: int, copyFrom: Option<int>, keys: set<CategoryId>)
    requires BookRefers(b, keys)
    ensures BookRefers(BudgetLines.CreateYear(b, year, copyFrom), keys)
  {
    if copyFrom.Some? {
      CopyLinesMapNothing(BudgetLines.WithYear(b, year), copyFrom.value, year, b.nextLine);
    }
  }

  lemma {:induction false} CopyLinesMapNothing(b: BudgetLines.Book, from: int, year: int, n: nat)
    ensures BudgetLines.CopyLinesBelow(b, from, year, n).mappings == b.mappings
  {
    if n > 0 {
      CopyLinesMapNothing(b, from, year, n - 1);
    }
  }

  // ---- All of it ----

  ghost predicate MandatoryThere(d: Categories.Desk) {
    forall id: nat :: 1 <= id < Categories.FIRST_FREE ==> id in d.catalog && d.catalog[id].mandatory
  }

  /** Every part in order, and every category referred to exists. */
  ghost predicate AllRefer(s: State) {
    && InStep(s) && Flowing(s.ledger) && Categories.DeskOk(s.desk) && BudgetLines.BookOk(s.book) && MandatoryThere(s.desk)
    && Refers(s.ledger.t, Known(s)) && BookRefers(s.book, Known(s))
  }

  /** A delete takes no category that anything refers to. */
  lemma DeskKeepsReferences(s: State, x: Step)
    requires Refers(s.ledger.t, Known(s)) && BookRefers(s.book, Known(s))
    ensures var keys := DeskPart(s, x).catalog.Keys; Refers(s.ledger.t, keys) && BookRefers(s.book, keys)
  {
    var keys := DeskPart(s, x).catalog.Keys;
    forall id | id in Known(s) && id !in keys ensures !Categories.Used(s.ledger.t, s.book, id) {
    }
    forall row | row in s.ledger.t.rows ensures s.ledger.t.rows[row].category in keys {
      assert Categories.Used(s.ledger.t, s.book, s.ledger.t.rows[row].category);
    }
    forall rule | rule in s.ledger.t.rules ensures s.ledger.t.rules[rule].category in keys {
      assert Categories.Used(s.ledger.t, s.book, s.ledger.t.rules[rule].category);
    }
    forall m | m in s.book.mappings ensures m.category in keys {
      assert Categories.Used(s.ledger.t, s.book, m.category);
    }
  }

  lemma DeskStays(s: State, x: Step)
    requires Categories.DeskOk(s.desk) && MandatoryThere(s.desk)
    ensures Categories.DeskOk(DeskPart(s, x)) && MandatoryThere(DeskPart(s, x))
  {
    match x
    case Category(Delete(id, _, _)) => Categories.NextKeeps(s.desk, Categories.Delete(id, s.ledger.t, s.book));
    case Category(r) => Categories.NextKeeps(s.desk, r);
    case _ =>
  }

  lemma LedgerPartRefers(s: State, x: Step)
    requires InStep(s) && Flowing(s.ledger) && MandatoryThere(s.desk) && Refers(s.ledger.t, Known(s))
    requires Refers(s.ledger.t, DeskPart(s, x).catalog.Keys)
    ensures Refers(Next(s, x).ledger.t, DeskPart(s, x).catalog.Keys) && Flowing(Next(s, x).ledger)
  {
    StepFlows(s.ledger, LedgerPart(s, x));
    assert OTHER_INCOME in Known(s) && OTHER_EXPENSE in Known(s);
    if !LedgerPart(s, x).Refresh? {
      LedgerRefers(s.ledger, LedgerPart(s, x));
    }
  }

  lemma BookPartRefers(s: State, x: Step)
    requires BudgetLines.BookOk(s.book) && BookRefers(s.book, Known(s)) && BookRefers(s.book, DeskPart(s, x).catalog.Keys)
    ensures BudgetLines.BookOk(BookPart(s, x)) && BookRefers(BookPart(s, x), DeskPart(s, x).catalog.Keys)
  {
    match x
    case Budget(Save(_, id, line, categories)) =>
      BudgetLines.EditKeepsBook(s.book, BudgetLines.Save(Known(s), id, line, categories));
      EditRefers(s.book, BudgetLines.Save(Known(s), id, line, categories), Known(s));
    case Budget(e) =>
      BudgetLines.EditKeepsBook(s.book, e);
      EditRefers(s.book, e, Known(s));
    case _ =>
  }

  lemma StepRefers(s: State, x: Step)
    requires AllRefer(s)
    ensures AllRefer(Next(s, x))
  {
    hide InStep, Flowing, LedgerMachine.Next, LedgerPart, DeskPart, BookPart, WaiverPart;
    hide Categories.DeskOk, BudgetLines.BookOk, MandatoryThere, Refers, BookRefers;
    StaysInStep(s, x);
    DeskKeepsReferences(s, x);
    DeskStays(s, x);
    LedgerPartRefers(s, x);
    BookPartRefers(s, x);
  }

  lemma FoundedRefers(env: Env, members: set<int>)
    ensures AllRefer(Founded(env, members))
  {
    Categories.SeededIsOk();
    SeededFlows(env, members, Categories.SEEDED.Keys);
    SeededRefers(env, members);
    hide Flowing, Refers, Categories.DeskOk;
  }

  lemma SeededRefers(env: Env, members: set<int>)
    ensures Refers(LedgerMachine.Seeded(env, members, Categories.SEEDED.Keys).t, Categories.SEEDED.Keys)
  {
  }

  /** From the seeded database on, whatever the parts do in whatever order: every transaction, rule
      and budget line has its category, and every sub-category its parent. */
  lemma {:induction false} EveryReferenceStands(env: Env, members: set<int>, steps: seq<Step>)
    ensures var s := Execute(Founded(env, members), steps);
            && AllRefer(s) && Categories.OneLevel(s.desk.catalog)
            && forall id :: Categories.Used(s.ledger.t, s.book, id) ==> id in s.desk.catalog
  {
    if steps == [] {
      FoundedRefers(env, members);
    } else {
      hide Next, AllRefer;
      EveryReferenceStands(env, members, steps[..|steps| - 1]);
      StepRefers(Execute(Founded(env, members), steps[..|steps| - 1]), steps[|steps| - 1]);
    }
    var s := Execute(Founded(env, members), steps);
    AllStand(s);
  }

  lemma AllStand(s: State)
    requires AllRefer(s)
    ensures Categories.OneLevel(s.desk.catalog)
    ensures forall id :: Categories.Used(s.ledger.t, s.book, id) ==> id in s.desk.catalog
    ensures RowsOk(s.ledger.t) && BudgetLines.BookOk(s.book)
    ensures forall id :: id in s.ledger.t.rows ==> s.ledger.t.rows[id].category in s.desk.catalog
  {
  }

  /** The budget page reconciles in every reachable state. */
  lemma EveryBudgetReconciles(
    env: Env, members: set<int>, steps: seq<Step>, year: int, lines: seq<int>, groups: seq<BudgetReport.Group>)
    requires var s := Execute(Founded(env, members), steps);
             var tree := Categories.TreeOf(s.desk.catalog);
             BudgetReport.LinesOf(s.book, year, lines) && BudgetReport.UnbudgetedGroups(s.ledger.t, s.book, tree, year, groups)
    ensures var s := Execute(Founded(env, members), steps);
            var tree := Categories.TreeOf(s.desk.catalog);
            BudgetReport.Difference(s.ledger.t, s.book, tree, year, lines, groups)
            == BudgetReport.SignedTotal(s.ledger.t, s.book, tree, year, s.ledger.t.nextRow)
  {
    var s := Execute(Founded(env, members), steps);
    EveryReferenceStands(env, members, steps);
    AllStand(s);
    BudgetReport.BudgetReconciles(s.ledger.t, s.book, Categories.TreeOf(s.desk.catalog), year, lines, groups);
  }

  /** The summary's grand totals are the same plain and rolled up in every reachable state. */
  lemma EverySummaryConserves(
    env: Env, members: set<int>, steps: seq<Step>, range: Categories.Range, bucket: Categories.Bucket,
    plain: seq<CategoryId>, rolled: seq<CategoryId>)
    requires var s := Execute(Founded(env, members), steps);
             && Categories.ListedCategories(s.ledger.t, s.desk.catalog, range, false, bucket, plain)
             && Categories.ListedCategories(s.ledger.t, s.desk.catalog, range, true, bucket, rolled)
    ensures var (t, c) := (Execute(Founded(env, members), steps).ledger.t, Execute(Founded(env, members), steps).desk.catalog);
            Categories.TotalOf(t, c, range, false, bucket, plain) == Categories.TotalOf(t, c, range, true, bucket, rolled)
  {
    var s := Execute(Founded(env, members), steps);
    EveryReferenceStands(env, members, steps);
    Categories.RollupConservesTotals(s.ledger.t, s.desk.catalog, range, bucket, plain, rolled);
  }
}
