/** The whole back office: the ledger, the waiver walks, the category tree and the budget book act
    on the same tables in any order. Here each part's tables are the ones the others wrote. */
module Association {
  import opened Categorization
  import LedgerMachine
  import WaiverMachine
  import Categories
  import BudgetLines

  /** The waiver office's coverage and the ledger's categories are copies of what the others own. */
  datatype State = State(
    ledger: LedgerMachine.Machine, waivers: WaiverMachine.Office, desk: Categories.Desk, book: BudgetLines.Book)

  /** One action of one part. Where an action of a part names tables of another, those of the
      moment are used instead. */
  datatype Step =
    | Ledger(ledger: LedgerMachine.Action)
    | Waiver(waiver: WaiverMachine.Action)
    | Category(category: Categories.Request)
    | Budget(budget: BudgetLines.Edit)

  function Known(s: State): set<CategoryId> {
    s.desk.catalog.Keys
  }

  /** What a step does to the ledger: only its own actions and category administration do anything. */
  function LedgerPart(s: State, x: Step): LedgerMachine.Action {
    match x
    case Ledger(Refresh(env, members, _)) => LedgerMachine.Refresh(env, members, Known(s))
    case Ledger(a) => a
    case Category(_) => LedgerMachine.Refresh(s.ledger.t.env, s.ledger.t.members, DeskPart(s, x).catalog.Keys)
    case _ => LedgerMachine.Refresh(s.ledger.t.env, s.ledger.t.members, Known(s))
  }

  function DeskPart(s: State, x: Step): Categories.Desk {
    match x
    case Category(Delete(id, _, _)) => Categories.Next(s.desk, Categories.Delete(id, s.ledger.t, s.book))
    case Category(r) => Categories.Next(s.desk, r)
    case _ => s.desk
  }

  function BookPart(s: State, x: Step): BudgetLines.Book {
    match x
    case Budget(Save(_, id, line, categories)) => BudgetLines.Apply(s.book, BudgetLines.Save(Known(s), id, line, categories))
    case Budget(e) => BudgetLines.Apply(s.book, e)
    case _ => s.book
  }

  /** Coverage changes by ledger actions alone. */
  function WaiverPart(s: State, x: Step): WaiverMachine.Office {
    if x.Waiver? && !x.waiver.Pay? && !x.waiver.Unpay? then WaiverMachine.Next(s.waivers, x.waiver) else s.waivers
  }

  function Next(s: State, x: Step): State {
    var ledger := LedgerMachine.Next(s.ledger, LedgerPart(s, x));
    State(ledger, WaiverPart(s, x).(coverage := ledger.t.coverage), DeskPart(s, x), BookPart(s, x))
  }

  function Execute(s: State, steps: seq<Step>): State {
    if steps == [] then s else Next(Execute(s, steps[..|steps| - 1]), steps[|steps| - 1])
  }

  /** The seeded database. */
  function Founded(env: Env, members: set<int>): State {
    State(LedgerMachine.Seeded(env, members, Categories.SEEDED.Keys), WaiverMachine.NOTHING_YET,
          Categories.Desk(Categories.SEEDED, Categories.FIRST_FREE, []), BudgetLines.NO_BUDGETS)
  }

  /** Each part's actions are that part's, on the tables as they are. */
  lemma PartsAct(s: State, x: Step)
    requires InStep(s)
    ensures x.Ledger? && !x.ledger.Refresh? ==> Next(s, x).ledger == LedgerMachine.Next(s.ledger, x.ledger)
    ensures x.Category? && x.category.Delete? ==>
              Next(s, x).desk == Categories.Next(s.desk, Categories.Delete(x.category.id, s.ledger.t, s.book))
    ensures x.Category? && !x.category.Delete? ==> Next(s, x).desk == Categories.Next(s.desk, x.category)
    ensures x.Budget? && x.budget.Save? ==>
              Next(s, x).book == BudgetLines.SaveLine(s.book, s.ledger.t.categories, x.budget.id, x.budget.line, x.budget.categories).1
    ensures x.Budget? && !x.budget.Save? ==> Next(s, x).book == BudgetLines.Apply(s.book, x.budget)
    ensures Next(s, x).ledger.t.rows == s.ledger.t.rows || x.Ledger?
  {
    hide Categories.Next, WaiverMachine.Next;
  }

  lemma WalksAct(s: State, x: Step)
    requires InStep(s)
    ensures x.Waiver? && (x.waiver.Begin? || x.waiver.Check? || x.waiver.Write? || x.waiver.Read? || x.waiver.Unwaive?) ==>
              Next(s, x).waivers == WaiverMachine.Next(s.waivers, x.waiver)
  {
    hide Categories.Next, BudgetLines.Apply;
  }

  /** The copies agree. */
  ghost predicate InStep(s: State) {
    s.waivers.coverage == s.ledger.t.coverage && s.ledger.t.categories == Known(s)
  }

  lemma StaysInStep(s: State, x: Step)
    requires InStep(s)
    ensures InStep(Next(s, x))
  {
    var ledger := LedgerMachine.Next(s.ledger, LedgerPart(s, x));
    LedgerCategories(s.ledger, LedgerPart(s, x));
    assert !x.Category? ==> DeskPart(s, x) == s.desk;
  }

  lemma LedgerCategories(m: LedgerMachine.Machine, a: LedgerMachine.Action)
    ensures LedgerMachine.Next(m, a).t.categories == if a.Refresh? then a.categories else m.t.categories
  {
  }
}
