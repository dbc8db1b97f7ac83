/** The ledger tables and every database transaction that changes them, each as
    one function from tables to tables. The imperative processing code is proved
    against these functions; the invariants are proved about them. */
module Ledger {
  import opened Options
  import opened Calendar
  import opened Categorization

  /** processed_transactions: at most one per raw transaction. */
  datatype Row = Row(
    raw: int,
    member: Option<int>,
    category: CategoryId,
    direction: Direction,
    matchedBy: Option<MatchedBy>,
    setManually: bool,
    rule: Option<int>,
    adminComment: Option<string>)
  {
    /** The manual guards of the re-apply queries. */
    predicate ByHand() {
      setManually || matchedBy == Some(MatchedBy.ByHand)
    }

    /** What categorisation decided for the row. */
    function Decided(): Outcome {
      Outcome(category, rule, member, matchedBy)
    }

    function Redecided(o: Outcome): Row {
      this.(category := o.category, member := o.member, matchedBy := o.matchedBy, rule := o.rule)
    }
  }

  /** payment_coverage is unique on (row, month); it maps to the member credited. */
  datatype CoverKey = CoverKey(row: int, month: YearMonth)

  datatype Tables = Tables(
    raws: map<int, RawTransaction>,
    nextRaw: nat,
    rows: map<int, Row>,
    nextRow: nat,
    coverage: map<CoverKey, int>,
    rules: map<int, Rule>,
    nextRule: nat,
    env: Env,
    members: set<int>,
    categories: set<CategoryId>)

  // ---- Coverage statements ----

  /** INSERT ... ON CONFLICT DO NOTHING. */
  function InsertCoverage(coverage: map<CoverKey, int>, key: CoverKey, member: int): map<CoverKey, int> {
    if key in coverage then coverage else coverage[key := member]
  }

  function InsertCovers(coverage: map<CoverKey, int>, row: int, months: seq<YearMonth>, member: int): map<CoverKey, int> {
    if months == [] then coverage
    else InsertCoverage(InsertCovers(coverage, row, months[..|months| - 1], member),
                        CoverKey(row, months[|months| - 1]), member)
  }

  function DeleteCoverage(coverage: map<CoverKey, int>, row: int): map<CoverKey, int> {
    map key | key in coverage && key.row != row :: coverage[key]
  }

  /** The one row an automatic match writes, if it found a member. */
  function InsertDefault(coverage: map<CoverKey, int>, row: int, date: Date, member: Option<int>): map<CoverKey, int> {
    if member.None? then coverage
    else InsertCoverage(coverage, CoverKey(row, DefaultCoveredMonth(date)), member.value)
  }

  // ---- Processing one raw transaction ----

  predicate HasRow(t: Tables, raw: int) {
    exists id :: id in t.rows && t.rows[id].raw == raw
  }

  /** The foreign keys of a stored outcome. */
  predicate Storable(t: Tables, o: Outcome) {
    && o.category in t.categories
    && (o.rule.Some? ==> o.rule.value in t.rules)
    && (o.member.Some? ==> o.member.value in t.members)
  }

  /** What storing an outcome executes: coverage only for a matched member. */
  function StoreStatements(o: Outcome): set<Statement> {
    {Begin, RowWrite, Commit} + if o.member.Some? then {CoverageInsert} else {}
  }

  function Store(t: Tables, raw: int, o: Outcome): Tables
    requires raw in t.raws
  {
    var rt := t.raws[raw];
    t.(rows := t.rows[t.nextRow := Row(raw, o.member, o.category, DirectionOf(rt.amount), o.matchedBy, false, o.rule, None)],
       nextRow := t.nextRow + 1,
       coverage := InsertDefault(t.coverage, t.nextRow, rt.date, o.member))
  }

  /** Rules and own accounts are the run's snapshot; identifiers are read live. */
  function VerdictFor(t: Tables, raw: int, rules: seq<Rule>, accounts: set<string>, fault: Fault): Verdict
    requires raw in t.raws
  {
    var rt := t.raws[raw];
    Walk(rules, rt, DirectionOf(rt.amount), Env(t.env.identifiers, accounts), fault)
  }

  predicate ProcessSucceeds(t: Tables, raw: int, rules: seq<Rule>, accounts: set<string>, fault: Fault)
    requires raw in t.raws
  {
    var v := VerdictFor(t, raw, rules, accounts, fault);
    v.Matched? && NewGoesThrough(t, raw, v.outcome, fault)
  }

  function ProcessRow(t: Tables, raw: int, rules: seq<Rule>, accounts: set<string>, fault: Fault): Tables
    requires raw in t.raws
  {
    if ProcessSucceeds(t, raw, rules, accounts, fault)
    then Store(t, raw, VerdictFor(t, raw, rules, accounts, fault).outcome)
    else t
  }

  predicate NewGoesThrough(t: Tables, raw: int, o: Outcome, fault: Fault) {
    !fault.Strikes(StoreStatements(o)) && !HasRow(t, raw) && Storable(t, o)
  }

  /** The database transaction that stores a decided outcome, whenever it comes. */
  function WriteNew(t: Tables, raw: int, o: Outcome, fault: Fault): Tables
    requires raw in t.raws
  {
    if NewGoesThrough(t, raw, o, fault) then Store(t, raw, o) else t
  }

  /** Processing is deciding and then writing, with nothing in between. */
  lemma ProcessIsDecideThenWrite(t: Tables, raw: int, rules: seq<Rule>, accounts: set<string>, fault: Fault)
    requires raw in t.raws
    ensures var v := VerdictFor(t, raw, rules, accounts, fault);
            ProcessRow(t, raw, rules, accounts, fault) == if v.Matched? then WriteNew(t, raw, v.outcome, fault) else t
  {
  }

  // ---- Run: every unprocessed raw transaction once ----

  /** Raw ids below `n` without a row, in id order. */
  function UnprocessedBelow(t: Tables, n: nat): seq<int> {
    if n == 0 then []
    else if n - 1 in t.raws && !HasRow(t, n - 1) then UnprocessedBelow(t, n - 1) + [n - 1]
    else UnprocessedBelow(t, n - 1)
  }

  function FaultAt(faults: map<int, Fault>, id: int): Fault {
    if id in faults then faults[id] else NoFault
  }

  datatype Progress = Progress(tables: Tables, done: nat, failed: nat)

  function RunRows(t: Tables, raws: seq<int>, rules: seq<Rule>, accounts: set<string>, faults: map<int, Fault>): (p: Progress)
    requires forall raw :: raw in raws ==> raw in t.raws
    ensures p.tables.raws == t.raws
    ensures p.done + p.failed == |raws|
  {
    if raws == [] then Progress(t, 0, 0)
    else
      var last := raws[|raws| - 1];
      assert last in raws && forall raw :: raw in raws[..|raws| - 1] ==> raw in raws;
      var before := RunRows(t, raws[..|raws| - 1], rules, accounts, faults);
      var after := ProcessRow(before.tables, last, rules, accounts, FaultAt(faults, last));
      if ProcessSucceeds(before.tables, last, rules, accounts, FaultAt(faults, last))
      then Progress(after, before.done + 1, before.failed)
      else Progress(after, before.done, before.failed + 1)
  }

  lemma {:induction false} UnprocessedExact(t: Tables, n: nat)
    ensures forall raw :: raw in UnprocessedBelow(t, n) <==> 0 <= raw < n && raw in t.raws && !HasRow(t, raw)
    ensures forall i, j :: 0 <= i < j < |UnprocessedBelow(t, n)| ==> UnprocessedBelow(t, n)[i] < UnprocessedBelow(t, n)[j]
  {
    if n > 0 {
      UnprocessedExact(t, n - 1);
      var rest := UnprocessedBelow(t, n - 1);
      forall i | 0 <= i < |rest| ensures rest[i] < n - 1 {
        assert rest[i] in rest;
      }
    }
  }

  function RunAll(t: Tables, faults: map<int, Fault>): Progress {
    UnprocessedExact(t, t.nextRaw);
    RunRows(t, UnprocessedBelow(t, t.nextRaw), EnabledBelow(t.rules, t.nextRule), t.env.accounts, faults)
  }

  // ---- Re-applying one rule to history ----

  /** One listed row: its outcome when listed, with the raw fields the rules read. */
  datatype Candidate = Candidate(id: int, direction: Direction, listed: Outcome, rt: RawTransaction)

  function CandidateOf(t: Tables, id: int): Candidate
    requires id in t.rows && t.rows[id].raw in t.raws
  {
    Candidate(id, t.rows[id].direction, t.rows[id].Decided(), t.raws[t.rows[id].raw])
  }

  /** WHERE clause of the candidate listing. */
  predicate Listed(t: Tables, id: int, from: Date) {
    && id in t.rows && t.rows[id].raw in t.raws
    && !t.rows[id].ByHand()
    && NotAfter(from, t.raws[t.rows[id].raw].date)
  }

  function CandidatesBelow(t: Tables, n: nat, from: Date): seq<Candidate> {
    if n == 0 then []
    else if Listed(t, n - 1, from) then CandidatesBelow(t, n - 1, from) + [CandidateOf(t, n - 1)]
    else CandidatesBelow(t, n - 1, from)
  }

  /** What one re-apply holds in memory: the rule, and the rule order and own accounts as loaded. */
  datatype Job = Job(target: Rule, rules: seq<Rule>, accounts: set<string>)

  function OrderOf(rules: seq<Rule>, id: int): Option<nat> {
    if rules == [] then None
    else if rules[|rules| - 1].id == id then Some(|rules| - 1)
    else OrderOf(rules[..|rules| - 1], id)
  }

  /** Currently decided by an enabled rule that runs before the target. */
  predicate DecidedEarlier(job: Job, listed: Outcome) {
    listed.rule.Some? &&
    var position := OrderOf(job.rules, listed.rule.value);
    var target := OrderOf(job.rules, job.target.id);
    position.Some? && position.value < (if target.Some? then target.value else 0)
  }

  /** A failing commit is reported as changed and as failed at once, though it is rolled back. */
  datatype Effect = Unchanged | Changed | Failed | CommitFailed
  {
    predicate CountsChanged() {
      Changed? || CommitFailed?
    }

    predicate CountsFailed() {
      Failed? || CommitFailed?
    }
  }

  /** The coverage statements of a re-apply write. */
  function CoverageStatements(c: Candidate, o: Outcome): set<Statement> {
    if o.member == c.listed.member then {}
    else if o.member.None? then {CoverageDelete}
    else {CoverageDelete, CoverageInsert}
  }

  function Rewrite(t: Tables, c: Candidate, o: Outcome): Tables
    requires c.id in t.rows
  {
    t.(rows := t.rows[c.id := t.rows[c.id].Redecided(o)],
       coverage := if o.member == c.listed.member then t.coverage
                   else InsertDefault(DeleteCoverage(t.coverage, c.id), c.id, c.rt.date, o.member))
  }

  /** Compares with the listed outcome, not with the current row; the UPDATE repeats the manual guards. */
  function WriteEffect(t: Tables, c: Candidate, o: Outcome, fault: Fault): Effect {
    if o == c.listed then Unchanged
    else if fault.Strikes({Begin, RowWrite}) then Failed
    else if c.id !in t.rows || t.rows[c.id].ByHand() then Unchanged
    else if !Storable(t, o) || fault.Strikes(CoverageStatements(c, o)) then Failed
    else if fault.Strikes({Commit}) then CommitFailed
    else Changed
  }

  function ReapplyEffect(t: Tables, job: Job, c: Candidate, fault: Fault): Effect {
    if DecidedEarlier(job, c.listed) then Unchanged
    else
      match ApplyRule(job.target, c.rt, c.direction, Env(t.env.identifiers, job.accounts), fault)
      case NoMatch => Unchanged
      case LookupFailed => Failed
      case Matched(o) => WriteEffect(t, c, o, fault)
  }

  function ReapplyRow(t: Tables, job: Job, c: Candidate, fault: Fault): Tables {
    if ReapplyEffect(t, job, c, fault) == Changed
    then Rewrite(t, c, OutcomeOf(job.target, c.rt, Env(t.env.identifiers, job.accounts)))
    else t
  }

  /** What a re-apply decides for a candidate, if it is to be written at all. */
  function ReapplyDecision(t: Tables, job: Job, c: Candidate, fault: Fault): Verdict {
    if DecidedEarlier(job, c.listed) then NoMatch
    else ApplyRule(job.target, c.rt, c.direction, Env(t.env.identifiers, job.accounts), fault)
  }

  /** The database transaction of writeOutcome, whenever it comes. */
  function WriteChange(t: Tables, c: Candidate, o: Outcome, fault: Fault): Tables {
    if WriteEffect(t, c, o, fault) == Changed then Rewrite(t, c, o) else t
  }

  /** Handling a candidate is deciding and then writing, with nothing in between. */
  lemma ReapplyIsDecideThenWrite(t: Tables, job: Job, c: Candidate, fault: Fault)
    ensures var v := ReapplyDecision(t, job, c, fault);
            ReapplyRow(t, job, c, fault) == if v.Matched? then WriteChange(t, c, v.outcome, fault) else t
  {
  }

  function ReapplyRows(t: Tables, job: Job, cs: seq<Candidate>, faults: map<int, Fault>): Progress {
    if cs == [] then Progress(t, 0, 0)
    else
      var c := cs[|cs| - 1];
      var before := ReapplyRows(t, job, cs[..|cs| - 1], faults);
      var fault := FaultAt(faults, c.id);
      var after := ReapplyRow(before.tables, job, c, fault);
      var effect := ReapplyEffect(before.tables, job, c, fault);
      Progress(after, before.done + (if effect.CountsChanged() then 1 else 0), before.failed + (if effect.CountsFailed() then 1 else 0))
  }

  datatype ReapplyResult = RuleNotFound | RuleDisabled | Reapplied(progress: Progress)

  function JobFor(t: Tables, rule: int): Job
    requires rule in t.rules
  {
    Job(t.rules[rule], EnabledBelow(t.rules, t.nextRule), t.env.accounts)
  }

  function ReapplyAll(t: Tables, rule: int, from: Date, faults: map<int, Fault>): ReapplyResult {
    if rule !in t.rules then RuleNotFound
    else if !t.rules[rule].enabled then RuleDisabled
    else Reapplied(ReapplyRows(t, JobFor(t, rule), CandidatesBelow(t, t.nextRow, from), faults))
  }

  // ---- Manual assignment ----

  datatype AssignRequest = AssignRequest(
    member: Option<int>,
    category: Option<CategoryId>,
    covers: seq<YearMonth>,
    comment: Option<string>)

  datatype Response = BadRequest | NotFound | ServerError | Ok

  function RequestedCategory(req: AssignRequest): CategoryId {
    if req.category.Some? then req.category.value else MEMBERSHIP_FEE
  }

  predicate ValidCover(ym: YearMonth, thisYear: int) {
    1 <= ym.month <= 12 && 2000 <= ym.year <= thisYear + 1
  }

  function AssignResponse(t: Tables, id: int, req: AssignRequest, thisYear: int, fault: Fault): Response {
    if req.member.Some? && req.member.value < 1 then BadRequest
    else if req.covers != [] && (RequestedCategory(req) != MEMBERSHIP_FEE || req.member.None?) then BadRequest
    else if exists i :: 0 <= i < |req.covers| && !ValidCover(req.covers[i], thisYear) then BadRequest
    else if req.member.Some? && req.member.value !in t.members then BadRequest
    else if RequestedCategory(req) !in t.categories then BadRequest
    else if id !in t.rows || t.rows[id].raw !in t.raws then NotFound
    else if fault.Strikes(AssignStatements(AssignedMonths(t, id, req))) then ServerError
    else Ok
  }

  function AssignStatements(months: seq<YearMonth>): set<Statement> {
    {Begin, RowWrite, CoverageDelete, Commit} + if months == [] then {} else {CoverageInsert}
  }

  /** The months an accepted request covers. */
  function AssignedMonths(t: Tables, id: int, req: AssignRequest): seq<YearMonth>
    requires id in t.rows && t.rows[id].raw in t.raws
  {
    if RequestedCategory(req) != MEMBERSHIP_FEE || req.member.None? then []
    else if req.covers != [] then req.covers
    else [DefaultCoveredMonth(t.raws[t.rows[id].raw].date)]
  }

  function AssignRow(t: Tables, id: int, req: AssignRequest, thisYear: int, fault: Fault): Tables {
    if AssignResponse(t, id, req, thisYear, fault) != Ok then t
    else
      var row := t.rows[id].(
        member := req.member,
        category := RequestedCategory(req),
        matchedBy := if req.member.Some? then Some(ByHand) else None,
        adminComment := if req.comment == Some("") then None else req.comment,
        setManually := true);
      var cleared := DeleteCoverage(t.coverage, id);
      t.(rows := t.rows[id := row],
         coverage := if req.member.None? then cleared
                     else InsertCovers(cleared, id, AssignedMonths(t, id, req), req.member.value))
  }

  function UnassignResponse(t: Tables, id: int, fault: Fault): Response {
    if id !in t.rows || t.rows[id].raw !in t.raws then NotFound
    else if fault.Strikes({Begin, CoverageDelete, RowWrite, Commit}) then ServerError
    else Ok
  }

  /** Back to automatic. The deciding rule's id stays on the row. */
  function UnassignRow(t: Tables, id: int, fault: Fault): Tables {
    if UnassignResponse(t, id, fault) != Ok then t
    else
      var row := t.rows[id].(
        member := None,
        category := FallbackCategory(t.rows[id].direction),
        matchedBy := None,
        setManually := false);
      t.(rows := t.rows[id := row], coverage := DeleteCoverage(t.coverage, id))
  }

  // ---- Rule administration ----

  /** A rule request after trimming: `category` may be omitted for a built-in rule. */
  datatype RuleRequest = RuleRequest(
    priority: int,
    category: Option<CategoryId>,
    enabled: bool,
    counterAccount: Option<string>,
    variableSymbol: Option<string>,
    constantSymbol: Option<string>,
    textContains: Option<string>,
    typeContains: Option<string>,
    direction: Option<Direction>)
  {
    predicate HasCondition() {
      counterAccount.Some? || variableSymbol.Some? || constantSymbol.Some? || textContains.Some? || typeContains.Some?
    }

    function ToRule(id: int, kind: RuleKind, category: CategoryId): Rule {
      Rule(id, priority, kind, category, enabled,
           counterAccount, variableSymbol, constantSymbol, textContains, typeContains, direction)
    }
  }

  predicate ValidPattern(t: Tables, req: RuleRequest) {
    req.category.Some? && req.HasCondition() && req.category.value in t.categories
  }

  function CreateRule(t: Tables, req: RuleRequest): Tables {
    if !ValidPattern(t, req) then t
    else t.(rules := t.rules[t.nextRule := req.ToRule(t.nextRule, Pattern, req.category.value)], nextRule := t.nextRule + 1)
  }

  /** Built-in rules take no conditions and keep their category. */
  predicate UpdateAccepted(t: Tables, id: int, req: RuleRequest) {
    && id in t.rules
    && if t.rules[id].kind == Pattern then ValidPattern(t, req)
       else (req.category.Some? ==> req.category.value == t.rules[id].category) && !req.HasCondition() && req.direction.None?
  }

  function UpdateRule(t: Tables, id: int, req: RuleRequest): Tables {
    if !UpdateAccepted(t, id, req) then t
    else
      var current := t.rules[id];
      t.(rules := t.rules[id := req.ToRule(id, current.kind, if current.kind == Pattern then req.category.value else current.category)])
  }

  /** Pattern rules only; rows the rule decided keep their category and lose the reference. */
  function DeleteRule(t: Tables, id: int): Tables {
    if id !in t.rules || t.rules[id].kind != Pattern then t
    else
      t.(rules := map r | r in t.rules && r != id :: t.rules[r],
         rows := map r | r in t.rows :: if t.rows[r].rule == Some(id) then t.rows[r].(rule := None) else t.rows[r])
  }

  /** A raw transaction arriving from the bank sync. */
  function AddRaw(t: Tables, rt: RawTransaction): Tables {
    t.(raws := t.raws[t.nextRaw := rt], nextRaw := t.nextRaw + 1)
  }
}
