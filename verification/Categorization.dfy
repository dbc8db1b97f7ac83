/** Which rule decides a transaction: the ordered rule walk of the processing
    job, and what it means independently of the walk (the least matching rule). */
module Categorization {
  import opened Options
  import opened Calendar
  import Symbols

  /** Category ids; the six mandatory ones are fixed. */
  type CategoryId = nat

  const MEMBERSHIP_FEE: CategoryId := 1
  const SALARY: CategoryId := 2
  const OTHER_INCOME: CategoryId := 3
  const OTHER_EXPENSE: CategoryId := 4
  const INTERNAL_TRANSFER: CategoryId := 5
  const CREDITED_INTEREST: CategoryId := 6

  datatype Direction = Incoming | Outgoing

  datatype MatchedBy = ByVariableSymbol | ByHand

  datatype RuleKind = OwnAccount | MemberVariableSymbol | Pattern

  /** The columns of raw_transactions that processing and reporting read. Amounts in hellers. */
  datatype RawTransaction = RawTransaction(
    date: Date,
    amount: int,
    currency: string,
    counterAccount: Option<string>,
    variableSymbol: Option<string>,
    constantSymbol: Option<string>,
    comment: Option<string>,
    userIdentification: Option<string>,
    message: Option<string>,
    transactionType: Option<string>)

  /** Conditions apply to Pattern rules only; the built-in kinds leave them unset. */
  datatype Rule = Rule(
    id: int,
    priority: int,
    kind: RuleKind,
    category: CategoryId,
    enabled: bool,
    counterAccount: Option<string>,
    variableSymbol: Option<string>,
    constantSymbol: Option<string>,
    textContains: Option<string>,
    typeContains: Option<string>,
    direction: Option<Direction>)

  datatype Identifier = Identifier(member: int, symbol: string, validFrom: Date, validTo: Option<Date>)

  /** What rules consult besides the transaction: payment identifiers and our own account numbers. */
  datatype Env = Env(identifiers: seq<Identifier>, accounts: set<string>)

  datatype Outcome = Outcome(
    category: CategoryId,
    rule: Option<int>,
    member: Option<int>,
    matchedBy: Option<MatchedBy>)

  /** The statements a write consists of, in their order; each write performs some of them. */
  datatype Statement = Begin | RowWrite | CoverageDelete | CoverageInsert | Commit

  /** Database failures while one row is handled: in the member lookup, or at a statement of the write. */
  datatype Fault = NoFault | LookupFault | WriteFault(at: Statement)
  {
    predicate Strikes(statements: set<Statement>) {
      WriteFault? && at in statements
    }
  }

  datatype Verdict = Matched(outcome: Outcome) | NoMatch | LookupFailed

  function DirectionOf(amount: int): Direction {
    if amount < 0 then Outgoing else Incoming
  }

  function FallbackCategory(direction: Direction): CategoryId {
    if direction == Incoming then OTHER_INCOME else OTHER_EXPENSE
  }

  function Fallback(direction: Direction): Outcome {
    Outcome(FallbackCategory(direction), None, None, None)
  }

  // ---- Conditions of a pattern rule ----

  /** Lower-casing of the Basic Latin, Latin-1 and Latin Extended-A letters. */
  function ToLowerChar(c: char): char {
    var n := c as int;
    if 0x41 <= n <= 0x5A || (0xC0 <= n <= 0xDE && n != 0xD7) then (n + 32) as char
    else if n == 0x130 then 'i'
    else if n == 0x178 then 0xFF as char
    else if (0x100 <= n <= 0x137 || 0x14A <= n <= 0x177) && n % 2 == 0 then (n + 1) as char
    else if (0x139 <= n <= 0x148 || 0x179 <= n <= 0x17E) && n % 2 == 1 then (n + 1) as char
    else c
  }

  function ToLower(s: string): string {
    seq(|s|, i requires 0 <= i < |s| => ToLowerChar(s[i]))
  }

  predicate OccursAt(s: string, part: string, i: int) {
    0 <= i <= |s| - |part| && s[i..i + |part|] == part
  }

  predicate Contains(s: string, part: string) {
    exists i :: 0 <= i <= |s| && OccursAt(s, part, i)
  }

  predicate ContainsFold(field: Option<string>, part: string) {
    field.Some? && Contains(ToLower(field.value), ToLower(part))
  }

  predicate MatchesPattern(rule: Rule, rt: RawTransaction, direction: Direction) {
    && (rule.direction.Some? ==> rule.direction.value == direction)
    && (rule.counterAccount.Some? ==> rt.counterAccount == rule.counterAccount)
    && (rule.variableSymbol.Some? ==>
          && rt.variableSymbol.Some?
          && Symbols.Normalize(rt.variableSymbol.value) == Symbols.Normalize(rule.variableSymbol.value))
    && (rule.constantSymbol.Some? ==> rt.constantSymbol == rule.constantSymbol)
    && (rule.textContains.Some? ==>
          || ContainsFold(rt.comment, rule.textContains.value)
          || ContainsFold(rt.userIdentification, rule.textContains.value)
          || ContainsFold(rt.message, rule.textContains.value))
    && (rule.typeContains.Some? ==> ContainsFold(rt.transactionType, rule.typeContains.value))
  }

  // ---- The member lookup ----

  predicate Claims(id: Identifier, symbol: string, date: Date) {
    id.symbol == symbol && NotAfter(id.validFrom, date) && (id.validTo.Some? ==> NotAfter(date, id.validTo.value))
  }

  /** The claiming identifier with the latest valid_from. */
  function FindIdentifier(ids: seq<Identifier>, symbol: string, date: Date): (r: Option<Identifier>)
    ensures r.None? <==> forall id :: id in ids ==> !Claims(id, symbol, date)
    ensures r.Some? ==> r.value in ids && Claims(r.value, symbol, date)
                        && forall id :: id in ids && Claims(id, symbol, date) ==> NotAfter(id.validFrom, r.value.validFrom)
  {
    if ids == [] then None
    else
      var rest := FindIdentifier(ids[1..], symbol, date);
      assert forall id :: id in ids <==> id == ids[0] || id in ids[1..];
      if Claims(ids[0], symbol, date) && (rest.None? || NotAfter(rest.value.validFrom, ids[0].validFrom))
      then Some(ids[0]) else rest
  }

  // ---- One rule ----

  /** Only the member rule asks the database, and only for a non-blank symbol. */
  predicate NeedsLookup(rule: Rule, rt: RawTransaction) {
    rule.kind == MemberVariableSymbol && rt.variableSymbol.Some? && rt.variableSymbol.value != ""
  }

  function Lookup(rt: RawTransaction, env: Env): Option<Identifier>
    requires rt.variableSymbol.Some?
  {
    FindIdentifier(env.identifiers, Symbols.Normalize(rt.variableSymbol.value), rt.date)
  }

  predicate Matches(rule: Rule, rt: RawTransaction, direction: Direction, env: Env) {
    match rule.kind
    case OwnAccount => rt.counterAccount.Some? && rt.counterAccount.value in env.accounts
    case MemberVariableSymbol => NeedsLookup(rule, rt) && Lookup(rt, env).Some?
    case Pattern => MatchesPattern(rule, rt, direction)
  }

  function OutcomeOf(rule: Rule, rt: RawTransaction, env: Env): Outcome {
    if rule.kind == MemberVariableSymbol && rt.variableSymbol.Some? && Lookup(rt, env).Some? then
      Outcome(rule.category, Some(rule.id), Some(Lookup(rt, env).value.member), Some(ByVariableSymbol))
    else
      Outcome(rule.category, Some(rule.id), None, None)
  }

  function ApplyRule(rule: Rule, rt: RawTransaction, direction: Direction, env: Env, fault: Fault): Verdict {
    if NeedsLookup(rule, rt) && fault == LookupFault then LookupFailed
    else if Matches(rule, rt, direction, env) then Matched(OutcomeOf(rule, rt, env))
    else NoMatch
  }

  // ---- The walk ----

  /** First rule of the list that matches, or the first failing lookup on the way. */
  function Walk(rules: seq<Rule>, rt: RawTransaction, direction: Direction, env: Env, fault: Fault): Verdict {
    if rules == [] then Matched(Fallback(direction))
    else
      match ApplyRule(rules[0], rt, direction, env, fault)
      case NoMatch => Walk(rules[1..], rt, direction, env, fault)
      case verdict => verdict
  }

  method Categorize(rules: seq<Rule>, rt: RawTransaction, direction: Direction, env: Env, fault: Fault)
    returns (verdict: Verdict)
    ensures verdict == Walk(rules, rt, direction, env, fault)
    ensures !verdict.NoMatch?
  {
    for i := 0 to |rules|
      invariant Walk(rules, rt, direction, env, fault) == Walk(rules[i..], rt, direction, env, fault)
    {
      assert rules[i..][1..] == rules[i + 1..];
      verdict := ApplyRule(rules[i], rt, direction, env, fault);
      if !verdict.NoMatch? {
        return;
      }
    }
    verdict := Matched(Fallback(direction));
  }

  // ---- Evaluation order: ORDER BY priority, id ----

  predicate Precedes(a: Rule, b: Rule) {
    a.priority < b.priority || (a.priority == b.priority && a.id < b.id)
  }

  ghost predicate Ordered(rules: seq<Rule>) {
    forall i, j :: 0 <= i < j < |rules| ==> Precedes(rules[i], rules[j])
  }

  function InsertInOrder(rules: seq<Rule>, rule: Rule): seq<Rule> {
    if rules == [] || Precedes(rule, rules[0]) then [rule] + rules
    else [rules[0]] + InsertInOrder(rules[1..], rule)
  }

  /** The enabled rules with an id below `next`, in evaluation order. */
  function EnabledBelow(rules: map<int, Rule>, next: nat): seq<Rule> {
    if next == 0 then []
    else if next - 1 in rules && rules[next - 1].enabled then
      InsertInOrder(EnabledBelow(rules, next - 1), rules[next - 1])
    else EnabledBelow(rules, next - 1)
  }

  ghost predicate KeyedById(rules: map<int, Rule>) {
    forall id :: id in rules ==> rules[id].id == id
  }

  lemma {:induction false} InsertElements(rules: seq<Rule>, rule: Rule)
    ensures forall r :: r in InsertInOrder(rules, rule) <==> r in rules || r == rule
  {
    if rules != [] && !Precedes(rule, rules[0]) {
      InsertElements(rules[1..], rule);
      assert forall r :: r in rules <==> r == rules[0] || r in rules[1..];
    }
  }

  lemma {:induction false} InsertKeepsOrder(rules: seq<Rule>, rule: Rule)
    requires Ordered(rules) && forall r :: r in rules ==> r.id != rule.id
    ensures Ordered(InsertInOrder(rules, rule))
  {
    if rules != [] && !Precedes(rule, rules[0]) {
      var tail := InsertInOrder(rules[1..], rule);
      InsertElements(rules[1..], rule);
      assert Ordered(tail) by {
        assert forall r :: r in rules[1..] ==> r in rules;
        InsertKeepsOrder(rules[1..], rule);
      }
      forall j | 0 <= j < |tail|
        ensures Precedes(rules[0], tail[j])
      {
        assert tail[j] in tail;
        if tail[j] != rule {
          var k :| 0 <= k < |rules[1..]| && rules[1..][k] == tail[j];
          assert Precedes(rules[0], rules[k + 1]);
        } else {
          assert rules[0] in rules;
        }
      }
    }
  }

  /** The query's result: every enabled rule once, sorted by priority, ties by id. */
  lemma {:induction false} EnabledInOrder(rules: map<int, Rule>, next: nat)
    requires KeyedById(rules)
    ensures Ordered(EnabledBelow(rules, next))
    ensures forall r :: r in EnabledBelow(rules, next) <==>
                          0 <= r.id < next && r.id in rules && rules[r.id] == r && r.enabled
  {
    if next > 0 {
      EnabledInOrder(rules, next - 1);
      if next - 1 in rules && rules[next - 1].enabled {
        InsertElements(EnabledBelow(rules, next - 1), rules[next - 1]);
        InsertKeepsOrder(EnabledBelow(rules, next - 1), rules[next - 1]);
      }
    }
  }

  // ---- What the walk means ----

  /** `rule` decides the transaction: it matches and no earlier listed rule does. */
  ghost predicate Decides(rules: seq<Rule>, rule: Rule, rt: RawTransaction, direction: Direction, env: Env) {
    && rule in rules
    && Matches(rule, rt, direction, env)
    && forall q :: q in rules && Matches(q, rt, direction, env) ==> q == rule || Precedes(rule, q)
  }

  ghost predicate NoneMatch(rules: seq<Rule>, rt: RawTransaction, direction: Direction, env: Env) {
    forall q :: q in rules ==> !Matches(q, rt, direction, env)
  }

  /** Over an ordered list the walk finds the least matching rule, or the fallback when none matches. */
  lemma {:induction false} WalkFindsDecider(rules: seq<Rule>, rt: RawTransaction, direction: Direction, env: Env)
    requires Ordered(rules)
    ensures var verdict := Walk(rules, rt, direction, env, NoFault);
            || (NoneMatch(rules, rt, direction, env) && verdict == Matched(Fallback(direction)))
            || exists rule :: Decides(rules, rule, rt, direction, env) && verdict == Matched(OutcomeOf(rule, rt, env))
  {
    if rules == [] {
    } else if Matches(rules[0], rt, direction, env) {
      assert Decides(rules, rules[0], rt, direction, env);
    } else {
      WalkFindsDecider(rules[1..], rt, direction, env);
      assert forall q :: q in rules <==> q == rules[0] || q in rules[1..];
      if rule :| Decides(rules[1..], rule, rt, direction, env)
                 && Walk(rules[1..], rt, direction, env, NoFault) == Matched(OutcomeOf(rule, rt, env)) {
        assert Decides(rules, rule, rt, direction, env);
      }
    }
  }

  /** The converse: a decider, or the absence of any match, fixes the walk's verdict. */
  lemma DeciderIsWalked(rules: seq<Rule>, rule: Option<Rule>, rt: RawTransaction, direction: Direction, env: Env)
    requires Ordered(rules)
    requires if rule.Some? then Decides(rules, rule.value, rt, direction, env) else NoneMatch(rules, rt, direction, env)
    ensures Walk(rules, rt, direction, env, NoFault)
            == Matched(if rule.Some? then OutcomeOf(rule.value, rt, env) else Fallback(direction))
  {
    WalkFindsDecider(rules, rt, direction, env);
  }
}
