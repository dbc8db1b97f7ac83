/** What a rule accepts, read off the transaction's and the rule's own fields, and that the walk
    decides by exactly that. */
module Matching {
  import opened Options
  import opened Calendar
  import opened Symbols
  import opened Categorization

  // ---- Texts up to letter case ----

  /** The same letters, in either case. */
  ghost predicate SameLetters(a: string, b: string) {
    |a| == |b| && forall i :: 0 <= i < |a| ==> ToLowerChar(a[i]) == ToLowerChar(b[i])
  }

  /** The text is some prefix, the part up to letter case, and some suffix. */
  ghost predicate Occurs(text: string, part: string) {
    exists i :: 0 <= i <= |text| && OccursFrom(text, part, i)
  }

  ghost predicate OccursFrom(text: string, part: string, i: nat)
    requires i <= |text|
  {
    exists middle, suffix :: text == text[..i] + middle + suffix && SameLetters(middle, part)
  }

  lemma SameLettersExact(a: string, b: string)
    ensures ToLower(a) == ToLower(b) <==> SameLetters(a, b)
  {
    assert |a| == |b| ==> forall i :: 0 <= i < |a| ==> ToLower(a)[i] == ToLowerChar(a[i]) && ToLower(b)[i] == ToLowerChar(b[i]);
  }

  lemma OccursExact(text: string, part: string, i: nat)
    requires i <= |text|
    ensures OccursAt(ToLower(text), ToLower(part), i) <==> OccursFrom(text, part, i)
  {
    if i + |part| <= |text| {
      var middle := text[i..i + |part|];
      assert text == text[..i] + middle + text[i + |part|..];
      assert ToLower(text)[i..i + |part|] == ToLower(middle);
      hide ToLower;
      SameLettersExact(middle, part);
    }
    if OccursFrom(text, part, i) {
      var middle, suffix :| text == text[..i] + middle + suffix && SameLetters(middle, part);
      assert text[i..i + |part|] == middle;
    }
  }

  lemma ContainsExact(text: string, part: string)
    ensures Contains(ToLower(text), ToLower(part)) <==> Occurs(text, part)
  {
    hide OccursAt, OccursFrom;
    forall i | 0 <= i <= |text| ensures OccursAt(ToLower(text), ToLower(part), i) <==> OccursFrom(text, part, i) {
      OccursExact(text, part, i);
    }
  }

  /** Which letters are the same: a capital and its small letter, in the Latin and the Czech
      alphabet; what is neither stands for itself. */
  lemma LettersFold(c: char)
    ensures 'A' <= c <= 'Z' ==> ToLowerChar(c) == (c - 'A') + 'a'
    ensures c < 'A' || 'Z' < c <= '\U{BF}' || c in {'×', 'ß', '÷'} ==> ToLowerChar(c) == c
    ensures ToLowerChar(ToLowerChar(c)) == ToLowerChar(c)
    ensures && ToLowerChar('Á') == 'á' && ToLowerChar('Č') == 'č' && ToLowerChar('Ď') == 'ď'
            && ToLowerChar('É') == 'é' && ToLowerChar('Ě') == 'ě' && ToLowerChar('Í') == 'í'
            && ToLowerChar('Ň') == 'ň' && ToLowerChar('Ó') == 'ó' && ToLowerChar('Ř') == 'ř'
            && ToLowerChar('Š') == 'š' && ToLowerChar('Ť') == 'ť' && ToLowerChar('Ú') == 'ú'
            && ToLowerChar('Ů') == 'ů' && ToLowerChar('Ý') == 'ý' && ToLowerChar('Ž') == 'ž'
  {
  }

  // ---- Symbols, accounts, dates ----

  /** The two symbols differ in leading zeroes only. */
  ghost predicate DifferInZeroes(a: string, b: string) {
    exists m: nat, n: nat, rest :: a == Zeroes(m) + rest && b == Zeroes(n) + rest
  }

  lemma {:induction false} TrimmedIsRest(n: nat, rest: string)
    ensures TrimZeroes(Zeroes(n) + rest) == TrimZeroes(rest)
  {
    var s := Zeroes(n) + rest;
    if n == 0 {
      assert s == rest;
    } else {
      assert s[1..] == Zeroes(n - 1) + rest;
      TrimmedIsRest(n - 1, rest);
    }
  }

  lemma {:induction false} TrimLeavesRest(s: string) returns (n: nat)
    ensures s == Zeroes(n) + TrimZeroes(s)
  {
    n := 0;
    if s != "" && s[0] == '0' {
      var m := TrimLeavesRest(s[1..]);
      n := m + 1;
      assert s == ['0'] + s[1..] && Zeroes(n) == ['0'] + Zeroes(m);
    }
  }

  lemma NormalizeExact(a: string, b: string)
    ensures Normalize(a) == Normalize(b) <==> DifferInZeroes(a, b)
  {
    var m := TrimLeavesRest(a);
    var n := TrimLeavesRest(b);
    TrimStops(a);
    TrimStops(b);
    if Normalize(a) == Normalize(b) {
      assert a == Zeroes(m) + TrimZeroes(a) && b == Zeroes(n) + TrimZeroes(a);
    }
    if DifferInZeroes(a, b) {
      var k: nat, l: nat, rest :| a == Zeroes(k) + rest && b == Zeroes(l) + rest;
      TrimmedIsRest(k, rest);
      TrimmedIsRest(l, rest);
    }
  }

  /** As the Orca sync stores symbols. */
  ghost predicate Unpadded(symbol: string) {
    symbol == "0" || (symbol != "" && symbol[0] != '0')
  }

  lemma NormalizeFinds(symbol: string, stored: string)
    ensures stored == Normalize(symbol) <==> Unpadded(stored) && DifferInZeroes(symbol, stored)
  {
    TrimStops(symbol);
    NormalizeExact(symbol, stored);
    if Unpadded(stored) {
      assert stored == "0" ==> stored[1..] == "" && TrimZeroes(stored[1..]) == "";
      assert Normalize(stored) == stored;
    }
    if stored == Normalize(symbol) {
      NormalizeIdempotent(symbol);
    }
  }

  // ---- What a rule accepts ----

  /** The identifier is the symbol's, and valid on the day, its last day included. */
  ghost predicate ClaimsOn(identifier: Identifier, symbol: string, date: Date) {
    && Unpadded(identifier.symbol) && DifferInZeroes(symbol, identifier.symbol)
    && NotAfter(identifier.validFrom, date)
    && (identifier.validTo == None || NotAfter(date, identifier.validTo.value))
  }

  /** The identifier is one that claims the symbol, and none that does became valid later. */
  ghost predicate Finds(identifiers: seq<Identifier>, identifier: Identifier, symbol: string, date: Date) {
    && identifier in identifiers && ClaimsOn(identifier, symbol, date)
    && forall other :: other in identifiers && ClaimsOn(other, symbol, date) ==> NotAfter(other.validFrom, identifier.validFrom)
  }

  ghost predicate Says(field: Option<string>, part: string) {
    field.Some? && Occurs(field.value, part)
  }

  /** Each condition the rule sets holds of the transaction. */
  ghost predicate Fits(rule: Rule, rt: RawTransaction, direction: Direction) {
    && (rule.direction == None || rule.direction == Some(direction))
    && (rule.counterAccount == None || rt.counterAccount == rule.counterAccount)
    && (rule.variableSymbol == None
        || (rt.variableSymbol.Some? && DifferInZeroes(rt.variableSymbol.value, rule.variableSymbol.value)))
    && (rule.constantSymbol == None || rt.constantSymbol == rule.constantSymbol)
    && (rule.textContains == None
        || Says(rt.comment, rule.textContains.value)
        || Says(rt.userIdentification, rule.textContains.value)
        || Says(rt.message, rule.textContains.value))
    && (rule.typeContains == None || Says(rt.transactionType, rule.typeContains.value))
  }

  /** The rule takes the transaction with this outcome. */
  ghost predicate Takes(rule: Rule, rt: RawTransaction, direction: Direction, env: Env, o: Outcome) {
    match rule.kind
    case OwnAccount =>
      (exists account :: account in env.accounts && rt.counterAccount == Some(account)) && o == Outcome(rule.category, Some(rule.id), None, None)
    case Pattern =>
      Fits(rule, rt, direction) && o == Outcome(rule.category, Some(rule.id), None, None)
    case MemberVariableSymbol =>
      && rt.variableSymbol.Some? && rt.variableSymbol.value != ""
      && exists identifier ::
           && Finds(env.identifiers, identifier, rt.variableSymbol.value, rt.date)
           && o == Outcome(rule.category, Some(rule.id), Some(identifier.member), Some(ByVariableSymbol))
  }

  lemma FitsExact(rule: Rule, rt: RawTransaction, direction: Direction)
    ensures MatchesPattern(rule, rt, direction) <==> Fits(rule, rt, direction)
  {
    hide Occurs, Contains, Normalize, DifferInZeroes;
    if rule.variableSymbol.Some? && rt.variableSymbol.Some? {
      NormalizeExact(rt.variableSymbol.value, rule.variableSymbol.value);
    }
    forall text: string, part: string ensures Contains(ToLower(text), ToLower(part)) <==> Occurs(text, part) {
      ContainsExact(text, part);
    }
  }

  lemma ClaimsExact(identifier: Identifier, symbol: string, date: Date)
    ensures Claims(identifier, Normalize(symbol), date) <==> ClaimsOn(identifier, symbol, date)
  {
    NormalizeFinds(symbol, identifier.symbol);
  }

  /** What one rule answers. */
  lemma RuleExact(rule: Rule, rt: RawTransaction, direction: Direction, env: Env)
    ensures Matches(rule, rt, direction, env) <==> exists o :: Takes(rule, rt, direction, env, o)
    ensures Matches(rule, rt, direction, env) ==> Takes(rule, rt, direction, env, OutcomeOf(rule, rt, env))
  {
    match rule.kind
    case OwnAccount =>
      assert Matches(rule, rt, direction, env) ==> Takes(rule, rt, direction, env, Outcome(rule.category, Some(rule.id), None, None));
    case Pattern =>
      FitsExact(rule, rt, direction);
      assert Matches(rule, rt, direction, env) ==> Takes(rule, rt, direction, env, Outcome(rule.category, Some(rule.id), None, None));
    case MemberVariableSymbol =>
      if rt.variableSymbol.Some? && rt.variableSymbol.value != "" {
        MemberExact(rule, rt, direction, env);
      }
  }

  lemma MemberExact(rule: Rule, rt: RawTransaction, direction: Direction, env: Env)
    requires rule.kind == MemberVariableSymbol && rt.variableSymbol.Some? && rt.variableSymbol.value != ""
    ensures Matches(rule, rt, direction, env) <==> exists o :: Takes(rule, rt, direction, env, o)
    ensures Matches(rule, rt, direction, env) ==> Takes(rule, rt, direction, env, OutcomeOf(rule, rt, env))
  {
    hide Normalize, DifferInZeroes, Unpadded;
    var (symbol, found) := (rt.variableSymbol.value, Lookup(rt, env));
    forall identifier ensures Claims(identifier, Normalize(symbol), rt.date) <==> ClaimsOn(identifier, symbol, rt.date) {
      ClaimsExact(identifier, symbol, rt.date);
    }
    if found.Some? {
      assert Finds(env.identifiers, found.value, symbol, rt.date);
      assert Takes(rule, rt, direction, env, OutcomeOf(rule, rt, env));
    } else {
      forall identifier | identifier in env.identifiers ensures !ClaimsOn(identifier, symbol, rt.date) {
        assert !Claims(identifier, Normalize(symbol), rt.date);
      }
    }
  }

  // ---- The verdict ----

  ghost predicate TakesNothing(rule: Rule, rt: RawTransaction, direction: Direction, env: Env) {
    forall o :: !Takes(rule, rt, direction, env, o)
  }

  /** The verdict is that of the first rule that takes the transaction, or other income and other
      expense when none does. */
  lemma {:induction false} FirstTakerDecides(rules: seq<Rule>, rt: RawTransaction, direction: Direction, env: Env) returns (i: nat)
    ensures i <= |rules| && forall j :: 0 <= j < i ==> TakesNothing(rules[j], rt, direction, env)
    ensures Walk(rules, rt, direction, env, NoFault).Matched?
    ensures var o := Walk(rules, rt, direction, env, NoFault).outcome;
            if i < |rules| then Takes(rules[i], rt, direction, env, o)
            else o == Outcome(match direction case Incoming => OTHER_INCOME case Outgoing => OTHER_EXPENSE, None, None, None)
  {
    i := 0;
    if rules != [] {
      RuleExact(rules[0], rt, direction, env);
      hide Takes, Matches, OutcomeOf;
      if !Matches(rules[0], rt, direction, env) {
        var k := FirstTakerDecides(rules[1..], rt, direction, env);
        i := k + 1;
        forall j | 0 <= j < i ensures TakesNothing(rules[j], rt, direction, env) {
          if j > 0 {
            assert rules[j] == rules[1..][j - 1];
          }
        }
      }
    }
  }

  /** A rule alone in the chain: its own outcome exactly when it takes the transaction. */
  lemma OnlyRule(rule: Rule, rt: RawTransaction, direction: Direction, env: Env, o: Outcome)
    requires o.rule.Some?
    ensures Walk([rule], rt, direction, env, NoFault) == Matched(o) ==> Takes(rule, rt, direction, env, o)
    ensures Takes(rule, rt, direction, env, o) && rule.kind != MemberVariableSymbol ==> Walk([rule], rt, direction, env, NoFault) == Matched(o)
  {
    var i := FirstTakerDecides([rule], rt, direction, env);
    if Takes(rule, rt, direction, env, o) {
      assert !TakesNothing([rule][0], rt, direction, env);
    }
  }

  ghost predicate NoneBefore(rules: seq<Rule>, n: nat, rt: RawTransaction, direction: Direction, env: Env)
    requires n <= |rules|
  {
    forall j :: 0 <= j < n ==> TakesNothing(rules[j], rt, direction, env)
  }

  /** When lookups fail, the walk fails exactly if it comes to a rule that asks, no rule before it
      taking the transaction; otherwise it decides as if nothing failed. */
  lemma {:induction false} LookupFails(rules: seq<Rule>, rt: RawTransaction, direction: Direction, env: Env)
    ensures Walk(rules, rt, direction, env, LookupFault) ==
              if exists i :: 0 <= i < |rules| && Asks(rules[i], rt) && NoneBefore(rules, i, rt, direction, env) then LookupFailed
              else Walk(rules, rt, direction, env, NoFault)
  {
    if rules != [] {
      var rest := rules[1..];
      RuleExact(rules[0], rt, direction, env);
      LookupFails(rest, rt, direction, env);
      hide Takes, Matches, OutcomeOf;
      if Asks(rules[0], rt) {
        assert NoneBefore(rules, 0, rt, direction, env);
      } else {
        forall i | 0 < i < |rules|
          ensures NoneBefore(rules, i, rt, direction, env)
                  <==> TakesNothing(rules[0], rt, direction, env) && NoneBefore(rest, i - 1, rt, direction, env)
        {
          assert forall j :: 0 <= j < i - 1 ==> rest[j] == rules[j + 1];
          assert forall j :: 0 < j < i ==> rules[j] == rest[j - 1];
        }
        assert forall i :: 0 <= i < |rest| ==> rules[i + 1] == rest[i];
        if i :| 0 <= i < |rest| && Asks(rest[i], rt) && NoneBefore(rest, i, rt, direction, env) {
          if TakesNothing(rules[0], rt, direction, env) {
            assert Asks(rules[i + 1], rt) && NoneBefore(rules, i + 1, rt, direction, env);
          }
        }
        if i :| 0 <= i < |rules| && Asks(rules[i], rt) && NoneBefore(rules, i, rt, direction, env) {
          assert rest[i - 1] == rules[i] && NoneBefore(rest, i - 1, rt, direction, env);
        }
      }
    }
  }

  /** Only a member rule asks the database, and only for a symbol that is not blank. */
  ghost predicate Asks(rule: Rule, rt: RawTransaction) {
    rule.kind == MemberVariableSymbol && rt.variableSymbol != None && rt.variableSymbol != Some("")
  }
}
