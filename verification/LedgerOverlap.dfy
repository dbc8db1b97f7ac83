/** Why re-applies must not overlap: two of them in flight can leave a month credited
    to a member whose transaction no longer names them. And why a run that loaded an older
    chain must have ended: what it writes after the listing escapes the new rule. */
module LedgerOverlap {
  import opened Options
  import opened Calendar
  import opened Categorization
  import opened Ledger
  import opened LedgerInvariant
  import opened LedgerMachine
  import opened LedgerRefine
  import Symbols

  const PAID := Date(2026, 5, 12)
  const PAYMENT := RawTransaction(PAID, 34000, "CZK", Some("111"), Some("7"), None, None, None, None, None)
  const CLAIM := Identifier(7, "7", Date(2020, 1, 1), None)
  const MEMBER := Rule(1, 300, MemberVariableSymbol, MEMBERSHIP_FEE, true, None, None, None, None, None, None)
  const ACCOUNT := Rule(2, 400, Pattern, OTHER_INCOME, true, Some("111"), None, None, None, None, None)
  const APRIL := CoverKey(1, YearMonth(2026, 4))

  /** One payment, processed before member 7 had an identifier and the account rule existed. */
  const UNMATCHED := Row(1, None, OTHER_INCOME, Incoming, None, false, None, None)
  const START := Tables(map[1 := PAYMENT], 2, map[1 := UNMATCHED], 2, map[], map[1 := MEMBER, 2 := ACCOUNT], 3,
                        Env([CLAIM], {}), {7}, {MEMBERSHIP_FEE, OTHER_INCOME})
  const LISTED := Candidate(1, Incoming, Fallback(Incoming), PAYMENT)

  /** Both rules list the payment and decide; the member rule writes first, the account rule last. */
  const OVERLAP: seq<Action> := [
    StartReapply(2, PAID), StartReapply(1, PAID),
    ReapplyDecide(1, NoFault), ReapplyDecide(0, NoFault),
    ReapplyWrite(1, NoFault), ReapplyWrite(0, NoFault)]

  const BY_MEMBER := Outcome(MEMBERSHIP_FEE, Some(1), Some(7), Some(ByVariableSymbol))
  const BY_ACCOUNT := Outcome(OTHER_INCOME, Some(2), None, None)
  const MEMBER_JOB := Job(MEMBER, [MEMBER, ACCOUNT], {})
  const ACCOUNT_JOB := Job(ACCOUNT, [MEMBER, ACCOUNT], {})

  lemma RulesListed()
    ensures EnabledBelow(START.rules, 3) == [MEMBER, ACCOUNT]
  {
    assert EnabledBelow(START.rules, 0) == [];
    assert EnabledBelow(START.rules, 1) == [];
    assert EnabledBelow(START.rules, 2) == [MEMBER];
    assert InsertInOrder([MEMBER], ACCOUNT) == [MEMBER, ACCOUNT] by {
      assert [MEMBER][1..] == [];
    }
  }

  lemma PaymentListed()
    ensures CandidatesBelow(START, 2, PAID) == [LISTED]
  {
    assert CandidatesBelow(START, 0, PAID) == [];
    assert CandidatesBelow(START, 1, PAID) == [];
    assert CandidateOf(START, 1) == LISTED;
  }

  function Start(): Machine {
    Machine(START, [], [])
  }

  /** Both jobs in flight, at the given stages. */
  function InFlight(t: Tables, account: Option<Outcome>, member: Option<Outcome>, memberPending: seq<Candidate>): Machine {
    Machine(t, [], [ReapplyJob(ACCOUNT_JOB, [LISTED], account), ReapplyJob(MEMBER_JOB, memberPending, member)])
  }

  lemma BothList()
    ensures Next(Next(Start(), OVERLAP[0]), OVERLAP[1]) == InFlight(START, None, None, [LISTED])
    ensures !Idle(Next(Start(), OVERLAP[0]))
  {
    RulesListed();
    PaymentListed();
    var m1 := Next(Start(), OVERLAP[0]);
    assert m1.reapplies == [ReapplyJob(ACCOUNT_JOB, [LISTED], None)];
    assert m1.reapplies[0].pending != [];
  }

  lemma MemberDecides()
    ensures Next(InFlight(START, None, None, [LISTED]), OVERLAP[2]) == InFlight(START, None, Some(BY_MEMBER), [LISTED])
  {
    assert Symbols.TrimZeroes("7") == "7";
    assert Claims(CLAIM, "7", PAID);
    assert Lookup(PAYMENT, Env([CLAIM], {})) == Some(CLAIM);
    assert ReapplyDecision(START, MEMBER_JOB, LISTED, NoFault) == Matched(BY_MEMBER);
  }

  lemma AccountDecides()
    ensures Next(InFlight(START, None, Some(BY_MEMBER), [LISTED]), OVERLAP[3])
            == InFlight(START, Some(BY_ACCOUNT), Some(BY_MEMBER), [LISTED])
  {
    assert MatchesPattern(ACCOUNT, PAYMENT, Incoming);
    assert ReapplyDecision(START, ACCOUNT_JOB, LISTED, NoFault) == Matched(BY_ACCOUNT);
  }

  function MemberWritten(): Tables {
    START.(rows := map[1 := UNMATCHED.Redecided(BY_MEMBER)],
           coverage := map[APRIL := 7])
  }

  lemma MemberRuleWrites()
    ensures WriteChange(START, LISTED, BY_MEMBER, NoFault) == MemberWritten()
  {
    assert WriteEffect(START, LISTED, BY_MEMBER, NoFault) == Changed;
    assert DeleteCoverage(START.coverage, 1) == map[];
    assert DefaultCoveredMonth(PAID) == YearMonth(2026, 4);
    assert Rewrite(START, LISTED, BY_MEMBER) == MemberWritten();
  }

  lemma MemberWritesFirst()
    ensures Next(InFlight(START, Some(BY_ACCOUNT), Some(BY_MEMBER), [LISTED]), OVERLAP[4])
            == InFlight(MemberWritten(), Some(BY_ACCOUNT), None, [])
  {
    MemberRuleWrites();
    assert [LISTED][1..] == [];
  }

  lemma AccountRuleOverwrites()
    ensures var t := WriteChange(MemberWritten(), LISTED, BY_ACCOUNT, NoFault);
            t.rows[1].member.None? && t.coverage == map[APRIL := 7]
  {
    assert WriteEffect(MemberWritten(), LISTED, BY_ACCOUNT, NoFault) == Changed;
  }

  lemma AccountWritesLast()
    ensures !LedgerOk(Next(InFlight(MemberWritten(), Some(BY_ACCOUNT), None, []), OVERLAP[5]).t)
  {
    AccountRuleOverwrites();
    var t := WriteChange(MemberWritten(), LISTED, BY_ACCOUNT, NoFault);
    assert APRIL in t.coverage && t.rows[1].member.None?;
    assert !CoverageOk(t);
  }

  lemma StartOk()
    ensures MachineOk(Start())
  {
    assert AutomaticOk(START, 1);
  }

  lemma Unfold(m: Machine, actions: seq<Action>)
    requires actions != []
    ensures Execute(m, actions) == Execute(Next(m, actions[0]), actions[1..])
    ensures OneAtATime(m, actions) ==> (actions[0].StartReapply? ==> Idle(m)) && OneAtATime(Next(m, actions[0]), actions[1..])
  {
  }

  lemma TwoSteps(m: Machine, actions: seq<Action>)
    requires |actions| >= 2
    ensures Execute(m, actions) == Execute(Next(Next(m, actions[0]), actions[1]), actions[2..])
    ensures OneAtATime(m, actions) && actions[1].StartReapply? ==> Idle(Next(m, actions[0]))
  {
    Unfold(m, actions);
    Unfold(Next(m, actions[0]), actions[1..]);
    assert actions[1..][1..] == actions[2..];
  }

  /** A sound state and two overlapping re-applies that leave it unsound. */
  lemma OverlapLosesTheMember()
    ensures MachineOk(Start()) && !OneAtATime(Start(), OVERLAP) && !LedgerOk(Execute(Start(), OVERLAP).t)
  {
    StartOk();
    BothList();
    TwoSteps(Start(), OVERLAP);
    OverlapDecidesAndWrites(InFlight(START, None, None, [LISTED]), OVERLAP[2..]);
  }

  lemma OverlapDecidesAndWrites(m: Machine, rest: seq<Action>)
    requires m == InFlight(START, None, None, [LISTED]) && rest == OVERLAP[2..]
    ensures !LedgerOk(Execute(m, rest).t)
  {
    MemberDecides();
    AccountDecides();
    TwoSteps(m, rest);
    MemberWritesFirst();
    AccountWritesLast();
    TwoSteps(InFlight(START, Some(BY_ACCOUNT), Some(BY_MEMBER), [LISTED]), rest[2..]);
  }

  // ---- A run with an older chain ----

  const BEFORE := START.(rows := map[], nextRow := 1, rules := map[2 := ACCOUNT])

  /** A run that loaded an empty chain, just before the account rule was added. */
  function OldRun(): Machine {
    Machine(BEFORE, [RunJob([], {}, [1], None, 0, 0)], [])
  }

  const LATE: seq<Action> := [RunDecide(0, NoFault), RunWrite(0, NoFault)]

  lemma AccountRuleOnly()
    ensures EnabledBelow(BEFORE.rules, 3) == [ACCOUNT]
  {
    assert EnabledBelow(BEFORE.rules, 0) == [];
    assert EnabledBelow(BEFORE.rules, 1) == [];
    assert EnabledBelow(BEFORE.rules, 2) == [];
  }

  function Listing(run: RunJob): Machine {
    Machine(BEFORE, [run], [ReapplyJob(JobFor(BEFORE, 2), [], None)])
  }

  lemma NothingToList()
    ensures Next(OldRun(), StartReapply(2, PAID)) == Listing(OldRun().runs[0])
  {
    assert CandidatesBelow(BEFORE, 0, PAID) == [];
    assert CandidatesBelow(BEFORE, 1, PAID) == [];
  }

  lemma OldRunStores()
    ensures Next(Next(Listing(OldRun().runs[0]), LATE[0]), LATE[1])
            == Listing(RunJob([], {}, [], None, 1, 0)).(t := Store(BEFORE, 1, Fallback(Incoming)))
  {
    assert VerdictFor(BEFORE, 1, [], {}, NoFault) == Matched(Fallback(Incoming));
    assert Next(Listing(OldRun().runs[0]), LATE[0]) == Listing(RunJob([], {}, [1], Some(Fallback(Incoming)), 0, 0));
    assert WriteNew(BEFORE, 1, Fallback(Incoming), NoFault) == Store(BEFORE, 1, Fallback(Incoming));
    assert [1][1..] == [];
  }

  lemma StoredOutsideTheRule()
    ensures var t := Store(BEFORE, 1, Fallback(Incoming));
            Listed(t, 1, PAID) && !RowAgrees(t, 1)
  {
    AccountRuleOnly();
    var t := Store(BEFORE, 1, Fallback(Incoming));
    assert MatchesPattern(ACCOUNT, PAYMENT, Incoming);
    assert Walk([ACCOUNT], PAYMENT, Incoming, t.env, NoFault) == Matched(BY_ACCOUNT);
  }

  lemma OldRunOtherwiseFine()
    ensures MachineOk(OldRun()) && Idle(OldRun()) && Qualifies(BEFORE, 2, []) && AllUndisturbed(Listing(OldRun().runs[0]), LATE, 0)
  {
    AccountRuleOnly();
  }

  /** All but the run's chain is as the refinement needs it, and the row stays outside the new rule. */
  lemma OldRunEscapes()
    ensures MachineOk(OldRun()) && Idle(OldRun()) && Qualifies(BEFORE, 2, []) && AllUndisturbed(Listing(OldRun().runs[0]), LATE, 0)
    ensures Next(OldRun(), StartReapply(2, PAID)) == Listing(OldRun().runs[0])
    ensures var m' := Execute(Listing(OldRun().runs[0]), LATE);
            m'.reapplies[0].pending == [] && Listed(m'.t, 1, PAID) && !RowAgrees(m'.t, 1)
  {
    OldRunOtherwiseFine();
    NothingToList();
    hide Next, Listed, RowAgrees;
    OldRunStores();
    TwoSteps(Listing(OldRun().runs[0]), LATE);
    StoredOutsideTheRule();
  }
}
