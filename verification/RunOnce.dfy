/** Processing runs handle each raw transaction once, across per-row failures and
    any number of runs. */
module RunOnce {
  import opened Categorization
  import opened Ledger
  import opened LedgerInvariant

  /** The raw ids a run fails on, judged from the tables it started with. */
  function Failing(t: Tables, raws: seq<int>, rules: seq<Rule>, accounts: set<string>, faults: map<int, Fault>): seq<int>
    requires forall raw :: raw in raws ==> raw in t.raws
  {
    if raws == [] then []
    else
      var last := raws[|raws| - 1];
      assert last in raws && forall raw :: raw in raws[..|raws| - 1] ==> raw in raws;
      var front := Failing(t, raws[..|raws| - 1], rules, accounts, faults);
      if ProcessSucceeds(t, last, rules, accounts, FaultAt(faults, last)) then front else front + [last]
  }

  ghost predicate Ascending(raws: seq<int>) {
    forall i, j :: 0 <= i < j < |raws| ==> raws[i] < raws[j]
  }

  ghost predicate Handled(
    t: Tables, p: Progress, raws: seq<int>, rules: seq<Rule>, accounts: set<string>, faults: map<int, Fault>)
    requires forall raw :: raw in raws ==> raw in t.raws
  {
    var t' := p.tables;
    && t'.raws == t.raws && t'.nextRaw == t.nextRaw && t'.rules == t.rules && t'.nextRule == t.nextRule
    && t'.env == t.env && t'.categories == t.categories && t'.members == t.members
    && RowsNumbered(t')
    && (forall id :: id in t.rows ==> id in t'.rows && t'.rows[id] == t.rows[id])
    && (forall raw :: raw !in raws ==> (HasRow(t', raw) <==> HasRow(t, raw)))
    && (forall raw :: raw in raws ==>
          (HasRow(t', raw) <==> HasRow(t, raw) || ProcessSucceeds(t, raw, rules, accounts, FaultAt(faults, raw))))
    && |t'.rows| == |t.rows| + p.done
    && p.failed == |Failing(t, raws, rules, accounts, faults)|
  }

  lemma {:induction false} RunRowsHandle(
    t: Tables, raws: seq<int>, rules: seq<Rule>, accounts: set<string>, faults: map<int, Fault>)
    requires RowsNumbered(t) && Ascending(raws)
    requires forall raw :: raw in raws ==> raw in t.raws
    ensures Handled(t, RunRows(t, raws, rules, accounts, faults), raws, rules, accounts, faults)
  {
    if raws != [] {
      var front, last := raws[..|raws| - 1], raws[|raws| - 1];
      assert forall raw :: raw in raws <==> raw in front || raw == last;
      RunRowsHandle(t, front, rules, accounts, faults);
      var before := RunRows(t, front, rules, accounts, faults);
      assert last !in front && raws == front + [last];
      StepHandles(t, before, front, last, rules, accounts, faults);
    }
  }

  lemma RowAdded(rows: map<int, Row>, id: int, row: Row)
    requires id !in rows
    ensures |rows[id := row]| == |rows| + 1
  {
    assert rows[id := row].Keys == rows.Keys + {id};
    assert |rows[id := row].Keys| == |rows.Keys| + 1;
  }

  lemma NewRowOnly(t: Tables, t': Tables, raw: int)
    requires t.nextRow in t'.rows && t.nextRow !in t.rows && t'.rows == t.rows[t.nextRow := t'.rows[t.nextRow]]
    ensures HasRow(t', raw) <==> HasRow(t, raw) || t'.rows[t.nextRow].raw == raw
  {
    if id :| id in t.rows && t.rows[id].raw == raw {
      assert t'.rows[id].raw == raw;
    }
  }

  lemma StoreAddsOne(t: Tables, raw: int, o: Outcome)
    requires RowsNumbered(t) && raw in t.raws
    ensures var t' := Store(t, raw, o);
            && RowsNumbered(t') && |t'.rows| == |t.rows| + 1
            && (forall id :: id in t.rows ==> id in t'.rows && t'.rows[id] == t.rows[id])
            && (forall r :: HasRow(t', r) <==> HasRow(t, r) || r == raw)
  {
    var t' := Store(t, raw, o);
    RowAdded(t.rows, t.nextRow, t'.rows[t.nextRow]);
    forall r ensures HasRow(t', r) <==> HasRow(t, r) || r == raw {
      NewRowOnly(t, t', r);
    }
  }

  lemma SucceedsAlike(t: Tables, t': Tables, raw: int, rules: seq<Rule>, accounts: set<string>, fault: Fault)
    requires raw in t.raws && t'.raws == t.raws && t'.rules == t.rules && t'.env == t.env && t'.categories == t.categories
    requires t'.members == t.members && HasRow(t', raw) == HasRow(t, raw)
    ensures ProcessSucceeds(t', raw, rules, accounts, fault) == ProcessSucceeds(t, raw, rules, accounts, fault)
  {
  }

  /** Appending a transaction to the list of a run. */
  lemma RunRowsAppend(t: Tables, front: seq<int>, last: int, rules: seq<Rule>, accounts: set<string>, faults: map<int, Fault>)
    requires last in t.raws && (forall raw :: raw in front ==> raw in t.raws) && forall raw :: raw in front + [last] ==> raw in t.raws
    ensures var before := RunRows(t, front, rules, accounts, faults);
            RunRows(t, front + [last], rules, accounts, faults)
            == if ProcessSucceeds(before.tables, last, rules, accounts, FaultAt(faults, last))
               then Progress(Store(before.tables, last, VerdictFor(before.tables, last, rules, accounts, FaultAt(faults, last)).outcome),
                             before.done + 1, before.failed)
               else Progress(before.tables, before.done, before.failed + 1)
    ensures Failing(t, front + [last], rules, accounts, faults)
            == Failing(t, front, rules, accounts, faults)
               + if ProcessSucceeds(t, last, rules, accounts, FaultAt(faults, last)) then [] else [last]
  {
    var raws := front + [last];
    assert raws[..|raws| - 1] == front && raws[|raws| - 1] == last;
  }

  lemma StepHandles(
    t: Tables, before: Progress, front: seq<int>, last: int, rules: seq<Rule>, accounts: set<string>, faults: map<int, Fault>)
    requires forall raw :: raw in front + [last] ==> raw in t.raws
    requires last in t.raws && last !in front
    requires forall raw :: raw in front ==> raw in t.raws
    requires before == RunRows(t, front, rules, accounts, faults)
    requires Handled(t, before, front, rules, accounts, faults)
    ensures Handled(t, RunRows(t, front + [last], rules, accounts, faults), front + [last], rules, accounts, faults)
  {
    var fault := FaultAt(faults, last);
    SucceedsAlike(t, before.tables, last, rules, accounts, fault);
    RunRowsAppend(t, front, last, rules, accounts, faults);
    if ProcessSucceeds(t, last, rules, accounts, fault) {
      StoreAddsOne(before.tables, last, VerdictFor(before.tables, last, rules, accounts, fault).outcome);
    }
  }

  lemma {:induction false} LeftOver(t: Tables, t': Tables, n: nat, rules: seq<Rule>, accounts: set<string>, faults: map<int, Fault>)
    requires t'.raws == t.raws
    requires forall raw :: 0 <= raw < n && raw in t.raws ==>
               (HasRow(t', raw) <==> HasRow(t, raw) || ProcessSucceeds(t, raw, rules, accounts, FaultAt(faults, raw)))
    requires forall raw :: raw in UnprocessedBelow(t, n) ==> raw in t.raws
    ensures UnprocessedBelow(t', n) == Failing(t, UnprocessedBelow(t, n), rules, accounts, faults)
  {
    if n > 0 {
      UnprocessedExact(t, n - 1);
      LeftOver(t, t', n - 1, rules, accounts, faults);
      if n - 1 in t.raws && !HasRow(t, n - 1) {
        var all := UnprocessedBelow(t, n);
        assert all[..|all| - 1] == UnprocessedBelow(t, n - 1) && all[|all| - 1] == n - 1;
      }
    }
  }

  /** One run: every listed transaction is counted once; the successful ones gain their one
      row, the failed ones are exactly what the next run will list; no existing row changes. */
  lemma RunExact(t: Tables, faults: map<int, Fault>)
    requires LedgerOk(t)
    ensures var p := RunAll(t, faults);
            var listed := UnprocessedBelow(t, t.nextRaw);
            && LedgerOk(p.tables)
            && p.done + p.failed == |listed|
            && |p.tables.rows| == |t.rows| + p.done
            && (forall id :: id in t.rows ==> id in p.tables.rows && p.tables.rows[id] == t.rows[id])
            && (forall raw :: raw in listed ==> raw in t.raws)
            && UnprocessedBelow(p.tables, p.tables.nextRaw)
               == Failing(t, listed, EnabledBelow(t.rules, t.nextRule), t.env.accounts, faults)
            && |UnprocessedBelow(p.tables, p.tables.nextRaw)| == p.failed
            && (forall raw :: raw in t.raws && HasRow(t, raw) ==> HasRow(p.tables, raw))
  {
    var rules, raws := EnabledBelow(t.rules, t.nextRule), UnprocessedBelow(t, t.nextRaw);
    UnprocessedExact(t, t.nextRaw);
    RunRowsHandle(t, raws, rules, t.env.accounts, faults);
    SnapshotIsOk(t);
    RunRowsKeep(t, raws, rules, t.env.accounts, faults);
    var t' := RunAll(t, faults).tables;
    LeftOver(t, t', t.nextRaw, rules, t.env.accounts, faults);
  }

  lemma {:induction false} RunRowsKeep(
    t: Tables, raws: seq<int>, rules: seq<Rule>, accounts: set<string>, faults: map<int, Fault>)
    requires LedgerOk(t) && SnapshotOk(t, rules)
    requires forall raw :: raw in raws ==> raw in t.raws
    ensures var t' := RunRows(t, raws, rules, accounts, faults).tables;
            LedgerOk(t') && t'.rules == t.rules && t'.nextRule == t.nextRule
  {
    if raws != [] {
      var front, last := raws[..|raws| - 1], raws[|raws| - 1];
      assert last in raws && forall raw :: raw in front ==> raw in raws;
      RunRowsKeep(t, front, rules, accounts, faults);
      ProcessRowKeeps(RunRows(t, front, rules, accounts, faults).tables, last, rules, accounts, FaultAt(faults, last));
    }
  }

  /** Consecutive runs, one map of failures each. */
  function Runs(t: Tables, runs: seq<map<int, Fault>>): Progress
    decreases |runs|
  {
    if runs == [] then Progress(t, 0, 0)
    else
      var first := RunAll(t, runs[0]);
      var rest := Runs(first.tables, runs[1..]);
      Progress(rest.tables, first.done + rest.done, first.failed + rest.failed)
  }

  /** The transaction fails in every one of the runs. */
  ghost predicate FailsEveryRun(t: Tables, runs: seq<map<int, Fault>>, raw: int)
    decreases |runs|
  {
    UnprocessedExact(t, t.nextRaw);
    runs != [] ==>
      && raw in Failing(t, UnprocessedBelow(t, t.nextRaw), EnabledBelow(t.rules, t.nextRule), t.env.accounts, runs[0])
      && FailsEveryRun(RunAll(t, runs[0]).tables, runs[1..], raw)
  }

  lemma {:induction false} FailingAmong(t: Tables, raws: seq<int>, rules: seq<Rule>, accounts: set<string>, faults: map<int, Fault>)
    requires forall raw :: raw in raws ==> raw in t.raws
    ensures forall raw :: raw in Failing(t, raws, rules, accounts, faults)
                          <==> raw in raws && !ProcessSucceeds(t, raw, rules, accounts, FaultAt(faults, raw))
  {
    if raws != [] {
      assert forall raw :: raw in raws <==> raw in raws[..|raws| - 1] || raw == raws[|raws| - 1];
      FailingAmong(t, raws[..|raws| - 1], rules, accounts, faults);
    }
  }

  /** Exactly once over any sequence of runs: what the runs report as processed is the
      growth of the table, each raw transaction has at most one row, and exactly the
      transactions that fail in every run are left over. */
  lemma {:induction false} RunsExactlyOnce(t: Tables, runs: seq<map<int, Fault>>)
    requires LedgerOk(t)
    ensures var p := Runs(t, runs);
            && LedgerOk(p.tables)
            && |p.tables.rows| == |t.rows| + p.done
            && (forall a, b :: a in p.tables.rows && b in p.tables.rows && p.tables.rows[a].raw == p.tables.rows[b].raw ==> a == b)
            && (forall id :: id in t.rows ==> id in p.tables.rows && p.tables.rows[id] == t.rows[id])
            && |UnprocessedBelow(p.tables, p.tables.nextRaw)| == |UnprocessedBelow(t, t.nextRaw)| - p.done
            && (forall raw :: raw in UnprocessedBelow(p.tables, p.tables.nextRaw)
                              <==> raw in UnprocessedBelow(t, t.nextRaw) && FailsEveryRun(t, runs, raw))
    decreases |runs|
  {
    if runs != [] {
      UnprocessedExact(t, t.nextRaw);
      FailingAmong(t, UnprocessedBelow(t, t.nextRaw), EnabledBelow(t.rules, t.nextRule), t.env.accounts, runs[0]);
      RunExact(t, runs[0]);
      RunsExactlyOnce(RunAll(t, runs[0]).tables, runs[1..]);
    }
  }

  /** Nothing stays behind once a run meets no failure. */
  lemma FaultFreeRunFinishes(t: Tables)
    requires LedgerOk(t) && {OTHER_INCOME, OTHER_EXPENSE} <= t.categories
    requires forall identifier :: identifier in t.env.identifiers ==> identifier.member in t.members
    requires forall id :: id in t.rules ==> t.rules[id].category in t.categories
    ensures UnprocessedBelow(RunAll(t, map[]).tables, t.nextRaw) == []
  {
    var rules, raws := EnabledBelow(t.rules, t.nextRule), UnprocessedBelow(t, t.nextRaw);
    UnprocessedExact(t, t.nextRaw);
    EnabledInOrder(t.rules, t.nextRule);
    RunRowsHandle(t, raws, rules, t.env.accounts, map[]);
    LeftOver(t, RunAll(t, map[]).tables, t.nextRaw, rules, t.env.accounts, map[]);
    forall raw | raw in raws ensures ProcessSucceeds(t, raw, rules, t.env.accounts, NoFault) {
      var rt := t.raws[raw];
      WalkFindsDecider(rules, rt, DirectionOf(rt.amount), Env(t.env.identifiers, t.env.accounts));
    }
    NoneFailing(t, raws, rules, t.env.accounts);
  }

  lemma {:induction false} NoneFailing(t: Tables, raws: seq<int>, rules: seq<Rule>, accounts: set<string>)
    requires forall raw :: raw in raws ==> raw in t.raws && ProcessSucceeds(t, raw, rules, accounts, NoFault)
    ensures Failing(t, raws, rules, accounts, map[]) == []
  {
    if raws != [] {
      assert raws[|raws| - 1] in raws && forall raw :: raw in raws[..|raws| - 1] ==> raw in raws;
      NoneFailing(t, raws[..|raws| - 1], rules, accounts);
    }
  }
}
