/** Ops metrics over the ledger: credits spent in total and by reference type. */
module BillingMetrics {
  import opened Ledger

  function SpentOf(e: Entry): nat { if e.delta < 0 then -e.delta else 0 }

  /** Minus the database's SUM(delta) over entries with delta < 0. */
  function TotalSpent(entries: seq<Entry>): nat {
    if entries == [] then 0
    else TotalSpent(entries[..|entries| - 1]) + SpentOf(entries[|entries| - 1])
  }

  function TotalReceived(entries: seq<Entry>): nat {
    if entries == [] then 0
    else
      var last := entries[|entries| - 1];
      TotalReceived(entries[..|entries| - 1]) + (if last.delta > 0 then last.delta else 0)
  }

  function SpentOn(entries: seq<Entry>, refType: string): nat {
    if entries == [] then 0
    else
      var last := entries[|entries| - 1];
      SpentOn(entries[..|entries| - 1], refType) + (if last.refType == refType then SpentOf(last) else 0)
  }

  function SpendTypes(entries: seq<Entry>): set<string> {
    set i | 0 <= i < |entries| && entries[i].delta < 0 :: entries[i].refType
  }

  const ALWAYS_LISTED: set<string> := {"order", "topup", "subscription"}

  /** One row of the query grouped by reference type; the total is a sum of negative deltas. */
  datatype SpendRow = SpendRow(refType: string, total: int)

  function RowTypes(rows: seq<SpendRow>, n: nat): set<string>
    requires n <= |rows|
  {
    set i | 0 <= i < n :: rows[i].refType
  }

  /** The rows are the groups of entries with delta < 0, in whatever order the database returns them. */
  ghost predicate IsSpendQuery(rows: seq<SpendRow>, entries: seq<Entry>) {
    && (forall i, j :: 0 <= i < j < |rows| ==> rows[i].refType != rows[j].refType)
    && RowTypes(rows, |rows|) == SpendTypes(entries)
    && (forall i :: 0 <= i < |rows| ==> rows[i].total == 0 - SpentOn(entries, rows[i].refType))
  }

  /** Every type that was spent on, and the three listed ones, with what was spent on it. */
  function Breakdown(entries: seq<Entry>): map<string, int> {
    map t | t in SpendTypes(entries) + ALWAYS_LISTED :: SpentOn(entries, t)
  }

  lemma {:induction false} UnlistedTypeSpentNothing(entries: seq<Entry>, t: string)
    requires t !in SpendTypes(entries)
    ensures SpentOn(entries, t) == 0
  {
    if entries != [] {
      var n := |entries| - 1;
      forall i | 0 <= i < n && entries[..n][i].delta < 0 ensures entries[..n][i].refType != t {
        assert entries[i].refType in SpendTypes(entries);
      }
      UnlistedTypeSpentNothing(entries[..n], t);
      assert entries[n].delta < 0 ==> entries[n].refType in SpendTypes(entries);
    }
  }

  /** The result does not depend on the order of the rows. */
  method SpendByReferenceType(rows: seq<SpendRow>, ghost entries: seq<Entry>) returns (out: map<string, int>)
    requires IsSpendQuery(rows, entries)
    ensures out == Breakdown(entries)
  {
    out := map[];
    for i := 0 to |rows|
      invariant out.Keys == RowTypes(rows, i)
      invariant forall t :: t in out ==> out[t] == SpentOn(entries, t)
    {
      out := out[rows[i].refType := -rows[i].total];
    }
    out := SetListedDefaults(out, entries);
  }

  /** The listed types appear even when nothing was spent on them. */
  method SetListedDefaults(found: map<string, int>, ghost entries: seq<Entry>) returns (out: map<string, int>)
    requires found.Keys == SpendTypes(entries)
    requires forall t :: t in found ==> found[t] == SpentOn(entries, t)
    ensures out == Breakdown(entries)
  {
    out := found;
    var listed := ["order", "topup", "subscription"];
    for i := 0 to |listed|
      invariant out.Keys == SpendTypes(entries) + set j | 0 <= j < i :: listed[j]
      invariant forall t :: t in out ==> out[t] == SpentOn(entries, t)
    {
      if listed[i] !in out {
        UnlistedTypeSpentNothing(entries, listed[i]);
        out := out[listed[i] := 0];
      }
    }
    assert ALWAYS_LISTED == set j | 0 <= j < |listed| :: listed[j] by {
      assert listed[0] == "order" && listed[1] == "topup" && listed[2] == "subscription";
    }
  }

  // ---------------------------------------------------------------- sums over a map

  ghost function Sum(m: map<string, int>): int {
    if m == map[] then 0
    else
      var k :| k in m;
      m[k] + Sum(m - {k})
  }

  lemma {:induction false} SumWithout(m: map<string, int>, k: string)
    requires k in m
    ensures Sum(m) == m[k] + Sum(m - {k})
    decreases |m|
  {
    var j :| j in m && Sum(m) == m[j] + Sum(m - {j});
    if j != k {
      assert (m - {j}) - {k} == (m - {k}) - {j};
      SumWithout(m - {j}, k);
      SumWithout(m - {k}, j);
    }
  }

  lemma SumAfterUpdate(m: map<string, int>, k: string, v: int)
    requires k in m
    ensures Sum(m[k := v]) == Sum(m) - m[k] + v
  {
    SumWithout(m, k);
    SumWithout(m[k := v], k);
    assert m[k := v] - {k} == m - {k};
  }

  lemma {:induction false} SumOfZeros(m: map<string, int>)
    requires forall k :: k in m ==> m[k] == 0
    ensures Sum(m) == 0
    decreases |m|
  {
    if m != map[] {
      var k :| k in m;
      SumWithout(m, k);
      SumOfZeros(m - {k});
    }
  }

  // ---------------------------------------------------------------- main results

  function LedgerSums(entries: seq<Entry>, accounts: set<AccountId>): map<AccountId, int> {
    map a | a in accounts :: LedgerSum(entries, a)
  }

  function SpentSums(entries: seq<Entry>, types: set<string>): map<string, int> {
    map t | t in types :: SpentOn(entries, t)
  }

  lemma {:induction false} AccountsShareAllDeltas(entries: seq<Entry>, accounts: set<AccountId>)
    requires forall i :: 0 <= i < |entries| ==> entries[i].account in accounts
    ensures Sum(LedgerSums(entries, accounts)) == TotalReceived(entries) - TotalSpent(entries)
  {
    if entries == [] {
      SumOfZeros(LedgerSums(entries, accounts));
    } else {
      var n := |entries| - 1;
      var before := LedgerSums(entries[..n], accounts);
      var e := entries[n];
      AccountsShareAllDeltas(entries[..n], accounts);
      SumAfterUpdate(before, e.account, before[e.account] + e.delta);
      assert LedgerSums(entries, accounts) == before[e.account := before[e.account] + e.delta];
    }
  }

  lemma {:induction false} TypesShareAllSpending(entries: seq<Entry>, types: set<string>)
    requires SpendTypes(entries) <= types
    ensures Sum(SpentSums(entries, types)) == TotalSpent(entries)
  {
    if entries == [] {
      SumOfZeros(SpentSums(entries, types));
    } else {
      var n := |entries| - 1;
      var before := SpentSums(entries[..n], types);
      var e := entries[n];
      forall t | t in SpendTypes(entries[..n]) ensures t in types {
        var i :| 0 <= i < n && entries[..n][i].delta < 0 && entries[..n][i].refType == t;
        assert entries[i].refType in SpendTypes(entries);
      }
      TypesShareAllSpending(entries[..n], types);
      if e.delta < 0 {
        assert e.refType in SpendTypes(entries);
        SumAfterUpdate(before, e.refType, before[e.refType] + SpentOf(e));
        assert SpentSums(entries, types) == before[e.refType := before[e.refType] + SpentOf(e)];
      } else {
        assert SpentSums(entries, types) == before;
      }
    }
  }

  /** The breakdown adds up to the total, for every ledger. */
  lemma BreakdownAddsUpToTotal(entries: seq<Entry>)
    ensures Sum(Breakdown(entries)) == TotalSpent(entries)
  {
    TypesShareAllSpending(entries, SpendTypes(entries) + ALWAYS_LISTED);
    assert Breakdown(entries) == SpentSums(entries, SpendTypes(entries) + ALWAYS_LISTED);
  }

  function Balances(db: Db): map<AccountId, int> {
    map a | a in db.accounts :: db.accounts[a].balance
  }

  /** After any run from a drift-free database, all balances together are what came in minus what was spent. */
  lemma BalancesAreReceivedMinusSpent(db: Db, rs: seq<Request>)
    requires Consistent(db) && DriftFree(db) && RunningTotals(db.entries)
    ensures var after := ServeAll(db, rs).0;
            Sum(Balances(after)) == TotalReceived(after.entries) - TotalSpent(after.entries)
  {
    var after := ServeAll(db, rs).0;
    RunKeepsConstraints(db, rs);
    RunConservesCredits(db, rs);
    AccountsShareAllDeltas(after.entries, after.accounts.Keys);
    assert Balances(after) == LedgerSums(after.entries, after.accounts.Keys);
  }

  /** What the breakdown lists: the types some entry spent on, and orders, top-ups and subscriptions always. */
  lemma BreakdownLists(entries: seq<Entry>, t: string)
    ensures t in Breakdown(entries) <==>
              t in {"order", "topup", "subscription"} || exists i :: 0 <= i < |entries| && entries[i].delta < 0 && entries[i].refType == t
  {}

  /** One more entry adds its amount to its own type if it spends, and to nothing else. */
  lemma EntrySpendsOnItsType(entries: seq<Entry>, e: Entry, t: string)
    ensures SpentOn(entries + [e], t) - SpentOn(entries, t) == if e.refType == t && e.delta < 0 then -e.delta else 0
  {
    assert (entries + [e])[..|entries|] == entries;
  }
}
