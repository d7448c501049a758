/** A customer's eSIM plans as a partner sees them: active and expired, each newest first. */
module PartnerPlans {
  import opened Wrappers
  import opened Ordering

  datatype Status = Live | Expired

  /** `details` stands for the display fields copied from the order and the usage cache. */
  datatype Esim = Esim(
    pk: int, account: string, status: Status, createdAt: int, usageExpiredAt: Option<int>, archived: bool, details: string)

  datatype Plan = Plan(status: Status, createdAt: int, usageExpiredAt: Option<int>, details: string)

  datatype Plans = Plans(active: seq<Plan>, expired: seq<Plan>)

  function ToPlan(e: Esim): Plan { Plan(e.status, e.createdAt, e.usageExpiredAt, e.details) }

  function ActiveKey(e: Esim): SortKey { [-e.createdAt, -e.pk] }

  function ExpiredKey(e: Esim): SortKey {
    [
      if e.usageExpiredAt.None? then 1 else 0,
      if e.usageExpiredAt.Some? then -e.usageExpiredAt.value else 0,
      -e.createdAt,
      -e.pk
    ]
  }

  /** The rows of one list, in the order the database gave them. */
  function Select(rows: seq<Esim>, account: string, expired: bool): seq<Esim> {
    if rows == [] then []
    else
      var before := Select(rows[..|rows| - 1], account, expired);
      if Shown(rows[|rows| - 1], account) && rows[|rows| - 1].status.Expired? == expired
      then before + [rows[|rows| - 1]] else before
  }

  predicate Shown(e: Esim, account: string) { e.account == account && !e.archived }

  function ActiveList(rows: seq<Esim>, account: string): seq<Esim> { Sort(Select(rows, account, false), ActiveKey) }

  function ExpiredList(rows: seq<Esim>, account: string): seq<Esim> { Sort(Select(rows, account, true), ExpiredKey) }

  function ToPlans(esims: seq<Esim>): seq<Plan> {
    seq(|esims|, i requires 0 <= i < |esims| => ToPlan(esims[i]))
  }

  /** No result without an attribution; empty lists for a customer without an account. */
  method ListPlans(attributed: bool, account: Option<string>, rows: seq<Esim>) returns (plans: Option<Plans>)
    ensures plans ==
      if !attributed then None
      else if account.None? then Some(Plans([], []))
      else Some(Plans(ToPlans(ActiveList(rows, account.value)), ToPlans(ExpiredList(rows, account.value))))
  {
    if !attributed {
      return None;
    }
    if account.None? {
      return Some(Plans([], []));
    }
    var active, expired: seq<Esim> := [], [];
    for i := 0 to |rows|
      invariant active == Select(rows[..i], account.value, false)
      invariant expired == Select(rows[..i], account.value, true)
    {
      assert rows[..i + 1][..i] == rows[..i];
      if Shown(rows[i], account.value) {
        if rows[i].status == Expired {
          expired := expired + [rows[i]];
        } else {
          active := active + [rows[i]];
        }
      }
    }
    assert rows[..|rows|] == rows;
    active := Sort(active, ActiveKey);
    expired := Sort(expired, ExpiredKey);
    return Some(Plans(ToPlans(active), ToPlans(expired)));
  }

  // ---------------------------------------------------------------- main results

  /** What the keys mean: newest first, and the larger primary key first among equals. */
  lemma ActiveOrder(a: Esim, b: Esim)
    ensures Less(ActiveKey(a), ActiveKey(b)) <==>
              a.createdAt > b.createdAt || (a.createdAt == b.createdAt && a.pk > b.pk)
  {
    var ka, kb := ActiveKey(a), ActiveKey(b);
    assert ka[1..] == [-a.pk] && kb[1..] == [-b.pk];
    assert Less(ka[1..], kb[1..]) <==> a.pk > b.pk by {
      assert ka[1..][1..] == [] && kb[1..][1..] == [];
    }
  }

  /** Latest expiry first, a missing expiry last, then newest, then the larger primary key. */
  lemma ExpiredOrder(a: Esim, b: Esim)
    ensures Less(ExpiredKey(a), ExpiredKey(b)) <==>
      match (a.usageExpiredAt, b.usageExpiredAt)
      case (Some(_), None) => true
      case (None, Some(_)) => false
      case (Some(x), Some(y)) => x > y || (x == y && Less(ActiveKey(a), ActiveKey(b)))
      case (None, None) => Less(ActiveKey(a), ActiveKey(b))
  {
    var ka, kb := ExpiredKey(a), ExpiredKey(b);
    assert ka[1..][1..] == ActiveKey(a) && kb[1..][1..] == ActiveKey(b);
    assert Less(ka[1..], kb[1..]) <==> ka[1] < kb[1] || (ka[1] == kb[1] && Less(ActiveKey(a), ActiveKey(b)));
  }

  ghost predicate DistinctPks(rows: seq<Esim>) {
    forall i, j :: 0 <= i < j < |rows| ==> rows[i].pk != rows[j].pk
  }

  lemma {:induction false} SelectCounts(rows: seq<Esim>, account: string, expired: bool, e: Esim)
    ensures multiset(Select(rows, account, expired))[e] ==
              if Shown(e, account) && e.status.Expired? == expired then multiset(rows)[e] else 0
  {
    if rows != [] {
      var n := |rows| - 1;
      SelectCounts(rows[..n], account, expired, e);
      assert rows == rows[..n] + [rows[n]];
    }
  }

  lemma {:induction false} SelectKeepsPksDistinct(rows: seq<Esim>, account: string, expired: bool)
    requires DistinctPks(rows)
    ensures DistinctPks(Select(rows, account, expired))
    ensures forall e :: e in Select(rows, account, expired) ==> e in rows
  {
    if rows != [] {
      var n := |rows| - 1;
      SelectKeepsPksDistinct(rows[..n], account, expired);
      forall e | e in Select(rows[..n], account, expired) ensures e in rows && e.pk != rows[n].pk {
        var i :| 0 <= i < n && rows[..n][i] == e;
        assert rows[i] == e;
      }
    }
  }

  /** Distinct primary keys make both sort keys distinct, so each list has exactly one order. */
  lemma ListsAreStrictlySorted(rows: seq<Esim>, account: string)
    requires DistinctPks(rows)
    ensures DistinctKeys(Select(rows, account, false), ActiveKey) && DistinctKeys(Select(rows, account, true), ExpiredKey)
    ensures Ascending(ActiveList(rows, account), ActiveKey) && Ascending(ExpiredList(rows, account), ExpiredKey)
  {
    SelectKeepsPksDistinct(rows, account, false);
    SelectKeepsPksDistinct(rows, account, true);
    var active, expired := Select(rows, account, false), Select(rows, account, true);
    forall i, j | 0 <= i < j < |active| ensures ActiveKey(active[i]) != ActiveKey(active[j]) {
      assert ActiveKey(active[i])[1] != ActiveKey(active[j])[1];
    }
    forall i, j | 0 <= i < j < |expired| ensures ExpiredKey(expired[i]) != ExpiredKey(expired[j]) {
      assert ExpiredKey(expired[i])[3] != ExpiredKey(expired[j])[3];
    }
    SortAscends(active, ActiveKey);
    SortAscends(expired, ExpiredKey);
  }

  /** Active and expired together hold each unarchived eSIM of the account once, split by status. */
  lemma ListsPartitionTheAccount(rows: seq<Esim>, account: string, e: Esim)
    ensures multiset(ActiveList(rows, account))[e] + multiset(ExpiredList(rows, account))[e] ==
              if e.account == account && !e.archived then multiset(rows)[e] else 0
    ensures e in ActiveList(rows, account) ==> e.status != Expired
    ensures e in ExpiredList(rows, account) ==> e.status == Expired
  {
    SelectCounts(rows, account, false, e);
    SelectCounts(rows, account, true, e);
    assert e in ActiveList(rows, account) ==> e in multiset(ActiveList(rows, account));
    assert e in ExpiredList(rows, account) ==> e in multiset(ExpiredList(rows, account));
  }

  /** The order in which the database returns the rows makes no difference. */
  lemma RowOrderDoesNotMatter(rows: seq<Esim>, shuffled: seq<Esim>, account: string)
    requires multiset(rows) == multiset(shuffled)
    requires DistinctPks(rows) && DistinctPks(shuffled)
    ensures ActiveList(rows, account) == ActiveList(shuffled, account)
    ensures ExpiredList(rows, account) == ExpiredList(shuffled, account)
  {
    forall e
      ensures multiset(Select(rows, account, false))[e] == multiset(Select(shuffled, account, false))[e]
      ensures multiset(Select(rows, account, true))[e] == multiset(Select(shuffled, account, true))[e]
    {
      SelectCounts(rows, account, false, e);
      SelectCounts(shuffled, account, false, e);
      SelectCounts(rows, account, true, e);
      SelectCounts(shuffled, account, true, e);
    }
    assert multiset(Select(rows, account, false)) == multiset(Select(shuffled, account, false));
    assert multiset(Select(rows, account, true)) == multiset(Select(shuffled, account, true));
    ListsAreStrictlySorted(rows, account);
    ListsAreStrictlySorted(shuffled, account);
    SortIgnoresOrder(Select(rows, account, false), Select(shuffled, account, false), ActiveKey);
    SortIgnoresOrder(Select(rows, account, true), Select(shuffled, account, true), ExpiredKey);
  }

  /** Plan by plan, a list shows its eSIMs: status, times and display fields. */
  lemma PlansShowTheirEsims(esims: seq<Esim>, i: nat)
    requires i < |esims|
    ensures |ToPlans(esims)| == |esims|
    ensures var plan, esim := ToPlans(esims)[i], esims[i];
            && plan.status == esim.status && plan.createdAt == esim.createdAt
            && plan.usageExpiredAt == esim.usageExpiredAt && plan.details == esim.details
  {}
}
