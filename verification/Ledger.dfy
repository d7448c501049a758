/** The prepaid-credit ledger on values: what one call of the credit service does to the database. */
module Ledger {
  import opened Wrappers
  import opened Decimals

  type AccountId = string
  type Key = string

  /** Credits are Decimal(20, 6) columns; the model counts whole units of 0.000001. */
  const QUANTA_PER_CREDIT := 1_000_000
  const COLUMN_LIMIT := 100_000_000_000_000 * QUANTA_PER_CREDIT

  const REFERENCE_TYPES: set<string> := {
    "deposit", "order", "topup", "subscription", "refund", "admin_adjustment", "voucher",
    "partner_margin", "partner_grant_out", "partner_grant_in", "partner_invite_bonus"
  }

  datatype Row = Row(balance: int, version: nat)

  datatype Entry = Entry(
    account: AccountId, delta: int, balanceAfter: int, refType: string, refId: string, key: Key)

  /** `entries` is in commit order. */
  datatype Db = Db(accounts: map<AccountId, Row>, entries: seq<Entry>)

  /** What a caller may pass for an amount: text that is no number, NaN or infinity, or a number. */
  datatype Amount = Unparsable | NotFinite | Finite(value: real)

  datatype Request =
    | Post(account: AccountId, amount: Amount, refType: string, refId: string, key: Key, credit: bool)
    | Rebuild(account: AccountId)

  datatype Reason =
    | InvalidAmount | InvalidReferenceType | KeyRequired | ReasonRequired
    | AccountMissing | InsufficientFunds | OutOfRange | KeyRaceUnresolved

  datatype Outcome =
    | Created(entry: Entry)
    | Replayed(entry: Entry)
    | Rebuilt(balance: int)
    | Refused(reason: Reason)

  // ---------------------------------------------------------------- operations

  function NormalizeAmount(amount: Amount): Result<int, Reason> {
    match amount
    case Unparsable => Err(InvalidAmount)
    case NotFinite => Err(InvalidAmount)
    case Finite(value) =>
      var quanta := HalfUp(value * QUANTA_PER_CREDIT as real);
      if quanta <= 0 || quanta >= COLUMN_LIMIT then Err(InvalidAmount) else Ok(quanta)
  }

  /** The checks made before any query; on success the signed delta. */
  function Validate(r: Request): Result<int, Reason> {
    match r
    case Rebuild(_) => Ok(0)
    case Post(_, amount, refType, _, key, credit) =>
      match NormalizeAmount(amount)
      case Err(reason) => Err(reason)
      case Ok(quanta) =>
        if refType !in REFERENCE_TYPES then Err(InvalidReferenceType)
        else if key == "" then Err(KeyRequired)
        else Ok(if credit then quanta else -quanta)
  }

  /** The newest entry with this key: the lookup ignores account, amount and sign. */
  function FindKey(entries: seq<Entry>, key: Key): Option<Entry> {
    if entries == [] then None
    else
      var last := entries[|entries| - 1];
      if last.key == key then Some(last) else FindKey(entries[..|entries| - 1], key)
  }

  function LedgerSum(entries: seq<Entry>, account: AccountId): int {
    if entries == [] then 0
    else
      var last := entries[|entries| - 1];
      LedgerSum(entries[..|entries| - 1], account) + (if last.account == account then last.delta else 0)
  }

  /** Why a posting to this row is turned away, if it is. */
  function Funds(row: Row, delta: int): Option<Reason> {
    if row.balance + delta < 0 then Some(InsufficientFunds)
    else if row.balance + delta >= COLUMN_LIMIT then Some(OutOfRange)
    else None
  }

  function Draft(r: Request, row: Row, delta: int): Entry
    requires r.Post?
  {
    Entry(r.account, delta, row.balance + delta, r.refType, r.refId, r.key)
  }

  function Posted(db: Db, row: Row, e: Entry): Db {
    Db(db.accounts[e.account := Row(e.balanceAfter, row.version + 1)], db.entries + [e])
  }

  function Repaired(db: Db, account: AccountId, row: Row, total: int): Db {
    db.(accounts := db.accounts[account := Row(total, row.version + 1)])
  }

  /** One call, run alone. */
  function Serve(db: Db, r: Request): (Db, Outcome) {
    match Validate(r)
    case Err(reason) => (db, Refused(reason))
    case Ok(delta) =>
      if r.account !in db.accounts then (db, Refused(AccountMissing))
      else
        var row := db.accounts[r.account];
        match r
        case Post(_, _, _, _, key, _) =>
          (match FindKey(db.entries, key)
           case Some(e) => (db, Replayed(e))
           case None =>
             match Funds(row, delta)
             case Some(reason) => (db, Refused(reason))
             case None => (Posted(db, row, Draft(r, row, delta)), Created(Draft(r, row, delta))))
        case Rebuild(account) =>
          var total := LedgerSum(db.entries, account);
          if total == row.balance then (db, Rebuilt(total))
          else if total < 0 || total >= COLUMN_LIMIT then (db, Refused(OutOfRange))
          else (Repaired(db, account, row, total), Rebuilt(total))
  }

  /** Calls run one after another. */
  function ServeAll(db: Db, rs: seq<Request>): (result: (Db, seq<Outcome>))
    ensures |result.1| == |rs|
  {
    if rs == [] then (db, [])
    else
      var before := ServeAll(db, rs[..|rs| - 1]);
      var last := Serve(before.0, rs[|rs| - 1]);
      (last.0, before.1 + [last.1])
  }

  lemma ServeAllSnoc(db: Db, rs: seq<Request>, r: Request)
    ensures var before := ServeAll(db, rs);
            ServeAll(db, rs + [r]) == (Serve(before.0, r).0, before.1 + [Serve(before.0, r).1])
  {
    assert (rs + [r])[..|rs|] == rs;
  }

  // ---------------------------------------------------------------- amounts

  /** A normalised amount is within half a quantum of the input, and normalising it again changes nothing. */
  lemma NormalizeAmountIsNearestAndIdempotent(value: real)
    requires NormalizeAmount(Finite(value)).Ok?
    ensures var q := NormalizeAmount(Finite(value)).value;
            && 0 < q < COLUMN_LIMIT
            && -0.5 <= q as real - value * QUANTA_PER_CREDIT as real <= 0.5
            && NormalizeAmount(Finite(q as real / QUANTA_PER_CREDIT as real)) == Ok(q)
  {
    var q := NormalizeAmount(Finite(value)).value;
    HalfUpNearest(value * QUANTA_PER_CREDIT as real);
    assert q as real / QUANTA_PER_CREDIT as real * QUANTA_PER_CREDIT as real == q as real;
    HalfUpOfInteger(q);
  }

  // ---------------------------------------------------------------- what every call keeps

  ghost predicate KeysUnique(entries: seq<Entry>) {
    forall i, j :: 0 <= i < j < |entries| ==> entries[i].key != entries[j].key
  }

  /** The table constraints: balance >= 0, delta != 0, foreign key to the account, unique key. */
  ghost predicate Consistent(db: Db) {
    && (forall a :: a in db.accounts ==> 0 <= db.accounts[a].balance < COLUMN_LIMIT)
    && (forall i :: 0 <= i < |db.entries| ==>
          && db.entries[i].delta != 0
          && db.entries[i].account in db.accounts
          && 0 <= db.entries[i].balanceAfter < COLUMN_LIMIT)
    && KeysUnique(db.entries)
  }

  function Drift(db: Db, a: AccountId): int
    requires a in db.accounts
  {
    db.accounts[a].balance - LedgerSum(db.entries, a)
  }

  lemma {:induction false} FindKeyIsMembership(entries: seq<Entry>, key: Key)
    ensures FindKey(entries, key).Some? <==> exists i :: 0 <= i < |entries| && entries[i].key == key
    ensures FindKey(entries, key).Some? ==>
              FindKey(entries, key).value in entries && FindKey(entries, key).value.key == key
  {
    if entries != [] {
      var n := |entries| - 1;
      FindKeyIsMembership(entries[..n], key);
      if entries[n].key != key && exists i :: 0 <= i < |entries| && entries[i].key == key {
        var i :| 0 <= i < |entries| && entries[i].key == key;
        assert entries[..n][i].key == key;
      }
      if entries[n].key != key && FindKey(entries[..n], key).Some? {
        var i :| 0 <= i < n && entries[..n][i].key == key;
        assert entries[i].key == key;
      }
    }
  }

  lemma FindKeySnoc(entries: seq<Entry>, e: Entry, key: Key)
    ensures FindKey(entries + [e], key) == if e.key == key then Some(e) else FindKey(entries, key)
  {
    assert (entries + [e])[..|entries|] == entries;
  }

  lemma LedgerSumSnoc(entries: seq<Entry>, e: Entry, a: AccountId)
    ensures LedgerSum(entries + [e], a) == LedgerSum(entries, a) + (if e.account == a then e.delta else 0)
  {
    assert (entries + [e])[..|entries|] == entries;
  }

  /** One call keeps every constraint, only appends to the ledger, and never lowers a version. */
  lemma ServeKeepsConstraints(db: Db, r: Request)
    requires Consistent(db)
    ensures var after := Serve(db, r).0;
            && Consistent(after)
            && db.entries <= after.entries
            && after.accounts.Keys == db.accounts.Keys
            && (forall a :: a in db.accounts ==> db.accounts[a].version <= after.accounts[a].version)
            && (after == db || after.accounts[r.account].version == db.accounts[r.account].version + 1)
  {
    var after := Serve(db, r).0;
    if after.entries != db.entries {
      FindKeyIsMembership(db.entries, r.key);
    }
  }

  /**
   * Drift (cached balance minus ledger sum) is untouched by every new, replayed or refused posting.
   * A rebuild that is not refused removes the drift of its account, adds no entry, and raises the
   * version exactly when there was drift to remove.
   */
  lemma ServeAndDrift(db: Db, r: Request, a: AccountId)
    requires a in db.accounts
    ensures a in Serve(db, r).0.accounts
    ensures r.Post? || a != r.account ==> Drift(Serve(db, r).0, a) == Drift(db, a)
    ensures r.Rebuild? ==> Serve(db, r).0.entries == db.entries
    ensures r.Rebuild? && a == r.account && 0 <= LedgerSum(db.entries, a) < COLUMN_LIMIT ==>
              && Serve(db, r).1 == Rebuilt(LedgerSum(db.entries, a))
              && Drift(Serve(db, r).0, a) == 0
              && (Serve(db, r).0.accounts[a].version == db.accounts[a].version + (if Drift(db, a) == 0 then 0 else 1))
  {
    if Serve(db, r).1.Created? {
      LedgerSumSnoc(db.entries, Serve(db, r).1.entry, a);
    }
  }

  /** A rebuild is refused for a missing account, and for drift towards a sum that the column cannot hold. */
  lemma RebuildRefusals(db: Db, account: AccountId)
    ensures var out := Serve(db, Rebuild(account)).1;
            && (out == Refused(AccountMissing) <==> account !in db.accounts)
            && (out == Refused(OutOfRange) <==>
                  account in db.accounts && Drift(db, account) != 0
                  && !(0 <= LedgerSum(db.entries, account) < 100000000000000000000))
            && (out.Refused? ==> out.reason in {AccountMissing, OutOfRange})
  {}

  ghost predicate KeyUsed(db: Db, key: Key) {
    exists i :: 0 <= i < |db.entries| && db.entries[i].key == key
  }

  /** A finite amount whose rounded value is positive and fits the column. */
  predicate AmountFits(amount: Amount) {
    amount.Finite? && 0.5 <= amount.value * 1000000.0 < 99999999999999999999.5
  }

  predicate Sendable(refType: string, key: Key) {
    key != "" && refType in {
      "deposit", "order", "topup", "subscription", "refund", "admin_adjustment", "voucher",
      "partner_margin", "partner_grant_out", "partner_grant_in", "partner_invite_bonus"}
  }

  lemma RoundedAmountInRange(x: real)
    ensures 0 < HalfUp(x) < COLUMN_LIMIT <==> 0.5 <= x < 99999999999999999999.5
    ensures x >= 0.0 ==> -0.5 < HalfUp(x) as real - x <= 0.5
  {}

  /** The checks before the transaction, in order: amount, reference type, key; then the account. */
  lemma PostingIsChecked(db: Db, r: Request)
    requires r.Post?
    ensures var out := Serve(db, r).1;
            && (out == Refused(InvalidAmount) <==> !AmountFits(r.amount))
            && (out in {Refused(InvalidReferenceType), Refused(KeyRequired)} <==>
                  AmountFits(r.amount) && !Sendable(r.refType, r.key))
            && (out == Refused(KeyRequired) ==> r.key == "" && Sendable(r.refType, "-"))
            && (out == Refused(InvalidReferenceType) ==> !Sendable(r.refType, "-"))
            && (out == Refused(AccountMissing) <==>
                  AmountFits(r.amount) && Sendable(r.refType, r.key) && r.account !in db.accounts)
  {
    if r.amount.Finite? {
      RoundedAmountInRange(r.amount.value * 1000000.0);
    }
  }

  /**
   * What a posting that passes the checks does; `size` is the amount in millionths, to the nearest, a tie
   * going up. It is replayed exactly when its key is used; a new one goes through exactly when the balance
   * stays in range, and then records the request as sent, moves its own account's balance by `size`, up for
   * a credit and down for a debit, and leaves every other account alone.
   */
  lemma PostingOutcome(db: Db, r: Request, size: int)
    requires Consistent(db) && r.Post? && r.account in db.accounts
    requires AmountFits(r.amount) && Sendable(r.refType, r.key)
    requires -0.5 < size as real - r.amount.value * 1000000.0 <= 0.5
    ensures var moved := if r.credit then db.accounts[r.account].balance + size else db.accounts[r.account].balance - size;
            var (after, out) := Serve(db, r);
            && (out.Replayed? <==> KeyUsed(db, r.key))
            && (out.Replayed? ==> after == db && out.entry in db.entries && out.entry.key == r.key)
            && (out.Created? <==> !KeyUsed(db, r.key) && 0 <= moved < COLUMN_LIMIT)
            && (out == Refused(InsufficientFunds) <==> !KeyUsed(db, r.key) && moved < 0)
            && (out == Refused(OutOfRange) <==> !KeyUsed(db, r.key) && moved >= COLUMN_LIMIT)
            && (out.Created? ==>
                  && out.entry == Entry(r.account, if r.credit then size else -size, moved, r.refType, r.refId, r.key)
                  && after.entries == db.entries + [out.entry]
                  && after.accounts[r.account] == Row(moved, db.accounts[r.account].version + 1)
                  && forall a :: a in db.accounts && a != r.account ==> after.accounts[a] == db.accounts[a])
  {
    RoundedAmountInRange(r.amount.value * 1000000.0);
    assert HalfUp(r.amount.value * 1000000.0) == size;
    assert Validate(r) == Ok(if r.credit then size else -size);
    FindKeyIsMembership(db.entries, r.key);
  }

  /** A whole number of millionths is posted as it is. */
  lemma WholeQuantaArePostedExactly(db: Db, r: Request, size: int)
    requires Consistent(db) && r.Post? && r.amount == Finite(size as real / 1000000.0)
    ensures Serve(db, r).1.Created? ==> Serve(db, r).1.entry.delta == if r.credit then size else -size
  {
    assert r.amount.value * 1000000.0 == size as real;
    PostingIsChecked(db, r);
    if Serve(db, r).1.Created? {
      PostingOutcome(db, r, size);
    }
  }

  /** A refused debit leaves its key unused. */
  lemma RefusalLeavesNoTrace(db: Db, r: Request)
    ensures Serve(db, r).1.Refused? ==> Serve(db, r).0 == db
    ensures r.Post? && Serve(db, r).1 == Refused(InsufficientFunds) ==> FindKey(db.entries, r.key).None?
  {}

  // ---------------------------------------------------------------- whole runs

  lemma {:induction false} RunKeepsConstraints(db: Db, rs: seq<Request>)
    requires Consistent(db)
    ensures var after := ServeAll(db, rs).0;
            && Consistent(after)
            && db.entries <= after.entries
            && after.accounts.Keys == db.accounts.Keys
  {
    if rs != [] {
      RunKeepsConstraints(db, rs[..|rs| - 1]);
      ServeKeepsConstraints(ServeAll(db, rs[..|rs| - 1]).0, rs[|rs| - 1]);
    }
  }

  ghost predicate DriftFree(db: Db) {
    forall a :: a in db.accounts ==> db.accounts[a].balance == LedgerSum(db.entries, a)
  }

  /** Each entry's recorded balance is the sum of its account's deltas up to and including it. */
  ghost predicate RunningTotals(entries: seq<Entry>) {
    forall i :: 0 <= i < |entries| ==>
      entries[i].balanceAfter == LedgerSum(entries[..i + 1], entries[i].account)
  }

  lemma ServeKeepsRunningTotals(db: Db, r: Request)
    requires DriftFree(db) && RunningTotals(db.entries)
    ensures DriftFree(Serve(db, r).0) && RunningTotals(Serve(db, r).0.entries)
  {
    var after := Serve(db, r).0;
    forall a | a in after.accounts
      ensures after.accounts[a].balance == LedgerSum(after.entries, a)
    {
      ServeAndDrift(db, r, a);
    }
    if Serve(db, r).1.Created? {
      var e := Serve(db, r).1.entry;
      var n := |db.entries|;
      assert after.entries == db.entries + [e];
      assert after.entries[..n + 1] == after.entries;
      forall i | 0 <= i < |after.entries|
        ensures after.entries[i].balanceAfter == LedgerSum(after.entries[..i + 1], after.entries[i].account)
      {
        if i < n {
          assert after.entries[i] == db.entries[i];
          assert after.entries[..i + 1] == db.entries[..i + 1];
        }
      }
    }
  }

  /**
   * From a drift-free database every run stays drift-free, every recorded `balanceAfter` is the prefix
   * sum of its account, and every balance is the sum of its deltas and at least zero.
   */
  lemma {:induction false} RunConservesCredits(db: Db, rs: seq<Request>)
    requires Consistent(db) && DriftFree(db) && RunningTotals(db.entries)
    ensures var after := ServeAll(db, rs).0;
            && DriftFree(after) && RunningTotals(after.entries)
            && forall a :: a in after.accounts ==>
                 && after.accounts[a].balance == LedgerSum(after.entries, a) >= 0
  {
    RunKeepsConstraints(db, rs);
    if rs != [] {
      RunConservesCredits(db, rs[..|rs| - 1]);
      ServeKeepsRunningTotals(ServeAll(db, rs[..|rs| - 1]).0, rs[|rs| - 1]);
    }
  }

  // ---------------------------------------------------------------- replay equals deduplication

  /** Some earlier request of the run created an entry under the key of request `i`. */
  ghost predicate KeyAlreadySucceeded(rs: seq<Request>, outs: seq<Outcome>, i: nat)
    requires i < |rs| == |outs|
  {
    rs[i].Post? && exists j :: 0 <= j < i && outs[j].Created? && outs[j].entry.key == rs[i].key
  }

  /** The run with every request removed whose key had already succeeded. */
  ghost function Deduplicated(rs: seq<Request>, outs: seq<Outcome>): seq<Request>
    requires |rs| == |outs|
  {
    if rs == [] then []
    else
      var n := |rs| - 1;
      Deduplicated(rs[..n], outs[..n]) + (if KeyAlreadySucceeded(rs, outs, n) then [] else [rs[n]])
  }

  lemma {:induction false} PrefixOfRun(db: Db, rs: seq<Request>, n: nat)
    requires n <= |rs|
    ensures ServeAll(db, rs).1[..n] == ServeAll(db, rs[..n]).1
  {
    if n == |rs| {
      assert rs[..n] == rs;
    } else {
      assert rs[..|rs| - 1][..n] == rs[..n];
      PrefixOfRun(db, rs[..|rs| - 1], n);
    }
  }

  /** An entry created during the run is what a lookup of its key finds at the end of the run. */
  lemma {:induction false} CreatedEntryIsFound(db: Db, rs: seq<Request>, j: nat)
    requires j < |rs| && ServeAll(db, rs).1[j].Created?
    ensures var e := ServeAll(db, rs).1[j].entry;
            FindKey(ServeAll(db, rs).0.entries, e.key) == Some(e)
  {
    var n := |rs| - 1;
    var before := ServeAll(db, rs[..n]);
    var last := Serve(before.0, rs[n]);
    if j < n {
      CreatedEntryIsFound(db, rs[..n], j);
    }
    if last.1.Created? {
      FindKeySnoc(before.0.entries, last.1.entry, ServeAll(db, rs).1[j].entry.key);
    }
  }

  /**
   * Replay equals deduplication: accounts, versions and ledger end as if every request whose key had
   * already succeeded had never been sent.
   */
  lemma {:induction false} ReplayEqualsDeduplication(db: Db, rs: seq<Request>)
    ensures ServeAll(db, Deduplicated(rs, ServeAll(db, rs).1)).0 == ServeAll(db, rs).0
  {
    if rs != [] {
      var n := |rs| - 1;
      var outs := ServeAll(db, rs).1;
      PrefixOfRun(db, rs, n);
      ReplayEqualsDeduplication(db, rs[..n]);
      if KeyAlreadySucceeded(rs, outs, n) {
        var j :| 0 <= j < n && outs[j].Created? && outs[j].entry.key == rs[n].key;
        assert outs[..n][j] == outs[j];
        CreatedEntryIsFound(db, rs[..n], j);
        assert Deduplicated(rs, outs) == Deduplicated(rs[..n], outs[..n]);
      } else {
        ServeAllSnoc(db, Deduplicated(rs[..n], outs[..n]), rs[n]);
      }
    }
  }

  /** Each removed valid request got back the entry its key's first success had created. */
  lemma RemovedRequestReturnsFirstSuccess(db: Db, rs: seq<Request>, j: nat, i: nat)
    requires j < i < |rs| && rs[i].Post? && rs[i].account in db.accounts
    requires AmountFits(rs[i].amount) && Sendable(rs[i].refType, rs[i].key)
    requires Consistent(db)
    requires var outs := ServeAll(db, rs).1; outs[j].Created? && outs[j].entry.key == rs[i].key
    ensures ServeAll(db, rs).1[i] == Replayed(ServeAll(db, rs).1[j].entry)
  {
    var outs := ServeAll(db, rs).1;
    PrefixOfRun(db, rs, i);
    PrefixOfRun(db, rs, i + 1);
    assert rs[..i + 1][..i] == rs[..i];
    assert outs[..i][j] == outs[j] && outs[..i + 1][i] == outs[i];
    CreatedEntryIsFound(db, rs[..i], j);
    RunKeepsConstraints(db, rs[..i]);
    RoundedAmountInRange(rs[i].amount.value * 1000000.0);
  }
}
