/** The credit service as it runs alone: an object over the account rows and the append-only ledger. */
module CreditServiceModel {
  import opened Wrappers
  import opened Texts
  import opened Ledger

  class CreditService {
    var accounts: map<AccountId, Row>
    var entries: seq<Entry>

    ghost function Store(): Db
      reads this
    {
      Db(accounts, entries)
    }

    constructor (accounts: map<AccountId, Row>)
      ensures Store() == Db(accounts, [])
    {
      this.accounts, entries := accounts, [];
    }

    /** The shared transaction of credit and debit. */
    method Apply(account: AccountId, amount: Amount, refType: string, refId: string, key: Key, credit: bool)
      returns (out: Outcome)
      modifies this
      ensures (Store(), out) == Serve(old(Store()), Post(account, amount, refType, refId, key, credit))
    {
      var normalized := NormalizeAmount(amount);
      if normalized.Err? {
        return Refused(normalized.error);
      }
      if refType !in REFERENCE_TYPES {
        return Refused(InvalidReferenceType);
      }
      if key == "" {
        return Refused(KeyRequired);
      }
      var delta := if credit then normalized.value else -normalized.value;
      if account !in accounts {
        return Refused(AccountMissing);
      }
      var locked := accounts[account];
      var existing := FindKey(entries, key);
      if existing.Some? {
        return Replayed(existing.value);
      }
      var newBalance := locked.balance + delta;
      if newBalance < 0 {
        return Refused(InsufficientFunds);
      }
      if newBalance >= COLUMN_LIMIT {
        return Refused(OutOfRange);
      }
      var entry := Entry(account, delta, newBalance, refType, refId, key);
      entries := entries + [entry];
      accounts := accounts[account := Row(newBalance, locked.version + 1)];
      return Created(entry);
    }

    /** A created credit adds the amount, to the nearest millionth. */
    method Credit(account: AccountId, amount: Amount, refType: string, refId: string, key: Key)
      returns (out: Outcome)
      modifies this
      ensures (Store(), out) == Serve(old(Store()), Post(account, amount, refType, refId, key, true))
      ensures out.Created? ==>
                && amount.Finite? && out.entry.delta > 0
                && -0.5 < out.entry.delta as real - amount.value * 1000000.0 <= 0.5
                && account in accounts && account in old(accounts)
                && accounts[account].balance == old(accounts)[account].balance + out.entry.delta
    {
      out := Apply(account, amount, refType, refId, key, true);
      if amount.Finite? {
        RoundedAmountInRange(amount.value * 1000000.0);
      }
    }

    /** A created debit takes the amount off, to the nearest millionth. */
    method Debit(account: AccountId, amount: Amount, refType: string, refId: string, key: Key)
      returns (out: Outcome)
      modifies this
      ensures (Store(), out) == Serve(old(Store()), Post(account, amount, refType, refId, key, false))
      ensures out.Created? ==>
                && amount.Finite? && out.entry.delta < 0
                && -0.5 < -out.entry.delta as real - amount.value * 1000000.0 <= 0.5
                && account in accounts && account in old(accounts)
                && 0 <= accounts[account].balance == old(accounts)[account].balance + out.entry.delta
    {
      out := Apply(account, amount, refType, refId, key, false);
      if amount.Finite? {
        RoundedAmountInRange(amount.value * 1000000.0);
      }
    }

    /** An empty or missing key is replaced by a generated one; `token` and `refToken` stand for fresh UUIDs. */
    method AdminAdjust(account: AccountId, amount: Amount, credit: bool, reason: string, actor: string,
                       key: Option<Key>, token: string, refToken: string)
      returns (out: Outcome)
      modifies this
      ensures IsBlank(reason) ==> out == Refused(ReasonRequired) && Store() == old(Store())
      ensures !IsBlank(reason) ==>
                var used := if key.Some? && key.value != "" then key.value else "admin-adjust:" + token;
                (Store(), out) == Serve(old(Store()),
                  Post(account, amount, "admin_adjustment", actor + ":" + refToken, used, credit))
    {
      if IsBlank(reason) {
        return Refused(ReasonRequired);
      }
      var used := if key.Some? && key.value != "" then key.value else "admin-adjust:" + token;
      var refId := actor + ":" + refToken;
      if credit {
        out := Credit(account, amount, "admin_adjustment", refId, used);
      } else {
        out := Debit(account, amount, "admin_adjustment", refId, used);
      }
    }

    /** The database's SUM(delta) over the account's entries. */
    method SumLedger(account: AccountId) returns (total: int)
      ensures total == LedgerSum(entries, account)
    {
      total := 0;
      for i := 0 to |entries|
        invariant total == LedgerSum(entries[..i], account)
      {
        assert entries[..i + 1] == entries[..i] + [entries[i]];
        LedgerSumSnoc(entries[..i], entries[i], account);
        if entries[i].account == account {
          total := total + entries[i].delta;
        }
      }
      assert entries[..|entries|] == entries;
    }

    /** Repairs the cached balance; a sum the balance column cannot hold is refused. */
    method RebuildBalanceFromLedger(account: AccountId) returns (out: Outcome)
      modifies this
      ensures (Store(), out) == Serve(old(Store()), Rebuild(account))
    {
      if account !in accounts {
        return Refused(AccountMissing);
      }
      var locked := accounts[account];
      var expected := SumLedger(account);
      if locked.balance == expected {
        return Rebuilt(expected);
      }
      if expected < 0 || expected >= COLUMN_LIMIT {
        return Refused(OutOfRange);
      }
      accounts := accounts[account := Row(expected, locked.version + 1)];
      return Rebuilt(expected);
    }
  }
}
