/** The signup mail limiter: ten expiring slot keys and one expiring gap key per address. */
module SignupMail {
  import opened Wrappers
  import opened Timeline

  const MAIL_GAP_SECONDS := 10 * 60
  const MAIL_DAY_SECONDS := 24 * 60 * 60
  const MAIL_DAY_MAX := 10

  /** Keys carry the address itself; the digest the service makes of it is taken to be collision-free. */
  datatype CacheKey = Day(address: string, index: nat) | Gap(address: string)

  /** Each stored key with the instant at which it expires. */
  type Entries = map<CacheKey, int>

  predicate Live(c: Entries, k: CacheKey, now: int) {
    k in c && now < c[k]
  }

  /** The lowest slot at or above `start` that `cache.add` could take. */
  function FirstFree(c: Entries, address: string, now: int, start: nat): (r: Option<nat>)
    ensures r.None? ==> forall i :: start <= i < MAIL_DAY_MAX ==> Live(c, Day(address, i), now)
    ensures r.Some? ==>
              && start <= r.value < MAIL_DAY_MAX
              && !Live(c, Day(address, r.value), now)
              && forall i :: start <= i < r.value ==> Live(c, Day(address, i), now)
    decreases MAIL_DAY_MAX - start
  {
    if start >= MAIL_DAY_MAX then None
    else if Live(c, Day(address, start), now) then FirstFree(c, address, now, start + 1)
    else Some(start)
  }

  function Claim(c: Entries, address: string, now: int): (bool, Entries) {
    match FirstFree(c, address, now, 0)
    case None => (false, c)
    case Some(i) =>
      if Live(c, Gap(address), now) then (false, c - {Day(address, i)})
      else (true, c[Day(address, i) := now + MAIL_DAY_SECONDS][Gap(address) := now + MAIL_GAP_SECONDS])
  }

  class MailCache {
    var entries: Entries

    constructor ()
      ensures entries == map[]
    {
      entries := map[];
    }

    /** Stores the key unless it is already there and unexpired. */
    method Add(key: CacheKey, timeout: int, now: int) returns (added: bool)
      modifies this
      ensures added <==> !Live(old(entries), key, now)
      ensures entries == if added then old(entries)[key := now + timeout] else old(entries)
    {
      added := !(key in entries && now < entries[key]);
      if added {
        entries := entries[key := now + timeout];
      }
    }

    method Delete(key: CacheKey)
      modifies this
      ensures entries == old(entries) - {key}
    {
      entries := entries - {key};
    }

    method ClaimSignupMail(address: string, now: int) returns (claimed: bool)
      modifies this
      ensures (claimed, entries) == Claim(old(entries), address, now)
    {
      var slot: Option<CacheKey> := None;
      for index := 0 to MAIL_DAY_MAX
        invariant slot.None? ==> entries == old(entries)
        invariant slot.None? ==> FirstFree(old(entries), address, now, 0) == FirstFree(old(entries), address, now, index)
        invariant slot.Some? ==>
                    exists i: nat :: FirstFree(old(entries), address, now, 0) == Some(i)
                      && slot.value == Day(address, i)
                      && entries == old(entries)[Day(address, i) := now + MAIL_DAY_SECONDS]
      {
        var key := Day(address, index);
        var added := Add(key, MAIL_DAY_SECONDS, now);
        if added {
          slot := Some(key);
          break;
        }
      }
      if slot.None? {
        return false;
      }
      claimed := Add(Gap(address), MAIL_GAP_SECONDS, now);
      if !claimed {
        Delete(slot.value);
        assert entries == old(entries) - {slot.value};
      }
    }
  }

  // ---------------------------------------------------------------- the sliding log

  function Count(times: seq<int>, since: int): nat {
    if times == [] then 0
    else Count(times[..|times| - 1], since) + (if times[|times| - 1] > since then 1 else 0)
  }

  /** The rule as documented: fewer than ten sends in the last 24 hours and none in the last ten minutes. */
  predicate Allowed(times: seq<int>, now: int) {
    Count(times, now - MAIL_DAY_SECONDS) < MAIL_DAY_MAX && Count(times, now - MAIL_GAP_SECONDS) == 0
  }

  /** The cache after the claims are made one after another. */
  function CacheAfter(asks: seq<Ask>): Entries {
    if asks == [] then map[]
    else Claim(CacheAfter(asks[..|asks| - 1]), asks[|asks| - 1].sender, asks[|asks| - 1].at).1
  }

  /** The times of the address's granted claims. */
  function SentTimes(asks: seq<Ask>, address: string): seq<int> {
    if asks == [] then []
    else
      var before := SentTimes(asks[..|asks| - 1], address);
      var last := asks[|asks| - 1];
      if last.sender == address && Claim(CacheAfter(asks[..|asks| - 1]), address, last.at).0 then before + [last.at] else before
  }

  /** The slots those sends took. */
  function SentSlots(asks: seq<Ask>, address: string): (slots: seq<nat>)
    ensures |slots| == |SentTimes(asks, address)|
  {
    if asks == [] then []
    else
      var before := SentSlots(asks[..|asks| - 1], address);
      var last := asks[|asks| - 1];
      if last.sender == address && Claim(CacheAfter(asks[..|asks| - 1]), address, last.at).0
      then before + [SlotFor(CacheAfter(asks[..|asks| - 1]), address, last.at)] else before
  }

  function SlotFor(c: Entries, address: string, now: int): nat {
    match FirstFree(c, address, now, 0)
    case Some(i) => i
    case None => 0
  }

  // ---------------------------------------------------------------- the refinement relation

  ghost predicate Spaced(times: seq<int>) {
    forall i, j :: 0 <= i < j < |times| ==> times[i] + MAIL_GAP_SECONDS <= times[j]
  }

  /** Slot `i` holds the key of one of the sends. */
  ghost predicate Owned(c: Entries, address: string, times: seq<int>, slots: seq<nat>, i: nat)
    requires |slots| == |times|
  {
    Day(address, i) in c
    && exists k :: 0 <= k < |times| && slots[k] == i && c[Day(address, i)] == times[k] + MAIL_DAY_SECONDS
  }

  /** The address's unexpired slots are exactly its sends of the last day; the gap is its last send's. */
  ghost predicate Represents(c: Entries, address: string, times: seq<int>, slots: seq<nat>, now: int) {
    && |slots| == |times|
    && Spaced(times)
    && (forall k :: 0 <= k < |times| ==> slots[k] < MAIL_DAY_MAX)
    && (forall k :: 0 <= k < |times| && now < times[k] + MAIL_DAY_SECONDS ==>
          Day(address, slots[k]) in c && c[Day(address, slots[k])] == times[k] + MAIL_DAY_SECONDS)
    && (forall i: nat :: i < MAIL_DAY_MAX && Live(c, Day(address, i), now) ==> Owned(c, address, times, slots, i))
    && if times == [] then Gap(address) !in c
       else Gap(address) in c && c[Gap(address)] == times[|times| - 1] + MAIL_GAP_SECONDS
  }

  /** Recent sends are a suffix, so counting them finds where it begins. */
  lemma {:induction false} RecentIsSuffix(times: seq<int>, since: int)
    requires Spaced(times)
    ensures Count(times, since) <= |times|
    ensures forall k :: 0 <= k < |times| ==> (times[k] > since <==> k >= |times| - Count(times, since))
  {
    if times != [] {
      var n := |times| - 1;
      RecentIsSuffix(times[..n], since);
      forall k | 0 <= k < n ensures times[k] == times[..n][k] && times[k] < times[n] {}
    }
  }

  ghost function Elements(s: seq<nat>): set<nat> {
    if s == [] then {} else Elements(s[..|s| - 1]) + {s[|s| - 1]}
  }

  lemma {:induction false} ElementsAreMembers(s: seq<nat>)
    ensures forall i :: i in Elements(s) <==> i in s
  {
    if s != [] {
      ElementsAreMembers(s[..|s| - 1]);
      assert s == s[..|s| - 1] + [s[|s| - 1]];
    }
  }

  lemma {:induction false} ElementsOfDistinct(s: seq<nat>)
    requires forall j, k :: 0 <= j < k < |s| ==> s[j] != s[k]
    ensures |Elements(s)| == |s|
  {
    if s != [] {
      var n := |s| - 1;
      ElementsOfDistinct(s[..n]);
      ElementsAreMembers(s[..n]);
      assert s[n] !in Elements(s[..n]);
    }
  }

  lemma {:induction false} SizeBelow(s: set<nat>, n: nat)
    requires forall i :: i in s ==> i < n
    ensures |s| <= n
    ensures |s| == n ==> forall i: nat :: i < n ==> i in s
    ensures (forall i: nat :: i < n ==> i in s) ==> |s| == n
    decreases n
  {
    if n > 0 {
      var rest := s - {n - 1};
      SizeBelow(rest, n - 1);
      assert n - 1 in s ==> |s| == |rest| + 1;
      assert n - 1 !in s ==> s == rest;
      assert forall i: nat :: i < n - 1 ==> (i in rest <==> i in s);
    }
  }

  lemma DistinctBelow(s: seq<nat>, n: nat)
    requires forall k :: 0 <= k < |s| ==> s[k] < n
    requires forall j, k :: 0 <= j < k < |s| ==> s[j] != s[k]
    ensures |s| <= n
    ensures |s| == n <==> forall i: nat :: i < n ==> i in s
  {
    ElementsOfDistinct(s);
    ElementsAreMembers(s);
    SizeBelow(Elements(s), n);
  }

  /** The slots of the recent sends are distinct, and are the unexpired ones. */
  lemma RecentSlotsAreLive(c: Entries, address: string, times: seq<int>, slots: seq<nat>, now: int, m: nat)
    requires Represents(c, address, times, slots, now) && m <= |times|
    requires forall k :: 0 <= k < |times| ==> (times[k] > now - MAIL_DAY_SECONDS <==> k >= m)
    ensures forall j, k :: m <= j < k < |slots| ==> slots[j] != slots[k]
    ensures forall i: nat :: i < MAIL_DAY_MAX ==> (i in slots[m..] <==> Live(c, Day(address, i), now))
  {
    forall j, k | m <= j < k < |slots| ensures slots[j] != slots[k] {
      assert times[j] < times[k];
    }
    forall i: nat | i < MAIL_DAY_MAX
      ensures i in slots[m..] <==> Live(c, Day(address, i), now)
    {
      if Live(c, Day(address, i), now) {
        assert Owned(c, address, times, slots, i);
        var k :| 0 <= k < |times| && slots[k] == i && c[Day(address, i)] == times[k] + MAIL_DAY_SECONDS;
        assert slots[m..][k - m] == i;
      }
    }
  }

  /** No slot is free exactly when ten different ones are taken. */
  lemma NoneFreeMeansTen(c: Entries, address: string, now: int, taken: seq<nat>)
    requires forall k :: 0 <= k < |taken| ==> taken[k] < MAIL_DAY_MAX
    requires forall j, k :: 0 <= j < k < |taken| ==> taken[j] != taken[k]
    requires forall i: nat :: i < MAIL_DAY_MAX ==> (i in taken <==> Live(c, Day(address, i), now))
    ensures |taken| <= MAIL_DAY_MAX
    ensures FirstFree(c, address, now, 0).None? <==> |taken| == MAIL_DAY_MAX
  {
    DistinctBelow(taken, MAIL_DAY_MAX);
    match FirstFree(c, address, now, 0) {
      case None =>
        assert forall i: nat :: i < MAIL_DAY_MAX ==> i in taken;
      case Some(i) =>
        assert i !in taken;
    }
  }

  /** Ten slots are taken exactly when ten sends are recent. */
  lemma SlotsFullMeansTenRecent(c: Entries, address: string, times: seq<int>, slots: seq<nat>, now: int)
    requires Represents(c, address, times, slots, now)
    ensures Count(times, now - MAIL_DAY_SECONDS) <= MAIL_DAY_MAX
    ensures FirstFree(c, address, now, 0).None? <==> Count(times, now - MAIL_DAY_SECONDS) == MAIL_DAY_MAX
  {
    RecentIsSuffix(times, now - MAIL_DAY_SECONDS);
    var m := |times| - Count(times, now - MAIL_DAY_SECONDS);
    RecentSlotsAreLive(c, address, times, slots, now, m);
    assert forall k :: 0 <= k < |slots[m..]| ==> slots[m..][k] == slots[m + k];
    NoneFreeMeansTen(c, address, now, slots[m..]);
  }

  /** A claim answers as the rule does. */
  lemma ClaimAnswersRule(c: Entries, address: string, times: seq<int>, slots: seq<nat>, now: int)
    requires Represents(c, address, times, slots, now)
    ensures Claim(c, address, now).0 == Allowed(times, now)
  {
    SlotsFullMeansTenRecent(c, address, times, slots, now);
    RecentIsSuffix(times, now - MAIL_GAP_SECONDS);
  }

  lemma AllowedIsSpaced(times: seq<int>, now: int)
    requires Spaced(times) && Allowed(times, now)
    ensures Spaced(times + [now])
  {
    RecentIsSuffix(times, now - MAIL_GAP_SECONDS);
  }

  /** A granted claim adds one send to the log. */
  lemma GrantedClaimIsLogged(c: Entries, address: string, times: seq<int>, slots: seq<nat>, now: int)
    requires Represents(c, address, times, slots, now) && Claim(c, address, now).0
    ensures Represents(Claim(c, address, now).1, address, times + [now], slots + [SlotFor(c, address, now)], now)
  {
    ClaimAnswersRule(c, address, times, slots, now);
    AllowedIsSpaced(times, now);
    var d := Claim(c, address, now).1;
    forall i: nat | i < MAIL_DAY_MAX && Live(d, Day(address, i), now)
      ensures Owned(d, address, times + [now], slots + [SlotFor(c, address, now)], i)
    {
      assert Owned(c, address, times, slots, i) || i == SlotFor(c, address, now);
      GrantedSlotIsOwned(c, address, times, slots, now, i);
    }
  }

  lemma GrantedSlotIsOwned(c: Entries, address: string, times: seq<int>, slots: seq<nat>, now: int, i: nat)
    requires |slots| == |times| && Claim(c, address, now).0
    requires Owned(c, address, times, slots, i) || i == SlotFor(c, address, now)
    ensures Owned(Claim(c, address, now).1, address, times + [now], slots + [SlotFor(c, address, now)], i)
  {
    var slot := SlotFor(c, address, now);
    var times1, slots1 := times + [now], slots + [slot];
    if i == slot {
      assert slots1[|times|] == i && times1[|times|] == now;
    } else {
      var k :| 0 <= k < |times| && slots[k] == i && c[Day(address, i)] == times[k] + MAIL_DAY_SECONDS;
      assert slots1[k] == i && times1[k] == times[k];
    }
  }

  /** A refused claim, and a claim for another address, keep the relation. */
  lemma OtherClaimKeepsRelation(c: Entries, asked: string, address: string, times: seq<int>, slots: seq<nat>, now: int)
    requires Represents(c, address, times, slots, now)
    requires asked != address || !Claim(c, asked, now).0
    ensures Represents(Claim(c, asked, now).1, address, times, slots, now)
  {
    var d := Claim(c, asked, now).1;
    assert forall k: CacheKey :: k.address == address ==> (Live(d, k, now) <==> Live(c, k, now));
    assert forall k: CacheKey :: k.address == address && k in d ==> k in c && d[k] == c[k];
    forall i: nat | i < MAIL_DAY_MAX && Live(d, Day(address, i), now)
      ensures Owned(d, address, times, slots, i)
    {
      assert Owned(c, address, times, slots, i);
    }
  }

  lemma TimePasses(c: Entries, address: string, times: seq<int>, slots: seq<nat>, before: int, now: int)
    requires Represents(c, address, times, slots, before) && before <= now
    ensures Represents(c, address, times, slots, now)
  {}

  lemma {:induction false} RunRefinesRule(asks: seq<Ask>, address: string, now: int)
    requires Chronological(asks, AskedAt) && (forall i :: 0 <= i < |asks| ==> AskedAt(asks[i]) <= now)
    ensures Represents(CacheAfter(asks), address, SentTimes(asks, address), SentSlots(asks, address), now)
  {
    if asks != [] {
      var n := |asks| - 1;
      var last := asks[n];
      PrefixIsChronological(asks, AskedAt);
      var c, times, slots := CacheAfter(asks[..n]), SentTimes(asks[..n], address), SentSlots(asks[..n], address);
      RunRefinesRule(asks[..n], address, last.at);
      ClaimAnswersRule(c, address, times, slots, last.at);
      if last.sender == address && Allowed(times, last.at) {
        GrantedClaimIsLogged(c, address, times, slots, last.at);
      } else {
        OtherClaimKeepsRelation(c, last.sender, address, times, slots, last.at);
      }
      TimePasses(CacheAfter(asks), address, SentTimes(asks, address), SentSlots(asks, address), last.at, now);
    }
  }

  // ---------------------------------------------------------------- main results

  /**
   * Run sequentially on a clock that never goes back, over any addresses, a claim is granted exactly
   * when the address has fewer than ten granted claims in the last 86400 seconds and none in the last 600.
   */
  lemma ClaimFollowsSlidingLog(asks: seq<Ask>, address: string, now: int)
    requires Chronological(asks, AskedAt) && (forall i :: 0 <= i < |asks| ==> AskedAt(asks[i]) <= now)
    ensures var sent := SentTimes(asks, address);
            && Claim(CacheAfter(asks), address, now).0 == Allowed(sent, now)
            && (Allowed(sent, now) <==> Count(sent, now - 86400) < 10 && Count(sent, now - 600) == 0)
  {
    RunRefinesRule(asks, address, now);
    ClaimAnswersRule(CacheAfter(asks), address, SentTimes(asks, address), SentSlots(asks, address), now);
  }

  /** A refused claim leaves every unexpired key as it was. */
  lemma RefusalLeavesLiveCacheUnchanged(c: Entries, address: string, now: int, k: CacheKey, later: int)
    requires !Claim(c, address, now).0 && now <= later
    ensures var d := Claim(c, address, now).1;
            && (Live(d, k, later) <==> Live(c, k, later))
            && (Live(c, k, later) ==> d[k] == c[k])
  {}

  /** What the rule bounds: sends are 600 seconds apart and the eleventh is a day after the first. */
  ghost predicate RateLimited(times: seq<int>) {
    && Spaced(times)
    && forall k :: 0 <= k && k + MAIL_DAY_MAX < |times| ==> times[k] + MAIL_DAY_SECONDS <= times[k + MAIL_DAY_MAX]
  }

  lemma AllowedKeepsRate(times: seq<int>, now: int)
    requires RateLimited(times) && Allowed(times, now)
    ensures RateLimited(times + [now])
  {
    AllowedIsSpaced(times, now);
    RecentIsSuffix(times, now - MAIL_DAY_SECONDS);
  }

  /** The granted claims of an address keep both limits, in every run. */
  lemma {:induction false} RunIsRateLimited(asks: seq<Ask>, address: string)
    requires Chronological(asks, AskedAt)
    ensures RateLimited(SentTimes(asks, address))
  {
    if asks != [] {
      var n := |asks| - 1;
      PrefixIsChronological(asks, AskedAt);
      RunIsRateLimited(asks[..n], address);
      assert forall i :: 0 <= i < n ==> AskedAt(asks[..n][i]) <= AskedAt(asks[n]);
      ClaimFollowsSlidingLog(asks[..n], address, asks[n].at);
      if SentTimes(asks, address) != SentTimes(asks[..n], address) {
        AllowedKeepsRate(SentTimes(asks[..n], address), asks[n].at);
      }
    }
  }
}
