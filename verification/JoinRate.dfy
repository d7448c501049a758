/** The join rate counter: a count per address whose expiry is renewed on every admission. */
module JoinRate {
  import opened Timeline

  const WINDOW := 3600

  datatype Counter = Counter(count: int, expiresAt: int)

  type Counters = map<string, Counter>

  /** `cache.get(key, 0)`. */
  function Current(c: Counters, ip: string, now: int): int {
    if ip in c && now < c[ip].expiresAt then c[ip].count else 0
  }

  function Allow(c: Counters, ip: string, limit: int, now: int): (bool, Counters) {
    if Current(c, ip, now) >= limit then (false, c)
    else (true, c[ip := Counter(Current(c, ip, now) + 1, now + WINDOW)])
  }

  class JoinGate {
    const limit: int
    var counters: Counters

    constructor (limit: int)
      ensures this.limit == limit && counters == map[]
    {
      this.limit, counters := limit, map[];
    }

    method AllowJoin(ip: string, now: int) returns (allowed: bool)
      modifies this
      ensures (allowed, counters) == Allow(old(counters), ip, limit, now)
    {
      var count := 0;
      if ip in counters && now < counters[ip].expiresAt {
        count := counters[ip].count;
      }
      if count >= limit {
        return false;
      }
      counters := counters[ip := Counter(count + 1, now + WINDOW)];
      return true;
    }
  }

  function CountersAfter(asks: seq<Ask>, limit: int): Counters {
    if asks == [] then map[]
    else Allow(CountersAfter(asks[..|asks| - 1], limit), asks[|asks| - 1].sender, limit, asks[|asks| - 1].at).1
  }

  /** When this address was admitted. */
  function Admissions(asks: seq<Ask>, limit: int, ip: string): seq<int> {
    if asks == [] then []
    else
      var before := Admissions(asks[..|asks| - 1], limit, ip);
      var last := asks[|asks| - 1];
      if last.sender == ip && Allow(CountersAfter(asks[..|asks| - 1], limit), ip, limit, last.at).0
      then before + [last.at] else before
  }

  /** Fewer than `limit` admissions lie between two that are within one window of each other. */
  ghost predicate Limited(times: seq<int>, limit: int) {
    forall i, j :: 0 <= i <= j < |times| && times[j] < times[i] + WINDOW ==> j - i < limit
  }

  ghost predicate Sorted(times: seq<int>) {
    forall i, j :: 0 <= i <= j < |times| ==> times[i] <= times[j]
  }

  /** The counter counts the admissions since the last pause of a whole window. */
  ghost predicate CountsBurst(c: Counters, ip: string, times: seq<int>) {
    if times == [] then ip !in c
    else
      && ip in c
      && 1 <= c[ip].count <= |times|
      && c[ip].expiresAt == times[|times| - 1] + WINDOW
      && var start := |times| - c[ip].count;
         && (start > 0 ==> times[start - 1] + WINDOW <= times[start])
         && forall i :: start < i < |times| ==> times[i] < times[i - 1] + WINDOW
  }

  lemma AdmissionKeepsLimit(c: Counters, ip: string, times: seq<int>, limit: int, now: int)
    requires CountsBurst(c, ip, times) && Sorted(times) && Limited(times, limit)
    requires times != [] ==> times[|times| - 1] <= now
    requires Allow(c, ip, limit, now).0
    ensures CountsBurst(Allow(c, ip, limit, now).1, ip, times + [now])
    ensures Sorted(times + [now]) && Limited(times + [now], limit)
  {
    var n := |times|;
    var after := times + [now];
    var start := n - Current(c, ip, now);
    forall i | 0 <= i < start ensures times[i] + WINDOW <= now {
      assert times[i] <= times[start - 1];
      assert start < n ==> times[start] <= times[n - 1];
    }
    forall i | 0 <= i <= n && now < after[i] + WINDOW
      ensures n - i < limit
    {
      assert i >= start;
    }
  }

  lemma {:induction false} RunKeepsLimit(asks: seq<Ask>, limit: int, ip: string)
    requires Chronological(asks, AskedAt)
    ensures var times := Admissions(asks, limit, ip);
            && CountsBurst(CountersAfter(asks, limit), ip, times)
            && Sorted(times) && Limited(times, limit)
            && forall i :: 0 <= i < |times| ==> times[i] <= asks[|asks| - 1].at
  {
    if asks != [] {
      var n := |asks| - 1;
      RunKeepsLimit(asks[..n], limit, ip);
      if asks[n].sender == ip && Allow(CountersAfter(asks[..n], limit), ip, limit, asks[n].at).0 {
        AdmissionKeepsLimit(CountersAfter(asks[..n], limit), ip, Admissions(asks[..n], limit, ip), limit, asks[n].at);
      }
    }
  }

  /** Although its expiry is renewed on each admission, the counter admits at most `limit` in any window. */
  lemma AtMostLimitPerWindow(asks: seq<Ask>, limit: int, ip: string, i: nat, j: nat)
    requires Chronological(asks, AskedAt)
    requires i <= j < |Admissions(asks, limit, ip)|
    requires Admissions(asks, limit, ip)[j] < Admissions(asks, limit, ip)[i] + WINDOW
    ensures j - i + 1 <= limit
  {
    RunKeepsLimit(asks, limit, ip);
  }

  /** A request a whole window after the address's last admission is let in. */
  lemma AdmittedAfterPause(asks: seq<Ask>, limit: int, ip: string, now: int)
    requires Chronological(asks, AskedAt) && limit >= 1
    requires var times := Admissions(asks, limit, ip); times == [] || times[|times| - 1] + WINDOW <= now
    ensures Allow(CountersAfter(asks, limit), ip, limit, now).0
  {
    RunKeepsLimit(asks, limit, ip);
  }

  /** How many of the admissions, the last of them less than an hour ago, follow on each other within an hour. */
  function Burst(times: seq<int>, now: int): nat {
    if times == [] || times[|times| - 1] + 3600 <= now then 0
    else Burst(times[..|times| - 1], times[|times| - 1]) + 1
  }

  lemma {:induction false} BurstFromStart(times: seq<int>, now: int, start: nat)
    requires start <= |times|
    requires 0 < start < |times| ==> times[start - 1] + WINDOW <= times[start]
    requires forall i :: start < i < |times| ==> times[i] < times[i - 1] + WINDOW
    requires if start < |times| then now < times[|times| - 1] + WINDOW else times != [] ==> times[|times| - 1] + WINDOW <= now
    ensures Burst(times, now) == |times| - start
  {
    if start < |times| {
      BurstFromStart(times[..|times| - 1], times[|times| - 1], start);
    }
  }

  /** The exact rule: a request is admitted while the burst of admissions up to it is shorter than the limit. */
  lemma AdmittedIffBurstIsShort(asks: seq<Ask>, limit: int, ip: string, now: int)
    requires Chronological(asks, AskedAt)
    ensures Allow(CountersAfter(asks, limit), ip, limit, now).0 <==> Burst(Admissions(asks, limit, ip), now) < limit
  {
    RunKeepsLimit(asks, limit, ip);
    var c, times := CountersAfter(asks, limit), Admissions(asks, limit, ip);
    if times != [] {
      BurstFromStart(times, now, if now < c[ip].expiresAt then |times| - c[ip].count else |times|);
    }
  }
}
