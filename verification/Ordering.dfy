/** Python's tuple and string order, and its stable `sort(key=...)`, on keys that are sequences of numbers. */
module Ordering {
  type SortKey = seq<int>

  /** Lexicographic order; a proper prefix comes first. */
  predicate Less(a: SortKey, b: SortKey) {
    if b == [] then false
    else if a == [] then true
    else if a[0] != b[0] then a[0] < b[0]
    else Less(a[1..], b[1..])
  }

  /** Strings compare by code point. */
  function Points(s: string): SortKey {
    seq(|s|, i requires 0 <= i < |s| => s[i] as int)
  }

  lemma PointsInjective(s: string, t: string)
    requires Points(s) == Points(t)
    ensures s == t
  {
    assert |s| == |Points(s)| == |Points(t)| == |t|;
    forall i | 0 <= i < |s| ensures s[i] == t[i] {
      assert Points(s)[i] == Points(t)[i];
    }
  }

  lemma {:induction false} LessIsIrreflexive(a: SortKey)
    ensures !Less(a, a)
  {
    if a != [] { LessIsIrreflexive(a[1..]); }
  }

  lemma {:induction false} LessIsTransitive(a: SortKey, b: SortKey, c: SortKey)
    requires Less(a, b) && Less(b, c)
    ensures Less(a, c)
  {
    if a != [] && a[0] == b[0] && b[0] == c[0] { LessIsTransitive(a[1..], b[1..], c[1..]); }
  }

  lemma {:induction false} LessIsTotal(a: SortKey, b: SortKey)
    ensures a == b || Less(a, b) || Less(b, a)
  {
    if a != [] && b != [] && a[0] == b[0] {
      LessIsTotal(a[1..], b[1..]);
      assert a == [a[0]] + a[1..] && b == [b[0]] + b[1..];
    }
  }

  /** Equal up to position `k`, where `a` ends or is the smaller. */
  predicate SmallerAt(a: SortKey, b: SortKey, k: nat) {
    && k <= |a| && k < |b| && (k < |a| ==> a[k] < b[k])
    && forall i :: 0 <= i < k ==> a[i] == b[i]
  }

  /** The first difference decides; without one, the shorter comes first. */
  lemma {:induction false} LessIsLexicographic(a: SortKey, b: SortKey)
    ensures Less(a, b) <==> exists k: nat :: SmallerAt(a, b, k)
  {
    if a != [] && b != [] && a[0] == b[0] {
      LessIsLexicographic(a[1..], b[1..]);
      forall k: nat | SmallerAt(a[1..], b[1..], k) ensures SmallerAt(a, b, k + 1) {
        forall i | 0 <= i < k + 1 ensures a[i] == b[i] {
          assert i > 0 ==> a[1..][i - 1] == b[1..][i - 1];
        }
      }
      forall k: nat | SmallerAt(a, b, k) ensures k > 0 && SmallerAt(a[1..], b[1..], k - 1) {}
    } else if Less(a, b) {
      assert SmallerAt(a, b, 0);
    }
  }

  // ---------------------------------------------------------------- sorting

  function Insert<T>(s: seq<T>, x: T, key: T -> SortKey): (r: seq<T>)
    ensures multiset(r) == multiset(s) + multiset{x}
  {
    if s == [] then [x]
    else
      assert s == s[..|s| - 1] + [s[|s| - 1]];
      if Less(key(x), key(s[|s| - 1])) then Insert(s[..|s| - 1], x, key) + [s[|s| - 1]]
      else s + [x]
  }

  function Sort<T>(s: seq<T>, key: T -> SortKey): (r: seq<T>)
    ensures multiset(r) == multiset(s)
  {
    if s == [] then []
    else
      assert s == s[..|s| - 1] + [s[|s| - 1]];
      Insert(Sort(s[..|s| - 1], key), s[|s| - 1], key)
  }

  predicate Ascending<T>(s: seq<T>, key: T -> SortKey) {
    forall i, j :: 0 <= i < j < |s| ==> Less(key(s[i]), key(s[j]))
  }

  ghost predicate DistinctKeys<T>(s: seq<T>, key: T -> SortKey) {
    forall i, j :: 0 <= i < j < |s| ==> key(s[i]) != key(s[j])
  }

  lemma MultisetMembers<T>(s: seq<T>, t: seq<T>, x: T)
    requires multiset(s) == multiset(t)
    ensures x in s <==> x in t
  {
    assert x in s <==> x in multiset(s);
    assert x in t <==> x in multiset(t);
  }

  lemma {:induction false} InsertAscends<T>(s: seq<T>, x: T, key: T -> SortKey)
    requires Ascending(s, key)
    requires forall y :: y in s ==> key(y) != key(x)
    ensures Ascending(Insert(s, x, key), key)
  {
    if s != [] {
      var n := |s| - 1;
      var rest, last := s[..n], s[n];
      assert last in s;
      if Less(key(x), key(last)) {
        InsertAscends(rest, x, key);
        var r := Insert(rest, x, key);
        forall i | 0 <= i < |r| ensures Less(key(r[i]), key(last)) {
          assert r[i] in multiset(r);
          if r[i] != x {
            assert r[i] in multiset(rest);
            var j :| 0 <= j < |rest| && rest[j] == r[i];
            assert Less(key(s[j]), key(s[n]));
          }
        }
      } else {
        LessIsTotal(key(last), key(x));
        forall i | 0 <= i < n ensures Less(key(s[i]), key(x)) {
          LessIsTransitive(key(s[i]), key(last), key(x));
        }
      }
    }
  }

  /** With distinct keys the result is strictly ascending. */
  lemma {:induction false} SortAscends<T>(s: seq<T>, key: T -> SortKey)
    requires DistinctKeys(s, key)
    ensures Ascending(Sort(s, key), key)
  {
    if s != [] {
      var n := |s| - 1;
      SortAscends(s[..n], key);
      forall y | y in Sort(s[..n], key) ensures key(y) != key(s[n]) {
        MultisetMembers(Sort(s[..n], key), s[..n], y);
        var j :| 0 <= j < n && s[j] == y;
      }
      InsertAscends(Sort(s[..n], key), s[n], key);
    }
  }

  lemma HeadIsMember<T>(s: seq<T>)
    requires s != []
    ensures s[0] in s
  {}

  /** A strictly ascending sequence is determined by its members. */
  lemma {:induction false} AscendingIsUnique<T>(s: seq<T>, t: seq<T>, key: T -> SortKey)
    requires Ascending(s, key) && Ascending(t, key)
    requires forall x :: x in s <==> x in t
    ensures s == t
  {
    if s == [] {
      if t != [] { HeadIsMember(t); }
    } else {
      assert s[0] in s;
      assert t != [];
      assert t[0] in t;
      var i :| 0 <= i < |t| && t[i] == s[0];
      var j :| 0 <= j < |s| && s[j] == t[0];
      if i > 0 && j > 0 {
        LessIsTransitive(key(s[0]), key(s[j]), key(s[0]));
        LessIsIrreflexive(key(s[0]));
      }
      assert s[0] == t[0];
      forall x ensures x in s[1..] <==> x in t[1..] {
        TailMembers(s, x, key);
        TailMembers(t, x, key);
      }
      AscendingIsUnique(s[1..], t[1..], key);
      assert s == [s[0]] + s[1..] && t == [t[0]] + t[1..];
    }
  }

  lemma TailMembers<T>(s: seq<T>, x: T, key: T -> SortKey)
    requires Ascending(s, key) && s != []
    ensures x in s[1..] <==> x in s && x != s[0]
  {
    if x in s[1..] {
      var i :| 0 <= i < |s[1..]| && s[1..][i] == x;
      assert s[i + 1] == x;
      if x == s[0] { LessIsIrreflexive(key(x)); }
    }
    if x in s && x != s[0] {
      var i :| 0 <= i < |s| && s[i] == x;
      assert s[1..][i - 1] == x;
    }
  }

  /** Sorting forgets the order it was given: any arrangement of the same distinct keys gives one result. */
  lemma SortIgnoresOrder<T>(s: seq<T>, t: seq<T>, key: T -> SortKey)
    requires multiset(s) == multiset(t)
    requires DistinctKeys(s, key) && DistinctKeys(t, key)
    ensures Sort(s, key) == Sort(t, key)
  {
    SortAscends(s, key);
    SortAscends(t, key);
    forall x ensures x in Sort(s, key) <==> x in Sort(t, key) {
      MultisetMembers(Sort(s, key), Sort(t, key), x);
    }
    AscendingIsUnique(Sort(s, key), Sort(t, key), key);
  }
}
