/** Requests on a clock that never goes back. */
module Timeline {
  /** One request of a sender. */
  datatype Ask = Ask(sender: string, at: int)

  function AskedAt(a: Ask): int { a.at }

  ghost predicate Chronological<T>(s: seq<T>, at: T -> int) {
    forall i, j :: 0 <= i <= j < |s| ==> at(s[i]) <= at(s[j])
  }

  /** A prefix of a chronological sequence is one, and none of it is later than what follows. */
  lemma PrefixIsChronological<T>(s: seq<T>, at: T -> int)
    requires s != [] && Chronological(s, at)
    ensures Chronological(s[..|s| - 1], at)
    ensures forall i :: 0 <= i < |s| - 1 ==> at(s[i]) <= at(s[|s| - 1])
  {}
}
