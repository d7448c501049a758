/** Numbers as text: plain digits, and fixed-point with a given number of places. */
module DecimalText {
  function Pow10(k: nat): (p: nat)
    ensures p > 0
  {
    if k == 0 then 1 else 10 * Pow10(k - 1)
  }

  predicate IsDigit(c: char) { '0' <= c <= '9' }

  predicate AllDigits(s: string) { forall i :: 0 <= i < |s| ==> IsDigit(s[i]) }

  function Digit(d: nat): (c: char)
    requires d < 10
    ensures IsDigit(c)
  {
    ('0' as int + d) as char
  }

  function Digits(n: nat): string {
    if n < 10 then [Digit(n)] else Digits(n / 10) + [Digit(n % 10)]
  }

  /** The last `places` digits. */
  function Padded(n: nat, places: nat): string {
    if places == 0 then "" else Padded(n / 10, places - 1) + [Digit(n % 10)]
  }

  /** What is left of the point. */
  function Whole(n: nat, places: nat): nat {
    if places == 0 then n else Whole(n / 10, places - 1)
  }

  function Fixed(n: nat, places: nat): string {
    Digits(Whole(n, places)) + "." + Padded(n, places)
  }

  /** The number a run of digits denotes. */
  function Number(s: string): nat
    requires AllDigits(s)
  {
    if s == "" then 0 else 10 * Number(s[..|s| - 1]) + (s[|s| - 1] as int - '0' as int)
  }

  lemma {:induction false} NumberOfDigits(n: nat)
    ensures AllDigits(Digits(n)) && Number(Digits(n)) == n
    ensures Digits(n)[0] == '0' ==> n == 0
    ensures n == 0 ==> Digits(n) == "0"
  {
    if n >= 10 {
      NumberOfDigits(n / 10);
      assert Digits(n)[..|Digits(n)| - 1] == Digits(n / 10);
    } else {
      assert Digits(n)[..0] == "";
    }
  }

  lemma {:induction false} LengthOfDigits(n: nat, k: nat)
    requires 1 <= k && n < Pow10(k)
    ensures 1 <= |Digits(n)| <= k
  {
    if n >= 10 {
      assert k >= 2;
      LengthOfDigits(n / 10, k - 1);
    }
  }

  lemma {:induction false} NumberOfPadded(n: nat, places: nat)
    ensures |Padded(n, places)| == places && AllDigits(Padded(n, places))
    ensures n == Whole(n, places) * Pow10(places) + Number(Padded(n, places))
  {
    if places > 0 {
      var front, w, p := Padded(n / 10, places - 1), Whole(n / 10, places - 1), Pow10(places - 1);
      NumberOfPadded(n / 10, places - 1);
      assert Padded(n, places)[..places - 1] == front;
      assert Number(Padded(n, places)) == 10 * Number(front) + n % 10;
      Shift(w, p);
      assert n / 10 == w * p + Number(front);
    }
  }

  lemma Shift(w: nat, p: nat)
    ensures w * (10 * p) == 10 * (w * p)
  {}

  lemma {:induction false} NumberIsBounded(s: string)
    requires AllDigits(s)
    ensures Number(s) < Pow10(|s|)
  {
    if s != "" {
      NumberIsBounded(s[..|s| - 1]);
    }
  }

  /** Where the first `c` stands, or the end. */
  function IndexOf(s: string, c: char): (i: nat)
    ensures i <= |s|
    ensures forall j :: 0 <= j < i ==> s[j] != c
    ensures i < |s| ==> s[i] == c
  {
    if s == "" || s[0] == c then 0 else 1 + IndexOf(s[1..], c)
  }

  lemma IndexOfAfter(s: string, c: char, t: string)
    requires forall j :: 0 <= j < |s| ==> s[j] != c
    ensures IndexOf(s + [c] + t, c) == |s|
  {
    var u := s + [c] + t;
    assert u[|s|] == c;
    assert forall j :: 0 <= j < |s| ==> u[j] == s[j];
  }

  /** Fixed-point text splits at its point into the whole part and the places. */
  lemma FixedSplits(n: nat, places: nat)
    ensures var s := Fixed(n, places);
            var dot := IndexOf(s, '.');
            dot < |s| && s[..dot] == Digits(Whole(n, places)) && s[dot + 1..] == Padded(n, places)
  {
    var whole, part := Digits(Whole(n, places)), Padded(n, places);
    NumberOfDigits(Whole(n, places));
    IndexOfAfter(whole, '.', part);
    assert Fixed(n, places) == whole + ['.'] + part;
  }

  /** Different numbers print differently. */
  lemma FixedInjective(m: nat, n: nat, places: nat)
    requires Fixed(m, places) == Fixed(n, places)
    ensures m == n
  {
    FixedSplits(m, places);
    FixedSplits(n, places);
    NumberOfDigits(Whole(m, places));
    NumberOfDigits(Whole(n, places));
    NumberOfPadded(m, places);
    NumberOfPadded(n, places);
  }

  lemma DigitsInjective(m: nat, n: nat)
    requires Digits(m) == Digits(n)
    ensures m == n
  {
    NumberOfDigits(m);
    NumberOfDigits(n);
  }
}
