/** Grant amounts in request bodies: a strict decimal text that the ledger takes as it is. */
module GrantAmount {
  import opened Wrappers
  import opened Decimals
  import opened DecimalText
  import opened Ledger

  const MAX_WHOLE_DIGITS := 14
  const MAX_PLACES := 6

  predicate IsWholePart(s: string) {
    s == "0" || (1 <= |s| <= MAX_WHOLE_DIGITS && AllDigits(s) && s[0] != '0')
  }

  /** In ASCII digits: `0` or up to 14 digits without a leading zero, then at most one point with 1 to 6 digits. */
  predicate MatchesAmount(s: string) {
    var dot := IndexOf(s, '.');
    && IsWholePart(s[..dot])
    && (dot < |s| ==> 1 <= |s[dot + 1..]| <= MAX_PLACES && AllDigits(s[dot + 1..]))
  }

  /** The digits after the point. */
  function Places(s: string): string
    requires MatchesAmount(s)
  {
    var dot := IndexOf(s, '.');
    if dot < |s| then s[dot + 1..] else ""
  }

  /** The exact decimal the text denotes. */
  function DecimalOf(s: string): real
    requires MatchesAmount(s)
  {
    Number(s[..IndexOf(s, '.')]) as real + Number(Places(s)) as real / Pow10(|Places(s)|) as real
  }

  /** The decimal digits of all scripts, each with its value; the point is none. */
  ghost predicate UnicodeDigits(value: char -> Option<nat>) {
    && (forall c :: value(c).Some? ==> value(c).value < 10)
    && (forall d: nat :: d < 10 ==> value(Digit(d)) == Some(d))
    && value('.').None?
  }

  predicate AllValued(s: string, value: char -> Option<nat>) {
    forall i :: 0 <= i < |s| ==> value(s[i]).Some?
  }

  /** The pattern of the request body: the leading `0` and `1` to `9` are ASCII, any other digit is of any script. */
  predicate MatchesPattern(s: string, value: char -> Option<nat>) {
    var dot := IndexOf(s, '.');
    && (s[..dot] == "0" || (1 <= dot <= MAX_WHOLE_DIGITS && '1' <= s[0] <= '9' && AllValued(s[1..dot], value)))
    && (dot < |s| ==> 1 <= |s[dot + 1..]| <= MAX_PLACES && AllValued(s[dot + 1..], value))
  }

  /** `Decimal` reads every digit as the ASCII one of the same value. */
  function ToAscii(s: string, value: char -> Option<nat>): (t: string)
    ensures |t| == |s|
  {
    seq(|s|, i requires 0 <= i < |s| =>
      if value(s[i]).Some? && value(s[i]).value < 10 then Digit(value(s[i]).value) else s[i])
  }

  function ParseGrantAmount(s: string, value: char -> Option<nat>): Option<int> {
    if !MatchesPattern(s, value) then None else ParseAscii(ToAscii(s, value))
  }

  function ParseAscii(s: string): Option<int> {
    if !MatchesAmount(s) then None
    else if DecimalOf(s) <= 0.0 then None
    else Some(HalfEven(DecimalOf(s) * QUANTA_PER_CREDIT as real))
  }

  lemma {:induction false} PointStays(s: string, value: char -> Option<nat>)
    requires UnicodeDigits(value)
    ensures IndexOf(ToAscii(s, value), '.') == IndexOf(s, '.')
  {
    if s != "" && s[0] != '.' {
      PointStays(s[1..], value);
      assert ToAscii(s, value)[1..] == ToAscii(s[1..], value);
    }
  }

  /** What the pattern accepts is, once translated, what its ASCII form accepts. */
  lemma PatternTranslates(s: string, value: char -> Option<nat>)
    requires UnicodeDigits(value) && MatchesPattern(s, value)
    ensures MatchesAmount(ToAscii(s, value))
  {
    var t, dot := ToAscii(s, value), IndexOf(s, '.');
    PointStays(s, value);
    assert s[..dot] == "0" ==> s[0] == '0' && dot == 1;
    LeadingDigitStays(s[0], value);
    forall i | 0 <= i < |t| && i != dot ensures IsDigit(t[i]) {
      assert 0 < i < dot ==> s[i] == s[1..dot][i - 1];
      assert i > dot ==> s[i] == s[dot + 1..][i - dot - 1];
    }
    if s[..dot] == "0" {
      assert t[..dot] == "0";
    }
  }

  lemma LeadingDigitStays(c: char, value: char -> Option<nat>)
    requires UnicodeDigits(value) && IsDigit(c)
    ensures ToAscii([c], value) == [c] && value(c) == Some(c as int - '0' as int)
  {
    assert Digit(c as int - '0' as int) == c;
  }

  /** The text in whole quanta, with no division. */
  function QuantaOf(s: string): nat
    requires MatchesAmount(s)
  {
    Number(s[..IndexOf(s, '.')]) * QUANTA_PER_CREDIT + Number(Places(s)) * Pow10(MAX_PLACES - |Places(s)|)
  }

  lemma PlacesScale(k: nat)
    requires k <= MAX_PLACES
    ensures Pow10(k) * Pow10(MAX_PLACES - k) == QUANTA_PER_CREDIT
  {
    assert Pow10(1) == 10 && Pow10(2) == 100 && Pow10(3) == 1000;
    assert Pow10(4) == 10000 && Pow10(5) == 100000 && Pow10(6) == 1000000;
  }

  lemma ScaledSum(whole: int, part: int, p: int, q: int, r: int)
    requires p > 0 && p * q == r
    ensures (whole as real + part as real / p as real) * r as real == (whole * r + part * q) as real
  {
    var x, y, z := part as real, p as real, q as real;
    RealProduct(p, q);
    RealProduct(part, q);
    RealProduct(whole, r);
    calc {
      x / y * r as real;
      x / y * (y * z);
      (x / y * y) * z;
      { assert x / y * y == x; }
      x * z;
    }
  }

  lemma RealProduct(a: int, b: int)
    ensures (a * b) as real == a as real * b as real
  {}

  lemma DecimalIsWholeQuanta(s: string)
    requires MatchesAmount(s)
    ensures DecimalOf(s) * QUANTA_PER_CREDIT as real == QuantaOf(s) as real
    ensures QuantaOf(s) < COLUMN_LIMIT
  {
    var whole, part := s[..IndexOf(s, '.')], Places(s);
    var p, q := Pow10(|part|), Pow10(MAX_PLACES - |part|);
    PlacesScale(|part|);
    ScaledSum(Number(whole), Number(part), p, q, QUANTA_PER_CREDIT);
    QuantaAreBelowLimit(s);
  }

  lemma QuantaAreBelowLimit(s: string)
    requires MatchesAmount(s)
    ensures QuantaOf(s) < COLUMN_LIMIT
  {
    var whole, part := s[..IndexOf(s, '.')], Places(s);
    PlacesScale(|part|);
    NumberIsBounded(whole);
    NumberIsBounded(part);
    Pow10Monotone(|whole|, MAX_WHOLE_DIGITS);
    WholeLimit();
    BelowOneCredit(Number(part), Pow10(|part|), Pow10(MAX_PLACES - |part|));
  }

  lemma WholeLimit()
    ensures Pow10(MAX_WHOLE_DIGITS) == 100_000_000_000_000
  {
    assert Pow10(7) == 10_000_000;
  }

  lemma BelowOneCredit(part: nat, p: nat, q: nat)
    requires part < p && q > 0 && p * q == QUANTA_PER_CREDIT
    ensures part * q < QUANTA_PER_CREDIT
  {
    assert (p - part) * q > 0;
  }

  lemma {:induction false} Pow10Monotone(j: nat, k: nat)
    requires j <= k
    ensures Pow10(j) <= Pow10(k)
    decreases k
  {
    if j < k {
      Pow10Monotone(j, k - 1);
    }
  }

  // ---------------------------------------------------------------- main results

  /**
   * Every text the pattern accepts is a decimal; unless it is zero it is parsed without rounding, to a value
   * that the ledger's normaliser returns unchanged.
   */
  lemma AcceptedAmountIsExact(text: string, value: char -> Option<nat>)
    requires UnicodeDigits(value) && MatchesPattern(text, value)
    ensures var s := ToAscii(text, value);
            && MatchesAmount(s) && (ParseGrantAmount(text, value).Some? <==> DecimalOf(s) > 0.0)
    ensures var s := ToAscii(text, value);
            ParseGrantAmount(text, value).Some? ==> ExactFor(s, ParseGrantAmount(text, value).value)
  {
    PatternTranslates(text, value);
    AcceptedAsciiIsExact(ToAscii(text, value));
  }

  /** `q` quanta are the decimal the text denotes, and what the ledger's normaliser makes of either. */
  predicate ExactFor(s: string, q: int) {
    && MatchesAmount(s)
    && q as real == DecimalOf(s) * QUANTA_PER_CREDIT as real
    && 0 < q < COLUMN_LIMIT
    && NormalizeAmount(Finite(DecimalOf(s))) == Ok(q)
    && NormalizeAmount(Finite(q as real / QUANTA_PER_CREDIT as real)) == Ok(q)
  }

  lemma AcceptedAsciiIsExact(s: string)
    requires MatchesAmount(s)
    ensures ParseAscii(s).Some? ==> ExactFor(s, ParseAscii(s).value)
  {
    DecimalIsWholeQuanta(s);
    var q := QuantaOf(s);
    HalfUpOfInteger(q);
    HalfEvenOfInteger(q);
    assert q as real / QUANTA_PER_CREDIT as real * QUANTA_PER_CREDIT as real == q as real;
  }

  lemma PrintedAmountMatches(v: int)
    requires 0 < v < COLUMN_LIMIT
    ensures MatchesAmount(Fixed(v, MAX_PLACES)) && QuantaOf(Fixed(v, MAX_PLACES)) == v
  {
    var s := Fixed(v, MAX_PLACES);
    var whole, part := Whole(v, MAX_PLACES), Padded(v, MAX_PLACES);
    FixedSplits(v, MAX_PLACES);
    NumberOfPadded(v, MAX_PLACES);
    AmountScale();
    WholePartMatches(whole);
    assert s[..IndexOf(s, '.')] == Digits(whole) && s[IndexOf(s, '.') + 1..] == part;
    NumberOfDigits(whole);
    assert Places(s) == part;
  }

  lemma AmountScale()
    ensures Pow10(MAX_PLACES) == QUANTA_PER_CREDIT && Pow10(0) == 1
  {
    PlacesScale(MAX_PLACES);
  }

  lemma WholePartMatches(whole: nat)
    requires whole < 100_000_000_000_000
    ensures IsWholePart(Digits(whole))
  {
    WholeLimit();
    LengthOfDigits(whole, MAX_WHOLE_DIGITS);
    NumberOfDigits(whole);
  }

  /** Printing a ledger amount with six places and parsing the text gives the amount back. */
  lemma PrintThenParse(v: int, value: char -> Option<nat>)
    requires 0 < v < COLUMN_LIMIT && UnicodeDigits(value)
    ensures ParseGrantAmount(Fixed(v, MAX_PLACES), value) == Some(v)
  {
    var s := Fixed(v, MAX_PLACES);
    PrintedAmountMatches(v);
    AsciiStays(s, value);
    DecimalIsWholeQuanta(s);
    PositiveQuanta(DecimalOf(s), v);
    HalfEvenOfInteger(v);
  }

  /** A text in ASCII digits is its own translation, and the pattern takes it if its ASCII form does. */
  lemma AsciiStays(s: string, value: char -> Option<nat>)
    requires UnicodeDigits(value) && MatchesAmount(s)
    ensures ToAscii(s, value) == s && MatchesPattern(s, value)
  {
    var dot := IndexOf(s, '.');
    forall i | 0 <= i < |s| ensures ToAscii(s, value)[i] == s[i] && (i != dot ==> value(s[i]).Some?) {
      if i != dot {
        assert IsDigit(s[i]) by {
          assert i < dot ==> s[i] == s[..dot][i];
          assert i > dot ==> s[i] == s[dot + 1..][i - dot - 1];
        }
        LeadingDigitStays(s[i], value);
      }
    }
  }

  lemma PositiveQuanta(value: real, quanta: int)
    requires value * QUANTA_PER_CREDIT as real == quanta as real && quanta > 0
    ensures value > 0.0
  {}

  /** What the pattern accepts: a whole part, alone or with a point and up to six further digits. */
  lemma PatternIff(s: string, value: char -> Option<nat>)
    requires UnicodeDigits(value)
    ensures MatchesPattern(s, value) <==> exists whole, places :: IsSplit(s, value, whole, places)
  {
    if MatchesPattern(s, value) {
      var dot := IndexOf(s, '.');
      assert IsSplit(s, value, s[..dot], if dot < |s| then s[dot + 1..] else "") by {
        assert s[..dot] != "0" ==> s[..dot][1..] == s[1..dot];
        assert dot < |s| ==> s == s[..dot] + "." + s[dot + 1..];
      }
    }
    forall whole, places | IsSplit(s, value, whole, places) ensures MatchesPattern(s, value) {
      NoPointInside(whole, value);
      if places == "" {
        PointAtEnd(s);
      } else {
        IndexOfAfter(whole, '.', places);
        assert s == whole + ['.'] + places;
      }
      var dot := IndexOf(s, '.');
      assert s[..dot] == whole;
      assert whole != "0" ==> s[1..dot] == whole[1..];
      assert places != "" ==> s[dot + 1..] == places;
    }
  }

  ghost predicate IsSplit(s: string, value: char -> Option<nat>, whole: string, places: string) {
    && s == (if places == "" then whole else whole + "." + places)
    && (whole == "0" || (1 <= |whole| <= 14 && '1' <= whole[0] <= '9' && AllValued(whole[1..], value)))
    && |places| <= 6 && AllValued(places, value)
  }

  lemma NoPointInside(whole: string, value: char -> Option<nat>)
    requires UnicodeDigits(value)
    requires whole == "0" || (|whole| >= 1 && '1' <= whole[0] <= '9' && AllValued(whole[1..], value))
    ensures forall i :: 0 <= i < |whole| ==> whole[i] != '.'
  {
    forall i | 0 <= i < |whole| ensures whole[i] != '.' {
      assert i > 0 ==> whole[1..][i - 1] == whole[i];
    }
  }

  lemma PointAtEnd(s: string)
    requires forall i :: 0 <= i < |s| ==> s[i] != '.'
    ensures IndexOf(s, '.') == |s|
  {}

  /** Translation puts an ASCII digit of the same value for each digit, and leaves the rest. */
  lemma TranslationKeepsValues(s: string, value: char -> Option<nat>, i: nat)
    requires UnicodeDigits(value) && i < |s|
    ensures var c := ToAscii(s, value)[i];
            if value(s[i]).Some? then '0' <= c <= '9' && c as int == '0' as int + value(s[i]).value else c == s[i]
  {}

  lemma WrittenWithPoint(t: string, whole: string, places: string)
    requires t == whole + "." + places && IsWholePart(whole) && AllDigits(whole)
    requires 1 <= |places| <= MAX_PLACES && AllDigits(places)
    ensures MatchesAmount(t) && DecimalOf(t) == Number(whole) as real + Fraction(places)
  {
    forall j | 0 <= j < |whole| ensures whole[j] != '.' { assert IsDigit(whole[j]); }
    IndexOfAfter(whole, '.', places);
    assert t == whole + ['.'] + places;
    assert t[..|whole|] == whole && t[|whole| + 1..] == places;
  }

  lemma NumberTimesTen(digits: string)
    requires AllDigits(digits)
    ensures AllDigits(digits + "0") && Number(digits + "0") == 10 * Number(digits)
  {
    assert (digits + "0")[..|digits|] == digits;
  }

  /** The text with one zero more after its point. */
  function WithZero(s: string): string {
    if IndexOf(s, '.') < |s| then s + "0" else s + ".0"
  }

  lemma WithZeroSplits(s: string)
    requires MatchesAmount(s)
    ensures WithZero(s) == s[..IndexOf(s, '.')] + "." + (Places(s) + "0")
  {
    var dot := IndexOf(s, '.');
    if dot < |s| {
      assert s == s[..dot] + "." + s[dot + 1..];
    } else {
      assert s[..dot] == s;
    }
  }

  /** A zero at the end of the places, or ".0" after a whole number, changes nothing. */
  lemma TrailingZeroIsNothing(s: string)
    requires MatchesAmount(s) && |Places(s)| < MAX_PLACES
    ensures MatchesAmount(WithZero(s)) && DecimalOf(WithZero(s)) == DecimalOf(s)
  {
    WithZeroSplits(s);
    SameFraction(Places(s));
    WrittenWithPoint(WithZero(s), s[..IndexOf(s, '.')], Places(s) + "0");
  }

  /** The part of a whole number that the digits after a point denote. */
  function Fraction(digits: string): real
    requires AllDigits(digits)
  {
    Number(digits) as real / Pow10(|digits|) as real
  }

  lemma SameFraction(digits: string)
    requires AllDigits(digits)
    ensures AllDigits(digits + "0") && Fraction(digits + "0") == Fraction(digits)
  {
    NumberTimesTen(digits);
    TenFold(Number(digits), Pow10(|digits|));
  }

  lemma TenFold(n: nat, p: nat)
    requires p > 0
    ensures (10 * n) as real / (10 * p) as real == n as real / p as real
  {
    var x, y := n as real, p as real;
    RealProduct(10, n);
    RealProduct(10, p);
    assert 10.0 * x / (10.0 * y) == x / y;
  }
}
