/** The text that is hashed to identify the inputs of a quote. */
module PricingHash {
  import opened Wrappers
  import opened DecimalText
  import opened Pricing

  /** `format(money_round(value), "f")`. */
  function FormatCents(cents: int): string {
    if cents < 0 then "-" + Fixed(-cents, 2) else Fixed(cents, 2)
  }

  function OrEmpty(s: Option<string>): string { if s.Some? then s.value else "" }

  /** `iso` is the text of the timestamp. */
  function Fields(f: Fingerprint, iso: string): seq<string> {
    [
      "v1",
      if f.flagEnabled then "1" else "0",
      OrEmpty(f.accountId),
      if f.profile.Some? then f.profile.value.0 else "",
      if f.profile.Some? then Digits(f.profile.value.1) else "",
      FormatCents(f.listCents),
      if f.netCents.Some? then FormatCents(f.netCents.value) else "",
      f.orderType,
      iso
    ]
  }

  function Join(fields: seq<string>): string {
    if fields == [] then ""
    else if |fields| == 1 then fields[0]
    else fields[0] + "|" + Join(fields[1..])
  }

  function Payload(f: Fingerprint, iso: string): string { Join(Fields(f, iso)) }

  predicate NoBar(s: string) { forall i :: 0 <= i < |s| ==> s[i] != '|' }

  lemma {:induction false} JoinInjective(a: seq<string>, b: seq<string>)
    requires |a| == |b| && Join(a) == Join(b)
    requires forall i :: 0 <= i < |a| ==> NoBar(a[i]) && NoBar(b[i])
    ensures a == b
  {
    if |a| >= 2 {
      IndexOfAfter(a[0], '|', Join(a[1..]));
      IndexOfAfter(b[0], '|', Join(b[1..]));
      assert Join(a) == a[0] + ['|'] + Join(a[1..]) && Join(b) == b[0] + ['|'] + Join(b[1..]);
      var n := |a[0]|;
      assert Join(a)[..n] == a[0] && Join(b)[..n] == b[0];
      assert Join(a)[n + 1..] == Join(a[1..]) && Join(b)[n + 1..] == Join(b[1..]);
      JoinInjective(a[1..], b[1..]);
      assert a == [a[0]] + a[1..] && b == [b[0]] + b[1..];
    }
  }

  /** What the pricing service guarantees of the parts: ids are non-empty, and no part contains the separator. */
  predicate CleanParts(f: Fingerprint, iso: string) {
    && (f.accountId.Some? ==> f.accountId.value != "" && NoBar(f.accountId.value))
    && (f.profile.Some? ==> f.profile.value.0 != "" && NoBar(f.profile.value.0))
    && f.listCents >= 0
    && (f.netCents.Some? ==> f.netCents.value >= 0)
    && NoBar(f.orderType) && NoBar(iso)
  }

  lemma FormatCentsHasNoBar(cents: nat)
    ensures NoBar(FormatCents(cents)) && FormatCents(cents) != ""
  {
    var whole, part := Digits(Whole(cents, 2)), Padded(cents, 2);
    NumberOfDigits(Whole(cents, 2));
    NumberOfPadded(cents, 2);
    DigitsHaveNoBar(whole, part);
  }

  lemma DigitsHaveNoBar(whole: string, part: string)
    requires AllDigits(whole) && AllDigits(part)
    ensures NoBar(whole + "." + part)
  {
    forall i | 0 <= i < |whole| ensures whole[i] != '|' { assert IsDigit(whole[i]); }
    forall i | 0 <= i < |part| ensures part[i] != '|' { assert IsDigit(part[i]); }
  }

  lemma FieldsHaveNoBar(f: Fingerprint, iso: string)
    requires CleanParts(f, iso)
    ensures forall i :: 0 <= i < |Fields(f, iso)| ==> NoBar(Fields(f, iso)[i])
  {
    FormatCentsHasNoBar(f.listCents);
    if f.netCents.Some? { FormatCentsHasNoBar(f.netCents.value); }
    if f.profile.Some? { NumberOfDigits(f.profile.value.1); }
  }

  /**
   * Equal payloads come from equal inputs: flag, account, profile id and version, list and net price in
   * cents (no net price is not a zero one), order type and timestamp text.
   */
  lemma PayloadIsInjective(f: Fingerprint, g: Fingerprint, isoF: string, isoG: string)
    requires CleanParts(f, isoF) && CleanParts(g, isoG)
    requires Payload(f, isoF) == Payload(g, isoG)
    ensures f == g.(timestamp := f.timestamp) && isoF == isoG
  {
    var a, b := Fields(f, isoF), Fields(g, isoG);
    FieldsHaveNoBar(f, isoF);
    FieldsHaveNoBar(g, isoG);
    JoinInjective(a, b);
    assert a[1] == b[1] && a[2] == b[2] && a[3] == b[3] && a[4] == b[4] && a[5] == b[5] && a[6] == b[6];
    assert a[7] == b[7] && a[8] == b[8];
    FixedInjective(f.listCents, g.listCents, 2);
    if f.netCents.Some? { FormatCentsHasNoBar(f.netCents.value); }
    if g.netCents.Some? { FormatCentsHasNoBar(g.netCents.value); }
    if f.netCents.Some? && g.netCents.Some? { FixedInjective(f.netCents.value, g.netCents.value, 2); }
    if f.profile.Some? && g.profile.Some? { DigitsInjective(f.profile.value.1, g.profile.value.1); }
  }

  lemma JoinFrom(fields: seq<string>, k: nat)
    requires k < |fields|
    ensures Join(fields[k..]) == if k == |fields| - 1 then fields[k] else fields[k] + "|" + Join(fields[k + 1..])
  {
    assert fields[k..][1..] == fields[k + 1..];
  }

  /** The text, part by part: version mark, flag, account, profile with its version, prices, order type, instant. */
  lemma PayloadText(f: Fingerprint, iso: string)
    ensures var account := if f.accountId.Some? then f.accountId.value else "";
            var profile := if f.profile.Some? then f.profile.value.0 else "";
            var version := if f.profile.Some? then Digits(f.profile.value.1) else "";
            var net := if f.netCents.Some? then FormatCents(f.netCents.value) else "";
            Payload(f, iso) ==
              "v1" + "|" + ((if f.flagEnabled then "1" else "0") + "|" + (account + "|" + (profile + "|" + (version + "|" + (
              FormatCents(f.listCents) + "|" + (net + "|" + (f.orderType + "|" + iso)))))))
  {
    var a := Fields(f, iso);
    assert a[0..] == a;
    JoinFrom(a, 0); JoinFrom(a, 1); JoinFrom(a, 2); JoinFrom(a, 3); JoinFrom(a, 4);
    JoinFrom(a, 5); JoinFrom(a, 6); JoinFrom(a, 7); JoinFrom(a, 8);
  }

  lemma MinusSign(cents: int)
    requires cents < 0
    ensures FormatCents(cents) == "-" + FormatCents(-cents)
  {}

  /** A price is written in plain digits with two places. */
  lemma FormatCentsReads(cents: nat)
    ensures var s := FormatCents(cents);
            var dot := IndexOf(s, '.');
            && dot < |s| && |s[dot + 1..]| == 2 && AllDigits(s[..dot]) && AllDigits(s[dot + 1..])
            && (s[0] == '0' ==> s[..dot] == "0")
            && Number(s[..dot]) * 100 + Number(s[dot + 1..]) == cents
  {
    FixedSplits(cents, 2);
    NumberOfDigits(Whole(cents, 2));
    NumberOfPadded(cents, 2);
    assert Pow10(1) == 10 && Pow10(2) == 100;
  }
}
