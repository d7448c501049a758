/** The product price calculator: list price to customer price under an account's pricing profile. */
module Pricing {
  import opened Wrappers
  import opened Decimals

  const SNAPSHOT_SCHEMA_VERSION := 1

  datatype FloorPolicy = NoFloor | Wholesale

  /** Percentages and prices are decimals; instants are integers. */
  datatype Profile = Profile(
    id: string, slug: string, name: string, version: nat, discountPercent: real, floorPolicy: FloorPolicy,
    isActive: bool, archivedAt: Option<int>, effectiveFrom: Option<int>, effectiveUntil: Option<int>)

  datatype Account = Account(id: string, profile: Option<Profile>)

  datatype Context = Context(
    listPrice: real, netPrice: Option<real>, orderType: string, timestamp: int, account: Option<Account>,
    profile: Option<Profile>)

  datatype PricingReason = Retail | PricingProfile | InvalidMargin
  datatype FloorReason = NoReason | Discount

  /** Money and percentages of a quote are on the 0.01 grid and counted in hundredths. */
  datatype Quote = Quote(
    listPrice: int, customerPrice: int, discountPercent: int, pricingReason: PricingReason, floorReason: FloorReason,
    profileId: Option<string>, profileVersion: Option<nat>, fingerprint: Fingerprint,
    profileSlug: Option<string>, profileName: Option<string>, schemaVersion: nat)

  /** The fields that go into the context hash, with the resolved profile and the rounded list price. */
  datatype Fingerprint = Fingerprint(
    flagEnabled: bool, accountId: Option<string>, profile: Option<(string, nat)>, listCents: int,
    netCents: Option<int>, orderType: string, timestamp: int)

  /** Round to 2 places, half up, counted in hundredths. */
  function MoneyRound(amount: real): int { HalfUp(amount * 100.0) }

  function Money(hundredths: int): real { hundredths as real / 100.0 }

  lemma MoneyRoundMonotone(a: real, b: real)
    requires a <= b
    ensures MoneyRound(a) <= MoneyRound(b)
  {
    HalfUpMonotone(a * 100.0, b * 100.0);
  }

  lemma MoneyRoundOnGrid(hundredths: int)
    ensures MoneyRound(Money(hundredths)) == hundredths
  {
    assert Money(hundredths) * 100.0 == hundredths as real;
    HalfUpOfInteger(hundredths);
  }

  predicate ProfileIsEffective(p: Profile, at: int) {
    && p.archivedAt.None?
    && p.isActive
    && !(p.effectiveFrom.Some? && at < p.effectiveFrom.value)
    && !(p.effectiveUntil.Some? && at >= p.effectiveUntil.value)
  }

  /** Percent off list, for profiles without a floor. */
  function LegacyPercentOffList(listPrice: int, discount: int): int {
    MoneyRound(Money(listPrice) * (100.0 - Money(discount)) / 100.0)
  }

  /** Net plus the customer's share of the margin; rounded once. */
  function MarginShareCustomer(listPrice: int, netPrice: int, discount: int): int {
    var margin := if Money(listPrice) - Money(netPrice) > 0.0 then Money(listPrice) - Money(netPrice) else 0.0;
    MoneyRound(Money(netPrice) + margin * (100.0 - Money(discount)) / 100.0)
  }

  function RetailQuote(listPrice: int, mark: Fingerprint, reason: PricingReason): Quote {
    Quote(listPrice, listPrice, 0, reason, NoReason, None, None, mark, None, None, SNAPSHOT_SCHEMA_VERSION)
  }

  function ProfileQuote(listPrice: int, customerPrice: int, discount: int, floor: FloorReason, p: Profile,
                        mark: Fingerprint): Quote {
    Quote(listPrice, customerPrice, discount, PricingProfile, floor, Some(p.id), Some(p.version), mark,
          Some(p.slug), Some(p.name), SNAPSHOT_SCHEMA_VERSION)
  }

  function ResolvedProfile(ctx: Context): Option<Profile> {
    if ctx.profile.None? && ctx.account.Some? then ctx.account.value.profile else ctx.profile
  }

  function PrintOf(ctx: Context, flagEnabled: bool): Fingerprint {
    Fingerprint(
      flagEnabled,
      if ctx.account.Some? then Some(ctx.account.value.id) else None,
      if ResolvedProfile(ctx).Some? then Some((ResolvedProfile(ctx).value.id, ResolvedProfile(ctx).value.version)) else None,
      MoneyRound(ctx.listPrice),
      if ctx.netPrice.Some? then Some(MoneyRound(ctx.netPrice.value)) else None,
      ctx.orderType, ctx.timestamp)
  }

  function Resolve(ctx: Context, flagEnabled: bool): Quote {
    var listPrice := MoneyRound(ctx.listPrice);
    var profile := ResolvedProfile(ctx);
    var mark := PrintOf(ctx, flagEnabled);
    if !flagEnabled then RetailQuote(listPrice, mark, Retail)
    else if profile.None? || !ProfileIsEffective(profile.value, ctx.timestamp) then RetailQuote(listPrice, mark, Retail)
    else
      var p := profile.value;
      var discount := MoneyRound(p.discountPercent);
      if discount <= 0 then ProfileQuote(listPrice, listPrice, 0, NoReason, p, mark)
      else if p.floorPolicy == NoFloor then
        ProfileQuote(listPrice, LegacyPercentOffList(listPrice, discount), discount, Discount, p, mark)
      else if ctx.netPrice.None? then RetailQuote(listPrice, mark, Retail)
      else
        var netPrice := MoneyRound(ctx.netPrice.value);
        if listPrice < netPrice then RetailQuote(listPrice, mark, InvalidMargin)
        else ProfileQuote(listPrice, MarginShareCustomer(listPrice, netPrice, discount), discount, Discount, p, mark)
  }

  // ---------------------------------------------------------------- bounds and monotonicity

  /** What the customer pays, as a function of the rounded inputs; `resolve` agrees with it everywhere. */
  function Price(listPrice: int, netPrice: Option<int>, policy: FloorPolicy, discount: int): int {
    if discount <= 0 then listPrice
    else if policy == NoFloor then LegacyPercentOffList(listPrice, discount)
    else if netPrice.None? || listPrice < netPrice.value then listPrice
    else MarginShareCustomer(listPrice, netPrice.value, discount)
  }

  predicate UsesProfile(ctx: Context, flagEnabled: bool) {
    flagEnabled && ResolvedProfile(ctx).Some? && ProfileIsEffective(ResolvedProfile(ctx).value, ctx.timestamp)
  }

  lemma ResolveCharges(ctx: Context, flagEnabled: bool)
    ensures Resolve(ctx, flagEnabled).customerPrice ==
      if !UsesProfile(ctx, flagEnabled) then MoneyRound(ctx.listPrice)
      else
        var p := ResolvedProfile(ctx).value;
        Price(MoneyRound(ctx.listPrice), if ctx.netPrice.Some? then Some(MoneyRound(ctx.netPrice.value)) else None,
              p.floorPolicy, MoneyRound(p.discountPercent))
  {}

  /** The unrounded price, as list and net weighted by the discount. */
  function Raw(listPrice: int, netPrice: int, discount: int): real {
    Money(netPrice) * Money(discount) / 100.0 + Money(listPrice) * (100.0 - Money(discount)) / 100.0
  }

  lemma WeightedForms(listPrice: int, netPrice: int, discount: int)
    requires netPrice <= listPrice
    ensures MarginShareCustomer(listPrice, netPrice, discount) == MoneyRound(Raw(listPrice, netPrice, discount))
    ensures LegacyPercentOffList(listPrice, discount) == MoneyRound(Raw(listPrice, 0, discount))
  {
    var l, n, d := Money(listPrice), Money(netPrice), Money(discount);
    assert n + (l - n) * (100.0 - d) / 100.0 == n * d / 100.0 + l * (100.0 - d) / 100.0;
  }

  lemma RawMonotone(listA: int, listB: int, netA: int, netB: int, discount: int)
    requires listA <= listB && netA <= netB && 0 <= discount <= 10000
    ensures Raw(listA, netA, discount) <= Raw(listB, netB, discount)
  {
    var d := Money(discount);
    assert Money(listA) * (100.0 - d) <= Money(listB) * (100.0 - d);
    assert Money(netA) * d <= Money(netB) * d;
  }

  lemma ScaleMonotone(x: real, a: real, b: real)
    requires 0.0 <= x && a <= b
    ensures x * a <= x * b
  {}

  lemma RawFallsWithDiscount(listPrice: int, netPrice: int, low: int, high: int)
    requires netPrice <= listPrice && low <= high
    ensures Raw(listPrice, netPrice, high) <= Raw(listPrice, netPrice, low)
  {
    var l, n := Money(listPrice), Money(netPrice);
    ScaleMonotone(l - n, Money(low), Money(high));
    assert Raw(listPrice, netPrice, low) == l - (l - n) * Money(low) / 100.0;
    assert Raw(listPrice, netPrice, high) == l - (l - n) * Money(high) / 100.0;
  }

  lemma RawAtEqualPrices(price: int, discount: int)
    ensures Raw(price, price, discount) == Money(price)
  {
    var p, d := Money(price), Money(discount);
    assert p * d + p * (100.0 - d) == p * 100.0;
  }

  /**
   * Never above list; never negative; and with a net price under the wholesale policy, never below the
   * lower of list and net.
   */
  lemma PriceIsBounded(listPrice: int, netPrice: Option<int>, policy: FloorPolicy, discount: int)
    requires 0 <= listPrice && (netPrice.Some? ==> 0 <= netPrice.value) && 0 <= discount <= 10000
    ensures 0 <= Price(listPrice, netPrice, policy, discount) <= listPrice
    ensures policy == Wholesale && netPrice.Some? ==>
              Price(listPrice, netPrice, policy, discount) >= if listPrice < netPrice.value then listPrice else netPrice.value
  {
    if discount > 0 && (policy == NoFloor || (netPrice.Some? && netPrice.value <= listPrice)) {
      var net := if policy == NoFloor then 0 else netPrice.value;
      WeightedForms(listPrice, net, discount);
      RawMonotone(net, listPrice, net, net, discount);
      RawMonotone(listPrice, listPrice, net, listPrice, discount);
      RawAtEqualPrices(net, discount);
      RawAtEqualPrices(listPrice, discount);
      MoneyRoundMonotone(Money(net), Raw(listPrice, net, discount));
      MoneyRoundMonotone(Raw(listPrice, net, discount), Money(listPrice));
      MoneyRoundOnGrid(net);
      MoneyRoundOnGrid(listPrice);
    }
  }

  /** A deeper discount never costs more. */
  lemma PriceFallsWithDiscount(listPrice: int, netPrice: Option<int>, policy: FloorPolicy, low: int, high: int)
    requires 0 <= listPrice && (netPrice.Some? ==> 0 <= netPrice.value) && 0 <= low <= high <= 10000
    ensures Price(listPrice, netPrice, policy, high) <= Price(listPrice, netPrice, policy, low)
  {
    if low <= 0 {
      PriceIsBounded(listPrice, netPrice, policy, high);
    } else if policy == NoFloor || (netPrice.Some? && netPrice.value <= listPrice) {
      var net := if policy == NoFloor then 0 else netPrice.value;
      WeightedForms(listPrice, net, low);
      WeightedForms(listPrice, net, high);
      RawFallsWithDiscount(listPrice, net, low, high);
      MoneyRoundMonotone(Raw(listPrice, net, high), Raw(listPrice, net, low));
    }
  }

  /** A higher list price never costs less, across the step where the margin stops being negative. */
  lemma PriceRisesWithList(low: int, high: int, netPrice: Option<int>, policy: FloorPolicy, discount: int)
    requires 0 <= low <= high && (netPrice.Some? ==> 0 <= netPrice.value) && 0 <= discount <= 10000
    ensures Price(low, netPrice, policy, discount) <= Price(high, netPrice, policy, discount)
  {
    if discount > 0 && (policy == NoFloor || netPrice.Some?) {
      var net := if policy == NoFloor then 0 else netPrice.value;
      if low < net {
        PriceIsBounded(high, netPrice, policy, discount);
      } else {
        WeightedForms(low, net, discount);
        WeightedForms(high, net, discount);
        RawMonotone(low, high, net, net, discount);
        MoneyRoundMonotone(Raw(low, net, discount), Raw(high, net, discount));
      }
    }
  }

  /** A higher net price never costs less, and a missing one costs the most. */
  lemma PriceRisesWithNet(listPrice: int, low: int, high: Option<int>, policy: FloorPolicy, discount: int)
    requires 0 <= listPrice && 0 <= low && (high.Some? ==> low <= high.value) && 0 <= discount <= 10000
    ensures Price(listPrice, Some(low), policy, discount) <= Price(listPrice, high, policy, discount)
  {
    if discount > 0 && policy == Wholesale && low <= listPrice {
      if high.None? || listPrice < high.value {
        PriceIsBounded(listPrice, Some(low), policy, discount);
      } else {
        WeightedForms(listPrice, low, discount);
        WeightedForms(listPrice, high.value, discount);
        RawMonotone(listPrice, listPrice, low, high.value, discount);
        MoneyRoundMonotone(Raw(listPrice, low, discount), Raw(listPrice, high.value, discount));
      }
    }
  }

  /** The wholesale price is never below percent off list at the same discount. */
  lemma PriceRisesWithFloor(listPrice: int, netPrice: Option<int>, discount: int)
    requires 0 <= listPrice && (netPrice.Some? ==> 0 <= netPrice.value) && 0 <= discount <= 10000
    ensures Price(listPrice, netPrice, NoFloor, discount) <= Price(listPrice, netPrice, Wholesale, discount)
  {
    if discount > 0 {
      PriceIsBounded(listPrice, netPrice, NoFloor, discount);
      if netPrice.Some? && netPrice.value <= listPrice {
        WeightedForms(listPrice, netPrice.value, discount);
        RawMonotone(listPrice, listPrice, 0, netPrice.value, discount);
        MoneyRoundMonotone(Raw(listPrice, 0, discount), Raw(listPrice, netPrice.value, discount));
      }
    }
  }

  ghost predicate Sensible(ctx: Context) {
    && 0.0 <= ctx.listPrice
    && (ctx.netPrice.Some? ==> 0.0 <= ctx.netPrice.value)
    && (ResolvedProfile(ctx).Some? ==> 0.0 <= ResolvedProfile(ctx).value.discountPercent <= 100.0)
  }

  lemma SensibleRounds(ctx: Context)
    requires Sensible(ctx)
    ensures 0 <= MoneyRound(ctx.listPrice)
    ensures ctx.netPrice.Some? ==> 0 <= MoneyRound(ctx.netPrice.value)
    ensures ResolvedProfile(ctx).Some? ==> 0 <= MoneyRound(ResolvedProfile(ctx).value.discountPercent) <= 10000
  {
    if ResolvedProfile(ctx).Some? {
      MoneyRoundMonotone(ResolvedProfile(ctx).value.discountPercent, Money(10000));
      MoneyRoundOnGrid(10000);
    }
  }

  /** Over every branch of `resolve`: between zero and the rounded list price, and not under a valid wholesale floor. */
  lemma ResolveIsBounded(ctx: Context, flagEnabled: bool)
    requires Sensible(ctx)
    ensures var q := Resolve(ctx, flagEnabled);
            && 0 <= q.customerPrice <= q.listPrice == MoneyRound(ctx.listPrice)
            && (UsesProfile(ctx, flagEnabled) && ResolvedProfile(ctx).value.floorPolicy == Wholesale && ctx.netPrice.Some? ==>
                  q.customerPrice >= q.listPrice || q.customerPrice >= MoneyRound(ctx.netPrice.value))
  {
    SensibleRounds(ctx);
    ResolveCharges(ctx, flagEnabled);
    if UsesProfile(ctx, flagEnabled) {
      var p := ResolvedProfile(ctx).value;
      PriceIsBounded(MoneyRound(ctx.listPrice),
                     if ctx.netPrice.Some? then Some(MoneyRound(ctx.netPrice.value)) else None,
                     p.floorPolicy, MoneyRound(p.discountPercent));
    }
  }

  /** `ctx` under the same profile with another floor policy. */
  function WithFloor(ctx: Context, policy: FloorPolicy): Context {
    if ResolvedProfile(ctx).Some? then ctx.(profile := Some(ResolvedProfile(ctx).value.(floorPolicy := policy))) else ctx
  }

  /** Whatever the context, the wholesale policy never charges less than percent off list. */
  lemma WholesaleAtLeastPercentOff(ctx: Context, flagEnabled: bool)
    requires Sensible(ctx)
    ensures Resolve(WithFloor(ctx, NoFloor), flagEnabled).customerPrice <= Resolve(WithFloor(ctx, Wholesale), flagEnabled).customerPrice
  {
    SensibleRounds(ctx);
    ResolveCharges(WithFloor(ctx, NoFloor), flagEnabled);
    ResolveCharges(WithFloor(ctx, Wholesale), flagEnabled);
    if ResolvedProfile(ctx).Some? {
      PriceRisesWithFloor(MoneyRound(ctx.listPrice),
                          if ctx.netPrice.Some? then Some(MoneyRound(ctx.netPrice.value)) else None,
                          MoneyRound(ResolvedProfile(ctx).value.discountPercent));
    }
  }

  /**
   * Same context up to prices and discount: raising list or net (a
   * missing net counts as the highest), or lowering the discount, never lowers the price.
   */
  lemma ResolveIsMonotone(a: Context, b: Context, flagEnabled: bool)
    requires Sensible(a) && Sensible(b)
    requires a.timestamp == b.timestamp
    requires a.listPrice <= b.listPrice
    requires b.netPrice.None? || (a.netPrice.Some? && a.netPrice.value <= b.netPrice.value)
    requires match (ResolvedProfile(a), ResolvedProfile(b))
      case (Some(p), Some(q)) => q.discountPercent <= p.discountPercent && q == p.(discountPercent := q.discountPercent)
      case (None, None) => true
      case _ => false
    ensures Resolve(a, flagEnabled).customerPrice <= Resolve(b, flagEnabled).customerPrice
  {
    SensibleRounds(a);
    SensibleRounds(b);
    ResolveCharges(a, flagEnabled);
    ResolveCharges(b, flagEnabled);
    var la, lb := MoneyRound(a.listPrice), MoneyRound(b.listPrice);
    MoneyRoundMonotone(a.listPrice, b.listPrice);
    if UsesProfile(a, flagEnabled) {
      var p, q := ResolvedProfile(a).value, ResolvedProfile(b).value;
      var da, db := MoneyRound(p.discountPercent), MoneyRound(q.discountPercent);
      MoneyRoundMonotone(q.discountPercent, p.discountPercent);
      var na := if a.netPrice.Some? then Some(MoneyRound(a.netPrice.value)) else None;
      var nb := if b.netPrice.Some? then Some(MoneyRound(b.netPrice.value)) else None;
      if b.netPrice.Some? { MoneyRoundMonotone(a.netPrice.value, b.netPrice.value); }
      PriceRisesWithList(la, lb, na, p.floorPolicy, da);
      if na.Some? { PriceRisesWithNet(lb, na.value, nb, p.floorPolicy, da); }
      PriceFallsWithDiscount(lb, nb, p.floorPolicy, db, da);
    }
  }

  // ---------------------------------------------------------------- the quote on the profile's columns

  /** Money and percentages are counted in the nearest hundredth, ties away from zero. */
  lemma MoneyRoundIsNearest(amount: real)
    ensures -0.5 <= MoneyRound(amount) as real - 100.0 * amount <= 0.5
    ensures MoneyRound(amount) as real - 100.0 * amount == 0.5 ==> amount >= 0.0
    ensures MoneyRound(amount) as real - 100.0 * amount == -0.5 ==> amount < 0.0
  {
    HalfUpNearest(amount * 100.0);
  }

  /** The context's own profile, or else the account's. */
  ghost function ApplyingProfile(ctx: Context): Option<Profile> {
    if ctx.profile.Some? then ctx.profile
    else if ctx.account.Some? then ctx.account.value.profile
    else None
  }

  /** Active, not archived, begun if it has a beginning, and not ended if it has an end. */
  ghost predicate InForce(p: Profile, at: int) {
    && p.isActive && p.archivedAt == None
    && (p.effectiveFrom == None || p.effectiveFrom.value <= at)
    && (p.effectiveUntil == None || at < p.effectiveUntil.value)
  }

  /** `cents` is `tenThousandths` of a cent, to the nearest, a tie going away from zero. */
  ghost predicate NearestCents(cents: int, tenThousandths: int) {
    && -5000 <= 10000 * cents - tenThousandths <= 5000
    && (10000 * cents - tenThousandths == 5000 ==> tenThousandths >= 0)
    && (10000 * cents - tenThousandths == -5000 ==> tenThousandths < 0)
  }

  lemma RawIsNearest(listPrice: int, base: int, discount: int)
    ensures NearestCents(MoneyRound(Raw(listPrice, base, discount)), 10000 * listPrice - (listPrice - base) * discount)
  {
    var off := (listPrice - base) * discount;
    var cents := MoneyRound(Raw(listPrice, base, discount));
    OffList(listPrice, base, discount);
    HalfUpNearest(listPrice as real - off as real / 10000.0);
    assert cents as real - (listPrice as real - off as real / 10000.0) == (10000 * cents - (10000 * listPrice - off)) as real / 10000.0;
  }

  lemma OffList(listPrice: int, netPrice: int, discount: int)
    ensures Raw(listPrice, netPrice, discount) * 100.0 == listPrice as real - ((listPrice - netPrice) * discount) as real / 10000.0
  {
    var l, n, d := listPrice as real, netPrice as real, discount as real;
    assert ((listPrice - netPrice) * discount) as real == (l - n) * d;
    assert Raw(listPrice, netPrice, discount) == n / 100.0 * (d / 100.0) / 100.0 + l / 100.0 * (100.0 - d / 100.0) / 100.0;
    assert (l - n) * d == l * d - n * d;
  }

  lemma PercentOffIsRaw(listPrice: int, discount: int)
    ensures LegacyPercentOffList(listPrice, discount) == MoneyRound(Raw(listPrice, 0, discount))
  {
    assert Money(0) * Money(discount) / 100.0 == 0.0;
  }

  /**
   * The quote as a function of the columns. With the flag on and the applying profile in force, that
   * profile is named, and takes its discount off the list price (no floor) or off the margin over the net
   * price (wholesale), unless there is no discount to take or no margin to share; everything else is
   * quoted at the list price without a profile, and as an invalid margin exactly when list is below net.
   */
  lemma ReasonsTellTheBranch(ctx: Context, flagEnabled: bool)
    ensures var q, profile, listPrice := Resolve(ctx, flagEnabled), ApplyingProfile(ctx), MoneyRound(ctx.listPrice);
            && q.listPrice == listPrice && q.schemaVersion == 1
            && if !flagEnabled || profile == None || !InForce(profile.value, ctx.timestamp) then
                 AtRetail(q, Retail)
               else
                 var p, discount := profile.value, MoneyRound(profile.value.discountPercent);
                 if discount <= 0 then
                   Names(q, p) && q.customerPrice == listPrice && q.discountPercent == 0 && q.floorReason == NoReason
                 else if p.floorPolicy == NoFloor then
                   && Names(q, p) && q.discountPercent == discount && q.floorReason == Discount
                   && NearestCents(q.customerPrice, listPrice * (10000 - discount))
                 else if ctx.netPrice == None then AtRetail(q, Retail)
                 else
                   var netPrice := MoneyRound(ctx.netPrice.value);
                   if listPrice < netPrice then AtRetail(q, InvalidMargin)
                   else
                     && Names(q, p) && q.discountPercent == discount && q.floorReason == Discount
                     && NearestCents(q.customerPrice, 10000 * netPrice + (listPrice - netPrice) * (10000 - discount))
  {
    var profile := ApplyingProfile(ctx);
    if flagEnabled && profile.Some? && InForce(profile.value, ctx.timestamp) {
      var listPrice, discount := MoneyRound(ctx.listPrice), MoneyRound(profile.value.discountPercent);
      if discount > 0 && profile.value.floorPolicy == NoFloor {
        PercentOffIsRaw(listPrice, discount);
        RawIsNearest(listPrice, 0, discount);
        assert 10000 * listPrice - (listPrice - 0) * discount == listPrice * (10000 - discount);
      } else if discount > 0 && ctx.netPrice.Some? && MoneyRound(ctx.netPrice.value) <= listPrice {
        var netPrice := MoneyRound(ctx.netPrice.value);
        WeightedForms(listPrice, netPrice, discount);
        RawIsNearest(listPrice, netPrice, discount);
        MarginShare(listPrice, netPrice, discount);
      }
    }
  }

  lemma MarginShare(listPrice: int, netPrice: int, discount: int)
    ensures 10000 * listPrice - (listPrice - netPrice) * discount == 10000 * netPrice + (listPrice - netPrice) * (10000 - discount)
  {}

  /** The list price is charged, and no profile is recorded. */
  ghost predicate AtRetail(q: Quote, reason: PricingReason) {
    && q.customerPrice == q.listPrice && q.discountPercent == 0
    && q.pricingReason == reason && q.floorReason == NoReason
    && q.profileId == None && q.profileVersion == None && q.profileSlug == None && q.profileName == None
  }

  ghost predicate Names(q: Quote, p: Profile) {
    && q.pricingReason == PricingProfile
    && q.profileId == Some(p.id) && q.profileVersion == Some(p.version)
    && q.profileSlug == Some(p.slug) && q.profileName == Some(p.name)
  }

  /** What goes into the hash is what the quote was made from, with the applying profile filled in. */
  lemma FingerprintRecordsInputs(ctx: Context, flagEnabled: bool)
    ensures var (mark, profile) := (Resolve(ctx, flagEnabled).fingerprint, ApplyingProfile(ctx));
            && mark.flagEnabled == flagEnabled && mark.timestamp == ctx.timestamp && mark.orderType == ctx.orderType
            && mark.listCents == MoneyRound(ctx.listPrice)
            && (mark.netCents.Some? <==> ctx.netPrice.Some?)
            && (ctx.netPrice.Some? ==> mark.netCents == Some(MoneyRound(ctx.netPrice.value)))
            && (mark.accountId.Some? <==> ctx.account.Some?)
            && (ctx.account.Some? ==> mark.accountId == Some(ctx.account.value.id))
            && (mark.profile.Some? <==> profile.Some?)
            && (profile.Some? ==> mark.profile == Some((profile.value.id, profile.value.version)))
  {}

  // ---------------------------------------------------------------- charge and display

  datatype Package = Package(priceUsd: real, netPriceUsd: Option<real>)

  /** What a purchase is charged, and the quote whose columns are stored with it, if profiles are on. */
  function ResolveCharge(flagEnabled: bool, account: Account, package: Package, orderType: string, at: int): (real, Option<Quote>) {
    if !flagEnabled then (package.priceUsd, None)
    else
      var q := Resolve(Context(package.priceUsd, package.netPriceUsd, orderType, at, Some(account), account.profile), true);
      (Money(q.customerPrice), Some(q))
  }

  /** What the catalog shows; anonymous visitors have no account. */
  function ResolveDisplay(flagEnabled: bool, account: Option<Account>, package: Package, orderType: string, at: int): Quote {
    var profile := if account.Some? then account.value.profile else None;
    Resolve(Context(package.priceUsd, package.netPriceUsd, orderType, at, account, profile), flagEnabled)
  }

  /**
   * The charge with profiles on is the stored quote's price, and both quotes are made from the package's
   * prices, the account and its profile; only the display may go without an account.
   */
  lemma ChargeAndDisplayRecordInputs(account: Account, package: Package, orderType: string, at: int, viewer: Option<Account>)
    ensures var (charged, stored) := ResolveCharge(true, account, package, orderType, at);
            && stored.Some? && charged == Money(stored.value.customerPrice)
            && MadeFrom(stored.value.fingerprint, Some(account), package, orderType, at)
    ensures ResolveCharge(false, account, package, orderType, at) == (package.priceUsd, None)
    ensures MadeFrom(ResolveDisplay(true, viewer, package, orderType, at).fingerprint, viewer, package, orderType, at)
  {}

  ghost predicate MadeFrom(mark: Fingerprint, account: Option<Account>, package: Package, orderType: string, at: int) {
    && mark.flagEnabled && mark.orderType == orderType && mark.timestamp == at
    && mark.listCents == MoneyRound(package.priceUsd)
    && (mark.netCents.Some? <==> package.netPriceUsd.Some?)
    && (package.netPriceUsd.Some? ==> mark.netCents == Some(MoneyRound(package.netPriceUsd.value)))
    && (mark.accountId.Some? <==> account.Some?)
    && (account.Some? ==> mark.accountId == Some(account.value.id))
    && (mark.profile.Some? <==> account.Some? && account.value.profile.Some?)
    && (mark.profile.Some? ==> mark.profile == Some((account.value.profile.value.id, account.value.profile.value.version)))
  }

  /** A whole number of cents. */
  ghost predicate OnCentGrid(price: real) { exists cents: int :: price == Money(cents) }

  lemma RoundingKeepsExactlyTheGrid(price: real)
    ensures Money(MoneyRound(price)) == price <==> OnCentGrid(price)
  {
    if OnCentGrid(price) {
      var cents: int :| price == Money(cents);
      MoneyRoundOnGrid(cents);
    }
  }

  /** The profile, if any, is in effect at both instants or at neither. */
  predicate SameEffect(profile: Option<Profile>, a: int, b: int) {
    profile.Some? ==> (ProfileIsEffective(profile.value, a) <==> ProfileIsEffective(profile.value, b))
  }

  /**
   * In cents and hundredths of a percent: there is no discount, or no margin to share, or what is taken
   * off is at most half a cent. (Half a cent off a list price of zero, under a negative net price, is kept.)
   */
  predicate NothingOff(listPrice: int, netPrice: Option<int>, policy: FloorPolicy, discount: int) {
    || discount <= 0
    || (policy == NoFloor && -5000 <= listPrice * discount <= 5000)
    || (policy == Wholesale && (netPrice.None? || listPrice < netPrice.value
                                || (listPrice - netPrice.value) * discount < 5000
                                || ((listPrice - netPrice.value) * discount == 5000 && listPrice > 0)))
  }

  /** Rounding takes `off` away from a whole number exactly when it is at most a half, with ties going away from zero. */
  lemma HalfUpAbsorbs(n: int, off: real)
    ensures HalfUp(n as real - off) == n <==>
              -0.5 <= off <= 0.5 && (off == 0.5 ==> n > 0) && (off == -0.5 ==> n < 0)
  {}

  lemma MarginPriceIsListIff(listPrice: int, netPrice: int, discount: int)
    ensures MoneyRound(Raw(listPrice, netPrice, discount)) == listPrice <==>
              var off := (listPrice - netPrice) * discount;
              -5000 <= off <= 5000 && (off == 5000 ==> listPrice > 0) && (off == -5000 ==> listPrice < 0)
  {
    OffList(listPrice, netPrice, discount);
    HalfUpAbsorbs(listPrice, ((listPrice - netPrice) * discount) as real / 10000.0);
  }

  lemma NothingOffIff(listPrice: int, netPrice: Option<int>, policy: FloorPolicy, discount: int)
    ensures Price(listPrice, netPrice, policy, discount) == listPrice <==> NothingOff(listPrice, netPrice, policy, discount)
  {
    if discount > 0 && policy == NoFloor {
      PercentOffIsRaw(listPrice, discount);
      MarginPriceIsListIff(listPrice, 0, discount);
      SignOfProduct(listPrice, discount);
    } else if discount > 0 && netPrice.Some? && netPrice.value <= listPrice {
      WeightedForms(listPrice, netPrice.value, discount);
      MarginPriceIsListIff(listPrice, netPrice.value, discount);
      SignOfProduct(listPrice - netPrice.value, discount);
    }
  }

  lemma SignOfProduct(a: int, d: int)
    requires d > 0
    ensures (a > 0 <==> a * d > 0) && (a < 0 <==> a * d < 0)
  {}

  /** The account's profile, while it is in effect, takes nothing off the package's price. */
  predicate GivesNothingOff(p: Profile, package: Package) {
    NothingOff(MoneyRound(package.priceUsd),
               if package.netPriceUsd.Some? then Some(MoneyRound(package.netPriceUsd.value)) else None,
               p.floorPolicy, MoneyRound(p.discountPercent))
  }

  /**
   * Shown at one instant and charged at another. With profiles off the two agree exactly for a price in
   * whole cents; with profiles on, exactly when the account's profile neither starts nor ends in between,
   * or gives nothing off the list price. At one instant the stored quote is the displayed one.
   */
  lemma ChargeMatchesDisplay(flagEnabled: bool, account: Account, package: Package, orderType: string,
                             shownAt: int, chargedAt: int)
    ensures var (charged, stored) := ResolveCharge(flagEnabled, account, package, orderType, chargedAt);
            var shown := ResolveDisplay(flagEnabled, Some(account), package, orderType, shownAt);
            && (charged == Money(shown.customerPrice) <==>
                  (if !flagEnabled then OnCentGrid(package.priceUsd)
                   else SameEffect(account.profile, shownAt, chargedAt) || GivesNothingOff(account.profile.value, package)))
            && (flagEnabled && shownAt == chargedAt ==> stored == Some(shown))
  {
    RoundingKeepsExactlyTheGrid(package.priceUsd);
    var charge := Context(package.priceUsd, package.netPriceUsd, orderType, chargedAt, Some(account), account.profile);
    ResolveCharges(charge, true);
    ResolveCharges(charge.(timestamp := shownAt), true);
    if account.profile.Some? {
      var p := account.profile.value;
      NothingOffIff(MoneyRound(package.priceUsd),
                    if package.netPriceUsd.Some? then Some(MoneyRound(package.netPriceUsd.value)) else None,
                    p.floorPolicy, MoneyRound(p.discountPercent));
    }
  }

  /** A top-up price from the provider need not be in whole cents: with profiles off 4.505 is shown as 4.51. */
  lemma FractionOfACentIsShownRounded(account: Account)
    ensures var package := Package(4.505, None);
            && ResolveCharge(false, account, package, "topup", 0).0 == 4.505
            && ResolveDisplay(false, Some(account), package, "topup", 0).customerPrice == 451
            && !OnCentGrid(4.505)
  {
    RoundingKeepsExactlyTheGrid(4.505);
  }

  // ---------------------------------------------------------------- snapshot columns

  /** The pricing columns of an order or top-up; text columns are never null, and blank when empty. */
  datatype Columns = Columns(
    listPrice: Option<int>, charged: Option<int>, discountPercent: Option<int>,
    pricingReason: Option<PricingReason>, floorReason: Option<FloorReason>,
    profileId: Option<string>, profileVersion: Option<nat>, profileSlug: string, profileName: string,
    fingerprint: Option<Fingerprint>, schemaVersion: Option<nat>)

  function TextColumn(s: Option<string>): string { if s.Some? then s.value else "" }

  function FromTextColumn(s: string): Option<string> { if s == "" then None else Some(s) }

  /** The order and the top-up mapping differ only in the name of the charged column. */
  function ToColumns(q: Quote): Columns {
    Columns(Some(q.listPrice), Some(q.customerPrice), Some(q.discountPercent), Some(q.pricingReason), Some(q.floorReason),
            q.profileId, q.profileVersion, TextColumn(q.profileSlug), TextColumn(q.profileName),
            Some(q.fingerprint), Some(q.schemaVersion))
  }

  datatype SnapshotError = PriceMissing | HashMissing

  function FromColumns(c: Columns): Result<Quote, SnapshotError> {
    if c.listPrice.None? || c.charged.None? then Err(PriceMissing)
    else if c.fingerprint.None? then Err(HashMissing)
    else Ok(Quote(
      MoneyRound(Money(c.listPrice.value)), MoneyRound(Money(c.charged.value)),
      if c.discountPercent.Some? then MoneyRound(Money(c.discountPercent.value)) else 0,
      if c.pricingReason.Some? then c.pricingReason.value else Retail,
      if c.floorReason.Some? then c.floorReason.value else NoReason,
      c.profileId, c.profileVersion, c.fingerprint.value,
      FromTextColumn(c.profileSlug), FromTextColumn(c.profileName),
      if c.schemaVersion.Some? && c.schemaVersion.value != 0 then c.schemaVersion.value else SNAPSHOT_SCHEMA_VERSION))
  }

  /** Which column holds what, and what a row from before the columns existed gives. */
  lemma ColumnsHoldTheQuote(q: Quote)
    ensures var c := ToColumns(q);
            && c.listPrice == Some(q.listPrice) && c.charged == Some(q.customerPrice) && c.discountPercent == Some(q.discountPercent)
            && c.pricingReason == Some(q.pricingReason) && c.floorReason == Some(q.floorReason)
            && c.profileId == q.profileId && c.profileVersion == q.profileVersion && c.fingerprint == Some(q.fingerprint)
            && (q.profileSlug.Some? ==> c.profileSlug == q.profileSlug.value)
            && (q.profileName.Some? ==> c.profileName == q.profileName.value)
            && c.schemaVersion == Some(q.schemaVersion)
  {}

  lemma IncompleteColumns(c: Columns)
    ensures FromColumns(c) == Err(PriceMissing) <==> c.listPrice == None || c.charged == None
    ensures FromColumns(c) == Err(HashMissing) <==> c.listPrice.Some? && c.charged.Some? && c.fingerprint == None
    ensures FromColumns(c).Ok? ==>
              var q := FromColumns(c).value;
              && Some(q.listPrice) == c.listPrice && Some(q.customerPrice) == c.charged
              && (c.discountPercent == None ==> q.discountPercent == 0)
              && (c.pricingReason == None ==> q.pricingReason == Retail)
              && (c.floorReason == None ==> q.floorReason == NoReason)
              && (c.schemaVersion in {None, Some(0)} ==> q.schemaVersion == 1)
  {
    if c.listPrice.Some? { MoneyRoundOnGrid(c.listPrice.value); }
    if c.charged.Some? { MoneyRoundOnGrid(c.charged.value); }
    MoneyRoundOnGrid(0);
  }

  /** The effective profile prices the quote, rather than a fallback to retail. */
  predicate PricedByProfile(ctx: Context, flagEnabled: bool) {
    && UsesProfile(ctx, flagEnabled)
    && var p := ResolvedProfile(ctx).value;
       || MoneyRound(p.discountPercent) <= 0
       || p.floorPolicy == NoFloor
       || (ctx.netPrice.Some? && MoneyRound(ctx.netPrice.value) <= MoneyRound(ctx.listPrice))
  }

  /** A stored quote comes back unchanged unless it was priced by a profile whose slug or name is empty. */
  lemma SnapshotRoundTrip(ctx: Context, flagEnabled: bool)
    ensures var q := Resolve(ctx, flagEnabled);
            FromColumns(ToColumns(q)) == Ok(q) <==>
              !PricedByProfile(ctx, flagEnabled)
              || (ResolvedProfile(ctx).value.slug != "" && ResolvedProfile(ctx).value.name != "")
  {
    var q := Resolve(ctx, flagEnabled);
    MoneyRoundOnGrid(q.listPrice);
    MoneyRoundOnGrid(q.customerPrice);
    MoneyRoundOnGrid(q.discountPercent);
  }

  /** Such a profile can be stored: a name of punctuation only has an empty slug. */
  lemma EmptySlugIsLost()
    ensures var p := Profile("p", "", "!!!", 1, 0.0, Wholesale, true, None, None, None);
            var q := Resolve(Context(1.0, None, "package", 0, None, Some(p)), true);
            q.profileSlug == Some("") && FromColumns(ToColumns(q)) == Ok(q.(profileSlug := None))
  {
    MoneyRoundOnGrid(100);
    MoneyRoundOnGrid(0);
  }
}
