/** The winsorized volume-weighted XCHAIN/BTC rate of src/xchainPrice.js and its USD legs. */
module XchainPrice {
  import opened Facts
  import opened JsValues
  import opened Decimal

  datatype Venue = Dex | Dispense

  /** One realized fill; an amount is None when its text is missing or not a number. */
  datatype Fill = Fill(venue: Venue, actionIndex: int, blockIndex: int, xchain: Option<real>, coin: Option<real>)

  const WINSOR_BAND_FACTOR: real := 2.0

  predicate IsUsable(f: Fill) {
    f.xchain.Some? && f.coin.Some? && f.xchain.value > 0.0 && f.coin.value > 0.0
  }

  type UsableFill = f: Fill | IsUsable(f) witness Fill(Dex, 0, 0, Some(1.0), Some(1.0))

  function UsableOf(f: Fill): seq<UsableFill> { if IsUsable(f) then [f] else [] }

  function Usable(fills: seq<Fill>): seq<UsableFill> {
    if fills == [] then [] else UsableOf(fills[0]) + Usable(fills[1..])
  }

  predicate Clamped(x: real, c: real, lower: real, upper: real) {
    BcDiv(c, x, Eighteen) < lower || BcDiv(c, x, Eighteen) > upper
  }

  /** What a fill of x XCHAIN for c coin adds to the numerator: the band edge times its size when
      clamped, otherwise its coin amount with no arithmetic at all. */
  function Contribution(x: real, c: real, lower: real, upper: real): real {
    if BcDiv(c, x, Eighteen) < lower then BcMul(lower, x, Eighteen)
    else if BcDiv(c, x, Eighteen) > upper then BcMul(upper, x, Eighteen)
    else c
  }

  datatype Sums = Sums(totalXchain: real, numerator: real, clampedCount: nat, totalCoin: real)

  /** The four running totals after the fills so far, each addition rounded to 18 decimals. */
  function SumsOf(fills: seq<UsableFill>, lower: real, upper: real): Sums {
    if fills == [] then Sums(0.0, 0.0, 0, 0.0)
    else
      var f := fills[|fills| - 1];
      var acc := SumsOf(fills[..|fills| - 1], lower, upper);
      Sums(BcAdd(acc.totalXchain, f.xchain.value, Eighteen),
           BcAdd(acc.numerator, Contribution(f.xchain.value, f.coin.value, lower, upper), Eighteen),
           acc.clampedCount + if Clamped(f.xchain.value, f.coin.value, lower, upper) then 1 else 0,
           BcAdd(acc.totalCoin, f.coin.value, Eighteen))
  }

  method SumWinsorizedFills(usable: seq<UsableFill>, lower: real, upper: real)
    returns (totalXchain: real, numerator: real, clampedCount: nat, totalCoin: real)
    ensures Sums(totalXchain, numerator, clampedCount, totalCoin) == SumsOf(usable, lower, upper)
  {
    totalXchain, numerator, clampedCount, totalCoin := 0.0, 0.0, 0, 0.0;
    for i := 0 to |usable|
      invariant Sums(totalXchain, numerator, clampedCount, totalCoin) == SumsOf(usable[..i], lower, upper)
    {
      assert usable[..i + 1][..i] == usable[..i];
      var f := usable[i];
      var rate := BcDiv(f.coin.value, f.xchain.value, Eighteen);
      var contribution;
      if rate < lower {
        contribution := BcMul(lower, f.xchain.value, Eighteen);
        clampedCount := clampedCount + 1;
      } else if rate > upper {
        contribution := BcMul(upper, f.xchain.value, Eighteen);
        clampedCount := clampedCount + 1;
      } else {
        contribution := f.coin.value;
      }
      numerator := BcAdd(numerator, contribution, Eighteen);
      totalXchain := BcAdd(totalXchain, f.xchain.value, Eighteen);
      totalCoin := BcAdd(totalCoin, f.coin.value, Eighteen);
    }
    assert usable[..|usable|] == usable;
  }

  datatype RateResult = RateResult(
    rate: real, usedCount: nat, clampedCount: nat, droppedCount: int,
    totalXchain: real, totalCoin: real, rawRate: real, refRate: real, lower: real, upper: real)

  function Band(bandFactor: Option<real>): real {
    if bandFactor.Some? && bandFactor.value != 0.0 then bandFactor.value else WINSOR_BAND_FACTOR
  }

  function Lower(refRate: real, band: real): real { BcDiv(refRate, band, Eighteen) }

  function Upper(refRate: real, band: real): real { BcMul(refRate, band, Eighteen) }

  /** deriveXchainRate on values: None wherever the source returns null. */
  function Derived(fills: seq<Fill>, refRate: Option<real>, bandFactor: Option<real>): Option<RateResult> {
    if fills == [] || refRate.None? || refRate.value <= 0.0 || Usable(fills) == [] then None
    else
      var lower, upper := Lower(refRate.value, Band(bandFactor)), Upper(refRate.value, Band(bandFactor));
      var s := SumsOf(Usable(fills), lower, upper);
      var rate := BcDiv(s.numerator, s.totalXchain, Eight);
      if s.totalXchain <= 0.0 || rate <= 0.0 then None
      else Some(RateResult(
        ToFixed(rate, Eight), |Usable(fills)|, s.clampedCount, |fills| - |Usable(fills)|,
        ToFixed(s.totalXchain, Eight), ToFixed(s.totalCoin, Eight),
        ToFixed(BcDiv(s.totalCoin, s.totalXchain, Eight), Eight),
        ToFixed(refRate.value, Eight), ToFixed(lower, Eight), ToFixed(upper, Eight)))
  }

  method DeriveXchainRate(fills: seq<Fill>, refRate: Option<real>, bandFactor: Option<real>)
    returns (r: Option<RateResult>)
    ensures r == Derived(fills, refRate, bandFactor)
  {
    if fills == [] { return None; }
    if refRate.None? || refRate.value <= 0.0 { return None; }
    var band := if bandFactor.Some? && bandFactor.value != 0.0 then bandFactor.value else WINSOR_BAND_FACTOR;
    var lower := BcDiv(refRate.value, band, Eighteen);
    var upper := BcMul(refRate.value, band, Eighteen);
    var usable := Usable(fills);
    var droppedCount := |fills| - |usable|;
    if |usable| == 0 { return None; }
    var totalXchain, numerator, clampedCount, totalCoin := SumWinsorizedFills(usable, lower, upper);
    if totalXchain <= 0.0 { return None; }
    var rate := BcDiv(numerator, totalXchain, Eight);
    if rate <= 0.0 { return None; }
    var rawRate := BcDiv(totalCoin, totalXchain, Eight);
    r := Some(RateResult(
      ToFixed(rate, Eight), |usable|, clampedCount, droppedCount,
      ToFixed(totalXchain, Eight), ToFixed(totalCoin, Eight), ToFixed(rawRate, Eight),
      ToFixed(refRate.value, Eight), ToFixed(lower, Eight), ToFixed(upper, Eight)));
  }

  // ------------------------------------------------------- the exact average

  predicate OnSatoshiGrid(f: Fill) {
    IsUsable(f) ==> OnGrid(f.xchain.value, Eight) && OnGrid(f.coin.value, Eight)
  }

  /** The unrounded winsorized notional: the coin amount held between the band edges times the size. */
  function Ideal(x: real, c: real, lower: real, upper: real): real {
    if c < lower * x then lower * x else if c > upper * x then upper * x else c
  }

  function Sum(s: seq<real>): real {
    if s == [] then 0.0 else Sum(s[..|s| - 1]) + s[|s| - 1]
  }

  function Sizes(fills: seq<UsableFill>): seq<real> {
    seq(|fills|, i requires 0 <= i < |fills| => fills[i].xchain.value)
  }

  function Ideals(fills: seq<UsableFill>, lower: real, upper: real): seq<real> {
    seq(|fills|, i requires 0 <= i < |fills| => Ideal(fills[i].xchain.value, fills[i].coin.value, lower, upper))
  }

  function IdealSum(fills: seq<UsableFill>, lower: real, upper: real): real { Sum(Ideals(fills, lower, upper)) }

  function Volume(fills: seq<UsableFill>): real { Sum(Sizes(fills)) }

  /** Appending one fill appends its size and its ideal notional. */
  lemma SumsOfAppend(fills: seq<UsableFill>, f: UsableFill, lower: real, upper: real)
    ensures Volume(fills + [f]) == Volume(fills) + f.xchain.value
    ensures IdealSum(fills + [f], lower, upper) == IdealSum(fills, lower, upper) + Ideal(f.xchain.value, f.coin.value, lower, upper)
  {
    assert Sizes(fills + [f])[..|fills|] == Sizes(fills);
    assert Ideals(fills + [f], lower, upper)[..|fills|] == Ideals(fills, lower, upper);
  }

  ghost predicate GoodBand(lower: real, upper: real) {
    0.0 <= lower <= upper && OnGrid(lower, Eighteen) && OnGrid(upper, Eighteen)
  }

  lemma QuotientLe(v: real, c: real, x: real, edge: real)
    requires x > 0.0 && v * x == c
    ensures v <= edge ==> c <= edge * x
    ensures v >= edge ==> c >= edge * x
  {
    if v <= edge { ScaleLe(v, edge, x); }
    if v >= edge { ScaleLe(edge, v, x); }
  }

  /** Rounding a rate cannot carry it across a band edge, which is itself on the rounding grid. */
  lemma ClampedRate(v: real, edge: real)
    requires OnGrid(edge, Eighteen)
    ensures ToFixed(v, Eighteen) < edge ==> v < edge
    ensures ToFixed(v, Eighteen) > edge ==> v > edge
  {
    ToFixedExact(edge, Eighteen);
    if v >= edge { ToFixedMonotone(edge, v, Eighteen); }
    if v <= edge { ToFixedMonotone(v, edge, Eighteen); }
  }

  ghost predicate WithinSlack(rounded: real, ideal: real, slack: real) {
    -slack <= 2e18 * (rounded - ideal) <= slack
  }

  lemma ClampedError(product: real, x: real)
    requires x > 0.0
    ensures OnGrid(ToFixed(product, Eighteen), Eighteen)
    ensures WithinSlack(ToFixed(product, Eighteen), product, x + 1.0)
  {
    ToFixedError(product, Eighteen);
  }

  /** A rate off by half a unit moves the notional by half a unit per XCHAIN. */
  lemma InBandError(v: real, x: real, c: real, edge: real, rate: real)
    requires x > 0.0 && c == v * x && WithinSlack(rate, v, 1.0)
    ensures edge <= rate ==> 2e18 * (edge * x - c) <= x
    ensures edge >= rate ==> 2e18 * (c - edge * x) <= x
  {
    if edge <= rate { ScaleProduct(2e18 * (edge - v), 2e18 * (edge * x - c), x); }
    if edge >= rate { ScaleProduct(2e18 * (v - edge), 2e18 * (c - edge * x), x); }
  }

  lemma ScaleProduct(gap: real, product: real, x: real)
    requires x > 0.0 && gap <= 1.0 && product == gap * x
    ensures product <= x
  {
    ScaleLe(gap, 1.0, x);
  }

  /** A fill's rounded contribution is within half a unit of its ideal notional when clamped,
      and within half a unit per XCHAIN when not. */
  lemma ContributionError(x: real, c: real, v: real, lower: real, upper: real)
    requires GoodBand(lower, upper) && x > 0.0 && OnGrid(c, Eight) && v == c / x
    ensures OnGrid(Contribution(x, c, lower, upper), Eighteen)
    ensures WithinSlack(Contribution(x, c, lower, upper), Ideal(x, c, lower, upper),
                        x + if Clamped(x, c, lower, upper) then 1.0 else 0.0)
  {
    Quotient(v, c, x);
    ClampedRate(v, lower);
    ClampedRate(v, upper);
    QuotientLe(v, c, x, lower);
    QuotientLe(v, c, x, upper);
    ScaleLe(lower, upper, x);
    var rate := BcDiv(c, x, Eighteen);
    assert rate == ToFixed(v, Eighteen);
    ToFixedError(v, Eighteen);
    GridRefines(c);
    ClampedError(lower * x, x);
    ClampedError(upper * x, x);
    InBandError(v, x, c, lower, rate);
    InBandError(v, x, c, upper, rate);
  }

  /** y lies between the two multiples of x. */
  ghost predicate Between(low: real, high: real, x: real, y: real) {
    low * x <= y <= high * x
  }

  lemma AddBetween(low: real, high: real, x: real, y: real, x': real, y': real)
    requires Between(low, high, x, y) && Between(low, high, x', y')
    ensures Between(low, high, x + x', y + y')
  {
  }

  lemma {:induction false} SumBetween(low: real, high: real, xs: seq<real>, ys: seq<real>)
    requires |xs| == |ys| && forall i :: 0 <= i < |xs| ==> Between(low, high, xs[i], ys[i])
    ensures Between(low, high, Sum(xs), Sum(ys))
  {
    if xs != [] {
      SumBetween(low, high, xs[..|xs| - 1], ys[..|ys| - 1]);
      AddBetween(low, high, Sum(xs[..|xs| - 1]), Sum(ys[..|ys| - 1]), xs[|xs| - 1], ys[|ys| - 1]);
    }
  }

  lemma IdealBetween(x: real, c: real, lower: real, upper: real)
    requires x > 0.0 && lower <= upper
    ensures Between(lower, upper, x, Ideal(x, c, lower, upper))
  {
    ScaleLe(lower, upper, x);
    IdealWithin(x, c, lower, upper, lower * x, upper * x);
  }

  lemma IdealWithin(x: real, c: real, lower: real, upper: real, low: real, high: real)
    requires low == lower * x && high == upper * x && low <= high
    ensures low <= Ideal(x, c, lower, upper) <= high
  {
  }

  /** The ideal average lies in the band. */
  lemma IdealSumBounds(fills: seq<UsableFill>, lower: real, upper: real)
    requires lower <= upper
    ensures Between(lower, upper, Volume(fills), IdealSum(fills, lower, upper))
  {
    var xs, ys := Sizes(fills), Ideals(fills, lower, upper);
    forall i | 0 <= i < |xs| ensures Between(lower, upper, xs[i], ys[i]) {
      IdealBetween(fills[i].xchain.value, fills[i].coin.value, lower, upper);
    }
    SumBetween(lower, upper, xs, ys);
  }

  ghost predicate AllOnGrid(fills: seq<UsableFill>) {
    forall i :: 0 <= i < |fills| ==> OnSatoshiGrid(fills[i])
  }

  ghost predicate Exact(s: Sums, fills: seq<UsableFill>) {
    && OnGrid(s.totalXchain, Eighteen) && OnGrid(s.numerator, Eighteen) && OnGrid(s.totalCoin, Eighteen)
    && s.totalXchain == Volume(fills)
    && s.clampedCount <= |fills| && |fills| as real <= s.totalXchain * 1e8
    && (s.clampedCount == 0 ==> s.numerator == s.totalCoin)
  }

  /** One more fill on the grid adds exactly its amounts and its contribution. */
  lemma AddExact(acc: Sums, fills: seq<UsableFill>, f: UsableFill, contribution: real, clamped: bool, s: Sums)
    requires Exact(acc, fills) && OnSatoshiGrid(f)
    requires OnGrid(contribution, Eighteen) && (!clamped ==> contribution == f.coin.value)
    requires s == Sums(BcAdd(acc.totalXchain, f.xchain.value, Eighteen), BcAdd(acc.numerator, contribution, Eighteen),
                       acc.clampedCount + if clamped then 1 else 0, BcAdd(acc.totalCoin, f.coin.value, Eighteen))
    ensures Exact(s, fills + [f])
    ensures s.numerator == acc.numerator + contribution && s.totalXchain == acc.totalXchain + f.xchain.value
  {
    var x, c := f.xchain.value, f.coin.value;
    GridRefines(x);
    GridRefines(c);
    assert Units(x, Eight).Floor as real > 0.0;
    OnGridSum(acc.totalXchain, x, Eighteen);
    OnGridSum(acc.numerator, contribution, Eighteen);
    OnGridSum(acc.totalCoin, c, Eighteen);
    SumsOfAppend(fills, f, 0.0, 0.0);
  }

  /** On the satoshi grid no addition rounds, and the numerator's accumulated error is at most half a
      unit in the 18th decimal per XCHAIN plus half a unit per clamped fill. */
  lemma {:induction false} NumeratorError(fills: seq<UsableFill>, lower: real, upper: real)
    requires GoodBand(lower, upper) && AllOnGrid(fills)
    ensures Exact(SumsOf(fills, lower, upper), fills)
    ensures var s := SumsOf(fills, lower, upper);
            WithinSlack(s.numerator, IdealSum(fills, lower, upper), s.totalXchain + s.clampedCount as real)
  {
    if fills == [] {
      assert IsInt(0.0 * 1e18);
    } else {
      var f, rest := fills[|fills| - 1], fills[..|fills| - 1];
      NumeratorError(rest, lower, upper);
      assert OnSatoshiGrid(f) && fills == rest + [f];
      SumsOfAppend(rest, f, lower, upper);
      var x, c := f.xchain.value, f.coin.value;
      ContributionError(x, c, c / x, lower, upper);
      var contribution, clamped := Contribution(x, c, lower, upper), Clamped(x, c, lower, upper);
      AddExact(SumsOf(rest, lower, upper), rest, f, contribution, clamped, SumsOf(fills, lower, upper));
    }
  }

  // ------------------------------------------------------ the published rate

  function Average(sum: real, volume: real): real
    requires volume > 0.0
  {
    sum / volume
  }

  lemma AverageTimes(sum: real, volume: real)
    requires volume > 0.0
    ensures Average(sum, volume) * volume == sum
  {
    Quotient(Average(sum, volume), sum, volume);
  }

  /** Order is preserved by cancelling a positive factor; the products are passed by name. */
  lemma CancelLe(a: real, b: real, x: real, ax: real, bx: real)
    requires x > 0.0 && ax == a * x && bx == b * x && ax <= bx
    ensures a <= b
  {
    assert (b - a) * x == bx - ax;
  }

  lemma SubScale(a: real, b: real, x: real, ax: real, bx: real)
    requires ax == a * x && bx == b * x
    ensures (a - b) * x == ax - bx
  {
  }

  lemma AverageError(num: real, ideal: real, volume: real, clamped: real, q: real, p: real)
    requires volume > 0.0 && clamped <= volume * 1e8
    requires WithinSlack(num, ideal, volume + clamped)
    requires q * volume == num && p * volume == ideal
    ensures -1e-10 <= q - p <= 1e-10
  {
    SubScale(q, p, volume, num, ideal);
    CancelLe(q - p, 1e-10, volume, num - ideal, 1e-10 * volume);
    CancelLe(-1e-10, q - p, volume, -1e-10 * volume, num - ideal);
  }

  lemma {:induction false} VolumePositive(fills: seq<UsableFill>)
    requires fills != []
    ensures Volume(fills) > 0.0
  {
    var rest, f := fills[..|fills| - 1], fills[|fills| - 1];
    assert fills == rest + [f];
    SumsOfAppend(rest, f, 0.0, 0.0);
    if rest == [] { assert Sizes(rest) == []; } else { VolumePositive(rest); }
  }

  /** A quotient of near-equal sums, rounded to 8 decimals, is within half a satoshi and a margin far
      below one of the ideal average. */
  lemma RoundedAverage(num: real, ideal: real, volume: real, clamped: real, q: real, p: real)
    requires volume > 0.0 && clamped <= volume * 1e8
    requires WithinSlack(num, ideal, volume + clamped)
    requires q == Average(num, volume) && p == Average(ideal, volume)
    ensures -0.51e-8 <= ToFixed(q, Eight) - p <= 0.51e-8
  {
    AverageTimes(num, volume);
    AverageTimes(ideal, volume);
    AverageError(num, ideal, volume, clamped, q, p);
    ToFixedError(q, Eight);
  }

  lemma DivideBounds(lower: real, upper: real, volume: real, sum: real, q: real)
    requires volume > 0.0 && q == Average(sum, volume) && Between(lower, upper, volume, sum)
    ensures lower <= q <= upper
  {
    AverageTimes(sum, volume);
    CancelLe(lower, q, volume, lower * volume, sum);
    CancelLe(q, upper, volume, sum, upper * volume);
  }

  lemma BandOrder(refRate: real, band: real, low: real, high: real)
    requires refRate > 0.0 && band >= 1.0 && low == refRate / band && high == refRate * band
    ensures 0.0 <= low <= high
  {
    Quotient(low, refRate, band);
    ScaleLe(1.0, band, refRate);
    CancelLe(0.0, low, band, 0.0, refRate);
    CancelLe(low, refRate, band, refRate, refRate * band);
  }

  lemma BandIsGood(refRate: real, band: real)
    requires refRate > 0.0 && band >= 1.0
    ensures GoodBand(Lower(refRate, band), Upper(refRate, band))
  {
    BandOrder(refRate, band, refRate / band, refRate * band);
    ToFixedError(refRate / band, Eighteen);
    ToFixedError(refRate * band, Eighteen);
    ToFixedMonotone(refRate / band, refRate * band, Eighteen);
    ToFixedMonotone(0.0, refRate / band, Eighteen);
  }

  ghost predicate Published(fills: seq<Fill>, refRate: real, band: real, r: RateResult) {
    && band >= 1.0 && AllOnGrid(Usable(fills))
    && (Derived(fills, Some(refRate), Some(band)) == Some(r)
        || (band == WINSOR_BAND_FACTOR && Derived(fills, Some(refRate), None) == Some(r)))
  }

  /** A published rate is within 0.51 satoshi of the unrounded winsorized average. */
  lemma PublishedNearIdeal(fills: seq<Fill>, refRate: real, band: real, r: RateResult, lower: real, upper: real)
    requires Published(fills, refRate, band, r)
    requires lower == Lower(refRate, band) && upper == Upper(refRate, band)
    ensures Volume(Usable(fills)) > 0.0 && GoodBand(lower, upper)
    ensures -0.51e-8 <= r.rate - Average(IdealSum(Usable(fills), lower, upper), Volume(Usable(fills))) <= 0.51e-8
  {
    var usable := Usable(fills);
    BandIsGood(refRate, band);
    VolumePositive(usable);
    NumeratorError(usable, lower, upper);
    var s := SumsOf(usable, lower, upper);
    var q := Average(s.numerator, s.totalXchain);
    assert r.rate == ToFixed(ToFixed(q, Eight), Eight);
    ToFixedError(q, Eight);
    ToFixedExact(ToFixed(q, Eight), Eight);
    assert s.clampedCount as real <= |usable| as real;
    RoundedAverage(s.numerator, IdealSum(usable, lower, upper), Volume(usable), s.clampedCount as real,
                   q, Average(IdealSum(usable, lower, upper), Volume(usable)));
  }

  /** Whatever the fills, a published rate stays within one satoshi of the winsorization band. */
  lemma PublishedWithinBand(fills: seq<Fill>, refRate: real, band: real, r: RateResult)
    requires Published(fills, refRate, band, r)
    ensures Lower(refRate, band) - 1e-8 <= r.rate <= Upper(refRate, band) + 1e-8
  {
    var usable, lower, upper := Usable(fills), Lower(refRate, band), Upper(refRate, band);
    PublishedNearIdeal(fills, refRate, band, r, lower, upper);
    var volume, sum := Volume(usable), IdealSum(usable, lower, upper);
    IdealSumBounds(usable, lower, upper);
    DivideBounds(lower, upper, volume, sum, Average(sum, volume));
  }

  lemma {:induction false} UnclampedSums(fills: seq<UsableFill>, lower: real, upper: real)
    requires SumsOf(fills, lower, upper).clampedCount == 0
    ensures SumsOf(fills, lower, upper).numerator == SumsOf(fills, lower, upper).totalCoin
  {
    if fills != [] { UnclampedSums(fills[..|fills| - 1], lower, upper); }
  }

  /** With no fill clamped the defence leaves no trace: the published rate is the raw average, whatever the amounts and
      the band. */
  lemma UnclampedIsRaw(fills: seq<Fill>, refRate: Option<real>, bandFactor: Option<real>, r: RateResult)
    requires Derived(fills, refRate, bandFactor) == Some(r) && r.clampedCount == 0
    ensures r.rate == r.rawRate
  {
    UnclampedSums(Usable(fills), Lower(refRate.value, Band(bandFactor)), Upper(refRate.value, Band(bandFactor)));
  }

  // ------------------------------------------------ the fills that are priced

  /** Both amounts are there and positive. */
  predicate Priced(fills: seq<Fill>, i: nat)
    requires i < |fills|
  {
    match (fills[i].xchain, fills[i].coin)
    case (Some(x), Some(c)) => x > 0.0 && c > 0.0
    case _ => false
  }

  ghost function PricedPositions(fills: seq<Fill>): set<int> { set i | 0 <= i < |fills| && Priced(fills, i) }

  /** Position by position: what the fill weighs, what its buyer paid, and that held between the edges; zero when it is not
      priced. */
  function Weights(fills: seq<Fill>): seq<real> {
    seq(|fills|, i requires 0 <= i < |fills| => if Priced(fills, i) then fills[i].xchain.value else 0.0)
  }

  function Payments(fills: seq<Fill>): seq<real> {
    seq(|fills|, i requires 0 <= i < |fills| => if Priced(fills, i) then fills[i].coin.value else 0.0)
  }

  function HeldPayments(fills: seq<Fill>, lower: real, upper: real): seq<real> {
    seq(|fills|, i requires 0 <= i < |fills| =>
      if Priced(fills, i) then Ideal(fills[i].xchain.value, fills[i].coin.value, lower, upper) else 0.0)
  }

  /** The exact rate of the fill rounds to outside the edges. */
  predicate Outside(fills: seq<Fill>, i: nat, lower: real, upper: real)
    requires i < |fills|
  {
    Priced(fills, i) && RateOutside(fills[i].xchain.value, fills[i].coin.value, lower, upper)
  }

  predicate RateOutside(x: real, c: real, lower: real, upper: real)
    requires x > 0.0
  {
    c / x < lower - 0.5e-18 || c / x >= upper + 0.5e-18
  }

  ghost function OutsidePositions(fills: seq<Fill>, lower: real, upper: real): set<int> {
    set i | 0 <= i < |fills| && Outside(fills, i, lower, upper)
  }

  /** Usable fills keep their order: one more at the end is one more at the end, or none. */
  lemma UsableAppend(fills: seq<Fill>, f: Fill)
    ensures IsUsable(f) ==> Usable(fills + [f]) == Usable(fills) + [f]
    ensures !IsUsable(f) ==> Usable(fills + [f]) == Usable(fills)
  {
    UsableThen(fills, f);
    assert Usable(fills) + [] == Usable(fills);
  }

  lemma {:induction false} UsableThen(fills: seq<Fill>, f: Fill)
    ensures Usable(fills + [f]) == Usable(fills) + UsableOf(f)
  {
    if fills == [] {
      assert fills + [f] == [f] && [f][1..] == [];
    } else {
      UsableThen(fills[1..], f);
      assert (fills + [f])[1..] == fills[1..] + [f];
      Regroup(UsableOf(fills[0]), Usable(fills[1..]), UsableOf(f));
    }
  }

  /** Adding a fill at the end adds its terms at the end. */
  lemma TermsAppend(fills: seq<Fill>, f: Fill, lower: real, upper: real)
    ensures var all, n := fills + [f], |fills|;
            && Sum(Weights(all)) == Sum(Weights(fills)) + (if Priced(all, n) then f.xchain.value else 0.0)
            && Sum(Payments(all)) == Sum(Payments(fills)) + (if Priced(all, n) then f.coin.value else 0.0)
            && Sum(HeldPayments(all, lower, upper)) == Sum(HeldPayments(fills, lower, upper))
               + (if Priced(all, n) then Ideal(f.xchain.value, f.coin.value, lower, upper) else 0.0)
  {
    var all := fills + [f];
    assert forall i :: 0 <= i < |fills| ==> Priced(all, i) == Priced(fills, i);
    assert Weights(all)[..|fills|] == Weights(fills);
    assert Payments(all)[..|fills|] == Payments(fills);
    assert HeldPayments(all, lower, upper)[..|fills|] == HeldPayments(fills, lower, upper);
  }

  lemma PricedAppend(fills: seq<Fill>, f: Fill)
    ensures forall i :: 0 <= i < |fills| ==> Priced(fills + [f], i) == Priced(fills, i)
    ensures Priced(fills + [f], |fills|) == IsUsable(f)
    ensures |PricedPositions(fills + [f])| == |PricedPositions(fills)| + if IsUsable(f) then 1 else 0
  {
    var all, n := fills + [f], |fills|;
    assert PricedPositions(all) == PricedPositions(fills) + if Priced(all, n) then {n} else {};
  }

  lemma OutsideAppend(fills: seq<Fill>, f: Fill, lower: real, upper: real)
    ensures |OutsidePositions(fills + [f], lower, upper)| == |OutsidePositions(fills, lower, upper)| +
            if IsUsable(f) && RateOutside(f.xchain.value, f.coin.value, lower, upper) then 1 else 0
  {
    var all, n := fills + [f], |fills|;
    PricedAppend(fills, f);
    forall i | 0 <= i < n ensures Outside(all, i, lower, upper) == Outside(fills, i, lower, upper) { assert all[i] == fills[i]; }
    assert OutsidePositions(all, lower, upper) == OutsidePositions(fills, lower, upper) + if Outside(all, n, lower, upper) then {n} else {};
  }

  /** Rounding carries a value below or above a grid point exactly when it is at least half a unit away. */
  lemma RoundsOutside(v: real, lower: real, upper: real)
    requires OnGrid(lower, Eighteen) && OnGrid(upper, Eighteen) && lower >= 0.0 && v > 0.0
    ensures ToFixed(v, Eighteen) < lower <==> v < lower - 0.5e-18
    ensures upper >= 0.0 ==> (ToFixed(v, Eighteen) > upper <==> v >= upper + 0.5e-18)
  {
    var u, lo, up := Units(v, Eighteen), Units(lower, Eighteen).Floor, Units(upper, Eighteen).Floor;
    assert Units(ToFixed(v, Eighteen), Eighteen) == Nearest(u) as real;
    assert Nearest(u) < lo <==> u < lo as real - 0.5;
    assert up >= 0 ==> (Nearest(u) > up <==> u >= up as real + 0.5);
  }

  /** Amounts of priced fills are on the 8-decimal grid, as stored amounts are. */
  ghost predicate GridFills(fills: seq<Fill>) {
    forall i :: 0 <= i < |fills| && Priced(fills, i) ==> OnGrid(fills[i].xchain.value, Eight) && OnGrid(fills[i].coin.value, Eight)
  }

  lemma {:induction false} GridIsUsableGrid(fills: seq<Fill>)
    ensures GridFills(fills) ==> AllOnGrid(Usable(fills))
  {
    if fills != [] && GridFills(fills) {
      assert forall i :: 0 <= i < |fills[1..]| ==> fills[1..][i] == fills[i + 1] && Priced(fills[1..], i) == Priced(fills, i + 1);
      GridIsUsableGrid(fills[1..]);
      assert Priced(fills, 0) == IsUsable(fills[0]);
    }
  }

  ghost predicate SumsKnown(fills: seq<Fill>, lower: real, upper: real) {
    && |Usable(fills)| == |PricedPositions(fills)|
    && Volume(Usable(fills)) == Sum(Weights(fills))
    && IdealSum(Usable(fills), lower, upper) == Sum(HeldPayments(fills, lower, upper))
  }

  lemma SumsKnownAppend(fills: seq<Fill>, f: Fill, lower: real, upper: real)
    requires SumsKnown(fills, lower, upper)
    ensures SumsKnown(fills + [f], lower, upper)
  {
    UsableAppend(fills, f);
    PricedAppend(fills, f);
    TermsAppend(fills, f, lower, upper);
    if IsUsable(f) { SumsOfAppend(Usable(fills), f, lower, upper); }
  }

  /** What the sums of the usable fills are, in terms of the fills given. */
  lemma {:induction false} PricedSums(fills: seq<Fill>, lower: real, upper: real)
    ensures SumsKnown(fills, lower, upper)
  {
    if fills == [] {
      assert Sizes([]) == [] && Ideals([], lower, upper) == [] && PricedPositions(fills) == {};
    } else {
      PricedSums(fills[..|fills| - 1], lower, upper);
      SumsKnownAppend(fills[..|fills| - 1], fills[|fills| - 1], lower, upper);
      assert fills == fills[..|fills| - 1] + [fills[|fills| - 1]];
    }
  }

  lemma SumsOfLast(fills: seq<UsableFill>, f: UsableFill, lower: real, upper: real)
    ensures var acc, s := SumsOf(fills, lower, upper), SumsOf(fills + [f], lower, upper);
            && s.clampedCount == acc.clampedCount + (if Clamped(f.xchain.value, f.coin.value, lower, upper) then 1 else 0)
            && s.totalCoin == BcAdd(acc.totalCoin, f.coin.value, Eighteen)
  {
    assert (fills + [f])[..|fills|] == fills;
  }

  ghost predicate ClampedKnown(fills: seq<Fill>, lower: real, upper: real) {
    SumsOf(Usable(fills), lower, upper).clampedCount == |OutsidePositions(fills, lower, upper)|
  }

  lemma ClampedIsOutside(x: real, c: real, lower: real, upper: real)
    requires GoodBand(lower, upper) && x > 0.0 && c > 0.0
    ensures Clamped(x, c, lower, upper) <==> RateOutside(x, c, lower, upper)
  {
    RateIsPositive(c, x);
    RoundsOutside(c / x, lower, upper);
  }

  lemma ClampedAppend(fills: seq<Fill>, f: Fill, lower: real, upper: real)
    requires GoodBand(lower, upper) && ClampedKnown(fills, lower, upper)
    ensures ClampedKnown(fills + [f], lower, upper)
  {
    UsableAppend(fills, f);
    OutsideAppend(fills, f, lower, upper);
    if IsUsable(f) {
      SumsOfLast(Usable(fills), f, lower, upper);
      ClampedIsOutside(f.xchain.value, f.coin.value, lower, upper);
    }
  }

  /** The clamped fills are those whose rate rounds to outside the edges. */
  lemma {:induction false} ClampedPositions(fills: seq<Fill>, lower: real, upper: real)
    requires GoodBand(lower, upper)
    ensures ClampedKnown(fills, lower, upper)
  {
    if fills == [] {
      assert OutsidePositions(fills, lower, upper) == {};
    } else {
      ClampedPositions(fills[..|fills| - 1], lower, upper);
      ClampedAppend(fills[..|fills| - 1], fills[|fills| - 1], lower, upper);
      assert fills == fills[..|fills| - 1] + [fills[|fills| - 1]];
    }
  }

  lemma RateIsPositive(c: real, x: real)
    requires c > 0.0 && x > 0.0
    ensures c / x > 0.0
  {
    Quotient(c / x, c, x);
    if c / x <= 0.0 { ScaleLe(c / x, 0.0, x); }
  }

  ghost predicate PaymentsKnown(fills: seq<Fill>, lower: real, upper: real) {
    && SumsOf(Usable(fills), lower, upper).totalCoin == Sum(Payments(fills))
    && OnGrid(Sum(Payments(fills)), Eight) && OnGrid(Sum(Weights(fills)), Eight)
  }

  lemma AddOnGrid(total: real, x: real)
    requires OnGrid(total, Eight) && OnGrid(x, Eight)
    ensures OnGrid(total + x, Eight) && BcAdd(total, x, Eighteen) == total + x
  {
    OnGridSum(total, x, Eight);
    GridRefines(total);
    GridRefines(x);
    OnGridSum(total, x, Eighteen);
  }

  lemma PaymentsAppend(fills: seq<Fill>, f: Fill, lower: real, upper: real)
    requires PaymentsKnown(fills, lower, upper)
    requires IsUsable(f) ==> OnGrid(f.xchain.value, Eight) && OnGrid(f.coin.value, Eight)
    ensures PaymentsKnown(fills + [f], lower, upper)
  {
    UsableAppend(fills, f);
    PricedAppend(fills, f);
    TermsAppend(fills, f, lower, upper);
    if IsUsable(f) {
      SumsOfLast(Usable(fills), f, lower, upper);
      AddOnGrid(Sum(Payments(fills)), f.coin.value);
      AddOnGrid(Sum(Weights(fills)), f.xchain.value);
    }
  }

  lemma {:induction false} PaymentsExact(fills: seq<Fill>, lower: real, upper: real)
    requires GridFills(fills)
    ensures PaymentsKnown(fills, lower, upper)
  {
    if fills == [] {
      assert IsInt(0.0 * 1e8);
    } else {
      var rest, f := fills[..|fills| - 1], fills[|fills| - 1];
      assert fills == rest + [f];
      PricedAppend(rest, f);
      GridPrefix(rest, f);
      PaymentsExact(rest, lower, upper);
      PaymentsAppend(rest, f, lower, upper);
    }
  }

  lemma GridPrefix(fills: seq<Fill>, f: Fill)
    requires GridFills(fills + [f])
    ensures GridFills(fills) && (IsUsable(f) ==> OnGrid(f.xchain.value, Eight) && OnGrid(f.coin.value, Eight))
  {
    PricedAppend(fills, f);
    forall i | 0 <= i < |fills| && Priced(fills, i) ensures OnGrid(fills[i].xchain.value, Eight) && OnGrid(fills[i].coin.value, Eight) {
      assert Priced(fills + [f], i);
    }
    if IsUsable(f) { assert Priced(fills + [f], |fills|); }
  }

  /** Usable fills are the priced ones, as often as they were given. */
  lemma {:induction false} UsableAreThePriced(fills: seq<Fill>, f: Fill)
    ensures var used: seq<Fill> := Usable(fills);
            multiset(used)[f] == match (f.xchain, f.coin)
            case (Some(x), Some(c)) => if x > 0.0 && c > 0.0 then multiset(fills)[f] else 0
            case _ => 0
  {
    if fills != [] {
      UsableAreThePriced(fills[1..], f);
      assert fills == [fills[0]] + fills[1..];
      var rest: seq<Fill> := Usable(fills[1..]);
      assert multiset([fills[0]] + rest) == multiset{fills[0]} + multiset(rest);
      var used: seq<Fill> := Usable(fills);
      assert used == (if IsUsable(fills[0]) then [fills[0]] else []) + rest;
    }
  }

  /** x and y differ by at most the slack. */
  ghost predicate Near(x: real, y: real, slack: real) { -slack <= x - y <= slack }

  /** Whatever was passed, a band factor that is missing or zero is 2. */
  ghost predicate EffectiveBand(bandFactor: Option<real>, b: real) {
    match bandFactor
    case None => b == 2.0
    case Some(v) => b == if v == 0.0 then 2.0 else v
  }

  /** The band around the reference, rounded to 18 decimals. */
  ghost predicate EdgesOf(refRate: real, b: real, lower: real, upper: real)
    requires b >= 1.0
  {
    Near(lower, refRate / b, 0.5e-18) && Near(upper, refRate * b, 0.5e-18)
  }

  /** Every published figure in terms of the fills given: the rate is the average of the payments of the priced fills, each
      held between the edges and weighted by size; the rest are exact totals, counts and roundings. */
  ghost predicate Figures(fills: seq<Fill>, refRate: real, lower: real, upper: real, r: RateResult) {
    && Sum(Weights(fills)) > 0.0
    && Near(r.rate, Average(Sum(HeldPayments(fills, lower, upper)), Sum(Weights(fills))), 0.51e-8)
    && Near(r.rawRate, Average(Sum(Payments(fills)), Sum(Weights(fills))), 0.5e-8)
    && r.totalXchain == Sum(Weights(fills)) && r.totalCoin == Sum(Payments(fills))
    && r.usedCount == |PricedPositions(fills)| && r.droppedCount == |fills| - |PricedPositions(fills)|
    && r.clampedCount == |OutsidePositions(fills, lower, upper)|
    && Near(r.lower, lower, 0.5e-8) && Near(r.upper, upper, 0.5e-8) && Near(r.refRate, refRate, 0.5e-8)
    && OnGrid(r.rate, Eight) && OnGrid(r.rawRate, Eight) && OnGrid(r.lower, Eight) && OnGrid(r.upper, Eight) && OnGrid(r.refRate, Eight)
  }

  lemma FiguresHold(fills: seq<Fill>, refRate: real, bandFactor: Option<real>, b: real, r: RateResult, lower: real, upper: real)
    requires Derived(fills, Some(refRate), bandFactor) == Some(r) && GridFills(fills) && EffectiveBand(bandFactor, b) && b >= 1.0
    requires lower == Lower(refRate, b) && upper == Upper(refRate, b)
    ensures Figures(fills, refRate, lower, upper, r)
  {
    RatePart(fills, refRate, bandFactor, b, r, lower, upper);
    TotalsPart(fills, refRate, bandFactor, b, r, lower, upper);
    EdgesFormatted(fills, refRate, bandFactor, b, r);
  }

  /** The published rate is that of the fills given and the reference given, whatever else they hold. */
  lemma RateOfTheFills(fills: seq<Fill>, refRate: Option<real>, bandFactor: Option<real>, b: real, r: RateResult)
    returns (lower: real, upper: real)
    requires Derived(fills, refRate, bandFactor) == Some(r) && GridFills(fills) && EffectiveBand(bandFactor, b) && b >= 1.0
    ensures refRate.Some? && EdgesOf(refRate.value, b, lower, upper) && Figures(fills, refRate.value, lower, upper, r)
  {
    lower, upper := Lower(refRate.value, b), Upper(refRate.value, b);
    EdgesRounded(refRate.value, b);
    FiguresHold(fills, refRate.value, bandFactor, b, r, lower, upper);
  }

  lemma EdgesRounded(refRate: real, b: real)
    requires b >= 1.0
    ensures EdgesOf(refRate, b, Lower(refRate, b), Upper(refRate, b))
  {
    var q, p := refRate / b, refRate * b;
    ToFixedError(q, Eighteen);
    ToFixedError(p, Eighteen);
  }

  lemma RatePart(fills: seq<Fill>, refRate: real, bandFactor: Option<real>, b: real, r: RateResult, lower: real, upper: real)
    requires Derived(fills, Some(refRate), bandFactor) == Some(r) && GridFills(fills) && EffectiveBand(bandFactor, b) && b >= 1.0
    requires lower == Lower(refRate, b) && upper == Upper(refRate, b)
    ensures Sum(Weights(fills)) > 0.0 && GoodBand(lower, upper)
    ensures Near(r.rate, Average(Sum(HeldPayments(fills, lower, upper)), Sum(Weights(fills))), 0.51e-8)
  {
    GridIsUsableGrid(fills);
    assert Published(fills, refRate, b, r);
    PublishedNearIdeal(fills, refRate, b, r, lower, upper);
    PricedSums(fills, lower, upper);
  }

  lemma TotalsPart(fills: seq<Fill>, refRate: real, bandFactor: Option<real>, b: real, r: RateResult, lower: real, upper: real)
    requires Derived(fills, Some(refRate), bandFactor) == Some(r) && GridFills(fills) && EffectiveBand(bandFactor, b) && b >= 1.0
    requires lower == Lower(refRate, b) && upper == Upper(refRate, b) && Sum(Weights(fills)) > 0.0 && GoodBand(lower, upper)
    ensures r.totalXchain == Sum(Weights(fills)) && r.totalCoin == Sum(Payments(fills))
    ensures Near(r.rawRate, Average(Sum(Payments(fills)), Sum(Weights(fills))), 0.5e-8) && OnGrid(r.rawRate, Eight)
    ensures r.usedCount == |PricedPositions(fills)| && r.droppedCount == |fills| - |PricedPositions(fills)|
    ensures r.clampedCount == |OutsidePositions(fills, lower, upper)|
  {
    GridIsUsableGrid(fills);
    NumeratorError(Usable(fills), lower, upper);
    PricedSums(fills, lower, upper);
    ClampedPositions(fills, lower, upper);
    PaymentsExact(fills, lower, upper);
    TotalsFormatted(fills, lower, upper, SumsOf(Usable(fills), lower, upper), r);
  }

  lemma EdgesFormatted(fills: seq<Fill>, refRate: real, bandFactor: Option<real>, b: real, r: RateResult)
    requires Derived(fills, Some(refRate), bandFactor) == Some(r) && EffectiveBand(bandFactor, b)
    ensures Near(r.lower, Lower(refRate, b), 0.5e-8) && Near(r.upper, Upper(refRate, b), 0.5e-8) && Near(r.refRate, refRate, 0.5e-8)
    ensures OnGrid(r.rate, Eight) && OnGrid(r.lower, Eight) && OnGrid(r.upper, Eight) && OnGrid(r.refRate, Eight)
  {
    OnceRounded(Lower(refRate, b));
    OnceRounded(Upper(refRate, b));
    OnceRounded(refRate);
    var s := SumsOf(Usable(fills), Lower(refRate, b), Upper(refRate, b));
    OnceRounded(BcDiv(s.numerator, s.totalXchain, Eight));
  }

  lemma OnceRounded(x: real)
    ensures OnGrid(ToFixed(x, Eight), Eight) && Near(ToFixed(x, Eight), x, 0.5e-8)
  {
    ToFixedError(x, Eight);
  }

  /** The exact totals survive the final formatting, and their quotient is rounded once. */
  lemma TotalsFormatted(fills: seq<Fill>, lower: real, upper: real, s: Sums, r: RateResult)
    requires PaymentsKnown(fills, lower, upper) && s == SumsOf(Usable(fills), lower, upper)
    requires s.totalXchain == Sum(Weights(fills)) && s.totalXchain > 0.0
    requires r.totalXchain == ToFixed(s.totalXchain, Eight) && r.totalCoin == ToFixed(s.totalCoin, Eight)
    requires r.rawRate == ToFixed(BcDiv(s.totalCoin, s.totalXchain, Eight), Eight)
    ensures r.totalXchain == Sum(Weights(fills)) && r.totalCoin == Sum(Payments(fills))
    ensures OnGrid(r.rawRate, Eight) && Near(r.rawRate, Average(Sum(Payments(fills)), Sum(Weights(fills))), 0.5e-8)
  {
    ToFixedExact(s.totalXchain, Eight);
    ToFixedExact(s.totalCoin, Eight);
    var q := Average(s.totalCoin, s.totalXchain);
    OnceRounded(q);
    ToFixedExact(ToFixed(q, Eight), Eight);
  }

  lemma RoundsAboveZero(q: real)
    ensures ToFixed(q, Eight) > 0.0 <==> q >= 0.5e-8
  {
    assert Nearest(Units(q, Eight)) >= 1 <==> Units(q, Eight) >= 0.5;
    assert Units(ToFixed(q, Eight), Eight) == Nearest(Units(q, Eight)) as real;
  }

  /** A rate is published exactly when there is a positive reference, some priced fill, some XCHAIN left in the total after
      rounding, and an average that does not round to zero. */
  lemma PublishedExactlyWhen(fills: seq<Fill>, refRate: Option<real>, bandFactor: Option<real>, b: real)
    requires EffectiveBand(bandFactor, b)
    ensures Derived(fills, refRate, bandFactor).Some? <==>
            && refRate.Some? && refRate.value > 0.0 && (exists i :: 0 <= i < |fills| && Priced(fills, i))
            && var s := SumsOf(Usable(fills), Lower(refRate.value, b), Upper(refRate.value, b));
               s.totalXchain > 0.0 && s.numerator >= 0.5e-8 * s.totalXchain
  {
    PricedSums(fills, 0.0, 0.0);
    SomePriced(fills);
    assert Usable(fills) == [] <==> PricedPositions(fills) == {};
    if refRate.Some? {
      var s := SumsOf(Usable(fills), Lower(refRate.value, b), Upper(refRate.value, b));
      if s.totalXchain > 0.0 {
        RoundsAboveZero(Average(s.numerator, s.totalXchain));
        AtLeast(s.numerator, s.totalXchain);
      }
    }
  }

  lemma SomePriced(fills: seq<Fill>)
    ensures PricedPositions(fills) != {} <==> exists i :: 0 <= i < |fills| && Priced(fills, i)
  {
    if i :| 0 <= i < |fills| && Priced(fills, i) { assert i in PricedPositions(fills); }
  }

  lemma AtLeast(num: real, volume: real)
    requires volume > 0.0
    ensures Average(num, volume) >= 0.5e-8 <==> num >= 0.5e-8 * volume
  {
    AverageTimes(num, volume);
    if Average(num, volume) >= 0.5e-8 { ScaleLe(0.5e-8, Average(num, volume), volume); }
    if num >= 0.5e-8 * volume { CancelLe(0.5e-8, Average(num, volume), volume, 0.5e-8 * volume, num); }
  }

  /** On stored amounts: never below an average of 0.49 satoshi, always from 0.51 satoshi on. */
  lemma PublishedOnTheGrid(fills: seq<Fill>, refRate: real, bandFactor: Option<real>, b: real, lower: real, upper: real)
    requires GridFills(fills) && EffectiveBand(bandFactor, b) && b >= 1.0 && refRate > 0.0 && (exists i :: 0 <= i < |fills| && Priced(fills, i))
    requires lower == Lower(refRate, b) && upper == Upper(refRate, b)
    ensures Sum(Weights(fills)) > 0.0
    ensures var average := Average(Sum(HeldPayments(fills, lower, upper)), Sum(Weights(fills)));
            && (average >= 0.51e-8 ==> Derived(fills, Some(refRate), bandFactor).Some?)
            && (average < 0.49e-8 ==> Derived(fills, Some(refRate), bandFactor).None?)
  {
    var usable := Usable(fills);
    GridIsUsableGrid(fills);
    PricedSums(fills, lower, upper);
    SomePriced(fills);
    VolumePositive(usable);
    BandIsGood(refRate, b);
    NumeratorError(usable, lower, upper);
    PublishedExactlyWhen(fills, Some(refRate), bandFactor, b);
    NearThreshold(SumsOf(usable, lower, upper), usable, IdealSum(usable, lower, upper));
  }

  lemma NearThreshold(s: Sums, usable: seq<UsableFill>, ideal: real)
    requires Exact(s, usable) && s.totalXchain > 0.0 && WithinSlack(s.numerator, ideal, s.totalXchain + s.clampedCount as real)
    ensures Average(ideal, s.totalXchain) >= 0.51e-8 ==> s.numerator >= 0.5e-8 * s.totalXchain
    ensures Average(ideal, s.totalXchain) < 0.49e-8 ==> s.numerator < 0.5e-8 * s.totalXchain
  {
    var q, p := Average(s.numerator, s.totalXchain), Average(ideal, s.totalXchain);
    AverageTimes(s.numerator, s.totalXchain);
    AverageTimes(ideal, s.totalXchain);
    AverageError(s.numerator, ideal, s.totalXchain, s.clampedCount as real, q, p);
    AtLeast(s.numerator, s.totalXchain);
  }

  // ------------------------------------------------------- bounded influence

  ghost predicate SameSizes(a: seq<UsableFill>, b: seq<UsableFill>) {
    |a| == |b| && forall i :: 0 <= i < |a| ==> a[i].xchain == b[i].xchain
  }

  /** The sizes of the fills whose coin amount differs, zero for the rest. */
  function ChangedSizes(a: seq<UsableFill>, b: seq<UsableFill>): seq<real>
    requires |a| == |b|
  {
    seq(|a|, i requires 0 <= i < |a| => if a[i].coin == b[i].coin then 0.0 else a[i].xchain.value)
  }

  function ChangedWeight(a: seq<UsableFill>, b: seq<UsableFill>): real
    requires |a| == |b|
  {
    Sum(ChangedSizes(a, b))
  }

  lemma {:induction false} SumDifference(xs: seq<real>, ys: seq<real>, ds: seq<real>)
    requires |xs| == |ys| == |ds| && forall i :: 0 <= i < |xs| ==> ds[i] == xs[i] - ys[i]
    ensures Sum(ds) == Sum(xs) - Sum(ys)
  {
    if xs != [] { SumDifference(xs[..|xs| - 1], ys[..|ys| - 1], ds[..|ds| - 1]); }
  }

  lemma IdealGap(x: real, c: real, d: real, lower: real, upper: real, gap: real)
    requires x > 0.0 && lower <= upper && gap == upper - lower
    ensures Between(-gap, gap, if c == d then 0.0 else x, Ideal(x, c, lower, upper) - Ideal(x, d, lower, upper))
  {
    IdealBetween(x, c, lower, upper);
    IdealBetween(x, d, lower, upper);
    SubScale(upper, lower, x, upper * x, lower * x);
    SubScale(lower, upper, x, lower * x, upper * x);
  }

  lemma IdealInfluence(a: seq<UsableFill>, b: seq<UsableFill>, lower: real, upper: real, gap: real)
    requires lower <= upper && SameSizes(a, b) && gap == upper - lower
    ensures Between(-gap, gap, ChangedWeight(a, b), IdealSum(a, lower, upper) - IdealSum(b, lower, upper))
    ensures Volume(a) == Volume(b)
  {
    var xs, ys := Ideals(a, lower, upper), Ideals(b, lower, upper);
    var ds := seq(|a|, i requires 0 <= i < |a| => xs[i] - ys[i]);
    SumDifference(xs, ys, ds);
    forall i | 0 <= i < |a| ensures Between(-gap, gap, ChangedSizes(a, b)[i], ds[i]) {
      IdealGap(a[i].xchain.value, a[i].coin.value, b[i].coin.value, lower, upper, gap);
    }
    SumBetween(-gap, gap, ChangedSizes(a, b), ds);
    assert Sizes(a) == Sizes(b);
  }

  /** The share of the band's width that fills of the given weight can move the average by. */
  function Leverage(width: real, weight: real, volume: real): real
    requires volume > 0.0
  {
    width * weight / volume
  }

  lemma DivideGap(width: real, weight: real, s: real, t: real, volume: real)
    requires volume > 0.0 && Between(-width, width, weight, s - t)
    ensures -Leverage(width, weight, volume) <= Average(s, volume) - Average(t, volume) <= Leverage(width, weight, volume)
  {
    var p, q, r := Average(s, volume), Average(t, volume), Leverage(width, weight, volume);
    AverageTimes(s, volume);
    AverageTimes(t, volume);
    Quotient(r, width * weight, volume);
    SubScale(p, q, volume, s, t);
    CancelLe(p - q, r, volume, s - t, width * weight);
    CancelLe(-r, p - q, volume, -(width * weight), s - t);
  }

  /** Rewriting the coin amounts of fills of total size w moves the published rate by at most the
      band's width times w's share of the volume, plus two satoshis of rounding. */
  lemma BoundedInfluence(a: seq<Fill>, b: seq<Fill>, refRate: real, band: real, ra: RateResult, rb: RateResult)
    requires Published(a, refRate, band, ra) && Published(b, refRate, band, rb)
    requires SameSizes(Usable(a), Usable(b))
    ensures Volume(Usable(a)) > 0.0
    ensures var share := Leverage(Upper(refRate, band) - Lower(refRate, band), ChangedWeight(Usable(a), Usable(b)), Volume(Usable(a)));
            Near(ra.rate, rb.rate, share + 2e-8)
  {
    var lower, upper := Lower(refRate, band), Upper(refRate, band);
    PublishedNear(a, refRate, band, ra, lower, upper);
    PublishedNear(b, refRate, band, rb, lower, upper);
    InfluenceGap(Usable(a), Usable(b), lower, upper, ra.rate, rb.rate);
  }

  ghost predicate NearAverage(rate: real, fills: seq<UsableFill>, lower: real, upper: real) {
    lower <= upper && Volume(fills) > 0.0 && Near(rate, Average(IdealSum(fills, lower, upper), Volume(fills)), 0.51e-8)
  }

  lemma PublishedNear(fills: seq<Fill>, refRate: real, band: real, r: RateResult, lower: real, upper: real)
    requires Published(fills, refRate, band, r) && lower == Lower(refRate, band) && upper == Upper(refRate, band)
    ensures NearAverage(r.rate, Usable(fills), lower, upper)
  {
    PublishedNearIdeal(fills, refRate, band, r, lower, upper);
  }

  lemma InfluenceGap(a: seq<UsableFill>, b: seq<UsableFill>, lower: real, upper: real, x: real, y: real)
    requires SameSizes(a, b) && NearAverage(x, a, lower, upper) && NearAverage(y, b, lower, upper)
    ensures Near(x, y, Leverage(upper - lower, ChangedWeight(a, b), Volume(a)) + 2e-8)
  {
    InfluenceOfSums(a, b, lower, upper, upper - lower);
  }

  lemma InfluenceOfSums(a: seq<UsableFill>, b: seq<UsableFill>, lower: real, upper: real, width: real)
    requires lower <= upper && SameSizes(a, b) && width == upper - lower && Volume(a) > 0.0
    ensures Volume(a) == Volume(b)
    ensures var r := Leverage(width, ChangedWeight(a, b), Volume(a));
            -r <= Average(IdealSum(a, lower, upper), Volume(a)) - Average(IdealSum(b, lower, upper), Volume(b)) <= r
  {
    IdealInfluence(a, b, lower, upper, width);
    DivideGap(width, ChangedWeight(a, b), IdealSum(a, lower, upper), IdealSum(b, lower, upper), Volume(a));
  }

  // ------------------------------------------------------------ the USD legs

  /** Prices are below PRICE_MAX (src/constants.js). */
  const PRICE_MAX: real := 1e10

  function ReferenceRateFromUsd(lastXchainUsd: Option<real>, btcUsd: Option<real>): Option<real> {
    if lastXchainUsd.None? || btcUsd.None? || lastXchainUsd.value <= 0.0 || btcUsd.value <= 0.0 then None
    else Some(BcDiv(lastXchainUsd.value, btcUsd.value, Eighteen))
  }

  function ToUsd(xchainBtc: Option<real>, btcUsd: Option<real>): Option<real> {
    if xchainBtc.None? || btcUsd.None? || xchainBtc.value <= 0.0 || btcUsd.value <= 0.0 then None
    else Some(ToFixed(BcMul(xchainBtc.value, btcUsd.value, Eight), Eight))
  }

  lemma RoundTripGap(q: real, r: real, b: real, usd: real)
    requires 0.0 < b < 1e10 && q * b == usd && -0.5e-18 <= r - q <= 0.5e-18
    ensures -0.5e-8 < r * b - usd < 0.5e-8
  {
    SubScale(r, q, b, r * b, usd);
    SmallGap(r - q, b, r * b - usd);
  }

  lemma SmallGap(gap: real, b: real, scaled: real)
    requires 0.0 < b < 1e10 && -0.5e-18 <= gap <= 0.5e-18 && scaled == gap * b
    ensures -0.5e-8 < scaled < 0.5e-8
  {
    ScaleLe(gap, 0.5e-18, b);
    ScaleLe(-0.5e-18, gap, b);
  }

  lemma NearGrid(grid: real, y: real)
    requires OnGrid(grid, Eight) && grid > 0.0 && -0.5e-8 < y - grid < 0.5e-8
    ensures ToFixed(y, Eight) == grid
  {
    var k := Units(grid, Eight).Floor;
    assert Units(y, Eight) > k as real - 0.5 && Units(y, Eight) < k as real + 0.5;
    assert Nearest(Units(y, Eight)) == k;
  }

  lemma RateNotLost(q: real, b: real, usd: real)
    requires 0.0 < b < 1e10 && q * b == usd && usd >= 1e-8
    ensures q > 1e-18
  {
    if q <= 1e-18 { ScaleLe(q, 1e-18, b); }
  }

  lemma RoundTripParts(usd: real, b: real, q: real, r: real, product: real)
    requires OnGrid(usd, Eight) && usd > 0.0 && 0.0 < b < PRICE_MAX
    requires q * b == usd && r == ToFixed(q, Eighteen) && product == r * b
    ensures r > 0.0 && ToFixed(product, Eight) == usd
  {
    ToFixedError(q, Eighteen);
    assert Units(usd, Eight).Floor as real >= 1.0;
    RateNotLost(q, b, usd);
    RoundTripGap(q, r, b, usd);
    NearGrid(usd, product);
  }

  lemma RoundTripValue(usd: real, btcUsd: real)
    requires OnGrid(usd, Eight) && usd > 0.0 && 0.0 < btcUsd < PRICE_MAX
    ensures BcDiv(usd, btcUsd, Eighteen) > 0.0
    ensures BcMul(BcDiv(usd, btcUsd, Eighteen), btcUsd, Eight) == usd
  {
    Quotient(usd / btcUsd, usd, btcUsd);
    RoundTripParts(usd, btcUsd, usd / btcUsd, BcDiv(usd, btcUsd, Eighteen), BcDiv(usd, btcUsd, Eighteen) * btcUsd);
  }

  /** Below the price ceiling the reference conversion loses nothing: converting a published price to
      BTC terms and back returns it exactly. */
  lemma UsdRoundTrip(usd: real, btcUsd: real)
    requires OnGrid(usd, Eight) && usd > 0.0 && 0.0 < btcUsd < PRICE_MAX
    ensures ToUsd(ReferenceRateFromUsd(Some(usd), Some(btcUsd)), Some(btcUsd)) == Some(usd)
  {
    RoundTripValue(usd, btcUsd);
    ToFixedExact(usd, Eight);
  }

  lemma ProductRounded(a: real, b: real)
    ensures OnGrid(BcMul(a, b, Eight), Eight) && Near(BcMul(a, b, Eight), a * b, 0.5e-8) && ToFixed(BcMul(a, b, Eight), Eight) == BcMul(a, b, Eight)
  {
    var p := a * b;
    OnceRounded(p);
    ToFixedExact(ToFixed(p, Eight), Eight);
  }

  lemma QuotientRounded(a: real, b: real)
    requires b > 0.0
    ensures OnGrid(BcDiv(a, b, Eighteen), Eighteen) && Near(BcDiv(a, b, Eighteen), a / b, 0.5e-18)
  {
    var q := a / b;
    ToFixedError(q, Eighteen);
  }

  /** What the two conversions compute, and exactly when they refuse. */
  lemma UsdLegs(a: Option<real>, btcUsd: Option<real>)
    ensures ToUsd(a, btcUsd).Some? == ReferenceRateFromUsd(a, btcUsd).Some?
            == (a.Some? && btcUsd.Some? && a.value > 0.0 && btcUsd.value > 0.0)
    ensures ToUsd(a, btcUsd).Some? ==> OnGrid(ToUsd(a, btcUsd).value, Eight) && Near(ToUsd(a, btcUsd).value, a.value * btcUsd.value, 0.5e-8)
    ensures ReferenceRateFromUsd(a, btcUsd).Some? ==>
              && OnGrid(ReferenceRateFromUsd(a, btcUsd).value, Eighteen)
              && Near(ReferenceRateFromUsd(a, btcUsd).value, a.value / btcUsd.value, 0.5e-18)
  {
    if a.Some? && btcUsd.Some? && btcUsd.value > 0.0 {
      ProductRounded(a.value, btcUsd.value);
      QuotientRounded(a.value, btcUsd.value);
    }
  }
}
