/** The price ladder (`levelQuote`), in integer base units throughout. */
module Ladder {

  /** What the maker escrows and what it expects back. */
  datatype Quote = Quote(fromAmount: nat, toAmount: nat)

  /** Mid in milli-QRL per whole asset unit, step in basis points per rung, and the
      rung-0 size in the asset's base units. */
  datatype Pair = Pair(baseUnits: nat, midMilli: nat, stepBps: nat, decimals: nat)

  function Pow10(n: nat): nat { if n == 0 then 1 else 10 * Pow10(n - 1) }

  function Units(p: Pair, level: nat): nat { p.baseUnits * (level + 1) }

  function OffsetBps(p: Pair, level: nat): nat { p.stepBps * (level + 1) }

  /** An offset beyond 100% makes the source's bid price negative; see BidPrice. */
  function AskPrice(p: Pair, level: nat): nat { p.midMilli * (10_000 + OffsetBps(p, level)) / 10_000 }

  function BidPrice(p: Pair, level: nat): nat
    requires OffsetBps(p, level) <= 10_000
  {
    p.midMilli * (10_000 - OffsetBps(p, level)) / 10_000
  }

  function QrlWei(p: Pair, units: nat, priceMilli: nat): nat
    requires p.decimals <= 18
  {
    units * priceMilli * Pow10(18 - p.decimals) / 1000
  }

  function LevelQuote(p: Pair, ask: bool, level: nat): Quote
    requires p.decimals <= 18 && (ask || OffsetBps(p, level) <= 10_000)
  {
    var units := Units(p, level);
    if ask then Quote(units, QrlWei(p, units, AskPrice(p, level)))
    else Quote(QrlWei(p, units, BidPrice(p, level)), units)
  }

  /** What a rung is: n + 1 times the base size, n + 1 steps from the mid, above it for an
      ask and below it for a bid, each price and each total rounded down once. */
  lemma RungsExactly(p: Pair, level: nat)
    requires p.decimals <= 18 && OffsetBps(p, level) <= 10_000
    ensures var ask, bid := LevelQuote(p, true, level), LevelQuote(p, false, level);
      && ask.fromAmount == bid.toAmount == p.baseUnits * (level + 1)
      && IsFloor(AskPrice(p, level), p.midMilli * (10_000 + p.stepBps * (level + 1)), 10_000)
      && IsFloor(BidPrice(p, level), p.midMilli * (10_000 - p.stepBps * (level + 1)), 10_000)
      && IsFloor(ask.toAmount, ask.fromAmount * AskPrice(p, level) * Pow10(18 - p.decimals), 1000)
      && IsFloor(bid.fromAmount, bid.toAmount * BidPrice(p, level) * Pow10(18 - p.decimals), 1000)
  {
  }

  /** `q` is `a` over `d`, rounded down. */
  predicate IsFloor(q: nat, a: nat, d: nat) { q * d <= a < (q + 1) * d }

  // ---- the two floor divisions ----

  lemma DivBounds(a: nat, d: nat)
    requires d > 0
    ensures a / d * d <= a < a / d * d + d
  {
  }

  lemma PricesStraddleMid(p: Pair, askLevel: nat, bidLevel: nat)
    requires p.midMilli >= 1 && p.stepBps >= 1 && OffsetBps(p, bidLevel) <= 10_000
    ensures BidPrice(p, bidLevel) + 1 <= p.midMilli <= AskPrice(p, askLevel)
  {
    var m, up, down := p.midMilli, OffsetBps(p, askLevel), OffsetBps(p, bidLevel);
    assert m * (10_000 + up) == m * 10_000 + m * up;
    assert down >= 1 by {
      assert p.stepBps * (bidLevel + 1) == p.stepBps * bidLevel + p.stepBps;
    }
    assert m * (10_000 - down) == m * 10_000 - m * down;
    assert m * down >= m >= 1 by { Grows(m, 1, down); }
    DivBounds(m * (10_000 + up), 10_000);
    DivBounds(m * (10_000 - down), 10_000);
  }

  lemma Grows(m: nat, a: nat, b: nat)
    requires a <= b
    ensures m * a <= m * b
  {
  }

  /** Scaling a bound on x by a factor. */
  lemma MulMono(x: nat, y: nat, k: nat)
    requires x <= y
    ensures x * k <= y * k
  {
  }

  /** A taker who buys at this ask and sells at that bid gains nothing per unit. */
  predicate NoGain(ua: nat, ub: nat, low: nat, high: nat, scale: nat) {
    ub * low * scale / 1000 * ua <= ua * high * scale / 1000 * ub
  }

  /** What the ask receives after rounding still covers its size at the bid's price. */
  predicate AskCovers(ua: nat, low: nat, high: nat, scale: nat) {
    ua * low * scale <= ua * high * scale / 1000 * 1000
  }

  lemma CoveredAskHolds(ua: nat, ub: nat, low: nat, high: nat, scale: nat)
    requires AskCovers(ua, low, high, scale)
    ensures NoGain(ua, ub, low, high, scale)
  {
    var qb, qa := ub * low * scale / 1000, ua * high * scale / 1000;
    var a, b := ua * low * scale, ub * low * scale;
    DivBounds(b, 1000);
    calc {
      1000 * (qb * ua);
      == (qb * 1000) * ua;
      <= { MulMono(qb * 1000, b, ua); } b * ua;
      == { Shuffle(ua, ub, low, scale); } a * ub;
      <= { MulMono(a, qa * 1000, ub); } (qa * 1000) * ub;
      == 1000 * (qa * ub);
    }
  }

  /** A bid of a thousand units is not rounded at all, so it shows any uncovered ask. */
  lemma UncoveredAskLeaks(ua: nat, low: nat, high: nat, scale: nat)
    requires !AskCovers(ua, low, high, scale)
    ensures !NoGain(ua, 1000, low, high, scale)
  {
    var k := low * scale;
    assert 1000 * low * scale == k * 1000;
    assert k * 1000 / 1000 == k;
    assert ua * low * scale == k * ua;
  }

  /** Despite both divisions no bid size gains, exactly when the ask is covered. */
  lemma FloorsKeepOrderExactly(ua: nat, low: nat, high: nat, scale: nat)
    ensures (forall ub: nat :: NoGain(ua, ub, low, high, scale)) <==> AskCovers(ua, low, high, scale)
  {
    if AskCovers(ua, low, high, scale) {
      forall ub: nat ensures NoGain(ua, ub, low, high, scale) { CoveredAskHolds(ua, ub, low, high, scale); }
    } else {
      UncoveredAskLeaks(ua, low, high, scale);
    }
  }

  /** A thousand wei-sized steps cover any price gap. */
  lemma ThousandCovers(ua: nat, low: nat, high: nat, scale: nat)
    requires ua * scale >= 1000 && low + 1 <= high
    ensures AskCovers(ua, low, high, scale)
  {
    assert ua * high * scale >= ua * low * scale + ua * scale by {
      assert ua * (low + 1) == ua * low + ua;
      MulMono(ua * (low + 1), ua * high, scale) by { Grows(ua, low + 1, high); }
      assert (ua * low + ua) * scale == ua * low * scale + ua * scale;
    }
    DivBounds(ua * high * scale, 1000);
  }

  lemma Shuffle(ua: nat, ub: nat, low: nat, scale: nat)
    ensures ub * low * scale * ua == ua * low * scale * ub
  {
    var k := low * scale;
    assert ub * low * scale == ub * k;
    assert ua * low * scale == ua * k;
    assert ub * k * ua == ub * (k * ua) == ub * (ua * k) == (ua * k) * ub;
  }

  /** No free round trip: per asset unit, the QRL paid on any bid rung never exceeds the
      QRL received on an ask rung of at least a thousand wei-sized steps: any size of an
      asset with up to 15 decimals, 1000 base units at 18. */
  lemma NoFreeRoundTrip(p: Pair, askLevel: nat, bidLevel: nat)
    requires p.midMilli >= 1 && p.stepBps >= 1 && p.decimals <= 18
    requires Units(p, askLevel) * Pow10(18 - p.decimals) >= 1000
    requires OffsetBps(p, bidLevel) <= 10_000
    ensures var ask, bid := LevelQuote(p, true, askLevel), LevelQuote(p, false, bidLevel);
      bid.fromAmount * ask.fromAmount <= ask.toAmount * bid.toAmount
  {
    PricesStraddleMid(p, askLevel, bidLevel);
    var ua, ub, low, high, scale :=
      Units(p, askLevel), Units(p, bidLevel), BidPrice(p, bidLevel), AskPrice(p, askLevel), Pow10(18 - p.decimals);
    ThousandCovers(ua, low, high, scale);
    CoveredAskHolds(ua, ub, low, high, scale);
  }

  /** Coarse assets meet that floor at every size. */
  lemma CoarseAssetsAlwaysCover(p: Pair, level: nat)
    requires p.baseUnits >= 1 && p.decimals <= 15
    ensures Units(p, level) * Pow10(18 - p.decimals) >= 1000
  {
    PowAtLeast(18 - p.decimals);
    assert Units(p, level) >= 1 by { Grows(p.baseUnits, 1, level + 1); }
    MulMono(1, Units(p, level), Pow10(18 - p.decimals));
  }

  lemma {:induction false} PowAtLeast(n: nat)
    requires n >= 3
    ensures Pow10(n) >= 1000
  {
    if n > 3 { PowAtLeast(n - 1); } else { assert Pow10(3) == 10 * Pow10(2) == 100 * Pow10(1) == 1000; }
  }

  /** The floor matters: at 100 base units of an 18-decimal asset and a mid of two
      milli-QRL, ten listed bid rungs are enough to pay more per unit than the first ask
      receives. */
  lemma SmallSizesLeak()
    ensures var p := Pair(100, 2, 1, 18);
      var ask, bid := LevelQuote(p, true, 0), LevelQuote(p, false, 9);
      bid.fromAmount * ask.fromAmount > ask.toAmount * bid.toAmount
  {
    var p := Pair(100, 2, 1, 18);
    assert Pow10(18 - p.decimals) == 1;
    assert BidPrice(p, 9) == 1 && AskPrice(p, 0) == 2;
  }
}
