/** Discounted-cash-flow pricing of a bond and the bid/ask quote around its mid
    price (domain/pricing.py). Money, rates and spreads are exact reals. */
module Pricing {

  /** x raised to a natural power, as Python's `x ** n` for an int exponent. */
  function Pow(x: real, n: nat): (r: real)
    ensures x != 0.0 ==> r != 0.0
    ensures x > 0.0 ==> r > 0.0
  {
    if n == 0 then 1.0 else x * Pow(x, n - 1)
  }

  /** The smallest integer not below x, as Python's `math.ceil`. */
  function Ceil(x: real): (c: int)
    ensures c as real - 1.0 < x <= c as real
  {
    -((-x).Floor)
  }

  /** N = max(0, ceil(max(0, years) * freq)): the number of coupon periods left. */
  function Periods(years: real, freq: int): (n: nat)
    requires freq > 0
    ensures years <= 0.0 ==> n == 0
    ensures years > 0.0 ==> (n - 1) as real < years * freq as real <= n as real
  {
    var t := if years < 0.0 then 0.0 else years;
    var c := Ceil(t * freq as real);
    if c < 0 then 0 else c
  }

  /** The per-period discount rate i = ytm / freq. */
  function PeriodRate(ytm: real, freq: int): real
    requires freq > 0
  {
    ytm / freq as real
  }

  /** The per-period coupon C = face * (couponRate / freq). */
  function PeriodCoupon(face: real, couponRate: real, freq: int): real
    requires freq > 0
  {
    face * (couponRate / freq as real)
  }

  /** Sum over k = 1..n of c / q^k: the present value of n coupons of c at growth factor q. */
  function CouponSum(c: real, q: real, n: nat): real
    requires q != 0.0
  {
    if n == 0 then 0.0 else CouponSum(c, q, n - 1) + c / Pow(q, n)
  }

  /** Python raises ZeroDivisionError when 1 + i == 0 and some period is discounted;
      every other input is priced. */
  predicate Priceable(freq: int, years: real, ytm: real)
  {
    freq > 0 && Periods(years, freq) > 0 ==> 1.0 + ytm / freq as real != 0.0
  }

  /** The mid price price_bond_mid computes: face value when freq <= 0, otherwise
      the discounted coupons plus the discounted principal. */
  function MidPrice(face: real, couponRate: real, freq: int, years: real, ytm: real): real
    requires Priceable(freq, years, ytm)
  {
    if freq <= 0 then face
    else
      var n := Periods(years, freq);
      var q := 1.0 + PeriodRate(ytm, freq);
      if n == 0 then face
      else CouponSum(PeriodCoupon(face, couponRate, freq), q, n) + face / Pow(q, n)
  }

  /** price_bond_mid: the loop accumulates the discounted coupons one period at a time. */
  method PriceBondMid(face: real, couponRate: real, freq: int, years: real, ytm: real)
    returns (price: real)
    requires Priceable(freq, years, ytm)
    ensures price == MidPrice(face, couponRate, freq, years, ytm)
  {
    if freq <= 0 {
      return face;
    }
    var n := Periods(years, freq);
    var i := ytm / freq as real;
    var c := face * (couponRate / freq as real);
    assert c == PeriodCoupon(face, couponRate, freq) && i == PeriodRate(ytm, freq);
    var pvCoupons := 0.0;
    if n > 0 {
      assert 1.0 + i != 0.0;
      for k := 1 to n + 1
        invariant pvCoupons == CouponSum(c, 1.0 + i, k - 1)
      {
        pvCoupons := pvCoupons + c / Pow(1.0 + i, k);
      }
    }
    var pvPrincipal := if n > 0 then face / Pow(1.0 + i, n) else face;
    price := pvCoupons + pvPrincipal;
  }

  /** bid_ask_from_mid: the quote widens the mid by bidBp below and askBp above. */
  function BidAsk(mid: real, bidBp: real, askBp: real): (r: (real, real))
    ensures mid >= 0.0 && bidBp >= 0.0 ==> r.0 <= mid
    ensures mid >= 0.0 && askBp >= 0.0 ==> mid <= r.1
    ensures bidBp == 0.0 ==> r.0 == mid
    ensures askBp == 0.0 ==> r.1 == mid
    ensures r.1 - r.0 == mid * (bidBp + askBp) / 10000.0
  {
    (mid * (1.0 - bidBp / 10000.0), mid * (1.0 + askBp / 10000.0))
  }

  /** A positive mid and a bid spread under 100% give a positive bid. */
  lemma BidPositive(mid: real, bidBp: real, askBp: real)
    requires mid > 0.0 && bidBp < 10000.0
    ensures BidAsk(mid, bidBp, askBp).0 > 0.0
  {
    var f := 1.0 - bidBp / 10000.0;
    assert f > 0.0;
    assert mid * f > 0.0;
  }

  // ---------------------------------------------------------------------------
  // Properties of the mid price

  /** A bond with no coupon frequency, or with no time left, is priced at face value. */
  lemma FaceValueWhenNoPeriods(face: real, couponRate: real, freq: int, years: real, ytm: real)
    requires freq <= 0 || years <= 0.0
    ensures Priceable(freq, years, ytm)
    ensures MidPrice(face, couponRate, freq, years, ytm) == face
  {
  }

  /** A bond with time left and a positive frequency has at least one period to discount. */
  lemma PeriodsPositive(years: real, freq: int)
    requires freq > 0 && years > 0.0
    ensures Periods(years, freq) >= 1
  {
    assert years * freq as real > 0.0;
  }

  lemma {:induction false} PowOne(n: nat)
    ensures Pow(1.0, n) == 1.0
  {
    if n > 0 {
      PowOne(n - 1);
    }
  }

  /** Undiscounted coupons simply add up. */
  lemma {:induction false} CouponSumUndiscounted(c: real, n: nat)
    ensures CouponSum(c, 1.0, n) == n as real * c
  {
    if n > 0 {
      CouponSumUndiscounted(c, n - 1);
      PowOne(n);
    }
  }

  /** With a zero yield the price is the face value plus N coupons. */
  lemma ZeroYieldPrice(face: real, couponRate: real, freq: int, years: real)
    requires freq > 0
    ensures Priceable(freq, years, 0.0)
    ensures MidPrice(face, couponRate, freq, years, 0.0)
         == face + Periods(years, freq) as real * PeriodCoupon(face, couponRate, freq)
  {
    var n := Periods(years, freq);
    assert PeriodRate(0.0, freq) == 0.0;
    if n > 0 {
      CouponSumUndiscounted(PeriodCoupon(face, couponRate, freq), n);
      PowOne(n);
    }
  }

  /** One period of the annuity identity, over plain reals: p stands for q^(n-1), pn for
      q^n, s for the sum of n-1 coupons and sn for the sum of n. */
  lemma AnnuityStep(s: real, c: real, q: real, p: real, pn: real, sn: real)
    requires q != 0.0 && p != 0.0
    requires pn == q * p && sn == s + c / pn
    requires s * (q - 1.0) == c * (1.0 - 1.0 / p)
    ensures sn * (q - 1.0) == c * (1.0 - 1.0 / pn)
  {
    var u := 1.0 / p;
    var w := 1.0 / pn;
    assert u * p == 1.0;
    assert w * q * p == 1.0;
    assert (w * q - u) * p == 0.0;
    assert w * q == u;
    assert c / pn == c * w;
    calc {
      sn * (q - 1.0);
      (s + c * w) * (q - 1.0);
      s * (q - 1.0) + c * (w * q) - c * w;
      c * (1.0 - u) + c * u - c * w;
      c * (1.0 - w);
    }
  }

  /** One more period: one more factor q and one more discounted coupon. */
  lemma CouponSumStep(c: real, q: real, n: nat)
    requires q != 0.0 && n > 0
    ensures Pow(q, n - 1) != 0.0 && Pow(q, n) == q * Pow(q, n - 1)
    ensures CouponSum(c, q, n) == CouponSum(c, q, n - 1) + c / Pow(q, n)
  {
  }

  /** The annuity formula for n periods from the one for n - 1. */
  lemma ClosedFormStep(c: real, q: real, n: nat)
    requires q != 0.0 && n > 0
    requires CouponSum(c, q, n - 1) * (q - 1.0) == c * (1.0 - 1.0 / Pow(q, n - 1))
    ensures CouponSum(c, q, n) * (q - 1.0) == c * (1.0 - 1.0 / Pow(q, n))
  {
    CouponSumStep(c, q, n);
    AnnuityStep(CouponSum(c, q, n - 1), c, q, Pow(q, n - 1), Pow(q, n), CouponSum(c, q, n));
  }

  /** The annuity formula: n coupons of c discounted at factor q are worth
      c * (1 - q^-n) / (q - 1), stated without dividing by q - 1. */
  lemma {:induction false} CouponSumClosedForm(c: real, q: real, n: nat)
    requires q != 0.0
    ensures CouponSum(c, q, n) * (q - 1.0) == c * (1.0 - 1.0 / Pow(q, n))
  {
    if n > 0 {
      CouponSumClosedForm(c, q, n - 1);
      ClosedFormStep(c, q, n);
    }
  }

  /** Over plain reals: a coupon of face * i and the face, both discounted one period
      further (by q = 1 + i), are together worth the face discounted by p. */
  lemma ParStep(face: real, i: real, p: real, pn: real, s: real, sn: real)
    requires 1.0 + i != 0.0 && p != 0.0 && pn == (1.0 + i) * p
    requires sn == s + face * i / pn && s + face / p == face
    ensures sn + face / pn == face
  {
    assert face * i / pn + face / pn == face * (1.0 + i) / pn;
    assert face * (1.0 + i) / pn == face / p;
  }

  /** The par identity for n periods from the one for n - 1. */
  lemma DiscountStep(face: real, i: real, n: nat)
    requires 1.0 + i != 0.0 && n > 0
    requires CouponSum(face * i, 1.0 + i, n - 1) + face / Pow(1.0 + i, n - 1) == face
    ensures CouponSum(face * i, 1.0 + i, n) + face / Pow(1.0 + i, n) == face
  {
    CouponSumStep(face * i, 1.0 + i, n);
    ParStep(face, i, Pow(1.0 + i, n - 1), Pow(1.0 + i, n),
            CouponSum(face * i, 1.0 + i, n - 1), CouponSum(face * i, 1.0 + i, n));
  }

  /** Coupons of face * i discounted at 1 + i, plus the discounted face, add up to face. */
  lemma {:induction false} DiscountedAtCouponRate(face: real, i: real, n: nat)
    requires 1.0 + i != 0.0
    ensures CouponSum(face * i, 1.0 + i, n) + face / Pow(1.0 + i, n) == face
  {
    if n > 0 {
      DiscountedAtCouponRate(face, i, n - 1);
      DiscountStep(face, i, n);
    }
  }

  /** A bond whose coupon rate equals its yield is priced at par. */
  lemma ParBondAtPar(face: real, rate: real, freq: int, years: real)
    requires Priceable(freq, years, rate)
    ensures MidPrice(face, rate, freq, years, rate) == face
  {
    if freq > 0 && Periods(years, freq) > 0 {
      var i := PeriodRate(rate, freq);
      assert PeriodCoupon(face, rate, freq) == face * i;
      DiscountedAtCouponRate(face, i, Periods(years, freq));
    }
  }

  /** Discounting a non-negative coupon stream at a positive factor gives a non-negative value. */
  lemma {:induction false} CouponSumNonNegative(c: real, q: real, n: nat)
    requires c >= 0.0 && q > 0.0
    ensures CouponSum(c, q, n) >= 0.0
  {
    if n > 0 {
      CouponSumNonNegative(c, q, n - 1);
      assert c / Pow(q, n) >= 0.0;
    }
  }

  /** With a positive face, non-negative coupons and a positive discount factor the mid
      price is positive. */
  lemma MidPricePositive(face: real, couponRate: real, freq: int, years: real, ytm: real)
    requires face > 0.0 && couponRate >= 0.0
    requires freq > 0 ==> 1.0 + ytm / freq as real > 0.0
    ensures Priceable(freq, years, ytm)
    ensures MidPrice(face, couponRate, freq, years, ytm) > 0.0
  {
    if freq > 0 && Periods(years, freq) > 0 {
      var q := 1.0 + PeriodRate(ytm, freq);
      var n := Periods(years, freq);
      assert couponRate / freq as real >= 0.0;
      CouponSumNonNegative(PeriodCoupon(face, couponRate, freq), q, n);
      assert face / Pow(q, n) > 0.0;
    }
  }

  lemma ProductLess(a: real, b: real, x: real, y: real)
    requires 0.0 < a < b && 0.0 < x <= y
    ensures a * x < b * y
  {
    assert a * x <= a * y;
    assert a * y < b * y;
  }

  /** Raising a larger positive factor to a positive power gives a larger result. */
  lemma {:induction false} PowStrictlyIncreasing(q1: real, q2: real, n: nat)
    requires 0.0 < q1 < q2 && n >= 1
    ensures Pow(q1, n) < Pow(q2, n)
  {
    if n > 1 {
      PowStrictlyIncreasing(q1, q2, n - 1);
    }
    ProductLess(q1, q2, Pow(q1, n - 1), Pow(q2, n - 1));
  }

  lemma DivideByLarger(c: real, x: real, y: real)
    requires c >= 0.0 && 0.0 < x < y
    ensures c / y <= c / x
    ensures c > 0.0 ==> c / y < c / x
  {
    assert c / y * y == c && c / x * x == c;
    assert c / y * x <= c / y * y;
    if c > 0.0 {
      assert c / y * x < c / y * y;
    }
  }

  /** Discounting the same coupons at a larger factor never gives more. */
  lemma {:induction false} CouponSumFallsWithFactor(c: real, q1: real, q2: real, n: nat)
    requires c >= 0.0 && 0.0 < q1 < q2
    ensures CouponSum(c, q2, n) <= CouponSum(c, q1, n)
  {
    if n > 0 {
      CouponSumFallsWithFactor(c, q1, q2, n - 1);
      PowStrictlyIncreasing(q1, q2, n);
      DivideByLarger(c, Pow(q1, n), Pow(q2, n));
    }
  }

  /** The price/yield inverse relation: for a bond with time left, a higher yield
      gives a strictly lower mid price. */
  lemma PriceFallsAsYieldRises(face: real, couponRate: real, freq: int, years: real,
                               ytm1: real, ytm2: real)
    requires face > 0.0 && couponRate >= 0.0 && freq > 0 && years > 0.0
    requires ytm1 < ytm2 && 1.0 + ytm1 / freq as real > 0.0
    ensures Priceable(freq, years, ytm1) && Priceable(freq, years, ytm2)
    ensures MidPrice(face, couponRate, freq, years, ytm2) < MidPrice(face, couponRate, freq, years, ytm1)
  {
    var n := Periods(years, freq);
    PeriodsPositive(years, freq);
    var q1 := 1.0 + PeriodRate(ytm1, freq);
    var q2 := 1.0 + PeriodRate(ytm2, freq);
    assert ytm1 / freq as real < ytm2 / freq as real;
    var c := PeriodCoupon(face, couponRate, freq);
    assert couponRate / freq as real >= 0.0;
    CouponSumFallsWithFactor(c, q1, q2, n);
    PowStrictlyIncreasing(q1, q2, n);
    DivideByLarger(face, Pow(q1, n), Pow(q2, n));
  }

  /** The semi-annual three-year bond B1 (face 1000, coupon 6%, yield 80 bp): six coupons
      of 30 and the principal, each discounted at 0.4% per period. */
  lemma SemiannualThreeYearExample()
    ensures Priceable(2, 3.0, 0.008)
    ensures MidPrice(1000.0, 0.06, 2, 3.0, 0.008)
         == CouponSum(30.0, 1.004, 6) + 1000.0 / Pow(1.004, 6)
  {
    assert Periods(3.0, 2) == 6;
  }
}
