/** `fitInside` under round-to-nearest: the sides that `FitInside.SideVanishes` leaves to the rounding.

    A value is rounded to 53 significant bits, ties to even, as the binary64 format does for values that neither
    overflow nor underflow. */
module NearestRounding {
  import opened FitInside

  const P52: int := 0x10_0000_0000_0000
  const P53: int := 2 * P52
  const P54: int := 4 * P52

  function Pow2(s: nat): (p: int)
    ensures p > 0
  {
    if s == 0 then 1 else 2 * Pow2(s - 1)
  }

  function NearestEven(x: real): (n: int)
    ensures x - 0.5 <= n as real <= x + 0.5
  {
    var n := x.Floor;
    var part := x - n as real;
    if part < 0.5 || (part == 0.5 && n % 2 == 0) then n else n + 1
  }

  function Scaled(x: real, s: nat): real {
    x * Pow2(s) as real
  }

  /** Whatever the power of two that brings x to 53 bits: the rounded x is the nearest whole number there. */
  ghost predicate IsNearest(fl: real -> real) {
    forall x, s: nat :: LEAST_VALUE <= x <= GREATEST_VALUE && P52 as real <= Scaled(x, s) < P53 as real ==>
      Scaled(fl(x), s) == NearestEven(Scaled(x, s)) as real
  }

  // ---------------------------------------------------------------------------
  // The rounded 1/n, and n times it
  // ---------------------------------------------------------------------------

  function ScaleFrom(n: nat, s: nat): (r: nat)
    requires n > 0 && Pow2(s) < 2 * n * P52
    ensures n * P52 <= Pow2(r) < 2 * n * P52
    decreases 2 * n * P52 - Pow2(s)
  {
    if n * P52 <= Pow2(s) then s else ScaleFrom(n, s + 1)
  }

  /** The power of two that brings 1/n to 53 bits. */
  function Scale(n: nat): (s: nat)
    requires n > 0
    ensures n * P52 <= Pow2(s) < 2 * n * P52
  {
    ScaleFrom(n, 0)
  }

  function Significand(n: nat): int
    requires n > 0
  {
    NearestEven(Pow2(Scale(n)) as real / n as real)
  }

  /** n times the rounded 1/n is rounded to 1, not below it. */
  predicate KeepsOne(n: nat)
    requires n > 0
  {
    (Pow2(Scale(n)) - n * Significand(n)) * P54 <= Pow2(Scale(n))
  }

  lemma ScaledReciprocal(n: nat)
    requires n > 0
    ensures Scaled(Quotient(1, n), Scale(n)) == Pow2(Scale(n)) as real / n as real
    ensures P52 as real <= Scaled(Quotient(1, n), Scale(n)) < P53 as real
  {
    hide Scaled, Quotient, Scale, Pow2;
    ScaledQuotient(n);
    TimesReciprocal(Pow2(Scale(n)) as real, n as real);
    Bracket(n, Pow2(Scale(n)));
  }

  lemma Bracket(n: nat, p: int)
    requires n > 0 && n * P52 <= p < 2 * n * P52
    ensures P52 as real <= p as real / n as real < P53 as real
  {
    hide P52, P53;
    WholeProduct(n, P52, p);
    TwiceProduct(n);
    WholeProduct(n, P53, p);
    QuotientBetween(p as real, n as real, P52 as real, P53 as real);
  }

  lemma TwiceProduct(n: int)
    ensures n * P53 == 2 * n * P52
  {
  }

  lemma ScaledQuotient(n: nat)
    requires n > 0
    ensures Scaled(Quotient(1, n), Scale(n)) == 1.0 / n as real * Pow2(Scale(n)) as real
  {
  }

  lemma WholeProduct(n: int, k: int, p: int)
    ensures n * k <= p <==> n as real * k as real <= p as real
    ensures p < n * k <==> p as real < n as real * k as real
  {
    RealProduct(n, k);
  }

  lemma TimesReciprocal(p: real, d: real)
    requires d > 0.0
    ensures 1.0 / d * p == p / d
  {
    DivMul(1.0, d);
    Associate(d, 1.0 / d, p);
    SameQuotient(1.0 / d * p, p, d);
  }

  lemma Associate(x: real, y: real, z: real)
    ensures x * (y * z) == (x * y) * z
  {
  }

  lemma QuotientBetween(p: real, d: real, lo: real, hi: real)
    requires d > 0.0 && d * lo <= p < d * hi
    ensures lo <= p / d < hi
  {
    DivMul(p, d);
    Cancel(lo, p / d, d);
    Cancel(p / d, hi, d);
  }

  lemma ReciprocalIs(n: nat, fl: real -> real)
    requires 1 < n < SIZE_LIMIT && IsNearest(fl)
    ensures Scaled(fl(Quotient(1, n)), Scale(n)) == Significand(n) as real
  {
    ScaledReciprocal(n);
    QuotientRange(1, n);
  }

  /** The distance of n times the significand from the power of two. */
  lemma SignificandClose(n: int)
    requires n > 0
    ensures -n <= 2 * (Pow2(Scale(n)) - n * Significand(n)) <= n
  {
    var p, d, m := Pow2(Scale(n)) as real, n as real, Significand(n);
    DivMul(p, d);
    CloseProduct(d, p / d, m as real, p);
    RealProduct(m, n);
    assert m * n == n * m;
  }

  lemma CloseProduct(d: real, q: real, m: real, p: real)
    requires d > 0.0 && q * d == p && q - 0.5 <= m <= q + 0.5
    ensures p - 0.5 * d <= m * d <= p + 0.5 * d
  {
    hide Times;
    TimesIs(d, q);
    TimesIs(d, m);
    TimesIs(d, 0.5);
    TimesIs(d, -0.5);
    TimesSum(d, q, m - q);
    assert q + (m - q) == m;
    TimesOrder(d, m - q, 0.5);
    TimesOrder(d, -0.5, m - q);
  }

  lemma TimesIs(x: real, y: real)
    ensures Times(x, y) == y * x
  {
  }

  lemma TimesSign(z: real, t: real)
    requires z > 0.0
    ensures (Times(z, t) > 0.0 <==> t > 0.0) && (Times(z, t) < 0.0 <==> t < 0.0)
  {
    if t > 0.0 {
      MulPos(z, t);
    } else if t < 0.0 {
      MulPos(z, -t);
      assert z * -t == -(z * t);
    }
  }

  lemma TimesOrder(z: real, x: real, c: real)
    requires z > 0.0
    ensures (x <= c <==> Times(z, x) <= Times(z, c)) && (x < c <==> Times(z, x) < Times(z, c))
  {
    hide Times;
    TimesSum(z, x, c - x);
    assert x + (c - x) == c;
    TimesSign(z, c - x);
  }

  /** y = n fl(1/n), whose distance from 1 is (2^s - n m) / 2^s. */
  lemma ScaledProduct(n: nat, fl: real -> real)
    requires 1 < n < SIZE_LIMIT && IsNearest(fl)
    ensures Scaled(Side(n, fl(Quotient(1, n))), Scale(n)) == (n * Significand(n)) as real
  {
    ReciprocalIs(n, fl);
    Associate(n as real, fl(Quotient(1, n)), Pow2(Scale(n)) as real);
    RealProduct(n, Significand(n));
  }

  lemma OneIsExact(fl: real -> real)
    requires IsNearest(fl)
    ensures fl(1.0) == 1.0
  {
    Pow52();
    WholeIsNearest(P52);
    assert Scaled(1.0, 52) == P52 as real;
    hide NearestEven;
    assert Scaled(fl(1.0), 52) == P52 as real;
    Cancel(fl(1.0), 1.0, P52 as real);
    Cancel(1.0, fl(1.0), P52 as real);
  }

  lemma WholeIsNearest(n: int)
    ensures NearestEven(n as real) == n
  {
  }

  lemma Pow52()
    ensures Pow2(52) == P52 && Pow2(53) == P53
  {
    assert Pow2(10) == 1024;
    assert Pow2(20) == 1048576;
    assert Pow2(30) == 1073741824;
    assert Pow2(40) == 1099511627776;
    assert Pow2(50) == 1125899906842624;
  }

  /** A product at least 1 and hardly more is rounded to something from 1 to below 2. */
  lemma AtLeastOneStays(y: real, fl: real -> real)
    requires IsRounding(fl) && IsNearest(fl) && 1.0 <= y <= 1.5
    ensures Truncate(fl(y)) == 1
  {
    OneIsExact(fl);
    assert fl(1.0) <= fl(y) <= y + y * EPS < 2.0;
  }

  /** A product at most one unit of 2^-53 below 1 is rounded to 1 if and only if it is at most half a unit below. */
  lemma JustBelowOne(y: real, fl: real -> real)
    requires IsNearest(fl) && P53 as real - 1.0 <= y * P53 as real < P53 as real
    ensures Truncate(fl(y)) == if P53 as real - y * P53 as real <= 0.5 then 1 else 0
  {
    Pow52();
    var z, p := y * P53 as real, P53 as real;
    assert Scaled(y, 53) == z;
    assert LEAST_VALUE <= y <= GREATEST_VALUE by {
      Cancel(0.5, y, p);
      Cancel(y, 1.0, p);
    }
    assert z.Floor == P53 - 1 && (P53 - 1) % 2 == 1;
    var n := NearestEven(z);
    assert n == if p - z <= 0.5 then P53 else P53 - 1;
    assert Scaled(fl(y), 53) == fl(y) * p == n as real;
    PlaceOfQuotient(fl(y), p, n as real);
  }

  lemma PlaceOfQuotient(x: real, p: real, px: real)
    requires p > 1.0 && x * p == px && (px == p || px == p - 1.0)
    ensures Truncate(x) == if px == p then 1 else 0
  {
    Cancel(x, 1.0, p);
    Cancel(1.0, x, p);
    Cancel(0.0, x, p);
    Cancel(x, 2.0, p);
  }

  /** n times the rounded 1/n, rounded and truncated. */
  lemma ProductOfReciprocal(n: nat, fl: real -> real)
    requires 1 < n < SIZE_LIMIT && IsRounding(fl) && IsNearest(fl)
    ensures Truncate(fl(Side(n, fl(Quotient(1, n))))) == if KeepsOne(n) then 1 else 0
  {
    hide Truncate, IsNearest, IsRounding, Quotient, Side, Significand, Scale, Pow2;
    ScaledProduct(n, fl);
    SignificandClose(n);
    var y, p, d := Side(n, fl(Quotient(1, n))), Pow2(Scale(n)), Pow2(Scale(n)) - n * Significand(n);
    assert y * p as real == (p - d) as real;
    if d <= 0 {
      SlightlyMore(y, p, d, n);
      AtLeastOneStays(y, fl);
    } else {
      SlightlyLess(y, p, d, n);
      JustBelowOne(y, fl);
    }
  }

  lemma Against(x: real, c: real, z: real, xz: real)
    requires 0.0 < z && x * z == xz
    ensures (x <= c <==> xz <= c * z) && (x < c <==> xz < c * z)
  {
    hide Times;
    TimesIs(z, x);
    TimesIs(z, c);
    TimesOrder(z, x, c);
  }

  lemma SlightlyMore(y: real, p: int, d: int, n: int)
    requires 0 < n && n * P52 <= p && -n <= 2 * d <= 0 && y * p as real == (p - d) as real
    ensures 1.0 <= y <= 1.5 && d * P54 <= p
  {
    Against(y, 1.0, p as real, (p - d) as real);
    Against(y, 1.5, p as real, (p - d) as real);
  }

  lemma SlightlyLess(y: real, p: int, d: int, n: int)
    requires 0 < n && n * P52 <= p && 0 < 2 * d <= n && y * p as real == (p - d) as real
    ensures P53 as real - 1.0 <= y * P53 as real < P53 as real
    ensures P53 as real - y * P53 as real <= 0.5 <==> d * P54 <= p
  {
    RealProduct(P53, d);
    GapIs(p as real, y, P53 as real, d as real);
    PlaceGap(p as real, (P53 * d) as real, P53 as real - y * P53 as real);
  }

  lemma GapIs(p: real, y: real, k: real, d: real)
    requires y * p == p - d
    ensures (k - y * k) * p == k * d
  {
    Distribute(k, y * k, p);
    Associate(k, y, p);
    Distribute(p, d, k);
  }

  lemma PlaceGap(p: real, kd: real, gap: real)
    requires 0.0 < kd <= p && gap * p == kd
    ensures 0.0 < gap <= 1.0 && (gap <= 0.5 <==> 2.0 * kd <= p)
  {
    Against(gap, 0.0, p, kd);
    Against(gap, 1.0, p, kd);
    Against(gap, 0.5, p, kd);
  }

  // ---------------------------------------------------------------------------
  // When a side vanishes in float64
  // ---------------------------------------------------------------------------

  /** The ratio is the rounded 1/srcH where the exact height is 1. */
  lemma RatioIsReciprocal(srcW: int, srcH: int, maxW: int, maxH: int, fl: real -> real)
    requires InRange(srcW, srcH, maxW, maxH) && IsRounding(fl)
    requires srcH * maxW == srcW || (srcH * maxW > srcW && maxH == 1)
    ensures ComputedRatio(srcW, srcH, maxW, maxH, fl) == fl(Quotient(1, srcH))
  {
    hide IsRounding;
    DivLess(1, srcH, maxW, srcW);
    DivLess(maxW, srcW, 1, srcH);
    DivLess(1, srcH, maxH, srcH);
    IntMulMono(1, maxH, srcH);
    assert maxW * srcH == srcH * maxW;
    KeepsOrder(Quotient(1, srcH), Quotient(maxW, srcW), fl);
    KeepsOrder(Quotient(1, srcH), Quotient(maxH, srcH), fl);
  }

  lemma KeepsOrder(x: real, y: real, fl: real -> real)
    requires IsRounding(fl) && x <= y
    ensures fl(x) <= fl(y)
  {
  }

  /** Under round-to-nearest the height is 0 exactly if the exact height is less than 1, or it is 1 and srcH times
      the rounded 1/srcH falls short of 1. */
  lemma HeightIsZeroIff(srcW: int, srcH: int, maxW: int, maxH: int, fl: real -> real)
    requires InRange(srcW, srcH, maxW, maxH) && Scales(srcW, srcH, maxW, maxH)
    requires IsRounding(fl) && IsNearest(fl)
    ensures Computed(srcW, srcH, maxW, maxH, fl).1 == 0 <==>
            srcH * maxW < srcW || ((srcH * maxW == srcW || maxH == 1) && !KeepsOne(srcH))
  {
    hide IsRounding, IsNearest, KeepsOne, Truncate, ComputedRatio, Quotient, Side;
    if srcH * maxW == srcW || (srcH * maxW > srcW && maxH == 1) {
      MoreThanOne(srcW, srcH, maxW, maxH);
      RatioIsReciprocal(srcW, srcH, maxW, maxH, fl);
      ProductOfReciprocal(srcH, fl);
    } else {
      var e := ComputedIsRounded(srcW, srcH, maxW, maxH, fl);
      HeightNearOne(srcW, srcH, maxW, maxH, e);
    }
  }

  lemma MoreThanOne(srcW: int, srcH: int, maxW: int, maxH: int)
    requires InRange(srcW, srcH, maxW, maxH) && Scales(srcW, srcH, maxW, maxH)
    requires srcH * maxW >= srcW
    ensures srcH > 1
  {
  }

  /** Width and height change places. */
  lemma Mirrored(srcW: int, srcH: int, maxW: int, maxH: int, fl: real -> real)
    requires InRange(srcW, srcH, maxW, maxH)
    ensures Computed(srcW, srcH, maxW, maxH, fl).0 == Computed(srcH, srcW, maxH, maxW, fl).1
  {
  }

  /** And the width likewise. */
  lemma WidthIsZeroIff(srcW: int, srcH: int, maxW: int, maxH: int, fl: real -> real)
    requires InRange(srcW, srcH, maxW, maxH) && Scales(srcW, srcH, maxW, maxH)
    requires IsRounding(fl) && IsNearest(fl)
    ensures Computed(srcW, srcH, maxW, maxH, fl).0 == 0 <==>
            srcW * maxH < srcH || ((srcW * maxH == srcH || maxW == 1) && !KeepsOne(srcW))
  {
    Mirrored(srcW, srcH, maxW, maxH, fl);
    HeightIsZeroIff(srcH, srcW, maxH, maxW, fl);
  }

  lemma FortyNine()
    ensures !KeepsOne(49)
  {
    Pow52();
    assert Pow2(58) == 64 * P52;
    ScaleIs(49, 58);
    assert Significand(49) == 5882252574524729;
  }

  lemma {:induction false} PowGrows(s: nat, t: nat)
    requires s < t
    ensures 2 * Pow2(s) <= Pow2(t)
    decreases t
  {
    if s < t - 1 {
      PowGrows(s, t - 1);
    }
  }

  lemma ScaleIs(n: nat, s: nat)
    requires n > 0 && n * P52 <= Pow2(s) < 2 * n * P52
    ensures Scale(n) == s
  {
    if Scale(n) < s {
      PowGrows(Scale(n), s);
    } else if s < Scale(n) {
      PowGrows(s, Scale(n));
    }
  }

  /** In float64, 29400 x 49 into 600 x 600 has height 0. */
  lemma LongImageInFloat64(fl: real -> real)
    requires IsRounding(fl) && IsNearest(fl)
    ensures Computed(29400, 49, 600, 600, fl).1 == 0
  {
    FortyNine();
    HeightIsZeroIff(29400, 49, 600, 600, fl);
  }
}
