/** Resizing that keeps the aspect ratio: internal/processing/processor.go, `fitInside`, and the variant
    sizes of internal/processing/variants.go.

    `Rounded` computes like float64: each division and each multiplication may be off by a relative error of at
    most 2^-53 (the conversions of the sizes are exact). `Computed` takes the rounding as a function, which also
    is monotone. `Exact` computes with real numbers; it is what the others are measured against. */
module FitInside {

  const EPS: real := 1.0 / 9007199254740992.0 // 2^-53
  const DELTA: real := 3.0 * EPS              // two roundings in a row
  const SIZE_LIMIT: int := 0x8000_0000        // sizes are below 2^31
  const PRODUCT_LIMIT: int := 0x8_0000_0000_0000 // 2^51

  /** Either nothing is scaled, or both divisions are defined. */
  predicate Defined(srcW: int, srcH: int, maxW: int, maxH: int) {
    (srcW <= maxW && srcH <= maxH) || (srcW > 0 && srcH > 0)
  }

  predicate InRange(srcW: int, srcH: int, maxW: int, maxH: int) {
    0 < srcW < SIZE_LIMIT && 0 < srcH < SIZE_LIMIT && 0 < maxW < SIZE_LIMIT && 0 < maxH < SIZE_LIMIT
  }

  predicate Scales(srcW: int, srcH: int, maxW: int, maxH: int) {
    !(srcW <= maxW && srcH <= maxH)
  }

  // Go's int(x): truncation toward zero.
  function Truncate(x: real): int {
    if x >= 0.0 then x.Floor else -((-x).Floor)
  }

  function Min(a: real, b: real): real {
    if b < a then b else a
  }

  function Quotient(max: int, src: int): real
    requires src > 0
  {
    max as real / src as real
  }

  function ExactRatio(srcW: int, srcH: int, maxW: int, maxH: int): real
    requires srcW > 0 && srcH > 0
  {
    Min(Quotient(maxW, srcW), Quotient(maxH, srcH))
  }

  /** A scaled side before truncation. */
  function Side(src: int, ratio: real): real {
    src as real * ratio
  }

  function Exact(srcW: int, srcH: int, maxW: int, maxH: int): (int, int)
    requires Defined(srcW, srcH, maxW, maxH)
  {
    if srcW <= maxW && srcH <= maxH then (srcW, srcH)
    else
      var ratio := ExactRatio(srcW, srcH, maxW, maxH);
      (Truncate(Side(srcW, ratio)), Truncate(Side(srcH, ratio)))
  }

  /** The relative errors of the four floating-point operations. */
  datatype Errors = Errors(divW: real, divH: real, mulW: real, mulH: real) {
    ghost predicate Small() {
      -EPS <= divW <= EPS && -EPS <= divH <= EPS && -EPS <= mulW <= EPS && -EPS <= mulH <= EPS
    }
  }

  /** A value with a relative error. */
  function Off(x: real, error: real): real {
    x * (1.0 + error)
  }

  function RoundedRatio(srcW: int, srcH: int, maxW: int, maxH: int, e: Errors): real
    requires srcW > 0 && srcH > 0
  {
    Min(Off(Quotient(maxW, srcW), e.divW), Off(Quotient(maxH, srcH), e.divH))
  }

  function RoundedSide(src: int, ratio: real, error: real): real {
    Off(Side(src, ratio), error)
  }

  function Rounded(srcW: int, srcH: int, maxW: int, maxH: int, e: Errors): (int, int)
    requires Defined(srcW, srcH, maxW, maxH)
  {
    if srcW <= maxW && srcH <= maxH then (srcW, srcH)
    else
      var ratio := RoundedRatio(srcW, srcH, maxW, maxH, e);
      (Truncate(RoundedSide(srcW, ratio, e.mulW)), Truncate(RoundedSide(srcH, ratio, e.mulH)))
  }

  // ---------------------------------------------------------------------------
  // Real arithmetic
  // ---------------------------------------------------------------------------

  lemma MulMono(x: real, y: real, z: real)
    requires x <= y && 0.0 <= z
    ensures x * z <= y * z
  {
  }

  lemma MulPos(x: real, y: real)
    requires x > 0.0 && y > 0.0
    ensures x * y > 0.0
  {
  }

  lemma Cancel(x: real, y: real, z: real)
    requires 0.0 < z
    ensures z * x <= z * y ==> x <= y
    ensures z * x < z * y ==> x < y
  {
    if x > y {
      MulPos(x - y, z);
      assert z * x > z * y;
    }
  }

  lemma DivMul(a: real, b: real)
    requires b > 0.0
    ensures b * (a / b) == a && (a / b) * b == a
    ensures a > 0.0 ==> a / b > 0.0
    ensures a < b ==> a / b < 1.0
  {
    var x := a / b;
    if a > 0.0 && x <= 0.0 {
      MulMono(x, 0.0, b);
      assert false;
    }
    if a < b && x >= 1.0 {
      MulMono(1.0, x, b);
      assert false;
    }
  }

  /** A factor 1 + e moves a positive value by at most EPS times that value. */
  lemma OneError(x: real, e: real)
    requires x >= 0.0 && -EPS <= e <= EPS
    ensures x - x * EPS <= x * (1.0 + e) <= x + x * EPS
  {
    MulMono(e, EPS, x);
    MulMono(-EPS, e, x);
    assert x * (1.0 + e) == x + e * x;
  }

  /** What two roundings leave of y. */
  predicate Near(x: real, y: real) {
    0.0 <= y && y - y * DELTA <= x <= y + y * DELTA
  }

  lemma TwoErrors(y: real, z: real, e: real)
    requires 0.0 <= y && y - y * EPS <= z <= y + y * EPS && -EPS <= e <= EPS
    ensures Near(z * (1.0 + e), y)
  {
    var t := y * EPS;
    assert 0.0 <= t <= 0.001 * y;
    OneError(z, e);
    assert z * EPS <= 2.0 * t;
    assert y * DELTA == 3.0 * t;
  }

  /** For a size below 2^31 that is much less than a pixel. */
  lemma NearBySize(x: real, y: real)
    requires Near(x, y) && y <= SIZE_LIMIT as real
    ensures y - 0.000001 < x < y + 0.000001 && x >= 0.0
  {
    MulMono(y, SIZE_LIMIT as real, DELTA);
    assert SIZE_LIMIT as real * DELTA < 0.000001;
    MulMono(DELTA, 1.0, y);
  }

  lemma TruncateBounds(x: real, y: real, m: int)
    requires 0.0 <= x && 0.0 <= y && y - 1.0 < x < y + 1.0
    ensures Truncate(x) >= 0 && -1 <= Truncate(x) - Truncate(y) <= 1
    ensures y <= m as real ==> Truncate(x) <= m && Truncate(y) <= m
    ensures y == m as real ==> Truncate(x) >= m - 1 && Truncate(y) == m
  {
  }

  lemma DivLess(a: int, b: int, c: int, d: int)
    requires b > 0 && d > 0
    ensures a as real / b as real <= c as real / d as real <==> a * d <= c * b
  {
    var x, y := a as real / b as real, c as real / d as real;
    var bd := b as real * d as real;
    DivMul(a as real, b as real);
    DivMul(c as real, d as real);
    assert x * bd == (b as real * x) * d as real == a as real * d as real;
    assert y * bd == (d as real * y) * b as real == c as real * b as real;
    if x <= y {
      MulMono(x, y, bd);
    } else {
      assert (x - y) * bd > 0.0;
    }
  }

  lemma RealProduct(a: int, b: int)
    ensures (a * b) as real == a as real * b as real
  {
  }

  lemma FloorDiv(a: int, b: int)
    requires a >= 0 && b > 0
    ensures (a as real / b as real) >= 0.0 && (a as real / b as real).Floor == a / b
  {
    var q, bq := a / b, b * (a / b);
    assert bq <= a < bq + b;
    IntMulMono(if q < 0 then q + 1 else 0, if q < 0 then 0 else q, b);
    RealProduct(b, q);
    var x := a as real / b as real;
    DivMul(a as real, b as real);
    FloorIs(a as real, b as real, bq as real, x, q);
  }

  /** b q <= b x < b q + b places x between q and q + 1. */
  lemma FloorIs(bx: real, b: real, bq: real, x: real, q: int)
    requires b > 0.0 && bx == b * x && bq == b * q as real && bq <= bx < bq + b
    ensures x.Floor == q
  {
    Cancel(q as real, x, b);
    Cancel(x, q as real + 1.0, b);
  }

  lemma IntMulMono(x: int, y: int, z: int)
    requires x <= y && 0 <= z
    ensures x * z <= y * z
  {
  }

  // ---------------------------------------------------------------------------
  // Exact arithmetic
  // ---------------------------------------------------------------------------

  lemma SideBounds(src: int, max: int, r: real)
    requires src > 0 && max > 0 && 0.0 < r < 1.0 && r <= max as real / src as real
    ensures 0.0 <= Side(src, r) <= max as real && Side(src, r) <= src as real
    ensures r == max as real / src as real ==> Side(src, r) == max as real
  {
    var s, m := src as real, max as real / src as real;
    DivMul(max as real, s);
    MulPos(r, s);
    MulMono(r, m, s);
    MulMono(r, 1.0, s);
    assert Side(src, r) == r * s;
  }

  /** The untruncated sizes stay within the bounds and the source, and one of them meets its bound. */
  lemma ExactScale(srcW: int, srcH: int, maxW: int, maxH: int)
    requires InRange(srcW, srcH, maxW, maxH) && Scales(srcW, srcH, maxW, maxH)
    ensures var r := ExactRatio(srcW, srcH, maxW, maxH);
            && 0.0 < r < 1.0
            && 0.0 <= Side(srcW, r) <= maxW as real && Side(srcW, r) <= srcW as real
            && 0.0 <= Side(srcH, r) <= maxH as real && Side(srcH, r) <= srcH as real
            && (Side(srcW, r) == maxW as real || Side(srcH, r) == maxH as real)
  {
    hide Side;
    var r := ExactRatio(srcW, srcH, maxW, maxH);
    DivMul(maxW as real, srcW as real);
    DivMul(maxH as real, srcH as real);
    SideBounds(srcW, maxW, r);
    SideBounds(srcH, maxH, r);
  }

  /** The width is what limits the scale, or both are. */
  predicate WidthBinds(srcW: int, srcH: int, maxW: int, maxH: int) {
    maxW * srcH <= maxH * srcW
  }

  /** A side is source times the bound of the binding side over the source of the binding side. */
  lemma SidesAreQuotients(srcW: int, srcH: int, maxW: int, maxH: int)
    requires InRange(srcW, srcH, maxW, maxH)
    ensures var r := ExactRatio(srcW, srcH, maxW, maxH);
            if WidthBinds(srcW, srcH, maxW, maxH)
            then Side(srcW, r) == maxW as real && Side(srcH, r) == (srcH * maxW) as real / srcW as real
            else Side(srcH, r) == maxH as real && Side(srcW, r) == (srcW * maxH) as real / srcH as real
  {
    hide Side;
    DivLess(maxW, srcW, maxH, srcH);
    if WidthBinds(srcW, srcH, maxW, maxH) {
      SideIsQuotient(srcW, srcH, maxW);
    } else {
      SideIsQuotient(srcH, srcW, maxH);
    }
  }

  lemma SideIsQuotient(src: int, other: int, max: int)
    requires src > 0 && other > 0 && max > 0
    ensures Side(src, max as real / src as real) == max as real
    ensures Side(other, max as real / src as real) == (other * max) as real / src as real
  {
    DivMul(max as real, src as real);
    var x := other as real * (max as real / src as real);
    assert src as real * x == other as real * (src as real * (max as real / src as real)) == (other * max) as real;
    SameQuotient(x, (other * max) as real, src as real);
  }

  lemma SameQuotient(x: real, a: real, b: real)
    requires b > 0.0 && b * x == a
    ensures x == a / b
  {
  }

  /** The same result in integer arithmetic: the binding side meets its bound exactly and the other side is
      the source side times bound over source, rounded down. */
  lemma ExactIsIntegerDivision(srcW: int, srcH: int, maxW: int, maxH: int)
    requires InRange(srcW, srcH, maxW, maxH) && Scales(srcW, srcH, maxW, maxH)
    ensures Exact(srcW, srcH, maxW, maxH) ==
            if WidthBinds(srcW, srcH, maxW, maxH) then (maxW, srcH * maxW / srcW) else (srcW * maxH / srcH, maxH)
  {
    hide Side, ExactRatio;
    SidesAreQuotients(srcW, srcH, maxW, maxH);
    if WidthBinds(srcW, srcH, maxW, maxH) {
      IntMulPos(srcH, maxW);
      FloorDiv(srcH * maxW, srcW);
    } else {
      IntMulPos(srcW, maxH);
      FloorDiv(srcW * maxH, srcH);
    }
  }

  lemma ExactFits(srcW: int, srcH: int, maxW: int, maxH: int)
    requires InRange(srcW, srcH, maxW, maxH)
    ensures var (w, h) := Exact(srcW, srcH, maxW, maxH);
            0 <= w <= maxW && 0 <= h <= maxH && w <= srcW && h <= srcH
  {
    hide Side, ExactRatio;
    if Scales(srcW, srcH, maxW, maxH) {
      ExactScale(srcW, srcH, maxW, maxH);
    }
  }

  /** Without rounding, the cross products of source and result differ by less than the larger source side. */
  lemma ExactAspectRatio(srcW: int, srcH: int, maxW: int, maxH: int)
    requires InRange(srcW, srcH, maxW, maxH) && Scales(srcW, srcH, maxW, maxH)
    ensures var (w, h) := Exact(srcW, srcH, maxW, maxH); -srcH < w * srcH - h * srcW < srcW
  {
    hide Exact;
    ExactIsIntegerDivision(srcW, srcH, maxW, maxH);
    QuotientBounds(srcH * maxW, srcW);
    QuotientBounds(srcW * maxH, srcH);
  }

  lemma QuotientBounds(p: int, d: int)
    requires d > 0
    ensures p / d * d <= p < p / d * d + d
  {
  }

  // ---------------------------------------------------------------------------
  // Floating-point arithmetic
  // ---------------------------------------------------------------------------

  lemma RatioClose(srcW: int, srcH: int, maxW: int, maxH: int, e: Errors)
    requires InRange(srcW, srcH, maxW, maxH) && e.Small()
    ensures var r := ExactRatio(srcW, srcH, maxW, maxH);
            0.0 < r && r - r * EPS <= RoundedRatio(srcW, srcH, maxW, maxH, e) <= r + r * EPS
  {
    var rw, rh := maxW as real / srcW as real, maxH as real / srcH as real;
    DivMul(maxW as real, srcW as real);
    DivMul(maxH as real, srcH as real);
    OneError(rw, e.divW);
    OneError(rh, e.divH);
    MinClose(rw, rh, rw * (1.0 + e.divW), rh * (1.0 + e.divH));
  }

  lemma MinClose(x: real, y: real, x': real, y': real)
    requires x - x * EPS <= x' <= x + x * EPS && y - y * EPS <= y' <= y + y * EPS
    ensures Min(x, y) - Min(x, y) * EPS <= Min(x', y') <= Min(x, y) + Min(x, y) * EPS
  {
    assert EPS < 0.001;
  }

  lemma ProductClose(src: int, r: real, ratio: real, e: real)
    requires src > 0 && 0.0 < r && r - r * EPS <= ratio <= r + r * EPS
    requires -EPS <= e <= EPS
    ensures Near(RoundedSide(src, ratio, e), Side(src, r))
  {
    var s := src as real;
    MulPos(s, r);
    MulMono(r - r * EPS, ratio, s);
    MulMono(ratio, r + r * EPS, s);
    assert (r - r * EPS) * s == s * r - s * r * EPS;
    assert (r + r * EPS) * s == s * r + s * r * EPS;
    TwoErrors(s * r, s * ratio, e);
  }

  /** Both computed sides, before truncation, are near the exact ones. */
  lemma SidesAreNear(srcW: int, srcH: int, maxW: int, maxH: int, e: Errors)
    requires InRange(srcW, srcH, maxW, maxH) && e.Small()
    ensures var r := ExactRatio(srcW, srcH, maxW, maxH);
            var ratio := RoundedRatio(srcW, srcH, maxW, maxH, e);
            Near(RoundedSide(srcW, ratio, e.mulW), Side(srcW, r)) && Near(RoundedSide(srcH, ratio, e.mulH), Side(srcH, r))
  {
    hide ExactRatio, RoundedRatio, Side, RoundedSide, Near;
    RatioClose(srcW, srcH, maxW, maxH, e);
    var r, ratio := ExactRatio(srcW, srcH, maxW, maxH), RoundedRatio(srcW, srcH, maxW, maxH, e);
    ProductClose(srcW, r, ratio, e.mulW);
    ProductClose(srcH, r, ratio, e.mulH);
  }

  /** For positive sizes below 2^31 and any rounding, the computed size exceeds neither a bound nor the
      source, is off by at most one pixel from the exact size, and when something is scaled one side is
      within a pixel of its bound. */
  lemma RoundedFits(srcW: int, srcH: int, maxW: int, maxH: int, e: Errors)
    requires InRange(srcW, srcH, maxW, maxH) && e.Small()
    ensures var (w, h) := Rounded(srcW, srcH, maxW, maxH, e);
            var (exactW, exactH) := Exact(srcW, srcH, maxW, maxH);
            && 0 <= w <= maxW && w <= srcW && -1 <= w - exactW <= 1
            && 0 <= h <= maxH && h <= srcH && -1 <= h - exactH <= 1
            && (Scales(srcW, srcH, maxW, maxH) ==> w >= maxW - 1 || h >= maxH - 1)
  {
    hide Side, RoundedSide, ExactRatio, RoundedRatio, Near;
    if Scales(srcW, srcH, maxW, maxH) {
      var r := ExactRatio(srcW, srcH, maxW, maxH);
      var ratio := RoundedRatio(srcW, srcH, maxW, maxH, e);
      ExactScale(srcW, srcH, maxW, maxH);
      SidesAreNear(srcW, srcH, maxW, maxH, e);
      var x, y := Side(srcW, r), Side(srcH, r);
      var x', y' := RoundedSide(srcW, ratio, e.mulW), RoundedSide(srcH, ratio, e.mulH);
      NearBySize(x', x);
      NearBySize(y', y);
      TruncateBounds(x', x, maxW);
      TruncateBounds(x', x, srcW);
      TruncateBounds(y', y, maxH);
      TruncateBounds(y', y, srcH);
    }
  }

  /** Fitting a fitted size again changes nothing, whatever the rounding was and will be. */
  lemma Idempotent(srcW: int, srcH: int, maxW: int, maxH: int, e: Errors, e': Errors)
    requires InRange(srcW, srcH, maxW, maxH) && e.Small()
    ensures var (w, h) := Rounded(srcW, srcH, maxW, maxH, e);
            Defined(w, h, maxW, maxH) && Rounded(w, h, maxW, maxH, e') == (w, h)
  {
    RoundedFits(srcW, srcH, maxW, maxH, e);
  }

  // ---------------------------------------------------------------------------
  // When the rounding shows
  // ---------------------------------------------------------------------------

  /** z x is within z y DELTA of z y. */
  lemma ScaleNear(x: real, y: real, z: real) returns (t: real)
    requires 0.0 < z && Near(x, y)
    ensures t == z * y * DELTA && z * y - t <= z * x <= z * y + t
  {
    t := z * (y * DELTA);
    MulMono(y - y * DELTA, x, z);
    MulMono(x, y + y * DELTA, z);
    Distribute(y, y * DELTA, z);
  }

  lemma NearQuotient(x: real, p: int, d: int) returns (px: real, t: real)
    requires p >= 0 && d > 0 && Near(x, p as real / d as real)
    ensures px == d as real * x && t == p as real * DELTA && p as real - t <= px <= p as real + t
  {
    DivMul(p as real, d as real);
    t := ScaleNear(x, p as real / d as real, d as real);
    px := d as real * x;
  }

  lemma Distribute(x: real, y: real, z: real)
    ensures (x - y) * z == x * z - y * z && (x + y) * z == x * z + y * z
  {
  }

  /** Rounding changes the floor of a quotient only if there is no remainder. */
  lemma FloorNear(x: real, p: int, d: int)
    requires 0 < p < PRODUCT_LIMIT && d > 0 && Near(x, p as real / d as real)
    ensures Truncate(x) == p / d || (p % d == 0 && Truncate(x) == p / d - 1)
  {
    hide Near, Truncate;
    var px, t := NearQuotient(x, p, d);
    assert PRODUCT_LIMIT as real * DELTA < 1.0;
    assert p as real - 1.0 < px < p as real + 1.0;
    RealProduct(d, p / d);
    QuotientNotNegative(p, d);
    if p % d == 0 {
      QuotientPositive(p, d);
    }
    PlaceFloor(x, d, px, p / d, p % d, d * (p / d));
  }

  lemma PlaceFloor(x: real, d: int, px: real, q: int, m: int, dq: int)
    requires d > 0 && 0 <= m < d && 0 <= q && (m == 0 ==> 1 <= q)
    requires px == d as real * x && dq as real == d as real * q as real
    requires (dq + m) as real - 1.0 < px < (dq + m) as real + 1.0
    ensures Truncate(x) == q || (m == 0 && Truncate(x) == q - 1)
  {
    if m == 0 {
      PlaceBelow(x, d as real, q, dq as real);
    } else {
      PlaceIn(x, d as real, q, dq as real);
    }
  }

  lemma PlaceBelow(x: real, dr: real, q: int, dq: real)
    requires dr >= 1.0 && q >= 1 && dq == dr * q as real && dq - 1.0 < dr * x < dq + 1.0
    ensures Truncate(x) == q || Truncate(x) == q - 1
  {
    Cancel(x, q as real + 1.0, dr);
    Cancel(q as real - 1.0, x, dr);
  }

  lemma PlaceIn(x: real, dr: real, q: int, dq: real)
    requires dr >= 1.0 && q >= 0 && dq == dr * q as real && dq < dr * x < dq + dr
    ensures Truncate(x) == q
  {
    FloorIs(dr * x, dr, dq, x, q);
    Cancel(q as real, x, dr);
  }

  lemma QuotientNotNegative(p: int, d: int)
    requires p >= 0 && d > 0
    ensures p / d >= 0
  {
  }

  lemma QuotientPositive(p: int, d: int)
    requires p > 0 && d > 0 && p % d == 0
    ensures p / d >= 1
  {
  }

  /** A quotient is on the same side of 1 after rounding. */
  lemma BelowOne(x: real, p: int, d: int)
    requires 0 < p && 0 < d < SIZE_LIMIT && Near(x, p as real / d as real)
    ensures x >= 0.0 && (p < d ==> Truncate(x) == 0) && (p > d ==> Truncate(x) > 0)
  {
    hide Near;
    var px, t := NearQuotient(x, p, d);
    assert 0.0 < DELTA && SIZE_LIMIT as real * DELTA < 0.001;
    assert t <= 0.001 * p as real;
    PlaceAgainstOne(x, d as real, px);
    BetweenZeroAndOne(x);
    if p < d {
      assert p as real <= d as real - 1.0;
      assert t < 0.001;
    } else if p > d {
      assert p as real >= d as real + 1.0;
      assert p as real - t >= d as real;
    }
  }

  lemma PlaceAgainstOne(x: real, dr: real, px: real)
    requires dr > 0.0 && px == dr * x && px >= 0.0
    ensures x >= 0.0 && (x < 1.0 <==> px < dr)
  {
    Cancel(0.0, x, dr);
    Cancel(x, 1.0, dr);
    Cancel(1.0, x, dr);
  }

  lemma BetweenZeroAndOne(x: real)
    requires x >= 0.0
    ensures Truncate(x) == 0 <==> x < 1.0
  {
  }

  /** No error at all, and the least products. */
  const NO_ERROR: Errors := Errors(0.0, 0.0, 0.0, 0.0)
  const LEAST: Errors := Errors(0.0, 0.0, -EPS, -EPS)

  lemma NoError(x: real, error: real)
    requires error == 0.0
    ensures Off(x, error) == x
  {
  }

  /** With exact divisions only the products are rounded. */
  lemma ExactDivisions(srcW: int, srcH: int, maxW: int, maxH: int, e: Errors)
    requires InRange(srcW, srcH, maxW, maxH) && Scales(srcW, srcH, maxW, maxH) && e.divW == 0.0 && e.divH == 0.0
    ensures var r := ExactRatio(srcW, srcH, maxW, maxH);
            Rounded(srcW, srcH, maxW, maxH, e) == (Truncate(Off(Side(srcW, r), e.mulW)), Truncate(Off(Side(srcH, r), e.mulH)))
  {
    hide Truncate, Off, Side, Quotient;
    NoError(Quotient(maxW, srcW), e.divW);
    NoError(Quotient(maxH, srcH), e.divH);
  }

  lemma NoErrorIsExact(srcW: int, srcH: int, maxW: int, maxH: int)
    requires InRange(srcW, srcH, maxW, maxH)
    ensures NO_ERROR.Small() && Rounded(srcW, srcH, maxW, maxH, NO_ERROR) == Exact(srcW, srcH, maxW, maxH)
  {
    hide Side, Truncate, Off, Quotient;
    if Scales(srcW, srcH, maxW, maxH) {
      ExactDivisions(srcW, srcH, maxW, maxH, NO_ERROR);
      var r := ExactRatio(srcW, srcH, maxW, maxH);
      NoError(Side(srcW, r), NO_ERROR.mulW);
      NoError(Side(srcH, r), NO_ERROR.mulH);
    }
  }

  lemma LeastProducts(srcW: int, srcH: int, maxW: int, maxH: int)
    requires InRange(srcW, srcH, maxW, maxH) && Scales(srcW, srcH, maxW, maxH)
    ensures LEAST.Small()
    ensures var r := ExactRatio(srcW, srcH, maxW, maxH);
            Rounded(srcW, srcH, maxW, maxH, LEAST) ==
            (Truncate(Off(Side(srcW, r), LEAST.mulW)), Truncate(Off(Side(srcH, r), LEAST.mulH)))
  {
    hide Truncate, Off, Side, Quotient;
    ExactDivisions(srcW, srcH, maxW, maxH, LEAST);
  }

  /** A whole number below 2^31 with the least error is truncated to one less. */
  lemma JustBelow(q: int)
    requires 0 < q < SIZE_LIMIT
    ensures Truncate(Off(q as real, LEAST.mulW)) == Truncate(Off(q as real, LEAST.mulH)) == q - 1
  {
    assert LEAST.mulW == LEAST.mulH == -EPS && SIZE_LIMIT as real * EPS < 1.0;
    assert Off(q as real, LEAST.mulW) == q as real - q as real * EPS;
  }

  /** A side that is a whole number before truncation: it binds, or its division leaves no remainder. */
  predicate WholeWidth(srcW: int, srcH: int, maxW: int, maxH: int)
    requires srcH > 0
  {
    WidthBinds(srcW, srcH, maxW, maxH) || srcW * maxH % srcH == 0
  }

  predicate WholeHeight(srcW: int, srcH: int, maxW: int, maxH: int)
    requires srcW > 0
  {
    !WidthBinds(srcW, srcH, maxW, maxH) || srcH * maxW % srcW == 0
  }

  /** One computed side against p / d. */
  lemma SideRounds(x: real, exact: real, p: int, d: int)
    requires 0 < p < PRODUCT_LIMIT && d > 0 && exact == p as real / d as real && Near(x, exact)
    ensures Truncate(exact) == p / d
    ensures Truncate(x) == p / d || (p % d == 0 && Truncate(x) == p / d - 1)
  {
    FloorDiv(p, d);
    FloorNear(x, p, d);
  }

  /** For sizes whose products stay below 2^51, each computed side is the integer division of
      `ExactIsIntegerDivision`, or one less, and the latter only where that side is whole before truncation. */
  lemma OffByOneOnlyIfWhole(srcW: int, srcH: int, maxW: int, maxH: int, e: Errors)
    requires InRange(srcW, srcH, maxW, maxH) && Scales(srcW, srcH, maxW, maxH) && e.Small()
    requires srcW * maxH < PRODUCT_LIMIT && srcH * maxW < PRODUCT_LIMIT
    ensures var (w, h) := Rounded(srcW, srcH, maxW, maxH, e);
            var (exactW, exactH) := Exact(srcW, srcH, maxW, maxH);
            && (w == exactW || (WholeWidth(srcW, srcH, maxW, maxH) && w == exactW - 1))
            && (h == exactH || (WholeHeight(srcW, srcH, maxW, maxH) && h == exactH - 1))
  {
    hide Side, RoundedSide, ExactRatio, RoundedRatio, Near, Truncate, WidthBinds;
    SidesAreNear(srcW, srcH, maxW, maxH, e);
    SidesAreQuotients(srcW, srcH, maxW, maxH);
    var r, ratio := ExactRatio(srcW, srcH, maxW, maxH), RoundedRatio(srcW, srcH, maxW, maxH, e);
    var x', y' := RoundedSide(srcW, ratio, e.mulW), RoundedSide(srcH, ratio, e.mulH);
    DivByOne(maxW);
    DivByOne(maxH);
    if WidthBinds(srcW, srcH, maxW, maxH) {
      IntMulPos(srcH, maxW);
      SideRounds(x', Side(srcW, r), maxW, 1);
      SideRounds(y', Side(srcH, r), srcH * maxW, srcW);
    } else {
      IntMulPos(srcW, maxH);
      SideRounds(y', Side(srcH, r), maxH, 1);
      SideRounds(x', Side(srcW, r), srcW * maxH, srcH);
    }
  }

  lemma DivByOne(m: int)
    ensures m as real == m as real / 1 as real && m / 1 == m
  {
  }

  lemma IntMulPos(x: int, y: int)
    requires x > 0 && y > 0
    ensures x * y > 0
  {
  }

  /** The sides before truncation, where they are whole. */
  lemma WholeSides(srcW: int, srcH: int, maxW: int, maxH: int)
    requires InRange(srcW, srcH, maxW, maxH) && Scales(srcW, srcH, maxW, maxH)
    ensures var r := ExactRatio(srcW, srcH, maxW, maxH);
            var (w, h) := Exact(srcW, srcH, maxW, maxH);
            && (WholeWidth(srcW, srcH, maxW, maxH) ==> Side(srcW, r) == w as real && 0 < w <= maxW)
            && (WholeHeight(srcW, srcH, maxW, maxH) ==> Side(srcH, r) == h as real && 0 < h <= maxH)
  {
    hide Side, ExactRatio;
    SidesAreQuotients(srcW, srcH, maxW, maxH);
    ExactFits(srcW, srcH, maxW, maxH);
    if WidthBinds(srcW, srcH, maxW, maxH) {
      if srcH * maxW % srcW == 0 {
        WholeQuotient(srcH * maxW, srcW);
        IntMulPos(srcH, maxW);
        QuotientPositive(srcH * maxW, srcW);
      }
    } else if srcW * maxH % srcH == 0 {
      WholeQuotient(srcW * maxH, srcH);
      IntMulPos(srcW, maxH);
      QuotientPositive(srcW * maxH, srcH);
    }
  }

  lemma WholeQuotient(p: int, d: int)
    requires d > 0 && p % d == 0
    ensures p as real / d as real == (p / d) as real
  {
    var q := p / d;
    assert p == d * q;
    RealProduct(d, q);
    DivMul(p as real, d as real);
    SameQuotient(q as real, p as real, d as real);
  }

  /** With products below 2^51, the rounding can be seen in a side if and only if that side is whole before
      truncation: then the side is one less under some rounding. */
  lemma RoundingShowsIff(srcW: int, srcH: int, maxW: int, maxH: int)
    requires InRange(srcW, srcH, maxW, maxH) && Scales(srcW, srcH, maxW, maxH)
    requires srcW * maxH < PRODUCT_LIMIT && srcH * maxW < PRODUCT_LIMIT
    ensures (forall e: Errors | e.Small() ::
               Rounded(srcW, srcH, maxW, maxH, e).0 == Exact(srcW, srcH, maxW, maxH).0) <==>
            !WholeWidth(srcW, srcH, maxW, maxH)
    ensures (forall e: Errors | e.Small() ::
               Rounded(srcW, srcH, maxW, maxH, e).1 == Exact(srcW, srcH, maxW, maxH).1) <==>
            !WholeHeight(srcW, srcH, maxW, maxH)
  {
    hide Rounded, Exact, Side, Off, Truncate, ExactRatio, WholeWidth, WholeHeight;
    forall e: Errors | e.Small()
      ensures !WholeWidth(srcW, srcH, maxW, maxH) ==>
                Rounded(srcW, srcH, maxW, maxH, e).0 == Exact(srcW, srcH, maxW, maxH).0
      ensures !WholeHeight(srcW, srcH, maxW, maxH) ==>
                Rounded(srcW, srcH, maxW, maxH, e).1 == Exact(srcW, srcH, maxW, maxH).1
    {
      OffByOneOnlyIfWhole(srcW, srcH, maxW, maxH, e);
    }
    LeastProducts(srcW, srcH, maxW, maxH);
    WholeSides(srcW, srcH, maxW, maxH);
    if WholeWidth(srcW, srcH, maxW, maxH) {
      JustBelow(Exact(srcW, srcH, maxW, maxH).0);
    }
    if WholeHeight(srcW, srcH, maxW, maxH) {
      JustBelow(Exact(srcW, srcH, maxW, maxH).1);
    }
  }

  // ---------------------------------------------------------------------------
  // When a side vanishes
  // ---------------------------------------------------------------------------

  /** What a height is under all roundings, under none, and under the least one. */
  lemma HeightNearOne(srcW: int, srcH: int, maxW: int, maxH: int, e: Errors)
    requires InRange(srcW, srcH, maxW, maxH) && Scales(srcW, srcH, maxW, maxH) && e.Small()
    ensures srcH * maxW < srcW ==> Rounded(srcW, srcH, maxW, maxH, e).1 == 0
    ensures srcH * maxW > srcW && maxH >= 2 ==> Rounded(srcW, srcH, maxW, maxH, e).1 > 0
  {
    hide Side, RoundedSide, ExactRatio, RoundedRatio, Near, Truncate;
    SidesAreNear(srcW, srcH, maxW, maxH, e);
    SidesAreQuotients(srcW, srcH, maxW, maxH);
    var ratio := RoundedRatio(srcW, srcH, maxW, maxH, e);
    var y' := RoundedSide(srcH, ratio, e.mulH);
    IntMulPos(srcH, maxW);
    if WidthBinds(srcW, srcH, maxW, maxH) {
      BelowOne(y', srcH * maxW, srcW);
    } else {
      IntMulMono(1, maxH, srcW);
      DivByOne(maxH);
      BelowOne(y', maxH, 1);
    }
  }

  lemma WidthNearOne(srcW: int, srcH: int, maxW: int, maxH: int, e: Errors)
    requires InRange(srcW, srcH, maxW, maxH) && Scales(srcW, srcH, maxW, maxH) && e.Small()
    ensures srcW * maxH < srcH ==> Rounded(srcW, srcH, maxW, maxH, e).0 == 0
    ensures srcW * maxH > srcH && maxW >= 2 ==> Rounded(srcW, srcH, maxW, maxH, e).0 > 0
  {
    hide Side, RoundedSide, ExactRatio, RoundedRatio, Near, Truncate;
    SidesAreNear(srcW, srcH, maxW, maxH, e);
    SidesAreQuotients(srcW, srcH, maxW, maxH);
    var ratio := RoundedRatio(srcW, srcH, maxW, maxH, e);
    var x' := RoundedSide(srcW, ratio, e.mulW);
    IntMulPos(srcW, maxH);
    if WidthBinds(srcW, srcH, maxW, maxH) {
      IntMulMono(1, maxW, srcH);
      DivByOne(maxW);
      BelowOne(x', maxW, 1);
    } else {
      BelowOne(x', srcW * maxH, srcH);
    }
  }

  lemma ModSelf(p: int, d: int)
    requires p == d && d > 0
    ensures p % d == 0 && p / d == 1
  {
  }

  /** The exact side is 1 in the cases that `HeightNearOne` and `WidthNearOne` leave open. */
  lemma OneIsWhole(srcW: int, srcH: int, maxW: int, maxH: int)
    requires InRange(srcW, srcH, maxW, maxH) && Scales(srcW, srcH, maxW, maxH)
    ensures srcH * maxW == srcW || (srcH * maxW > srcW && maxH == 1) ==>
              WholeHeight(srcW, srcH, maxW, maxH) && Exact(srcW, srcH, maxW, maxH).1 == 1
    ensures srcW * maxH == srcH || (srcW * maxH > srcH && maxW == 1) ==>
              WholeWidth(srcW, srcH, maxW, maxH) && Exact(srcW, srcH, maxW, maxH).0 == 1
  {
    hide Exact;
    ExactIsIntegerDivision(srcW, srcH, maxW, maxH);
    var p, q := srcH * maxW, srcW * maxH;
    assert maxW * srcH == p && maxH * srcW == q;
    IntMulMono(1, maxH, srcW);
    IntMulMono(1, maxW, srcH);
    IntMulMono(2, if maxH < 2 then 2 else maxH, srcW);
    IntMulMono(2, if maxW < 2 then 2 else maxW, srcH);
    OneFrom(p, q, srcW, srcH, maxW, maxH);
  }

  lemma OneFrom(p: int, q: int, srcW: int, srcH: int, maxW: int, maxH: int)
    requires InRange(srcW, srcH, maxW, maxH) && srcW <= q && srcH <= p
    requires (maxH == 1 <==> q == srcW) && (maxW == 1 <==> p == srcH)
    ensures p == srcW || (p > srcW && maxH == 1) ==>
              if p <= q then p % srcW == 0 && p / srcW == 1 else maxH == 1
    ensures q == srcH || (q > srcH && maxW == 1) ==>
              if p <= q then maxW == 1 else q % srcH == 0 && q / srcH == 1
  {
    if p == srcW {
      ModSelf(p, srcW);
    }
    if q == srcH {
      ModSelf(q, srcH);
    }
  }

  lemma OneMayVanish(srcW: int, srcH: int, maxW: int, maxH: int)
    requires InRange(srcW, srcH, maxW, maxH) && Scales(srcW, srcH, maxW, maxH)
    ensures WholeHeight(srcW, srcH, maxW, maxH) && Exact(srcW, srcH, maxW, maxH).1 == 1 ==>
              Rounded(srcW, srcH, maxW, maxH, NO_ERROR).1 == 1 && Rounded(srcW, srcH, maxW, maxH, LEAST).1 == 0
    ensures WholeWidth(srcW, srcH, maxW, maxH) && Exact(srcW, srcH, maxW, maxH).0 == 1 ==>
              Rounded(srcW, srcH, maxW, maxH, NO_ERROR).0 == 1 && Rounded(srcW, srcH, maxW, maxH, LEAST).0 == 0
  {
    hide Rounded, Exact, Side, Off, Truncate, ExactRatio, WholeWidth, WholeHeight;
    NoErrorIsExact(srcW, srcH, maxW, maxH);
    LeastProducts(srcW, srcH, maxW, maxH);
    WholeSides(srcW, srcH, maxW, maxH);
    JustBelow(1);
  }

  /** A side is at least one pixel under every rounding, or zero under every rounding, exactly as the products
      and the bound of the side say; where neither holds the exact side is 1 and the rounding decides. */
  lemma SideVanishes(srcW: int, srcH: int, maxW: int, maxH: int)
    requires InRange(srcW, srcH, maxW, maxH) && Scales(srcW, srcH, maxW, maxH)
    ensures (forall e: Errors | e.Small() :: Rounded(srcW, srcH, maxW, maxH, e).1 > 0) <==>
            srcH * maxW > srcW && maxH >= 2
    ensures (forall e: Errors | e.Small() :: Rounded(srcW, srcH, maxW, maxH, e).1 == 0) <==> srcH * maxW < srcW
    ensures (forall e: Errors | e.Small() :: Rounded(srcW, srcH, maxW, maxH, e).0 > 0) <==>
            srcW * maxH > srcH && maxW >= 2
    ensures (forall e: Errors | e.Small() :: Rounded(srcW, srcH, maxW, maxH, e).0 == 0) <==> srcW * maxH < srcH
  {
    hide Rounded, Exact, WholeWidth, WholeHeight;
    forall e: Errors | e.Small()
      ensures srcH * maxW < srcW ==> Rounded(srcW, srcH, maxW, maxH, e).1 == 0
      ensures srcH * maxW > srcW && maxH >= 2 ==> Rounded(srcW, srcH, maxW, maxH, e).1 > 0
      ensures srcW * maxH < srcH ==> Rounded(srcW, srcH, maxW, maxH, e).0 == 0
      ensures srcW * maxH > srcH && maxW >= 2 ==> Rounded(srcW, srcH, maxW, maxH, e).0 > 0
    {
      HeightNearOne(srcW, srcH, maxW, maxH, e);
      WidthNearOne(srcW, srcH, maxW, maxH, e);
    }
    OneIsWhole(srcW, srcH, maxW, maxH);
    OneMayVanish(srcW, srcH, maxW, maxH);
    assert NO_ERROR.Small() && LEAST.Small();
  }

  /** 29400 x 49 into 600 x 600 in float64: 600/29400 is rounded to m/2^58 with 49 m = 2^58 - 23, and 49 m/2^58 to
      1 - 2^-53. The height is 0 where exact arithmetic gives 1. (The other ratio is not used.) */
  lemma LongImageVanishes() returns (e: Errors)
    ensures e.Small()
    ensures RoundedRatio(29400, 49, 600, 600, e) == 5882252574524729.0 / 288230376151711744.0
    ensures Exact(29400, 49, 600, 600) == (600, 1) && Rounded(29400, 49, 600, 600, e) == (600, 0)
  {
    var t := 288230376151711744.0;
    e := Errors(-23.0 / t, 0.0, 23.0 / (t - 23.0), -9.0 / (t - 23.0));
    assert RoundedRatio(29400, 49, 600, 600, e) == 5882252574524729.0 / t;
    assert RoundedSide(29400, 5882252574524729.0 / t, e.mulW) == 600.0;
    assert RoundedSide(49, 5882252574524729.0 / t, e.mulH) == 1.0 - EPS;
  }

  // ---------------------------------------------------------------------------
  // Aspect ratio
  // ---------------------------------------------------------------------------

  function Times(x: real, y: real): real {
    x * y
  }

  lemma TimesWhole(a: int, b: int)
    ensures Times(a as real, b as real) == (b * a) as real
  {
    RealProduct(a, b);
  }

  lemma CrossProducts(srcW: int, srcH: int, w: int, h: int, x': real, y': real, x: real, y: real)
    requires 0 < srcW && 0 < srcH && Times(srcH as real, x) == Times(srcW as real, y)
    requires Near(x', x) && Near(y', y) && x <= SIZE_LIMIT as real && y <= SIZE_LIMIT as real
    requires w as real <= x' < w as real + 1.0 && h as real <= y' < h as real + 1.0
    ensures -1.000002 * srcH as real < (w * srcH - h * srcW) as real < 1.000002 * srcW as real
  {
    hide Near, Times;
    TimesWhole(srcH, w);
    TimesWhole(srcW, h);
    var t := CrossBounds(x', x, srcH as real, w as real);
    var u := CrossBounds(y', y, srcW as real, h as real);
    BothSmall(t, x, srcH as real, u, y, srcW as real);
  }

  /** Equal products have equal errors. */
  lemma BothSmall(t: real, x: real, b: real, u: real, y: real, a: real)
    requires t == Times(b, x) * DELTA && u == Times(a, y) * DELTA && Times(b, x) == Times(a, y)
    ensures t == u
  {
  }

  /** A truncated side times the other source side, against the exact product. */
  lemma CrossBounds(x': real, x: real, b: real, w: real) returns (t: real)
    requires Near(x', x) && x <= SIZE_LIMIT as real && b > 0.0 && w <= x' < w + 1.0
    ensures t == Times(b, x) * DELTA && t < 0.000001 * b
    ensures Times(b, x) - b - t < Times(b, w) <= Times(b, x) + t
  {
    hide Near, Times;
    t := NearTimes(x', x, b);
    TruncatedTimes(x', b, w);
  }

  lemma ScaleTimes(x': real, x: real, b: real) returns (t: real)
    requires Near(x', x) && b > 0.0
    ensures t == Times(b, x) * DELTA && Times(b, x) - t <= Times(b, x') <= Times(b, x) + t
  {
    t := ScaleNear(x', x, b);
  }

  lemma NearTimes(x': real, x: real, b: real) returns (t: real)
    requires Near(x', x) && x <= SIZE_LIMIT as real && b > 0.0
    ensures t == Times(b, x) * DELTA && t < 0.000001 * b
    ensures Times(b, x) - t <= Times(b, x') <= Times(b, x) + t
  {
    hide Times;
    SmallCross(x, b);
    LinearSmall(Times(b, x), b);
    t := ScaleTimes(x', x, b);
  }

  lemma TruncatedTimes(x: real, b: real, w: real)
    requires b > 0.0 && w <= x < w + 1.0
    ensures Times(b, x) - b < Times(b, w) <= Times(b, x)
  {
    hide Times;
    TimesSum(b, w, x - w);
    TimesPart(b, x - w);
    assert w + (x - w) == x;
  }

  lemma TimesSum(b: real, x: real, y: real)
    ensures Times(b, x + y) == Times(b, x) + Times(b, y)
  {
  }

  lemma TimesPart(b: real, part: real)
    requires b > 0.0 && 0.0 <= part < 1.0
    ensures 0.0 <= Times(b, part) < b
  {
    MulPos(b, 1.0 - part);
    TimesSum(b, part, 1.0 - part);
  }

  lemma SmallCross(x: real, b: real)
    requires x <= SIZE_LIMIT as real && b > 0.0
    ensures Times(b, x) <= SIZE_LIMIT as real * b
  {
    MulMono(x, SIZE_LIMIT as real, b);
  }

  lemma LinearSmall(p: real, b: real)
    requires b > 0.0 && p <= SIZE_LIMIT as real * b
    ensures p * DELTA < 0.000001 * b
  {
    assert SIZE_LIMIT as real * DELTA < 0.000001;
  }

  /** For products below 2^51: the exact cross products, and the sides that rounding may have made smaller. */
  lemma CrossOf(srcW: int, srcH: int, maxW: int, maxH: int, w: int, h: int)
    requires InRange(srcW, srcH, maxW, maxH) && Scales(srcW, srcH, maxW, maxH)
    requires var (exactW, exactH) := Exact(srcW, srcH, maxW, maxH);
             && (w == exactW || (WholeWidth(srcW, srcH, maxW, maxH) && w == exactW - 1))
             && (h == exactH || (WholeHeight(srcW, srcH, maxW, maxH) && h == exactH - 1))
    ensures -srcH <= w * srcH - h * srcW <= srcW
    ensures !(WholeWidth(srcW, srcH, maxW, maxH) && WholeHeight(srcW, srcH, maxW, maxH)) ==>
              -srcH < w * srcH - h * srcW < srcW
    ensures WholeWidth(srcW, srcH, maxW, maxH) && WholeHeight(srcW, srcH, maxW, maxH) ==>
              var (exactW, exactH) := Exact(srcW, srcH, maxW, maxH);
              w * srcH - h * srcW == (exactH - h) * srcW - (exactW - w) * srcH
  {
    hide Exact;
    ExactIsIntegerDivision(srcW, srcH, maxW, maxH);
    var (exactW, exactH) := Exact(srcW, srcH, maxW, maxH);
    QuotientRemainder(srcH * maxW, srcW);
    QuotientRemainder(srcW * maxH, srcH);
    CrossLess(srcH, w, exactW);
    CrossLess(srcW, h, exactH);
  }

  lemma QuotientRemainder(p: int, d: int)
    requires d > 0
    ensures p / d * d + p % d == p && 0 <= p % d < d
  {
  }

  lemma CrossLess(src: int, side: int, exact: int)
    ensures side * src == exact * src - (exact - side) * src
    ensures side == exact - 1 ==> (exact - side) * src == src
    ensures side == exact ==> (exact - side) * src == 0
  {
  }

  /** For products below 2^51, which is every source below 2^31 at the bounds of the variants: the cross products of
      source and result differ by at most a source side; they differ by less under every rounding, as they do
      without rounding (`ExactAspectRatio`), if and only if the two sides are not both whole before truncation. */
  lemma StrictAspectIff(srcW: int, srcH: int, maxW: int, maxH: int)
    requires InRange(srcW, srcH, maxW, maxH) && Scales(srcW, srcH, maxW, maxH)
    requires srcW * maxH < PRODUCT_LIMIT && srcH * maxW < PRODUCT_LIMIT
    ensures (forall e: Errors | e.Small() ::
               var (w, h) := Rounded(srcW, srcH, maxW, maxH, e); -srcH < w * srcH - h * srcW < srcW) <==>
            !(WholeWidth(srcW, srcH, maxW, maxH) && WholeHeight(srcW, srcH, maxW, maxH))
    ensures forall e: Errors | e.Small() ::
              var (w, h) := Rounded(srcW, srcH, maxW, maxH, e); -srcH <= w * srcH - h * srcW <= srcW
  {
    hide Rounded, Exact, WholeWidth, WholeHeight;
    forall e: Errors | e.Small()
      ensures var (w, h) := Rounded(srcW, srcH, maxW, maxH, e);
              && -srcH <= w * srcH - h * srcW <= srcW
              && (!(WholeWidth(srcW, srcH, maxW, maxH) && WholeHeight(srcW, srcH, maxW, maxH)) ==>
                    -srcH < w * srcH - h * srcW < srcW)
    {
      OffByOneOnlyIfWhole(srcW, srcH, maxW, maxH, e);
      var (w, h) := Rounded(srcW, srcH, maxW, maxH, e);
      CrossOf(srcW, srcH, maxW, maxH, w, h);
    }
    if WholeWidth(srcW, srcH, maxW, maxH) && WholeHeight(srcW, srcH, maxW, maxH) {
      LeastWidth(srcW, srcH, maxW, maxH);
      var (w, h) := Rounded(srcW, srcH, maxW, maxH, LEAST_WIDTH);
      CrossOf(srcW, srcH, maxW, maxH, w, h);
      CrossLess(srcH, w, Exact(srcW, srcH, maxW, maxH).0);
      CrossLess(srcW, h, Exact(srcW, srcH, maxW, maxH).1);
    }
  }

  const LEAST_WIDTH: Errors := Errors(0.0, 0.0, -EPS, 0.0)

  lemma LeastWidth(srcW: int, srcH: int, maxW: int, maxH: int)
    requires InRange(srcW, srcH, maxW, maxH) && Scales(srcW, srcH, maxW, maxH)
    requires WholeWidth(srcW, srcH, maxW, maxH) && WholeHeight(srcW, srcH, maxW, maxH)
    ensures LEAST_WIDTH.Small()
    ensures var (w, h) := Exact(srcW, srcH, maxW, maxH);
            Rounded(srcW, srcH, maxW, maxH, LEAST_WIDTH) == (w - 1, h)
  {
    assert LEAST_WIDTH.Small() && LEAST_WIDTH.mulW == LEAST.mulW && LEAST_WIDTH.mulH == 0.0;
    hide Rounded, Exact, Side, Off, Truncate, ExactRatio, WholeWidth, WholeHeight;
    ExactDivisions(srcW, srcH, maxW, maxH, LEAST_WIDTH);
    WholeSides(srcW, srcH, maxW, maxH);
    var (w, h) := Exact(srcW, srcH, maxW, maxH);
    JustBelow(w);
    NoError(h as real, LEAST_WIDTH.mulH);
    TruncateWhole(h);
  }

  lemma TruncateWhole(n: int)
    ensures Truncate(n as real) == n
  {
  }

  /** For all products, the cross products of source and result differ by at most two millionths more than a source
      side. */
  lemma AspectRatioKept(srcW: int, srcH: int, maxW: int, maxH: int, e: Errors)
    requires InRange(srcW, srcH, maxW, maxH) && Scales(srcW, srcH, maxW, maxH) && e.Small()
    ensures var (w, h) := Rounded(srcW, srcH, maxW, maxH, e);
            && -1.000002 * srcH as real < (w * srcH - h * srcW) as real < 1.000002 * srcW as real
            && (srcW <= 500000 && srcH <= 500000 ==> -srcH <= w * srcH - h * srcW <= srcW)
            && (srcW * maxH < PRODUCT_LIMIT && srcH * maxW < PRODUCT_LIMIT ==> -srcH <= w * srcH - h * srcW <= srcW)
  {
    hide Side, RoundedSide, ExactRatio, RoundedRatio, Near, Times;
    var r, ratio := ExactRatio(srcW, srcH, maxW, maxH), RoundedRatio(srcW, srcH, maxW, maxH, e);
    ExactScale(srcW, srcH, maxW, maxH);
    SidesAreNear(srcW, srcH, maxW, maxH, e);
    var x', y' := RoundedSide(srcW, ratio, e.mulW), RoundedSide(srcH, ratio, e.mulH);
    NearBySize(x', Side(srcW, r));
    NearBySize(y', Side(srcH, r));
    var (w, h) := Rounded(srcW, srcH, maxW, maxH, e);
    SameProduct(srcW, srcH, r);
    CrossProducts(srcW, srcH, w, h, x', y', Side(srcW, r), Side(srcH, r));
    WholeBounds(w * srcH - h * srcW, srcW, srcH);
    if srcW * maxH < PRODUCT_LIMIT && srcH * maxW < PRODUCT_LIMIT {
      StrictAspectIff(srcW, srcH, maxW, maxH);
    }
  }

  lemma SameProduct(srcW: int, srcH: int, r: real)
    ensures Times(srcH as real, Side(srcW, r)) == Times(srcW as real, Side(srcH, r))
  {
  }

  lemma WholeBounds(d: int, a: int, b: int)
    requires 0 < a && 0 < b && -1.000002 * b as real < d as real < 1.000002 * a as real
    ensures a <= 500000 && b <= 500000 ==> -b <= d <= a
  {
  }

  // ---------------------------------------------------------------------------
  // Larger bounds
  // ---------------------------------------------------------------------------

  lemma RatioGrows(srcW: int, srcH: int, small: int, large: int)
    requires srcW > 0 && srcH > 0 && 0 < 7 * small <= 5 * large
    ensures 0.0 < ExactRatio(srcW, srcH, small, small)
    ensures 1.4 * ExactRatio(srcW, srcH, small, small) <= ExactRatio(srcW, srcH, large, large)
  {
    QuotientGrows(small, large, srcW);
    QuotientGrows(small, large, srcH);
  }

  lemma QuotientGrows(small: int, large: int, src: int)
    requires src > 0 && 0 < 7 * small <= 5 * large
    ensures 0.0 < small as real / src as real && 1.4 * (small as real / src as real) <= large as real / src as real
  {
    DivMul(small as real, src as real);
    DivMul(large as real, src as real);
    Cancel(1.4 * (small as real / src as real), large as real / src as real, src as real);
  }

  lemma NearGrows(x1: real, y1: real, x2: real, y2: real)
    requires Near(x1, y1) && Near(x2, y2) && 1.4 * y1 <= y2
    ensures 0.0 <= x1 <= x2 && Truncate(x1) <= Truncate(x2)
  {
    assert 0.0 < DELTA < 0.1;
    MulMono(DELTA, 0.1, y1);
    MulMono(DELTA, 0.1, y2);
  }

  lemma SideGrows(src: int, r1: real, r2: real)
    requires src > 0 && 1.4 * r1 <= r2
    ensures 1.4 * Side(src, r1) <= Side(src, r2)
  {
    MulMono(1.4 * r1, r2, src as real);
  }

  /** Of two square bounds in the ratio 5 to 7 or more, the larger never gives a smaller side, however each of the
      two results was rounded. */
  lemma LargerBound(srcW: int, srcH: int, small: int, large: int, e1: Errors, e2: Errors)
    requires 0 < srcW < SIZE_LIMIT && 0 < srcH < SIZE_LIMIT && e1.Small() && e2.Small()
    requires 0 < 7 * small <= 5 * large < 5 * SIZE_LIMIT
    ensures var (w1, h1) := Rounded(srcW, srcH, small, small, e1);
            var (w2, h2) := Rounded(srcW, srcH, large, large, e2);
            w1 <= w2 && h1 <= h2
  {
    hide Side, RoundedSide, ExactRatio, RoundedRatio, Near, Truncate;
    RoundedFits(srcW, srcH, small, small, e1);
    if Scales(srcW, srcH, large, large) {
      var r1, r2 := ExactRatio(srcW, srcH, small, small), ExactRatio(srcW, srcH, large, large);
      RatioGrows(srcW, srcH, small, large);
      SidesAreNear(srcW, srcH, small, small, e1);
      SidesAreNear(srcW, srcH, large, large, e2);
      SideGrows(srcW, r1, r2);
      SideGrows(srcH, r1, r2);
      var ratio1, ratio2 := RoundedRatio(srcW, srcH, small, small, e1), RoundedRatio(srcW, srcH, large, large, e2);
      NearGrows(RoundedSide(srcW, ratio1, e1.mulW), Side(srcW, r1), RoundedSide(srcW, ratio2, e2.mulW), Side(srcW, r2));
      NearGrows(RoundedSide(srcH, ratio1, e1.mulH), Side(srcH, r1), RoundedSide(srcH, ratio2, e2.mulH), Side(srcH, r2));
    }
  }

  /** The computed sizes of small, medium, large and original_webp are a non-decreasing ladder up to the source,
      however each of them was rounded. */
  lemma VariantLadder(srcW: int, srcH: int, e1: Errors, e2: Errors, e3: Errors, e4: Errors)
    requires 0 < srcW < SIZE_LIMIT && 0 < srcH < SIZE_LIMIT
    requires e1.Small() && e2.Small() && e3.Small() && e4.Small()
    ensures var (small, medium) := (Rounded(srcW, srcH, 600, 600, e1), Rounded(srcW, srcH, 1024, 1024, e2));
            var (large, original) := (Rounded(srcW, srcH, 1440, 1440, e3), Rounded(srcW, srcH, 2048, 2048, e4));
            small.0 <= medium.0 <= large.0 <= original.0 <= srcW && small.1 <= medium.1 <= large.1 <= original.1 <= srcH
  {
    hide Rounded;
    LargerBound(srcW, srcH, 600, 1024, e1, e2);
    LargerBound(srcW, srcH, 1024, 1440, e2, e3);
    LargerBound(srcW, srcH, 1440, 2048, e3, e4);
    RoundedFits(srcW, srcH, 2048, 2048, e4);
  }

  // ---------------------------------------------------------------------------
  // One rounding function
  // ---------------------------------------------------------------------------

  const LEAST_VALUE: real := 1.0 / 4294967296.0 // 2^-32
  const GREATEST_VALUE: real := 4294967296.0    // 2^32

  /** A rounding mode, such as to the nearest float64: it is monotone, and off by at most EPS on the values that
      occur, which are far from overflow and underflow. */
  ghost predicate IsRounding(fl: real -> real) {
    && (forall x, y :: x <= y ==> fl(x) <= fl(y))
    && (forall x :: LEAST_VALUE <= x <= GREATEST_VALUE ==> x - x * EPS <= fl(x) <= x + x * EPS)
  }

  function ComputedRatio(srcW: int, srcH: int, maxW: int, maxH: int, fl: real -> real): real
    requires srcW > 0 && srcH > 0
  {
    Min(fl(Quotient(maxW, srcW)), fl(Quotient(maxH, srcH)))
  }

  function Computed(srcW: int, srcH: int, maxW: int, maxH: int, fl: real -> real): (int, int)
    requires Defined(srcW, srcH, maxW, maxH)
  {
    if srcW <= maxW && srcH <= maxH then (srcW, srcH)
    else
      var ratio := ComputedRatio(srcW, srcH, maxW, maxH, fl);
      (Truncate(fl(Side(srcW, ratio))), Truncate(fl(Side(srcH, ratio))))
  }

  lemma ErrorOf(x: real, y: real) returns (e: real)
    requires x > 0.0 && x - x * EPS <= y <= x + x * EPS
    ensures -EPS <= e <= EPS && y == x * (1.0 + e)
  {
    e := y / x - 1.0;
    DivMul(y, x);
    assert x * (1.0 + e) == y;
    Cancel(e, EPS, x);
    Cancel(-EPS, e, x);
  }

  lemma QuotientRange(max: int, src: int)
    requires 0 < max < SIZE_LIMIT && 0 < src < SIZE_LIMIT
    ensures 2.0 * LEAST_VALUE <= Quotient(max, src) <= GREATEST_VALUE
    ensures max < src ==> Quotient(max, src) < 1.0
  {
    DivMul(max as real, src as real);
    RangeOfFactor(Quotient(max, src), src as real, max as real);
  }

  lemma RangeOfFactor(x: real, s: real, m: real)
    requires 1.0 <= s <= SIZE_LIMIT as real && 1.0 <= m <= SIZE_LIMIT as real && s * x == m
    ensures 2.0 * LEAST_VALUE <= x <= GREATEST_VALUE
  {
    var lo, hi := 2.0 * LEAST_VALUE, GREATEST_VALUE;
    MulMono(s, SIZE_LIMIT as real, lo);
    assert SIZE_LIMIT as real * lo == 1.0 && SIZE_LIMIT as real <= hi;
    FactorAbove(x, s, m, lo);
    FactorBelow(x, s, m, hi);
  }

  lemma FactorAbove(x: real, s: real, m: real, lo: real)
    requires 0.0 < s && s * x == m && s * lo <= m
    ensures lo <= x
  {
    Cancel(lo, x, s);
  }

  lemma FactorBelow(x: real, s: real, m: real, hi: real)
    requires 1.0 <= s && s * x == m && m <= hi && 0.0 <= hi
    ensures x <= hi
  {
    MulMono(1.0, s, hi);
    Cancel(x, hi, s);
  }

  lemma ProductRange(src: int, ratio: real)
    requires 0 < src < SIZE_LIMIT && LEAST_VALUE <= ratio <= 2.0
    ensures LEAST_VALUE <= Side(src, ratio) <= GREATEST_VALUE
  {
    var s, x := src as real, src as real * ratio;
    MulMono(1.0, s, ratio);
    MulMono(ratio, 2.0, s);
    assert x >= ratio;
    assert x <= 2.0 * s;
  }

  lemma RoundedOnce(fl: real -> real, x: real) returns (e: real)
    requires IsRounding(fl) && LEAST_VALUE <= x <= GREATEST_VALUE
    ensures -EPS <= e <= EPS && fl(x) == Off(x, e)
  {
    e := ErrorOf(x, fl(x));
  }

  /** What a rounding function computes is covered by all that is said about small errors. */
  lemma ComputedIsRounded(srcW: int, srcH: int, maxW: int, maxH: int, fl: real -> real) returns (e: Errors)
    requires InRange(srcW, srcH, maxW, maxH) && IsRounding(fl)
    ensures e.Small() && Computed(srcW, srcH, maxW, maxH, fl) == Rounded(srcW, srcH, maxW, maxH, e)
  {
    hide IsRounding, Truncate, Off, Side, Quotient;
    e := NO_ERROR;
    if Scales(srcW, srcH, maxW, maxH) {
      QuotientRange(maxW, srcW);
      QuotientRange(maxH, srcH);
      var divW := RoundedOnce(fl, Quotient(maxW, srcW));
      var divH := RoundedOnce(fl, Quotient(maxH, srcH));
      var ratio := ComputedRatio(srcW, srcH, maxW, maxH, fl);
      SmallRatio(srcW, srcH, maxW, maxH, fl);
      ProductRange(srcW, ratio);
      ProductRange(srcH, ratio);
      var mulW := RoundedOnce(fl, Side(srcW, ratio));
      var mulH := RoundedOnce(fl, Side(srcH, ratio));
      e := Errors(divW, divH, mulW, mulH);
    }
  }

  lemma SmallRatio(srcW: int, srcH: int, maxW: int, maxH: int, fl: real -> real)
    requires InRange(srcW, srcH, maxW, maxH) && Scales(srcW, srcH, maxW, maxH) && IsRounding(fl)
    ensures LEAST_VALUE <= ComputedRatio(srcW, srcH, maxW, maxH, fl) <= 2.0
  {
    hide IsRounding, Quotient;
    QuotientRange(maxW, srcW);
    QuotientRange(maxH, srcH);
    RoundedRange(Quotient(maxW, srcW), fl);
    RoundedRange(Quotient(maxH, srcH), fl);
  }

  lemma RoundedRange(x: real, fl: real -> real)
    requires IsRounding(fl) && 2.0 * LEAST_VALUE <= x <= GREATEST_VALUE
    ensures LEAST_VALUE <= fl(x) && (x < 1.0 ==> fl(x) <= 2.0)
  {
    assert 0.0 < EPS < 0.001;
    MulMono(EPS, 0.001, x);
  }

  /** With one rounding function, a larger square bound never gives a smaller side. */
  lemma MonotoneInSquareBounds(srcW: int, srcH: int, small: int, large: int, fl: real -> real)
    requires 0 < small <= large && IsRounding(fl)
    requires InRange(srcW, srcH, small, small) && InRange(srcW, srcH, large, large)
    ensures var (w1, h1) := Computed(srcW, srcH, small, small, fl);
            var (w2, h2) := Computed(srcW, srcH, large, large, fl);
            w1 <= w2 && h1 <= h2
  {
    var e := ComputedIsRounded(srcW, srcH, small, small, fl);
    RoundedFits(srcW, srcH, small, small, e);
    if Scales(srcW, srcH, large, large) {
      ScaledMonotone(srcW, srcH, small, large, fl);
    }
  }

  lemma ScaledMonotone(srcW: int, srcH: int, small: int, large: int, fl: real -> real)
    requires srcW > 0 && srcH > 0 && small <= large && IsRounding(fl)
    ensures var r1, r2 := ComputedRatio(srcW, srcH, small, small, fl), ComputedRatio(srcW, srcH, large, large, fl);
            Truncate(fl(Side(srcW, r1))) <= Truncate(fl(Side(srcW, r2))) &&
            Truncate(fl(Side(srcH, r1))) <= Truncate(fl(Side(srcH, r2)))
  {
    hide IsRounding, Truncate, Side, Quotient;
    RoundedQuotients(small, large, srcW, fl);
    RoundedQuotients(small, large, srcH, fl);
    var r1, r2 := ComputedRatio(srcW, srcH, small, small, fl), ComputedRatio(srcW, srcH, large, large, fl);
    RoundedProducts(r1, r2, srcW, fl);
    RoundedProducts(r1, r2, srcH, fl);
  }

  lemma RoundedQuotients(small: int, large: int, src: int, fl: real -> real)
    requires src > 0 && small <= large && IsRounding(fl)
    ensures fl(Quotient(small, src)) <= fl(Quotient(large, src))
  {
    IntMulMono(small, large, src);
    DivLess(small, src, large, src);
  }

  lemma RoundedProducts(r1: real, r2: real, src: int, fl: real -> real)
    requires src > 0 && r1 <= r2 && IsRounding(fl)
    ensures Truncate(fl(Side(src, r1))) <= Truncate(fl(Side(src, r2)))
  {
    MulMono(r1, r2, src as real);
    assert Side(src, r1) <= Side(src, r2);
    TruncateMonotone(fl(Side(src, r1)), fl(Side(src, r2)));
  }

  lemma TruncateMonotone(x: real, y: real)
    requires x <= y
    ensures Truncate(x) <= Truncate(y)
  {
  }
}
