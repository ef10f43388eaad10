/** The arithmetic of the textured-triangle rasteriser of graphics.cpp: truncating division,
    16.16 fixed point, and the bound that truncated stepping between two values obeys. */
module FixedPoint {
  import opened Powers

  const ONE: int := 65536
  const HALF: int := 32768

  /** The division of C: the quotient is rounded towards zero. */
  function Quot(a: int, b: int): int
    requires b != 0
  {
    if a >= 0 then a / b else -((-a) / b)
  }

  /** int-style rounding of a fixed-point value as the code writes it. */
  function IntPart(v: int): int {
    if v < 0 then Quot(v - 65535, ONE) else Quot(v, ONE)
  }

  /** It is the arithmetic shift right by 16. */
  lemma IntPartFloor(v: int)
    ensures IntPart(v) == v / ONE
    ensures IntPart(v) * ONE <= v < IntPart(v) * ONE + ONE
  {}

  ghost predicate Within(v: int, a: int, b: int) {
    a <= v <= b || b <= v <= a
  }

  /** v lies on the way from a to b, not further than the share k / d of it. */
  ghost predicate Along(a: int, b: int, d: int, k: int, v: int) {
    && 0 <= k <= d && 0 < d
    && if a <= b then a <= v && (v - a) * d <= (b - a) * k
       else v <= a && (a - v) * d <= (a - b) * k
  }

  lemma AlongStart(a: int, b: int, d: int)
    requires 0 < d
    ensures Along(a, b, d, 0, a)
  {}

  lemma Cancel(p: int, q: int, d: int)
    requires 0 < d && p * d <= q * d
    ensures p <= q
  {}

  /** Whatever lies on the way lies between the ends. */
  lemma AlongWithin(a: int, b: int, d: int, k: int, v: int)
    requires Along(a, b, d, k, v)
    ensures Within(v, a, b)
  {
    if a <= b {
      assert (b - a) * k <= (b - a) * d;
      Cancel(v - a, b - a, d);
    } else {
      assert (a - b) * k <= (a - b) * d;
      Cancel(a - v, a - b, d);
    }
  }

  lemma QuotUp(n: int, d: int)
    requires 0 < d && 0 <= n
    ensures 0 <= Quot(n, d) && Quot(n, d) * d <= n
  {}

  lemma QuotDown(n: int, d: int)
    requires 0 < d && n <= 0
    ensures Quot(n, d) <= 0 && n <= Quot(n, d) * d
  {
    if n < 0 { QuotUp(-n, d); }
  }

  /** Advancing by a step that never overshoots its share j / d of the way. */
  lemma AlongAdd(a: int, b: int, d: int, k: int, v: int, j: int, t: int)
    requires Along(a, b, d, k, v) && 0 <= j && k + j <= d
    requires if a <= b then 0 <= t && t * d <= (b - a) * j else t <= 0 && (b - a) * j <= t * d
    ensures Along(a, b, d, k + j, v + t)
  {
    if a <= b {
      assert (v + t - a) * d == (v - a) * d + t * d;
      assert (b - a) * (k + j) == (b - a) * k + (b - a) * j;
    } else {
      assert (a - (v + t)) * d == (a - v) * d - t * d;
      assert (a - b) * (k + j) == (a - b) * k + (a - b) * j;
      assert (b - a) * j == -((a - b) * j);
    }
  }

  /** One row or pixel further: the truncated gradient is added. */
  lemma AlongStep(a: int, b: int, d: int, k: int, v: int)
    requires Along(a, b, d, k, v) && k + 1 <= d
    ensures Along(a, b, d, k + 1, v + Quot(b - a, d))
  {
    if a <= b { QuotUp(b - a, d); } else { QuotDown(b - a, d); }
    AlongAdd(a, b, d, k, v, 1, Quot(b - a, d));
  }

  /** j rows at once: the 64-bit product is divided and truncated. */
  lemma AlongJump(a: int, b: int, d: int, k: int, v: int, j: int)
    requires Along(a, b, d, k, v) && 0 <= j && k + j <= d
    ensures Along(a, b, d, k + j, v + Quot((b - a) * j, d))
  {
    if a <= b {
      assert 0 <= (b - a) * j;
      QuotUp((b - a) * j, d);
    } else {
      assert (b - a) * j <= 0;
      QuotDown((b - a) * j, d);
    }
    AlongAdd(a, b, d, k, v, j, Quot((b - a) * j, d));
  }

  /** After k rows the truncated steps are less than k units away from the exact position. */
  ghost predicate Near(a: int, b: int, d: int, k: int, v: int) {
    -(k * (d - 1)) <= (b - a) * k - (v - a) * d <= k * (d - 1)
  }

  lemma QuotNear(n: int, d: int)
    requires 0 < d
    ensures -(d - 1) <= n - Quot(n, d) * d <= d - 1
  {}

  lemma NearSum(e: int, f: int, k: int, j: int, w: int)
    requires 0 <= w && 0 <= j && -(k * w) <= e <= k * w && -w <= f <= w && (j == 0 ==> f == 0)
    ensures -((k + j) * w) <= e + f <= (k + j) * w
  {
    assert (k + j) * w == k * w + j * w;
    if j > 0 { assert w <= j * w; }
  }

  lemma NearJump(a: int, b: int, d: int, k: int, v: int, j: int)
    requires 0 < d && 0 <= k && 0 <= j && Near(a, b, d, k, v)
    ensures Near(a, b, d, k + j, v + Quot((b - a) * j, d))
  {
    var t := Quot((b - a) * j, d);
    QuotNear((b - a) * j, d);
    var e, f := (b - a) * k - (v - a) * d, (b - a) * j - t * d;
    if j == 0 { assert (b - a) * j == 0 && t == 0; }
    NearSum(e, f, k, j, d - 1);
    assert (b - a) * (k + j) == (b - a) * k + (b - a) * j;
    assert (v + t - a) * d == (v - a) * d + t * d;
  }

  lemma NearStep(a: int, b: int, d: int, k: int, v: int)
    requires 0 < d && 0 <= k && Near(a, b, d, k, v)
    ensures Near(a, b, d, k + 1, v + Quot(b - a, d))
  {
    NearJump(a, b, d, k, v, 1);
    assert (b - a) * 1 == b - a;
  }

  /** v is the position after k of d truncated steps from a to b. */
  ghost predicate Travelled(a: int, b: int, d: int, k: int, v: int) {
    Along(a, b, d, k, v) && Near(a, b, d, k, v)
  }

  lemma TravelStep(a: int, b: int, d: int, k: int, v: int)
    requires Travelled(a, b, d, k, v) && k + 1 <= d
    ensures Travelled(a, b, d, k + 1, v + Quot(b - a, d))
  {
    AlongStep(a, b, d, k, v);
    NearStep(a, b, d, k, v);
  }

  lemma TravelJump(a: int, b: int, d: int, k: int, v: int, j: int)
    requires Travelled(a, b, d, k, v) && 0 <= j && k + j <= d
    ensures Travelled(a, b, d, k + j, v + Quot((b - a) * j, d))
  {
    AlongJump(a, b, d, k, v, j);
    NearJump(a, b, d, k, v, j);
  }

  // --------------------------------------------------------------------------------------
  // Along a row: a and b are the texture coordinates of two edges that are d units apart in x
  // --------------------------------------------------------------------------------------

  /** The texture gradient of a row, per pixel. */
  function Slope(a: int, b: int, d: int): int
    requires d != 0
  {
    Quot((b - a) * ONE, d)
  }

  lemma SlopeShare(a: int, b: int, d: int)
    requires 0 < d
    ensures if a <= b then 0 <= Slope(a, b, d) && Slope(a, b, d) * d <= (b - a) * ONE
            else Slope(a, b, d) <= 0 && (b - a) * ONE <= Slope(a, b, d) * d
  {
    if a <= b { QuotUp((b - a) * ONE, d); } else { QuotDown((b - a) * ONE, d); }
  }

  lemma AlignShare(w: int, d: int, s: int, m: int)
    requires 0 < d && 0 <= s && 0 <= m && m * d <= w * ONE
    ensures var t := Quot(s * m, ONE); 0 <= t && t * d <= w * s
  {
    var t := Quot(s * m, ONE);
    assert 0 <= s * m;
    QuotUp(s * m, ONE);
    calc {
      t * d * ONE;
    ==
      t * ONE * d;
    <= { assert (s * m - t * ONE) * d >= 0; }
      s * m * d;
    ==
      s * (m * d);
    <= { assert s * (w * ONE - m * d) >= 0; }
      s * (w * ONE);
    ==
      w * s * ONE;
    }
    Cancel(t * d, w * s, ONE);
  }

  /** Alignment from the edge to a pixel centre at distance s. */
  lemma AlongAlign(a: int, b: int, d: int, s: int)
    requires 0 < d && 0 <= s <= d
    ensures Along(a, b, d, s, a + Quot(s * Slope(a, b, d), ONE))
  {
    var m := Slope(a, b, d);
    SlopeShare(a, b, d);
    AlongStart(a, b, d);
    hide *;
    if a <= b {
      AlignShare(b - a, d, s, m);
    } else {
      AlignShareDown(b - a, d, s, m);
    }
    AlongAdd(a, b, d, 0, a, s, Quot(s * m, ONE));
  }

  lemma AlignShareDown(w: int, d: int, s: int, m: int)
    requires 0 < d && 0 <= s && m <= 0 && w * ONE <= m * d
    ensures var t := Quot(s * m, ONE); t <= 0 && w * s <= t * d
  {
    Opposite(m, d);
    Opposite(s, m);
    Opposite(w, s);
    AlignShare(-w, d, s, -m);
    QuotOpposite(s * m, ONE);
    hide *;
    Opposite(Quot(s * m, ONE), d);
  }

  lemma Opposite(a: int, b: int)
    ensures -a * b == -(a * b) && a * -b == -(a * b)
  {}

  lemma QuotOpposite(n: int, d: int)
    requires 0 < d
    ensures Quot(-n, d) == -Quot(n, d)
  {}

  /** From one pixel centre to the next. */
  lemma AlongPixel(a: int, b: int, d: int, k: int, v: int)
    requires Along(a, b, d, k, v) && k + ONE <= d
    ensures Along(a, b, d, k + ONE, v + Slope(a, b, d))
  {
    SlopeShare(a, b, d);
    AlongAdd(a, b, d, k, v, ONE, Slope(a, b, d));
  }

  /** Clipping m pixels off the left end at once. */
  lemma AlongClip(a: int, b: int, d: int, k: int, v: int, m: int)
    requires Along(a, b, d, k, v) && 0 <= m && k + ONE * m <= d
    ensures Along(a, b, d, k + ONE * m, v + Quot((b - a) * ONE * m, d))
  {
    assert (b - a) * ONE * m == (b - a) * (ONE * m);
    AlongJump(a, b, d, k, v, ONE * m);
  }

  /** After a distance of k / ONE pixels the texture coordinate is at most one unit, and one
      more per pixel, away from the exact interpolation. */
  ghost predicate Close(a: int, b: int, d: int, k: int, v: int) {
    var e := (b - a) * k - (v - a) * d;
    -(d * (k + ONE)) <= e * ONE <= d * (k + ONE)
  }

  /** v is the texture coordinate at distance k of d on the way from a to b. */
  ghost predicate Share(a: int, b: int, d: int, k: int, v: int) {
    Along(a, b, d, k, v) && Close(a, b, d, k, v)
  }

  lemma CloseAdd(a: int, b: int, d: int, k: int, v: int, j: int, t: int)
    requires Close(a, b, d, k, v)
    requires -(d * j) <= ((b - a) * j - t * d) * ONE <= d * j
    ensures Close(a, b, d, k + j, v + t)
  {
    var e, f := (b - a) * k - (v - a) * d, (b - a) * j - t * d;
    assert (b - a) * (k + j) == (b - a) * k + (b - a) * j;
    assert (v + t - a) * d == (v - a) * d + t * d;
    assert d * (k + j + ONE) == d * (k + ONE) + d * j;
  }

  lemma Spread(s: int, a: int, b: int)
    ensures s * (a - b) == s * a - s * b && (a - b) * s == s * a - s * b
  {}

  lemma Bounded(s: int, p: int, m: int)
    requires 0 <= s && -m <= p <= m
    ensures -(s * m) <= s * p <= s * m
  {
    Spread(s, m, p);
    Spread(s, p, -m);
    assert s * -m == -(s * m);
  }

  lemma AlignClose(w: int, d: int, s: int, m: int, t: int)
    requires 0 < d && 0 <= s && -(d - 1) <= w * ONE - m * d <= d - 1 && -(ONE - 1) <= s * m - t * ONE <= ONE - 1
    ensures -(d * (s + ONE)) <= (w * s - t * d) * ONE <= d * (s + ONE)
  {
    var p, q := w * ONE - m * d, s * m - t * ONE;
    Spread(s, w * ONE, m * d);
    Spread(d, s * m, t * ONE);
    assert s * (m * d) == d * (s * m);
    assert s * (w * ONE) == w * s * ONE && d * (t * ONE) == t * d * ONE;
    assert (w * s - t * d) * ONE == s * p + d * q;
    Bounded(s, p, d);
    Bounded(d, q, ONE);
    assert d * (s + ONE) == s * d + d * ONE;
  }

  lemma ShareAlign(a: int, b: int, d: int, s: int)
    requires 0 < d && 0 <= s <= d
    ensures Share(a, b, d, s, a + Quot(s * Slope(a, b, d), ONE))
  {
    AlongAlign(a, b, d, s);
    var m := Slope(a, b, d);
    QuotNear((b - a) * ONE, d);
    QuotNear(s * m, ONE);
    AlignClose(b - a, d, s, m, Quot(s * m, ONE));
  }

  lemma SharePixel(a: int, b: int, d: int, k: int, v: int)
    requires Share(a, b, d, k, v) && k + ONE <= d
    ensures Share(a, b, d, k + ONE, v + Slope(a, b, d))
  {
    AlongPixel(a, b, d, k, v);
    QuotNear((b - a) * ONE, d);
    CloseAdd(a, b, d, k, v, ONE, Slope(a, b, d));
  }

  lemma CloseClip(a: int, b: int, d: int, k: int, v: int, j: int)
    requires Close(a, b, d, k, v) && 0 < d && ONE <= j
    ensures Close(a, b, d, k + j, v + Quot((b - a) * j, d))
  {
    QuotNear((b - a) * j, d);
    assert d * ONE <= d * j;
    CloseAdd(a, b, d, k, v, j, Quot((b - a) * j, d));
  }

  lemma ShareClip(a: int, b: int, d: int, k: int, v: int, m: int)
    requires Share(a, b, d, k, v) && 0 < m && k + ONE * m <= d
    ensures Share(a, b, d, k + ONE * m, v + Quot((b - a) * ONE * m, d))
  {
    AlongClip(a, b, d, k, v, m);
    assert (b - a) * ONE * m == (b - a) * (ONE * m);
    CloseClip(a, b, d, k, v, ONE * m);
  }

  // --------------------------------------------------------------------------------------
  // The 32-bit variable the gradient is kept in
  // --------------------------------------------------------------------------------------

  /** When the ends are at least half a pixel apart and less than 2^30 in texture coordinates,
      the gradient fits; nearer ends can lose it. */
  lemma SlopeFits(a: int, b: int, d: int)
    requires HALF <= d && -0x4000_0000 <= b - a < 0x4000_0000
    ensures ToInt32(Slope(a, b, d)) == Slope(a, b, d)
  {
    SlopeShare(a, b, d);
    hide Slope;
    SmallSlope(if a <= b then b - a else a - b, if a <= b then Slope(a, b, d) else -Slope(a, b, d), d);
  }

  /** These are exactly the ends whose gradient fits at every such distance. */
  lemma SlopeFitsIff(a: int, b: int)
    ensures (forall d :: HALF <= d ==> ToInt32(Slope(a, b, d)) == Slope(a, b, d)) <==> -0x4000_0000 <= b - a < 0x4000_0000
  {
    if -0x4000_0000 <= b - a < 0x4000_0000 {
      forall d | HALF <= d
        ensures ToInt32(Slope(a, b, d)) == Slope(a, b, d)
      {
        SlopeFits(a, b, d);
      }
    } else {
      assert Slope(a, b, HALF) == 2 * (b - a);
    }
  }

  lemma SmallSlope(w: int, m: int, d: int)
    requires HALF <= d && 0 <= m && m * d <= w * ONE
    ensures m <= 2 * w
  {
    assert m * HALF <= m * d;
    Cancel(m, 2 * w, HALF);
  }
}
