/** Left and right are told apart at the middle of the first run, with truncated increments.
    This module bounds how far that can be wrong: the edges of a row are never crossed by more
    than a few units per row of the triangle. */
module EdgeOrder {
  import opened Arith
  import opened FixedPoint
  import opened Rasteriser
  import opened Triangle
  import opened EdgeChoice

  /** Units of x per row. */
  ghost function Rate(g: Gradient): real
    requires g.p1.y < g.p2.y
  {
    (g.p2.x - g.p1.x) as real / (g.p2.y - g.p1.y) as real
  }

  /** The true position of an edge at a row. */
  ghost function Exact(g: Gradient, y: real): real
    requires g.p1.y < g.p2.y
  {
    g.p1.x as real + Rate(g) * (y - g.p1.y as real)
  }

  lemma Divide(p: real, q: real, d: real)
    requires 0.0 < d && p * d <= q * d
    ensures p <= q
  {}

  lemma ScaledNear(n: int, d: int, t: int, m: int)
    requires 0 < d && -(m * d) <= n - t * d <= m * d
    ensures -(m as real) <= n as real / d as real - t as real <= m as real
  {
    var q, e := n as real / d as real, d as real;
    assert q * e == n as real;
    assert (n - t * d) as real == (q - t as real) * e;
    assert (m * d) as real == m as real * e;
    Divide(q - t as real, m as real, e);
    assert -(m as real) * e == -(m as real * e);
    Divide(-(m as real), q - t as real, e);
  }

  lemma Times(n: int, d: int, k: int)
    requires 0 < d
    ensures (n * k) as real / d as real == (n as real / d as real) * k as real
  {
    var q, e := n as real / d as real, d as real;
    assert q * e == n as real;
    assert (n * k) as real == n as real * k as real;
    assert (q * k as real) * e == (n * k) as real;
  }

  lemma StepsApart(a: int, b: int, d: int, k: int, v: int)
    requires Travelled(a, b, d, k, v)
    ensures -(k as real) <= v as real - (a as real + ((b - a) as real / d as real) * k as real) <= k as real
  {
    assert k * (d - 1) <= k * d;
    ScaledNear((b - a) * k, d, v - a, k);
    Times(b - a, d, k);
  }

  /** The stepped position is less than a unit per row off. */
  lemma StepsNear(g: Gradient, y: int)
    requires Sloped(g, y)
    ensures var k := y - g.p1.y; -(k as real) <= g.x as real - Exact(g, y as real) <= k as real
  {
    hide Travelled;
    var a, b, d, k := g.p1.x, g.p2.x, g.p2.y - g.p1.y, y - g.p1.y;
    StepsApart(a, b, d, k, g.x);
    assert k as real == y as real - g.p1.y as real;
  }

  lemma Unmoved(a: int, b: int, d: int, v: int)
    requires Travelled(a, b, d, 0, v)
    ensures v == a
  {
    Cancel(0, v - a, d);
    Cancel(v - a, 0, d);
  }

  lemma Combine(twice: int, p: int, e: real, x: real, h: int)
    requires -1 <= twice - p <= 1 && -(h as real) <= e <= h as real && e == x - p as real
    ensures -((h + 1) as real) <= twice as real - x <= (h + 1) as real
  {
    assert (twice - p) as real == twice as real - p as real;
  }

  lemma HalfQuot(p: int)
    ensures -1 <= 2 * Quot(p, 2) - p <= 1
  {}

  lemma HalfNear(i: int, p: int, q: int, r: real, h: int)
    requires 0 <= h && -1.0 <= r - i as real <= 1.0 && p == i * h && -1 <= 2 * q - p <= 1
    ensures -((h + 1) as real) <= (2 * q) as real - r * h as real <= (h + 1) as real
  {
    var e, x := (r - i as real) * h as real, r * h as real;
    SmallTimes(r - i as real, h as real, e);
    ErrorTimes(i, p, r, h, e, x);
    Combine(2 * q, p, e, x, h);
  }

  lemma ErrorTimes(i: int, p: int, r: real, h: int, e: real, x: real)
    requires p == i * h && e == (r - i as real) * h as real && x == r * h as real
    ensures e == x - p as real
  {
    ProductReal(i, h);
    DifferenceTimes(r, i as real, h as real);
  }

  lemma ProductReal(i: int, h: int)
    ensures (i * h) as real == i as real * h as real
  {}

  lemma DifferenceTimes(r: real, i: real, h: real)
    ensures (r - i) * h == r * h - i * h
  {}

  lemma RateNear(g: Gradient, y: int)
    requires Sloped(g, y)
    ensures -1.0 <= Rate(g) - g.xi as real <= 1.0
  {
    hide OnEdge;
    var n, d := g.p2.x - g.p1.x, g.p2.y - g.p1.y;
    QuotNear(n, d);
    ScaledNear(n, d, g.xi, 1);
  }

  /** The midpoint by truncated increments is near the true one. */
  lemma MidNear(g: Gradient, h: int)
    requires Sloped(g, g.p1.y) && 0 <= h
    ensures -((h + 1) as real) <= 2.0 * (MidX(g, h) as real - Exact(g, g.p1.y as real + h as real / 2.0)) <= (h + 1) as real
  {
    hide Sloped, Quot, Rate, Exact, MidX;
    AtStart(g);
    RateNear(g, g.p1.y);
    MidNearFrom(g, h, Quot(g.xi * h, 2), Rate(g));
  }

  lemma AtStart(g: Gradient)
    requires Sloped(g, g.p1.y)
    ensures g.x == g.p1.x && g.p1.y < g.p2.y
  {
    hide Travelled;
    Unmoved(g.p1.x, g.p2.x, g.p2.y - g.p1.y, g.x);
  }

  lemma MidNearFrom(g: Gradient, h: int, q: int, r: real)
    requires g.x == g.p1.x && g.p1.y < g.p2.y && 0 <= h && -1.0 <= r - g.xi as real <= 1.0
    requires q == Quot(g.xi * h, 2) && r == Rate(g)
    ensures -((h + 1) as real) <= 2.0 * (MidX(g, h) as real - Exact(g, g.p1.y as real + h as real / 2.0)) <= (h + 1) as real
  {
    HalfQuot(g.xi * h);
    HalfNear(g.xi, g.xi * h, q, r, h);
    hide Quot, Rate;
    MidOffset(g.p1.x, g.p1.y, q, r, h);
  }

  lemma MidOffset(x: int, y: int, q: int, r: real, h: int)
    ensures 2.0 * ((x + q) as real - (x as real + r * (y as real + h as real / 2.0 - y as real))) == (2 * q) as real - r * h as real
  {
    var k, m := y as real + h as real / 2.0 - y as real, h as real / 2.0;
    assert k == m;
    assert r * m + r * m == r * h as real;
    assert (x + q) as real == x as real + q as real;
    assert (2 * q) as real == q as real + q as real;
  }

  lemma NonNegative(a: real, b: real)
    requires 0.0 <= a && 0.0 <= b
    ensures 0.0 <= a * b
  {}

  lemma SmallTimes(d: real, h: real, e: real)
    requires -1.0 <= d <= 1.0 && 0.0 <= h && e == d * h
    ensures -h <= e <= h
  {
    NonNegative(1.0 - d, h);
    NonNegative(1.0 + d, h);
    DifferenceTimes(1.0, d, h);
    DifferenceTimes(1.0, -d, h);
  }

  ghost function Excess(g1: Gradient, g2: Gradient, y: real): real
    requires g1.p1.y < g1.p2.y && g2.p1.y < g2.p2.y
  {
    Exact(g1, y) - Exact(g2, y)
  }

  ghost function ExcessAt(g1: Gradient, g2: Gradient, y: int): real
    requires g1.p1.y < g1.p2.y && g2.p1.y < g2.p2.y
  {
    Excess(g1, g2, y as real)
  }

  /** Straight lines stay below a bound they keep at both ends. */
  lemma Chord(g1: Gradient, g2: Gradient, a: real, b: real, y: real, m: real)
    requires g1.p1.y < g1.p2.y && g2.p1.y < g2.p2.y
    requires a <= y <= b && Excess(g1, g2, a) <= m && Excess(g1, g2, b) <= m
    ensures Excess(g1, g2, y) <= m
  {
    hide Excess, Rate, Exact;
    var c := Rate(g1) - Rate(g2);
    ExcessLinear(g1, g2, a, y);
    ExcessLinear(g1, g2, y, b);
    if c >= 0.0 {
      NonNegative(c, b - y);
    } else {
      NonNegative(-c, y - a);
      assert -c * (y - a) == -(c * (y - a));
    }
  }

  lemma ExcessLinear(g1: Gradient, g2: Gradient, a: real, b: real)
    requires g1.p1.y < g1.p2.y && g2.p1.y < g2.p2.y
    ensures Excess(g1, g2, b) - Excess(g1, g2, a) == (Rate(g1) - Rate(g2)) * (b - a)
  {
    hide Rate;
    ExactLinear(g1, a, b);
    ExactLinear(g2, a, b);
    hide Exact;
    DifferenceTimes(Rate(g1), Rate(g2), b - a);
  }

  lemma ExactLinear(g: Gradient, a: real, b: real)
    requires g.p1.y < g.p2.y
    ensures Exact(g, b) - Exact(g, a) == Rate(g) * (b - a)
  {
    hide Rate;
    var r, o := Rate(g), g.p1.y as real;
    assert r * (b - o) - r * (a - o) == r * (b - a);
  }

  lemma Doubled(g1: Gradient, g2: Gradient, a: real, h: real)
    requires g1.p1.y < g1.p2.y && g2.p1.y < g2.p2.y
    ensures Excess(g1, g2, a) + Excess(g1, g2, a + h) == 2.0 * Excess(g1, g2, a + h / 2.0)
  {
    hide Excess, Rate, Exact;
    var c := Rate(g1) - Rate(g2);
    ExcessLinear(g1, g2, a, a + h);
    ExcessLinear(g1, g2, a, a + h / 2.0);
    assert a + h - a == h && a + h / 2.0 - a == h / 2.0 && c * h == 2.0 * (c * (h / 2.0));
  }

  lemma AtEnds(g: Gradient)
    requires g.p1.y < g.p2.y
    ensures Exact(g, g.p1.y as real) == g.p1.x as real && Exact(g, g.p2.y as real) == g.p2.x as real
  {
    var d := (g.p2.y - g.p1.y) as real;
    assert Rate(g) * d == (g.p2.x - g.p1.x) as real;
  }

  /** At the middle of a run that starts at a common row the true edges are in order up to the
      truncation. */
  lemma MidOrder(g1: Gradient, g2: Gradient, top: int, h: int)
    requires Sloped(g1, top) && Sloped(g2, top) && g1.y1 == g2.y1 == top && 0 <= h
    requires MidX(g1, h) <= MidX(g2, h)
    ensures Excess(g1, g2, top as real + h as real / 2.0) <= (h + 1) as real
  {
    MidNear(g1, h);
    MidNear(g2, h);
  }

  /** Rows on which both edges exist. */
  ghost predicate Crossed(g1: Gradient, g2: Gradient, a: int, b: int, m: int)
  {
    && g1.p1.y < g1.p2.y && g2.p1.y < g2.p2.y
    && forall y :: a <= y <= b ==> ExcessAt(g1, g2, y) <= m as real
  }

  lemma ChordRows(g1: Gradient, g2: Gradient, a: int, b: int, m: int)
    requires g1.p1.y < g1.p2.y && g2.p1.y < g2.p2.y
    requires Excess(g1, g2, a as real) <= m as real && Excess(g1, g2, b as real) <= m as real
    ensures Crossed(g1, g2, a, b, m)
  {
    forall y | a <= y <= b
      ensures ExcessAt(g1, g2, y) <= m as real
    {
      Chord(g1, g2, a as real, b as real, y as real, m as real);
    }
  }

  lemma WedgeOrder(g1: Gradient, g2: Gradient, top: int, bottom: int)
    requires Wedge(g1, g2, top, bottom) && MidX(g1, bottom - top) <= MidX(g2, bottom - top)
    ensures Crossed(g1, g2, top, bottom, 2 * (bottom - top) + 2)
  {
    var h := bottom - top;
    MidOrder(g1, g2, top, h);
    Doubled(g1, g2, top as real, h as real);
    AtEnds(g1);
    AtEnds(g2);
    ChordRows(g1, g2, top, bottom, 2 * h + 2);
  }

  /** The first run of a bent triangle, and the second with the third edge in the place of the
      one that ended. */
  lemma BentOrder(g1: Gradient, g2: Gradient, g3: Gradient, top: int, bottom: int)
    requires Bent(g1, g2, g3, top, bottom) || Bent(g2, g1, g3, top, bottom)
    requires var h := Min(g1.y2, g2.y2) - top; MidX(g1, h) <= MidX(g2, h)
    ensures Crossed(g1, g2, top, g3.y1, 2 * (bottom - top) + 2)
    ensures if g1.y2 < g2.y2 then Crossed(g3, g2, g3.y1, bottom, 2 * (bottom - top) + 2)
            else Crossed(g1, g3, g3.y1, bottom, 2 * (bottom - top) + 2)
  {
    var mid := g3.y1;
    var h, m := mid - top, 2 * (bottom - top) + 2;
    MidOrder(g1, g2, top, h);
    Doubled(g1, g2, top as real, h as real);
    AtEnds(g1);
    AtEnds(g2);
    AtEnds(g3);
    ChordRows(g1, g2, top, mid, m);
    if g1.y2 < g2.y2 {
      ChordRows(g3, g2, mid, bottom, m);
    } else {
      ChordRows(g1, g3, mid, bottom, m);
    }
  }

  lemma SameEdge(h: Gradient, g: Gradient, y: int)
    requires Moved(h, g) && g.p1.y < g.p2.y
    ensures Exact(h, y as real) == Exact(g, y as real)
  {}

  /** With the steps' own error, a row's edges cross by at most four units per row. */
  lemma RowOrder(g1: Gradient, g2: Gradient, h1: Gradient, h2: Gradient, y: int, a: int, b: int, h: int)
    requires Crossed(g1, g2, a, b, 2 * h + 2) && a <= y <= b
    requires Moved(h1, g1) && Moved(h2, g2) && Sloped(h1, y) && Sloped(h2, y)
    requires y - h1.p1.y <= h && y - h2.p1.y <= h
    ensures h1.x - h2.x <= 4 * h + 2
  {
    StepsNear(h1, y);
    StepsNear(h2, y);
    assert h1.p1.y < h1.p2.y && h2.p1.y < h2.p2.y;
    hide Sloped;
    SameEdge(h1, g1, y);
    SameEdge(h2, g2, y);
    hide Exact, Rate;
    assert ExcessAt(g1, g2, y) <= (2 * h + 2) as real;
    assert (h1.x - h2.x) as real <= (4 * h + 2) as real;
  }
}
