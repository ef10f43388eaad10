/** sub__maptriangle in graphics.cpp from the accepted vertices on: what it draws. */
module DrawTriangle {
  import opened Arith
  import opened FixedPoint
  import opened Rasteriser
  import opened Triangle
  import opened EdgeChoice
  import opened EdgeOrder

  /** The two ends of a row lie on two different edges of the triangle, where these are at that
      row, and the left one is not right of the right one by more than four units per row of the
      triangle. A triangle that is a single row runs from its leftmost to its rightmost vertex. */
  ghost predicate OnEdges(s: Scan, p: seq<Point>, c: Choice) {
    && |p| == 3 && Distinct(c) && Moved(s.l, EdgeAt(p, c.i1)) && Moved(s.r, EdgeAt(p, c.i2))
    && s.l.x - s.r.x <= 4 * (Bottom(p) - Top(p)) + 2
    && if Top(p) == Bottom(p) then Row(s.l, s.r, p, s.y) else Sloped(s.l, s.y) && Sloped(s.r, s.y)
  }

  ghost predicate HasEdges(s: Scan, p: seq<Point>) {
    exists c :: OnEdges(s, p, c)
  }

  ghost predicate Edges(scans: seq<Scan>, p: seq<Point>) {
    forall i :: 0 <= i < |scans| ==> HasEdges(scans[i], p)
  }

  lemma HeightBound(p: seq<Point>, i: nat)
    requires |p| == 3 && i < 3
    ensures Top(p) <= EdgeAt(p, i).y1 <= EdgeAt(p, i).y2 <= Bottom(p)
  {}

  /** On a surface of the range the source accepts, edges never cross by more than two pixels. */
  lemma CrossingSmall(s: Scan, p: seq<Point>, c: Choice)
    requires OnEdges(s, p, c) && Bottom(p) - Top(p) <= 32766
    ensures IntPart(s.l.x) <= IntPart(s.r.x) + 2
  {
    IntPartFloor(s.l.x);
    IntPartFloor(s.r.x);
  }

  lemma ScanEdges(s: Scan, g1: Gradient, g2: Gradient, p: seq<Point>, c: Choice, b: Box, lo: int, hi: int)
    requires |p| == 3 && Ready(s.l, s.y, b) && Ready(s.r, s.y, b) && Moved(s.l, g1) && Moved(s.r, g2)
    requires Distinct(c) && Moved(g1, EdgeAt(p, c.i1)) && Moved(g2, EdgeAt(p, c.i2))
    requires g1.y1 < g1.y2 && g2.y1 < g2.y2 && Top(p) < Bottom(p)
    requires Crossed(g1, g2, lo, hi, 2 * (Bottom(p) - Top(p)) + 2)
    requires lo <= Max(g1.y1, g2.y1) && Min(g1.y2, g2.y2) <= hi
    ensures OnEdges(s, p, c)
  {
    HeightBound(p, c.i1);
    HeightBound(p, c.i2);
    hide Crossed, EdgeAt, Row, Top, Bottom;
    assert Sloped(s.l, s.y) && Sloped(s.r, s.y);
    SlopedRows(s.l, s.y);
    SlopedRows(s.r, s.y);
    hide Sloped;
    RowOrder(g1, g2, s.l, s.r, s.y, lo, hi, Bottom(p) - Top(p));
  }

  lemma MoreEdges(scans0: seq<Scan>, scans: seq<Scan>, g1: Gradient, g2: Gradient, p: seq<Point>, c: Choice,
                  log: seq<Fetch>, top: int, b: Box, width: int, seamless: bool, lo: int, hi: int)
    requires |p| == 3 && Edges(scans0, p) && Between(scans, scans0, g1, g2) && Scanned(log, scans, top, b, width, seamless)
    requires Distinct(c) && Moved(g1, EdgeAt(p, c.i1)) && Moved(g2, EdgeAt(p, c.i2))
    requires g1.y1 < g1.y2 && g2.y1 < g2.y2 && Top(p) < Bottom(p)
    requires Crossed(g1, g2, lo, hi, 2 * (Bottom(p) - Top(p)) + 2)
    requires lo <= Max(g1.y1, g2.y1) && Min(g1.y2, g2.y2) <= hi
    ensures Edges(scans, p)
  {
    hide Crossed, EdgeAt, OnEdges, Ready, RowExact, Top, Bottom;
    forall i | 0 <= i < |scans|
      ensures HasEdges(scans[i], p)
    {
      if i < |scans0| {
        assert scans[i] == scans0[i];
      } else {
        ScanEdges(scans[i], g1, g2, p, c, b, lo, hi);
      }
    }
  }

  lemma SlopedRows(g: Gradient, y: int)
    requires Sloped(g, y)
    ensures g.y1 == g.p1.y <= y <= g.p2.y == g.y2
  {}

  lemma RowEdges(scans: seq<Scan>, g1: Gradient, g2: Gradient, p: seq<Point>, c: Choice,
                 log: seq<Fetch>, top: int, b: Box, width: int, seamless: bool)
    requires |p| == 3 && Between(scans, [], g1, g2) && Scanned(log, scans, top, b, width, seamless)
    requires Distinct(c) && Moved(g1, EdgeAt(p, c.i1)) && Moved(g2, EdgeAt(p, c.i2))
    requires Top(p) == Bottom(p) && Row(g1, g2, p, Top(p))
    ensures Edges(scans, p)
  {
    hide EdgeAt, OnEdge;
    forall i | 0 <= i < |scans|
      ensures HasEdges(scans[i], p)
    {
      assert scans[i].l == g1 && scans[i].r == g2 && Ready(g1, scans[i].y, b);
      assert scans[i].y == Top(p);
      assert OnEdges(scans[i], p, c);
    }
  }

  /** Some row and some column of the triangle are on the surface. */
  predicate Visible(p: seq<Point>, width: int, height: int)
    requires |p| == 3
  {
    && Bottom(p) >= 0 && Top(p) < height
    && Max(IntPart(p[0].x), Max(IntPart(p[1].x), IntPart(p[2].x))) >= 0
    && Min(IntPart(p[0].x), Min(IntPart(p[1].x), IntPart(p[2].x))) < width
  }

  /** A pixel in the smallest rectangle of pixels that the three vertices are in. */
  ghost predicate Around(p: seq<Point>, x: int, y: int)
    requires |p| == 3
  {
    && (IntPart(p[0].x) <= x || IntPart(p[1].x) <= x || IntPart(p[2].x) <= x)
    && (x <= IntPart(p[0].x) || x <= IntPart(p[1].x) || x <= IntPart(p[2].x))
    && (p[0].y <= y || p[1].y <= y || p[2].y <= y) && (y <= p[0].y || y <= p[1].y || y <= p[2].y)
  }

  /** Nothing is drawn at once exactly if no pixel of that rectangle is on the surface. */
  lemma VisibleIff(p: seq<Point>, width: nat, height: nat)
    requires |p| == 3 && 0 < width && 0 < height
    ensures Visible(p, width, height) <==> exists x, y :: 0 <= x < width && 0 <= y < height && Around(p, x, y)
  {
    hide IntPart;
    if Visible(p, width, height) {
      var x := Max(0, Min(IntPart(p[0].x), Min(IntPart(p[1].x), IntPart(p[2].x))));
      var y := Max(0, Top(p));
      assert Around(p, x, y);
    }
  }

  /** The drawing: both runs, each row once. */
  method Draw(r: Raster, p: seq<Point>, ghost b: Box) returns (ghost log: seq<Fetch>, ghost scans: seq<Scan>)
    requires r.Ok() && ThreeIn(p, b) && Accepts(r, b)
    requires forall i :: 0 <= i < 3 ==> -0x8000_0000 <= p[i].x < 0x8000_0000
    modifies r.dst
    ensures r.Painted(old(r.dst[..]), r.dst[..], log)
    ensures Scanned(log, scans, Max(0, Top(p)), b, r.dwidth, r.seamless) && Edges(scans, p)
    ensures if Visible(p, r.dwidth, r.dheight)
            then Max(0, Top(p)) + |scans| == Max(Max(0, Top(p)), Min(LastY(Bottom(p), true, r.seamless), r.dheight - 1) + 1)
            else scans == [] && log == []
  {
    hide Chosen, Bottom, Top, Ready, Sloped, Scanned, Raster.Painted, Edges, Accepts, Raster.Ok;
    ghost var before, top := r.dst[..], Max(0, Top(p));
    log, scans := [], [];
    NothingDrawn(r, before, top, p, b);
    if !Visible(p, r.dwidth, r.dheight) {
      return;
    }
    var g1, g2, g3, final, y1, y2;
    ghost var c;
    g1, g2, g3, final, y1, y2, c := Choose(p, b);
    FirstReady(g1, g2, g3, final, p, c, b);
    var last;
    var h1, h2;
    h1, h2, last, log, scans := Pass(r, g1, g2, y1, y2, final, b, before, top, log, scans);
    FirstEdges(scans, g1, g2, g3, final, p, c, log, top, b, r.dwidth, r.seamless);
    if !final && last < r.dheight - 1 {
      var k1, k2 := h1, h2;
      if h1.y2 < h2.y2 {
        k1 := g3;
      } else {
        k2 := g3;
      }
      NextReady(g1, g2, g3, h1, h2, p, c, b);
      ghost var scans0 := scans;
      k1, k2 := Advance(k1), Advance(k2);
      h1, h2, last, log, scans := Pass(r, k1, k2, g3.y1 + 1, g3.y2, true, b, before, top, log, scans);
      NextEdges(scans0, scans, g1, g2, g3, k1, k2, p, c, log, top, b, r.dwidth, r.seamless);
    }
  }

  lemma NothingDrawn(r: Raster, before: seq<Pixel>, top: int, p: seq<Point>, b: Box)
    requires r.Ok() && |before| == r.dst.Length
    ensures r.Painted(before, before, []) && Scanned([], [], top, b, r.dwidth, r.seamless) && Edges([], p)
  {}

  lemma FirstReady(g1: Gradient, g2: Gradient, g3: Gradient, final: bool, p: seq<Point>, c: Choice, b: Box)
    requires Chosen(g1, g2, g3, final, p, c, b)
    ensures Ready(g1, Top(p), b) && Ready(g2, Top(p), b) && (!final ==> Sloped(g1, Top(p)) && Sloped(g2, Top(p)))
    ensures Top(p) <= Min(g1.y2, g2.y2) && (if final then g1.y2 == g2.y2 == Bottom(p) else Min(g1.y2, g2.y2) < Bottom(p))
  {
    if !final {
      BentHigh(g1, g2, g3, Top(p), Bottom(p));
    }
    HeightBound(p, c.i1);
    HeightBound(p, c.i2);
    hide Sloped, EdgeAt, Holds, Inside;
  }

  lemma FirstEdges(scans: seq<Scan>, g1: Gradient, g2: Gradient, g3: Gradient, final: bool, p: seq<Point>, c: Choice,
                   log: seq<Fetch>, top: int, b: Box, width: int, seamless: bool)
    requires Chosen(g1, g2, g3, final, p, c, b)
    requires MidX(g1, Min(g1.y2, g2.y2) - Top(p)) <= MidX(g2, Min(g1.y2, g2.y2) - Top(p))
    requires Between(scans, [], g1, g2) && Scanned(log, scans, top, b, width, seamless)
    ensures Edges(scans, p)
  {
    hide Sloped, Crossed, EdgeAt, Row, Between, Scanned, Holds, Ready;
    var t, e := Top(p), Bottom(p);
    if final && !Wedge(g1, g2, t, e) {
      RowEdges(scans, g1, g2, p, c, log, top, b, width, seamless);
    } else if final {
      WedgeHigh(g1, g2, t, e);
      WedgeOrder(g1, g2, t, e);
      MoreEdges([], scans, g1, g2, p, c, log, top, b, width, seamless, t, e);
    } else {
      BentHigh(g1, g2, g3, t, e);
      BentOrder(g1, g2, g3, t, e);
      MoreEdges([], scans, g1, g2, p, c, log, top, b, width, seamless, t, g3.y1);
    }
  }

  lemma WedgeHigh(g1: Gradient, g2: Gradient, top: int, bottom: int)
    requires Wedge(g1, g2, top, bottom)
    ensures g1.y1 < g1.y2 && g2.y1 < g2.y2 && top < bottom
  {}

  lemma BentHigh(g1: Gradient, g2: Gradient, g3: Gradient, top: int, bottom: int)
    requires Bent(g1, g2, g3, top, bottom) || Bent(g2, g1, g3, top, bottom)
    ensures g1.y1 < g1.y2 && g2.y1 < g2.y2 && g3.y1 < g3.y2 && top < g3.y1 < bottom
    ensures Min(g1.y2, g2.y2) == g3.y1
  {}

  /** The edges of the second run at its first row. */
  lemma NextReady(g1: Gradient, g2: Gradient, g3: Gradient, h1: Gradient, h2: Gradient, p: seq<Point>, c: Choice, b: Box)
    requires Chosen(g1, g2, g3, false, p, c, b) && Moved(h1, g1) && Moved(h2, g2)
    requires Ready(h1, Min(g1.y2, g2.y2), b) && Ready(h2, Min(g1.y2, g2.y2), b)
    ensures Top(p) < g3.y1 == Min(g1.y2, g2.y2) < g3.y2 == Bottom(p)
    ensures if h1.y2 < h2.y2 then Next(g3, h2, g3.y1 + 1, g3.y2, b) else Next(h1, g3, g3.y1 + 1, g3.y2, b)
  {
    BentHigh(g1, g2, g3, Top(p), Bottom(p));
    hide Sloped, EdgeAt, Inside, Level;
    AdvanceReady(g3, g3.y1, b);
    if h1.y2 < h2.y2 {
      AdvanceReady(h2, g3.y1, b);
    } else {
      AdvanceReady(h1, g3.y1, b);
    }
  }

  ghost predicate Next(k1: Gradient, k2: Gradient, y: int, y2: int, b: Box) {
    Ready(Advance(k1), y, b) && Ready(Advance(k2), y, b) && k1.y2 == k2.y2 == y2
  }

  lemma NextEdges(scans0: seq<Scan>, scans: seq<Scan>, g1: Gradient, g2: Gradient, g3: Gradient, k1: Gradient, k2: Gradient,
                  p: seq<Point>, c: Choice, log: seq<Fetch>, top: int, b: Box, width: int, seamless: bool)
    requires Chosen(g1, g2, g3, false, p, c, b)
    requires MidX(g1, Min(g1.y2, g2.y2) - Top(p)) <= MidX(g2, Min(g1.y2, g2.y2) - Top(p))
    requires if g1.y2 < g2.y2 then Moved(k1, g3) && Moved(k2, g2) else Moved(k1, g1) && Moved(k2, g3)
    requires Between(scans, scans0, k1, k2) && Scanned(log, scans, top, b, width, seamless) && Edges(scans0, p)
    ensures Edges(scans, p)
  {
    hide Sloped, EdgeAt, Row, Between, Scanned, Holds, Ready;
    var t, e := Top(p), Bottom(p);
    BentHigh(g1, g2, g3, t, e);
    BentOrder(g1, g2, g3, t, e);
    var c' := if g1.y2 < g2.y2 then Choice(c.i3, c.i2, c.i1) else Choice(c.i1, c.i3, c.i2);
    SameCrossed(if g1.y2 < g2.y2 then g3 else g1, if g1.y2 < g2.y2 then g2 else g3, k1, k2, g3.y1, e, 2 * (e - t) + 2);
    hide Crossed;
    MoreEdges(scans0, scans, k1, k2, p, c', log, top, b, width, seamless, g3.y1, e);
  }

  lemma SameCrossed(g1: Gradient, g2: Gradient, h1: Gradient, h2: Gradient, lo: int, hi: int, m: int)
    requires Crossed(g1, g2, lo, hi, m) && Moved(h1, g1) && Moved(h2, g2)
    ensures Crossed(h1, h2, lo, hi, m)
  {
    forall y | lo <= y <= hi
      ensures ExcessAt(h1, h2, y) <= m as real
    {
      SameEdge(h1, g1, y);
      SameEdge(h2, g2, y);
      assert ExcessAt(g1, g2, y) <= m as real;
    }
  }
}
