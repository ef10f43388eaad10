/** Edge set-up, gradient selection and the two passes of sub__maptriangle in graphics.cpp. */
module Triangle {
  import opened Arith
  import opened FixedPoint
  import opened Rasteriser

  /** A vertex: x in 16.16 fixed point, y a row, and 16.16 texture coordinates. */
  datatype Point = Point(x: int, y: int, tx: int, ty: int)

  /** An edge from its upper to its lower vertex, with its position at the current row. */
  datatype Gradient = Gradient(x: int, xi: int, tx: int, ty: int, txi: int, tyi: int, y1: int, y2: int, p1: Point, p2: Point)

  function EdgeOf(g: Gradient): Edge {
    Edge(g.x, g.tx, g.ty)
  }

  /** The gradient of the edge between two vertices; a horizontal one has no increments. */
  function MakeGradient(a: Point, b: Point): Gradient {
    var p1, p2 := if a.y > b.y then b else a, if a.y > b.y then a else b;
    var h := p2.y - p1.y;
    if h == 0 then Gradient(p1.x, 0, p1.tx, p1.ty, 0, 0, p1.y, p2.y, p1, p2)
    else Gradient(p1.x, Quot(p2.x - p1.x, h), p1.tx, p1.ty, Quot(p2.tx - p1.tx, h), Quot(p2.ty - p1.ty, h), p1.y, p2.y, p1, p2)
  }

  /** Bounds on the coordinates of a triangle. */
  datatype Box = Box(x1: int, x2: int, tx1: int, tx2: int, ty1: int, ty2: int)

  ghost predicate Inside(b: Box, x: int, tx: int, ty: int) {
    b.x1 <= x <= b.x2 && b.tx1 <= tx <= b.tx2 && b.ty1 <= ty <= b.ty2
  }

  ghost predicate Holds(b: Box, p: Point) {
    Inside(b, p.x, p.tx, p.ty)
  }

  /** The edge position e at row y is reached from the vertex p1 on the way to p2: it is never
      past the exact position, and less than one unit per row short of it. */
  ghost predicate OnEdge(e: Edge, p1: Point, p2: Point, y: int) {
    var d, k := p2.y - p1.y, y - p1.y;
    Travelled(p1.x, p2.x, d, k, e.x) && Travelled(p1.tx, p2.tx, d, k, e.tx) && Travelled(p1.ty, p2.ty, d, k, e.ty)
  }

  /** A sloped gradient as the set-up makes it, moved to row y. */
  ghost predicate Sloped(g: Gradient, y: int) {
    var d := g.p2.y - g.p1.y;
    && g.y1 == g.p1.y && g.y2 == g.p2.y && 0 < d
    && g.xi == Quot(g.p2.x - g.p1.x, d) && g.txi == Quot(g.p2.tx - g.p1.tx, d) && g.tyi == Quot(g.p2.ty - g.p1.ty, d)
    && OnEdge(EdgeOf(g), g.p1, g.p2, y)
  }

  /** One end of a triangle that is a single row. */
  ghost predicate Level(g: Gradient, y: int) {
    g.y1 == g.y2 == y
  }

  ghost predicate Ready(g: Gradient, y: int, b: Box) {
    && Holds(b, g.p1) && Holds(b, g.p2)
    && (Sloped(g, y) || (Level(g, y) && Inside(b, g.x, g.tx, g.ty)))
  }

  lemma MadeReady(p: Point, q: Point, b: Box)
    requires Holds(b, p) && Holds(b, q)
    ensures var g := MakeGradient(p, q); Ready(g, g.y1, b) && (p.y != q.y ==> Sloped(g, g.y1))
  {
    var g := MakeGradient(p, q);
    if p.y != q.y {
      var d := g.p2.y - g.p1.y;
      AlongStart(g.p1.x, g.p2.x, d);
      AlongStart(g.p1.tx, g.p2.tx, d);
      AlongStart(g.p1.ty, g.p2.ty, d);
    }
  }

  lemma ReadyInside(g: Gradient, y: int, b: Box)
    requires Ready(g, y, b)
    ensures Inside(b, g.x, g.tx, g.ty)
  {
    if Sloped(g, y) {
      var d, k := g.p2.y - g.p1.y, y - g.p1.y;
      AlongWithin(g.p1.x, g.p2.x, d, k, g.x);
      AlongWithin(g.p1.tx, g.p2.tx, d, k, g.tx);
      AlongWithin(g.p1.ty, g.p2.ty, d, k, g.ty);
    }
  }

  lemma ReadySloped(g: Gradient, y: int, b: Box)
    requires Ready(g, y, b) && y < g.y2
    ensures Sloped(g, y)
  {}

  /** The next row. */
  function Advance(g: Gradient): Gradient {
    g.(x := g.x + g.xi, tx := g.tx + g.txi, ty := g.ty + g.tyi)
  }

  lemma AdvanceReady(g: Gradient, y: int, b: Box)
    requires Ready(g, y, b) && y < g.y2
    ensures Ready(Advance(g), y + 1, b) && Sloped(Advance(g), y + 1)
  {
    var d, k := g.p2.y - g.p1.y, y - g.p1.y;
    TravelStep(g.p1.x, g.p2.x, d, k, g.x);
    TravelStep(g.p1.tx, g.p2.tx, d, k, g.tx);
    TravelStep(g.p1.ty, g.p2.ty, d, k, g.ty);
  }

  /** n rows at once, from the vertices p1 and p2 and the height d of the edge. */
  function Leap(g: Gradient, p1: Point, p2: Point, d: int, n: int): Gradient
    requires d != 0
  {
    g.(x := g.x + Quot((p2.x - p1.x) * n, d), tx := g.tx + Quot((p2.tx - p1.tx) * n, d),
       ty := g.ty + Quot((p2.ty - p1.ty) * n, d))
  }

  lemma LeapReady(g: Gradient, y: int, n: int, b: Box)
    requires Ready(g, y, b) && Sloped(g, y) && 0 <= n && y + n <= g.y2
    ensures Sloped(Leap(g, g.p1, g.p2, g.y2 - g.y1, n), y + n)
    ensures Ready(Leap(g, g.p1, g.p2, g.y2 - g.y1, n), y + n, b)
  {
    var d, k := g.p2.y - g.p1.y, y - g.p1.y;
    TravelJump(g.p1.x, g.p2.x, d, k, g.x, n);
    TravelJump(g.p1.tx, g.p2.tx, d, k, g.tx, n);
    TravelJump(g.p1.ty, g.p2.ty, d, k, g.ty, n);
  }

  // --------------------------------------------------------------------------------------
  // What has been drawn
  // --------------------------------------------------------------------------------------

  /** A scanned row with the two gradients it was scanned between. */
  datatype Scan = Scan(y: int, l: Gradient, r: Gradient)

  /** h is g at another row. */
  ghost predicate Moved(h: Gradient, g: Gradient) {
    h == g.(x := h.x, tx := h.tx, ty := h.ty)
  }

  /** h is g at another row; a horizontal g stays where it is. */
  ghost predicate At(h: Gradient, g: Gradient) {
    Moved(h, g) && (g.y1 == g.y2 ==> h == g)
  }

  /** The rows scanned after scans0 lie between the gradients g1 and g2. */
  ghost predicate Between(scans: seq<Scan>, scans0: seq<Scan>, g1: Gradient, g2: Gradient) {
    && |scans0| <= |scans| && scans[..|scans0|] == scans0
    && forall i :: |scans0| <= i < |scans| ==> At(scans[i].l, g1) && At(scans[i].r, g2)
  }

  ghost predicate DrawnAt(log: seq<Fetch>, x: int, y: int) {
    exists i :: 0 <= i < |log| && log[i].x == x && log[i].y == y
  }

  /** A row shows exactly the columns between its edges, and at most one when they have crossed. */
  ghost predicate RowExact(log: seq<Fetch>, s: Scan, width: int, seamless: bool) {
    if IntPart(s.l.x) <= IntPart(s.r.x) then
      forall x :: DrawnAt(log, x, s.y) <==> 0 <= x < width && IntPart(s.l.x) <= x <= LastX(EdgeOf(s.r), seamless)
    else
      forall x :: DrawnAt(log, x, s.y) <==> Lone(x, EdgeOf(s.l), EdgeOf(s.r), width, seamless)
  }

  /** A pixel shows what its row has there between the row's edges. */
  ghost predicate Shows(f: Fetch, scans: seq<Scan>, top: int) {
    && top <= f.y < top + |scans| && scans[f.y - top].y == f.y
    && Sample(f, EdgeOf(scans[f.y - top].l), EdgeOf(scans[f.y - top].r))
  }

  /** Rows top, top + 1, ... have been scanned, each once, between edges of the triangle; the
      pixels are distinct, show what lies between the edges of their rows, and lie with their
      texture coordinates inside the box. */
  ghost predicate Scanned(log: seq<Fetch>, scans: seq<Scan>, top: int, b: Box, width: int, seamless: bool) {
    && (forall i :: 0 <= i < |scans| ==>
          && scans[i].y == top + i && Ready(scans[i].l, top + i, b) && Ready(scans[i].r, top + i, b)
          && RowExact(log, scans[i], width, seamless))
    && (forall i :: 0 <= i < |log| ==> Shows(log[i], scans, top))
    && (forall i :: 0 <= i < |log| ==>
          && top <= log[i].y < top + |scans| && IntPart(b.x1) <= log[i].x <= IntPart(b.x2)
          && b.tx1 <= log[i].tx <= b.tx2 && b.ty1 <= log[i].ty <= b.ty2)
    && (forall i, j :: 0 <= i < j < |log| ==> log[i].x != log[j].x || log[i].y != log[j].y)
  }

  lemma DrawnAtMore(log: seq<Fetch>, row: seq<Fetch>, y: int, y': int)
    requires forall i :: 0 <= i < |row| ==> row[i].y == y
    requires forall i :: 0 <= i < |log| ==> log[i].y < y
    ensures y' < y ==> forall x :: DrawnAt(log + row, x, y') <==> DrawnAt(log, x, y')
    ensures y' == y ==> forall x :: DrawnAt(log + row, x, y') <==> Drawn(row, x)
  {
    var all := log + row;
    forall x
      ensures y' < y ==> (DrawnAt(all, x, y') <==> DrawnAt(log, x, y'))
      ensures y' == y ==> (DrawnAt(all, x, y') <==> Drawn(row, x))
    {
      if DrawnAt(log, x, y') {
        var i :| 0 <= i < |log| && log[i].x == x && log[i].y == y';
        assert all[i].x == x && all[i].y == y';
      }
      if Drawn(row, x) {
        var i :| 0 <= i < |row| && row[i].x == x;
        assert all[|log| + i].x == x && all[|log| + i].y == y;
      }
    }
  }

  lemma IntPartMono(a: int, b: int)
    requires a <= b
    ensures IntPart(a) <= IntPart(b)
  {
    IntPartFloor(a);
    IntPartFloor(b);
  }

  lemma RowInBox(row: seq<Fetch>, y: int, l: Edge, r: Edge, width: int, b: Box)
    requires RowOk(row, y, l, r, width) && Inside(b, l.x, l.tx, l.ty) && Inside(b, r.x, r.tx, r.ty)
    ensures forall i :: 0 <= i < |row| ==>
              && IntPart(b.x1) <= row[i].x <= IntPart(b.x2)
              && b.tx1 <= row[i].tx <= b.tx2 && b.ty1 <= row[i].ty <= b.ty2
  {
    IntPartMono(b.x1, l.x);
    IntPartMono(b.x1, r.x);
    IntPartMono(l.x, b.x2);
    IntPartMono(r.x, b.x2);
    forall i | 0 <= i < |row|
      ensures b.tx1 <= row[i].tx <= b.tx2 && b.ty1 <= row[i].ty <= b.ty2
    {
      SampleWithin(row[i], l, r);
    }
  }

  lemma ShownMore(log: seq<Fetch>, scans: seq<Scan>, top: int, row: seq<Fetch>, s: Scan, width: int)
    requires forall i :: 0 <= i < |log| ==> Shows(log[i], scans, top)
    requires RowOk(row, s.y, EdgeOf(s.l), EdgeOf(s.r), width) && s.y == top + |scans|
    ensures forall i :: 0 <= i < |log + row| ==> Shows((log + row)[i], scans + [s], top)
  {
    hide Sample;
  }

  lemma ExactMore(log: seq<Fetch>, scans: seq<Scan>, row: seq<Fetch>, s: Scan, r: Raster, i: nat)
    requires i <= |scans| && forall k :: 0 <= k < |log| ==> log[k].y < s.y
    requires i < |scans| ==> scans[i].y < s.y && RowExact(log, scans[i], r.dwidth, r.seamless)
    requires RowOk(row, s.y, EdgeOf(s.l), EdgeOf(s.r), r.dwidth) && r.Complete(row, EdgeOf(s.l), EdgeOf(s.r))
    requires Lonely(row, EdgeOf(s.l), EdgeOf(s.r), r.dwidth, r.seamless)
    ensures RowExact(log + row, (scans + [s])[i], r.dwidth, r.seamless)
  {
    DrawnAtMore(log, row, s.y, (scans + [s])[i].y);
    hide Sample, IntPart, Lone, DrawnAt, Drawn;
  }

  /** A row between two edges of the triangle extends what has been scanned. */
  lemma ScannedMore(log: seq<Fetch>, scans: seq<Scan>, top: int, b: Box, r: Raster, row: seq<Fetch>, s: Scan)
    requires Scanned(log, scans, top, b, r.dwidth, r.seamless) && s.y == top + |scans|
    requires Ready(s.l, s.y, b) && Ready(s.r, s.y, b)
    requires RowOk(row, s.y, EdgeOf(s.l), EdgeOf(s.r), r.dwidth) && r.Complete(row, EdgeOf(s.l), EdgeOf(s.r))
    requires Lonely(row, EdgeOf(s.l), EdgeOf(s.r), r.dwidth, r.seamless)
    ensures Scanned(log + row, scans + [s], top, b, r.dwidth, r.seamless)
  {
    ReadyInside(s.l, s.y, b);
    ReadyInside(s.r, s.y, b);
    hide Ready;
    RowInBox(row, s.y, EdgeOf(s.l), EdgeOf(s.r), r.dwidth, b);
    ShownMore(log, scans, top, row, s, r.dwidth);
    forall i | 0 <= i <= |scans|
      ensures RowExact(log + row, (scans + [s])[i], r.dwidth, r.seamless)
    {
      ExactMore(log, scans, row, s, r, i);
    }
    hide Sample, IntPart, RowExact, Shows, Lonely;
  }

  /** Two stretches of writes to different rows. */
  lemma PaintedJoin(r: Raster, before: seq<Pixel>, mid: seq<Pixel>, after: seq<Pixel>, log: seq<Fetch>, row: seq<Fetch>, y: int)
    requires r.Ok() && r.Painted(before, mid, log) && r.Painted(mid, after, row)
    requires forall i :: 0 <= i < |log| ==> log[i].y < y
    requires forall i :: 0 <= i < |row| ==> row[i].y == y
    ensures r.Painted(before, after, log + row)
  {
    forall i | 0 <= i < |log|
      ensures after[r.At(log[i])] == mid[r.At(log[i])]
    {
      forall j | 0 <= j < |row|
        ensures r.At(row[j]) != r.At(log[i])
      {
        LinearDiffer(log[i].x, log[i].y, row[j].x, y, r.dwidth);
      }
    }
    forall p | 0 <= p < r.dst.Length && forall i :: 0 <= i < |log + row| ==> r.At((log + row)[i]) != p
      ensures after[p] == before[p]
    {
      assert forall i :: 0 <= i < |log| ==> (log + row)[i] == log[i];
      assert forall i :: 0 <= i < |row| ==> (log + row)[|log| + i] == row[i];
    }
  }

  /** The texture accepts every coordinate of the box. */
  ghost predicate Accepts(r: Raster, b: Box) {
    r.InTexture(b.tx1, b.ty1) && r.InTexture(b.tx2, b.ty2)
  }

  // --------------------------------------------------------------------------------------
  // The passes
  // --------------------------------------------------------------------------------------

  /** One row, between two edges of the triangle. */
  method ScanOne(r: Raster, g1: Gradient, g2: Gradient, y: nat, ghost b: Box, ghost before: seq<Pixel>,
                 ghost top: int, ghost log0: seq<Fetch>, ghost scans: seq<Scan>)
    returns (ghost log: seq<Fetch>)
    requires r.Ok() && Accepts(r, b) && y < r.dheight && y == top + |scans| && Ready(g1, y, b) && Ready(g2, y, b)
    requires Scanned(log0, scans, top, b, r.dwidth, r.seamless) && r.Painted(before, r.dst[..], log0)
    modifies r.dst
    ensures Scanned(log, scans + [Scan(y, g1, g2)], top, b, r.dwidth, r.seamless) && r.Painted(before, r.dst[..], log)
  {
    ReadyInside(g1, y, b);
    ReadyInside(g2, y, b);
    hide Ready, Raster.Painted;
    ghost var mid := r.dst[..];
    ghost var row := r.ScanRow(y, EdgeOf(g1), EdgeOf(g2));
    PaintedJoin(r, before, mid, r.dst[..], log0, row, y);
    ScannedMore(log0, scans, top, b, r, row, Scan(y, g1, g2));
    log := log0 + row;
  }

  /** The second bottleneck: rows y1 to y2. */
  method ScanRows(r: Raster, g1: Gradient, g2: Gradient, y1: int, y2: int, ghost b: Box, ghost before: seq<Pixel>,
                  ghost top: int, ghost log0: seq<Fetch>, ghost scans0: seq<Scan>)
    returns (h1: Gradient, h2: Gradient, ghost log: seq<Fetch>, ghost scans: seq<Scan>)
    requires r.Ok() && Accepts(r, b) && 0 <= y1 && y2 < r.dheight && y1 == top + |scans0|
    requires y1 <= y2 + 1 && y2 <= g1.y2 && y2 <= g2.y2
    requires Ready(g1, y1, b) && Ready(g2, y1, b)
    requires Scanned(log0, scans0, top, b, r.dwidth, r.seamless) && r.Painted(before, r.dst[..], log0)
    modifies r.dst
    ensures Scanned(log, scans, top, b, r.dwidth, r.seamless) && r.Painted(before, r.dst[..], log)
    ensures |scans| == |scans0| + (y2 - y1 + 1)
    ensures y1 <= y2 ==> Ready(h1, y2, b) && Ready(h2, y2, b)
    ensures At(h1, g1) && At(h2, g2) && Between(scans, scans0, g1, g2)
  {
    hide Scanned, Accepts, Holds, Sloped, Raster.Painted, Raster.Ok;
    h1, h2, log, scans := g1, g2, log0, scans0;
    var y := y1;
    while y <= y2
      invariant y1 <= y <= y2 + 1 && |scans| == |scans0| + (y - y1)
      invariant At(h1, g1) && At(h2, g2) && Between(scans, scans0, g1, g2)
      invariant Ready(h1, if y <= y2 || y == y1 then y else y2, b) && Ready(h2, if y <= y2 || y == y1 then y else y2, b)
      invariant Scanned(log, scans, top, b, r.dwidth, r.seamless) && r.Painted(before, r.dst[..], log)
    {
      log := ScanOne(r, h1, h2, y, b, before, top, log, scans);
      scans := scans + [Scan(y, h1, h2)];
      if y != y2 {
        AdvanceReady(h1, y, b);
        AdvanceReady(h2, y, b);
        h1 := Advance(h1);
        h2 := Advance(h2);
      }
      y := y + 1;
    }
  }

  /** Skips n rows above the screen. The vertices are fetched as the code does: those of g2 only
      after the gradient of g1 has been found sloped. */
  method SkipRows(g1: Gradient, g2: Gradient, y: int, n: int, ghost b: Box) returns (h1: Gradient, h2: Gradient)
    requires Ready(g1, y, b) && Ready(g2, y, b) && Sloped(g1, y) && Sloped(g2, y)
    requires 0 <= n && y + n <= g1.y2 && y + n <= g2.y2
    ensures Ready(h1, y + n, b) && Ready(h2, y + n, b) && Sloped(h1, y + n) && Sloped(h2, y + n)
    ensures At(h1, g1) && At(h2, g2)
  {
    h1, h2 := g1, g2;
    LeapReady(g1, y, n, b);
    LeapReady(g2, y, n, b);
    var p1, p2 := g1.p1, g1.p2;
    var d := g1.y2 - g1.y1;
    if d != 0 {
      h1 := Leap(g1, p1, p2, d, n);
      p1, p2 := g2.p1, g2.p2;
    }
    d := g2.y2 - g2.y1;
    if d != 0 {
      h2 := Leap(g2, p1, p2, d, n);
    }
  }

  /** The last row of a pass. */
  function LastY(y2: int, final: bool, seamless: bool): int {
    if final && seamless then y2 - 1 else y2
  }

  /** One pass over rows y1 to y2: clipped at the top by a jump and at the bottom by cutting
      off. `last` is the row the gradients have reached, when there may be a second pass. */
  method Pass(r: Raster, g1: Gradient, g2: Gradient, y1: int, y2: int, final: bool, ghost b: Box,
              ghost before: seq<Pixel>, ghost top: int, ghost log0: seq<Fetch>, ghost scans0: seq<Scan>)
    returns (h1: Gradient, h2: Gradient, last: int, ghost log: seq<Fetch>, ghost scans: seq<Scan>)
    requires r.Ok() && Accepts(r, b) && y1 <= y2 <= g1.y2 && y2 <= g2.y2 && 0 <= top
    requires Ready(g1, y1, b) && Ready(g2, y1, b) && (!final ==> Sloped(g1, y1) && Sloped(g2, y1))
    requires Scanned(log0, scans0, top, b, r.dwidth, r.seamless) && r.Painted(before, r.dst[..], log0)
    requires Max(0, y1) == top + |scans0|
    modifies r.dst
    ensures Scanned(log, scans, top, b, r.dwidth, r.seamless) && r.Painted(before, r.dst[..], log)
    ensures top + |scans| == Max(top + |scans0|, Min(LastY(y2, final, r.seamless), r.dheight - 1) + 1)
    ensures !final && last < r.dheight - 1 ==> last == y2 && Ready(h1, y2, b) && Ready(h2, y2, b)
    ensures !final && y2 < r.dheight - 1 ==> last == y2
    ensures At(h1, g1) && At(h2, g2) && Between(scans, scans0, g1, g2)
  {
    hide Scanned, Sloped, Ready, Accepts, Raster.Painted, Raster.Ok, Level;
    h1, h2, log, scans := g1, g2, log0, scans0;
    var from := y1;
    last := y2;
    if final && r.seamless {
      last := last - 1;
    }
    if from >= r.dheight {
      return;
    }
    if last < 0 {
      if final {
        return;
      }
      h1, h2 := SkipRows(g1, g2, y1, last - from, b);
      return;
    }
    if from < 0 {
      ReadySloped(g1, y1, b);
      ReadySloped(g2, y1, b);
      h1, h2 := SkipRows(g1, g2, y1, -from, b);
      from := 0;
    }
    if last >= r.dheight {
      last := r.dheight - 1;
    }
    h1, h2, log, scans := ScanRows(r, h1, h2, from, last, b, before, top, log0, scans0);
  }
}
