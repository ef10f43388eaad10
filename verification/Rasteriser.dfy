/** One row of the textured-triangle rasteriser of graphics.cpp: its two end pixels, the sub-pixel
    alignment, the clipping at the left and right, and the loop over its pixels. The untiled and
    the tiled loop differ only in how they index the texture. */
module Rasteriser {
  import opened Powers
  import opened Arith
  import opened FixedPoint

  type Pixel = bv32

  /** One pixel write: where, and from which texture coordinates. */
  datatype Fetch = Fetch(x: int, y: int, tx: int, ty: int)

  /** A triangle edge at one row. */
  datatype Edge = Edge(x: int, tx: int, ty: int)

  /** The position the sampling point of pixel x has on the row. */
  function Centre(x: int): int { x * ONE + HALF }

  /** A pixel shows the right edge if its sampling point lies beyond that, the left edge if it lies
      before that or both edges are in its column, and else what lies at its sampling point
      between them. */
  ghost predicate Sample(f: Fetch, l: Edge, r: Edge) {
    if f.x == IntPart(r.x) && r.x < Centre(f.x) then f.tx == r.tx && f.ty == r.ty
    else if f.x == IntPart(l.x) && (Centre(f.x) < l.x || IntPart(l.x) == IntPart(r.x)) then f.tx == l.tx && f.ty == l.ty
    else Interpolated(f.x, f.tx, f.ty, l, r)
  }

  ghost predicate Interpolated(x: int, tx: int, ty: int, l: Edge, r: Edge) {
    && l.x < r.x
    && Share(l.tx, r.tx, r.x - l.x, Centre(x) - l.x, tx)
    && Share(l.ty, r.ty, r.x - l.x, Centre(x) - l.x, ty)
  }

  /** The pixels of a row are distinct, on the surface, between the edges, and show the right
      texture coordinates. */
  ghost predicate RowOk(row: seq<Fetch>, y: int, l: Edge, r: Edge, width: int) {
    && (forall i :: 0 <= i < |row| ==>
          && row[i].y == y && 0 <= row[i].x < width && Within(row[i].x, IntPart(l.x), IntPart(r.x))
          && Sample(row[i], l, r))
    && (forall i, j :: 0 <= i < j < |row| ==> row[i].x != row[j].x)
  }

  lemma RowLine(row: seq<Fetch>, y: int, l: Edge, r: Edge, width: int)
    requires RowOk(row, y, l, r, width)
    ensures forall i :: 0 <= i < |row| ==> row[i].y == y
  {}

  lemma RowMore(row: seq<Fetch>, f: Fetch, y: int, l: Edge, r: Edge, width: int)
    requires RowOk(row, y, l, r, width) && f.y == y && 0 <= f.x < width && Within(f.x, IntPart(l.x), IntPart(r.x))
    requires Sample(f, l, r) && forall i :: 0 <= i < |row| ==> row[i].x != f.x
    ensures RowOk(row + [f], y, l, r, width)
  {
    hide Sample, IntPart, Within;
  }

  /** Then the texture coordinates lie between those of the edges. */
  lemma SampleWithin(f: Fetch, l: Edge, r: Edge)
    requires Sample(f, l, r)
    ensures Within(f.tx, l.tx, r.tx) && Within(f.ty, l.ty, r.ty)
  {
    if Interpolated(f.x, f.tx, f.ty, l, r) {
      AlongWithin(l.tx, r.tx, r.x - l.x, Centre(f.x) - l.x, f.tx);
      AlongWithin(l.ty, r.ty, r.x - l.x, Centre(f.x) - l.x, f.ty);
    }
  }

  ghost predicate Drawn(row: seq<Fetch>, x: int) {
    exists i :: 0 <= i < |row| && row[i].x == x
  }

  /** Exactly the pixels of [a, b) and (c, d] on a surface of this width are drawn. */
  ghost predicate Cover(row: seq<Fetch>, a: int, b: int, c: int, d: int, width: int) {
    forall x :: Drawn(row, x) <==> 0 <= x < width && (a <= x < b || c < x <= d)
  }

  lemma DrawnMore(row: seq<Fetch>, f: Fetch)
    ensures forall x :: Drawn(row + [f], x) <==> Drawn(row, x) || x == f.x
  {
    forall x
      ensures Drawn(row + [f], x) <==> Drawn(row, x) || x == f.x
    {
      if Drawn(row, x) {
        var i :| 0 <= i < |row| && row[i].x == x;
        assert (row + [f])[i].x == x;
      }
      assert (row + [f])[|row|] == f;
    }
  }

  /** The last column of a row: the right edge's own, but for seamless triangles. */
  function LastX(r: Edge, seamless: bool): int {
    if seamless then IntPart(r.x) - 1 else IntPart(r.x)
  }

  /** The one column drawn of a row whose edges have crossed: that of the right edge if its sampling
      point lies beyond the edge, and else that of the left one if its lies before the edge. */
  predicate Lone(x: int, l: Edge, r: Edge, width: int, seamless: bool) {
    && !seamless && IntPart(l.x) < width && 0 <= IntPart(r.x)
    && if r.x < Centre(IntPart(r.x)) then x == IntPart(r.x) else x == IntPart(l.x) && Centre(x) < l.x
  }

  ghost predicate Lonely(row: seq<Fetch>, l: Edge, r: Edge, width: int, seamless: bool) {
    IntPart(r.x) < IntPart(l.x) ==> forall x :: Drawn(row, x) <==> Lone(x, l, r, width, seamless)
  }

  /** Where nothing is drawn although the edges have crossed. */
  lemma LoneNever(l: Edge, r: Edge, width: int, seamless: bool)
    ensures seamless ==> Lonely([], l, r, width, seamless)
    ensures width <= IntPart(l.x) || IntPart(r.x) < 0 ==> Lonely([], l, r, width, seamless)
    ensures IntPart(r.x) >= IntPart(l.x) ==> forall row :: Lonely(row, l, r, width, seamless)
    ensures Centre(IntPart(r.x)) <= r.x && l.x <= Centre(IntPart(l.x)) ==> Lonely([], l, r, width, seamless)
  {
    hide Centre, IntPart;
  }

  lemma LoneOne(f: Fetch, l: Edge, r: Edge, width: int, seamless: bool)
    requires Lone(f.x, l, r, width, seamless)
    ensures Lonely([f], l, r, width, seamless)
  {
    DrawnMore([], f);
    assert [] + [f] == [f];
  }

  lemma Linear(x: int, y: int, w: int, h: int)
    requires 0 <= x < w && 0 <= y < h
    ensures 0 <= y * w + x < h * w
  {
    assert y * w + w == (y + 1) * w <= h * w;
  }

  lemma LinearDiffer(x: int, y: int, x': int, y': int, w: int)
    requires 0 <= x < w && 0 <= x' < w && (x != x' || y != y')
    ensures y * w + x != y' * w + x'
  {
    if y * w + x == y' * w + x' {
      SplitUnique(y, x, y', x', w);
    }
  }

  /** What may be drawn between the adjusted ends of a row: nothing, one pixel that shows the
      left edge, or pixels whose sampling points all lie between two edges in order. */
  ghost predicate SpanOk(x1: int, x2: int, tx: int, ty: int, txi: int, tyi: int, l: Edge, r: Edge) {
    x1 <= x2 ==>
      || (x1 == x2 == IntPart(l.x) == IntPart(r.x) && Centre(x2) <= r.x && tx == l.tx && ty == l.ty)
      || SlopeOk(x1, x2, tx, ty, txi, tyi, l, r)
  }

  ghost predicate SlopeOk(x1: int, x2: int, tx: int, ty: int, txi: int, tyi: int, l: Edge, r: Edge) {
    && r.x - l.x > 0 && IntPart(l.x) < IntPart(r.x) && txi == Slope(l.tx, r.tx, r.x - l.x) && tyi == Slope(l.ty, r.ty, r.x - l.x)
    && Centre(x2) <= r.x && Interpolated(x1, tx, ty, l, r)
  }

  /** Where the loop may end: at the last pixel whose sampling point the right edge covers. */
  ghost predicate RightOk(x2: int, l: Edge, r: Edge) {
    0 <= x2 && Centre(x2) <= r.x && (
      || IntPart(l.x) > x2 == IntPart(r.x)
      || IntPart(l.x) == x2 == IntPart(r.x)
      || (IntPart(l.x) < IntPart(r.x) && IntPart(l.x) <= x2 <= IntPart(r.x)))
  }

  /** Where it may begin: at the first pixel whose sampling point the left edge covers. */
  ghost predicate LeftOk(x1: int, x2: int, loff: int, l: Edge, r: Edge) {
    0 <= x2 && Centre(x2) <= r.x && (
      || (x1 > x2 && 0 <= x1 && IntPart(l.x) > IntPart(r.x))
      || x1 == x2 == IntPart(l.x) == IntPart(r.x)
      || (IntPart(l.x) < IntPart(r.x) && IntPart(l.x) <= x1 <= x2 <= IntPart(r.x)
          && -loff == Centre(x1) - l.x >= 0))
  }

  lemma RightCentre(l: Edge, r: Edge)
    ensures r.x % ONE - HALF >= 0 <==> Centre(IntPart(r.x)) <= r.x
    ensures Centre(IntPart(r.x) - 1) <= r.x
    ensures IntPart(l.x) < IntPart(r.x) ==> l.x < r.x
  {
    IntPartFloor(l.x);
    IntPartFloor(r.x);
  }

  lemma LeftCentre(l: Edge)
    ensures l.x % ONE - HALF == l.x - Centre(IntPart(l.x))
    ensures l.x < Centre(IntPart(l.x) + 1)
  {
    IntPartFloor(l.x);
  }

  /** The left end as the code finds it: with its own pixel drawn the loop starts one further. */
  lemma LeftReady(l: Edge, r: Edge, x1: int, x2: int, loff: int)
    requires RightOk(x2, l, r) && x1 == IntPart(l.x) && loff == l.x % ONE - HALF
    ensures if loff > 0 then
              && Centre(x1) < l.x && !(x1 == IntPart(r.x) && r.x < Centre(x1))
              && (IntPart(r.x) < x1 ==> 0 <= IntPart(r.x) && Centre(IntPart(r.x)) <= r.x)
              && (x1 + 1 <= x2 ==> LeftOk(x1 + 1, x2, -(65536 - loff), l, r))
            else l.x <= Centre(x1) && LeftOk(x1, x2, loff, l, r)
  {
    LeftCentre(l);
    IntPartFloor(l.x);
    IntPartFloor(r.x);
    hide IntPart;
  }

  lemma BodyReady(x1: int, x2: int, loff: int, l: Edge, r: Edge)
    requires LeftOk(x1, x2, loff, l, r)
    ensures IntPart(l.x) != IntPart(r.x) ==> r.x - l.x != 0
    ensures IntPart(l.x) != IntPart(r.x) ==>
              BodyOk(x1, x2, loff, Slope(l.tx, r.tx, r.x - l.x), Slope(l.ty, r.ty, r.x - l.x), l, r)
    ensures IntPart(l.x) == IntPart(r.x) ==> BodyOk(x1, x2, loff, 0, 0, l, r)
  {
    IntPartFloor(l.x);
    IntPartFloor(r.x);
  }

  /** The state of a row scan before the alignment: the distance from the left edge to the
      first sampling point is -loff. */
  ghost predicate BodyOk(x1: int, x2: int, loff: int, txi: int, tyi: int, l: Edge, r: Edge) {
    || (x1 > x2 && 0 <= x1 && IntPart(l.x) > IntPart(r.x))
    || (x1 == x2 == IntPart(l.x) == IntPart(r.x) && Centre(x2) <= r.x && txi == tyi == 0)
    || (l.x < r.x && IntPart(l.x) < IntPart(r.x) && IntPart(l.x) <= x1 <= x2 <= IntPart(r.x)
        && txi == Slope(l.tx, r.tx, r.x - l.x) && tyi == Slope(l.ty, r.ty, r.x - l.x)
        && -loff == Centre(x1) - l.x >= 0 && Centre(x2) <= r.x)
  }

  lemma BodyStart(x1: int, x2: int, loff: int, txi: int, tyi: int, l: Edge, r: Edge)
    requires BodyOk(x1, x2, loff, txi, tyi, l, r)
    ensures x1 <= x2 ==> IntPart(l.x) <= x1 && x2 <= IntPart(r.x)
    ensures SpanOk(x1, x2, l.tx + Quot(-loff * txi, ONE), l.ty + Quot(-loff * tyi, ONE), txi, tyi, l, r)
  {
    if x1 <= x2 {
      if l.x < r.x && -loff == Centre(x1) - l.x >= 0 && Centre(x2) <= r.x && txi == Slope(l.tx, r.tx, r.x - l.x)
         && tyi == Slope(l.ty, r.ty, r.x - l.x) {
        ShareAlign(l.tx, r.tx, r.x - l.x, -loff);
        ShareAlign(l.ty, r.ty, r.x - l.x, -loff);
      }
    }
  }

  /** The pixels left of the surface are skipped; the width divided by is not zero. */
  lemma BodyClip(x1: int, x2: int, loff: int, tx: int, ty: int, txi: int, tyi: int, l: Edge, r: Edge)
    requires BodyOk(x1, x2, loff, txi, tyi, l, r) && SpanOk(x1, x2, tx, ty, txi, tyi, l, r) && x1 < 0 <= x2
    ensures r.x - l.x > 0
    ensures SpanOk(0, x2, tx + Quot((r.tx - l.tx) * ONE * -x1, r.x - l.x),
                   ty + Quot((r.ty - l.ty) * ONE * -x1, r.x - l.x), txi, tyi, l, r)
  {
    ShareClip(l.tx, r.tx, r.x - l.x, Centre(x1) - l.x, tx, -x1);
    ShareClip(l.ty, r.ty, r.x - l.x, Centre(x1) - l.x, ty, -x1);
  }

  lemma SpanShorter(x1: int, x2: int, x2': int, tx: int, ty: int, txi: int, tyi: int, l: Edge, r: Edge)
    requires SpanOk(x1, x2, tx, ty, txi, tyi, l, r) && x2' < x2
    ensures SpanOk(x1, x2', tx, ty, txi, tyi, l, r)
  {}

  lemma SpanSample(x: int, y: int, x2: int, tx: int, ty: int, txi: int, tyi: int, l: Edge, r: Edge)
    requires x <= x2 && SpanOk(x, x2, tx, ty, txi, tyi, l, r)
    ensures Sample(Fetch(x, y, tx, ty), l, r) && Within(tx, l.tx, r.tx) && Within(ty, l.ty, r.ty)
  {
    SampleWithin(Fetch(x, y, tx, ty), l, r);
  }

  lemma SpanStep(x: int, x2: int, tx: int, ty: int, txi: int, tyi: int, l: Edge, r: Edge)
    requires x <= x2 && SpanOk(x, x2, tx, ty, txi, tyi, l, r)
    ensures SpanOk(x + 1, x2, tx + txi, ty + tyi, txi, tyi, l, r)
  {
    if x < x2 {
      SharePixel(l.tx, r.tx, r.x - l.x, Centre(x) - l.x, tx);
      SharePixel(l.ty, r.ty, r.x - l.x, Centre(x) - l.x, ty);
    }
  }

  lemma HalfApart(x1: int, x2: int, loff: int, txi: int, tyi: int, l: Edge, r: Edge)
    requires BodyOk(x1, x2, loff, txi, tyi, l, r) && x1 <= x2
    ensures txi == tyi == 0 || (r.x - l.x >= HALF && txi == Slope(l.tx, r.tx, r.x - l.x) && tyi == Slope(l.ty, r.ty, r.x - l.x))
  {
    hide Slope;
    IntPartFloor(l.x);
    IntPartFloor(r.x);
  }

  /** The 32-bit variables keep the gradients between edges at least half a pixel apart. */
  ghost predicate Kept(l: Edge, r: Edge) {
    r.x - l.x >= HALF ==>
      && ToInt32(Slope(l.tx, r.tx, r.x - l.x)) == Slope(l.tx, r.tx, r.x - l.x)
      && ToInt32(Slope(l.ty, r.ty, r.x - l.x)) == Slope(l.ty, r.ty, r.x - l.x)
  }

  /** They do when the texture coordinates of the edges differ by less than 2^30. */
  lemma SmallKept(l: Edge, r: Edge)
    requires SmallSpread(l, r)
    ensures Kept(l, r)
  {
    if r.x - l.x >= HALF {
      SlopeFits(l.tx, r.tx, r.x - l.x);
      SlopeFits(l.ty, r.ty, r.x - l.x);
    }
  }

  /** Where the pixel loop is entered with a gradient, the edges are at least half a pixel apart,
      so these are the gradients that it uses. */
  lemma RowGradientFits(x1: int, x2: int, loff: int, txi: int, tyi: int, l: Edge, r: Edge)
    requires BodyOk(x1, x2, loff, txi, tyi, l, r) && x1 <= x2 && Kept(l, r)
    ensures ToInt32(txi) == txi && ToInt32(tyi) == tyi
  {
    HalfApart(x1, x2, loff, txi, tyi, l, r);
    hide BodyOk, Slope;
  }

  /** Two edges whose texture coordinates differ by less than 2^30. */
  ghost predicate SmallSpread(l: Edge, r: Edge) {
    -0x4000_0000 <= r.tx - l.tx < 0x4000_0000 && -0x4000_0000 <= r.ty - l.ty < 0x4000_0000
  }

  class Raster {
    const dst: array<Pixel>
    const dwidth: nat
    const dheight: nat
    const src: array<Pixel>
    const swidth: nat
    const sheight: nat
    const seamless: bool
    const tile: bool

    constructor (dst: array<Pixel>, dwidth: nat, dheight: nat, src: array<Pixel>, swidth: nat, sheight: nat,
                 seamless: bool, tile: bool)
      requires 0 < dwidth && 0 < dheight && 0 < swidth && 0 < sheight
      requires dst.Length == dheight * dwidth && src.Length == sheight * swidth
      ensures Ok() && this.dst == dst && this.src == src && this.dwidth == dwidth && this.dheight == dheight
      ensures this.swidth == swidth && this.sheight == sheight && this.seamless == seamless && this.tile == tile
    {
      this.dst, this.dwidth, this.dheight := dst, dwidth, dheight;
      this.src, this.swidth, this.sheight := src, swidth, sheight;
      this.seamless, this.tile := seamless, tile;
    }

    predicate Ok() {
      && 0 < dwidth && 0 < dheight && 0 < swidth && 0 < sheight
      && dst.Length == dheight * dwidth && src.Length == sheight * swidth
    }

    /** Texture coordinates the scan loop can index with. */
    predicate InTexture(tx: int, ty: int) {
      && 0 <= tx && 0 <= ty
      && (!tile ==> tx < swidth * ONE && ty < sheight * ONE)
    }

    /** The texel a pair of texture coordinates denotes. */
    function Texel(tx: int, ty: int): (i: int)
      requires Ok() && InTexture(tx, ty)
      ensures 0 <= i < src.Length
    {
      var u := if tile then (tx / ONE) % swidth else tx / ONE;
      var v := if tile then (ty / ONE) % sheight else ty / ONE;
      Linear(u, v, swidth, sheight);
      v * swidth + u
    }

    /** When the edges are in order, exactly the columns between them left of b and right of c
        are drawn, as far as they are on the surface. */
    ghost predicate Part(row: seq<Fetch>, l: Edge, r: Edge, b: int, c: int) {
      IntPart(l.x) <= IntPart(r.x) ==>
        IntPart(l.x) <= b && c <= LastX(r, seamless) && Cover(row, IntPart(l.x), b, c, LastX(r, seamless), dwidth)
    }

    /** When the edges are in order, exactly the columns between them are drawn. */
    ghost predicate Complete(row: seq<Fetch>, l: Edge, r: Edge) {
      IntPart(l.x) <= IntPart(r.x) ==>
        Cover(row, IntPart(l.x), IntPart(l.x), IntPart(l.x) - 1, LastX(r, seamless), dwidth)
    }

    lemma PartNone(l: Edge, r: Edge)
      ensures Part([], l, r, IntPart(l.x), LastX(r, seamless))
    {}

    lemma PartMore(row: seq<Fetch>, f: Fetch, l: Edge, r: Edge, c: int)
      requires Part(row, l, r, f.x, c) && 0 <= f.x < dwidth
      ensures Part(row + [f], l, r, f.x + 1, c)
    {
      DrawnMore(row, f);
    }

    lemma PartMoreRight(row: seq<Fetch>, f: Fetch, l: Edge, r: Edge, b: int)
      requires Part(row, l, r, b, f.x) && 0 <= f.x < dwidth
      ensures Part(row + [f], l, r, b, f.x - 1)
    {
      DrawnMore(row, f);
    }

    /** Columns off the surface need not be drawn. */
    lemma PartSkip(row: seq<Fetch>, l: Edge, r: Edge, b: int, c: int, b': int, c': int)
      requires Part(row, l, r, b, c) && b <= b' && c' <= c
      requires b < b' ==> b' <= 0
      requires c' < c ==> dwidth <= c' + 1
      ensures Part(row, l, r, b', c')
    {}

    lemma PartDone(row: seq<Fetch>, l: Edge, r: Edge, b: int, c: int)
      requires Part(row, l, r, b, c)
      requires IntPart(l.x) <= IntPart(r.x) ==> IntPart(l.x) - 1 <= c < b <= LastX(r, seamless) + 1
      ensures Complete(row, l, r)
    {}

    predicate OnSurface(f: Fetch) {
      0 <= f.x < dwidth && 0 <= f.y < dheight && InTexture(f.tx, f.ty)
    }

    /** The index of a pixel in the destination. */
    function At(f: Fetch): (p: int)
      requires Ok() && OnSurface(f)
      ensures 0 <= p < dst.Length
    {
      Linear(f.x, f.y, dwidth, dheight);
      f.y * dwidth + f.x
    }

    /** The destination after a sequence of writes: each written pixel shows its texel (when
        the texture is another surface) and no other pixel has changed. */
    ghost predicate Painted(before: seq<Pixel>, after: seq<Pixel>, log: seq<Fetch>)
      requires Ok()
      reads src
    {
      && |before| == |after| == dst.Length
      && (forall i :: 0 <= i < |log| ==> OnSurface(log[i]))
      && (dst != src ==> forall i :: 0 <= i < |log| ==> after[At(log[i])] == src[Texel(log[i].tx, log[i].ty)])
      && (forall p :: 0 <= p < dst.Length && (forall i :: 0 <= i < |log| ==> At(log[i]) != p) ==> after[p] == before[p])
    }

    /** One pixel write. */
    method Plot(x: int, y: int, tx: int, ty: int, ghost before: seq<Pixel>, ghost log: seq<Fetch>)
      requires Ok() && 0 <= x < dwidth && 0 <= y < dheight && InTexture(tx, ty)
      requires Painted(before, dst[..], log)
      requires forall i :: 0 <= i < |log| ==> log[i].y == y && log[i].x != x
      modifies dst
      ensures Painted(before, dst[..], log + [Fetch(x, y, tx, ty)])
    {
      ghost var f := Fetch(x, y, tx, ty);
      Linear(x, y, dwidth, dheight);
      forall i | 0 <= i < |log|
        ensures At(log[i]) != At(f)
      {
        LinearDiffer(log[i].x, y, x, y, dwidth);
      }
      dst[y * dwidth + x] := src[Texel(tx, ty)];
      assert forall i :: 0 <= i < |log| ==> (log + [f])[i] == log[i];
      assert (log + [f])[|log|] == f;
    }

    /** The bottleneck loop: pixels x1 to x2 with the texture coordinates stepping along. */
    method Span(y: nat, x1: int, x2: int, tx0: int, ty0: int, txi: int, tyi: int, l: Edge, r: Edge,
                ghost before: seq<Pixel>, ghost row0: seq<Fetch>)
      returns (ghost row: seq<Fetch>)
      requires Ok() && y < dheight && InTexture(l.tx, l.ty) && InTexture(r.tx, r.ty)
      requires Part(row0, l, r, x1, x2)
      requires 0 <= x1 && x2 < dwidth && SpanOk(x1, x2, tx0, ty0, txi, tyi, l, r)
      requires x1 <= x2 ==> IntPart(l.x) <= x1 && x2 <= IntPart(r.x)
      requires RowOk(row0, y, l, r, dwidth) && Painted(before, dst[..], row0)
      requires forall i :: 0 <= i < |row0| ==> row0[i].x < x1 || row0[i].x > x2
      modifies dst
      ensures RowOk(row, y, l, r, dwidth) && Painted(before, dst[..], row)
      ensures Part(row, l, r, if x1 <= x2 then x2 + 1 else x1, x2)
      ensures x1 > x2 ==> row == row0
    {
      hide SpanOk, Painted, Part, RowOk, Sample, IntPart;
      row := row0;
      var tx, ty := tx0, ty0;
      var x := x1;
      while x <= x2
        invariant x1 <= x <= x2 + 1 || x == x1
        invariant SpanOk(x, x2, tx, ty, txi, tyi, l, r) && Part(row, l, r, x, x2)
        invariant RowOk(row, y, l, r, dwidth) && Painted(before, dst[..], row)
        invariant forall i :: 0 <= i < |row| ==> row[i].x < x || row[i].x > x2
        invariant x1 > x2 ==> row == row0
        decreases x2 - x
      {
        SpanSample(x, y, x2, tx, ty, txi, tyi, l, r);
        RowLine(row, y, l, r, dwidth);
        Plot(x, y, tx, ty, before, row);
        RowMore(row, Fetch(x, y, tx, ty), y, l, r, dwidth);
        PartMore(row, Fetch(x, y, tx, ty), l, r, x2);
        row := row + [Fetch(x, y, tx, ty)];
        SpanStep(x, x2, tx, ty, txi, tyi, l, r);
        tx := tx + txi;
        ty := ty + tyi;
        x := x + 1;
      }
    }

    /** Sub-pixel alignment, clipping at the left and right, and the loop. */
    method Body(y: nat, x1: int, x2: int, loff: int, txi: int, tyi: int, l: Edge, r: Edge,
                ghost before: seq<Pixel>, ghost row0: seq<Fetch>)
      returns (ghost row: seq<Fetch>)
      requires Ok() && y < dheight && InTexture(l.tx, l.ty) && InTexture(r.tx, r.ty)
      requires Part(row0, l, r, x1, x2)
      requires IntPart(l.x) < dwidth && 0 <= x2 && BodyOk(x1, x2, loff, txi, tyi, l, r)
      requires RowOk(row0, y, l, r, dwidth) && Painted(before, dst[..], row0)
      requires forall i :: 0 <= i < |row0| ==> row0[i].x < x1 || row0[i].x > x2
      modifies dst
      ensures RowOk(row, y, l, r, dwidth) && Painted(before, dst[..], row)
      ensures Complete(row, l, r)
      ensures x1 > x2 ==> row == row0
      ensures x1 <= x2 && Kept(l, r) ==> ToInt32(txi) == txi && ToInt32(tyi) == tyi
    {
      if x1 <= x2 && Kept(l, r) { RowGradientFits(x1, x2, loff, txi, tyi, l, r); }
      hide Kept, ToInt32;
      BodyStart(x1, x2, loff, txi, tyi, l, r);
      var tx := l.tx + Quot(-loff * txi, ONE);
      var ty := l.ty + Quot(-loff * tyi, ONE);
      var from, to := x1, x2;
      if from < 0 {
        BodyClip(x1, x2, loff, tx, ty, txi, tyi, l, r);
        var d := r.x - l.x;
        tx := tx + Quot((r.tx - l.tx) * ONE * -from, d);
        ty := ty + Quot((r.ty - l.ty) * ONE * -from, d);
        PartSkip(row0, l, r, from, to, 0, to);
        from := 0;
      }
      if to >= dwidth {
        SpanShorter(from, to, dwidth - 1, tx, ty, txi, tyi, l, r);
        PartSkip(row0, l, r, from, to, from, dwidth - 1);
        to := dwidth - 1;
      }
      row := Span(y, from, to, tx, ty, txi, tyi, l, r, before, row0);
      PartDone(row, l, r, if from <= to then to + 1 else from, to);
    }

    /** The right end of a row: a pixel whose sampling point lies beyond the edge is drawn as it
        is (unless seamless) and left out of the loop. */
    method RightEnd(y: nat, l: Edge, r: Edge) returns (x2: int, done: bool, ghost row: seq<Fetch>)
      requires Ok() && y < dheight && InTexture(r.tx, r.ty)
      requires IntPart(l.x) < dwidth && 0 <= IntPart(r.x)
      modifies dst
      ensures RowOk(row, y, l, r, dwidth) && Painted(old(dst[..]), dst[..], row)
      ensures !done ==> RightOk(x2, l, r)
      ensures if done then Complete(row, l, r) else Part(row, l, r, IntPart(l.x), x2)
      ensures !done ==> forall i :: 0 <= i < |row| ==> row[i].x > x2 && row[i].x != IntPart(l.x)
      ensures done ==> Lonely(row, l, r, dwidth, seamless)
      ensures !done && IntPart(r.x) < IntPart(l.x) ==> row == [] && !seamless
    {
      ghost var before := dst[..];
      row := [];
      done := false;
      x2 := IntPart(r.x);
      var x1 := IntPart(l.x);
      var roff := r.x % ONE - HALF;
      RightCentre(l, r);
      LoneNever(l, r, dwidth, seamless);
      hide Lonely, Painted;
      PartNone(l, r);
      if roff < 0 {
        if x2 < dwidth && !seamless {
          Plot(x2, y, r.tx, r.ty, before, row);
          PartMoreRight(row, Fetch(x2, y, r.tx, r.ty), l, r, x1);
          row := row + [Fetch(x2, y, r.tx, r.ty)];
          if x2 < x1 { LoneOne(Fetch(x2, y, r.tx, r.ty), l, r, dwidth, seamless); assert row == [Fetch(x2, y, r.tx, r.ty)]; }
        } else if !seamless {
          PartSkip(row, l, r, x1, x2, x1, x2 - 1);
        }
        x2 := x2 - 1;
        done := x1 > x2 || x2 < 0;
      } else if seamless {
        x2 := x2 - 1;
        done := x1 > x2 || x2 < 0;
      }
      if done {
        RightDone(row, l, r, x2);
      }
    }

    lemma RightDone(row: seq<Fetch>, l: Edge, r: Edge, x2: int)
      requires Part(row, l, r, IntPart(l.x), x2) && x2 == IntPart(r.x) - 1 && 0 <= IntPart(r.x)
      requires IntPart(l.x) > x2 || x2 < 0
      ensures Complete(row, l, r)
    {}

    /** The left end of a row, likewise; the loop then starts one pixel further right. */
    method LeftEnd(y: nat, l: Edge, r: Edge, x2: int, ghost before: seq<Pixel>, ghost row0: seq<Fetch>)
      returns (x1: int, loff: int, done: bool, ghost row: seq<Fetch>)
      requires Ok() && y < dheight && InTexture(l.tx, l.ty) && IntPart(l.x) < dwidth && RightOk(x2, l, r)
      requires RowOk(row0, y, l, r, dwidth) && Painted(before, dst[..], row0)
      requires Part(row0, l, r, IntPart(l.x), x2)
      requires forall i :: 0 <= i < |row0| ==> row0[i].x > x2 && row0[i].x != IntPart(l.x)
      requires IntPart(r.x) < IntPart(l.x) ==> row0 == [] && !seamless
      modifies dst
      ensures RowOk(row, y, l, r, dwidth) && Painted(before, dst[..], row)
      ensures if done then Complete(row, l, r) else Part(row, l, r, x1, x2)
      ensures if done then Lonely(row, l, r, dwidth, seamless)
              else IntPart(r.x) < IntPart(l.x) ==> row == [] && l.x <= Centre(IntPart(l.x))
      ensures !done ==> LeftOk(x1, x2, loff, l, r) && forall i :: 0 <= i < |row| ==> row[i].x < x1 || row[i].x > x2
    {
      row := row0;
      done := false;
      x1 := IntPart(l.x);
      loff := l.x % ONE - HALF;
      LeftReady(l, r, x1, x2, loff);
      LoneNever(l, r, dwidth, seamless);
      hide LeftOk, Centre, IntPart, Part, Lone, Complete, RowOk, Sample, Painted, Lonely, Ok;
      if loff > 0 {
        row := LeftPixel(y, l, r, x1, x2, before, row0);
        x1 := x1 + 1;
        done := x1 > x2;
        if done {
          LeftDone(row, l, r, x1, x2);
        }
        loff := -(65536 - loff);
      }
    }

    /** The left edge's own pixel, if its column is on the surface. */
    method LeftPixel(y: nat, l: Edge, r: Edge, x1: int, x2: int, ghost before: seq<Pixel>, ghost row0: seq<Fetch>)
      returns (ghost row: seq<Fetch>)
      requires Ok() && y < dheight && InTexture(l.tx, l.ty) && x1 == IntPart(l.x) < dwidth
      requires Centre(x1) < l.x && !(x1 == IntPart(r.x) && r.x < Centre(x1))
      requires RowOk(row0, y, l, r, dwidth) && Painted(before, dst[..], row0) && Part(row0, l, r, x1, x2)
      requires forall i :: 0 <= i < |row0| ==> row0[i].x > x2 && row0[i].x != x1
      requires IntPart(r.x) < x1 ==> row0 == [] && !seamless && 0 <= IntPart(r.x) && Centre(IntPart(r.x)) <= r.x
      modifies dst
      ensures RowOk(row, y, l, r, dwidth) && Painted(before, dst[..], row) && Part(row, l, r, x1 + 1, x2)
      ensures forall i :: 0 <= i < |row| ==> row[i].x < x1 + 1 || row[i].x > x2
      ensures IntPart(r.x) < x1 ==> Lonely(row, l, r, dwidth, seamless)
    {
      ghost var f := Fetch(x1, y, l.tx, l.ty);
      LeftMore(row0, f, y, l, r, x2);
      hide *;
      if x1 >= 0 {
        Plot(x1, y, l.tx, l.ty, before, row0);
        row := row0 + [f];
      } else {
        row := row0;
      }
    }

    lemma LeftMore(row: seq<Fetch>, f: Fetch, y: int, l: Edge, r: Edge, x2: int)
      requires f == Fetch(IntPart(l.x), y, l.tx, l.ty) && f.x < dwidth
      requires Centre(f.x) < l.x && !(f.x == IntPart(r.x) && r.x < Centre(f.x))
      requires RowOk(row, y, l, r, dwidth) && Part(row, l, r, f.x, x2)
      requires forall i :: 0 <= i < |row| ==> row[i].x > x2 && row[i].x != f.x
      requires IntPart(r.x) < f.x ==> row == [] && !seamless && 0 <= IntPart(r.x) && Centre(IntPart(r.x)) <= r.x
      ensures f.x >= 0 ==> RowOk(row + [f], y, l, r, dwidth) && Part(row + [f], l, r, f.x + 1, x2)
      ensures f.x < 0 ==> Part(row, l, r, f.x + 1, x2)
      ensures IntPart(r.x) < f.x ==> f.x >= 0 && Lonely(row + [f], l, r, dwidth, seamless)
    {
      if f.x >= 0 {
        RowMore(row, f, y, l, r, dwidth);
        PartMore(row, f, l, r, x2);
      } else {
        PartSkip(row, l, r, f.x, x2, f.x + 1, x2);
      }
      if IntPart(r.x) < f.x {
        LoneOne(f, l, r, dwidth, seamless);
        assert row + [f] == [f];
      }
      hide *;
    }

    lemma LeftDone(row: seq<Fetch>, l: Edge, r: Edge, x1: int, x2: int)
      requires Part(row, l, r, x1, x2) && RightOk(x2, l, r) && x2 < x1 == IntPart(l.x) + 1
      ensures Complete(row, l, r)
    {
      PartDone(row, l, r, x1, x2);
    }

    /** One row. */
    method ScanRow(y: nat, l: Edge, r: Edge) returns (ghost row: seq<Fetch>)
      requires Ok() && y < dheight && InTexture(l.tx, l.ty) && InTexture(r.tx, r.ty)
      modifies dst
      ensures RowOk(row, y, l, r, dwidth) && Painted(old(dst[..]), dst[..], row) && Complete(row, l, r)
      ensures Lonely(row, l, r, dwidth, seamless)
    {
      row := [];
      LoneNever(l, r, dwidth, seamless);
      ghost var before := dst[..];
      if IntPart(l.x) >= dwidth || IntPart(r.x) < 0 {
        return;
      }
      var txi, tyi := 0, 0;
      if IntPart(l.x) != IntPart(r.x) {
        txi := Slope(l.tx, r.tx, r.x - l.x);
        tyi := Slope(l.ty, r.ty, r.x - l.x);
      }
      var x2, done;
      x2, done, row := RightEnd(y, l, r);
      if done {
        return;
      }
      var x1, loff;
      x1, loff, done, row := LeftEnd(y, l, r, x2, before, row);
      if done {
        return;
      }
      BodyReady(x1, x2, loff, l, r);
      row := Body(y, x1, x2, loff, txi, tyi, l, r, before, row);
    }
  }
}
