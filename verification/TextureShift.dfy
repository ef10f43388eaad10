/** Acceptance of texture coordinates in sub__maptriangle of graphics.cpp: the tiling test, the
    shift of the whole triangle towards the first copy of the texture, and the second test. */
module TextureShift {
  import opened Powers
  import opened Arith
  import opened FixedPoint
  import opened Rasteriser
  import opened Triangle
  import opened EdgeChoice
  import opened DrawTriangle

  const LIMIT: int := 16383
  const TEXTURE_LIMIT: int := 16383 * ONE + 32678

  /** A corner as the caller gives it: a destination pixel, and texture coordinates in 16.16
      fixed point with the half added. */
  datatype Corner = Corner(dx: int, dy: int, u: int, v: int)

  predicate InRange(c: Corner) {
    -LIMIT <= c.dx <= LIMIT && -LIMIT <= c.dy <= LIMIT
  }

  predicate LegalTexture(c: Corner) {
    -TEXTURE_LIMIT <= c.u <= TEXTURE_LIMIT && -TEXTURE_LIMIT <= c.v <= TEXTURE_LIMIT
  }

  /** A corner that is accepted. */
  predicate Legal(c: Corner) {
    InRange(c) && LegalTexture(c)
  }

  /** The limits, for three corners. */
  lemma Limits(c: seq<Corner>)
    requires |c| == 3
    ensures LegalTexture(c[0]) && LegalTexture(c[1]) && LegalTexture(c[2]) <==>
            forall i :: 0 <= i < 3 ==> -1073708966 <= c[i].u <= 1073708966 && -1073708966 <= c[i].v <= 1073708966
    ensures InRange(c[0]) && InRange(c[1]) && InRange(c[2]) <==>
            forall i :: 0 <= i < 3 ==> -16383 <= c[i].dx <= 16383 && -16383 <= c[i].dy <= 16383
  {
    if LegalTexture(c[0]) && LegalTexture(c[1]) && LegalTexture(c[2]) {
      assert forall i :: 0 <= i < 3 ==> LegalTexture(c[i]);
    }
    if InRange(c[0]) && InRange(c[1]) && InRange(c[2]) {
      assert forall i :: 0 <= i < 3 ==> InRange(c[i]);
    }
  }

  /** A coordinate that may reach beyond the texture. */
  predicate Beyond(v: int, low: int, size2: int) {
    v < low || v >= size2 - 16
  }

  /** What is added to move the least coordinate towards the first copy; `from` is the size that
      the code compares with. */
  function Shift(low: int, period: int, from: int): int
    requires 0 < period
  {
    if low < 0 then (Quot(low + 1, -period) + 1) * period
    else if low >= from then -(Quot(low, period) * period)
    else 0
  }

  /** The texel column or row that an endless tiling shows at a coordinate. */
  function Tiled(v: int, size: int): (r: int)
    requires 0 < size
  {
    (v / ONE) % size
  }

  lemma NegativeQuot(low: int, p: int)
    requires low < 0 < p
    ensures 0 <= low + (Quot(low + 1, -p) + 1) * p < p
  {
    var n := -(low + 1);
    DivNegative(n, p);
    DivNegative(0, p);
    var q, r := n / p, n % p;
    assert Quot(low + 1, -p) == q by { if low + 1 == 0 { DivUnique(0, p, 0, 0); } }
    hide Quot;
    assert n == q * p + r;
    Distribute(q, 1, p);
  }

  /** The shift is a whole number of copies and leaves no coordinate negative. The least one ends
      in the first copy exactly unless it is beyond the first copy but below `from`. */
  lemma {:induction false} ShiftWhole(low: int, period: int, from: int)
    requires 0 < period
    ensures exists k :: Shift(low, period, from) == k * period
    ensures 0 <= low + Shift(low, period, from)
    ensures low + Shift(low, period, from) < period <==> !(period <= low < from)
  {
    if low < 0 {
      NegativeQuot(low, period);
      assert Shift(low, period, from) == (Quot(low + 1, -period) + 1) * period;
    } else if low >= from {
      assert low == low / period * period + low % period;
      assert Shift(low, period, from) == -Quot(low, period) * period;
    } else {
      assert Shift(low, period, from) == 0 * period;
    }
  }

  lemma TileStep(a: int, n: int, k: int)
    requires 0 < n
    ensures (a + k * n) % n == a % n
  {
    var q, r := a / n, a % n;
    assert a + k * n == (q + k) * n + r;
    DivUnique(a + k * n, n, q + k, r);
  }

  /** So the tiling shows the same at the shifted coordinates. */
  lemma ShiftInvisible(v: int, size: int, k: int)
    requires 0 < size
    ensures Tiled(v + k * (size * ONE), size) == Tiled(v, size)
  {
    assert k * (size * ONE) == k * size * ONE;
    assert (v + k * size * ONE) / ONE == v / ONE + k * size;
    TileStep(v / ONE, size, k);
  }

  // --------------------------------------------------------------------------------------
  // The 32-bit fields the moved coordinates are kept in
  // --------------------------------------------------------------------------------------

  /** Texture coordinates moved in both directions. */
  function MoveCorner(c: Corner, sx: int, sy: int): Point {
    Point(c.dx * ONE + HALF, c.dy, c.u + sx, c.v + sy)
  }

  /** What the fields hold then. */
  function StoreCorner(c: Corner, sx: int, sy: int): Point {
    Point(c.dx * ONE + HALF, c.dy, ToInt32(c.u + sx), ToInt32(c.v + sy))
  }

  function LeastU(c: seq<Corner>): int
    requires |c| == 3
  {
    Min(c[0].u, Min(c[1].u, c[2].u))
  }

  function LeastV(c: seq<Corner>): int
    requires |c| == 3
  {
    Min(c[0].v, Min(c[1].v, c[2].v))
  }

  function ShiftU(c: seq<Corner>, swidth: nat): int
    requires |c| == 3 && 0 < swidth
  {
    Shift(LeastU(c), swidth * ONE, swidth * ONE)
  }

  /** The code compares with the width here too. */
  function ShiftV(c: seq<Corner>, swidth: nat, sheight: nat): int
    requires |c| == 3 && 0 < swidth && 0 < sheight
  {
    Shift(LeastV(c), sheight * ONE, swidth * ONE)
  }

  /** No coordinate is moved to 2^31 or beyond. */
  predicate Fits(c: seq<Corner>, swidth: nat, sheight: nat)
    requires |c| == 3 && 0 < swidth && 0 < sheight
  {
    forall i :: 0 <= i < 3 ==>
      c[i].u + ShiftU(c, swidth) < 0x8000_0000 && c[i].v + ShiftV(c, swidth, sheight) < 0x8000_0000
  }

  /** An accepted coordinate is kept as it is, or it becomes negative. */
  lemma StoredIff(u: int, low: int, period: int, from: int)
    requires -TEXTURE_LIMIT <= low <= u <= TEXTURE_LIMIT && 0 < period <= 0x8000_0000
    ensures var v := u + Shift(low, period, from);
            (v < 0x8000_0000 <==> 0 <= ToInt32(v)) && (v < 0x8000_0000 <==> ToInt32(v) == v)
  {
    ShiftWhole(low, period, from);
    if low < 0 {
      NegativeQuot(low, period);
    } else {
      NoShiftRight(low, period, from);
    }
    hide Shift;
  }

  lemma NoShiftRight(low: int, period: int, from: int)
    requires 0 <= low && 0 < period
    ensures Shift(low, period, from) <= 0
  {
    MulMono(0, low / period, period);
  }

  /** So the corners keep their coordinates, none of which is negative, or one becomes negative. */
  lemma StoredCorners(c: seq<Corner>, swidth: nat, sheight: nat)
    requires |c| == 3 && LegalTexture(c[0]) && LegalTexture(c[1]) && LegalTexture(c[2])
    requires 0 < swidth < 0x8000 && 0 < sheight < 0x8000
    ensures var sx, sy := ShiftU(c, swidth), ShiftV(c, swidth, sheight);
            && (Fits(c, swidth, sheight) <==>
                 forall i :: 0 <= i < 3 ==> 0 <= StoreCorner(c[i], sx, sy).tx && 0 <= StoreCorner(c[i], sx, sy).ty)
            && (Fits(c, swidth, sheight) <==>
                 forall i :: 0 <= i < 3 ==> StoreCorner(c[i], sx, sy) == MoveCorner(c[i], sx, sy))
  {
    hide Shift, ToInt32;
    forall i | 0 <= i < 3
      ensures var u := c[i].u + ShiftU(c, swidth); (u < 0x8000_0000 <==> 0 <= ToInt32(u)) && (u < 0x8000_0000 <==> ToInt32(u) == u)
      ensures var v := c[i].v + ShiftV(c, swidth, sheight);
              (v < 0x8000_0000 <==> 0 <= ToInt32(v)) && (v < 0x8000_0000 <==> ToInt32(v) == v)
    {
      StoredIff(c[i].u, LeastU(c), swidth * ONE, swidth * ONE);
      StoredIff(c[i].v, LeastV(c), sheight * ONE, swidth * ONE);
    }
  }

  /** The remainder of C, which is not positive for a negative number. */
  function Rem(a: int, n: int): int
    requires n != 0
  {
    a - Quot(a, n) * n
  }

  /** The place in the texture that the tiled loops read. */
  function TexelIndex(tx: int, ty: int, swidth: nat, sheight: nat): int
    requires 0 < swidth && 0 < sheight
  {
    Rem(ty / ONE, sheight) * swidth + Rem(tx / ONE, swidth)
  }

  /** For coordinates that are not negative it is the texel of the tiling. */
  lemma TexelAgrees(r: Raster, tx: int, ty: int)
    requires r.Ok() && r.tile && 0 <= tx && 0 <= ty
    ensures r.Texel(tx, ty) == TexelIndex(tx, ty, r.swidth, r.sheight)
  {
    assert 0 <= tx / ONE && 0 <= ty / ONE;
  }

  /** An accepted triangle on a texture that is three pixels wide. */
  function Wrapping(): seq<Corner> {
    [Corner(0, 0, -1073708710, HALF), Corner(0, 100, 1073708710, HALF), Corner(100, 100, 1073708710, HALF)]
  }

  /** Its coordinates wrap, so that in its last row the texel before the texture is read. */
  lemma ReadsBefore(sheight: nat)
    requires 0 < sheight < 0x8000
    ensures Accepted(Wrapping()) && !Fits(Wrapping(), 3, sheight)
    ensures var c := Wrapping();
            var sx, sy := ShiftU(c, 3), ShiftV(c, 3, sheight);
            var p, q := StoreCorner(c[0], sx, sy), StoreCorner(c[1], sx, sy);
            var tx := ToInt32(p.tx + 100 * Quot(ToInt32(q.tx - p.tx), 100));
            q.tx < 0 && p.ty == q.ty && tx == -2147385710 && TexelIndex(tx, p.ty, 3, sheight) == -1
  {
    WrappingShift(sheight);
    LastRow(sheight);
    hide Shift, ToInt32, TexelIndex, Quot;
    assert ToInt32(1073708710 + 1073872896) == -2147385690 && ToInt32(-1073708710 + 1073872896) == 164186 by { Wraps(); }
    assert ToInt32(HALF) == HALF by { Small(HALF); }
  }

  lemma WrappingShift(sheight: nat)
    requires 0 < sheight < 0x8000
    ensures ShiftU(Wrapping(), 3) == 1073872896 && ShiftV(Wrapping(), 3, sheight) == 0
  {
    assert LeastU(Wrapping()) == -1073708710 && LeastV(Wrapping()) == HALF;
  }

  lemma Wraps()
    ensures ToInt32(1073708710 + 1073872896) == -2147385690 && ToInt32(-1073708710 + 1073872896) == 164186
  {}

  lemma LastRow(sheight: nat)
    requires 0 < sheight
    ensures var tx := ToInt32(164186 + 100 * Quot(ToInt32(-2147385690 - 164186), 100));
            tx == -2147385710 && TexelIndex(tx, HALF, 3, sheight) == -1
  {
    LastStep();
    hide ToInt32;
    assert Quot(2147417420, 100) == 21474174;
    FirstTexelRow(sheight);
    assert -2147385710 / ONE == -32767 && Quot(-32767, 3) == -10922;
    hide Quot;
    assert Rem(-32767, 3) == -1;
    hide Rem;
  }

  lemma LastStep()
    ensures ToInt32(-2147385690 - 164186) == 2147417420 && ToInt32(164186 + 100 * 21474174) == -2147385710
  {}

  lemma FirstTexelRow(sheight: nat)
    requires 0 < sheight
    ensures HALF / ONE == 0 && Rem(0, sheight) == 0
  {
    assert 0 / sheight == 0;
  }

  predicate CornerBeyond(p: Point, w2: int, h2: int) {
    Beyond(p.tx, 16, w2) || Beyond(p.ty, 16, h2)
  }

  /** The accepted triangle: every corner is moved by the same whole numbers of copies, no
      coordinate is negative or too large for its field, and without tiling every one is inside
      the texture. */
  ghost predicate Prepared(c: seq<Corner>, p: seq<Point>, tile: bool, swidth: nat, sheight: nat, kx: int, ky: int) {
    && |c| == |p| == 3
    && (forall i :: 0 <= i < 3 ==> p[i].x == c[i].dx * ONE + HALF && p[i].y == c[i].dy)
    && (forall i :: 0 <= i < 3 ==> p[i].tx == c[i].u + kx * (swidth * ONE) && p[i].ty == c[i].v + ky * (sheight * ONE))
    && (forall i :: 0 <= i < 3 ==> p[i].tx < 0x8000_0000 && p[i].ty < 0x8000_0000)
    && (forall i :: 0 <= i < 3 ==> tile ==> 0 <= p[i].tx && 0 <= p[i].ty)
    && (forall i :: 0 <= i < 3 ==> !tile ==> 0 <= p[i].tx < swidth * ONE && 0 <= p[i].ty < sheight * ONE)
  }

  /** The first test of the texture coordinates. The row of the third corner is compared with 0
      where the others are compared with 16. */
  method TestTexture(c: seq<Corner>, w2: int, h2: int) returns (ok: bool, tile: bool)
    requires |c| == 3
    ensures ok == (LegalTexture(c[0]) && LegalTexture(c[1]) && LegalTexture(c[2]))
    ensures ok && !tile ==> forall i :: 0 <= i < 3 ==> 16 <= c[i].u < w2 - 16 && 0 <= c[i].v < h2 - 16
    ensures ok && tile ==> exists i :: 0 <= i < 3 && (c[i].u < 16 || w2 - 16 <= c[i].u || c[i].v < (if i == 2 then 0 else 16) || h2 - 16 <= c[i].v)
    ensures ok <==> forall i :: 0 <= i < 3 ==> -1073708966 <= c[i].u <= 1073708966 && -1073708966 <= c[i].v <= 1073708966
    ensures ok && !tile ==> 16 <= c[0].v && 16 <= c[1].v
  {
    Limits(c);
    ok, tile := true, false;
    var i := 0;
    while i < 3
      invariant 0 <= i <= 3 && ok
      invariant forall j :: 0 <= j < i ==> -TEXTURE_LIMIT <= c[j].u <= TEXTURE_LIMIT
      invariant !tile ==> forall j :: 0 <= j < i ==> !Beyond(c[j].u, 16, w2)
      invariant tile ==> exists j :: 0 <= j < i && Beyond(c[j].u, 16, w2)
    {
      if Beyond(c[i].u, 16, w2) {
        tile := true;
      }
      if c[i].u < -TEXTURE_LIMIT || c[i].u > TEXTURE_LIMIT {
        ok := false;
        return;
      }
      i := i + 1;
    }
    i := 0;
    while i < 3
      invariant 0 <= i <= 3 && ok
      invariant forall j :: 0 <= j < i ==> LegalTexture(c[j])
      invariant !tile ==> forall j :: 0 <= j < i ==> !Beyond(c[j].v, if j == 2 then 0 else 16, h2)
      invariant !tile ==> forall j :: 0 <= j < 3 ==> !Beyond(c[j].u, 16, w2)
      invariant tile ==> exists j :: 0 <= j < 3 && (Beyond(c[j].u, 16, w2) || Beyond(c[j].v, if j == 2 then 0 else 16, h2))
    {
      if Beyond(c[i].v, if i == 2 then 0 else 16, h2) {
        tile := true;
      }
      if c[i].v < -TEXTURE_LIMIT || c[i].v > TEXTURE_LIMIT {
        ok := false;
        return;
      }
      i := i + 1;
    }
  }

  /** The shift and the second test. */
  method Normalise(c: seq<Corner>, swidth: nat, sheight: nat)
    returns (p: seq<Point>, tile: bool, ghost kx: int, ghost ky: int)
    requires |c| == 3 && 0 < swidth && 0 < sheight
    requires LegalTexture(c[0]) && LegalTexture(c[1]) && LegalTexture(c[2])
    ensures |p| == 3 && forall i :: 0 <= i < 3 ==> p[i] == StoreCorner(c[i], kx * (swidth * ONE), ky * (sheight * ONE))
    ensures Fits(c, swidth, sheight) ==> Prepared(c, p, tile, swidth, sheight, kx, ky)
    ensures swidth < 0x8000 && sheight < 0x8000 ==>
              (Fits(c, swidth, sheight) <==> forall i :: 0 <= i < 3 ==> 0 <= p[i].tx && 0 <= p[i].ty)
    ensures swidth < 0x8000 && sheight < 0x8000 && !Fits(c, swidth, sheight) ==> tile
    ensures tile <==>
              || (0 <= LeastU(c) < swidth * ONE && 0 <= LeastV(c) < swidth * ONE)
              || exists i :: 0 <= i < 3 && (p[i].tx < 16 || swidth * ONE - 16 <= p[i].tx || p[i].ty < 16 || sheight * ONE - 16 <= p[i].ty)
  {
    hide Shift, ToInt32, Prepared, Fits, LegalTexture;
    var w2, h2 := swidth * ONE, sheight * ONE;
    var lhs, top := Least(c);
    var sx, sy := Shift(lhs, w2, w2), Shift(top, h2, w2);
    kx, ky := Copies(c, swidth, sheight);
    var moved := lhs < 0 || lhs >= w2 || top < 0 || top >= w2;
    p := [StoreCorner(c[0], sx, sy), StoreCorner(c[1], sx, sy), StoreCorner(c[2], sx, sy)];
    tile := true;
    if moved {
      tile := CornerBeyond(p[0], w2, h2) || CornerBeyond(p[1], w2, h2) || CornerBeyond(p[2], w2, h2);
    }
    if swidth < 0x8000 && sheight < 0x8000 { StoredCorners(c, swidth, sheight); }
    if Fits(c, swidth, sheight) { FitsPrepared(c, p, tile, swidth, sheight, kx, ky); }
  }

  method Least(c: seq<Corner>) returns (lhs: int, top: int)
    requires |c| == 3
    ensures lhs == LeastU(c) && top == LeastV(c)
  {
    lhs, top := c[0].u, c[0].v;
    var i := 1;
    while i < 3
      invariant 1 <= i <= 3
      invariant lhs == (if i == 1 then c[0].u else if i == 2 then Min(c[0].u, c[1].u) else LeastU(c))
      invariant top == (if i == 1 then c[0].v else if i == 2 then Min(c[0].v, c[1].v) else LeastV(c))
    {
      if c[i].v < top { top := c[i].v; }
      if c[i].u < lhs { lhs := c[i].u; }
      i := i + 1;
    }
  }

  lemma Copies(c: seq<Corner>, swidth: nat, sheight: nat) returns (kx: int, ky: int)
    requires |c| == 3 && 0 < swidth && 0 < sheight
    ensures ShiftU(c, swidth) == kx * (swidth * ONE) && ShiftV(c, swidth, sheight) == ky * (sheight * ONE)
  {
    ShiftWhole(LeastU(c), swidth * ONE, swidth * ONE);
    ShiftWhole(LeastV(c), sheight * ONE, swidth * ONE);
    kx :| ShiftU(c, swidth) == kx * (swidth * ONE);
    ky :| ShiftV(c, swidth, sheight) == ky * (sheight * ONE);
  }

  lemma FitsPrepared(c: seq<Corner>, p: seq<Point>, tile: bool, swidth: nat, sheight: nat, kx: int, ky: int)
    requires |c| == |p| == 3 && 0 < swidth && 0 < sheight && Fits(c, swidth, sheight)
    requires ShiftU(c, swidth) == kx * (swidth * ONE) && ShiftV(c, swidth, sheight) == ky * (sheight * ONE)
    requires forall i :: 0 <= i < 3 ==> p[i] == StoreCorner(c[i], ShiftU(c, swidth), ShiftV(c, swidth, sheight))
    requires !tile ==> forall i :: 0 <= i < 3 ==> !CornerBeyond(p[i], swidth * ONE, sheight * ONE)
    ensures Prepared(c, p, tile, swidth, sheight, kx, ky)
  {
    ShiftWhole(LeastU(c), swidth * ONE, swidth * ONE);
    ShiftWhole(LeastV(c), sheight * ONE, swidth * ONE);
    hide Shift;
    forall i | 0 <= i < 3
      ensures p[i] == MoveCorner(c[i], ShiftU(c, swidth), ShiftV(c, swidth, sheight)) && 0 <= p[i].tx && 0 <= p[i].ty
    {
      assert LeastU(c) <= c[i].u && LeastV(c) <= c[i].v;
      Small(c[i].u + ShiftU(c, swidth));
      Small(c[i].v + ShiftV(c, swidth, sheight));
    }
  }

  lemma Small(v: int)
    requires 0 <= v < 0x8000_0000
    ensures ToInt32(v) == v
  {}

  ghost function Extents(p: seq<Point>): (b: Box)
    requires |p| == 3
    ensures ThreeIn(p, b)
    ensures b.x1 in {p[0].x, p[1].x, p[2].x} && b.x2 in {p[0].x, p[1].x, p[2].x}
    ensures b.tx1 in {p[0].tx, p[1].tx, p[2].tx} && b.tx2 in {p[0].tx, p[1].tx, p[2].tx}
    ensures b.ty1 in {p[0].ty, p[1].ty, p[2].ty} && b.ty2 in {p[0].ty, p[1].ty, p[2].ty}
  {
    Box(Min(p[0].x, Min(p[1].x, p[2].x)), Max(p[0].x, Max(p[1].x, p[2].x)),
        Min(p[0].tx, Min(p[1].tx, p[2].tx)), Max(p[0].tx, Max(p[1].tx, p[2].tx)),
        Min(p[0].ty, Min(p[1].ty, p[2].ty)), Max(p[0].ty, Max(p[1].ty, p[2].ty)))
  }

  /** What a drawn pixel shows is what the endless tiling of the texture shows at the caller's
      own coordinates. */
  lemma FetchTiled(r: Raster, tx: int, ty: int, kx: int, ky: int)
    requires r.Ok() && r.InTexture(tx, ty)
    ensures r.Texel(tx, ty) ==
            Tiled(ty - ky * (r.sheight * ONE), r.sheight) * r.swidth + Tiled(tx - kx * (r.swidth * ONE), r.swidth)
  {
    ShiftInvisible(tx, r.swidth, -kx);
    ShiftInvisible(ty, r.sheight, -ky);
    assert -kx * (r.swidth * ONE) == -(kx * (r.swidth * ONE));
    assert -ky * (r.sheight * ONE) == -(ky * (r.sheight * ONE));
    if !r.tile {
      assert 0 <= tx / ONE < r.swidth && 0 <= ty / ONE < r.sheight;
      DivUnique(tx / ONE, r.swidth, 0, tx / ONE);
      DivUnique(ty / ONE, r.sheight, 0, ty / ONE);
    }
  }

  predicate Accepted(c: seq<Corner>) {
    |c| == 3 && Legal(c[0]) && Legal(c[1]) && Legal(c[2])
  }

  /** What the whole procedure has drawn: pixels of the surface, once each, on the rows of the
      triangle that are on the surface, each showing its texel. */
  ghost predicate Mapped(r: Raster, p: seq<Point>, before: seq<Pixel>, after: seq<Pixel>, log: seq<Fetch>, scans: seq<Scan>)
    requires r.Ok() && |p| == 3
    reads r.src
  {
    && r.Painted(before, after, log)
    && Scanned(log, scans, Max(0, Top(p)), Extents(p), r.dwidth, r.seamless) && Edges(scans, p)
    && if Visible(p, r.dwidth, r.dheight)
       then Max(0, Top(p)) + |scans| == Max(Max(0, Top(p)), Min(LastY(Bottom(p), true, r.seamless), r.dheight - 1) + 1)
       else scans == [] && log == []
  }

  lemma PreparedAccepts(c: seq<Corner>, p: seq<Point>, tile: bool, kx: int, ky: int, r: Raster)
    requires Prepared(c, p, tile, r.swidth, r.sheight, kx, ky) && r.tile == tile
    ensures Accepts(r, Extents(p))
  {}

  /** A triangle that is not tiled at first fits as it is. */
  lemma InsideFits(c: seq<Corner>, swidth: nat, sheight: nat)
    requires |c| == 3 && LegalTexture(c[0]) && LegalTexture(c[1]) && LegalTexture(c[2]) && 0 < swidth && 0 < sheight
    requires forall i :: 0 <= i < 3 ==> 0 <= c[i].u && 0 <= c[i].v
    ensures Fits(c, swidth, sheight)
  {
    NoShiftRight(LeastU(c), swidth * ONE, swidth * ONE);
    NoShiftRight(LeastV(c), sheight * ONE, swidth * ONE);
    hide Shift;
  }

  /** The whole procedure. A triangle with a coordinate out of range is refused and nothing is
      drawn. One whose moved coordinates do not fit goes into the tiled loops with a negative
      coordinate; what these do then is left open. */
  method MapTriangle(c: seq<Corner>, dst: array<Pixel>, dwidth: nat, dheight: nat,
                     src: array<Pixel>, swidth: nat, sheight: nat, seamless: bool)
    returns (ok: bool, r: Raster, ghost p: seq<Point>, ghost kx: int, ghost ky: int, ghost log: seq<Fetch>, ghost scans: seq<Scan>)
    requires |c| == 3 && 0 < dwidth && 0 < dheight && 0 < swidth && 0 < sheight
    requires dst.Length == dheight * dwidth && src.Length == sheight * swidth
    modifies dst
    ensures ok == Accepted(c)
    ensures ok <==>
              && (forall i :: 0 <= i < 3 ==> -16383 <= c[i].dx <= 16383 && -16383 <= c[i].dy <= 16383)
              && (forall i :: 0 <= i < 3 ==> -1073708966 <= c[i].u <= 1073708966 && -1073708966 <= c[i].v <= 1073708966)
    ensures r.Ok() && r.dst == dst && r.src == src && r.dwidth == dwidth && r.dheight == dheight
    ensures r.swidth == swidth && r.sheight == sheight && r.seamless == seamless
    ensures !ok ==> dst[..] == old(dst[..])
    ensures ok && Fits(c, swidth, sheight) ==>
              Prepared(c, p, r.tile, swidth, sheight, kx, ky) && Mapped(r, p, old(dst[..]), dst[..], log, scans)
    ensures ok && !Fits(c, swidth, sheight) && swidth < 0x8000 && sheight < 0x8000 ==>
              r.tile && |p| == 3 && exists i :: 0 <= i < 3 && (p[i].tx < 0 || p[i].ty < 0)
  {
    Limits(c);
    var q, tile;
    ok, q, tile, kx, ky := Textured(c, swidth, sheight);
    hide Fits, Prepared, InRange, LegalTexture;
    ok := ok && InRange(c[0]) && InRange(c[1]) && InRange(c[2]);
    r := new Raster(dst, dwidth, dheight, src, swidth, sheight, seamless, tile);
    p, log, scans := q, [], [];
    if ok && Fits(c, swidth, sheight) {
      PreparedAccepts(c, q, tile, kx, ky, r);
      log, scans := Draw(r, q, Extents(p));
    }
  }

  /** Both tests and the shift between them. */
  method Textured(c: seq<Corner>, swidth: nat, sheight: nat)
    returns (ok: bool, p: seq<Point>, tile: bool, ghost kx: int, ghost ky: int)
    requires |c| == 3 && 0 < swidth && 0 < sheight
    ensures ok == (LegalTexture(c[0]) && LegalTexture(c[1]) && LegalTexture(c[2])) && |p| == 3
    ensures ok && Fits(c, swidth, sheight) ==> Prepared(c, p, tile, swidth, sheight, kx, ky)
    ensures ok && !Fits(c, swidth, sheight) && swidth < 0x8000 && sheight < 0x8000 ==>
              tile && exists i :: 0 <= i < 3 && (p[i].tx < 0 || p[i].ty < 0)
  {
    hide Fits;
    ok, tile := TestTexture(c, swidth * ONE, sheight * ONE);
    p, kx, ky := [MoveCorner(c[0], 0, 0), MoveCorner(c[1], 0, 0), MoveCorner(c[2], 0, 0)], 0, 0;
    if ok && tile {
      p, tile, kx, ky := Normalise(c, swidth, sheight);
    } else if ok {
      InsideFits(c, swidth, sheight);
    }
  }

  // --------------------------------------------------------------------------------------
  // The 32-bit variables of the rows
  // --------------------------------------------------------------------------------------

  /** Corners whose texture coordinates differ by less than 2^30. */
  predicate Narrow(c: seq<Corner>)
    requires |c| == 3
  {
    forall i, j :: 0 <= i < 3 && 0 <= j < 3 ==> c[i].u - c[j].u < 0x4000_0000 && c[i].v - c[j].v < 0x4000_0000
  }

  /** Those of an untiled triangle do: either they have not been moved, and lie between 0 and the
      limit, or they all lay on one side of 0. */
  lemma UntiledNarrow(c: seq<Corner>, p: seq<Point>, swidth: nat, sheight: nat, kx: int, ky: int)
    requires Prepared(c, p, false, swidth, sheight, kx, ky) && Accepted(c)
    ensures Narrow(c)
  {
    forall i, j | 0 <= i < 3 && 0 <= j < 3
      ensures c[i].u - c[j].u < 0x4000_0000 && c[i].v - c[j].v < 0x4000_0000
    {
      MovedSpread(c[i].u, c[j].u, swidth * ONE, kx);
      MovedSpread(c[i].v, c[j].v, sheight * ONE, ky);
    }
  }

  lemma MovedSpread(u: int, v: int, size: nat, k: int)
    requires -TEXTURE_LIMIT <= u <= TEXTURE_LIMIT && -TEXTURE_LIMIT <= v <= TEXTURE_LIMIT
    requires 0 <= u + k * size < size && 0 <= v + k * size < size
    ensures -0x4000_0000 < u - v < 0x4000_0000
  {
    if k > 0 {
      MulMono(1, k, size);
    } else if k < 0 {
      MulMono(k, -1, size);
    }
  }

  /** The 32-bit variables of a row keep the texture coordinates of its edges and the gradients
      between them. */
  ghost predicate Lossless(s: Scan) {
    && ToInt32(s.l.tx) == s.l.tx >= 0 && ToInt32(s.l.ty) == s.l.ty >= 0
    && ToInt32(s.r.tx) == s.r.tx >= 0 && ToInt32(s.r.ty) == s.r.ty >= 0
    && Kept(EdgeOf(s.l), EdgeOf(s.r))
  }

  /** So they do on every row of an untiled triangle, and of a tiled one with narrow corners. */
  lemma RowsLossless(c: seq<Corner>, r: Raster, p: seq<Point>, kx: int, ky: int,
                     before: seq<Pixel>, after: seq<Pixel>, log: seq<Fetch>, scans: seq<Scan>, k: nat)
    requires r.Ok() && Prepared(c, p, r.tile, r.swidth, r.sheight, kx, ky) && Accepted(c) && (r.tile ==> Narrow(c))
    requires Mapped(r, p, before, after, log, scans) && k < |scans|
    ensures Lossless(scans[k])
  {
    if !r.tile {
      UntiledNarrow(c, p, r.swidth, r.sheight, kx, ky);
    }
    var b := Extents(p);
    NarrowBox(c, p, r.tile, r.swidth, r.sheight, kx, ky);
    ScanInside(log, scans, Max(0, Top(p)), b, r.dwidth, r.seamless, k);
    var l, e := scans[k].l, scans[k].r;
    hide Mapped, Prepared, Kept, Narrow;
    Small(l.tx); Small(l.ty); Small(e.tx); Small(e.ty);
    SmallKept(EdgeOf(l), EdgeOf(e));
  }

  lemma NarrowBox(c: seq<Corner>, p: seq<Point>, tile: bool, swidth: nat, sheight: nat, kx: int, ky: int)
    requires Prepared(c, p, tile, swidth, sheight, kx, ky) && Narrow(c)
    ensures var b := Extents(p);
            && 0 <= b.tx1 && b.tx2 < 0x8000_0000 && b.tx2 - b.tx1 < 0x4000_0000
            && 0 <= b.ty1 && b.ty2 < 0x8000_0000 && b.ty2 - b.ty1 < 0x4000_0000
  {
    forall i, j | 0 <= i < 3 && 0 <= j < 3
      ensures 0 <= p[i].tx && 0 <= p[i].ty && p[i].tx - p[j].tx < 0x4000_0000 && p[i].ty - p[j].ty < 0x4000_0000
    {
      assert c[i].u - c[j].u < 0x4000_0000;
    }
    hide Prepared, Narrow;
  }

  lemma ScanInside(log: seq<Fetch>, scans: seq<Scan>, top: int, b: Box, width: int, seamless: bool, k: nat)
    requires Scanned(log, scans, top, b, width, seamless) && k < |scans|
    ensures Inside(b, scans[k].l.x, scans[k].l.tx, scans[k].l.ty) && Inside(b, scans[k].r.x, scans[k].r.tx, scans[k].r.ty)
  {
    ReadyInside(scans[k].l, top + k, b);
    ReadyInside(scans[k].r, top + k, b);
  }
}
