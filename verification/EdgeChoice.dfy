/** Choosing the gradients in sub__maptriangle of graphics.cpp: which two edges of the triangle
    are scanned first, which one follows, and which of the two is on the left. */
module EdgeChoice {
  import opened Arith
  import opened FixedPoint
  import opened Rasteriser
  import opened Triangle

  ghost predicate ThreeIn(p: seq<Point>, b: Box) {
    |p| == 3 && Holds(b, p[0]) && Holds(b, p[1]) && Holds(b, p[2])
  }

  function Top(p: seq<Point>): (t: int)
    requires |p| == 3
    ensures t <= p[0].y && t <= p[1].y && t <= p[2].y
  {
    Min(p[0].y, Min(p[1].y, p[2].y))
  }

  function Bottom(p: seq<Point>): (t: int)
    requires |p| == 3
    ensures p[0].y <= t && p[1].y <= t && p[2].y <= t
  {
    Max(p[0].y, Max(p[1].y, p[2].y))
  }

  /** Edge i of the triangle. */
  function EdgeAt(p: seq<Point>, i: nat): Gradient
    requires |p| == 3 && i < 3
  {
    MakeGradient(p[i], p[if i == 2 then 0 else i + 1])
  }

  predicate Flat(p: seq<Point>, i: nat)
    requires |p| == 3 && i < 3
  {
    EdgeAt(p, i).y1 == EdgeAt(p, i).y2
  }

  function Flats(p: seq<Point>, n: nat): nat
    requires |p| == 3 && n <= 3
  {
    if n == 0 then 0 else Flats(p, n - 1) + One(Flat(p, n - 1))
  }

  /** A choice of three edges by their numbers. */
  datatype Choice = Choice(i1: nat, i2: nat, i3: nat)

  ghost predicate Distinct(c: Choice) {
    c.i1 < 3 && c.i2 < 3 && c.i3 < 3 && c.i1 != c.i2 && c.i1 != c.i3 && c.i2 != c.i3
  }

  /** Two edges that both run from the top to the bottom and meet at one of them. */
  ghost predicate Wedge(g1: Gradient, g2: Gradient, top: int, bottom: int) {
    && Sloped(g1, top) && Sloped(g2, top) && g1.y1 == g2.y1 == top && g1.y2 == g2.y2 == bottom
    && (g1.p1 == g2.p1 || g1.p2 == g2.p2)
  }

  /** A triangle that is one row: its leftmost and its rightmost vertex. */
  ghost predicate Row(g1: Gradient, g2: Gradient, p: seq<Point>, top: int)
    requires |p| == 3
  {
    && Level(g1, top) && Level(g2, top)
    && (exists i :: 0 <= i < 3 && EdgeOf(g1) == Edge(p[i].x, p[i].tx, p[i].ty) && p[i].x <= p[0].x && p[i].x <= p[1].x && p[i].x <= p[2].x)
    && (exists i :: 0 <= i < 3 && EdgeOf(g2) == Edge(p[i].x, p[i].tx, p[i].ty) && p[0].x <= p[i].x && p[1].x <= p[i].x && p[2].x <= p[i].x)
  }

  /** A long edge, and a short one that a third edge continues to the bottom. */
  ghost predicate Bent(long: Gradient, short: Gradient, g3: Gradient, top: int, bottom: int) {
    && Sloped(long, top) && Sloped(short, top) && long.y1 == short.y1 == top
    && long.y2 == bottom && long.p1 == short.p1
    && g3.y1 == short.y2 && Sloped(g3, g3.y1) && g3.y2 == bottom && g3.p1 == short.p2 && g3.p2 == long.p2
    && g3.x == g3.p1.x
  }

  ghost predicate Shape(g1: Gradient, g2: Gradient, g3: Gradient, final: bool, p: seq<Point>, top: int, bottom: int)
    requires |p| == 3
  {
    if final then Wedge(g1, g2, top, bottom) || (top == bottom && Row(g1, g2, p, top))
    else Bent(g1, g2, g3, top, bottom) || Bent(g2, g1, g3, top, bottom)
  }

  /** The midpoint of the first run, by which left and right are told apart. */
  function MidX(g: Gradient, h: int): int {
    g.x + Quot(g.xi * h, 2)
  }

  /** The chosen edges are three different edges of the triangle, in this shape. */
  ghost predicate Chosen(g1: Gradient, g2: Gradient, g3: Gradient, final: bool, p: seq<Point>, c: Choice, b: Box)
  {
    && |p| == 3 && Distinct(c)
    && Moved(g1, EdgeAt(p, c.i1)) && Moved(g2, EdgeAt(p, c.i2)) && Moved(g3, EdgeAt(p, c.i3))
    && Ready(g1, Top(p), b) && Ready(g2, Top(p), b) && (!final ==> Ready(g3, g3.y1, b))
    && Shape(g1, g2, g3, final, p, Top(p), Bottom(p))
  }

  lemma EdgeReady(p: seq<Point>, i: nat, b: Box)
    requires ThreeIn(p, b) && i < 3
    ensures var g := EdgeAt(p, i); Ready(g, g.y1, b) && (g.y1 != g.y2 ==> Sloped(g, g.y1))
  {
    MadeReady(p[i], p[if i == 2 then 0 else i + 1], b);
  }

  function One(c: bool): nat { if c then 1 else 0 }

  lemma FlatsCount(p: seq<Point>)
    requires |p| == 3
    ensures Flats(p, 3) == One(Flat(p, 0)) + One(Flat(p, 1)) + One(Flat(p, 2))
    ensures Flats(p, 3) <= 3 && Flats(p, 3) != 2
    ensures Flats(p, 3) == 3 ==> p[0].y == p[1].y == p[2].y
  {
    assert Flats(p, 1) == One(Flat(p, 0));
    assert Flats(p, 2) == Flats(p, 1) + One(Flat(p, 1));
  }

  /** The edges in the order the source keeps them in, with the numbers they came from. */
  method ChooseSloped(p: seq<Point>, ghost b: Box) returns (g1: Gradient, g2: Gradient, g3: Gradient, ghost c: Choice)
    requires ThreeIn(p, b) && Flats(p, 3) == 0
    ensures Chosen(g1, g2, g3, false, p, c, b)
  {
    FlatsCount(p);
    hide Chosen, EdgeAt, Flats;
    g1, g2, g3, c := EdgeAt(p, 0), EdgeAt(p, 1), EdgeAt(p, 2), Choice(0, 1, 2);
    if g3.y1 < g1.y1 {
      g1, g3 := g3, g1;
      c := Choice(c.i3, c.i2, c.i1);
    }
    if g3.y1 < g2.y1 {
      g2, g3 := g3, g2;
      c := Choice(c.i1, c.i3, c.i2);
    }
    SlopedOf(p, c, b);
  }

  lemma SlopedOf(p: seq<Point>, c: Choice, b: Box)
    requires ThreeIn(p, b) && Distinct(c) && !Flat(p, c.i1) && !Flat(p, c.i2) && !Flat(p, c.i3)
    requires EdgeAt(p, c.i1).y1 <= EdgeAt(p, c.i3).y1 && EdgeAt(p, c.i2).y1 <= EdgeAt(p, c.i3).y1
    ensures Chosen(EdgeAt(p, c.i1), EdgeAt(p, c.i2), EdgeAt(p, c.i3), false, p, c, b)
  {
    EdgeReady(p, c.i1, b); EdgeReady(p, c.i2, b); EdgeReady(p, c.i3, b);
    SharedTop(p, c);
    hide Sloped, Holds, EdgeAt, Ready, Top, Bottom;
  }

  /** The edges that start first meet at the top, and the third joins their other ends. */
  lemma SharedTop(p: seq<Point>, c: Choice)
    requires |p| == 3 && Distinct(c) && !Flat(p, c.i1) && !Flat(p, c.i2) && !Flat(p, c.i3)
    requires EdgeAt(p, c.i1).y1 <= EdgeAt(p, c.i3).y1 && EdgeAt(p, c.i2).y1 <= EdgeAt(p, c.i3).y1
    ensures var g1, g2, g3 := EdgeAt(p, c.i1), EdgeAt(p, c.i2), EdgeAt(p, c.i3);
            && g1.p1 == g2.p1 && g1.y1 == g2.y1 == Top(p) && g3.y2 == Bottom(p) && g3.x == g3.p1.x
            && g1.y2 == g1.p2.y && g2.y2 == g2.p2.y && g3.y1 == g3.p1.y && g3.y2 == g3.p2.y
            && ((g3.p1 == g1.p2 && g3.p2 == g2.p2) || (g3.p1 == g2.p2 && g3.p2 == g1.p2))
  {
    EdgeEnds(p, c.i1); EdgeEnds(p, c.i2); EdgeEnds(p, c.i3);
    hide EdgeAt;
  }

  /** An edge runs from its upper vertex to its lower one. */
  lemma EdgeEnds(p: seq<Point>, i: nat)
    requires |p| == 3 && i < 3
    ensures var g, a, b := EdgeAt(p, i), p[i], p[if i == 2 then 0 else i + 1];
            && g.p1 == (if a.y > b.y then b else a) && g.p2 == (if a.y > b.y then a else b)
            && g.y1 == g.p1.y && g.y2 == g.p2.y && g.x == g.p1.x
  {
    hide Quot;
  }

  lemma WedgeOf(p: seq<Point>, c: Choice, b: Box)
    requires ThreeIn(p, b) && Distinct(c) && Flat(p, c.i3) && !Flat(p, c.i1) && !Flat(p, c.i2)
    ensures Chosen(EdgeAt(p, c.i1), EdgeAt(p, c.i2), EdgeAt(p, c.i3), true, p, c, b)
  {
    EdgeReady(p, c.i1, b); EdgeReady(p, c.i2, b);
    EdgeEnds(p, c.i1); EdgeEnds(p, c.i2); EdgeEnds(p, c.i3);
    hide Sloped, Holds, EdgeAt, Ready;
    var g1, g2, t := EdgeAt(p, c.i1), EdgeAt(p, c.i2), Top(p);
    assert g1.y1 == g2.y1 == t && g1.y2 == g2.y2 == Bottom(p);
    assert g1.p1 == g2.p1 || g1.p2 == g2.p2;
  }

  method ChooseWedge(p: seq<Point>, flat: nat, ghost b: Box) returns (g1: Gradient, g2: Gradient, g3: Gradient, ghost c: Choice)
    requires ThreeIn(p, b) && Flats(p, 3) == 1 && flat < 3 && Flat(p, flat)
    ensures Chosen(g1, g2, g3, true, p, c, b) && g1.y1 < g1.y2
  {
    FlatsCount(p);
    g1, g2, g3, c := EdgeAt(p, 0), EdgeAt(p, 1), EdgeAt(p, 2), Choice(0, 1, 2);
    if flat == 0 {
      g1, g3 := g3, g1;
      c := Choice(2, 1, 0);
    }
    if flat == 1 {
      g2, g3 := g3, g2;
      c := Choice(0, 2, 1);
    }
    hide Chosen, Holds;
    WedgeOf(p, c, b);
  }

  /** A row from the leftmost to the rightmost vertex; of equals the later one counts. */
  method ChooseRow(p: seq<Point>, ghost b: Box) returns (g1: Gradient, g2: Gradient)
    requires ThreeIn(p, b) && p[0].y == p[1].y == p[2].y
    requires forall i :: 0 <= i < 3 ==> -0x8000_0000 <= p[i].x < 0x8000_0000
    ensures Chosen(g1, g2, EdgeAt(p, 2), true, p, Choice(0, 1, 2), b)
    ensures g1.x <= g2.x && g1.xi == 0 && g2.xi == 0
  {
    var lhs, rhs, lhsi, rhsi := 2147483647, -2147483648, 0, 0;
    var i := 0;
    while i < 3
      invariant 0 <= i <= 3 && 0 <= lhsi < 3 && 0 <= rhsi < 3
      invariant forall j :: 0 <= j < i ==> lhs <= p[j].x <= rhs
      invariant if i > 0 then p[lhsi].x == lhs && p[rhsi].x == rhs else lhs == 2147483647 && rhs == -2147483648
    {
      var x := p[i].x;
      if x <= lhs {
        lhs, lhsi := x, i;
      }
      if x >= rhs {
        rhs, rhsi := x, i;
      }
      i := i + 1;
    }
    g1 := EdgeAt(p, 0).(x := lhs, tx := p[lhsi].tx, ty := p[lhsi].ty);
    g2 := EdgeAt(p, 1).(x := rhs, tx := p[rhsi].tx, ty := p[rhsi].ty);
  }

  lemma SwapChosen(g1: Gradient, g2: Gradient, g3: Gradient, final: bool, p: seq<Point>, c: Choice, b: Box)
    requires Chosen(g1, g2, g3, final, p, c, b) && !(final && Level(g1, Top(p)))
    ensures Chosen(g2, g1, g3, final, p, Choice(c.i2, c.i1, c.i3), b)
  {
    hide Sloped, Holds, Quot;
  }

  ghost predicate InOrder(g1: Gradient, g2: Gradient) {
    g1.x <= g2.x && g1.xi == 0 && g2.xi == 0
  }

  method ChooseEdges(p: seq<Point>, ghost b: Box)
    returns (g1: Gradient, g2: Gradient, g3: Gradient, final: bool, ghost c: Choice)
    requires ThreeIn(p, b)
    requires forall i :: 0 <= i < 3 ==> -0x8000_0000 <= p[i].x < 0x8000_0000
    ensures Chosen(g1, g2, g3, final, p, c, b)
    ensures final && Level(g1, Top(p)) ==> InOrder(g1, g2)
  {
    hide Holds, MakeGradient, Chosen, Sloped;
    var flats, flatg, i := 0, 0, 0;
    while i < 3
      invariant 0 <= i <= 3 && flats == Flats(p, i)
      invariant flats > 0 ==> 0 <= flatg < 3 && Flat(p, flatg)
    {
      var g := EdgeAt(p, i);
      if g.y2 - g.y1 == 0 {
        flats := flats + 1;
        flatg := i;
      }
      i := i + 1;
    }
    FlatsCount(p);
    if flats == 0 {
      g1, g2, g3, c := ChooseSloped(p, b);
      final := false;
    } else if flats == 1 {
      g1, g2, g3, c := ChooseWedge(p, flatg, b);
      final := true;
    } else {
      g1, g2 := ChooseRow(p, b);
      g3, c, final := EdgeAt(p, 2), Choice(0, 1, 2), true;
    }
  }

  lemma ChosenTop(g1: Gradient, g2: Gradient, g3: Gradient, final: bool, p: seq<Point>, c: Choice, b: Box)
    requires Chosen(g1, g2, g3, final, p, c, b)
    ensures g1.y1 == Top(p) && g2.y1 == Top(p)
  {
    hide OnEdge, Holds;
  }

  /** The gradients, from the vertices: the first is left of the second at the middle of the
      first run. */
  method Choose(p: seq<Point>, ghost b: Box)
    returns (g1: Gradient, g2: Gradient, g3: Gradient, final: bool, y1: int, y2: int, ghost c: Choice)
    requires ThreeIn(p, b)
    requires forall i :: 0 <= i < 3 ==> -0x8000_0000 <= p[i].x < 0x8000_0000
    ensures Chosen(g1, g2, g3, final, p, c, b)
    ensures y1 == Top(p) && y2 == Min(g1.y2, g2.y2)
    ensures MidX(g1, y2 - y1) <= MidX(g2, y2 - y1)
  {
    hide Chosen, Sloped, Holds, MakeGradient, Top;
    g1, g2, g3, final, c := ChooseEdges(p, b);
    ChosenTop(g1, g2, g3, final, p, c, b);
    y1 := g1.y1;
    y2 := if g1.y2 > g2.y2 then g2.y2 else g1.y2;
    var h := y2 - y1;
    if MidX(g1, h) > MidX(g2, h) {
      SwapChosen(g1, g2, g3, final, p, c, b);
      g1, g2 := g2, g1;
      c := Choice(c.i2, c.i1, c.i3);
    }
  }
}
