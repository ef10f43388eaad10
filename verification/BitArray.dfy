/** Packed bit arrays of bitops.cpp: elements of a few bits each, read and written through
    unaligned windows of 64 bits. Memory is a sequence of bits, lowest bit of the first byte
    first, and a window is 64 of them from a byte boundary on. */
module BitArray {
  import opened Powers
  import opened Arith

  type Bits = seq<bool>

  // --------------------------------------------------------------------------------------
  // Words of 64 bits
  // --------------------------------------------------------------------------------------

  predicate IsWord(w: Bits) {
    |w| == 64
  }

  function Word(f: nat -> bool): (w: Bits)
    ensures IsWord(w) && forall k :: 0 <= k < 64 ==> w[k] == f(k)
  {
    seq(64, (k: nat) => f(k))
  }

  function And(v: Bits, w: Bits): Bits
    requires IsWord(v) && IsWord(w)
  {
    Word((k: nat) => k < 64 && v[k] && w[k])
  }

  function Or(v: Bits, w: Bits): Bits
    requires IsWord(v) && IsWord(w)
  {
    Word((k: nat) => k < 64 && (v[k] || w[k]))
  }

  function Not(w: Bits): Bits
    requires IsWord(w)
  {
    Word((k: nat) => k < 64 && !w[k])
  }

  function ShiftLeft(w: Bits, s: nat): Bits
    requires IsWord(w)
  {
    Word((k: nat) => s <= k < 64 && w[k - s])
  }

  function ShiftRight(w: Bits, s: nat): Bits
    requires IsWord(w)
  {
    Word((k: nat) => k + s < 64 && w[k + s])
  }

  /** The n lowest ones. */
  function Mask(n: nat): Bits {
    Word((k: nat) => k < n)
  }

  /** The n lowest bits of a number, in two's complement. */
  function BitsOf(v: int, n: nat): (w: Bits)
    ensures |w| == n && forall k :: 0 <= k < n ==> w[k] == (v / Pow2(k) % 2 == 1)
  {
    seq(n, k requires 0 <= k => v / Pow2(k) % 2 == 1)
  }

  /** The number that bits denote. */
  function NumberOf(w: Bits): nat {
    if w == [] then 0 else NumberOf(w[..|w| - 1]) + (if w[|w| - 1] then Pow2(|w| - 1) else 0)
  }

  lemma {:induction false} NumberOfBits(v: int, n: nat)
    ensures NumberOf(BitsOf(v, n)) == v % Pow2(n)
  {
    if n > 0 {
      NumberOfBits(v, n - 1);
      assert BitsOf(v, n)[..n - 1] == BitsOf(v, n - 1);
      ModSplit(v, Pow2(n - 1), 2);
      BitTimes(v / Pow2(n - 1), n - 1);
      Pow2Next(n - 1);
    }
  }

  /** Zeros at the top do not count. */
  lemma {:induction false} NumberOfZeros(w: Bits, n: nat)
    requires n <= |w| && forall k :: n <= k < |w| ==> !w[k]
    ensures NumberOf(w) == NumberOf(w[..n])
  {
    if n < |w| {
      NumberOfZeros(w[..|w| - 1], n);
      assert w[..|w| - 1][..n] == w[..n];
    } else {
      assert w[..n] == w;
    }
  }

  lemma {:induction false} NumberBelow(w: Bits)
    ensures NumberOf(w) < Pow2(|w|)
  {
    if w != [] {
      NumberBelow(w[..|w| - 1]);
      Pow2Next(|w| - 1);
    }
  }

  /** A word read as a signed number. */
  function SignedOf(w: Bits): int
    requires IsWord(w)
  {
    if w[63] then NumberOf(w) - Pow2(64) else NumberOf(w)
  }

  // --------------------------------------------------------------------------------------
  // The window
  // --------------------------------------------------------------------------------------

  /** The bit the window starts at, and the place of the element in it. */
  function Start(b: nat, i: nat): nat { i * b / 8 * 8 }
  function Place(b: nat, i: nat): nat { i * b % 8 }

  lemma StartPlace(b: nat, i: nat)
    ensures Start(b, i) + Place(b, i) == i * b && Place(b, i) < 8
  {}

  /** The memory reaches as far as the window. */
  predicate Reaches(mem: Bits, b: nat, i: nat) {
    Start(b, i) + 64 <= |mem|
  }

  /** The element lies in the window. */
  predicate Fits(b: nat, i: nat) {
    Place(b, i) + b <= 64
  }

  function Load(mem: Bits, at: nat): (w: Bits)
    requires at + 64 <= |mem|
    ensures IsWord(w)
  {
    mem[at..at + 64]
  }

  /** The mask of a width. For 64 the code shifts one by 64, which C++ leaves undefined; `wide` is
      the mask that comes of it. */
  function MaskOf(b: nat, wide: Bits): (m: Bits)
    requires IsWord(wide)
    ensures IsWord(m)
  {
    if b < 64 then Mask(b) else wide
  }

  /** getubits, with its mask */
  function GetWord(mem: Bits, b: nat, i: nat, m: Bits): (w: Bits)
    requires Reaches(mem, b, i) && IsWord(m)
    ensures IsWord(w)
  {
    And(ShiftRight(Load(mem, Start(b, i)), Place(b, i)), m)
  }

  /** setbits, with its mask */
  function SetWord(w: Bits, m: Bits, s: nat, v: int): (r: Bits)
    requires IsWord(w) && IsWord(m)
    ensures IsWord(r)
  {
    Or(And(w, Not(ShiftLeft(m, s))), ShiftLeft(And(BitsOf(v, 64), m), s))
  }

  function SetBits(mem: Bits, b: nat, i: nat, v: int, m: Bits): (r: Bits)
    requires Reaches(mem, b, i) && IsWord(m)
    ensures |r| == |mem|
  {
    var at := Start(b, i);
    mem[..at] + SetWord(Load(mem, at), m, Place(b, i), v) + mem[at + 64..]
  }

  // --------------------------------------------------------------------------------------
  // Elements
  // --------------------------------------------------------------------------------------

  /** Element i of the array in memory. */
  function Element(mem: Bits, b: nat, i: nat): Bits
    requires i * b + b <= |mem|
  {
    mem[i * b..i * b + b]
  }

  /** Where the element fits into the window, getubits reads it. */
  lemma GetIsElement(mem: Bits, b: nat, i: nat)
    requires Reaches(mem, b, i) && Fits(b, i)
    ensures i * b + b <= |mem| && NumberOf(GetWord(mem, b, i, Mask(b))) == NumberOf(Element(mem, b, i))
  {
    StartPlace(b, i);
    var w, at, s := GetWord(mem, b, i, Mask(b)), Start(b, i), Place(b, i);
    NumberOfZeros(w, b);
    forall k | 0 <= k < b
      ensures w[k] == Element(mem, b, i)[k]
    {
      assert Load(mem, at)[k + s] == mem[at + s + k];
    }
    assert w[..b] == Element(mem, b, i);
  }

  /** setbits writes the element and no other bit. */
  lemma SetIsUpdate(mem: Bits, b: nat, i: nat, v: int)
    requires Reaches(mem, b, i) && Fits(b, i)
    ensures i * b + b <= |mem| && SetBits(mem, b, i, v, Mask(b)) == mem[..i * b] + BitsOf(v, b) + mem[i * b + b..]
  {
    StartPlace(b, i);
    var at, s := Start(b, i), Place(b, i);
    var r, u := SetBits(mem, b, i, v, Mask(b)), mem[..i * b] + BitsOf(v, b) + mem[i * b + b..];
    forall k | 0 <= k < |mem|
      ensures r[k] == u[k]
    {
      if at <= k < at + 64 {
        assert r[k] == SetWord(Load(mem, at), Mask(b), s, v)[k - at];
        assert Load(mem, at)[k - at] == mem[k];
      }
    }
  }

  /** The signed reading: if the top bit of the element is one, all bits above it are set. */
  function Extended(w: Bits, b: nat, m: Bits): (r: Bits)
    requires IsWord(w) && IsWord(m)
    ensures IsWord(r)
  {
    if 0 < b <= 64 && w[b - 1] then Or(w, Not(m)) else w
  }

  lemma {:induction false} NumberOfOnes(w: Bits, n: nat)
    requires n <= |w| && forall k :: n <= k < |w| ==> w[k]
    ensures NumberOf(w) == NumberOf(w[..n]) + Pow2(|w|) - Pow2(n)
  {
    if n < |w| {
      NumberOfOnes(w[..|w| - 1], n);
      assert w[..|w| - 1][..n] == w[..n];
      Pow2Next(|w| - 1);
    } else {
      assert w[..n] == w;
    }
  }

  /** The top bit of some bits is one exactly if they denote at least half of what they can. */
  lemma TopBit(w: Bits)
    requires |w| > 0
    ensures w[|w| - 1] <==> NumberOf(w) >= Pow2(|w| - 1)
  {
    NumberBelow(w[..|w| - 1]);
  }

  /** getbits reads the element with its top bit as the sign. */
  lemma SignedReading(mem: Bits, b: nat, i: nat)
    requires 1 <= b <= 64 && Reaches(mem, b, i)
    ensures SignedOf(Extended(GetWord(mem, b, i, Mask(b)), b, Mask(b))) == SignExtend(NumberOf(GetWord(mem, b, i, Mask(b))), b)
  {
    var w := GetWord(mem, b, i, Mask(b));
    assert forall k :: b <= k < 64 ==> !w[k];
    hide GetWord;
    SignedWord(w, b);
  }

  lemma SignedWord(w: Bits, b: nat)
    requires 1 <= b <= 64 && IsWord(w) && forall k :: b <= k < 64 ==> !w[k]
    ensures SignedOf(Extended(w, b, Mask(b))) == SignExtend(NumberOf(w), b)
  {
    NumberOfZeros(w, b);
    TopBit(w[..b]);
    assert w[..b][b - 1] == w[b - 1];
    hide NumberOf, Pow2;
    if w[b - 1] {
      ExtendedOnes(w, b);
    } else {
      NotExtended(w, b);
    }
    hide Extended, Mask;
  }

  lemma NotExtended(w: Bits, b: nat)
    requires 1 <= b <= 64 && IsWord(w) && !w[b - 1] && forall k :: b <= k < 64 ==> !w[k]
    ensures Extended(w, b, Mask(b)) == w && !w[63]
  {}

  lemma ExtendedOnes(w: Bits, b: nat)
    requires 1 <= b <= 64 && IsWord(w) && w[b - 1] && forall k :: b <= k < 64 ==> !w[k]
    ensures var e := Extended(w, b, Mask(b)); e[63] && NumberOf(e) == NumberOf(w) + Pow2(64) - Pow2(b)
  {
    var e := Extended(w, b, Mask(b));
    assert forall k :: b <= k < 64 ==> e[k];
    assert e[..b] == w[..b];
    hide Extended, Pow2;
    NumberOfZeros(w, b);
    NumberOfOnes(e, b);
  }

  lemma Apart(b: nat, i: nat, j: nat)
    requires i != j
    ensures i * b + b <= j * b || j * b + b <= i * b
  {
    if i < j {
      MulMono(i + 1, j, b);
      Distribute(i, 1, b);
    } else {
      MulMono(j + 1, i, b);
      Distribute(j, 1, b);
    }
  }

  /** After element i has been set it is the value modulo 2 to the width, and every other element
      is what it was, although the windows overlap. */
  lemma SetThenGet(mem: Bits, b: nat, i: nat, v: int, j: nat)
    requires 1 <= b <= 64 && Reaches(mem, b, i) && Reaches(mem, b, j) && Fits(b, i) && Fits(b, j)
    ensures NumberOf(GetWord(SetBits(mem, b, i, v, Mask(b)), b, j, Mask(b)))
            == if i == j then v % Pow2(b) else NumberOf(GetWord(mem, b, j, Mask(b)))
  {
    var r := SetBits(mem, b, i, v, Mask(b));
    SetIsUpdate(mem, b, i, v);
    GetIsElement(mem, b, j);
    assert Reaches(r, b, j);
    GetIsElement(r, b, j);
    hide *;
    if i == j {
      ElementSet(mem, r, b, i, BitsOf(v, b));
      NumberOfBits(v, b);
    } else {
      ElementKept(mem, r, b, i, j, BitsOf(v, b));
    }
  }

  lemma ElementSet(mem: Bits, r: Bits, b: nat, i: nat, e: Bits)
    requires i * b + b <= |mem| && |e| == b && r == mem[..i * b] + e + mem[i * b + b..]
    ensures |r| == |mem| && Element(r, b, i) == e
  {}

  lemma ElementKept(mem: Bits, r: Bits, b: nat, i: nat, j: nat, e: Bits)
    requires i * b + b <= |mem| && |e| == b && r == mem[..i * b] + e + mem[i * b + b..]
    requires i != j && j * b + b <= |mem|
    ensures |r| == |mem| && Element(r, b, j) == Element(mem, b, j)
  {
    Apart(b, i, j);
  }

  lemma EvenPlace(i: nat)
    ensures Place(58, i) <= 6 && Place(60, i) <= 4 && Place(64, i) == 0
  {
    var x, y := i * 29, i * 15;
    DivUnique(2 * x, 8, x / 4, 2 * (x % 4));
    DivUnique(4 * y, 8, y / 2, 4 * (y % 2));
    assert i * 58 == 2 * x && i * 60 == 4 * y && i * 64 == i * 8 * 8;
  }

  /** Which widths fit at every index: up to 58, and 60 and 64. */
  lemma WidthsThatFit(b: nat)
    requires 1 <= b <= 64
    ensures (forall i :: Fits(b, i)) <==> b <= 58 || b == 60 || b == 64
  {
    if b <= 58 || b == 60 || b == 64 {
      forall i: nat
        ensures Fits(b, i)
      {
        StartPlace(b, i);
        EvenPlace(i);
        hide Place;
      }
    } else {
      assert Place(59, 2) == 6 && Place(61, 1) == 5 && Place(62, 1) == 6 && Place(63, 1) == 7;
      hide Place;
      assert !Fits(b, if b == 59 then 2 else 1);
    }
  }

  lemma {:induction false} SameNumber(w: Bits, u: Bits)
    requires |w| == |u| && NumberOf(w) == NumberOf(u)
    ensures w == u
  {
    if w != [] {
      TopBit(w);
      TopBit(u);
      SameNumber(w[..|w| - 1], u[..|u| - 1]);
      assert w == w[..|w| - 1] + [w[|w| - 1]] && u == u[..|u| - 1] + [u[|u| - 1]];
    }
  }

  /** An element reads as what it was set to, for every value, if and only if it fits into its
      window and the masks are those of its width. */
  lemma SetThenGetIff(mem: Bits, b: nat, i: nat, wideSet: Bits, wideGet: Bits)
    requires 1 <= b <= 64 && Reaches(mem, b, i) && IsWord(wideSet) && IsWord(wideGet)
    ensures var s, g := MaskOf(b, wideSet), MaskOf(b, wideGet);
            && ((forall v :: NumberOf(GetWord(SetBits(mem, b, i, v, s), b, i, g)) == v % Pow2(b))
                <==> Fits(b, i) && s == g == Mask(b))
            && (if b == 64 then s == wideSet && g == wideGet else s == g == Mask(b))
  {
    var s, g := MaskOf(b, wideSet), MaskOf(b, wideGet);
    if Fits(b, i) && s == g == Mask(b) {
      forall v
        ensures NumberOf(GetWord(SetBits(mem, b, i, v, s), b, i, g)) == v % Pow2(b)
      {
        SetThenGet(mem, b, i, v, i);
      }
    } else if !Fits(b, i) {
      Cut(mem, b, i, s, g);
    } else {
      Masked(mem, i, s, g);
    }
  }

  /** Where an element does not fit its upper bits are lost. */
  lemma Cut(mem: Bits, b: nat, i: nat, s: Bits, g: Bits)
    requires 1 <= b <= 64 && Reaches(mem, b, i) && IsWord(s) && IsWord(g) && !Fits(b, i)
    ensures exists v :: NumberOf(GetWord(SetBits(mem, b, i, v, s), b, i, g)) != v % Pow2(b)
  {
    var v := Pow2(b - 1);
    var w := GetWord(SetBits(mem, b, i, v, s), b, i, g);
    assert !w[b - 1] && forall k :: b - 1 <= k < 64 ==> !w[k];
    NumberOfZeros(w, b - 1);
    NumberBelow(w[..b - 1]);
    Pow2Next(b - 1);
    DivUnique(v, Pow2(b), 0, v);
  }

  /** With a width of 64 every bit that a mask lacks is lost or kept from before. */
  lemma Masked(mem: Bits, i: nat, s: Bits, g: Bits)
    requires Reaches(mem, 64, i) && IsWord(s) && IsWord(g) && !(s == g == Mask(64))
    ensures exists v :: NumberOf(GetWord(SetBits(mem, 64, i, v, s), 64, i, g)) != v % Pow2(64)
  {
    var ones, none := GetWord(SetBits(mem, 64, i, -1, s), 64, i, g), GetWord(SetBits(mem, 64, i, 0, s), 64, i, g);
    NumberOfBits(-1, 64);
    NumberOfBits(0, 64);
    if NumberOf(ones) == -1 % Pow2(64) && NumberOf(none) == 0 % Pow2(64) {
      SameNumber(ones, BitsOf(-1, 64));
      SameNumber(none, BitsOf(0, 64));
      AllOnes(mem, i, s, g);
      assert false;
    }
  }

  lemma AllOnes(mem: Bits, i: nat, s: Bits, g: Bits)
    requires Reaches(mem, 64, i) && IsWord(s) && IsWord(g)
    requires GetWord(SetBits(mem, 64, i, -1, s), 64, i, g) == BitsOf(-1, 64)
    requires GetWord(SetBits(mem, 64, i, 0, s), 64, i, g) == BitsOf(0, 64)
    ensures s == g == Mask(64)
  {
    var at := Start(64, i);
    assert Place(64, i) == 0;
    var x, y := SetBits(mem, 64, i, -1, s), SetBits(mem, 64, i, 0, s);
    forall k | 0 <= k < 64
      ensures s[k] && g[k]
    {
      SignBits(k);
      assert BitsOf(-1, 64)[k] && !BitsOf(0, 64)[k];
      assert Load(x, at) == SetWord(Load(mem, at), s, 0, -1) && Load(y, at) == SetWord(Load(mem, at), s, 0, 0);
    }
  }

  lemma SignBits(k: nat)
    ensures -1 / Pow2(k) % 2 == 1 && 0 / Pow2(k) % 2 == 0
  {
    DivUnique(-1, Pow2(k), -1, Pow2(k) - 1);
  }

  // --------------------------------------------------------------------------------------
  // The procedures, on memory that is changed in place
  // --------------------------------------------------------------------------------------

  method SetBitsAt(mem: array<bool>, bsize: nat, i: nat, val: int, wide: Bits)
    requires 1 <= bsize <= 64 && Reaches(mem[..], bsize, i) && IsWord(wide)
    modifies mem
    ensures mem[..] == SetBits(old(mem[..]), bsize, i, val, MaskOf(bsize, wide))
    ensures Fits(bsize, i) && MaskOf(bsize, wide) == Mask(bsize) ==>
              i * bsize + bsize <= mem.Length
              && mem[..] == old(mem[..])[..i * bsize] + BitsOf(val, bsize) + old(mem[..])[i * bsize + bsize..]
  {
    ghost var before := mem[..];
    var bmask := MaskOf(bsize, wide);
    if Fits(bsize, i) && bmask == Mask(bsize) {
      SetIsUpdate(before, bsize, i, val);
    }
    var at, s := Start(bsize, i), Place(bsize, i);
    var r := SetWord(mem[at..at + 64], bmask, s, val);
    assert mem[at..at + 64] == Load(before, at);
    StoreWord(mem, at, r);
  }

  /** The 64 bits of the window are overwritten together. */
  method StoreWord(mem: array<bool>, at: nat, w: Bits)
    requires IsWord(w) && at + 64 <= mem.Length
    modifies mem
    ensures mem[..] == old(mem[..at]) + w + old(mem[at + 64..])
  {
    forall k | at <= k < at + 64 {
      mem[k] := w[k - at];
    }
  }

  method GetUBitsAt(mem: array<bool>, bsize: nat, i: nat, wide: Bits) returns (r: nat)
    requires 1 <= bsize <= 64 && Reaches(mem[..], bsize, i) && IsWord(wide)
    ensures r == NumberOf(GetWord(mem[..], bsize, i, MaskOf(bsize, wide)))
    ensures Fits(bsize, i) && MaskOf(bsize, wide) == Mask(bsize) ==>
              i * bsize + bsize <= mem.Length && r == NumberOf(mem[i * bsize..i * bsize + bsize])
  {
    var bmask := MaskOf(bsize, wide);
    if Fits(bsize, i) && bmask == Mask(bsize) {
      GetIsElement(mem[..], bsize, i);
      assert Element(mem[..], bsize, i) == mem[i * bsize..i * bsize + bsize];
    }
    var at, s := Start(bsize, i), Place(bsize, i);
    assert mem[at..at + 64] == Load(mem[..], at);
    r := NumberOf(And(ShiftRight(mem[at..at + 64], s), bmask));
  }

  method GetBitsAt(mem: array<bool>, bsize: nat, i: nat, wide: Bits) returns (r: int)
    requires 1 <= bsize <= 64 && Reaches(mem[..], bsize, i) && IsWord(wide)
    ensures var m := MaskOf(bsize, wide);
            && r == SignedOf(Extended(GetWord(mem[..], bsize, i, m), bsize, m))
            && (m == Mask(bsize) ==> r == SignExtend(NumberOf(GetWord(mem[..], bsize, i, m)), bsize))
  {
    var at, s, bmask := Start(bsize, i), Place(bsize, i), MaskOf(bsize, wide);
    assert mem[at..at + 64] == Load(mem[..], at);
    SignedReading(mem[..], bsize, i);
    var w := And(ShiftRight(mem[at..at + 64], s), bmask);
    if w[bsize - 1] {
      w := Or(w, Not(bmask));
    }
    r := SignedOf(w);
  }
}
