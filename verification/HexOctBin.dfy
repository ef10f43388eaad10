/** The integer printers of hexoctbin.cpp: HEX$, OCT$ and _BIN$ of 64-bit values, negative ones
    in two's complement with as many digits as they need. */
module HexOctBin {
  import opened Powers
  import opened Arith
  import opened Digits

  const MIN64: int := -0x8000_0000_0000_0000
  const MAX64: int := 0x7fff_ffff_ffff_ffff

  /** The highest of the lowest n bits of v, counted from 1, that is `want`, or 0. */
  function LastBit(v: int, want: int, n: nat): (r: nat)
    ensures r <= n
  {
    if n == 0 then 0 else if v / Pow2(n - 1) % 2 == want then n else LastBit(v, want, n - 1)
  }

  /** The bits that are printed: those of a positive value, and of a negative one the given
      number if its leading ones show there, else the next of 16, 32 and 64. */
  function Bits(v: int, negBits: nat): nat {
    if v < 0 then
      var z := LastBit(v, 0, 64);
      if z >= negBits then (if z < 16 then 16 else if z < 32 then 32 else 64) else negBits
    else LastBit(v, 1, 64)
  }

  /** Halving k times. */
  lemma ShiftOne(v: int, k: nat)
    ensures v / Pow2(k) / 2 == v / Pow2(k + 1)
    ensures v / Pow2(k) == 2 * (v / Pow2(k + 1)) + v / Pow2(k) % 2
  {
    ModSplit(v, Pow2(k), 2);
    Pow2Next(k);
  }

  lemma QuotRange(v: int, a: int, q: int)
    requires 0 < a && v / a == q
    ensures q * a <= v < (q + 1) * a
  {
    Distribute(q, 1, a);
  }

  /** Above its highest zero a negative value is all ones, above its highest one a positive
      value is all zeros. */
  lemma {:induction false} LastBitRange(v: int, n: nat)
    ensures v / Pow2(n) == -1 ==> v / Pow2(LastBit(v, 0, n)) == -1
    ensures v / Pow2(n) == 0 ==> v / Pow2(LastBit(v, 1, n)) == 0
  {
    if n > 0 {
      ShiftOne(v, n - 1);
      LastBitRange(v, n - 1);
    }
  }

  lemma QuotTop(v: int)
    requires MIN64 <= v <= MAX64
    ensures v / Pow2(63) == v / Pow2(64) == if v < 0 then -1 else 0
  {
    Pow2Values();
    if v < 0 {
      DivUnique(v, Pow2(63), -1, v + Pow2(63));
      DivUnique(v, Pow2(64), -1, v + Pow2(64));
    } else {
      DivUnique(v, Pow2(63), 0, v);
      DivUnique(v, Pow2(64), 0, v);
    }
  }

  /** What reading back w bits of v gives. */
  ghost predicate Recovers(v: int, w: nat) {
    && w <= 64 && v % Pow2(w) < 0x1_0000_0000_0000_0000
    && (v >= 0 ==> v % Pow2(w) == v)
    && (v < 0 ==> w > 0 && SignExtend(v % Pow2(w), w) == v)
  }

  lemma RecoversNegative(v: int, z: nat, w: nat)
    requires v / Pow2(z) == -1 && z < w <= 64
    ensures Recovers(v, w)
  {
    QuotRange(v, Pow2(z), -1);
    Pow2Mono(z, w - 1);
    Pow2Next(w - 1);
    DivUnique(v, Pow2(w), -1, v + Pow2(w));
    Pow2Mono(w, 64);
    Pow2Values();
  }

  lemma RecoversPositive(v: int, w: nat)
    requires v >= 0 && v / Pow2(w) == 0 && w <= 64
    ensures Recovers(v, w)
  {
    QuotRange(v, Pow2(w), 0);
    DivUnique(v, Pow2(w), 0, v);
    Pow2Mono(w, 64);
    Pow2Values();
  }

  /** The printed bits determine the value. */
  lemma BitsRecover(v: int, negBits: nat)
    requires MIN64 <= v <= MAX64 && negBits <= 64
    ensures Recovers(v, Bits(v, negBits))
    ensures Bits(v, negBits) == 0 ==> v == 0
  {
    QuotTop(v);
    LastBitRange(v, 64);
    if v < 0 {
      var z := LastBit(v, 0, 64);
      LastBitTop(v);
      hide LastBit;
      RecoversNegative(v, z, Bits(v, negBits));
    } else {
      RecoversPositive(v, LastBit(v, 1, 64));
      assert Pow2(0) == 1;
    }
  }

  /** The sign bit of a negative value is one. */
  lemma LastBitTop(v: int)
    requires MIN64 <= v < 0
    ensures LastBit(v, 0, 64) < 64
  {
    QuotTop(v);
    ShiftOne(v, 63);
  }

  // --------------------------------------------------------------------------------------
  // How many bits these are
  // --------------------------------------------------------------------------------------

  lemma {:induction false} LastBitIs(v: int, want: int, n: nat)
    ensures var r := LastBit(v, want, n); r > 0 ==> v / Pow2(r - 1) % 2 == want
  {
    if n > 0 && v / Pow2(n - 1) % 2 != want {
      LastBitIs(v, want, n - 1);
    }
  }

  lemma HighestOne(v: int)
    requires 0 < v <= MAX64
    ensures var n := LastBit(v, 1, 64); v / Pow2(n) == 0 && (n > 0 ==> v / Pow2(n - 1) % 2 == 1)
  {
    QuotTop(v);
    LastBitRange(v, 64);
    LastBitIs(v, 1, 64);
    hide Pow2, LastBit;
  }

  /** Those of a positive value are as many as it needs. */
  lemma BitsPositive(v: int, negBits: nat)
    requires 0 < v <= MAX64
    ensures var n := Bits(v, negBits); n > 0 && Pow2(n - 1) <= v < Pow2(n)
  {
    HighestOne(v);
    hide LastBit;
    TopPlace(v, Bits(v, negBits));
  }

  lemma TopPlace(v: int, n: nat)
    requires 0 < v && v / Pow2(n) == 0 && (n > 0 ==> v / Pow2(n - 1) % 2 == 1)
    ensures n > 0 && Pow2(n - 1) <= v < Pow2(n)
  {
    QuotRange(v, Pow2(n), 0);
    assert Pow2(0) == 1;
    hide Pow2;
    if n > 0 {
      OddQuotient(v, Pow2(n - 1));
    }
  }

  lemma OddQuotient(v: int, a: int)
    requires 0 < v && 0 < a && v / a % 2 == 1
    ensures a <= v
  {
    QuotRange(v, a, v / a);
    MulMono(1, v / a, a);
  }

  /** A negative value fits into w bits with its sign. */
  predicate SignedIn(v: int, w: nat) {
    w > 0 && 0 <= v + Pow2(w - 1)
  }

  /** A negative value has its highest zero below bit m exactly if it fits into m bits with its
      sign. */
  lemma HighestZero(v: int, m: nat)
    requires MIN64 <= v < 0 < m
    ensures LastBit(v, 0, 64) < m <==> SignedIn(v, m)
  {
    var z := LastBit(v, 0, 64);
    QuotTop(v);
    LastBitRange(v, 64);
    LastBitIs(v, 0, 64);
    hide LastBit;
    hide Pow2;
    ZeroPlace(v, z, m);
  }

  lemma ZeroPlace(v: int, z: nat, m: nat)
    requires v < 0 < m && v / Pow2(z) == -1 && (z > 0 ==> v / Pow2(z - 1) % 2 == 0)
    ensures z < m <==> SignedIn(v, m)
  {
    hide Pow2;
    if z < m {
      QuotRange(v, Pow2(z), -1);
      Pow2Mono(z, m - 1);
    } else {
      Below(v, z);
      Pow2Mono(m - 1, z - 1);
    }
  }

  lemma Below(v: int, z: nat)
    requires v < 0 < z && v / Pow2(z - 1) % 2 == 0
    ensures v + Pow2(z - 1) < 0
  {
    var q := v / Pow2(z - 1);
    QuotRange(v, Pow2(z - 1), q);
    MulMono(q + 1, -1, Pow2(z - 1));
  }

  /** A value of zero has no bits, a positive one as many as it needs; a negative one has the given
      number if it fits there with its sign, and else the first of 16, 32 and 64 where it does. */
  lemma BitsAre(v: int, negBits: nat)
    requires MIN64 <= v <= MAX64
    ensures v == 0 ==> Bits(v, negBits) == 0
    ensures v > 0 ==> Bits(v, negBits) > 0 && Pow2(Bits(v, negBits) - 1) <= v < Pow2(Bits(v, negBits))
    ensures v < 0 ==> Bits(v, negBits) == if SignedIn(v, negBits) then negBits
                                          else if -0x8000 <= v then 16 else if -0x8000_0000 <= v then 32 else 64
  {
    if v > 0 {
      BitsPositive(v, negBits);
    } else if v < 0 {
      HighestZero(v, 16);
      HighestZero(v, 32);
      if negBits > 0 { HighestZero(v, negBits); }
      SmallPowers();
    } else {
      NoBits(64);
    }
  }

  lemma SmallPowers()
    ensures Pow2(15) == 0x8000 && Pow2(31) == 0x8000_0000
  {
    Pow2Values();
    Pow2Next(15);
  }

  lemma {:induction false} NoBits(n: nat)
    ensures LastBit(0, 1, n) == 0
  {
    if n > 0 {
      NoBits(n - 1);
    }
  }

  /** A string that denotes at least what its first digit can stand for begins with no zero. */
  lemma FirstDigit(s: string, b: nat)
    requires 0 < b && AllDigits(s, b) && s != [] && Pow(b, |s| - 1) <= Value(s, b)
    ensures s[0] != '0'
  {
    assert s == [s[0]] + s[1..];
    ValueCons(s[0], s[1..], b);
    ValueBelow(s[1..], b);
  }

  // --------------------------------------------------------------------------------------
  // _BIN$
  // --------------------------------------------------------------------------------------

  function BinString(v: int, negBits: nat): string {
    if Bits(v, negBits) == 0 then "0" else Print(v, 2, Bits(v, negBits))
  }

  /** A digit is put in front of those already written. */
  method Store(chr: array<char>, at: nat, digit: nat)
    requires at < chr.Length && digit < 16
    modifies chr
    ensures chr[at..] == [CharOf(digit)] + old(chr[at + 1..])
  {
    chr[at] := CharOf(digit);
  }

  /** The number of bits to print. */
  method CountBits(value: int, negBits: nat) returns (i2: nat)
    requires MIN64 <= value <= MAX64
    ensures i2 == Bits(value, negBits)
  {
    i2 := 0;
    var value2, want := value, if value < 0 then 0 else 1;
    var i := 1;
    while i <= 64
      invariant 1 <= i <= 65 && value2 == value / Pow2(i - 1) && i2 == LastBit(value, want, i - 1)
    {
      if value2 % 2 == want {
        i2 := i;
      }
      ShiftOne(value, i - 1);
      value2 := value2 / 2;
      i := i + 1;
    }
    if value < 0 {
      if i2 >= negBits {
        var i3 := 64;
        if i2 < 32 { i3 := 32; }
        if i2 < 16 { i3 := 16; }
        i2 := i3;
      } else {
        i2 := negBits;
      }
    }
  }

  lemma PowTwoIs(n: nat)
    ensures Pow(2, n) == Pow2(n)
  {
    PowTwo(1, n);
    assert Pow2(1) == 2;
  }

  /** func__bin */
  method Bin(value: int, negBits: nat) returns (str: string)
    requires MIN64 <= value <= MAX64
    ensures str == BinString(value, negBits)
  {
    var i2 := CountBits(value, negBits);
    if i2 == 0 {
      return "0";
    }
    var chr := new char[i2];
    var v := value;
    var i: nat := 1;
    var i3: int := i2 - 1;
    assert value / Pow2(0) == value;
    while i <= i2
      invariant 1 <= i <= i2 + 1 && i3 == i2 - i && v == value / Pow2(i - 1)
      invariant chr[i2 - i + 1..] == Print(value, 2, i - 1)
    {
      Store(chr, i3, v % 2);
      PowTwoIs(i - 1);
      i3 := i3 - 1;
      ShiftOne(value, i - 1);
      v := v / 2;
      i := i + 1;
    }
    str := chr[..];
    assert chr[..] == chr[0..];
  }

  /** Reading the digits back gives the value modulo 2 to the printed bits. */
  lemma BinValue(v: int, negBits: nat)
    requires MIN64 <= v <= MAX64 && negBits <= 64
    ensures var s := BinString(v, negBits); |s| > 0 && AllDigits(s, 2) && Value(s, 2) == v % Pow2(Bits(v, negBits))
  {
    var w := Bits(v, negBits);
    if w == 0 {
      BitsRecover(v, negBits);
      ZeroString(2);
      assert v % Pow2(0) == 0;
    } else {
      PrintValue(v, 2, w);
      PowTwoIs(w);
    }
  }

  lemma ZeroString(b: nat)
    requires 2 <= b
    ensures AllDigits("0", b) && Value("0", b) == 0
  {
    assert "0"[..0] == [];
    assert Value("0"[..0], b) == 0;
  }

  // --------------------------------------------------------------------------------------
  // OCT$
  // --------------------------------------------------------------------------------------

  lemma SmallRemainder(a: int, x: nat)
    requires x < 3
    ensures 0 <= a % Pow2(x) < 8 && Pow2(x) <= 4
  {
    assert Pow2(0) == 1 && Pow2(1) == 2 && Pow2(2) == 4;
  }

  /** The x bits above the q lowest digits. */
  function TopOct(v: int, q: nat, x: nat): (d: nat)
    requires x < 3
    ensures d < 8
  {
    SmallRemainder(v / Pow(8, q), x);
    v / Pow(8, q) % Pow2(x)
  }

  /** Whole digits of three bits, and one of what bits are left. */
  function OctDigits(v: int, w: nat): string {
    var q, x := w / 3, w % 3;
    TopString(v, q, x) + Print(v, 8, q)
  }

  function OctString(v: int, negBits: nat): string {
    if Bits(v, negBits) == 0 then "0" else OctDigits(v, Bits(v, negBits))
  }

  lemma PowEight(q: nat)
    ensures Pow(8, q) == Pow2(3 * q)
  {
    assert Pow2(3) == 8;
    PowTwo(3, q);
  }

  /** The w lowest bits. */
  function Low(v: int, w: nat): int {
    v % Pow2(w)
  }

  lemma OctSplit(v: int, q: nat, x: nat)
    requires x < 3
    ensures Low(v, 3 * q + x) == TopOct(v, q, x) * Pow(8, q) + v % Pow(8, q)
  {
    PowEight(q);
    ModSplit(v, Pow2(3 * q), Pow2(x));
    Pow2Add(3 * q, x);
  }

  function TopString(v: int, q: nat, x: nat): string
    requires x < 3
  {
    if x == 0 then "" else [CharOf(TopOct(v, q, x))]
  }

  lemma TopStringValue(v: int, q: nat, x: nat)
    requires x < 3
    ensures var s := TopString(v, q, x) + Print(v, 8, q); AllDigits(s, 8) && Value(s, 8) == Low(v, 3 * q + x)
  {
    PrintValue(v, 8, q);
    TopStringIs(v, q, x);
    OctLow(v, q);
    OctSplit(v, q, x);
    hide *;
    if x != 0 {
      TopDigit(TopOct(v, q, x), Print(v, 8, q), q);
    }
  }

  lemma OctLow(v: int, q: nat)
    ensures Low(v, 3 * q) == v % Pow(8, q)
  {
    PowEight(q);
  }

  lemma TopStringIs(v: int, q: nat, x: nat)
    requires x < 3
    ensures TopString(v, q, x) == if x == 0 then [] else [CharOf(TopOct(v, q, x))]
    ensures x == 0 ==> TopOct(v, q, x) == 0 && TopString(v, q, x) + Print(v, 8, q) == Print(v, 8, q)
    ensures TopOct(v, q, x) < 8
  {
    hide Print, Pow;
  }

  lemma OctDigitsValue(v: int, w: nat)
    ensures AllDigits(OctDigits(v, w), 8) && Value(OctDigits(v, w), 8) == Low(v, w)
  {
    var q, x := w / 3, w % 3;
    assert OctDigits(v, w) == TopString(v, q, x) + Print(v, 8, q);
    hide *;
    TopStringValue(v, q, x);
  }

  lemma TopDigit(d: nat, s: string, q: nat)
    requires d < 8 && AllDigits(s, 8) && |s| == q
    ensures AllDigits([CharOf(d)] + s, 8) && Value([CharOf(d)] + s, 8) == d * Pow(8, q) + Value(s, 8)
  {
    CharDigit(d, 8);
    ValueCons(CharOf(d), s, 8);
  }

  /** A positive value is printed without zeros in front, and zero as one. */
  lemma BinFirst(v: int, negBits: nat)
    requires 0 <= v <= MAX64 && negBits <= 64
    ensures var s := BinString(v, negBits); if v == 0 then s == "0" else |s| == Bits(v, negBits) > 0 && s[0] != '0'
  {
    BitsAre(v, negBits);
    if v > 0 {
      var n := Bits(v, negBits);
      BinValue(v, negBits);
      BitsRecover(v, negBits);
      PowTwoIs(n - 1);
      FirstDigit(BinString(v, negBits), 2);
    }
  }

  lemma OctFirst(v: int, negBits: nat)
    requires 0 <= v <= MAX64 && negBits <= 64
    ensures var s := OctString(v, negBits); if v == 0 then s == "0" else |s| == (Bits(v, negBits) + 2) / 3 > 0 && s[0] != '0'
  {
    BitsAre(v, negBits);
    if v > 0 {
      var w := Bits(v, negBits);
      var n := (w + 2) / 3;
      OctValue(v, negBits);
      BitsRecover(v, negBits);
      OctLengthIs(v, w);
      PowEight(n - 1);
      Pow2Mono(3 * (n - 1), w - 1);
      hide Bits, OctDigits, Pow, Pow2, Value;
      FirstDigit(OctString(v, negBits), 8);
    }
  }

  lemma OctLengthIs(v: int, w: nat)
    ensures |OctDigits(v, w)| == (w + 2) / 3
  {}

  lemma OctValue(v: int, negBits: nat)
    requires MIN64 <= v <= MAX64 && negBits <= 64
    ensures var s := OctString(v, negBits); |s| > 0 && AllDigits(s, 8) && Value(s, 8) == v % Pow2(Bits(v, negBits))
  {
    var w := Bits(v, negBits);
    if w == 0 {
      BitsRecover(v, negBits);
      ZeroString(8);
      assert v % Pow2(0) == 0;
    } else {
      OctDigitsValue(v, w);
    }
  }

  /** After q whole digits and x bits of the next: what is left of the value, and those bits. */
  ghost predicate Partial(value: int, q: nat, x: nat, v: int, x2: nat) {
    x < 3 && v == value / Pow2(3 * q + x) && x2 == TopOct(value, q, x)
  }

  lemma TopOctMore(v: int, q: nat, x: nat)
    requires x < 3
    ensures v / Pow(8, q) % Pow2(x + 1) == TopOct(v, q, x) + Bit(v / Pow2(3 * q + x), x)
  {
    var w := v / Pow(8, q);
    PowEight(q);
    Pow2Add(3 * q, x);
    ModSplit(v, Pow2(3 * q), Pow2(x));
    ModSplit(w, Pow2(x), 2);
    BitTimes(w / Pow2(x), x);
    Pow2Next(x);
  }

  lemma EightIs()
    ensures Pow2(3) == 8 && Pow2(0) == 1
  {}

  lemma PartialStep(value: int, q: nat, x: nat, v: int, x2: nat)
    requires Partial(value, q, x, v, x2)
    ensures x < 2 ==> Partial(value, q, x + 1, v / 2, x2 + Bit(v, x))
    ensures x == 2 ==> Partial(value, q + 1, 0, v / 2, 0)
    ensures x2 + Bit(v, x) < 8
    ensures x == 2 ==> Print(value, 8, q + 1) == [CharOf(x2 + Bit(v, x))] + Print(value, 8, q)
  {
    ShiftOne(value, 3 * q + x);
    TopOctMore(value, q, x);
    EightIs();
    hide Pow2, Pow, Bit;
    if x < 2 {
      assert TopOct(value, q, x + 1) == x2 + Bit(v, x);
    }
  }

  lemma PartialStart(value: int)
    ensures Partial(value, 0, 0, value, 0) && Print(value, 8, 0) == []
  {
    assert value / Pow2(0) == value;
  }

  lemma OctIs(value: int, negBits: nat, q: nat, x: nat, v: int, x2: nat)
    requires 3 * q + x == Bits(value, negBits) > 0 && Partial(value, q, x, v, x2)
    ensures x2 < 8 && OctString(value, negBits) == (if x == 0 then "" else [CharOf(x2)]) + Print(value, 8, q)
  {}

  lemma OctNone(value: int, negBits: nat)
    ensures Bits(value, negBits) == 0 ==> OctString(value, negBits) == "0"
  {}

  /** The number of characters for i2 bits. */
  method OctLength(i2: nat) returns (i3: nat)
    ensures i2 <= 3 * i3 <= i2 + 2
  {
    i3 := i2 / 3;
    if i3 * 3 != i2 {
      i3 := i3 + 1;
    }
  }

  /** The body of the loop: one more bit, and after the third the digit is stored. */
  method OctTurn(value: int, chr: array<char>, ghost q: nat, x: nat, v: int, x2: nat, i3: int)
    returns (ghost q': nat, x': nat, v': int, x2': nat, i3': int)
    requires Partial(value, q, x, v, x2) && x < 3 && 0 <= i3 < chr.Length && chr[i3 + 1..] == Print(value, 8, q)
    modifies chr
    ensures Partial(value, q', x', v', x2') && x' < 3 && 3 * q' + x' == 3 * q + x + 1 && q' - q == i3 - i3'
    ensures -1 <= i3' && chr[i3' + 1..] == Print(value, 8, q')
  {
    PartialStep(value, q, x, v, x2);
    hide *;
    q', i3', x2', v', x' := q, i3, x2 + Bit(v, x), v / 2, x + 1;
    if x' == 3 {
      Store(chr, i3, x2');
      q', i3', x2', x' := q + 1, i3 - 1, 0, 0;
    }
  }

  /** func_oct */
  method Oct(value: int, negBits: nat) returns (str: string)
    requires MIN64 <= value <= MAX64
    ensures str == OctString(value, negBits)
  {
    OctNone(value, negBits);
    PartialStart(value);
    hide *;
    var i2 := CountBits(value, negBits);
    if i2 == 0 {
      return "0";
    }
    var len := OctLength(i2);
    var chr := new char[len];
    assert chr[len..] == [];
    var v := value;
    var x: nat, x2: nat := 0, 0;
    var i: nat := 1;
    var i3: int := len - 1;
    ghost var q: nat := 0;
    while i <= i2
      invariant 1 <= i <= i2 + 1 && i - 1 == 3 * q + x && x < 3 && i3 == len - 1 - q
      invariant Partial(value, q, x, v, x2) && chr[i3 + 1..] == Print(value, 8, q)
    {
      q, x, v, x2, i3 := OctTurn(value, chr, q, x, v, x2, i3);
      i := i + 1;
    }
    OctIs(value, negBits, q, x, v, x2);
    if x != 0 {
      Store(chr, i3, x2);
    }
    str := chr[..];
    assert chr[..] == chr[0..];
  }

  // --------------------------------------------------------------------------------------
  // HEX$
  // --------------------------------------------------------------------------------------

  function Nibble(v: int, i: nat): (d: nat)
    requires i > 0
    ensures d < 16
  {
    v / Pow(16, i - 1) % 16
  }

  /** The highest of the lowest n digits that is not `skip`, counted from 1, or 0. */
  function LastNibble(v: int, skip: nat, n: nat): (r: nat)
    ensures r <= n
  {
    if n == 0 then 0 else if Nibble(v, n) != skip then n else LastNibble(v, skip, n - 1)
  }

  /** The digits a negative value needs so that the top bit is one. */
  function NegativeNibbles(v: int): nat {
    Needed(v, 16)
  }

  function Needed(v: int, n: nat): nat {
    var r := LastNibble(v, 15, n);
    if r > 0 && Nibble(v, r) < 8 && r != 16 then r + 1 else r
  }

  /** The digits that are printed. */
  function HexSize(v: int, negSize: nat): nat {
    if v < 0 then
      var i3 := NegativeNibbles(v);
      if i3 <= negSize then negSize else if i3 <= 4 then 4 else if i3 <= 8 then 8 else 16
    else LastNibble(v, 0, 16)
  }

  function HexString(v: int, negSize: nat): string {
    if v == 0 then "0" else Print(v, 16, HexSize(v, negSize))
  }

  lemma PowHex(n: nat)
    ensures Pow(16, n) == Pow2(4 * n)
  {
    assert Pow2(4) == 16;
    PowTwo(4, n);
  }

  lemma NibbleStep(v: int, n: nat)
    requires n > 0
    ensures v / Pow(16, n - 1) == 16 * (v / Pow(16, n)) + Nibble(v, n)
    ensures v / Pow(16, n - 1) / 16 == v / Pow(16, n) && v / Pow(16, n - 1) % 16 == Nibble(v, n)
  {
    ModSplit(v, Pow(16, n - 1), 16);
  }

  lemma {:induction false} LastNibbleRange(v: int, n: nat)
    ensures v / Pow(16, n) == -1 ==> v / Pow(16, LastNibble(v, 15, n)) == -1
    ensures v / Pow(16, n) == 0 ==> v / Pow(16, LastNibble(v, 0, n)) == 0
  {
    if n > 0 {
      NibbleStep(v, n);
      LastNibbleRange(v, n - 1);
    }
  }

  lemma HexTop(v: int)
    requires MIN64 <= v <= MAX64
    ensures v / Pow(16, 16) == if v < 0 then -1 else 0
    ensures v < 0 ==> Nibble(v, 16) >= 8
  {
    QuotTop(v);
    PowHex(16);
    PowHex(15);
    NibbleStep(v, 16);
    ModSplit(v, Pow2(60), 8);
    assert Pow2(3) == 8;
    Pow2Add(60, 3);
  }

  /** Below the digits a negative value needs, one bit suffices for the sign. */
  lemma NegativeFits(v: int)
    requires MIN64 <= v < 0
    ensures var r := NegativeNibbles(v); r <= 16 && v / Pow2(if r == 0 then 0 else 4 * r - 1) == -1
  {
    hide Pow, Pow2, LastNibble, Nibble;
    var r := LastNibble(v, 15, 16);
    assert v / Pow2(4 * r) == -1 && Nibble(v, 16) >= 8 by {
      HexTop(v);
      LastNibbleRange(v, 16);
      PowHex(r);
    }
    if r > 0 && Nibble(v, r) >= 8 {
      HighNibble(v, r);
    } else if r > 0 {
      TopBits(v, 4 * r, 3);
    } else {
      assert 4 * r == 0;
    }
  }

  /** A digit of eight or more in front of ones: its top bit is a sign as well. */
  lemma HighNibble(v: int, r: nat)
    requires r > 0 && v / Pow2(4 * r) == -1 && Nibble(v, r) >= 8
    ensures v / Pow2(4 * r - 1) == -1
  {
    PowHex(r);
    PowHex(r - 1);
    NibbleStep(v, r);
    ModSplit(v, Pow2(4 * (r - 1)), 8);
    assert Pow2(3) == 8;
    Pow2Add(4 * (r - 1), 3);
  }

  lemma {:induction false} TopBits(v: int, n: nat, k: nat)
    requires v / Pow2(n) == -1
    ensures v / Pow2(n + k) == -1
  {
    if k > 0 {
      TopBits(v, n, k - 1);
      ShiftOne(v, n + k - 1);
    }
  }

  /** Reading the digits back gives the value modulo 2 to the printed bits, and these determine
      it; except for one call, where nothing at all is printed. */
  lemma HexValue(v: int, negSize: nat)
    requires MIN64 <= v <= MAX64 && negSize <= 16
    ensures var s, w := HexString(v, negSize), 4 * HexSize(v, negSize);
            && AllDigits(s, 16) && Value(s, 16) == v % Pow2(w)
            && (|s| > 0 && Recovers(v, w) <==> !(v == -1 && negSize == 0))
  {
    HexTop(v);
    LastNibbleRange(v, 16);
    var n := HexSize(v, negSize);
    PowHex(n);
    PrintValue(v, 16, n);
    if v == 0 {
      ZeroString(16);
      RecoversPositive(v, 4 * n);
    } else if v > 0 {
      RecoversPositive(v, 4 * n);
    } else {
      RecoversHex(v, negSize);
      NoNibbles(v);
    }
  }

  lemma RecoversHex(v: int, negSize: nat)
    requires MIN64 <= v < 0 && negSize <= 16
    ensures HexSize(v, negSize) > 0 ==> Recovers(v, 4 * HexSize(v, negSize))
  {
    NegativeFits(v);
    var n, r := HexSize(v, negSize), NegativeNibbles(v);
    assert r <= n <= 16;
    hide HexSize, NegativeNibbles, Recovers, Pow2;
    if n > 0 {
      RecoversNegative(v, if r == 0 then 0 else 4 * r - 1, 4 * n);
    }
  }

  lemma {:induction false} LastNibbleIs(v: int, skip: nat, n: nat)
    ensures var r := LastNibble(v, skip, n); r > 0 ==> Nibble(v, r) != skip
  {
    if n > 0 && Nibble(v, n) == skip {
      LastNibbleIs(v, skip, n - 1);
    }
  }

  lemma HexFirst(v: int, negSize: nat)
    requires 0 <= v <= MAX64 && negSize <= 16
    ensures var s := HexString(v, negSize); if v == 0 then s == "0" else |s| == HexSize(v, negSize) > 0 && s[0] != '0'
  {
    if v > 0 {
      var n := HexSize(v, negSize);
      NoDigits(v);
      HexValue(v, negSize);
      LastNibbleIs(v, 0, 16);
      hide LastNibble, Pow2, Value, Print, AllDigits;
      NibbleFloor(v, n);
      FirstDigit(HexString(v, negSize), 16);
    }
  }

  lemma NibbleFloor(v: int, n: nat)
    requires 0 < v && 0 < n && Nibble(v, n) != 0
    ensures Pow(16, n - 1) <= v
  {
    var q := v / Pow(16, n - 1);
    QuotRange(v, Pow(16, n - 1), q);
    MulMono(1, q, Pow(16, n - 1));
  }

  /** The digits counted for a negative value are at most m exactly if it fits into these with its
      sign. */
  lemma NibblesFit(v: int, m: nat)
    requires MIN64 <= v < 0 < m
    ensures NegativeNibbles(v) <= m <==> SignedIn(v, 4 * m)
  {
    NegativeFits(v);
    var r := NegativeNibbles(v);
    if r > 1 { NibblesNeeded(v); }
    hide NegativeNibbles;
    if r <= m {
      Pow2Mono(if r == 0 then 0 else 4 * r - 1, 4 * m - 1);
      QuotRange(v, Pow2(if r == 0 then 0 else 4 * r - 1), -1);
    } else {
      Pow2Mono(4 * m - 1, 4 * (r - 1) - 1);
    }
  }

  lemma NibblesNeeded(v: int)
    requires MIN64 <= v < 0 && NegativeNibbles(v) > 1
    ensures !SignedIn(v, 4 * (NegativeNibbles(v) - 1))
  {
    HexTop(v);
    LastNibbleRange(v, 16);
    LastNibbleIs(v, 15, 16);
    var l, r := LastNibble(v, 15, 16), NegativeNibbles(v);
    assert r == l || (r == l + 1 && Nibble(v, l) < 8);
    hide *;
    if r == l {
      NotAllOnes(v, l);
      FewerBits(v, l);
    } else {
      LowNibble(v, l);
    }
  }

  lemma FewerBits(v: int, l: nat)
    requires l > 1 && v + Pow(16, l - 1) < 0
    ensures !SignedIn(v, 4 * (l - 1))
  {
    PowHex(l - 1);
    Pow2Mono(4 * (l - 1) - 1, 4 * (l - 1));
  }

  /** A digit that is not all ones: the value is less than minus its place. */
  lemma NotAllOnes(v: int, l: nat)
    requires v < 0 < l && Nibble(v, l) != 15
    ensures v + Pow(16, l - 1) < 0
  {
    var q := v / Pow(16, l - 1);
    QuotRange(v, Pow(16, l - 1), q);
    assert q != -1;
    MulMono(q + 1, -1, Pow(16, l - 1));
  }

  /** A digit below eight in front of ones: its top bit is no sign. */
  lemma LowNibble(v: int, l: nat)
    requires v < 0 < l && v / Pow(16, l) == -1 && Nibble(v, l) < 8
    ensures !SignedIn(v, 4 * l)
  {
    NibbleStep(v, l);
    var q := v / Pow(16, l - 1);
    assert q < -8;
    QuotRange(v, Pow(16, l - 1), q);
    MulMono(q + 1, -8, Pow(16, l - 1));
    PowHex(l - 1);
    Pow2Add(4 * (l - 1), 3);
    assert Pow2(3) == 8;
  }

  /** A negative value is printed with the given number of digits if it fits there with its sign
      or is -1, and else with the first of 4, 8 and 16 where it fits. */
  lemma HexSizeIs(v: int, negSize: nat)
    requires MIN64 <= v < 0 && negSize <= 16
    ensures HexSize(v, negSize) ==
            if v == -1 || SignedIn(v, 4 * negSize) then negSize
            else if -0x8000 <= v then 4 else if -0x8000_0000 <= v then 8 else 16
  {
    NoNibbles(v);
    NibblesFit(v, 4);
    NibblesFit(v, 8);
    if negSize > 0 { NibblesFit(v, negSize); }
    SmallPowers();
    hide NegativeNibbles, Pow2;
  }

  lemma NoNibbles(v: int)
    requires MIN64 <= v < 0
    ensures NegativeNibbles(v) == 0 <==> v == -1
  {
    NegativeFits(v);
    if v == -1 {
      OnesNibbles(16);
    }
  }

  lemma {:induction false} OnesNibbles(n: nat)
    ensures LastNibble(-1, 15, n) == 0
  {
    if n > 0 {
      OnesNibbles(n - 1);
      DivUnique(-1, Pow(16, n - 1), -1, Pow(16, n - 1) - 1);
    }
  }

  /** The low digits are the end of the string of all digits. */
  lemma {:induction false} PrintSuffix(v: int, b: nat, m: nat, n: nat)
    requires 2 <= b <= 16 && n <= m
    ensures Print(v, b, m)[m - n..] == Print(v, b, n)
  {
    if n < m {
      PrintSuffix(v, b, m - 1, n);
      assert Print(v, b, m)[m - n..] == Print(v, b, m - 1)[m - 1 - n..];
    }
  }

  lemma NoDigits(v: int)
    requires MIN64 <= v <= MAX64
    ensures LastNibble(v, 0, 16) == 0 <==> v == 0
  {
    HexTop(v);
    LastNibbleRange(v, 16);
    if v == 0 {
      ZeroNibbles(16);
    }
  }

  lemma {:induction false} ZeroNibbles(n: nat)
    ensures LastNibble(0, 0, n) == 0
  {
    if n > 0 {
      ZeroNibbles(n - 1);
    }
  }

  /** All sixteen digits, and the last significant one if the value is positive or negative. */
  method WriteNibbles(value: int, chr: array<char>) returns (i2: nat, i3: nat)
    requires chr.Length == 16
    modifies chr
    ensures i2 == LastNibble(value, 0, 16) && i3 == Needed(value, 16) && chr[0..] == Print(value, 16, 16)
  {
    var value2 := value;
    var i: nat := 1;
    i2, i3 := 0, 0;
    NoneYet(value);
    hide *;
    while i <= 16
      invariant 1 <= i <= 17 && value2 == value / Pow(16, i - 1)
      invariant i2 == LastNibble(value, 0, i - 1) && i3 == Needed(value, i - 1)
      invariant chr[17 - i..] == Print(value, 16, i - 1)
    {
      var x := value2 % 16;
      NibbleTurn(value, i, value2);
      if x != 0 {
        i2 := i;
      }
      if x != 15 {
        i3 := i;
        if x < 8 && i != 16 {
          i3 := i3 + 1;
        }
      }
      Store(chr, 16 - i, x);
      value2 := value2 / 16;
      i := i + 1;
    }
  }

  /** func_hex: digits that are not wanted are dropped again. */
  method Hex(value: int, negSize: nat) returns (str: string)
    requires MIN64 <= value <= MAX64 && negSize <= 16
    ensures str == HexString(value, negSize)
  {
    var chr := new char[16];
    var i2, i3 := WriteNibbles(value, chr);
    NoDigits(value);
    HexStringIs(value, negSize);
    hide *;
    if i2 == 0 {
      return "0";
    }
    if value < 0 {
      if i3 <= negSize {
        i2 := negSize;
      } else {
        i2 := 16;
        if i3 <= 8 { i2 := 8; }
        if i3 <= 4 { i2 := 4; }
      }
    }
    PrintSuffix(value, 16, 16, i2);
    var all := chr[0..];
    str := all[16 - i2..];
  }

  lemma HexStringIs(v: int, negSize: nat)
    ensures HexString(v, negSize) == if v == 0 then "0" else Print(v, 16, HexSize(v, negSize))
    ensures v >= 0 ==> HexSize(v, negSize) == LastNibble(v, 0, 16)
    ensures v < 0 ==> var i3 := Needed(v, 16);
              HexSize(v, negSize) == (if i3 <= negSize then negSize else if i3 <= 4 then 4 else if i3 <= 8 then 8 else 16)
  {}

  lemma NoneYet(v: int)
    ensures LastNibble(v, 0, 0) == 0 && Needed(v, 0) == 0 && v / Pow(16, 0) == v && Print(v, 16, 0) == []
  {}

  /** What one turn of the loop over the digits finds. */
  lemma NibbleTurn(v: int, n: nat, left: int)
    requires n > 0 && left == v / Pow(16, n - 1)
    ensures var x := left % 16;
            && LastNibble(v, 0, n) == (if x != 0 then n else LastNibble(v, 0, n - 1))
            && Needed(v, n) == (if x != 15 then (if x < 8 && n != 16 then n + 1 else n) else Needed(v, n - 1))
            && Print(v, 16, n) == [CharOf(x)] + Print(v, 16, n - 1)
    ensures left / 16 == v / Pow(16, n)
  {
    NibbleStep(v, n);
    hide Pow;
  }
}
