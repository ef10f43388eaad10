/** The base64 codec of modp_b64.cpp (section 4 of RFC 4648), with the tables of
    modp_b64_data.h given by formulas. */
module Base64 {

  type Byte = bv8

  const PAD: Byte := 61
  const BADCHAR: bv32 := 0x01FF_FFFF

  datatype Policy = Strict | Forgiving | NoPaddingValidation

  datatype Option<T> = None | Some(value: T)

  /** The alphabet: A to Z, a to z, 0 to 9, plus and slash. */
  function Letter(v: Byte): Byte {
    if v < 26 then 65 + v else if v < 52 then 97 + (v - 26) else if v < 62 then 48 + (v - 52) else if v == 62 then 43 else 47
  }

  predicate InAlphabet(c: Byte) {
    65 <= c <= 90 || 97 <= c <= 122 || 48 <= c <= 57 || c == 43 || c == 47
  }

  /** The place of a letter in the alphabet. */
  function Index(c: Byte): Byte {
    if 65 <= c <= 90 then c - 65 else if 97 <= c <= 122 then c - 97 + 26 else if 48 <= c <= 57 then c - 48 + 52
    else if c == 43 then 62 else 63
  }

  /** The table of the letters, in the codes of ASCII: the capitals, the small letters, the digits,
      and plus and slash. */
  lemma AlphabetIs()
    ensures [Letter(0), Letter(1), Letter(2), Letter(3), Letter(4), Letter(5), Letter(6), Letter(7), Letter(8), Letter(9), Letter(10), Letter(11), Letter(12)]
            == [65, 66, 67, 68, 69, 70, 71, 72, 73, 74, 75, 76, 77]
    ensures [Letter(13), Letter(14), Letter(15), Letter(16), Letter(17), Letter(18), Letter(19), Letter(20), Letter(21), Letter(22), Letter(23), Letter(24), Letter(25)]
            == [78, 79, 80, 81, 82, 83, 84, 85, 86, 87, 88, 89, 90]
    ensures [Letter(26), Letter(27), Letter(28), Letter(29), Letter(30), Letter(31), Letter(32), Letter(33), Letter(34), Letter(35), Letter(36), Letter(37), Letter(38)]
            == [97, 98, 99, 100, 101, 102, 103, 104, 105, 106, 107, 108, 109]
    ensures [Letter(39), Letter(40), Letter(41), Letter(42), Letter(43), Letter(44), Letter(45), Letter(46), Letter(47), Letter(48), Letter(49), Letter(50), Letter(51)]
            == [110, 111, 112, 113, 114, 115, 116, 117, 118, 119, 120, 121, 122]
    ensures [Letter(52), Letter(53), Letter(54), Letter(55), Letter(56), Letter(57), Letter(58), Letter(59), Letter(60), Letter(61), Letter(62), Letter(63)]
            == [48, 49, 50, 51, 52, 53, 54, 55, 56, 57, 43, 47]
    ensures PAD == 61
  {}

  lemma LetterIndex(v: Byte)
    requires v < 64
    ensures InAlphabet(Letter(v)) && Index(Letter(v)) == v && Letter(v) != PAD
  {}

  lemma IndexLetter(c: Byte)
    requires InAlphabet(c)
    ensures Index(c) < 64 && Letter(Index(c)) == c
  {}

  // --------------------------------------------------------------------------------------
  // Tables
  // --------------------------------------------------------------------------------------

  function E0(t: Byte): Byte { Letter(t >> 2) }
  function E1(t: Byte): Byte { Letter(t & 63) }

  function Wide(c: Byte): bv32 { Index(c) as bv32 }

  /** The six bits of a letter where they belong among the three bytes, lowest byte first. */
  function D0(c: Byte): bv32 { if InAlphabet(c) then Wide(c) << 2 else BADCHAR }
  function D1(c: Byte): bv32 { if InAlphabet(c) then (Wide(c) >> 4) | ((Wide(c) & 15) << 12) else BADCHAR }
  function D2(c: Byte): bv32 { if InAlphabet(c) then ((Wide(c) >> 2) << 8) | ((Wide(c) & 3) << 22) else BADCHAR }
  function D3(c: Byte): bv32 { if InAlphabet(c) then Wide(c) << 16 else BADCHAR }

  function ByteOf(x: bv32, k: nat): Byte
    requires k < 3
  {
    if k == 0 then (x & 255) as bv8 else if k == 1 then ((x >> 8) & 255) as bv8 else ((x >> 16) & 255) as bv8
  }

  // --------------------------------------------------------------------------------------
  // Groups
  // --------------------------------------------------------------------------------------

  function Quad(a: Byte, b: Byte, c: Byte): seq<Byte> {
    [E0(a), E1(((a & 3) << 4) | ((b >> 4) & 15)), E1(((b & 15) << 2) | ((c >> 6) & 3)), E1(c)]
  }

  function Pair(a: Byte, b: Byte): seq<Byte> {
    [E0(a), E1(((a & 3) << 4) | ((b >> 4) & 15)), E1((b & 15) << 2), PAD]
  }

  function Single(a: Byte): seq<Byte> {
    [E0(a), E1((a & 3) << 4), PAD, PAD]
  }

  function Six(c: Byte): bv32 { Index(c) as bv32 }

  /** The letters hold the bits of the bytes in order, six at a time from the highest on; of the
      last group what is missing is zero, and padding stands for letters without any bits. */
  lemma BitsInOrder(a: Byte, b: Byte, c: Byte)
    ensures var q := Quad(a, b, c);
            (Six(q[0]) << 18) | (Six(q[1]) << 12) | (Six(q[2]) << 6) | Six(q[3]) == ((a as bv32) << 16) | ((b as bv32) << 8) | (c as bv32)
    ensures var q := Pair(a, b);
            && (Six(q[0]) << 18) | (Six(q[1]) << 12) | (Six(q[2]) << 6) == ((a as bv32) << 16) | ((b as bv32) << 8)
            && q[3] == PAD
    ensures var q := Single(a);
            && (Six(q[0]) << 18) | (Six(q[1]) << 12) == (a as bv32) << 16
            && q[2] == q[3] == PAD
  {
    SixOf(a, b, c);
    PackedQuad(a, b, c);
    PackedPair(a, b);
    PackedSingle(a);
    hide Six;
  }

  lemma SixOf(a: Byte, b: Byte, c: Byte)
    ensures Six(E0(a)) == (a >> 2) as bv32
    ensures Six(E1(((a & 3) << 4) | ((b >> 4) & 15))) == (((a & 3) << 4) | ((b >> 4) & 15)) as bv32
    ensures Six(E1(((b & 15) << 2) | ((c >> 6) & 3))) == (((b & 15) << 2) | ((c >> 6) & 3)) as bv32
    ensures Six(E1(c)) == (c & 63) as bv32
    ensures Six(E1((b & 15) << 2)) == ((b & 15) << 2) as bv32
    ensures Six(E1((a & 3) << 4)) == ((a & 3) << 4) as bv32
  {
    SixLow(a >> 2);
    SixLow(((a & 3) << 4) | ((b >> 4) & 15));
    SixLow(((b & 15) << 2) | ((c >> 6) & 3));
    SixLow(c & 63);
    SixLow((b & 15) << 2);
    SixLow((a & 3) << 4);
    hide Six, Letter;
    Masked(a, b, c);
  }

  lemma SixLow(v: Byte)
    ensures v < 64 ==> Six(Letter(v)) == v as bv32
  {
    if v < 64 { LetterIndex(v); }
  }

  lemma Masked(a: Byte, b: Byte, c: Byte)
    ensures a >> 2 < 64 && ((a & 3) << 4) | ((b >> 4) & 15) < 64 && ((b & 15) << 2) | ((c >> 6) & 3) < 64 && c & 63 < 64
    ensures (b & 15) << 2 < 64 && (a & 3) << 4 < 64
    ensures (((a & 3) << 4) | ((b >> 4) & 15)) & 63 == ((a & 3) << 4) | ((b >> 4) & 15)
    ensures (((b & 15) << 2) | ((c >> 6) & 3)) & 63 == ((b & 15) << 2) | ((c >> 6) & 3)
    ensures ((b & 15) << 2) & 63 == (b & 15) << 2 && ((a & 3) << 4) & 63 == (a & 3) << 4
  {}

  lemma PackedQuad(a: Byte, b: Byte, c: Byte)
    ensures (((a >> 2) as bv32) << 18) | (((((a & 3) << 4) | ((b >> 4) & 15)) as bv32) << 12)
            | (((((b & 15) << 2) | ((c >> 6) & 3)) as bv32) << 6) | ((c & 63) as bv32)
            == ((a as bv32) << 16) | ((b as bv32) << 8) | (c as bv32)
  {}

  lemma PackedPair(a: Byte, b: Byte)
    ensures (((a >> 2) as bv32) << 18) | (((((a & 3) << 4) | ((b >> 4) & 15)) as bv32) << 12) | ((((b & 15) << 2) as bv32) << 6)
            == ((a as bv32) << 16) | ((b as bv32) << 8)
  {}

  lemma PackedSingle(a: Byte)
    ensures (((a >> 2) as bv32) << 18) | ((((a & 3) << 4) as bv32) << 12) == (a as bv32) << 16
  {}

  /** The encoding of a string of bytes. */
  function Encode(s: seq<Byte>): seq<Byte> {
    if |s| == 0 then []
    else if |s| == 1 then Single(s[0])
    else if |s| == 2 then Pair(s[0], s[1])
    else Quad(s[0], s[1], s[2]) + Encode(s[3..])
  }

  function Or(x: bv32, y: bv32): bv32 { x | y }

  /** The bits of a group of letters together. */
  function Merge(t: seq<Byte>): bv32
    requires 2 <= |t| <= 4
  {
    if |t| == 2 then Or(D0(t[0]), D1(t[1]))
    else if |t| == 3 then Or(Or(D0(t[0]), D1(t[1])), D2(t[2]))
    else Or(Or(Or(D0(t[0]), D1(t[1])), D2(t[2])), D3(t[3]))
  }

  /** The n lowest bytes. */
  function BytesOf(x: bv32, n: nat): (r: seq<Byte>)
    requires n <= 3
    ensures |r| == n
  {
    if n == 0 then [] else BytesOf(x, n - 1) + [ByteOf(x, n - 1)]
  }

  /** The bytes of a group of letters. */
  function Group(t: seq<Byte>): Option<seq<Byte>>
    requires 2 <= |t| <= 4
  {
    var x := Merge(t);
    if x >= BADCHAR then None else Some(BytesOf(x, |t| - 1))
  }

  /** The bytes of letters without padding. */
  function Body(t: seq<Byte>): Option<seq<Byte>>
    requires |t| % 4 != 1
  {
    if |t| == 0 then Some([])
    else if |t| <= 4 then Group(t)
    else
      match Group(t[..4])
      case None => None
      case Some(g) =>
        match Body(t[4..])
        case None => None
        case Some(r) => Some(g + r)
  }

  predicate EndsPadded(t: seq<Byte>) {
    |t| > 0 && t[|t| - 1] == PAD
  }

  /** What is left when all padding at the end has been taken off. */
  function StripAll(t: seq<Byte>): seq<Byte> {
    if EndsPadded(t) then StripAll(t[..|t| - 1]) else t
  }

  /** At most two of it. */
  function StripTwo(t: seq<Byte>): seq<Byte> {
    if !EndsPadded(t) then t
    else if !EndsPadded(t[..|t| - 1]) then t[..|t| - 1]
    else t[..|t| - 2]
  }

  /** The letters to decode, under each policy. */
  function Unpad(t: seq<Byte>, policy: Policy): Option<seq<Byte>> {
    if policy.Strict? && |t| % 4 != 0 then None
    else
      var r := if policy.NoPaddingValidation? then StripAll(t) else if |t| % 4 == 0 then StripTwo(t) else t;
      if |r| % 4 == 1 then None else Some(r)
  }

  function Decode(t: seq<Byte>, policy: Policy): Option<seq<Byte>> {
    match Unpad(t, policy)
    case None => None
    case Some(r) => Body(r)
  }

  // --------------------------------------------------------------------------------------
  // Groups there and back
  // --------------------------------------------------------------------------------------

  predicate AllLetters(t: seq<Byte>) {
    forall i :: 0 <= i < |t| ==> InAlphabet(t[i])
  }

  lemma WideSmall(c: Byte)
    requires InAlphabet(c)
    ensures Wide(c) < 64
  {
    IndexLetter(c);
  }

  /** A group is rejected exactly if it has a character outside the alphabet. */
  lemma GroupAccepts(t: seq<Byte>)
    requires 2 <= |t| <= 4
    ensures Group(t).Some? <==> AllLetters(t)
    ensures Group(t).Some? ==> |Group(t).value| == |t| - 1
  {
    if AllLetters(t) {
      WideSmall(t[0]);
      WideSmall(t[1]);
      if |t| > 2 { WideSmall(t[2]); }
      if |t| > 3 { WideSmall(t[3]); }
      hide Index, InAlphabet;
    }
  }

  lemma Table(v: Byte)
    requires v < 64
    ensures InAlphabet(Letter(v))
    ensures D0(Letter(v)) == (v as bv32) << 2 && D3(Letter(v)) == (v as bv32) << 16
    ensures D1(Letter(v)) == (((v as bv32) >> 4) | (((v as bv32) & 15) << 12))
    ensures D2(Letter(v)) == ((((v as bv32) >> 2) << 8) | (((v as bv32) & 3) << 22))
  {
    LetterIndex(v);
  }

  /** The three bytes that four groups of six bits make. */
  function First(p: Byte, q: Byte): Byte { (p << 2) | (q >> 4) }
  function Second(q: Byte, r: Byte): Byte { (q << 4) | (r >> 2) }
  function Third(r: Byte, s: Byte): Byte { (r << 6) | s }

  /** The four groups that three bytes make. */
  function Sextet1(a: Byte): Byte { a >> 2 }
  function Sextet2(a: Byte, b: Byte): Byte { ((a & 3) << 4) | ((b >> 4) & 15) }
  function Sextet3(b: Byte, c: Byte): Byte { ((b & 15) << 2) | ((c >> 6) & 3) }
  function Sextet4(c: Byte): Byte { c & 63 }

  lemma FourBits(p: Byte, q: Byte, r: Byte, s: Byte)
    requires p < 64 && q < 64 && r < 64 && s < 64
    ensures var x := Or(Or(Or(D0(Letter(p)), D1(Letter(q))), D2(Letter(r))), D3(Letter(s)));
            && x < BADCHAR && ByteOf(x, 0) == ((p << 2) | (q >> 4))
            && ByteOf(x, 1) == ((q << 4) | (r >> 2)) && ByteOf(x, 2) == ((r << 6) | s)
  {
    Table(p); Table(q); Table(r); Table(s);
    hide Letter, InAlphabet, Index, D0, D1, D2, D3;
    var a, b, c, d := p as bv32, q as bv32, r as bv32, s as bv32;
    assert a < 64 && b < 64 && c < 64 && d < 64;
  }

  lemma ThreeBits(p: Byte, q: Byte, r: Byte)
    requires p < 64 && q < 64 && r < 64
    ensures var x := Or(Or(D0(Letter(p)), D1(Letter(q))), D2(Letter(r)));
            x < BADCHAR && ByteOf(x, 0) == ((p << 2) | (q >> 4)) && ByteOf(x, 1) == ((q << 4) | (r >> 2))
  {
    Table(p); Table(q); Table(r);
    hide Letter, InAlphabet, Index, D0, D1, D2, D3;
    var a, b, c := p as bv32, q as bv32, r as bv32;
    assert a < 64 && b < 64 && c < 64;
  }

  lemma TwoBits(p: Byte, q: Byte)
    requires p < 64 && q < 64
    ensures var x := Or(D0(Letter(p)), D1(Letter(q))); x < BADCHAR && ByteOf(x, 0) == ((p << 2) | (q >> 4))
  {
    Table(p); Table(q);
    hide Letter, InAlphabet, Index, D0, D1, D2, D3;
    var a, b := p as bv32, q as bv32;
    assert a < 64 && b < 64;
  }

  /** Four groups of six bits are three bytes; with fewer letters the missing bits are zero. */
  lemma Merged(p: Byte, q: Byte, r: Byte, s: Byte)
    requires p < 64 && q < 64 && r < 64 && s < 64
    ensures var x := Or(Or(Or(D0(Letter(p)), D1(Letter(q))), D2(Letter(r))), D3(Letter(s)));
            x < BADCHAR && ByteOf(x, 0) == First(p, q) && ByteOf(x, 1) == Second(q, r) && ByteOf(x, 2) == Third(r, s)
    ensures var x := Or(Or(D0(Letter(p)), D1(Letter(q))), D2(Letter(r)));
            x < BADCHAR && ByteOf(x, 0) == First(p, q) && ByteOf(x, 1) == Second(q, r)
    ensures var x := Or(D0(Letter(p)), D1(Letter(q))); x < BADCHAR && ByteOf(x, 0) == First(p, q)
  {
    FourBits(p, q, r, s);
    ThreeBits(p, q, r);
    TwoBits(p, q);
    hide Letter, D0, D1, D2, D3, ByteOf, Or;
  }

  lemma SextetBits(a: Byte, b: Byte, c: Byte)
    ensures var p, q, r, s := a >> 2, ((a & 3) << 4) | ((b >> 4) & 15), ((b & 15) << 2) | ((c >> 6) & 3), c & 63;
            && p < 64 && q < 64 && r < 64 && s < 64
            && (p << 2) | (q >> 4) == a && (q << 4) | (r >> 2) == b && (r << 6) | s == c
            && q & 63 == q && r & 63 == r
    ensures ((b & 15) << 2) | ((0 >> 6) & 3) == (b & 15) << 2 && ((a & 3) << 4) | ((0 >> 4) & 15) == (a & 3) << 4
    ensures ((b & 15) << 2) & 63 == (b & 15) << 2 && ((a & 3) << 4) & 63 == (a & 3) << 4
  {}

  lemma Sextets(a: Byte, b: Byte, c: Byte)
    ensures var p, q, r, s := Sextet1(a), Sextet2(a, b), Sextet3(b, c), Sextet4(c);
            && p < 64 && q < 64 && r < 64 && s < 64
            && First(p, q) == a && Second(q, r) == b && Third(r, s) == c
    ensures Quad(a, b, c) == [Letter(Sextet1(a)), Letter(Sextet2(a, b)), Letter(Sextet3(b, c)), Letter(Sextet4(c))]
  {
    SextetBits(a, b, c);
    hide Letter;
  }

  lemma SextetsShort(a: Byte, b: Byte)
    ensures Pair(a, b) == [Letter(Sextet1(a)), Letter(Sextet2(a, b)), Letter(Sextet3(b, 0)), PAD]
    ensures Single(a) == [Letter(Sextet1(a)), Letter(Sextet2(a, 0)), PAD, PAD]
  {
    SextetBits(a, b, 0);
    hide Letter;
  }

  lemma BytesThree(x: bv32)
    ensures BytesOf(x, 3) == [ByteOf(x, 0), ByteOf(x, 1), ByteOf(x, 2)]
    ensures BytesOf(x, 2) == [ByteOf(x, 0), ByteOf(x, 1)] && BytesOf(x, 1) == [ByteOf(x, 0)]
  {
    assert BytesOf(x, 0) == [];
    assert BytesOf(x, 1) == [ByteOf(x, 0)];
    assert BytesOf(x, 2) == [ByteOf(x, 0), ByteOf(x, 1)];
  }

  lemma GroupOf(t: seq<Byte>, x: bv32)
    requires 2 <= |t| <= 4 && x == Merge(t) && x < BADCHAR
    ensures |t| == 4 ==> Group(t) == Some([ByteOf(x, 0), ByteOf(x, 1), ByteOf(x, 2)])
    ensures |t| == 3 ==> Group(t) == Some([ByteOf(x, 0), ByteOf(x, 1)])
    ensures |t| == 2 ==> Group(t) == Some([ByteOf(x, 0)])
  {
    hide Merge, ByteOf;
    BytesThree(x);
  }

  lemma GroupQuad(a: Byte, b: Byte, c: Byte)
    ensures Group(Quad(a, b, c)) == Some([a, b, c])
  {
    var p, q, r, s := Sextet1(a), Sextet2(a, b), Sextet3(b, c), Sextet4(c);
    hide Or, D0, D1, D2, D3, ByteOf, Group, Letter, Index, Quad, Pair, Single, First, Second, Third, Sextet1, Sextet2, Sextet3, Sextet4, Indexed;
    Sextets(a, b, c);
    Merged(p, q, r, s);
    GroupOf(Quad(a, b, c), Merge(Quad(a, b, c)));
  }

  lemma GroupPair(a: Byte, b: Byte)
    ensures Group(Pair(a, b)[..3]) == Some([a, b])
  {
    var p, q, r := Sextet1(a), Sextet2(a, b), Sextet3(b, 0);
    hide Or, D0, D1, D2, D3, ByteOf, Group, Letter, Index, Quad, Pair, Single, First, Second, Third, Sextet1, Sextet2, Sextet3, Sextet4, Indexed;
    Sextets(a, b, 0);
    SextetsShort(a, b);
    Merged(p, q, r, 0);
    var t := Pair(a, b)[..3];
    GroupOf(t, Merge(t));
  }

  lemma GroupSingle(a: Byte)
    ensures Group(Single(a)[..2]) == Some([a])
  {
    var p, q := Sextet1(a), Sextet2(a, 0);
    hide Or, D0, D1, D2, D3, ByteOf, Group, Letter, Index, Quad, Pair, Single, First, Second, Third, Sextet1, Sextet2, Sextet3, Sextet4, Indexed;
    Sextets(a, 0, 0);
    SextetsShort(a, 0);
    Merged(p, q, 0, 0);
    var t := Single(a)[..2];
    GroupOf(t, Merge(t));
  }

  // --------------------------------------------------------------------------------------
  // Whole strings
  // --------------------------------------------------------------------------------------

  lemma {:induction false} EncodeLength(s: seq<Byte>)
    ensures |Encode(s)| == (|s| + 2) / 3 * 4
  {
    if |s| > 2 {
      EncodeLength(s[3..]);
    }
  }

  /** The part of an encoding that is not padding. */
  function Letters(n: nat): (r: nat)
    ensures r % 4 != 1
  {
    if n == 0 then 0 else if n < 3 then n + 1
    else
      var x := Letters(n - 3);
      assert (x + 4) % 4 == x % 4;
      x + 4
  }

  lemma GroupsPadded(s: seq<Byte>)
    ensures |s| == 1 ==> |Single(s[0])| == 4 && Single(s[0])[2] == Single(s[0])[3] == PAD
    ensures |s| == 2 ==> |Pair(s[0], s[1])| == 4 && Pair(s[0], s[1])[3] == PAD
    ensures |s| >= 3 ==> |Quad(s[0], s[1], s[2])| == 4
  {}

  /** n letters, and then nothing but padding. */
  ghost predicate PaddedFrom(t: seq<Byte>, n: nat) {
    n <= |t| && AllLetters(t[..n]) && forall i :: n <= i < |t| ==> t[i] == PAD
  }

  lemma ShapeStep(q: seq<Byte>, g: seq<Byte>, r: seq<Byte>, m: nat, rest: seq<Byte>)
    requires |q| == 4 && AllLetters(q) && Group(q) == Some(g)
    requires PaddedFrom(r, m) && m % 4 != 1 && Body(r[..m]) == Some(rest)
    ensures PaddedFrom(q + r, m + 4) && Body((q + r)[..m + 4]) == Some(g + rest)
  {
    hide Group;
    var b := (q + r)[..m + 4];
    assert b == q + r[..m] && b[..4] == q && b[4..] == r[..m];
    if m == 0 {
      assert b == q && g + rest == g;
    }
  }

  lemma ShapeOne(a: Byte)
    ensures PaddedFrom(Single(a), 2) && Body(Single(a)[..2]) == Some([a])
  {
    GroupSingle(a);
    GroupAccepts(Single(a)[..2]);
    hide Group;
    GroupsPadded([a]);
  }

  lemma ShapeTwo(a: Byte, b: Byte)
    ensures PaddedFrom(Pair(a, b), 3) && Body(Pair(a, b)[..3]) == Some([a, b])
  {
    GroupPair(a, b);
    GroupAccepts(Pair(a, b)[..3]);
    hide Group;
    GroupsPadded([a, b]);
  }

  lemma {:induction false} EncodeShape(s: seq<Byte>)
    ensures var e, n := Encode(s), Letters(|s|); PaddedFrom(e, n) && Body(e[..n]) == Some(s)
  {
    hide Group, Single, Pair, Quad;
    GroupsPadded(s);
    if |s| == 1 {
      ShapeOne(s[0]);
      assert s == [s[0]];
    } else if |s| == 2 {
      ShapeTwo(s[0], s[1]);
      assert s == [s[0], s[1]];
    } else if |s| > 2 {
      EncodeShape(s[3..]);
      ShapeMore(s);
    }
  }

  lemma ShapeMore(s: seq<Byte>)
    requires |s| > 2 && var e, n := Encode(s[3..]), Letters(|s| - 3); PaddedFrom(e, n) && Body(e[..n]) == Some(s[3..])
    ensures var e, n := Encode(s), Letters(|s|); PaddedFrom(e, n) && Body(e[..n]) == Some(s)
  {
    hide Quad, Group, Body, PaddedFrom, AllLetters;
    var q, e := Quad(s[0], s[1], s[2]), Encode(s[3..]);
    GroupsPadded(s);
    GroupQuad(s[0], s[1], s[2]);
    GroupAccepts(q);
    EncodeIs(s);
    hide Encode, Letters;
    ShapeStep(q, [s[0], s[1], s[2]], e, Letters(|s| - 3), s[3..]);
    assert s == [s[0], s[1], s[2]] + s[3..];
  }

  lemma EncodeIs(s: seq<Byte>)
    requires |s| > 2
    ensures Encode(s) == Quad(s[0], s[1], s[2]) + Encode(s[3..]) && Letters(|s|) == Letters(|s| - 3) + 4
  {
    hide Quad;
  }

  lemma LettersNoPad(t: seq<Byte>)
    requires AllLetters(t)
    ensures !EndsPadded(t)
  {}

  lemma LettersCount(s: seq<Byte>)
    ensures var n := Letters(|s|); n % 4 != 1 && |Encode(s)| - 2 <= n && |Encode(s)| % 4 == 0
  {
    EncodeLength(s);
    LettersNear(|s|);
  }

  lemma {:induction false} LettersNear(n: nat)
    ensures (n + 2) / 3 * 4 - 2 <= Letters(n)
  {
    if n > 2 {
      LettersNear(n - 3);
    }
  }

  /** Decoding undoes encoding, under every policy. */
  lemma RoundTrip(s: seq<Byte>, policy: Policy)
    ensures Decode(Encode(s), policy) == Some(s)
  {
    var e, n := Encode(s), Letters(|s|);
    EncodeShape(s);
    LettersCount(s);
    hide Encode, Body, Letters, StripAll, StripTwo, PaddedFrom;
    StripsAll(e, n);
    StripTwoIs(e, n);
  }

  lemma {:induction false} StripsAll(t: seq<Byte>, n: nat)
    requires PaddedFrom(t, n)
    ensures StripAll(t) == t[..n]
  {
    if n < |t| {
      assert t[..|t| - 1][..n] == t[..n];
      StripsAll(t[..|t| - 1], n);
    } else {
      assert t == t[..n];
      LettersNoPad(t);
    }
  }

  /** Whole groups of letters and at most two characters of padding. */
  ghost predicate WellPadded(t: seq<Byte>) {
    |t| % 4 == 0 && exists n :: |t| - 2 <= n <= |t| && 0 <= n && PaddedFrom(t, n)
  }

  /** Letters without padding are decoded exactly if they are letters. */
  lemma {:induction false} BodyAccepts(t: seq<Byte>)
    requires |t| % 4 != 1
    ensures Body(t).Some? <==> AllLetters(t)
    ensures Body(t).Some? ==> |Body(t).value| == |t| * 3 / 4
  {
    if 0 < |t| <= 4 {
      GroupAccepts(t);
    } else if |t| > 4 {
      GroupAccepts(t[..4]);
      BodyAccepts(t[4..]);
      assert t == t[..4] + t[4..];
    }
  }

  lemma StripTwoIs(t: seq<Byte>, n: nat)
    requires PaddedFrom(t, n) && |t| - 2 <= n
    ensures StripTwo(t) == t[..n]
  {
    LettersNoPad(t[..n]);
    if n == |t| {
      assert t[..n] == t;
    }
  }

  lemma StripTwoPads(t: seq<Byte>)
    ensures var r := StripTwo(t); |t| - 2 <= |r| <= |t| && (AllLetters(r) ==> PaddedFrom(t, |r|))
  {
    var r := StripTwo(t);
    assert r == t[..|r|];
  }

  /** The strict decoder accepts exactly the well-padded strings. */
  lemma StrictAccepts(t: seq<Byte>)
    ensures Decode(t, Strict).Some? <==> WellPadded(t)
  {
    if |t| % 4 == 0 {
      var r := StripTwo(t);
      if |r| % 4 != 1 { BodyAccepts(r); }
      if WellPadded(t) {
        var n :| |t| - 2 <= n <= |t| && 0 <= n && PaddedFrom(t, n);
        StripTwoIs(t, n);
      } else {
        StripTwoPads(t);
      }
    }
  }

  /** What the strict decoder accepts, the others decode to the same bytes. */
  lemma PoliciesAgree(t: seq<Byte>, policy: Policy)
    requires WellPadded(t)
    ensures Decode(t, policy) == Decode(t, Strict)
  {
    var n :| |t| - 2 <= n <= |t| && 0 <= n && PaddedFrom(t, n);
    StripTwoIs(t, n);
    StripsAll(t, n);
    hide PaddedFrom, Body, StripAll, StripTwo;
  }

  // --------------------------------------------------------------------------------------
  // Encoding what has been decoded
  // --------------------------------------------------------------------------------------

  lemma SextetsBack(p: Byte, q: Byte, r: Byte, s: Byte)
    requires p < 64 && q < 64 && r < 64 && s < 64
    ensures var a, b, c := First(p, q), Second(q, r), Third(r, s);
            && Sextet1(a) == p && Sextet2(a, b) == q && Sextet3(b, c) == r && Sextet4(c) == s
            && Sextet3(b, 0) < 64 && (Sextet3(b, 0) == r <==> r & 3 == 0)
            && Sextet2(a, 0) < 64 && (Sextet2(a, 0) == q <==> q & 15 == 0)
  {}

  /** The unused bits of the last letter are zero. */
  predicate Trailing(t: seq<Byte>) {
    if |t| % 4 == 2 then Index(t[|t| - 1]) & 15 == 0
    else if |t| % 4 == 3 then Index(t[|t| - 1]) & 3 == 0
    else true
  }

  /** Two sextets have the same letter only if they are the same. */
  lemma LetterOnce(v: Byte, w: Byte)
    requires v < 64 && w < 64
    ensures Letter(v) == Letter(w) <==> v == w
  {
    LetterIndex(v);
    LetterIndex(w);
  }

  predicate Indexed(t: seq<Byte>) {
    forall k :: 0 <= k < |t| ==> Index(t[k]) < 64 && Letter(Index(t[k])) == t[k]
  }

  lemma LettersIndexed(t: seq<Byte>)
    requires AllLetters(t)
    ensures Indexed(t)
  {
    forall k | 0 <= k < |t|
      ensures Index(t[k]) < 64 && Letter(Index(t[k])) == t[k]
    {
      IndexLetter(t[k]);
    }
  }

  /** What a group of letters is decoded to. */
  lemma FourLetters(t: seq<Byte>)
    requires |t| == 4 && Indexed(t)
    ensures Group(t) == Some([First(Index(t[0]), Index(t[1])), Second(Index(t[1]), Index(t[2])), Third(Index(t[2]), Index(t[3]))])
  {
    var p, q, r, s := Index(t[0]), Index(t[1]), Index(t[2]), Index(t[3]);
    assert p < 64 && q < 64 && r < 64 && s < 64;
    assert Letter(p) == t[0] && Letter(q) == t[1] && Letter(r) == t[2] && Letter(s) == t[3];
    hide Or, D0, D1, D2, D3, ByteOf, Group, Letter, Index, Quad, Pair, Single, First, Second, Third, Sextet1, Sextet2, Sextet3, Sextet4, Indexed;
    Merged(p, q, r, s);
    GroupOf(t, Merge(t));
  }

  lemma ThreeLetters(t: seq<Byte>)
    requires |t| == 3 && Indexed(t)
    ensures Group(t) == Some([First(Index(t[0]), Index(t[1])), Second(Index(t[1]), Index(t[2]))])
  {
    var p, q, r := Index(t[0]), Index(t[1]), Index(t[2]);
    assert p < 64 && q < 64 && r < 64 && Letter(p) == t[0] && Letter(q) == t[1] && Letter(r) == t[2];
    hide Or, D0, D1, D2, D3, ByteOf, Group, Letter, Index, Quad, Pair, Single, First, Second, Third, Sextet1, Sextet2, Sextet3, Sextet4, Indexed;
    Merged(p, q, r, 0);
    GroupOf(t, Merge(t));
  }

  lemma TwoLetters(t: seq<Byte>)
    requires |t| == 2 && Indexed(t)
    ensures Group(t) == Some([First(Index(t[0]), Index(t[1]))])
  {
    var p, q := Index(t[0]), Index(t[1]);
    assert p < 64 && q < 64 && Letter(p) == t[0] && Letter(q) == t[1];
    hide Or, D0, D1, D2, D3, ByteOf, Group, Letter, Index, Quad, Pair, Single, First, Second, Third, Sextet1, Sextet2, Sextet3, Sextet4, Indexed;
    Merged(p, q, 0, 0);
    GroupOf(t, Merge(t));
  }

  lemma QuadBack(t: seq<Byte>)
    requires |t| == 4 && AllLetters(t)
    ensures Group(t).Some? && |Group(t).value| == 3 && var g := Group(t).value; Quad(g[0], g[1], g[2]) == t
  {
    LettersIndexed(t);
    assert Index(t[0]) < 64 && Index(t[1]) < 64 && Index(t[2]) < 64 && Index(t[3]) < 64;
    assert t == [Letter(Index(t[0])), Letter(Index(t[1])), Letter(Index(t[2])), Letter(Index(t[3]))];
    hide *;
    FourLetters(t);
    SextetsBack(Index(t[0]), Index(t[1]), Index(t[2]), Index(t[3]));
    var g := Group(t).value;
    Sextets(g[0], g[1], g[2]);
  }

  lemma PairBack(t: seq<Byte>)
    requires |t| == 3 && AllLetters(t)
    ensures Group(t).Some? && |Group(t).value| == 2 && var g := Group(t).value; Pair(g[0], g[1]) == t + [PAD] <==> Trailing(t)
  {
    LettersIndexed(t);
    hide Index, Letter, Group, Pair, AllLetters, First, Second, Sextet1, Sextet2, Sextet3, Sextet4;
    ThreeLetters(t);
    SextetsBack(Index(t[0]), Index(t[1]), Index(t[2]), 0);
    var g := Group(t).value;
    SextetsShort(g[0], g[1]);
    LetterOnce(Sextet3(g[1], 0), Index(t[2]));
    assert t + [PAD] == [t[0], t[1], t[2], PAD];
  }

  lemma SingleBack(t: seq<Byte>)
    requires |t| == 2 && AllLetters(t)
    ensures Group(t).Some? && |Group(t).value| == 1 && var g := Group(t).value; Single(g[0]) == t + [PAD, PAD] <==> Trailing(t)
  {
    LettersIndexed(t);
    hide Index, Letter, Group, Single, AllLetters, First, Second, Sextet1, Sextet2, Sextet3, Sextet4;
    TwoLetters(t);
    SextetsBack(Index(t[0]), Index(t[1]), 0, 0);
    var g := Group(t).value;
    SextetsShort(g[0], 0);
    LetterOnce(Sextet2(g[0], 0), Index(t[1]));
    assert t + [PAD, PAD] == [t[0], t[1], PAD, PAD];
  }

  /** The padding after n letters. */
  function Pads(n: nat): seq<Byte> {
    if n % 4 == 2 then [PAD, PAD] else if n % 4 == 3 then [PAD] else []
  }

  lemma CanonicalStep(q: seq<Byte>, g: seq<Byte>, r: seq<Byte>, rest: seq<Byte>)
    requires |q| == 4 && |g| == 3 && Quad(g[0], g[1], g[2]) == q
    ensures Encode(g + rest) == q + Encode(rest)
    ensures Encode(g + rest) == q + r <==> Encode(rest) == r
  {
    assert (g + rest)[3..] == rest;
    assert (q + r)[4..] == r && (q + Encode(rest))[4..] == Encode(rest);
  }

  /** Letters are got back by encoding what they decode to exactly if no unused bit is set. */
  lemma {:induction false} BodyCanonical(t: seq<Byte>)
    requires |t| % 4 != 1 && AllLetters(t)
    ensures Body(t).Some? && (Encode(Body(t).value) == t + Pads(|t|) <==> Trailing(t))
  {
    BodyAccepts(t);
    hide Quad, Pair, Single, Group;
    if |t| == 2 {
      SingleBack(t);
    } else if |t| == 3 {
      PairBack(t);
    } else if |t| == 4 {
      QuadBack(t);
      var g := Group(t).value;
      CanonicalStep(t, g, [], []);
      assert g + [] == g && t + [] == t;
    } else if |t| > 4 {
      assert AllLetters(t[4..]) && AllLetters(t[..4]);
      BodyCanonical(t[4..]);
      CanonicalMore(t);
    }
  }

  lemma CanonicalMore(t: seq<Byte>)
    requires |t| > 4 && |t| % 4 != 1 && AllLetters(t[..4]) && Body(t).Some?
    requires Body(t[4..]).Some? && (Encode(Body(t[4..]).value) == t[4..] + Pads(|t| - 4) <==> Trailing(t[4..]))
    ensures Encode(Body(t).value) == t + Pads(|t|) <==> Trailing(t)
  {
    var q, r := t[..4], t[4..];
    QuadBack(q);
    hide Quad, Encode, AllLetters, Group, Index;
    var g := Group(q).value;
    CanonicalStep(q, g, r + Pads(|r|), Body(r).value);
    assert t == q + r && Pads(|r|) == Pads(|t|);
    assert q + (r + Pads(|r|)) == (q + r) + Pads(|r|);
  }

  /** Encoding what a string decodes to gives the string back exactly if the unused bits of its
      last letter are zero. */
  lemma Canonical(t: seq<Byte>)
    requires WellPadded(t)
    ensures Decode(t, Strict).Some? && (Encode(Decode(t, Strict).value) == t <==> Trailing(StripTwo(t)))
  {
    StrictAccepts(t);
    var n :| |t| - 2 <= n <= |t| && 0 <= n && PaddedFrom(t, n);
    StripTwoIs(t, n);
    BodyCanonical(t[..n]);
    PadsAre(t, n);
    hide Encode, Body, StripTwo, Trailing, PaddedFrom;
  }

  lemma PadsAre(t: seq<Byte>, n: nat)
    requires |t| % 4 == 0 && |t| - 2 <= n && PaddedFrom(t, n)
    ensures t == t[..n] + Pads(n)
  {}

  // --------------------------------------------------------------------------------------
  // The procedures
  // --------------------------------------------------------------------------------------

  /** modp_b64_encode_data writes the encoding, which is as long as modp_b64_encode_data_len. */
  method EncodeData(dest: array<Byte>, str: seq<Byte>) returns (n: nat)
    requires dest.Length >= (|str| + 2) / 3 * 4
    modifies dest
    ensures n == (|str| + 2) / 3 * 4 && dest[..n] == Encode(str)
  {
    EncodeLength(str);
    var len, i, p := |str|, 0, 0;
    hide Quad, Single, Pair;
    if len > 2 {
      while i < len - 2
        invariant i <= len && p + |Encode(str[i..])| == |Encode(str)| && dest[..p] + Encode(str[i..]) == Encode(str)
      {
        var t1, t2, t3 := str[i], str[i + 1], str[i + 2];
        EncodeMore(str, i);
        Put4(dest, p, Quad(t1, t2, t3));
        p := p + 4;
        i := i + 3;
      }
    }
    EncodeLast(str[i..]);
    if len - i == 1 {
      Put4(dest, p, Single(str[i]));
      p := p + 4;
    } else if len - i == 2 {
      Put4(dest, p, Pair(str[i], str[i + 1]));
      p := p + 4;
    }
    n := p;
  }

  lemma EncodeMore(s: seq<Byte>, i: nat)
    requires i + 2 < |s|
    ensures |Quad(s[i], s[i + 1], s[i + 2])| == 4 && Encode(s[i..]) == Quad(s[i], s[i + 1], s[i + 2]) + Encode(s[i + 3..])
  {
    assert s[i..][3..] == s[i + 3..];
  }

  lemma EncodeLast(s: seq<Byte>)
    requires |s| <= 2
    ensures |s| == 0 ==> Encode(s) == []
    ensures |s| == 1 ==> |Single(s[0])| == 4 && Encode(s) == Single(s[0])
    ensures |s| == 2 ==> |Pair(s[0], s[1])| == 4 && Encode(s) == Pair(s[0], s[1])
  {}

  /** Four bytes are written one after the other. */
  method Put4(dest: array<Byte>, p: nat, q: seq<Byte>)
    requires |q| == 4 && p + 4 <= dest.Length
    modifies dest
    ensures dest[..p + 4] == old(dest[..p]) + q
  {
    dest[p] := q[0];
    dest[p + 1] := q[1];
    dest[p + 2] := q[2];
    dest[p + 3] := q[3];
  }

  /** do_decode_padding: the length without padding, or -1. */
  method DecodePadding(src: seq<Byte>, policy: Policy) returns (n: int)
    requires |src| > 0
    ensures n == -1 <==> Unpad(src, policy) == None
    ensures n != -1 ==> 0 <= n <= |src| && Unpad(src, policy) == Some(src[..n])
  {
    var len := |src|;
    assert src[..len] == src;
    if policy.NoPaddingValidation? {
      while len > 0 && src[len - 1] == PAD
        invariant 0 <= len <= |src| && StripAll(src) == StripAll(src[..len])
      {
        assert src[..len][..len - 1] == src[..len - 1];
        len := len - 1;
      }
    } else {
      var remainder := len % 4;
      if policy.Strict? && (remainder != 0 || len < 4) {
        return -1;
      }
      if remainder == 0 {
        if src[len - 1] == PAD {
          len := len - 1;
          if src[len - 1] == PAD {
            len := len - 1;
          }
        }
      }
    }
    n := if len % 4 == 1 then -1 else len;
  }

  function Prepend(g: seq<Byte>, o: Option<seq<Byte>>): Option<seq<Byte>> {
    match o
    case None => None
    case Some(r) => Some(g + r)
  }

  lemma BodyMore(y: seq<Byte>, g: seq<Byte>)
    requires |y| % 4 != 1 && 4 < |y|
    ensures |y[4..]| % 4 != 1
    ensures Prepend(g, Body(y)) ==
            if Group(y[..4]).None? then None else Prepend(g + Group(y[..4]).value, Body(y[4..]))
  {
    hide Group;
    if Group(y[..4]).Some? && Body(y[4..]).Some? {
      assert g + (Group(y[..4]).value + Body(y[4..]).value) == g + Group(y[..4]).value + Body(y[4..]).value;
    }
  }

  /** The bytes of a group are written, unless it is not one. */
  method PutGroup(dest: array<Byte>, p: nat, t: seq<Byte>) returns (ok: bool)
    requires 2 <= |t| <= 4 && p + |t| - 1 <= dest.Length
    modifies dest
    ensures ok == Group(t).Some?
    ensures ok ==> |Group(t).value| == |t| - 1 && dest[..p + |t| - 1] == old(dest[..p]) + Group(t).value
  {
    var x := Merge(t);
    hide Merge, ByteOf;
    BytesThree(x);
    if x >= BADCHAR {
      return false;
    }
    dest[p] := ByteOf(x, 0);
    if |t| > 2 {
      dest[p + 1] := ByteOf(x, 1);
    }
    if |t| > 3 {
      dest[p + 2] := ByteOf(x, 2);
    }
    ok := true;
  }

  lemma PrependNothing(o: Option<seq<Byte>>)
    ensures Prepend([], o) == o
  {
    if o.Some? {
      assert [] + o.value == o.value;
    }
  }

  lemma BodyLast(t: seq<Byte>)
    requires 2 <= |t| <= 4
    ensures Body(t) == Group(t)
  {}

  /** The part of modp_b64_decode behind the padding; the last group may be a short one. */
  method DecodeLetters(dest: array<Byte>, t: seq<Byte>) returns (n: int)
    requires |t| > 0 && |t| % 4 != 1 && 4 * dest.Length + 3 >= 3 * |t|
    modifies dest
    ensures n == -1 <==> Body(t) == None
    ensures n != -1 ==> 0 <= n <= dest.Length && Body(t) == Some(dest[..n])
  {
    var len := |t|;
    var leftover := len % 4;
    var chunks := if leftover == 0 then len / 4 - 1 else len / 4;
    assert 4 * chunks + 2 <= len <= 4 * chunks + 4;
    hide Group, Body;
    var y, p, i := t, 0, 0;
    assert dest[..0] == [];
    PrependNothing(Body(t));
    while i < chunks
      invariant 0 <= i <= chunks && p == 3 * i && |y| == len - 4 * i && |y| % 4 != 1
      invariant Body(t) == Prepend(dest[..p], Body(y))
    {
      BodyMore(y, dest[..p]);
      var ok := PutGroup(dest, p, y[..4]);
      if !ok {
        return -1;
      }
      p := p + 3;
      y := y[4..];
      i := i + 1;
    }
    BodyLast(y);
    var ok := PutGroup(dest, p, y);
    n := if ok then p + |y| - 1 else -1;
  }

  /** modp_b64_decode needs no more room than modp_b64_decode_len; -1 is an error. */
  method DecodeData(dest: array<Byte>, src: seq<Byte>, policy: Policy) returns (n: int)
    requires dest.Length >= |src| / 4 * 3 + 2
    modifies dest
    ensures n == -1 <==> Decode(src, policy) == None
    ensures n != -1 ==> 0 <= n <= dest.Length && Decode(src, policy) == Some(dest[..n])
  {
    var len := 0;
    if |src| != 0 {
      len := DecodePadding(src, policy);
    }
    if len == 0 || len == -1 {
      assert len == 0 ==> src[..0] == [] && dest[..0] == [];
      return len;
    }
    hide Unpad, Body;
    n := DecodeLetters(dest, src[..len]);
  }
}
