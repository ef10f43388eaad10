/** VAL in qbs_val.cpp: the hexadecimal, octal and binary branch, and the accumulation of
    decimal integers; and that it undoes HEX$, OCT$ and _BIN$. */
module Val {
  import opened Powers
  import opened Arith
  import opened Digits
  import opened HexOctBin

  const WORD: int := 0x1_0000_0000_0000_0000

  /** A number of 64 bits, or error 6. */
  datatype Parsed = Number(v: nat) | Overflow

  /** Where the digits from i on end. */
  function DigitsEnd(s: string, i: nat, b: nat): (e: nat)
    requires i <= |s|
    ensures i <= e <= |s| && AllDigits(s[i..e], b)
    decreases |s| - i
  {
    if i == |s| || DigitOf(s[i], b) < 0 then i
    else
      var e := DigitsEnd(s, i + 1, b);
      assert s[i..e] == [s[i]] + s[i + 1..e];
      e
  }

  /** What the digits from i on denote, if that fits into 64 bits. */
  function Read(s: string, i: nat, b: nat): Parsed
    requires i <= |s| && b > 0
  {
    var v := Value(s[i..DigitsEnd(s, i, b)], b);
    if v < WORD then Number(v) else Overflow
  }

  /** How many of the digits are significant. */
  function Significant(s: string, b: nat): (n: nat)
    requires AllDigits(s, b)
    ensures n <= |s|
  {
    if s == [] then 0
    else
      var p := Significant(s[..|s| - 1], b);
      if p > 0 || DigitOf(s[|s| - 1], b) > 0 then p + 1 else 0
  }

  /** The value lies between the first significant digit and the next one, at their place. */
  lemma {:induction false} LeadBounds(s: string, b: nat)
    requires b > 0 && AllDigits(s, b)
    ensures var n := Significant(s, b);
            if n == 0 then Value(s, b) == 0
            else var d := DigitOf(s[|s| - n], b); 0 < d < b && d * Pow(b, n - 1) <= Value(s, b) < (d + 1) * Pow(b, n - 1)
  {
    if s != [] {
      var r := s[..|s| - 1];
      LeadBounds(r, b);
      var p, c := Significant(r, b), DigitOf(s[|s| - 1], b);
      if p > 0 {
        assert r[|r| - p] == s[|s| - (p + 1)];
        LeadStep(DigitOf(r[|r| - p], b), Pow(b, p - 1), Value(r, b), b, c);
      } else if c > 0 {
        assert Pow(b, 0) == 1;
      }
    }
  }

  lemma LeadStep(d: int, p: nat, v: int, b: nat, c: int)
    requires d * p <= v < (d + 1) * p && 0 <= c < b
    ensures d * (p * b) <= v * b + c < (d + 1) * (p * b)
  {
    MulMono(d * p, v, b);
    MulMono(v + 1, (d + 1) * p, b);
    Associate(d, p, b);
    Associate(d + 1, p, b);
    Distribute(v, 1, b);
  }

  lemma Extend(s: string, i: nat, e: nat, b: nat)
    requires i <= e < |s| && AllDigits(s[i..e], b) && DigitOf(s[e], b) >= 0 && b > 0
    ensures AllDigits(s[i..e + 1], b)
    ensures Value(s[i..e + 1], b) == Value(s[i..e], b) * b + DigitOf(s[e], b)
    ensures Significant(s[i..e + 1], b) ==
              if Significant(s[i..e], b) > 0 || DigitOf(s[e], b) > 0 then Significant(s[i..e], b) + 1 else 0
  {
    var x, y := s[i..e + 1], s[i..e];
    assert x[e - i] == s[e] && |x[..e - i]| == |y|;
    assert forall k :: 0 <= k < e - i ==> x[..e - i][k] == y[k];
    assert x[..e - i] == y;
  }

  /** Where a scan of digits stands is where the digits end, or before it. */
  lemma {:induction false} EndAt(s: string, i: nat, e: nat, b: nat)
    requires i <= e <= |s| && AllDigits(s[i..e], b)
    ensures DigitsEnd(s, i, b) == DigitsEnd(s, e, b)
    decreases e - i
  {
    if i < e {
      assert DigitOf(s[i..e][0], b) >= 0;
      assert s[i + 1..e] == s[i..e][1..];
      EndAt(s, i + 1, e, b);
    }
  }

  /** More digits never denote less. */
  lemma {:induction false} ValueGrows(s: string, i: nat, e: nat, f: nat, b: nat)
    requires i <= e <= f <= |s| && AllDigits(s[i..f], b) && b > 0
    ensures AllDigits(s[i..e], b) && Value(s[i..e], b) <= Value(s[i..f], b)
    decreases f
  {
    PrefixDigits(s[i..f], e - i, b);
    assert s[i..f][..e - i] == s[i..e];
    if e < f {
      PrefixDigits(s[i..f], f - 1 - i, b);
      assert s[i..f][..f - 1 - i] == s[i..f - 1];
      assert s[f - 1] == s[i..f][f - 1 - i];
      ValueGrows(s, i, e, f - 1, b);
      Extend(s, i, f - 1, b);
      MulMono(1, b, Value(s[i..f - 1], b));
    }
  }

  lemma PrefixDigits(s: string, n: nat, b: nat)
    requires AllDigits(s, b) && n <= |s|
    ensures AllDigits(s[..n], b)
  {}

  /** Once the digits so far are too large, the whole is. */
  lemma TooLarge(s: string, i: nat, e: nat, b: nat)
    requires i <= e <= |s| && AllDigits(s[i..e], b) && b > 0 && Value(s[i..e], b) >= WORD
    ensures Read(s, i, b) == Overflow
  {
    EndAt(s, i, e, b);
    ValueGrows(s, i, e, DigitsEnd(s, i, b), b);
  }

  /** The state of a scan: what the digits up to e denote fits, and how many are significant. */
  ghost predicate Scanned(s: string, i: nat, e: nat, b: nat, value: int, digits: int) {
    && i <= e <= |s| && b > 0 && AllDigits(s[i..e], b)
    && value == Value(s[i..e], b) < WORD && digits == Significant(s[i..e], b)
  }

  lemma ScanStart(s: string, i: nat, b: nat)
    requires i <= |s| && b > 0
    ensures Scanned(s, i, i, b, 0, 0)
  {}

  lemma ScanEnd(s: string, i: nat, e: nat, b: nat, value: int, digits: int)
    requires Scanned(s, i, e, b, value, digits) && (e == |s| || DigitOf(s[e], b) < 0)
    ensures Read(s, i, b) == Number(value)
  {
    EndAt(s, i, e, b);
  }

  /** A digit more: it fits, or with n bits per digit there are more significant digits than 64
      bits hold. */
  lemma ScanMore(s: string, i: nat, e: nat, b: nat, value: int, digits: int, most: nat)
    requires Scanned(s, i, e, b, value, digits) && e < |s| && DigitOf(s[e], b) >= 0 && Pow(b, most) == WORD && digits <= most
    ensures var c := DigitOf(s[e], b);
            var digits' := if digits > 0 || c > 0 then digits + 1 else 0;
            if digits' > most then Read(s, i, b) == Overflow
            else 0 <= value && value * b + c < WORD && Scanned(s, i, e + 1, b, value * b + c, digits')
  {
    var c := DigitOf(s[e], b);
    var digits' := if digits > 0 || c > 0 then digits + 1 else 0;
    ScanDigit(s, i, e, b, value, digits, c, digits');
    hide Scanned, Read;
    if digits' > 0 {
      var d := DigitOf(s[e + 1 - digits'], b);
      if digits' > most {
        MulMono(1, d, Pow(b, most));
      } else {
        PowMono(b, digits', most);
        MulMono(d + 1, b, Pow(b, digits' - 1));
      }
    }
  }

  lemma {:induction false} PowMono(b: nat, m: nat, n: nat)
    requires b > 0 && m <= n
    ensures Pow(b, m) <= Pow(b, n)
    decreases n
  {
    if m < n {
      PowMono(b, m, n - 1);
      MulMono(1, b, Pow(b, n - 1));
    }
  }

  /** value.i << bits | c, in 64 bits. */
  function ShiftIn(value: int, b: nat, c: int): int {
    value * b % WORD + c
  }

  lemma ShiftInFits(value: int, b: nat, c: int)
    requires 0 <= value && 0 <= c && value * b + c < WORD
    ensures ShiftIn(value, b, c) == value * b + c
  {
    DivUnique(value * b, WORD, 0, value * b);
  }

  /** The powers at which 64 bits are full. */
  lemma WordPowers()
    ensures Pow(16, 16) == WORD && Pow(2, 64) == WORD && Pow(8, 21) * 2 == WORD
  {
    Pow2Values();
    PowHex(16);
    PowTwoIs(64);
    PowEight(21);
  }

  /** &H */
  method ReadHex(s: string, from: nat) returns (r: Parsed)
    requires from <= |s|
    ensures r == Read(s, from, 16)
  {
    var value, digits, i := 0, 0, from;
    WordPowers();
    ScanStart(s, from, 16);
    hide *;
    while i < |s|
      invariant from <= i <= |s| && Scanned(s, from, i, 16, value, digits) && digits <= 16
    {
      var c := DigitOf(s[i], 16);
      if c < 0 {
        break;
      }
      ScanMore(s, from, i, 16, value, digits, 16);
      var value' := ShiftIn(value, 16, c);
      if digits > 0 || c > 0 {
        digits := digits + 1;
      }
      if digits > 16 {
        return Overflow;
      }
      ShiftInFits(value, 16, c);
      value := value';
      i := i + 1;
    }
    ScanEnd(s, from, i, 16, value, digits);
    r := Number(value);
  }

  /** &B */
  method ReadBin(s: string, from: nat) returns (r: Parsed)
    requires from <= |s|
    ensures r == Read(s, from, 2)
  {
    var value, digits, i := 0, 0, from;
    WordPowers();
    ScanStart(s, from, 2);
    hide *;
    while i < |s|
      invariant from <= i <= |s| && Scanned(s, from, i, 2, value, digits) && digits <= 64
    {
      var c := DigitOf(s[i], 2);
      if c < 0 {
        break;
      }
      ScanMore(s, from, i, 2, value, digits, 64);
      var value' := ShiftIn(value, 2, c);
      if digits > 0 || c > 0 {
        digits := digits + 1;
      }
      if digits > 64 {
        return Overflow;
      }
      ShiftInFits(value, 2, c);
      value := value';
      i := i + 1;
    }
    ScanEnd(s, from, i, 2, value, digits);
    r := Number(value);
  }

  /** A digit more: the value goes on, or no longer fits; and where its first significant digit
      puts it. */
  lemma ScanDigit(s: string, i: nat, e: nat, b: nat, value: int, digits: int, c: int, digits': int)
    requires Scanned(s, i, e, b, value, digits) && e < |s| && c == DigitOf(s[e], b) >= 0
    requires digits' == if digits > 0 || c > 0 then digits + 1 else 0
    ensures 0 <= value && 0 <= digits' <= e + 1 - i
    ensures if value * b + c < WORD then Scanned(s, i, e + 1, b, value * b + c, digits') else Read(s, i, b) == Overflow
    ensures digits' == 0 ==> value * b + c == 0
    ensures digits' > 0 ==>
              var d := DigitOf(s[e + 1 - digits'], b);
              0 < d < b && d * Pow(b, digits' - 1) <= value * b + c < (d + 1) * Pow(b, digits' - 1)
  {
    var t := s[i..e + 1];
    Extend(s, i, e, b);
    LeadBounds(t, b);
    assert digits' > 0 ==> t[|t| - digits'] == s[e + 1 - digits'];
    if value * b + c >= WORD {
      TooLarge(s, i, e + 1, b);
    }
  }

  /** Octal digits: 22 of them are too many, unless the first is a one. */
  lemma ScanOctal(s: string, i: nat, e: nat, value: int, digits: int)
    requires Scanned(s, i, e, 8, value, digits) && e < |s| && DigitOf(s[e], 8) >= 0 && digits <= 22
    ensures var c := DigitOf(s[e], 8);
            var digits' := if digits > 0 || c > 0 then digits + 1 else 0;
            if digits' > 22 || (digits' == 22 && 21 <= e && s[e - 21] > '1') then Read(s, i, 8) == Overflow
            else 0 <= value && value * 8 + c < WORD && Scanned(s, i, e + 1, 8, value * 8 + c, digits')
    ensures (if digits > 0 || DigitOf(s[e], 8) > 0 then digits + 1 else 0) >= 22 ==> 21 <= e
  {
    var c := DigitOf(s[e], 8);
    var digits' := if digits > 0 || c > 0 then digits + 1 else 0;
    hide *;
    ScanDigit(s, i, e, 8, value, digits, c, digits');
    if digits' > 0 {
      OctalFits(DigitOf(s[e + 1 - digits'], 8), digits', value * 8 + c);
      if digits' == 22 {
        OctalLead(s[e - 21]);
      }
    }
  }

  /** A number of n octal digits with this first one. */
  lemma OctalFits(d: int, n: nat, v: int)
    requires 0 < d < 8 && 0 < n && d * Pow(8, n - 1) <= v < (d + 1) * Pow(8, n - 1)
    ensures v >= WORD <==> n > 22 || (n == 22 && d >= 2)
  {
    WordPowers();
    if n > 22 {
      PowMono(8, 22, n - 1);
      MulMono(1, d, Pow(8, n - 1));
      assert Pow(8, 22) == Pow(8, 21) * 8;
    } else if n == 22 {
      if d >= 2 { MulMono(2, d, Pow(8, 21)); } else { MulMono(d + 1, 2, Pow(8, 21)); }
    } else {
      PowMono(8, n, 21);
      MulMono(d + 1, 8, Pow(8, n - 1));
    }
  }

  lemma OctalLead(c: char)
    requires DigitOf(c, 8) > 0
    ensures DigitOf(c, 8) >= 2 <==> c > '1'
  {}

  /** &O */
  method ReadOct(s: string, from: nat) returns (r: Parsed)
    requires from <= |s|
    ensures r == Read(s, from, 8)
  {
    var value, digits, i := 0, 0, from;
    ScanStart(s, from, 8);
    hide *;
    while i < |s|
      invariant from <= i <= |s| && Scanned(s, from, i, 8, value, digits) && digits <= 22
    {
      var c := DigitOf(s[i], 8);
      if c < 0 {
        break;
      }
      ScanOctal(s, from, i, value, digits);
      var value' := ShiftIn(value, 8, c);
      if digits > 0 || c > 0 {
        digits := digits + 1;
      }
      if digits >= 22 {
        if digits > 22 || s[i - 21] > '1' {
          return Overflow;
        }
      }
      ShiftInFits(value, 8, c);
      value := value';
      i := i + 1;
    }
    ScanEnd(s, from, i, 8, value, digits);
    r := Number(value);
  }

  /** The base a letter stands for, or 0. */
  function BaseOf(c: char): nat {
    if c == 'H' || c == 'h' then 16 else if c == 'B' || c == 'b' then 2 else if c == 'O' || c == 'o' then 8 else 0
  }

  /** What a string with an ampersand at i is read as. */
  function ReadAmpersand(s: string, i: nat): Parsed
    requires i < |s|
  {
    if i >= |s| - 2 || BaseOf(s[i + 1]) == 0 then Number(0) else Read(s, i + 2, BaseOf(s[i + 1]))
  }

  /** The branch behind an ampersand: overflow is raised exactly when the digits denote a number
      that does not fit into 64 bits, and otherwise that number is returned. */
  method NonDecimal(s: string, i: nat) returns (r: Parsed)
    requires i < |s|
    ensures r == ReadAmpersand(s, i)
    ensures i + 2 < |s| && BaseOf(s[i + 1]) > 0 ==>
              var b := BaseOf(s[i + 1]);
              var v := Value(s[i + 2..DigitsEnd(s, i + 2, b)], b);
              (r == Overflow <==> v >= WORD) && (v < WORD ==> r == Number(v))
  {
    if i >= |s| - 2 {
      return Number(0);
    }
    var c := s[i + 1];
    if c == 'H' || c == 'h' {
      r := ReadHex(s, i + 2);
    } else if c == 'B' || c == 'b' {
      r := ReadBin(s, i + 2);
    } else if c == 'O' || c == 'o' {
      r := ReadOct(s, i + 2);
    } else {
      r := Number(0);
    }
  }

  /** The letter behind the ampersand may be of either case. */
  lemma EitherCase(t: string)
    ensures ReadAmpersand("&H" + t, 0) == ReadAmpersand("&h" + t, 0)
    ensures ReadAmpersand("&O" + t, 0) == ReadAmpersand("&o" + t, 0)
    ensures ReadAmpersand("&B" + t, 0) == ReadAmpersand("&b" + t, 0)
  {
    SameBase('H', 'h', t, 16);
    SameBase('O', 'o', t, 8);
    SameBase('B', 'b', t, 2);
    hide ReadAmpersand;
    assert "&H" + t == ['&', 'H'] + t && "&h" + t == ['&', 'h'] + t;
  }

  lemma SameBase(x: char, y: char, t: string, b: nat)
    requires BaseOf(x) == BaseOf(y) == b > 0
    ensures ReadAmpersand(['&', x] + t, 0) == ReadAmpersand(['&', y] + t, 0)
  {
    var s, u := ['&', x] + t, ['&', y] + t;
    assert s[2..] == u[2..] == t;
    SameTail(s, u, 2, b);
  }

  lemma {:induction false} SameTail(s: string, u: string, i: nat, b: nat)
    requires |s| == |u| && i <= |s| && s[i..] == u[i..] && b > 0
    ensures DigitsEnd(s, i, b) == DigitsEnd(u, i, b) && s[i..DigitsEnd(s, i, b)] == u[i..DigitsEnd(u, i, b)]
    decreases |s| - i
  {
    if i < |s| {
      assert s[i] == s[i..][0] && u[i] == u[i..][0];
      assert s[i + 1..] == s[i..][1..] && u[i + 1..] == u[i..][1..];
      if DigitOf(s[i], b) >= 0 {
        SameTail(s, u, i + 1, b);
        var e := DigitsEnd(s, i, b);
        assert s[i..e] == [s[i]] + s[i + 1..e] && u[i..e] == [u[i]] + u[i + 1..e];
      }
    }
  }

  // --------------------------------------------------------------------------------------
  // Round trips
  // --------------------------------------------------------------------------------------

  lemma {:induction false} WholeString(s: string, i: nat, b: nat)
    requires i <= |s| && AllDigits(s[i..], b)
    ensures DigitsEnd(s, i, b) == |s|
    decreases |s| - i
  {
    if i < |s| {
      assert DigitOf(s[i..][0], b) >= 0;
      assert s[i + 1..] == s[i..][1..];
      WholeString(s, i + 1, b);
    }
  }

  lemma ReadDigits(letter: char, t: string, b: nat)
    requires BaseOf(letter) == b > 0 && |t| > 0 && AllDigits(t, b)
    ensures ReadAmpersand(['&', letter] + t, 0) == if Value(t, b) < WORD then Number(Value(t, b)) else Overflow
  {
    var s := ['&', letter] + t;
    assert s[2..] == t;
    WholeString(s, 2, b);
    assert s[2..|s|] == t;
  }

  /** Reading what _BIN$ prints gives the value modulo 2 to the printed bits, and with the sign
      extended from there, the value. */
  lemma BinRoundTrip(v: int, negBits: nat)
    requires MIN64 <= v <= MAX64 && negBits <= 64
    ensures var w := Bits(v, negBits);
            Recovers(v, w) && ReadAmpersand("&B" + BinString(v, negBits), 0) == Number(v % Pow2(w))
  {
    BinValue(v, negBits);
    BitsRecover(v, negBits);
    hide *;
    ReadDigits('B', BinString(v, negBits), 2);
  }

  lemma OctRoundTrip(v: int, negBits: nat)
    requires MIN64 <= v <= MAX64 && negBits <= 64
    ensures var w := Bits(v, negBits);
            Recovers(v, w) && ReadAmpersand("&O" + OctString(v, negBits), 0) == Number(v % Pow2(w))
  {
    OctValue(v, negBits);
    BitsRecover(v, negBits);
    ReadDigits('O', OctString(v, negBits), 8);
  }

  /** The same for HEX$, for every value and size except -1 where no digits are asked for. */
  lemma HexRoundTrip(v: int, negSize: nat)
    requires MIN64 <= v <= MAX64 && negSize <= 16
    ensures var w := 4 * HexSize(v, negSize);
            Recovers(v, w) && ReadAmpersand("&H" + HexString(v, negSize), 0) == Number(v % Pow2(w))
            <==> !(v == -1 && negSize == 0)
  {
    HexValue(v, negSize);
    if !(v == -1 && negSize == 0) {
      ReadDigits('H', HexString(v, negSize), 16);
    }
  }

  /** There nothing is printed, and zero read back. */
  lemma HexOfMinusOneIsEmpty()
    ensures HexString(-1, 0) == "" && ReadAmpersand("&H" + HexString(-1, 0), 0) == Number(0)
  {
    NoNibbles(-1);
    assert "&H" + "" == "&H";
  }

  // --------------------------------------------------------------------------------------
  // Decimal integers
  // --------------------------------------------------------------------------------------

  lemma Saturate(value: int, n: int, d: int)
    requires 0 <= n && 0 <= d < 10 && value == Min(n, WORD - 1)
    ensures Min(n * 10 + d, WORD - 1) ==
            if value > (WORD - 1) / 10 || (value == (WORD - 1) / 10 && d > (WORD - 1) % 10) then WORD - 1 else value * 10 + d
  {}

  /** The array the significant digits are stored in has this many places. */
  const PLACES: nat := 256

  /** The next digit before the decimal point: the value is kept at the largest one once the
      digits d denote more, and the significant ones stand one after the other in the array. A
      digit more than the array has places is written behind it; `inside` says that this has not
      happened. */
  method Accumulate(ghost d: string, x: char, value: int, significant: nat, store: array<char>)
    returns (value': int, significant': nat, inside: bool)
    requires Stored(d, value, significant, store.Length, store[..]) && DigitOf(x, 10) >= 0
    modifies store
    ensures AllDigits(d + [x], 10) && (inside <==> Significant(d + [x], 10) <= PLACES)
    ensures inside ==> Stored(d + [x], value', significant', store.Length, store[..])
  {
    var c := DigitOf(x, 10);
    AccumulateStep(d, x, value);
    value', significant', inside := value, significant, true;
    if significant > 0 || c > 0 {
      if significant == PLACES {
        return value, significant, false;
      }
      store[significant] := x;
      StoreMore(d, x, significant, old(store[..]), store[..]);
      significant' := significant + 1;
      if value > (WORD - 1) / 10 || (value == (WORD - 1) / 10 && c > (WORD - 1) % 10) {
        value' := WORD - 1;
      } else {
        value' := value * 10 + c;
      }
    } else {
      assert store[..0] == (d + [x])[|d| + 1..];
    }
    hide *;
  }

  ghost predicate Stored(d: string, value: int, significant: nat, places: nat, store: string) {
    && AllDigits(d, 10) && value == Min(Value(d, 10), WORD - 1) && significant == Significant(d, 10) <= places == PLACES == |store|
    && store[..significant] == d[|d| - significant..]
  }

  lemma StoreMore(d: string, x: char, n: nat, before: string, after: string)
    requires n <= |d| && n < |before| && after == before[n := x] && before[..n] == d[|d| - n..]
    ensures after[..n + 1] == (d + [x])[|d| - n..]
  {
    assert after[..n + 1] == before[..n] + [x];
    assert (d + [x])[|d| - n..] == d[|d| - n..] + [x];
  }

  lemma NothingStored(store: string)
    requires |store| == PLACES
    ensures Stored([], 0, 0, PLACES, store)
  {}

  lemma AccumulateStep(d: string, x: char, value: int)
    requires AllDigits(d, 10) && DigitOf(x, 10) >= 0 && value == Min(Value(d, 10), WORD - 1)
    ensures AllDigits(d + [x], 10)
    ensures var c, p := DigitOf(x, 10), Significant(d, 10);
            && Significant(d + [x], 10) == (if p > 0 || c > 0 then p + 1 else 0)
            && Min(Value(d + [x], 10), WORD - 1) ==
               (if p == 0 && c == 0 then value
                else if value > (WORD - 1) / 10 || (value == (WORD - 1) / 10 && c > (WORD - 1) % 10) then WORD - 1
                else value * 10 + c)
  {
    assert (d + [x])[..|d|] == d;
    Saturate(value, Value(d, 10), DigitOf(x, 10));
    LeadBounds(d, 10);
  }

  /** Significant digits are not lost by further ones. */
  lemma {:induction false} MoreSignificant(s: string, i: nat)
    requires AllDigits(s, 10) && i <= |s|
    ensures AllDigits(s[..i], 10) && Significant(s[..i], 10) <= Significant(s, 10)
    decreases |s|
  {
    if i < |s| {
      PrefixDigits(s, |s| - 1, 10);
      MoreSignificant(s[..|s| - 1], i);
      assert s[..|s| - 1][..i] == s[..i];
    } else {
      assert s[..i] == s;
    }
  }

  function Ones(n: nat): (s: string)
    ensures |s| == n && AllDigits(s, 10)
  {
    seq(n, _ => '1')
  }

  /** The shortest string for which the array does not suffice. */
  lemma {:induction false} OnesSignificant(n: nat)
    ensures Significant(Ones(n), 10) == n
  {
    if n > 0 {
      OnesSignificant(n - 1);
      assert Ones(n)[..n - 1] == Ones(n - 1);
    }
  }

  lemma TooManyDigits()
    ensures Significant(Ones(257), 10) > PLACES && Significant(Ones(256), 10) == PLACES
  {
    OnesSignificant(257);
    OnesSignificant(256);
  }

  // --------------------------------------------------------------------------------------
  // The whole string
  // --------------------------------------------------------------------------------------

  predicate Blank(c: char) {
    c == ' ' || c == '\t'
  }

  /** The string without its blanks, which are skipped everywhere. */
  function Stripped(s: string): (t: string)
    ensures |t| <= |s|
  {
    if s == [] then [] else Stripped(s[..|s| - 1]) + (if Blank(s[|s| - 1]) then [] else [s[|s| - 1]])
  }

  /** The first place that is not blank, or the end. */
  function FirstPlace(s: string, i: nat): nat
    requires i <= |s|
    decreases |s| - i
  {
    if i == |s| || !Blank(s[i]) then i else FirstPlace(s, i + 1)
  }

  predicate Sign(c: char) {
    c == '+' || c == '-'
  }

  /** Where the digits begin. */
  function Front(t: string): (f: nat)
    ensures f <= |t|
  {
    if t != [] && Sign(t[0]) then 1 else 0
  }

  predicate Negative(t: string) {
    t != [] && t[0] == '-'
  }

  /** What goes on with a fraction or an exponent. */
  predicate Continues(c: char) {
    c == '.' || 'D' <= c <= 'F' || 'd' <= c <= 'f'
  }

  /** The result: an integer, what stands behind an ampersand, a number with a fraction or an
      exponent (which is left open), or a digit written behind the array. */
  datatype Reading = Integer(n: int) | Prefixed(p: Parsed) | Real | Overrun

  function WithSign(n: int, negate: bool): int {
    if negate then -n else n
  }

  /** The nearest number of 64 bits. */
  function Nearest(n: int): (r: int)
    ensures MIN64 <= r <= MAX64 && (MIN64 <= n <= MAX64 ==> r == n)
  {
    if n < MIN64 then MIN64 else if n > MAX64 then MAX64 else n
  }

  lemma {:induction false} StrippedJoin(s: string, i: nat)
    requires i <= |s|
    ensures Stripped(s) == Stripped(s[..i]) + Stripped(s[i..])
  {
    if i < |s| {
      StrippedJoin(s[..|s| - 1], i);
      assert s[..|s| - 1][..i] == s[..i] && s[..|s| - 1][i..] == s[i..][..|s[i..]| - 1];
    } else {
      assert s[..i] == s;
    }
  }

  lemma StrippedMore(s: string, i: nat)
    requires i < |s|
    ensures Stripped(s[..i + 1]) == Stripped(s[..i]) + (if Blank(s[i]) then [] else [s[i]])
  {
    assert s[..i + 1][..i] == s[..i];
  }

  lemma {:induction false} StrippedFrom(s: string)
    requires s != [] && !Blank(s[0])
    ensures Stripped(s) != [] && Stripped(s)[0] == s[0]
  {
    StrippedJoin(s, 1);
    assert s[..1][..0] == [];
    assert Stripped(s[..1]) == [s[0]];
  }

  /** The stripped string from what has been read of it: the digits so far, and how it goes on. */
  lemma Reached(s: string, i: nat)
    requires i <= |s|
    ensures Stripped(s[..i]) <= Stripped(s)
    ensures i == |s| ==> Stripped(s) == Stripped(s[..i])
    ensures i < |s| && !Blank(s[i]) ==> var n := |Stripped(s[..i])|; n < |Stripped(s)| && Stripped(s)[n] == s[i]
  {
    StrippedJoin(s, i);
    if i < |s| && !Blank(s[i]) {
      StrippedFrom(s[i..]);
    } else if i == |s| {
      assert s[..i] == s;
    }
  }

  /** Where the digits of the stripped string end. */
  lemma DigitsOf(t: string, u: string)
    requires u <= t && AllDigits(u[Front(u)..], 10) && (u == [] && t != [] ==> !Sign(t[0]))
    ensures Front(t) == Front(u) && Negative(t) == Negative(u) && t[Front(t)..|u|] == u[Front(u)..]
    ensures DigitsEnd(t, Front(t), 10) == DigitsEnd(t, |u|, 10)
  {
    assert t[Front(u)..|u|] == u[Front(u)..];
    EndAt(t, Front(u), |u|, 10);
  }

  /** What has been read so far. */
  ghost predicate Sofar(s: string, i: nat, step: nat, negate: bool, value: int, significant: nat, store: string) {
    && i <= |s|
    && var t := Stripped(s[..i]);
    && (step == 0 <==> t == []) && negate == Negative(t)
    && Stored(t[Front(t)..], value, significant, |store|, store)
    && (t == [] ==> FirstPlace(s, 0) == FirstPlace(s, i))
  }

  lemma SofarStart(s: string, store: string)
    requires |store| == PLACES
    ensures Sofar(s, 0, 0, false, 0, 0, store)
  {
    NothingStored(store);
    assert s[..0] == [];
  }

  lemma SofarBlank(s: string, i: nat, step: nat, negate: bool, value: int, significant: nat, store: string)
    requires Sofar(s, i, step, negate, value, significant, store) && i < |s| && Blank(s[i])
    ensures Sofar(s, i + 1, step, negate, value, significant, store)
  {
    StrippedMore(s, i);
    assert Stripped(s[..i + 1]) == Stripped(s[..i]);
    hide Stored, Stripped;
  }

  lemma SofarSign(s: string, i: nat, negate: bool, value: int, significant: nat, store: string)
    requires Sofar(s, i, 0, negate, value, significant, store) && i < |s| && Sign(s[i])
    ensures Sofar(s, i + 1, 1, s[i] == '-', value, significant, store)
  {
    StrippedMore(s, i);
    hide Stored, Stripped, FirstPlace;
    var t, u := Stripped(s[..i]), Stripped(s[..i + 1]);
    assert t == [] && u == [s[i]];
    assert t[Front(t)..] == [] && u[Front(u)..] == [];
  }

  lemma SofarDigit(s: string, i: nat, step: nat, negate: bool, value: int, significant: nat, store: string)
    requires Sofar(s, i, step, negate, value, significant, store) && i < |s| && DigitOf(s[i], 10) >= 0
    ensures var t, u := Stripped(s[..i]), Stripped(s[..i + 1]);
            u == t + [s[i]] && Front(u) == Front(t) && u[Front(u)..] == t[Front(t)..] + [s[i]] && Negative(u) == negate
  {
    StrippedMore(s, i);
    DigitBehind(Stripped(s[..i]), s[i]);
    hide Stripped, Stored, Front, FirstPlace;
  }

  lemma DigitBehind(t: string, c: char)
    requires DigitOf(c, 10) >= 0
    ensures var u := t + [c]; Front(u) == Front(t) && u[Front(u)..] == t[Front(t)..] + [c] && Negative(u) == Negative(t)
  {}

  /** The digits a stripped string begins with, behind its sign. */
  function IntegerPart(t: string): (d: string)
    ensures AllDigits(d, 10)
  {
    t[Front(t)..DigitsEnd(t, Front(t), 10)]
  }

  /** What the string stands for when its digits end at i. */
  lemma Finished(s: string, i: nat, step: nat, negate: bool, value: int, significant: nat, store: string)
    requires Sofar(s, i, step, negate, value, significant, store)
    requires i < |s| ==> !Blank(s[i]) && DigitOf(s[i], 10) < 0 && (step == 0 ==> !Sign(s[i]))
    ensures Negative(Stripped(s)) == negate && Stored(IntegerPart(Stripped(s)), value, significant, |store|, store)
    ensures var t, e := Stripped(s), DigitsEnd(Stripped(s), Front(Stripped(s)), 10);
            if i == |s| then e == |t| else e < |t| && t[e] == s[i]
    ensures Stripped(s) != [] && Stripped(s)[0] == '&' <==> step == 0 && i < |s| && s[i] == '&'
  {
    var t, u := Stripped(s), Stripped(s[..i]);
    Reached(s, i);
    hide Stripped;
    assert u == [] && t != [] ==> !Sign(t[0]);
    assert step != 0 ==> u[0] == t[0] && u[0] != '&' by { if step != 0 { FirstDigit(u); } }
    DigitsOf(t, u);
    assert DigitsEnd(t, |u|, 10) == |u|;
  }

  lemma FirstDigit(u: string)
    requires u != [] && AllDigits(u[Front(u)..], 10)
    ensures u[0] != '&'
  {
    if !Sign(u[0]) {
      assert u[Front(u)..][0] == u[0];
    }
  }

  /** One digit too many so far: the whole string has too many. */
  lemma TooMany(t: string, u: string)
    requires u <= t && u != [] && AllDigits(u[Front(u)..], 10) && Significant(u[Front(u)..], 10) > PLACES
    ensures t[0] != '&' && Significant(t[Front(t)..DigitsEnd(t, Front(t), 10)], 10) > PLACES
  {
    FirstDigit(u);
    DigitsOf(t, u);
    hide *;
    var f, e := Front(t), DigitsEnd(t, Front(t), 10);
    var d, n := t[f..e], |u| - f;
    assert d[..n] == t[f..|u|];
    MoreSignificant(d, n);
  }

  /** What a string is read as: blanks do not count, a sign may stand in front, and the digits are
      read as the nearest number of 64 bits, if no more than 256 are significant. */
  function Meaning(s: string): Reading {
    var t := Stripped(s);
    var f, e := Front(t), DigitsEnd(t, Front(t), 10);
    if t != [] && t[0] == '&' then
      if FirstPlace(s, 0) < |s| then Prefixed(ReadAmpersand(s, FirstPlace(s, 0))) else Prefixed(Overflow)
    else if Significant(t[f..e], 10) > PLACES then Overrun
    else if e < |t| && Continues(t[e]) then Real
    else Integer(Nearest(WithSign(Value(t[f..e], 10), Negative(t))))
  }

  /** A decimal integer, with blanks anywhere: exactly with up to 256 significant digits it is the
      nearest number of 64 bits. */
  lemma DecimalInteger(s: string, sign: string, d: string)
    requires Stripped(s) == sign + d && sign in {"", "+", "-"} && AllDigits(d, 10)
    ensures Meaning(s) == if Significant(d, 10) <= PLACES then Integer(Nearest(WithSign(Value(d, 10), sign == "-"))) else Overrun
  {
    SignedDigits(sign, d);
    hide *;
    MeaningAt(s, |sign|, |sign + d|);
  }

  lemma SignedDigits(sign: string, d: string)
    requires sign in {"", "+", "-"} && AllDigits(d, 10)
    ensures var t := sign + d;
            && Front(t) == |sign| && Negative(t) == (sign == "-") && !(t != [] && t[0] == '&')
            && t[|sign|..|t|] == d && DigitsEnd(t, |sign|, 10) == |t|
  {
    var t := sign + d;
    Behind(sign, d);
    if sign == "" {
      assert t == d;
    } else {
      assert t[0] == sign[0];
    }
    hide Value;
    WholeString(t, |sign|, 10);
  }

  lemma Behind(a: string, b: string)
    ensures (a + b)[|a|..] == b && (a + b)[|a|..|a + b|] == b
  {
    var t := a + b;
    assert forall k :: 0 <= k < |b| ==> t[|a|..][k] == b[k];
  }

  /** What ends the digits decides: a point or one of the letters D, E and F, in either case, makes
      it a number with a fraction or exponent, and anything else ends the integer. */
  lemma DigitsStop(s: string, sign: string, d: string, c: char, rest: string)
    requires Stripped(s) == sign + d + [c] + rest && sign in {"", "+", "-"} && AllDigits(d, 10)
    requires c !in "0123456789" && !(sign == d == "" && c in "+-&")
    ensures Meaning(s) == if Significant(d, 10) > PLACES then Overrun else if c in ".DEFdef" then Real
                          else Integer(Nearest(WithSign(Value(d, 10), sign == "-")))
  {
    var t, u := Stripped(s), sign + d;
    StopFacts(sign, d, c, rest);
    SignedDigits(sign, d);
    hide *;
    DigitsOf(t, u);
    MeaningStops(s, |sign|, |u|);
  }

  lemma StopFacts(sign: string, d: string, c: char, rest: string)
    requires sign in {"", "+", "-"} && AllDigits(d, 10) && c !in "0123456789" && !(sign == d == "" && c in "+-&")
    ensures var t, u := sign + d + [c] + rest, sign + d;
            && u <= t && |u| < |t| && t[|u|] == c && DigitOf(c, 10) < 0 && DigitsEnd(t, |u|, 10) == |u|
            && t[0] != '&' && (u == [] ==> !Sign(t[0])) && (Continues(c) <==> c in ".DEFdef")
            && t[|sign|..|u|] == d && AllDigits(u[Front(u)..], 10) && u[Front(u)..] == d
  {
    var t, u := sign + d + [c] + rest, sign + d;
    assert t[0] == if sign != "" then sign[0] else if d != "" then d[0] else c;
    NoDigit(c);
    Behind(sign, d);
    assert t[|sign|..|u|] == d;
    if d != "" { assert DigitOf(d[0], 10) >= 0; }
  }

  lemma NoDigit(c: char)
    ensures DigitOf(c, 10) >= 0 ==> c in "0123456789"
  {
    if DigitOf(c, 10) >= 0 {
      assert c == "0123456789"[DigitOf(c, 10)];
    }
  }

  lemma MeaningStops(s: string, f: nat, e: nat)
    requires var t := Stripped(s); f == Front(t) && e == DigitsEnd(t, f, 10) < |t| && t[0] != '&'
    ensures var t := Stripped(s);
            && f <= e && AllDigits(t[f..e], 10)
            && Meaning(s) == (if Significant(t[f..e], 10) > PLACES then Overrun else if Continues(t[e]) then Real
                              else Integer(Nearest(WithSign(Value(t[f..e], 10), Negative(t)))))
  {}

  lemma MeaningAt(s: string, f: nat, e: nat)
    requires var t := Stripped(s); f == Front(t) && e == DigitsEnd(t, f, 10) == |t| && !(t != [] && t[0] == '&')
    ensures var t := Stripped(s);
            && f <= |t| && AllDigits(t[f..e], 10)
            && Meaning(s) == (if Significant(t[f..e], 10) > PLACES then Overrun
                              else Integer(Nearest(WithSign(Value(t[f..e], 10), Negative(t)))))
  {}

  lemma MeaningEnds(s: string, i: nat, step: nat, negate: bool, value: int, significant: nat, store: string) returns (n: nat)
    requires Sofar(s, i, step, negate, value, significant, store)
    requires i < |s| ==> !Blank(s[i]) && DigitOf(s[i], 10) < 0 && (step == 0 ==> !Sign(s[i]))
    ensures value == Min(n, WORD - 1)
    ensures Meaning(s) == if i < |s| && s[i] == '&' && step == 0 then Prefixed(ReadAmpersand(s, i))
                          else if i < |s| && Continues(s[i]) then Real
                          else Integer(Nearest(WithSign(n, negate)))
  {
    var t := Stripped(s);
    var f, e := Front(t), DigitsEnd(t, Front(t), 10);
    n := Value(t[f..e], 10);
    Finished(s, i, step, negate, value, significant, store);
    FewEnough(s, i, step, negate, value, significant, store);
    if i < |s| && step == 0 {
      FirstAt(s, i, negate, value, significant, store);
    }
    hide Sofar, Stripped, Front, DigitsEnd, Significant, Value, ReadAmpersand, FirstPlace, Nearest, WithSign, Negative, AllDigits, DigitOf;
  }

  lemma FewEnough(s: string, i: nat, step: nat, negate: bool, value: int, significant: nat, store: string)
    requires Sofar(s, i, step, negate, value, significant, store)
    ensures significant <= PLACES && i <= |s|
  {}

  lemma FirstAt(s: string, i: nat, negate: bool, value: int, significant: nat, store: string)
    requires Sofar(s, i, 0, negate, value, significant, store) && i < |s| && !Blank(s[i])
    ensures FirstPlace(s, 0) == i
  {
    hide Stored, Stripped;
  }

  /** Up to the first character that does not belong to an integer, or the digit that is written
      behind the array. */
  method Scan(s: string, store: array<char>) returns (value: int, ghost significant: nat, negate: bool, step: nat, i: nat, inside: bool)
    requires store.Length == PLACES
    modifies store
    ensures !inside ==> Meaning(s) == Overrun
    ensures inside ==> Sofar(s, i, step, negate, value, significant, store[..]) && i <= |s|
    ensures inside && i < |s| ==> !Blank(s[i]) && DigitOf(s[i], 10) < 0 && (step == 0 ==> !Sign(s[i]))
  {
    var n: nat;
    value, n, negate, step, i, inside := 0, 0, false, 0, 0, true;
    SofarStart(s, store[..]);
    hide *;
    while i < |s| && (Blank(s[i]) || (Sign(s[i]) && step == 0) || DigitOf(s[i], 10) >= 0)
      invariant Sofar(s, i, step, negate, value, n, store[..]) && i <= |s|
    {
      if Blank(s[i]) {
        SofarBlank(s, i, step, negate, value, n, store[..]);
      } else if Sign(s[i]) && step == 0 {
        SofarSign(s, i, negate, value, n, store[..]);
        negate, step := s[i] == '-', 1;
      } else {
        value, n, inside := Digit(s, i, step, negate, value, n, store);
        step := 1;
        if !inside {
          return value, n, negate, step, i, false;
        }
      }
      i := i + 1;
    }
    significant := n;
  }

  /** VAL, but for numbers with a fraction or an exponent. */
  method ReadNumber(s: string, store: array<char>) returns (r: Reading)
    requires store.Length == PLACES
    modifies store
    ensures r == Meaning(s)
  {
    ghost var significant;
    var value, negate, step, i, inside;
    value, significant, negate, step, i, inside := Scan(s, store);
    if !inside {
      return Overrun;
    }
    ghost var n := MeaningEnds(s, i, step, negate, value, significant, store[..]);
    hide *;
    if i < |s| && s[i] == '&' && step == 0 {
      var p := NonDecimal(s, i);
      return Prefixed(p);
    }
    if i < |s| && Continues(s[i]) {
      return Real;
    }
    var m := Limited(value, negate, n);
    r := Integer(m);
  }

  method Digit(s: string, i: nat, ghost step: nat, negate: bool, value: int, significant: nat, store: array<char>)
    returns (value': int, significant': nat, inside: bool)
    requires Sofar(s, i, step, negate, value, significant, store[..]) && i < |s| && DigitOf(s[i], 10) >= 0
    modifies store
    ensures inside ==> Sofar(s, i + 1, 1, negate, value', significant', store[..])
    ensures !inside ==> Meaning(s) == Overrun
  {
    ghost var t, u := Stripped(s[..i]), Stripped(s[..i + 1]);
    SofarDigit(s, i, step, negate, value, significant, store[..]);
    Reached(s, i + 1);
    hide Stripped, Stored, Significant, Value, DigitsEnd, ReadAmpersand, FirstPlace, Nearest, WithSign;
    value', significant', inside := Accumulate(t[Front(t)..], s[i], value, significant, store);
    if !inside {
      TooMany(Stripped(s), u);
    }
  }

  /** The value with its sign, limited to 64 bits. */
  method Limited(value: int, negate: bool, ghost n: int) returns (r: int)
    requires value == Min(n, WORD - 1) && 0 <= n
    ensures r == Nearest(WithSign(n, negate))
  {
    if !negate && value > MAX64 {
      return MAX64;
    }
    if negate && value > MAX64 + 1 {
      return MIN64;
    }
    r := WithSign(value, negate);
  }
}
