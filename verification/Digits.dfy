/** Strings of digits and the numbers they denote, for the printers of hexoctbin.cpp and the
    parser of qbs_val.cpp. */
module Digits {
  import opened Powers
  import opened Arith

  /** b to the power n. */
  function Pow(b: nat, n: nat): (r: nat)
    requires b > 0
    ensures r > 0
  {
    if n == 0 then 1 else Pow(b, n - 1) * b
  }

  /** The number a digit character stands for in base b, or -1. */
  function DigitOf(c: char, b: nat): (d: int)
    ensures -1 <= d < 16 && d < (if b > 0 then b else 1)
  {
    var d := if '0' <= c <= '9' then c as int - '0' as int
             else if 'A' <= c <= 'F' then c as int - 'A' as int + 10
             else if 'a' <= c <= 'f' then c as int - 'a' as int + 10
             else -1;
    if d < b then d else -1
  }

  /** The character of a digit: 48 or 55 is added. */
  function CharOf(d: nat): char
    requires d < 16
  {
    if d > 9 then (d + 55) as char else (d + 48) as char
  }

  /** The digits in order; letters are read in both cases. */
  lemma Alphabet(d: nat, b: nat)
    requires d < b <= 16
    ensures CharOf(d) == "0123456789ABCDEF"[d]
    ensures DigitOf("0123456789ABCDEF"[d], b) == DigitOf("0123456789abcdef"[d], b) == d
  {}

  predicate AllDigits(s: string, b: nat) {
    forall i :: 0 <= i < |s| ==> DigitOf(s[i], b) >= 0
  }

  /** The number a string of digits denotes. */
  function Value(s: string, b: nat): (r: nat)
    requires b > 0 && AllDigits(s, b)
  {
    if s == [] then 0 else Value(s[..|s| - 1], b) * b + DigitOf(s[|s| - 1], b)
  }

  /** The n lowest digits of a number, in two's complement if it is negative. */
  function Print(v: int, b: nat, n: nat): (s: string)
    requires 2 <= b <= 16
    ensures |s| == n
  {
    if n == 0 then [] else [CharOf(v / Pow(b, n - 1) % b)] + Print(v, b, n - 1)
  }

  lemma CharDigit(d: nat, b: nat)
    requires d < b <= 16
    ensures DigitOf(CharOf(d), b) == d
  {}

  lemma {:induction false} PrintDigits(v: int, b: nat, n: nat)
    requires 2 <= b <= 16
    ensures AllDigits(Print(v, b, n), b)
  {
    if n > 0 {
      PrintDigits(v, b, n - 1);
      CharDigit(v / Pow(b, n - 1) % b, b);
    }
  }

  lemma TailDigits(c: char, s: string, b: nat)
    requires AllDigits([c] + s, b)
    ensures DigitOf(c, b) >= 0 && AllDigits(s, b)
  {
    assert forall i :: 0 <= i < |s| ==> s[i] == ([c] + s)[i + 1];
    assert DigitOf(([c] + s)[0], b) >= 0;
  }

  lemma {:induction false} ValueCons(c: char, s: string, b: nat)
    requires b > 0 && AllDigits([c] + s, b)
    ensures DigitOf(c, b) >= 0 && AllDigits(s, b) && Value([c] + s, b) == DigitOf(c, b) * Pow(b, |s|) + Value(s, b)
  {
    TailDigits(c, s, b);
    var t := [c] + s;
    if s == [] {
      assert t[..0] == [];
      assert Value(t[..0], b) == 0;
    } else {
      var r := s[..|s| - 1];
      assert t[..|t| - 1] == [c] + r && t[|t| - 1] == s[|s| - 1];
      ValueCons(c, r, b);
      Distribute(DigitOf(c, b) * Pow(b, |r|), Value(r, b), b);
      Associate(DigitOf(c, b), Pow(b, |r|), b);
    }
  }

  lemma {:induction false} ValueBelow(s: string, b: nat)
    requires b > 0 && AllDigits(s, b)
    ensures Value(s, b) < Pow(b, |s|)
  {
    if s != [] {
      var r := s[..|s| - 1];
      ValueBelow(r, b);
      MulMono(Value(r, b) + 1, Pow(b, |r|), b);
      Distribute(Value(r, b), 1, b);
    }
  }

  /** A number printed with n digits denotes its remainder by b to the n. */
  lemma {:induction false} PrintValue(v: int, b: nat, n: nat)
    requires 2 <= b <= 16
    ensures AllDigits(Print(v, b, n), b) && Value(Print(v, b, n), b) == v % Pow(b, n)
  {
    PrintDigits(v, b, n);
    if n > 0 {
      PrintValue(v, b, n - 1);
      var d := v / Pow(b, n - 1) % b;
      CharDigit(d, b);
      ValueCons(CharOf(d), Print(v, b, n - 1), b);
      ModSplit(v, Pow(b, n - 1), b);
    }
  }

  lemma {:induction false} PowTwo(k: nat, n: nat)
    ensures Pow(Pow2(k), n) == Pow2(k * n)
  {
    if n > 0 {
      PowTwo(k, n - 1);
      Pow2Add(k * (n - 1), k);
      assert k * n == k * (n - 1) + k;
    }
  }
}
