/** Numerals: what a sequence of digits means and which digits a number has. */
module Digits {
  import opened HttpChars

  /** The value of a digit, decimal or hexadecimal. */
  function DigitValue(c: Byte): nat {
    if Unhex(c) < 0 then 0 else Unhex(c)
  }

  predicate AreDigits(base: nat, d: seq<Byte>) {
    forall i :: 0 <= i < |d| ==> 0 <= Unhex(d[i]) < base
  }

  /** The value of the digits d written behind a number of value v. */
  function ValueFrom(v: nat, base: nat, d: seq<Byte>): nat
    decreases |d|
  {
    if d == [] then v else ValueFrom(v, base, d[..|d| - 1]) * base + DigitValue(d[|d| - 1])
  }

  function ValueOf(base: nat, d: seq<Byte>): nat { ValueFrom(0, base, d) }

  lemma {:induction false} ValueFromConcat(v: nat, base: nat, a: seq<Byte>, b: seq<Byte>)
    ensures ValueFrom(v, base, a + b) == ValueFrom(ValueFrom(v, base, a), base, b)
    decreases |b|
  {
    if b == [] {
      assert a + b == a;
    } else {
      ValueFromConcat(v, base, a, b[..|b| - 1]);
      assert (a + b)[..|a + b| - 1] == a + b[..|b| - 1];
    }
  }

  /** More digits never make a number smaller. */
  lemma {:induction false} ValueFromGrows(v: nat, base: nat, d: seq<Byte>)
    requires base > 0
    ensures v <= ValueFrom(v, base, d)
    decreases |d|
  {
    if d != [] {
      ValueFromGrows(v, base, d[..|d| - 1]);
      var w := ValueFrom(v, base, d[..|d| - 1]);
      assert w * base >= w;
    }
  }

  /** 0-9, then a-f or A-F */
  function DigitChar(v: nat, upper: bool): Byte
    requires v < 16
  {
    if v < 10 then 48 + v else if upper then 55 + v else 87 + v
  }

  lemma DigitCharValue(v: nat, upper: bool)
    requires v < 16
    ensures Unhex(DigitChar(v, upper)) == v
  {}

  /** The shortest numeral of v. */
  function Numeral(v: nat, base: nat, upper: bool): (d: seq<Byte>)
    requires 2 <= base <= 16
    ensures |d| > 0 && AreDigits(base, d)
    decreases v
  {
    var c := DigitChar(v % base, upper);
    DigitCharValue(v % base, upper);
    if v < base then [c] else
      Shrinks(v, base);
      Numeral(v / base, base, upper) + [c]
  }

  lemma Shrinks(v: nat, base: nat)
    requires 2 <= base <= v
    ensures v / base < v
  {
    var q := v / base;
    assert v == q * base + v % base;
    assert q * 2 <= q * base;
  }

  /** A numeral means the number it was made from. */
  lemma {:induction false} NumeralValue(v: nat, base: nat, upper: bool)
    requires 2 <= base <= 16
    ensures ValueOf(base, Numeral(v, base, upper)) == v
    decreases v
  {
    var d := Numeral(v, base, upper);
    DigitCharValue(v % base, upper);
    if v < base {
      assert d[..0] == [] && ValueOf(base, d[..0]) == 0;
      assert v % base == v;
    } else {
      Shrinks(v, base);
      NumeralValue(v / base, base, upper);
      assert d[..|d| - 1] == Numeral(v / base, base, upper);
    }
  }

  function Power(base: nat, n: nat): nat { if n == 0 then 1 else base * Power(base, n - 1) }

  /** A number below base^n has at most n digits. */
  lemma {:induction false} NumeralLength(v: nat, base: nat, upper: bool, n: nat)
    requires 2 <= base <= 16 && n > 0 && v < Power(base, n)
    ensures |Numeral(v, base, upper)| <= n
    decreases n
  {
    assert Power(base, 1) == base * Power(base, 0) == base;
    if v >= base && n > 1 {
      Quotient(v, base, Power(base, n - 1));
      NumeralLength(v / base, base, upper, n - 1);
    }
  }

  lemma Quotient(v: nat, base: nat, w: nat)
    requires base > 0 && v < base * w
    ensures v / base < w
  {
    var q := v / base;
    assert v == q * base + v % base;
    assert base * q < base * w;
  }
}
