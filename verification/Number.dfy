/** The number printer of cc_util/cc_snprintf.c and the number readers of cc_util/cc_buffer.c. */
module Number {
  import opened HttpChars
  import opened Digits

  newtype U32 = x: int | 0 <= x < 0x1_0000_0000
  newtype U64 = x: int | 0 <= x < 0x1_0000_0000_0000_0000

  // ----- What is printed -----

  /** The base of a value of the parameter hexadecimal: 0 decimal, 1 hexadecimal, else upper case. */
  function Base(hexadecimal: nat): nat { if hexadecimal == 0 then 10 else 16 }

  function Prefix(hexadecimal: nat): seq<Byte> {
    if hexadecimal == 0 then [] else if hexadecimal == 1 then [48, 120] else [48, 88]
  }

  /** The text of a number, before it is padded. */
  function Text(v: nat, hexadecimal: nat, sign: bool): seq<Byte> {
    (if sign then [MINUS] else []) + Prefix(hexadecimal) + Numeral(v, Base(hexadecimal), hexadecimal > 1)
  }

  function Fill(zero: Byte, n: nat): (s: seq<Byte>)
    ensures |s| == n && forall i :: 0 <= i < n ==> s[i] == zero
  {
    if n == 0 then [] else Fill(zero, n - 1) + [zero]
  }

  /** Padding in front, or behind when filled on the left; what does not fit into room is cut off. */
  function Padded(text: seq<Byte>, zero: Byte, width: nat, leftFill: bool, room: nat): seq<Byte> {
    var pad := Least(if |text| < width then width - |text| else 0, room);
    var kept := text[..Least(|text|, room - pad)];
    if leftFill then kept + Fill(zero, pad) else Fill(zero, pad) + kept
  }

  function Least(a: nat, b: nat): nat { if a < b then a else b }

  // ----- Digit loops -----

  /** temp of cc_sprintf_num: digits are written backwards from TEMP_LEN. */
  const TEMP_LEN: nat := 22

  /** d stands in temp from p on. */
  ghost predicate Holds(temp: array<Byte>, p: nat, d: seq<Byte>)
    reads temp
  {
    temp.Length == TEMP_LEN + 1 && p + |d| == TEMP_LEN && temp[p..TEMP_LEN] == d
  }

  method Push(temp: array<Byte>, p: nat, c: Byte, ghost d: seq<Byte>) returns (q: nat)
    requires p > 0 && Holds(temp, p, d)
    modifies temp
    ensures q == p - 1 && Holds(temp, q, [c] + d)
  {
    q := p - 1;
    temp[q] := c;
    assert temp[q..TEMP_LEN] == [c] + temp[p..TEMP_LEN];
  }

  /** The digits still to be written when v is left. */
  function Rest(v: nat, base: nat, upper: bool): seq<Byte>
    requires 2 <= base <= 16
  {
    if v == 0 then [] else Numeral(v, base, upper)
  }

  lemma LastDigit(v: nat, base: nat, upper: bool)
    requires 2 <= base <= 16
    ensures Numeral(v, base, upper) == Rest(v / base, base, upper) + [DigitChar(v % base, upper)]
    ensures v > 0 ==> v / base < v
  {
    var c := DigitChar(v % base, upper);
    if v < base {
      assert v / base == 0;
      assert [] + [c] == [c];
    } else {
      Shrinks(v, base);
      assert v / base > 0;
    }
  }

  /** One more digit in front of d. */
  lemma MoreDigits(v: nat, base: nat, upper: bool, d: seq<Byte>)
    requires 2 <= base <= 16
    ensures Numeral(v, base, upper) + d == Rest(v / base, base, upper) + ([DigitChar(v % base, upper)] + d)
    ensures v > 0 ==> v / base < v
  {
    hide Numeral, Rest;
    LastDigit(v, base, upper);
    var r, c := Rest(v / base, base, upper), DigitChar(v % base, upper);
    assert r + [c] + d == r + ([c] + d);
  }

  /** The digits written so far leave room in front for those still to come, three more and the prefix. */
  lemma Room(v: nat, base: nat, upper: bool, d: seq<Byte>, n: nat)
    requires 2 <= base <= 16 && Rest(v, base, upper) + d == Numeral(n, base, upper) && |Numeral(n, base, upper)| <= 20
    ensures |d| <= 20 && (v > 0 ==> |d| < 20)
  {}

  /** A number of 64 bits has at most 20 decimal or 16 hexadecimal digits. */
  lemma Widths(v: U64)
    ensures |Numeral(v as nat, 10, false)| <= 20
    ensures |Numeral(v as nat, 16, false)| <= 16 && |Numeral(v as nat, 16, true)| <= 16
  {
    TenToThe20();
    SixteenToThe16();
    NumeralLength(v as nat, 10, false, 20);
    NumeralLength(v as nat, 16, false, 16);
    NumeralLength(v as nat, 16, true, 16);
  }

  lemma TenToThe20()
    ensures Power(10, 20) == 100_000_000_000_000_000_000
  {
    assert Power(10, 5) == 100_000;
    assert Power(10, 10) == 10_000_000_000;
    assert Power(10, 15) == 1_000_000_000_000_000;
  }

  lemma SixteenToThe16()
    ensures Power(16, 16) == 0x1_0000_0000_0000_0000
  {
    assert Power(16, 4) == 0x1_0000;
    assert Power(16, 8) == 0x1_0000_0000;
    assert Power(16, 12) == 0x1_0000_0000_0000;
  }

  /** The loop on ui32. */
  method Digits32(temp: array<Byte>, v0: U32) returns (p: nat)
    requires temp.Length == TEMP_LEN + 1
    modifies temp
    ensures Holds(temp, p, Numeral(v0 as nat, 10, false)) && p >= 2
  {
    hide Numeral, Rest, Power;
    var v := v0;
    ghost var d: seq<Byte> := [];
    Widths(v0 as U64);
    assert temp[TEMP_LEN..TEMP_LEN] == [];
    MoreDigits(v as nat, 10, false, d);
    assert Numeral(v0 as nat, 10, false) + [] == Numeral(v0 as nat, 10, false);
    p := Push(temp, TEMP_LEN, DigitChar((v % 10) as nat, false), d);
    d, v := [DigitChar((v % 10) as nat, false)] + d, v / 10;
    while v != 0
      invariant Holds(temp, p, d)
      invariant Rest(v as nat, 10, false) + d == Numeral(v0 as nat, 10, false)
      decreases v
    {
      Room(v as nat, 10, false, d, v0 as nat);
      RestOf(v as nat, 10, false);
      MoreDigits(v as nat, 10, false, d);
      p := Push(temp, p, DigitChar((v % 10) as nat, false), d);
      d, v := [DigitChar((v % 10) as nat, false)] + d, v / 10;
    }
    Room(0, 10, false, d, v0 as nat);
    RestOf(0, 10, false);
    assert [] + d == d;
  }

  lemma RestOf(v: nat, base: nat, upper: bool)
    requires 2 <= base <= 16
    ensures Rest(v, base, upper) == if v == 0 then [] else Numeral(v, base, upper)
  {}

  /** The loops on ui64: decimal, or hexadecimal by the low four bits. */
  method Digits64(temp: array<Byte>, v0: U64, base: U64, upper: bool) returns (p: nat)
    requires temp.Length == TEMP_LEN + 1 && (base == 16 || (base == 10 && !upper))
    modifies temp
    ensures Holds(temp, p, Numeral(v0 as nat, base as nat, upper)) && p >= if base == 16 then 6 else 2
  {
    hide Numeral, Rest, Power;
    var v := v0;
    ghost var b, d: seq<Byte> := base as nat, [];
    Widths(v0);
    assert temp[TEMP_LEN..TEMP_LEN] == [];
    MoreDigits(v as nat, b, upper, d);
    assert Numeral(v0 as nat, b, upper) + [] == Numeral(v0 as nat, b, upper);
    p := Push(temp, TEMP_LEN, DigitChar((v % base) as nat, upper), d);
    d, v := [DigitChar((v % base) as nat, upper)] + d, v / base;
    while v != 0
      invariant Holds(temp, p, d)
      invariant Rest(v as nat, b, upper) + d == Numeral(v0 as nat, b, upper)
      decreases v
    {
      Room(v as nat, b, upper, d, v0 as nat);
      RestOf(v as nat, b, upper);
      MoreDigits(v as nat, b, upper, d);
      p := Push(temp, p, DigitChar((v % base) as nat, upper), d);
      d, v := [DigitChar((v % base) as nat, upper)] + d, v / base;
    }
    Room(0, b, upper, d, v0 as nat);
    RestOf(0, b, upper);
    assert [] + d == d;
  }

  // ----- cc_reverse -----

  function Reversed<T>(s: seq<T>): (r: seq<T>)
    ensures |r| == |s|
    decreases |s|
  {
    if s == [] then [] else [s[|s| - 1]] + Reversed(s[..|s| - 1])
  }

  lemma {:induction false} ReversedAt<T>(s: seq<T>, k: nat)
    requires k < |s|
    ensures Reversed(s)[k] == s[|s| - 1 - k]
    decreases |s|
  {
    if k > 0 {
      ReversedAt(s[..|s| - 1], k - 1);
    }
  }

  lemma {:induction false} ReversedConcat<T>(a: seq<T>, b: seq<T>)
    ensures Reversed(a + b) == Reversed(b) + Reversed(a)
    decreases |b|
  {
    if b == [] {
      assert a + b == a && Reversed(b) == [];
    } else {
      var n := |b| - 1;
      ReversedConcat(a, b[..n]);
      assert (a + b)[..|a + b| - 1] == a + b[..n] && (a + b)[|a + b| - 1] == b[n];
      var r, s := Reversed(b[..n]), Reversed(a);
      assert Reversed(a + b) == [b[n]] + (r + s) && Reversed(b) == [b[n]] + r;
    }
  }

  lemma {:induction false} ReversedTwice<T>(s: seq<T>)
    ensures Reversed(Reversed(s)) == s
    decreases |s|
  {
    if s != [] {
      var n := |s| - 1;
      ReversedTwice(s[..n]);
      ReversedConcat([s[n]], Reversed(s[..n]));
      assert Reversed([s[n]]) == [s[n]] by {
        assert [s[n]][..0] == [];
      }
    }
  }

  /** Three reversals exchange the two parts of a text. */
  lemma ThreeReversals<T>(a: seq<T>, b: seq<T>)
    ensures Reversed(Reversed(a) + Reversed(b)) == b + a
  {
    ReversedConcat(Reversed(a), Reversed(b));
    ReversedTwice(a);
    ReversedTwice(b);
  }

  /** a with the part from start to end replaced by s. */
  ghost predicate Spliced(before: seq<Byte>, after: seq<Byte>, start: nat, s: seq<Byte>) {
    |before| == |after| && start + |s| <= |before|
    && after == before[..start] + s + before[start + |s|..]
  }

  lemma ReversedPart(before: seq<Byte>, after: seq<Byte>, start: nat, end: nat)
    requires start <= end <= |before| == |after|
    requires forall k :: start <= k < end ==> after[k] == before[end - 1 - (k - start)]
    requires forall k :: 0 <= k < start || end <= k < |before| ==> after[k] == before[k]
    ensures Spliced(before, after, start, Reversed(before[start..end]))
  {
    hide Reversed;
    var was := before[start..end];
    forall k | 0 <= k < end - start
      ensures after[start..end][k] == Reversed(was)[k]
    {
      ReversedAt(was, k);
    }
    assert after[start..end] == Reversed(was);
    assert after == after[..start] + after[start..end] + after[end..];
    assert after[..start] == before[..start] && after[end..] == before[end..];
  }

  /** cc_reverse */
  method Reverse(a: array<Byte>, start: nat, end: nat)
    requires start <= end <= a.Length
    modifies a
    ensures Spliced(old(a[..]), a[..], start, Reversed(old(a[start..end])))
  {
    var i, j: int := start, end;
    j := j - 1;
    while i < j
      invariant start <= i <= j + 1 <= end && i - start == end - 1 - j
      invariant forall k :: start <= k < i ==> a[k] == old(a[end - 1 - (k - start)])
      invariant forall k :: j < k < end ==> a[k] == old(a[end - 1 - (k - start)])
      invariant forall k :: i <= k <= j ==> a[k] == old(a[k])
      invariant forall k :: 0 <= k < start || end <= k < a.Length ==> a[k] == old(a[k])
    {
      var temp := a[i];
      a[i] := a[j];
      a[j] := temp;
      i := i + 1;
      j := j - 1;
    }
    ReversedPart(old(a[..]), a[..], start, end);
    assert old(a[start..end]) == old(a[..])[start..end];
  }

  lemma SplicedThen(a: seq<Byte>, b: seq<Byte>, c: seq<Byte>, start: nat, s: seq<Byte>, t: seq<Byte>)
    requires Spliced(a, b, start, s) && Spliced(b, c, start + |s|, t)
    ensures Spliced(a, c, start, s + t)
  {
    assert b[..start + |s|] == a[..start] + s;
    assert b[start + |s| + |t|..] == a[start + |s| + |t|..];
    assert a[..start] + s + t == a[..start] + (s + t);
  }

  lemma SplicedOver(a: seq<Byte>, b: seq<Byte>, c: seq<Byte>, start: nat, s: seq<Byte>, t: seq<Byte>)
    requires Spliced(a, b, start, s) && Spliced(b, c, start, t) && |s| == |t|
    ensures Spliced(a, c, start, t)
  {
    assert b[..start] == a[..start] && b[start + |s|..] == a[start + |s|..];
  }

  lemma SplicedPart(a: seq<Byte>, b: seq<Byte>, start: nat, s: seq<Byte>)
    requires Spliced(a, b, start, s)
    ensures b[start..start + |s|] == s
  {}

  lemma SplicedNothing(a: seq<Byte>, start: nat)
    requires start <= |a|
    ensures Spliced(a, a, start, [])
  {
    assert a[..start] + [] + a[start..] == a;
  }

  /** The padding loop. */
  method Pad(out: array<Byte>, start: nat, last: nat, zero: Byte, length: nat, width: nat) returns (buf: nat)
    requires start <= last <= out.Length
    modifies out
    ensures start <= buf <= last
    ensures buf == start + Least(if length < width then width - length else 0, last - start)
    ensures Spliced(old(out[..]), out[..], start, Fill(zero, buf - start))
  {
    buf := start;
    var len := length;
    SplicedNothing(out[..], start);
    while len < width && buf < last
      invariant start <= buf <= last && len - length == buf - start && (len <= width || buf == start)
      invariant Spliced(old(out[..]), out[..], start, Fill(zero, buf - start))
    {
      ghost var b := out[..];
      out[buf] := zero;
      SplicedOne(b, out[..], buf, zero);
      SplicedThen(old(out[..]), b, out[..], start, Fill(zero, buf - start), [zero]);
      len, buf := len + 1, buf + 1;
    }
  }

  lemma SplicedOne(a: seq<Byte>, b: seq<Byte>, i: nat, c: Byte)
    requires i < |a| && b == a[i := c]
    ensures Spliced(a, b, i, [c])
  {}

  /** memcpy of len bytes of temp from p */
  method Copy(out: array<Byte>, buf: nat, temp: array<Byte>, p: nat, len: nat)
    requires buf + len <= out.Length && p + len <= temp.Length && out != temp
    modifies out
    ensures Spliced(old(out[..]), out[..], buf, temp[p..p + len])
  {
    forall i | 0 <= i < len {
      out[buf + i] := temp[p + i];
    }
  }

  /** The text of a number, written backwards into temp. */
  method WriteText(temp: array<Byte>, value: U64, hexadecimal: nat, sign: bool) returns (p: nat)
    requires temp.Length == TEMP_LEN + 1
    modifies temp
    ensures Holds(temp, p, Text(value as nat, hexadecimal, sign))
  {
    hide Numeral;
    ghost var d := Numeral(value as nat, Base(hexadecimal), hexadecimal > 1);
    if hexadecimal == 0 {
      if value <= 0xffff_ffff {
        p := Digits32(temp, value as U32);
      } else {
        p := Digits64(temp, value, 10, false);
      }
      assert [] + d == d;
    } else {
      p := Digits64(temp, value, 16, hexadecimal > 1);
      p := Push(temp, p, if hexadecimal == 1 then 120 else 88, d);
      p := Push(temp, p, 48, [if hexadecimal == 1 then 120 else 88] + d);
      assert Prefix(hexadecimal) + d == [48] + ([if hexadecimal == 1 then 120 else 88] + d);
    }
    d := Prefix(hexadecimal) + d;
    if sign {
      p := Push(temp, p, MINUS, d);
    }
    SignInFront(value as nat, hexadecimal, sign);
  }

  lemma SignInFront(v: nat, hexadecimal: nat, sign: bool)
    ensures var d := Prefix(hexadecimal) + Numeral(v, Base(hexadecimal), hexadecimal > 1);
      Text(v, hexadecimal, sign) == if sign then [MINUS] + d else d
  {
    hide Numeral;
    var n := Numeral(v, Base(hexadecimal), hexadecimal > 1);
    assert [MINUS] + Prefix(hexadecimal) + n == [MINUS] + (Prefix(hexadecimal) + n);
    assert [] + Prefix(hexadecimal) + n == Prefix(hexadecimal) + n;
  }

  /** cc_sprintf_num, writing at start and at most up to last; end is the pointer returned. */
  method SprintfNum(out: array<Byte>, start: nat, last: nat, value: U64, zero: Byte, hexadecimal: nat, width: nat,
                    leftFill: bool, sign: bool)
    returns (end: nat)
    requires start <= last <= out.Length
    modifies out
    ensures Spliced(old(out[..]), out[..], start,
                    Padded(Text(value as nat, hexadecimal, sign), zero, width, leftFill, last - start))
    ensures end == start + |Padded(Text(value as nat, hexadecimal, sign), zero, width, leftFill, last - start)|
  {
    hide Text, Spliced, Numeral, Fill, Padded, Least;
    var temp := new Byte[TEMP_LEN + 1];
    var p := WriteText(temp, value, hexadecimal, sign);
    ghost var text := Text(value as nat, hexadecimal, sign);
    var mid := Pad(out, start, last, zero, TEMP_LEN - p, width);
    var len := TEMP_LEN - p;
    if mid + len > last {
      len := last - mid;
    }
    end := mid + len;
    ghost var before, padded := old(out[..]), out[..];
    ghost var fill, kept := Fill(zero, mid - start), text[..len];
    PaddedParts(text, zero, width, leftFill, last - start, mid - start, len);
    KeptPart(temp[..], p, text, len);
    Copy(out, mid, temp, p, len);
    ghost var printed := out[..];
    SplicedThen(before, padded, printed, start, fill, kept);
    Arrange(out, start, mid, end, leftFill, before, fill, kept);
  }

  /** Behind the copied digits: when filling on the left, digits and padding exchange places. */
  method Arrange(out: array<Byte>, start: nat, mid: nat, end: nat, leftFill: bool,
                 ghost before: seq<Byte>, ghost fill: seq<Byte>, ghost kept: seq<Byte>)
    requires mid == start + |fill| && end == mid + |kept| && end <= out.Length
    requires Spliced(before, out[..], start, fill + kept)
    modifies out
    ensures Spliced(before, out[..], start, if leftFill then kept + fill else fill + kept)
  {
    hide Spliced;
    ghost var printed := out[..];
    if leftFill && mid - start > 0 && end - mid > 0 {
      TwoParts(before, printed, start, fill, kept);
      Exchange(out, start, mid, end);
      SplicedOver(before, printed, out[..], start, fill + kept, kept + fill);
    } else {
      OnePart(fill, kept);
    }
  }

  lemma PaddedParts(text: seq<Byte>, zero: Byte, width: nat, leftFill: bool, room: nat, pad: nat, len: nat)
    requires pad == Least(if |text| < width then width - |text| else 0, room)
    requires len == if pad + |text| > room then room - pad else |text|
    ensures var fill, kept := Fill(zero, pad), text[..len];
      Padded(text, zero, width, leftFill, room) == if leftFill then kept + fill else fill + kept
  {}

  lemma KeptPart(temp: seq<Byte>, p: nat, text: seq<Byte>, len: nat)
    requires |temp| == TEMP_LEN + 1 && p + |text| == TEMP_LEN && temp[p..TEMP_LEN] == text && len <= |text|
    ensures temp[p..p + len] == text[..len]
  {
    SliceOfSlice(temp, p, TEMP_LEN, 0, len);
    assert text[0..len] == text[..len];
  }

  lemma SliceOfSlice<T>(s: seq<T>, i: nat, j: nat, a: nat, b: nat)
    requires i <= j <= |s| && a <= b <= j - i
    ensures s[i..j][a..b] == s[i + a..i + b]
  {
    forall x | 0 <= x < b - a
      ensures s[i..j][a..b][x] == s[i + a..i + b][x]
    {
      assert s[i..j][a + x] == s[i + (a + x)];
    }
  }

  lemma TwoParts(a: seq<Byte>, b: seq<Byte>, start: nat, s: seq<Byte>, t: seq<Byte>)
    requires Spliced(a, b, start, s + t)
    ensures start + |s| + |t| <= |b| && b[start..start + |s|] == s && b[start + |s|..start + |s| + |t|] == t
  {
    SplicedPart(a, b, start, s + t);
    var n := |s| + |t|;
    SliceOfSlice(b, start, start + n, 0, |s|);
    SliceOfSlice(b, start, start + n, |s|, n);
    assert (s + t)[0..|s|] == s && (s + t)[|s|..n] == t;
  }

  lemma OnePart(s: seq<Byte>, t: seq<Byte>)
    ensures s == [] || t == [] ==> s + t == t + s
  {
    assert s + [] == s == [] + s && t + [] == t == [] + t;
  }

  /** The three reversals of cc_sprintf_num put the digits in front of the padding. */
  method Exchange(out: array<Byte>, start: nat, mid: nat, end: nat)
    requires start <= mid <= end <= out.Length
    modifies out
    ensures Spliced(old(out[..]), out[..], start, old(out[mid..end]) + old(out[start..mid]))
  {
    hide Reversed, Spliced;
    ghost var a, b, o := out[start..mid], out[mid..end], out[..];
    Reverse(out, start, mid);
    ghost var o1 := out[..];
    SplicedRest(o, o1, start, Reversed(a), mid, end);
    assert out[mid..end] == b;
    Reverse(out, mid, end);
    ghost var o2 := out[..];
    SplicedThen(o, o1, o2, start, Reversed(a), Reversed(b));
    SplicedPart(o, o2, start, Reversed(a) + Reversed(b));
    assert out[start..end] == Reversed(a) + Reversed(b);
    Reverse(out, start, end);
    ThreeReversals(a, b);
    SplicedOver(o, o2, out[..], start, Reversed(a) + Reversed(b), b + a);
  }

  lemma SplicedRest(a: seq<Byte>, b: seq<Byte>, start: nat, s: seq<Byte>, mid: nat, end: nat)
    requires Spliced(a, b, start, s) && mid == start + |s| <= end <= |a|
    ensures b[mid..end] == a[mid..end]
  {
    assert b[mid..] == a[mid..];
    SliceOfSlice(b, mid, |b|, 0, end - mid);
    SliceOfSlice(a, mid, |a|, 0, end - mid);
  }

  // ----- str2ull, str2ll -----

  /** The digits behind an optional sign. */
  function Unsigned(data: seq<Byte>, minus: bool): seq<Byte> {
    if data != [] && (data[0] == PLUS || (minus && data[0] == MINUS)) then data[1..] else data
  }

  /** No prefix of digits passes what a long long holds: beyond it str2ll is undefined. */
  ghost predicate Fits(d: seq<Byte>) {
    forall k :: 0 <= k <= |d| && AreDigits(10, d[..k]) ==> ValueOf(10, d[..k]) < 0x8000_0000_0000_0000
  }

  predicate Negative(data: seq<Byte>) { data != [] && data[0] == MINUS }

  function Signed(data: seq<Byte>): int {
    ValueOf(10, Unsigned(data, true)) * if Negative(data) then -1 else 1
  }

  /** One more digit. */
  lemma NextDigit(d: seq<Byte>, k: nat)
    requires k < |d| && AreDigits(10, d[..k])
    ensures AreDigits(10, d[..k + 1]) == IsNum(d[k])
    ensures IsNum(d[k]) ==> ValueOf(10, d[..k + 1]) == ValueOf(10, d[..k]) * 10 + (d[k] - 48)
  {
    var e := d[..k + 1];
    assert e[..|e| - 1] == d[..k] && e[k] == d[k];
  }

  lemma PrefixDigits(d: seq<Byte>, k: nat)
    requires k <= |d| && AreDigits(10, d)
    ensures AreDigits(10, d[..k])
  {}

  lemma NotDigits(d: seq<Byte>, k: nat)
    requires k < |d| && !AreDigits(10, d[..k + 1])
    ensures !AreDigits(10, d)
  {
    if AreDigits(10, d) {
      PrefixDigits(d, k + 1);
    }
  }

  const MAX_INT: nat := 0x7fff_ffff

  const TWO_64: nat := 0x1_0000_0000_0000_0000

  /** Wrapping at every digit is wrapping once at the end. */
  lemma WrapStep(v: nat, c: nat)
    ensures (v % TWO_64 * 10 + c) % TWO_64 == (v * 10 + c) % TWO_64
  {
    var q := v / TWO_64;
    assert v * 10 + c == v % TWO_64 * 10 + c + TWO_64 * (q * 10);
    ModAdds(v % TWO_64 * 10 + c, q * 10);
  }

  lemma {:induction false} ModAdds(a: nat, k: nat)
    ensures (a + TWO_64 * k) % TWO_64 == a % TWO_64
    decreases k
  {
    if k > 0 {
      ModAdds(a, k - 1);
    }
  }

  /** str2ull: the value modulo 2^64 of digits behind an optional plus; value is unset on failure. */
  method Str2Ull(data: seq<Byte>) returns (code: int, value: nat)
    requires |data| <= MAX_INT
    ensures code == if AreDigits(10, Unsigned(data, false)) then 0 else -1
    ensures code == 0 ==> value == ValueOf(10, Unsigned(data, false)) % TWO_64
  {
    hide ValueOf, ValueFrom, Unhex;
    ghost var d := Unsigned(data, false);
    ghost var shift := |data| - |d|;
    var out: nat := 0;
    value := 0;
    NothingRead(d);
    for i := 0 to |data|
      invariant i == 0 || i >= shift
      invariant var k := if i < shift then 0 else i - shift;
        k <= |d| && AreDigits(10, d[..k]) && out == ValueOf(10, d[..k]) % TWO_64
    {
      if i == 0 && data[i] == PLUS {
        assert d[..0] == [];
        continue;
      }
      assert i >= shift && data[i] == d[i - shift];
      NextDigit(d, i - shift);
      if 48 <= data[i] <= 57 {
        WrapStep(ValueOf(10, d[..i - shift]), data[i] - 48);
        out := (out * 10 + (data[i] as int - 48)) % TWO_64;
      } else {
        NotDigits(d, i - shift);
        return -1, value;
      }
    }
    assert d[..|d|] == d;
    return 0, out;
  }

  lemma NothingRead(d: seq<Byte>)
    ensures AreDigits(10, d[..0]) && ValueOf(10, d[..0]) == 0
  {}

  /** str2ll */
  method Str2Ll(data: seq<Byte>) returns (code: int, value: int)
    requires |data| <= MAX_INT && Fits(Unsigned(data, true))
    ensures code == if AreDigits(10, Unsigned(data, true)) then 0 else -1
    ensures code == 0 ==> value == Signed(data)
  {
    hide ValueOf, ValueFrom, Unhex;
    ghost var d := Unsigned(data, true);
    ghost var shift := |data| - |d|;
    var out: nat, sign: int := 0, 1;
    value := 0;
    NothingRead(d);
    for i := 0 to |data|
      invariant i == 0 || i >= shift
      invariant sign == if i > 0 && Negative(data) then -1 else 1
      invariant var k := if i < shift then 0 else i - shift;
        k <= |d| && AreDigits(10, d[..k]) && out == ValueOf(10, d[..k])
    {
      if i == 0 && data[i] == MINUS {
        sign := -1;
        assert d[..0] == [];
      } else if i == 0 && data[i] == PLUS {
        sign := 1;
        assert d[..0] == [];
      } else {
        assert i >= shift && data[i] == d[i - shift];
        NextDigit(d, i - shift);
        if 48 <= data[i] <= 57 {
          out := out * 10 + (data[i] as int - 48);
          assert out < 0x8000_0000_0000_0000; // no signed overflow
        } else {
          NotDigits(d, i - shift);
          return -1, value;
        }
      }
    }
    assert d[..|d|] == d;
    return 0, out * sign;
  }

  // ----- Round trips -----

  /** With enough room and no width, the text is printed as it is. */
  lemma EnoughRoom(text: seq<Byte>, zero: Byte, leftFill: bool, room: nat)
    requires |text| <= room
    ensures Padded(text, zero, 0, leftFill, room) == text
  {
    assert text[..|text|] == text;
    assert text + [] == text == [] + text;
  }

  lemma DecimalText(v: nat)
    ensures Text(v, 0, false) == Numeral(v, 10, false)
    ensures Text(v, 0, true) == [MINUS] + Numeral(v, 10, false)
    ensures IsNum(Numeral(v, 10, false)[0])
  {
    var d := Numeral(v, 10, false);
    assert [] + [] + d == d && [MINUS] + [] + d == [MINUS] + d;
    assert IsNum(d[0]);
  }

  /** str2ull reads back every printed unsigned value. */
  lemma UnsignedRoundTrip(v: U64)
    ensures var d := Unsigned(Text(v as nat, 0, false), false);
      AreDigits(10, d) && ValueOf(10, d) % TWO_64 == v as nat
  {
    DecimalText(v as nat);
    NumeralValue(v as nat, 10, false);
  }

  lemma {:induction false} PrefixSmaller(d: seq<Byte>, k: nat)
    requires k <= |d|
    ensures ValueOf(10, d[..k]) <= ValueOf(10, d)
  {
    ValueFromConcat(0, 10, d[..k], d[k..]);
    assert d[..k] + d[k..] == d;
    ValueFromGrows(ValueOf(10, d[..k]), 10, d[k..]);
  }

  lemma SmallFits(d: seq<Byte>)
    requires ValueOf(10, d) < 0x8000_0000_0000_0000
    ensures Fits(d)
  {
    forall k | 0 <= k <= |d|
      ensures ValueOf(10, d[..k]) < 0x8000_0000_0000_0000
    {
      PrefixSmaller(d, k);
    }
  }

  /** str2ll reads back a printed signed value if and only if it is above -2^63. */
  lemma SignedRoundTrip(i: int)
    requires -0x8000_0000_0000_0000 <= i < 0x8000_0000_0000_0000
    ensures var text := Text(if i < 0 then -i else i, 0, i < 0);
      var d := Unsigned(text, true);
      AreDigits(10, d) && (Fits(d) <==> i != -0x8000_0000_0000_0000) && Signed(text) == i
  {
    hide ValueOf, Numeral, Text;
    var m := if i < 0 then -i else i;
    DecimalText(m);
    NumeralValue(m, 10, false);
    var d := Numeral(m, 10, false);
    if i < 0 {
      assert ([MINUS] + d)[1..] == d;
    }
    if m < 0x8000_0000_0000_0000 {
      SmallFits(d);
    } else {
      assert d[..|d|] == d;
    }
  }

  /** Printing an unsigned number with enough room and reading it gives the number back. */
  method PrintAndReadUnsigned(out: array<Byte>, start: nat, last: nat, v: U64) returns (code: int, value: nat)
    requires start + 20 <= last <= out.Length
    modifies out
    ensures code == 0 && value == v as nat
  {
    hide Text, Padded, Spliced, ValueOf;
    ghost var before, text := out[..], Text(v as nat, 0, false);
    Widths(v);
    DecimalText(v as nat);
    EnoughRoom(text, SPACE, false, last - start);
    var end := SprintfNum(out, start, last, v, SPACE, 0, 0, false, false);
    SplicedPart(before, out[..], start, text);
    assert out[start..end] == out[..][start..start + |text|];
    UnsignedRoundTrip(v);
    code, value := Str2Ull(out[start..end]);
  }

  /** The same for a signed number above -2^63. */
  method PrintAndReadSigned(out: array<Byte>, start: nat, last: nat, i: int) returns (code: int, value: int)
    requires -0x8000_0000_0000_0000 < i < 0x8000_0000_0000_0000 && start + 21 <= last <= out.Length
    modifies out
    ensures code == 0 && value == i
  {
    hide Text, Padded, Spliced, ValueOf, Fits, Signed, AreDigits;
    var m: nat := if i < 0 then -i else i;
    ghost var before, text := out[..], Text(m, 0, i < 0);
    Widths(m as U64);
    DecimalText(m);
    EnoughRoom(text, SPACE, false, last - start);
    var end := SprintfNum(out, start, last, m as U64, SPACE, 0, 0, false, i < 0);
    SplicedPart(before, out[..], start, text);
    assert out[start..end] == out[..][start..start + |text|];
    SignedRoundTrip(i);
    code, value := Str2Ll(out[start..end]);
  }
}
