/** MD5 over a stream of bytes (cc_util/cc_md5.c) against RFC 1321. */
module Md5 {
  import opened Sequences

  type Word = bv32
  type Octet = bv8

  // ----- RFC 1321, section 3.4: the four functions -----

  function FRfc(x: Word, y: Word, z: Word): Word { (x & y) | (!x & z) }
  function GRfc(x: Word, y: Word, z: Word): Word { (x & z) | (y & !z) }
  function H(x: Word, y: Word, z: Word): Word { (x ^ y) ^ z }
  function I(x: Word, y: Word, z: Word): Word { y ^ (x | !z) }

  /** F and G as the source writes them, without AND-NOT. */
  function F(x: Word, y: Word, z: Word): Word { z ^ (x & (y ^ z)) }
  function G(x: Word, y: Word, z: Word): Word { y ^ (z & (x ^ y)) }

  lemma SelectF(x: bv32, y: bv32, z: bv32)
    ensures z ^ (x & (y ^ z)) == (x & y) | (!x & z)
  {}

  lemma SelectG(x: bv32, y: bv32, z: bv32)
    ensures y ^ (z & (x ^ y)) == (x & z) | (y & !z)
  {}

  lemma RewrittenF(x: Word, y: Word, z: Word)
    ensures F(x, y, z) == FRfc(x, y, z)
  {
    calc == {
      F(x, y, z);
      z ^ (x & (y ^ z));
      { hide *; SelectF(x, y, z); }
      (x & y) | (!x & z);
      FRfc(x, y, z);
    }
  }

  lemma RewrittenG(x: Word, y: Word, z: Word)
    ensures G(x, y, z) == GRfc(x, y, z)
  {
    calc == {
      G(x, y, z);
      y ^ (z & (x ^ y));
      { hide *; SelectG(x, y, z); }
      (x & z) | (y & !z);
      GRfc(x, y, z);
    }
  }

  // ----- RFC 1321, section 3.4: one block -----

  datatype Words = Words(a: Word, b: Word, c: Word, d: Word)

  /** A, B, C, D of section 3.3 */
  const INIT: Words := Words(0x6745_2301, 0xefcd_ab89, 0x98ba_dcfe, 0x1032_5476)

  /** The table T of 64 elements, counted from 0, one round of operations at a time. */
  function T(i: nat): Word {
    if i < 16 then T1(i) else if i < 32 then T2(i - 16) else if i < 48 then T3(i - 32) else T4(i - 48)
  }

  function T1(i: nat): Word {
    match i
    case 0 => 0xd76a_a478 case 1 => 0xe8c7_b756 case 2 => 0x2420_70db case 3 => 0xc1bd_ceee
    case 4 => 0xf57c_0faf case 5 => 0x4787_c62a case 6 => 0xa830_4613 case 7 => 0xfd46_9501
    case 8 => 0x6980_98d8 case 9 => 0x8b44_f7af case 10 => 0xffff_5bb1 case 11 => 0x895c_d7be
    case 12 => 0x6b90_1122 case 13 => 0xfd98_7193 case 14 => 0xa679_438e case _ => 0x49b4_0821
  }

  function T2(i: nat): Word {
    match i
    case 0 => 0xf61e_2562 case 1 => 0xc040_b340 case 2 => 0x265e_5a51 case 3 => 0xe9b6_c7aa
    case 4 => 0xd62f_105d case 5 => 0x0244_1453 case 6 => 0xd8a1_e681 case 7 => 0xe7d3_fbc8
    case 8 => 0x21e1_cde6 case 9 => 0xc337_07d6 case 10 => 0xf4d5_0d87 case 11 => 0x455a_14ed
    case 12 => 0xa9e3_e905 case 13 => 0xfcef_a3f8 case 14 => 0x676f_02d9 case _ => 0x8d2a_4c8a
  }

  function T3(i: nat): Word {
    match i
    case 0 => 0xfffa_3942 case 1 => 0x8771_f681 case 2 => 0x6d9d_6122 case 3 => 0xfde5_380c
    case 4 => 0xa4be_ea44 case 5 => 0x4bde_cfa9 case 6 => 0xf6bb_4b60 case 7 => 0xbebf_bc70
    case 8 => 0x289b_7ec6 case 9 => 0xeaa1_27fa case 10 => 0xd4ef_3085 case 11 => 0x0488_1d05
    case 12 => 0xd9d4_d039 case 13 => 0xe6db_99e5 case 14 => 0x1fa2_7cf8 case _ => 0xc4ac_5665
  }

  function T4(i: nat): Word {
    match i
    case 0 => 0xf429_2244 case 1 => 0x432a_ff97 case 2 => 0xab94_23a7 case 3 => 0xfc93_a039
    case 4 => 0x655b_59c3 case 5 => 0x8f0c_cc92 case 6 => 0xffef_f47d case 7 => 0x8584_5dd1
    case 8 => 0x6fa8_7e4f case 9 => 0xfe2c_e6e0 case 10 => 0xa301_4314 case 11 => 0x4e08_11a1
    case 12 => 0xf753_7e82 case 13 => 0xbd3a_f235 case 14 => 0x2ad7_d2bb case _ => 0xeb86_d391
  }

  /** The word of the block that operation i adds. */
  function K(i: nat): nat {
    if i < 16 then i else if i < 32 then (5 * i + 1) % 16 else if i < 48 then (3 * i + 5) % 16 else 7 * i % 16
  }

  /** How far operation i rotates. */
  function S(i: nat): nat {
    match (i / 16, i % 4)
    case (0, 0) => 7 case (0, 1) => 12 case (0, 2) => 17 case (0, _) => 22
    case (1, 0) => 5 case (1, 1) => 9 case (1, 2) => 14 case (1, _) => 20
    case (2, 0) => 4 case (2, 1) => 11 case (2, 2) => 16 case (2, _) => 23
    case (_, 0) => 6 case (_, 1) => 10 case (_, 2) => 15 case (_, _) => 21
  }

  function Auxiliary(i: nat, x: Word, y: Word, z: Word): Word {
    if i < 16 then FRfc(x, y, z) else if i < 32 then GRfc(x, y, z) else if i < 48 then H(x, y, z) else I(x, y, z)
  }

  function Rotated(x: Word, s: nat): Word
    requires s < 32
  {
    (x << s) | (x >> (32 - s))
  }

  function OpValue(a: Word, b: Word, e: Word, x: Word, t: Word, s: nat): Word
    requires s < 32
  {
    b + Rotated(a + e + x + t, s)
  }

  /** Operation i; the registers change places so that the next one works on d. */
  function Op(i: nat, w: Words, x: seq<Word>): Words
    requires i < 64 && |x| == 16
  {
    Words(w.d, OpValue(w.a, w.b, Auxiliary(i, w.b, w.c, w.d), x[K(i)], T(i), S(i)), w.b, w.c)
  }

  /** The first n operations. */
  function Ops(n: nat, w: Words, x: seq<Word>): Words
    requires n <= 64 && |x| == 16
  {
    if n == 0 then w else Op(n - 1, Ops(n - 1, w, x), x)
  }

  function Plus(v: Words, w: Words): Words { Words(v.a + w.a, v.b + w.b, v.c + w.c, v.d + w.d) }

  /** Four octets, low order first. */
  function WordOf(d: seq<Octet>): Word
    requires |d| == 4
  {
    d[0] as Word | (d[1] as Word << 8) | (d[2] as Word << 16) | (d[3] as Word << 24)
  }

  function WordsOf(block: seq<Octet>, n: nat): (x: seq<Word>)
    requires 4 * n <= |block|
    ensures |x| == n && forall i :: 0 <= i < n ==> x[i] == WordOf(block[4 * i..4 * i + 4])
  {
    if n == 0 then [] else WordsOf(block, n - 1) + [WordOf(block[4 * (n - 1)..4 * (n - 1) + 4])]
  }

  /** One block of 64 octets. */
  function Compress(w: Words, block: seq<Octet>): Words
    requires |block| == 64
  {
    Plus(Ops(64, w, WordsOf(block, 16)), w)
  }

  /** All whole blocks of d in turn. */
  function Fold(w: Words, d: seq<Octet>): Words
    requires |d| % 64 == 0
    decreases |d|
  {
    if d == [] then w else Compress(Fold(w, d[..|d| - 64]), d[|d| - 64..])
  }

  // ----- RFC 1321, sections 3.1, 3.2 and 3.5 -----

  function Zeros(n: nat): (s: seq<Octet>)
    ensures |s| == n && forall i :: 0 <= i < n ==> s[i] == 0
  {
    if n == 0 then [] else Zeros(n - 1) + [0]
  }

  /** n octets of v, low order first. */
  function OctetsOf(v: nat, n: nat): (s: seq<Octet>)
    ensures |s| == n
  {
    if n == 0 then [] else OctetsOf(v, n - 1) + [(v / Scale(n - 1) % 256) as Octet]
  }

  /** 256 to the power n */
  function Scale(n: nat): (k: nat)
    ensures k > 0
  {
    if n == 0 then 1 else 256 * Scale(n - 1)
  }

  lemma Scales()
    ensures Scale(0) == 1 && Scale(1) == 0x100 && Scale(2) == 0x1_0000 && Scale(3) == 0x100_0000
    ensures Scale(4) == 0x1_0000_0000 && Scale(5) == 0x100_0000_0000
    ensures Scale(6) == 0x1_0000_0000_0000 && Scale(7) == 0x100_0000_0000_0000
  {
    assert Scale(2) == 256 * Scale(1);
    assert Scale(4) == 256 * Scale(3);
    assert Scale(6) == 256 * Scale(5);
  }

  lemma NextOctet(v: nat, n: nat)
    ensures OctetsOf(v, n + 1) == OctetsOf(v, n) + [(v / Scale(n) % 256) as Octet]
  {}

  lemma EightOctets(v: nat)
    ensures OctetsOf(v, 8) == [(v % 256) as Octet, (v / 0x100 % 256) as Octet, (v / 0x1_0000 % 256) as Octet,
      (v / 0x100_0000 % 256) as Octet, (v / 0x1_0000_0000 % 256) as Octet, (v / 0x100_0000_0000 % 256) as Octet,
      (v / 0x1_0000_0000_0000 % 256) as Octet, (v / 0x100_0000_0000_0000 % 256) as Octet]
  {
    hide OctetsOf, Scale;
    Scales();
    NoOctets(v);
    NextOctet(v, 0);
    NextOctet(v, 1);
    NextOctet(v, 2);
    NextOctet(v, 3);
    NextOctet(v, 4);
    NextOctet(v, 5);
    NextOctet(v, 6);
    NextOctet(v, 7);
  }

  lemma NoOctets(v: nat)
    ensures OctetsOf(v, 0) == []
  {}

  const TWO_64: nat := 0x1_0000_0000_0000_0000

  /** How many zeros bring n octets and one more to 56 modulo 64. */
  function ZerosAfter(n: nat): (k: nat)
    ensures k < 64 && (n + 1 + k) % 64 == 56
  {
    (119 - n % 64) % 64
  }

  /** The message, a one bit, zeros and the length in bits modulo 2^64. */
  function PaddedMessage(m: seq<Octet>): (p: seq<Octet>)
    ensures |p| % 64 == 0
  {
    PaddedLength(|m|, ZerosAfter(|m|));
    m + ([0x80] + Zeros(ZerosAfter(|m|)) + OctetsOf(8 * |m| % TWO_64, 8))
  }

  lemma PaddedLength(n: nat, k: nat)
    requires (n + 1 + k) % 64 == 56
    ensures (n + (1 + k + 8)) % 64 == 0
  {}

  function WordOctets(w: Word): (s: seq<Octet>)
    ensures |s| == 4
  {
    [(w & 0xff) as Octet, ((w >> 8) & 0xff) as Octet, ((w >> 16) & 0xff) as Octet, ((w >> 24) & 0xff) as Octet]
  }

  /** The number that four octets mean, low order first. */
  lemma WordValue(a: Octet, b: Octet, c: Octet, d: Octet)
    ensures WordOf([a, b, c, d]) as nat
      == a as nat + 0x100 * (b as nat) + 0x1_0000 * (c as nat) + 0x100_0000 * (d as nat)
  {
    calc == {
      WordOf([a, b, c, d]) as nat;
      ((a as Word) | (b as Word << 8) | (c as Word << 16) | (d as Word << 24)) as nat;
      { hide *; Joined(a, b, c, d); }
      a as nat + 0x100 * (b as nat) + 0x1_0000 * (c as nat) + 0x100_0000 * (d as nat);
    }
  }

  lemma Joined(a: bv8, b: bv8, c: bv8, d: bv8)
    ensures ((a as bv32) | (b as bv32 << 8) | (c as bv32 << 16) | (d as bv32 << 24)) as nat
         == a as nat + 0x100 * (b as nat) + 0x1_0000 * (c as nat) + 0x100_0000 * (d as nat)
  {}

  lemma Parted(w: bv32)
    ensures ((w & 0xff) as bv8 as bv32) | (((w >> 8) & 0xff) as bv8 as bv32 << 8)
          | (((w >> 16) & 0xff) as bv8 as bv32 << 16) | (((w >> 24) & 0xff) as bv8 as bv32 << 24) == w
  {}

  /** Writing the octets of a word and reading them gives the word. */
  lemma OctetsRead(w: Word)
    ensures WordOf(WordOctets(w)) == w
  {
    calc == {
      WordOf(WordOctets(w));
      WordOf([(w & 0xff) as Octet, ((w >> 8) & 0xff) as Octet,
              ((w >> 16) & 0xff) as Octet, ((w >> 24) & 0xff) as Octet]);
      ((w & 0xff) as Octet as Word) | (((w >> 8) & 0xff) as Octet as Word << 8)
        | (((w >> 16) & 0xff) as Octet as Word << 16) | (((w >> 24) & 0xff) as Octet as Word << 24);
      { hide *; Parted(w); }
      w;
    }
  }

  lemma Quotients(a: nat, b: nat, c: nat, d: nat, n: nat)
    requires a < 256 && b < 256 && c < 256 && d < 256 && n == a + 0x100 * b + 0x1_0000 * c + 0x100_0000 * d
    ensures a == n % 256 && b == n / 0x100 % 256 && c == n / 0x1_0000 % 256 && d == n / 0x100_0000 % 256
  {
    LowOctet(a, b + 0x100 * c + 0x1_0000 * d);
    LowOctet(b, c + 0x100 * d);
    LowOctet(c, d);
    assert n / 0x1_0000 == c + 0x100 * d by { BehindTwo(a + 0x100 * b, c + 0x100 * d); }
    assert n / 0x100_0000 == d by { BehindThree(a + 0x100 * b + 0x1_0000 * c, d); }
  }

  lemma LowOctet(a: nat, m: nat)
    requires a < 256
    ensures (a + 0x100 * m) % 256 == a && (a + 0x100 * m) / 0x100 == m
  {}

  lemma BehindTwo(r: nat, m: nat)
    requires r < 0x1_0000
    ensures (r + 0x1_0000 * m) / 0x1_0000 == m
  {}

  lemma BehindThree(r: nat, m: nat)
    requires r < 0x100_0000
    ensures (r + 0x100_0000 * m) / 0x100_0000 == m
  {}

  lemma OctetNumbers(w: Word)
    ensures var n, o := w as nat, WordOctets(w);
      o[0] as nat == n % 256 && o[1] as nat == n / 0x100 % 256
      && o[2] as nat == n / 0x1_0000 % 256 && o[3] as nat == n / 0x100_0000 % 256
  {
    hide WordOf, WordOctets;
    var o := WordOctets(w);
    OctetsRead(w);
    assert o == [o[0], o[1], o[2], o[3]];
    WordValue(o[0], o[1], o[2], o[3]);
    var a, b, c, d, n: nat := o[0] as nat, o[1] as nat, o[2] as nat, o[3] as nat, w as nat;
    Quotients(a, b, c, d, n);
  }

  lemma SameOctet(o: bv8, v: nat)
    requires o as nat == v && v < 256
    ensures o == v as bv8
  {}

  /** The octets of a word are the digits of its value to the base 256, low order first. */
  lemma WordOctetValues(w: Word)
    ensures WordOctets(w) == OctetsOf(w as nat, 4)
  {
    hide WordOctets, OctetsOf, Scale;
    var n, o := w as nat, WordOctets(w);
    OctetNumbers(w);
    FourOctets(n);
    SameOctet(o[0], n % 256);
    SameOctet(o[1], n / 0x100 % 256);
    SameOctet(o[2], n / 0x1_0000 % 256);
    SameOctet(o[3], n / 0x100_0000 % 256);
    assert o == [o[0], o[1], o[2], o[3]];
  }

  lemma FourOctets(v: nat)
    ensures OctetsOf(v, 4) == [(v % 256) as Octet, (v / 0x100 % 256) as Octet, (v / 0x1_0000 % 256) as Octet,
      (v / 0x100_0000 % 256) as Octet]
  {
    hide OctetsOf, Scale;
    Scales();
    NoOctets(v);
    NextOctet(v, 0);
    NextOctet(v, 1);
    NextOctet(v, 2);
    NextOctet(v, 3);
  }

  /** Section 3.3 of RFC 1321: the first registers hold 01 23 45 67 and so on, low order octet first. */
  lemma InitOctets()
    ensures Output(INIT) == [
      0x01, 0x23, 0x45, 0x67, 0x89, 0xab, 0xcd, 0xef,
      0xfe, 0xdc, 0xba, 0x98, 0x76, 0x54, 0x32, 0x10]
  {}

  function Output(w: Words): seq<Octet> {
    WordOctets(w.a) + WordOctets(w.b) + WordOctets(w.c) + WordOctets(w.d)
  }

  function Digest(m: seq<Octet>): seq<Octet> { Output(Fold(INIT, PaddedMessage(m))) }

  // ----- The unrolled rounds -----

  /** The mask keeps the 32 bits that a word has. */
  function Turn(sum: Word, s: nat): Word
    requires s < 32
  {
    (sum << s) | ((sum & 0xffff_ffff) >> (32 - s))
  }

  /** The macro STEP with the function value e already applied. */
  function Step(a: Word, b: Word, e: Word, x: Word, t: Word, s: nat): Word
    requires s < 32
  {
    Turn(a + (e + x + t), s) + b
  }

  function StepF(a: Word, b: Word, c: Word, d: Word, x: Word, t: Word, s: nat): Word
    requires s < 32
  {
    Step(a, b, F(b, c, d), x, t, s)
  }

  function StepG(a: Word, b: Word, c: Word, d: Word, x: Word, t: Word, s: nat): Word
    requires s < 32
  {
    Step(a, b, G(b, c, d), x, t, s)
  }

  function StepH(a: Word, b: Word, c: Word, d: Word, x: Word, t: Word, s: nat): Word
    requires s < 32
  {
    Step(a, b, H(b, c, d), x, t, s)
  }

  function StepI(a: Word, b: Word, c: Word, d: Word, x: Word, t: Word, s: nat): Word
    requires s < 32
  {
    Step(a, b, I(b, c, d), x, t, s)
  }

  lemma Grouped(a: bv32, e: bv32, x: bv32, t: bv32)
    ensures a + (e + x + t) == a + e + x + t
  {}

  lemma Masked(sum: bv32)
    ensures sum & 0xffff_ffff == sum
  {}

  lemma Swapped(r: bv32, b: bv32)
    ensures r + b == b + r
  {}

  lemma StepRotates(a: Word, b: Word, e: Word, x: Word, t: Word, s: nat)
    requires 0 < s < 32
    ensures Step(a, b, e, x, t, s) == OpValue(a, b, e, x, t, s)
  {
    calc == {
      Step(a, b, e, x, t, s);
      Turn(a + (e + x + t), s) + b;
      { hide *; Grouped(a, e, x, t); }
      Turn(a + e + x + t, s) + b;
      { hide *; Swapped(Turn(a + e + x + t, s), b); }
      b + Turn(a + e + x + t, s);
      { hide *; TurnRotates(a + e + x + t, s); }
      b + Rotated(a + e + x + t, s);
      OpValue(a, b, e, x, t, s);
    }
  }

  lemma TurnRotates(sum: Word, s: nat)
    requires 0 < s < 32
    ensures Turn(sum, s) == Rotated(sum, s)
  {
    calc == {
      Turn(sum, s);
      (sum << s) | ((sum & 0xffff_ffff) >> (32 - s));
      { hide *; Masked(sum); }
      (sum << s) | (sum >> (32 - s));
      Rotated(sum, s);
    }
  }

  /** The value of the function of operation i as the source computes it. */
  function Computed(i: nat, x: Word, y: Word, z: Word): Word {
    if i < 16 then F(x, y, z) else if i < 32 then G(x, y, z) else if i < 48 then H(x, y, z) else I(x, y, z)
  }

  lemma ComputedIsAuxiliary(i: nat, x: Word, y: Word, z: Word)
    ensures Computed(i, x, y, z) == Auxiliary(i, x, y, z)
  {
    hide F, G, H, I, FRfc, GRfc;
    RewrittenF(x, y, z);
    RewrittenG(x, y, z);
  }

  lemma RotationsInRange(i: nat)
    ensures 0 < S(i) < 32 && (i < 64 ==> K(i) < 16)
  {}

  /** The step of operation i. */
  function StepOf(i: nat, w: Words, x: seq<Word>): Word
    requires i < 64 && |x| == 16
  {
    Step(w.a, w.b, Computed(i, w.b, w.c, w.d), x[K(i)], T(i), S(i))
  }

  /** The macros do what the operations of the RFC say. */
  lemma StepIsOp(i: nat, w: Words, x: seq<Word>)
    requires i < 64 && |x| == 16
    ensures Op(i, w, x) == Words(w.d, StepOf(i, w, x), w.b, w.c)
  {
    hide Step, OpValue, Computed, Auxiliary, T, K, S;
    RotationsInRange(i);
    ComputedIsAuxiliary(i, w.b, w.c, w.d);
    StepRotates(w.a, w.b, Computed(i, w.b, w.c, w.d), x[K(i)], T(i), S(i));
  }

  /** Four steps, after which the registers are back in their places. */
  function Four(i: nat, w: Words, x: seq<Word>): Words
    requires i <= 60 && |x| == 16
  {
    var a := StepOf(i, w, x);
    var d := StepOf(i + 1, Words(w.d, a, w.b, w.c), x);
    var c := StepOf(i + 2, Words(w.c, d, a, w.b), x);
    var b := StepOf(i + 3, Words(w.b, c, d, a), x);
    Words(a, b, c, d)
  }

  lemma FourOps(i: nat, w: Words, x: seq<Word>)
    requires i <= 60 && |x| == 16
    ensures Ops(i + 4, w, x) == Four(i, Ops(i, w, x), x)
  {
    hide StepOf, Op;
    var v := Ops(i, w, x);
    var v1 := Ops(i + 1, w, x);
    var v2 := Ops(i + 2, w, x);
    var v3 := Ops(i + 3, w, x);
    StepIsOp(i, v, x);
    StepIsOp(i + 1, v1, x);
    StepIsOp(i + 2, v2, x);
    StepIsOp(i + 3, v3, x);
  }

  // The three numbers that operation i takes, and four steps of one function.
  datatype Arguments = Arguments(x: Word, t: Word, s: nat)

  function ArgumentsOf(i: nat, x: seq<Word>): (r: Arguments)
    requires i < 64 && |x| == 16
    ensures r.s < 32
  {
    RotationsInRange(i);
    Arguments(x[K(i)], T(i), S(i))
  }

  function GroupF(w: Words, p: Arguments, q: Arguments, r: Arguments, s: Arguments): Words
    requires p.s < 32 && q.s < 32 && r.s < 32 && s.s < 32
  {
    var a := StepF(w.a, w.b, w.c, w.d, p.x, p.t, p.s);
    var d := StepF(w.d, a, w.b, w.c, q.x, q.t, q.s);
    var c := StepF(w.c, d, a, w.b, r.x, r.t, r.s);
    var b := StepF(w.b, c, d, a, s.x, s.t, s.s);
    Words(a, b, c, d)
  }

  lemma OpsF(i: nat, w: Words, x: seq<Word>)
    requires 0 <= i <= 12 && |x| == 16
    ensures Ops(i + 4, w, x) == GroupF(Ops(i, w, x), ArgumentsOf(i, x), ArgumentsOf(i + 1, x), ArgumentsOf(i + 2, x),
                                       ArgumentsOf(i + 3, x))
  {
    hide Step, T, K, S, F, G, H, I, Ops;
    FourOps(i, w, x);
  }

  function GroupG(w: Words, p: Arguments, q: Arguments, r: Arguments, s: Arguments): Words
    requires p.s < 32 && q.s < 32 && r.s < 32 && s.s < 32
  {
    var a := StepG(w.a, w.b, w.c, w.d, p.x, p.t, p.s);
    var d := StepG(w.d, a, w.b, w.c, q.x, q.t, q.s);
    var c := StepG(w.c, d, a, w.b, r.x, r.t, r.s);
    var b := StepG(w.b, c, d, a, s.x, s.t, s.s);
    Words(a, b, c, d)
  }

  lemma OpsG(i: nat, w: Words, x: seq<Word>)
    requires 16 <= i <= 28 && |x| == 16
    ensures Ops(i + 4, w, x) == GroupG(Ops(i, w, x), ArgumentsOf(i, x), ArgumentsOf(i + 1, x), ArgumentsOf(i + 2, x),
                                       ArgumentsOf(i + 3, x))
  {
    hide Step, T, K, S, F, G, H, I, Ops;
    FourOps(i, w, x);
  }

  function GroupH(w: Words, p: Arguments, q: Arguments, r: Arguments, s: Arguments): Words
    requires p.s < 32 && q.s < 32 && r.s < 32 && s.s < 32
  {
    var a := StepH(w.a, w.b, w.c, w.d, p.x, p.t, p.s);
    var d := StepH(w.d, a, w.b, w.c, q.x, q.t, q.s);
    var c := StepH(w.c, d, a, w.b, r.x, r.t, r.s);
    var b := StepH(w.b, c, d, a, s.x, s.t, s.s);
    Words(a, b, c, d)
  }

  lemma OpsH(i: nat, w: Words, x: seq<Word>)
    requires 32 <= i <= 44 && |x| == 16
    ensures Ops(i + 4, w, x) == GroupH(Ops(i, w, x), ArgumentsOf(i, x), ArgumentsOf(i + 1, x), ArgumentsOf(i + 2, x),
                                       ArgumentsOf(i + 3, x))
  {
    hide Step, T, K, S, F, G, H, I, Ops;
    FourOps(i, w, x);
  }

  function GroupI(w: Words, p: Arguments, q: Arguments, r: Arguments, s: Arguments): Words
    requires p.s < 32 && q.s < 32 && r.s < 32 && s.s < 32
  {
    var a := StepI(w.a, w.b, w.c, w.d, p.x, p.t, p.s);
    var d := StepI(w.d, a, w.b, w.c, q.x, q.t, q.s);
    var c := StepI(w.c, d, a, w.b, r.x, r.t, r.s);
    var b := StepI(w.b, c, d, a, s.x, s.t, s.s);
    Words(a, b, c, d)
  }

  lemma OpsI(i: nat, w: Words, x: seq<Word>)
    requires 48 <= i <= 60 && |x| == 16
    ensures Ops(i + 4, w, x) == GroupI(Ops(i, w, x), ArgumentsOf(i, x), ArgumentsOf(i + 1, x), ArgumentsOf(i + 2, x),
                                       ArgumentsOf(i + 3, x))
  {
    hide Step, T, K, S, F, G, H, I, Ops;
    FourOps(i, w, x);
  }

  lemma ArgumentsF(x: seq<Word>)
    requires |x| == 16
    ensures ArgumentsOf(0, x) == Arguments(x[0], 0xd76a_a478, 7)
    ensures ArgumentsOf(1, x) == Arguments(x[1], 0xe8c7_b756, 12)
    ensures ArgumentsOf(2, x) == Arguments(x[2], 0x2420_70db, 17)
    ensures ArgumentsOf(3, x) == Arguments(x[3], 0xc1bd_ceee, 22)
    ensures ArgumentsOf(4, x) == Arguments(x[4], 0xf57c_0faf, 7)
    ensures ArgumentsOf(5, x) == Arguments(x[5], 0x4787_c62a, 12)
    ensures ArgumentsOf(6, x) == Arguments(x[6], 0xa830_4613, 17)
    ensures ArgumentsOf(7, x) == Arguments(x[7], 0xfd46_9501, 22)
    ensures ArgumentsOf(8, x) == Arguments(x[8], 0x6980_98d8, 7)
    ensures ArgumentsOf(9, x) == Arguments(x[9], 0x8b44_f7af, 12)
    ensures ArgumentsOf(10, x) == Arguments(x[10], 0xffff_5bb1, 17)
    ensures ArgumentsOf(11, x) == Arguments(x[11], 0x895c_d7be, 22)
    ensures ArgumentsOf(12, x) == Arguments(x[12], 0x6b90_1122, 7)
    ensures ArgumentsOf(13, x) == Arguments(x[13], 0xfd98_7193, 12)
    ensures ArgumentsOf(14, x) == Arguments(x[14], 0xa679_438e, 17)
    ensures ArgumentsOf(15, x) == Arguments(x[15], 0x49b4_0821, 22)
  {
    hide ArgumentsOf;
    EarlyF(x);
    LateF(x);
  }

  lemma EarlyF(x: seq<Word>)
    requires |x| == 16
    ensures ArgumentsOf(0, x) == Arguments(x[0], 0xd76a_a478, 7)
    ensures ArgumentsOf(1, x) == Arguments(x[1], 0xe8c7_b756, 12)
    ensures ArgumentsOf(2, x) == Arguments(x[2], 0x2420_70db, 17)
    ensures ArgumentsOf(3, x) == Arguments(x[3], 0xc1bd_ceee, 22)
    ensures ArgumentsOf(4, x) == Arguments(x[4], 0xf57c_0faf, 7)
    ensures ArgumentsOf(5, x) == Arguments(x[5], 0x4787_c62a, 12)
    ensures ArgumentsOf(6, x) == Arguments(x[6], 0xa830_4613, 17)
    ensures ArgumentsOf(7, x) == Arguments(x[7], 0xfd46_9501, 22)
  {}

  lemma LateF(x: seq<Word>)
    requires |x| == 16
    ensures ArgumentsOf(8, x) == Arguments(x[8], 0x6980_98d8, 7)
    ensures ArgumentsOf(9, x) == Arguments(x[9], 0x8b44_f7af, 12)
    ensures ArgumentsOf(10, x) == Arguments(x[10], 0xffff_5bb1, 17)
    ensures ArgumentsOf(11, x) == Arguments(x[11], 0x895c_d7be, 22)
    ensures ArgumentsOf(12, x) == Arguments(x[12], 0x6b90_1122, 7)
    ensures ArgumentsOf(13, x) == Arguments(x[13], 0xfd98_7193, 12)
    ensures ArgumentsOf(14, x) == Arguments(x[14], 0xa679_438e, 17)
    ensures ArgumentsOf(15, x) == Arguments(x[15], 0x49b4_0821, 22)
  {}

  lemma ArgumentsG(x: seq<Word>)
    requires |x| == 16
    ensures ArgumentsOf(16, x) == Arguments(x[1], 0xf61e_2562, 5)
    ensures ArgumentsOf(17, x) == Arguments(x[6], 0xc040_b340, 9)
    ensures ArgumentsOf(18, x) == Arguments(x[11], 0x265e_5a51, 14)
    ensures ArgumentsOf(19, x) == Arguments(x[0], 0xe9b6_c7aa, 20)
    ensures ArgumentsOf(20, x) == Arguments(x[5], 0xd62f_105d, 5)
    ensures ArgumentsOf(21, x) == Arguments(x[10], 0x0244_1453, 9)
    ensures ArgumentsOf(22, x) == Arguments(x[15], 0xd8a1_e681, 14)
    ensures ArgumentsOf(23, x) == Arguments(x[4], 0xe7d3_fbc8, 20)
    ensures ArgumentsOf(24, x) == Arguments(x[9], 0x21e1_cde6, 5)
    ensures ArgumentsOf(25, x) == Arguments(x[14], 0xc337_07d6, 9)
    ensures ArgumentsOf(26, x) == Arguments(x[3], 0xf4d5_0d87, 14)
    ensures ArgumentsOf(27, x) == Arguments(x[8], 0x455a_14ed, 20)
    ensures ArgumentsOf(28, x) == Arguments(x[13], 0xa9e3_e905, 5)
    ensures ArgumentsOf(29, x) == Arguments(x[2], 0xfcef_a3f8, 9)
    ensures ArgumentsOf(30, x) == Arguments(x[7], 0x676f_02d9, 14)
    ensures ArgumentsOf(31, x) == Arguments(x[12], 0x8d2a_4c8a, 20)
  {
    hide ArgumentsOf;
    EarlyG(x);
    LateG(x);
  }

  lemma EarlyG(x: seq<Word>)
    requires |x| == 16
    ensures ArgumentsOf(16, x) == Arguments(x[1], 0xf61e_2562, 5)
    ensures ArgumentsOf(17, x) == Arguments(x[6], 0xc040_b340, 9)
    ensures ArgumentsOf(18, x) == Arguments(x[11], 0x265e_5a51, 14)
    ensures ArgumentsOf(19, x) == Arguments(x[0], 0xe9b6_c7aa, 20)
    ensures ArgumentsOf(20, x) == Arguments(x[5], 0xd62f_105d, 5)
    ensures ArgumentsOf(21, x) == Arguments(x[10], 0x0244_1453, 9)
    ensures ArgumentsOf(22, x) == Arguments(x[15], 0xd8a1_e681, 14)
    ensures ArgumentsOf(23, x) == Arguments(x[4], 0xe7d3_fbc8, 20)
  {}

  lemma LateG(x: seq<Word>)
    requires |x| == 16
    ensures ArgumentsOf(24, x) == Arguments(x[9], 0x21e1_cde6, 5)
    ensures ArgumentsOf(25, x) == Arguments(x[14], 0xc337_07d6, 9)
    ensures ArgumentsOf(26, x) == Arguments(x[3], 0xf4d5_0d87, 14)
    ensures ArgumentsOf(27, x) == Arguments(x[8], 0x455a_14ed, 20)
    ensures ArgumentsOf(28, x) == Arguments(x[13], 0xa9e3_e905, 5)
    ensures ArgumentsOf(29, x) == Arguments(x[2], 0xfcef_a3f8, 9)
    ensures ArgumentsOf(30, x) == Arguments(x[7], 0x676f_02d9, 14)
    ensures ArgumentsOf(31, x) == Arguments(x[12], 0x8d2a_4c8a, 20)
  {}

  lemma ArgumentsH(x: seq<Word>)
    requires |x| == 16
    ensures ArgumentsOf(32, x) == Arguments(x[5], 0xfffa_3942, 4)
    ensures ArgumentsOf(33, x) == Arguments(x[8], 0x8771_f681, 11)
    ensures ArgumentsOf(34, x) == Arguments(x[11], 0x6d9d_6122, 16)
    ensures ArgumentsOf(35, x) == Arguments(x[14], 0xfde5_380c, 23)
    ensures ArgumentsOf(36, x) == Arguments(x[1], 0xa4be_ea44, 4)
    ensures ArgumentsOf(37, x) == Arguments(x[4], 0x4bde_cfa9, 11)
    ensures ArgumentsOf(38, x) == Arguments(x[7], 0xf6bb_4b60, 16)
    ensures ArgumentsOf(39, x) == Arguments(x[10], 0xbebf_bc70, 23)
    ensures ArgumentsOf(40, x) == Arguments(x[13], 0x289b_7ec6, 4)
    ensures ArgumentsOf(41, x) == Arguments(x[0], 0xeaa1_27fa, 11)
    ensures ArgumentsOf(42, x) == Arguments(x[3], 0xd4ef_3085, 16)
    ensures ArgumentsOf(43, x) == Arguments(x[6], 0x0488_1d05, 23)
    ensures ArgumentsOf(44, x) == Arguments(x[9], 0xd9d4_d039, 4)
    ensures ArgumentsOf(45, x) == Arguments(x[12], 0xe6db_99e5, 11)
    ensures ArgumentsOf(46, x) == Arguments(x[15], 0x1fa2_7cf8, 16)
    ensures ArgumentsOf(47, x) == Arguments(x[2], 0xc4ac_5665, 23)
  {
    hide ArgumentsOf;
    EarlyH(x);
    LateH(x);
  }

  lemma EarlyH(x: seq<Word>)
    requires |x| == 16
    ensures ArgumentsOf(32, x) == Arguments(x[5], 0xfffa_3942, 4)
    ensures ArgumentsOf(33, x) == Arguments(x[8], 0x8771_f681, 11)
    ensures ArgumentsOf(34, x) == Arguments(x[11], 0x6d9d_6122, 16)
    ensures ArgumentsOf(35, x) == Arguments(x[14], 0xfde5_380c, 23)
    ensures ArgumentsOf(36, x) == Arguments(x[1], 0xa4be_ea44, 4)
    ensures ArgumentsOf(37, x) == Arguments(x[4], 0x4bde_cfa9, 11)
    ensures ArgumentsOf(38, x) == Arguments(x[7], 0xf6bb_4b60, 16)
    ensures ArgumentsOf(39, x) == Arguments(x[10], 0xbebf_bc70, 23)
  {}

  lemma LateH(x: seq<Word>)
    requires |x| == 16
    ensures ArgumentsOf(40, x) == Arguments(x[13], 0x289b_7ec6, 4)
    ensures ArgumentsOf(41, x) == Arguments(x[0], 0xeaa1_27fa, 11)
    ensures ArgumentsOf(42, x) == Arguments(x[3], 0xd4ef_3085, 16)
    ensures ArgumentsOf(43, x) == Arguments(x[6], 0x0488_1d05, 23)
    ensures ArgumentsOf(44, x) == Arguments(x[9], 0xd9d4_d039, 4)
    ensures ArgumentsOf(45, x) == Arguments(x[12], 0xe6db_99e5, 11)
    ensures ArgumentsOf(46, x) == Arguments(x[15], 0x1fa2_7cf8, 16)
    ensures ArgumentsOf(47, x) == Arguments(x[2], 0xc4ac_5665, 23)
  {}

  lemma ArgumentsI(x: seq<Word>)
    requires |x| == 16
    ensures ArgumentsOf(48, x) == Arguments(x[0], 0xf429_2244, 6)
    ensures ArgumentsOf(49, x) == Arguments(x[7], 0x432a_ff97, 10)
    ensures ArgumentsOf(50, x) == Arguments(x[14], 0xab94_23a7, 15)
    ensures ArgumentsOf(51, x) == Arguments(x[5], 0xfc93_a039, 21)
    ensures ArgumentsOf(52, x) == Arguments(x[12], 0x655b_59c3, 6)
    ensures ArgumentsOf(53, x) == Arguments(x[3], 0x8f0c_cc92, 10)
    ensures ArgumentsOf(54, x) == Arguments(x[10], 0xffef_f47d, 15)
    ensures ArgumentsOf(55, x) == Arguments(x[1], 0x8584_5dd1, 21)
    ensures ArgumentsOf(56, x) == Arguments(x[8], 0x6fa8_7e4f, 6)
    ensures ArgumentsOf(57, x) == Arguments(x[15], 0xfe2c_e6e0, 10)
    ensures ArgumentsOf(58, x) == Arguments(x[6], 0xa301_4314, 15)
    ensures ArgumentsOf(59, x) == Arguments(x[13], 0x4e08_11a1, 21)
    ensures ArgumentsOf(60, x) == Arguments(x[4], 0xf753_7e82, 6)
    ensures ArgumentsOf(61, x) == Arguments(x[11], 0xbd3a_f235, 10)
    ensures ArgumentsOf(62, x) == Arguments(x[2], 0x2ad7_d2bb, 15)
    ensures ArgumentsOf(63, x) == Arguments(x[9], 0xeb86_d391, 21)
  {
    hide ArgumentsOf;
    EarlyI(x);
    LateI(x);
  }

  lemma EarlyI(x: seq<Word>)
    requires |x| == 16
    ensures ArgumentsOf(48, x) == Arguments(x[0], 0xf429_2244, 6)
    ensures ArgumentsOf(49, x) == Arguments(x[7], 0x432a_ff97, 10)
    ensures ArgumentsOf(50, x) == Arguments(x[14], 0xab94_23a7, 15)
    ensures ArgumentsOf(51, x) == Arguments(x[5], 0xfc93_a039, 21)
    ensures ArgumentsOf(52, x) == Arguments(x[12], 0x655b_59c3, 6)
    ensures ArgumentsOf(53, x) == Arguments(x[3], 0x8f0c_cc92, 10)
    ensures ArgumentsOf(54, x) == Arguments(x[10], 0xffef_f47d, 15)
    ensures ArgumentsOf(55, x) == Arguments(x[1], 0x8584_5dd1, 21)
  {}

  lemma LateI(x: seq<Word>)
    requires |x| == 16
    ensures ArgumentsOf(56, x) == Arguments(x[8], 0x6fa8_7e4f, 6)
    ensures ArgumentsOf(57, x) == Arguments(x[15], 0xfe2c_e6e0, 10)
    ensures ArgumentsOf(58, x) == Arguments(x[6], 0xa301_4314, 15)
    ensures ArgumentsOf(59, x) == Arguments(x[13], 0x4e08_11a1, 21)
    ensures ArgumentsOf(60, x) == Arguments(x[4], 0xf753_7e82, 6)
    ensures ArgumentsOf(61, x) == Arguments(x[11], 0xbd3a_f235, 10)
    ensures ArgumentsOf(62, x) == Arguments(x[2], 0x2ad7_d2bb, 15)
    ensures ArgumentsOf(63, x) == Arguments(x[9], 0xeb86_d391, 21)
  {}

  /** Round 1, with the registers of the source */
  method RoundOne(u: Words, x: seq<Word>, ghost w: Words) returns (v: Words)
    requires |x| == 16 && u == Ops(0, w, x)
    ensures v == Ops(16, w, x)
  {
    hide Ops, StepF, StepG, StepH, StepI, ArgumentsOf;
    ArgumentsF(x);
    var a, b, c, d := u.a, u.b, u.c, u.d;
    a := StepF(a, b, c, d, x[0], 0xd76a_a478, 7);
    d := StepF(d, a, b, c, x[1], 0xe8c7_b756, 12);
    c := StepF(c, d, a, b, x[2], 0x2420_70db, 17);
    b := StepF(b, c, d, a, x[3], 0xc1bd_ceee, 22);
    OpsF(0, w, x);
    assert Words(a, b, c, d) == Ops(4, w, x);
    a := StepF(a, b, c, d, x[4], 0xf57c_0faf, 7);
    d := StepF(d, a, b, c, x[5], 0x4787_c62a, 12);
    c := StepF(c, d, a, b, x[6], 0xa830_4613, 17);
    b := StepF(b, c, d, a, x[7], 0xfd46_9501, 22);
    OpsF(4, w, x);
    assert Words(a, b, c, d) == Ops(8, w, x);
    a := StepF(a, b, c, d, x[8], 0x6980_98d8, 7);
    d := StepF(d, a, b, c, x[9], 0x8b44_f7af, 12);
    c := StepF(c, d, a, b, x[10], 0xffff_5bb1, 17);
    b := StepF(b, c, d, a, x[11], 0x895c_d7be, 22);
    OpsF(8, w, x);
    assert Words(a, b, c, d) == Ops(12, w, x);
    a := StepF(a, b, c, d, x[12], 0x6b90_1122, 7);
    d := StepF(d, a, b, c, x[13], 0xfd98_7193, 12);
    c := StepF(c, d, a, b, x[14], 0xa679_438e, 17);
    b := StepF(b, c, d, a, x[15], 0x49b4_0821, 22);
    OpsF(12, w, x);
    assert Words(a, b, c, d) == Ops(16, w, x);
    v := Words(a, b, c, d);
  }

  /** Round 2, with the registers of the source */
  method RoundTwo(u: Words, x: seq<Word>, ghost w: Words) returns (v: Words)
    requires |x| == 16 && u == Ops(16, w, x)
    ensures v == Ops(32, w, x)
  {
    hide Ops, StepF, StepG, StepH, StepI, ArgumentsOf;
    ArgumentsG(x);
    var a, b, c, d := u.a, u.b, u.c, u.d;
    a := StepG(a, b, c, d, x[1], 0xf61e_2562, 5);
    d := StepG(d, a, b, c, x[6], 0xc040_b340, 9);
    c := StepG(c, d, a, b, x[11], 0x265e_5a51, 14);
    b := StepG(b, c, d, a, x[0], 0xe9b6_c7aa, 20);
    OpsG(16, w, x);
    assert Words(a, b, c, d) == Ops(20, w, x);
    a := StepG(a, b, c, d, x[5], 0xd62f_105d, 5);
    d := StepG(d, a, b, c, x[10], 0x0244_1453, 9);
    c := StepG(c, d, a, b, x[15], 0xd8a1_e681, 14);
    b := StepG(b, c, d, a, x[4], 0xe7d3_fbc8, 20);
    OpsG(20, w, x);
    assert Words(a, b, c, d) == Ops(24, w, x);
    a := StepG(a, b, c, d, x[9], 0x21e1_cde6, 5);
    d := StepG(d, a, b, c, x[14], 0xc337_07d6, 9);
    c := StepG(c, d, a, b, x[3], 0xf4d5_0d87, 14);
    b := StepG(b, c, d, a, x[8], 0x455a_14ed, 20);
    OpsG(24, w, x);
    assert Words(a, b, c, d) == Ops(28, w, x);
    a := StepG(a, b, c, d, x[13], 0xa9e3_e905, 5);
    d := StepG(d, a, b, c, x[2], 0xfcef_a3f8, 9);
    c := StepG(c, d, a, b, x[7], 0x676f_02d9, 14);
    b := StepG(b, c, d, a, x[12], 0x8d2a_4c8a, 20);
    OpsG(28, w, x);
    assert Words(a, b, c, d) == Ops(32, w, x);
    v := Words(a, b, c, d);
  }

  /** Round 3, with the registers of the source */
  method RoundThree(u: Words, x: seq<Word>, ghost w: Words) returns (v: Words)
    requires |x| == 16 && u == Ops(32, w, x)
    ensures v == Ops(48, w, x)
  {
    hide Ops, StepF, StepG, StepH, StepI, ArgumentsOf;
    ArgumentsH(x);
    var a, b, c, d := u.a, u.b, u.c, u.d;
    a := StepH(a, b, c, d, x[5], 0xfffa_3942, 4);
    d := StepH(d, a, b, c, x[8], 0x8771_f681, 11);
    c := StepH(c, d, a, b, x[11], 0x6d9d_6122, 16);
    b := StepH(b, c, d, a, x[14], 0xfde5_380c, 23);
    OpsH(32, w, x);
    assert Words(a, b, c, d) == Ops(36, w, x);
    a := StepH(a, b, c, d, x[1], 0xa4be_ea44, 4);
    d := StepH(d, a, b, c, x[4], 0x4bde_cfa9, 11);
    c := StepH(c, d, a, b, x[7], 0xf6bb_4b60, 16);
    b := StepH(b, c, d, a, x[10], 0xbebf_bc70, 23);
    OpsH(36, w, x);
    assert Words(a, b, c, d) == Ops(40, w, x);
    a := StepH(a, b, c, d, x[13], 0x289b_7ec6, 4);
    d := StepH(d, a, b, c, x[0], 0xeaa1_27fa, 11);
    c := StepH(c, d, a, b, x[3], 0xd4ef_3085, 16);
    b := StepH(b, c, d, a, x[6], 0x0488_1d05, 23);
    OpsH(40, w, x);
    assert Words(a, b, c, d) == Ops(44, w, x);
    a := StepH(a, b, c, d, x[9], 0xd9d4_d039, 4);
    d := StepH(d, a, b, c, x[12], 0xe6db_99e5, 11);
    c := StepH(c, d, a, b, x[15], 0x1fa2_7cf8, 16);
    b := StepH(b, c, d, a, x[2], 0xc4ac_5665, 23);
    OpsH(44, w, x);
    assert Words(a, b, c, d) == Ops(48, w, x);
    v := Words(a, b, c, d);
  }

  /** Round 4, with the registers of the source */
  method RoundFour(u: Words, x: seq<Word>, ghost w: Words) returns (v: Words)
    requires |x| == 16 && u == Ops(48, w, x)
    ensures v == Ops(64, w, x)
  {
    hide Ops, StepF, StepG, StepH, StepI, ArgumentsOf;
    ArgumentsI(x);
    var a, b, c, d := u.a, u.b, u.c, u.d;
    a := StepI(a, b, c, d, x[0], 0xf429_2244, 6);
    d := StepI(d, a, b, c, x[7], 0x432a_ff97, 10);
    c := StepI(c, d, a, b, x[14], 0xab94_23a7, 15);
    b := StepI(b, c, d, a, x[5], 0xfc93_a039, 21);
    OpsI(48, w, x);
    assert Words(a, b, c, d) == Ops(52, w, x);
    a := StepI(a, b, c, d, x[12], 0x655b_59c3, 6);
    d := StepI(d, a, b, c, x[3], 0x8f0c_cc92, 10);
    c := StepI(c, d, a, b, x[10], 0xffef_f47d, 15);
    b := StepI(b, c, d, a, x[1], 0x8584_5dd1, 21);
    OpsI(52, w, x);
    assert Words(a, b, c, d) == Ops(56, w, x);
    a := StepI(a, b, c, d, x[8], 0x6fa8_7e4f, 6);
    d := StepI(d, a, b, c, x[15], 0xfe2c_e6e0, 10);
    c := StepI(c, d, a, b, x[6], 0xa301_4314, 15);
    b := StepI(b, c, d, a, x[13], 0x4e08_11a1, 21);
    OpsI(56, w, x);
    assert Words(a, b, c, d) == Ops(60, w, x);
    a := StepI(a, b, c, d, x[4], 0xf753_7e82, 6);
    d := StepI(d, a, b, c, x[11], 0xbd3a_f235, 10);
    c := StepI(c, d, a, b, x[2], 0x2ad7_d2bb, 15);
    b := StepI(b, c, d, a, x[9], 0xeb86_d391, 21);
    OpsI(60, w, x);
    assert Words(a, b, c, d) == Ops(64, w, x);
    v := Words(a, b, c, d);
  }

  // ----- Blocks -----

  /** SET and the four rounds on one block, and the sums with the saved registers. */
  method Block(w: Words, block: seq<Octet>) returns (v: Words)
    requires |block| == 64
    ensures v == Compress(w, block)
  {
    hide Ops, WordOf, WordsOf;
    var x: seq<Word> := [];
    WordsStart(block);
    for n := 0 to 16
      invariant x == WordsOf(block, n)
    {
      WordsNext(block, n);
      x := x + [WordOf([block[4 * n], block[4 * n + 1], block[4 * n + 2], block[4 * n + 3]])];
    }
    OpsStart(w, x);
    v := RoundOne(w, x, w);
    v := RoundTwo(v, x, w);
    v := RoundThree(v, x, w);
    v := RoundFour(v, x, w);
    v := Plus(v, w); // a += saved_a and so on
  }

  lemma OpsStart(w: Words, x: seq<Word>)
    requires |x| == 16
    ensures Ops(0, w, x) == w
  {}

  lemma WordsStart(block: seq<Octet>)
    ensures WordsOf(block, 0) == []
  {}

  lemma WordsNext(block: seq<Octet>, n: nat)
    requires 4 * n + 4 <= |block|
    ensures WordsOf(block, n + 1) == WordsOf(block, n) + [WordOf([block[4 * n], block[4 * n + 1], block[4 * n + 2],
                                                                  block[4 * n + 3]])]
  {
    assert block[4 * n..4 * n + 4] == [block[4 * n], block[4 * n + 1], block[4 * n + 2], block[4 * n + 3]];
  }

  lemma FoldNext(w: Words, d: seq<Octet>, p: nat)
    requires p % 64 == 0 && p + 64 <= |d|
    ensures Fold(w, d[..p + 64]) == Compress(Fold(w, d[..p]), d[p..p + 64])
  {
    var e := d[..p + 64];
    assert e[..|e| - 64] == d[..p] && e[|e| - 64..] == d[p..p + 64];
  }

  lemma {:induction false} FoldConcat(w: Words, a: seq<Octet>, b: seq<Octet>)
    requires |a| % 64 == 0 && |b| % 64 == 0
    ensures (|a| + |b|) % 64 == 0 && Fold(w, a + b) == Fold(Fold(w, a), b)
    decreases |b|
  {
    hide Compress;
    if b == [] {
      assert a + b == a;
    } else {
      var n := |b| - 64;
      FoldConcat(w, a, b[..n]);
      assert (a + b)[..|a + b| - 64] == a + b[..n] && (a + b)[|a + b| - 64..] == b[n..];
    }
  }

  /** cc_md5_body: one or more blocks, as the fold of single blocks. */
  method Body(w: Words, data: seq<Octet>) returns (v: Words)
    requires |data| > 0 && |data| % 64 == 0
    ensures v == Fold(w, data)
  {
    hide Compress, Fold;
    v := w;
    var p, size, more := 0, |data|, true;
    FoldNothing(w);
    assert data[..0] == [];
    while more // do ... while (size -= 64)
      invariant p + size == |data| && p % 64 == 0 && size >= 0 && (more <==> size != 0)
      invariant v == Fold(w, data[..p])
      decreases size
    {
      FoldNext(w, data, p);
      v := Block(v, data[p..p + 64]);
      p, size := p + 64, size - 64;
      more := size != 0;
    }
    assert data[..p] == data;
  }

  lemma FoldNothing(w: Words)
    ensures Fold(w, []) == w
  {}

  // ----- Streams -----

  /** The whole blocks of a message, and what is left. */
  function Whole(m: seq<Octet>): (d: seq<Octet>)
    ensures |d| == |m| - |m| % 64 && |d| % 64 == 0
  {
    m[..|m| - |m| % 64]
  }

  function Tail(m: seq<Octet>): (d: seq<Octet>)
    ensures |d| == |m| % 64 && m == Whole(m) + d
  {
    m[|m| - |m| % 64..]
  }

  lemma TailGrows(m: seq<Octet>, d: seq<Octet>)
    requires |Tail(m)| + |d| < 64
    ensures Whole(m + d) == Whole(m) && Tail(m + d) == Tail(m) + d
  {
    assert |m + d| - |m + d| % 64 == |m| - |m| % 64;
  }

  lemma TailFills(m: seq<Octet>, d: seq<Octet>)
    requires |Tail(m)| + |d| == 64
    ensures Tail(m + d) == [] && Fold(INIT, Whole(m + d)) == Compress(Fold(INIT, Whole(m)), Tail(m) + d)
  {
    hide Compress, Fold;
    var e := Tail(m) + d;
    assert |m + d| % 64 == 0;
    assert Whole(m + d) == m + d == Whole(m) + e;
    FoldConcat(INIT, Whole(m), e);
    FoldOne(Fold(INIT, Whole(m)), e);
  }

  lemma FoldOne(w: Words, e: seq<Octet>)
    requires |e| == 64
    ensures Fold(w, e) == Compress(w, e)
  {
    hide Compress;
    assert e[..0] == [] && e[0..] == e;
  }

  lemma WholeGrows(m: seq<Octet>, d: seq<Octet>)
    requires Tail(m) == [] && |d| % 64 == 0
    ensures Tail(m + d) == [] && Fold(INIT, Whole(m + d)) == Fold(Fold(INIT, Whole(m)), d)
  {
    hide Fold, Whole, Tail;
    LengthMod(m, d);
    WholeOf(m);
    FoldConcat(INIT, m, d);
    WholeOf(m + d);
  }

  lemma LengthMod(m: seq<Octet>, d: seq<Octet>)
    requires Tail(m) == [] && |d| % 64 == 0
    ensures |m| % 64 == 0 && |m + d| % 64 == 0
  {}

  lemma WholeOf(m: seq<Octet>)
    requires |m| % 64 == 0
    ensures Whole(m) == m && Tail(m) == []
  {
    assert m[..|m|] == m;
  }

  /** cc_md5_t */
  class Md5Context {
    var a: Word
    var b: Word
    var c: Word
    var d: Word
    var bytes: nat
    const buffer: array<Octet>

    /** The registers and the buffer after the octets of m. */
    ghost predicate Holds(m: seq<Octet>)
      reads this`a, this`b, this`c, this`d, buffer
    {
      buffer.Length == 64 && Words(a, b, c, d) == Fold(INIT, Whole(m)) && buffer[..|m| % 64] == Tail(m)
    }

    /** The context has absorbed m. */
    ghost predicate Absorbed(m: seq<Octet>)
      reads this, buffer
    {
      Holds(m) && bytes == |m| % TWO_64
    }

    /** cc_md5_init */
    constructor ()
      ensures Absorbed([]) && fresh(buffer)
    {
      a, b, c, d := INIT.a, INIT.b, INIT.c, INIT.d;
      bytes := 0;
      buffer := new Octet[64];
      new;
      FoldNothing(INIT);
    }

    method SetWords(w: Words)
      modifies this`a, this`b, this`c, this`d
      ensures Words(a, b, c, d) == w
    {
      a, b, c, d := w.a, w.b, w.c, w.d;
    }

    /** memcpy into the buffer from used on */
    method CopyIn(used: nat, data: seq<Octet>)
      requires buffer.Length == 64 && used + |data| <= 64
      modifies buffer
      ensures buffer[..used] == old(buffer[..used]) && buffer[used..used + |data|] == data
      ensures buffer[..used + |data|] == old(buffer[..used]) + data
    {
      forall i | 0 <= i < |data| {
        buffer[used + i] := data[i];
      }
    }

    /** The buffer is filled up and compressed. */
    method FillUp(used: nat, data: seq<Octet>, ghost m: seq<Octet>)
      requires Holds(m) && used == |m| % 64 && used + |data| == 64
      modifies this`a, this`b, this`c, this`d, buffer
      ensures Holds(m + data) && Tail(m + data) == []
    {
      hide Compress, Fold, Whole, Tail;
      CopyIn(used, data);
      assert buffer[..] == buffer[..used + |data|];
      CompressBuffer(m, data);
    }

    /** The full buffer is compressed: what was left of m, and data. */
    method CompressBuffer(ghost m: seq<Octet>, ghost data: seq<Octet>)
      requires buffer.Length == 64 && Words(a, b, c, d) == Fold(INIT, Whole(m)) && buffer[..] == Tail(m) + data
      modifies this`a, this`b, this`c, this`d
      ensures Holds(m + data) && Tail(m + data) == []
    {
      hide Compress, Fold, Whole, Tail;
      TailFills(m, data);
      FoldOne(Words(a, b, c, d), buffer[..]);
      var w := Body(Words(a, b, c, d), buffer[..]);
      SetWords(w);
      TailLength(m + data);
      assert buffer[..0] == [];
    }

    /** Whole blocks are compressed where they are; the rest goes into the empty buffer. */
    method AbsorbRest(data: seq<Octet>, ghost m: seq<Octet>)
      requires Holds(m) && Tail(m) == []
      modifies this`a, this`b, this`c, this`d, buffer
      ensures Holds(m + data)
    {
      hide Fold, Whole, Tail;
      var rest := data;
      ghost var n := m;
      if |rest| >= 64 {
        var blocks := rest[..|rest| - |rest| % 64]; // size & ~0x3f
        WholeGrows(n, blocks);
        var w := Body(Words(a, b, c, d), blocks);
        SetWords(w);
        n, rest := n + blocks, rest[|rest| - |rest| % 64..];
      }
      assert n + rest == m + data;
      TailLength(n);
      TailGrows(n, rest);
      TailLength(n + rest);
      CopyIn(0, rest);
      assert [] + rest == rest;
    }

    /** cc_md5_update after the count: what was absorbed grows by data. */
    method Absorb(used: nat, data: seq<Octet>, ghost m: seq<Octet>)
      requires Holds(m) && used == |m| % 64
      modifies this`a, this`b, this`c, this`d, buffer
      ensures Holds(m + data)
    {
      hide Fold, Whole, Tail;
      if used != 0 {
        var free := 64 - used;
        if |data| < free {
          TailGrows(m, data);
          TailLength(m + data);
          CopyIn(used, data);
          return;
        }
        FillUp(used, data[..free], m);
        AbsorbRest(data[free..], m + data[..free]);
        assert m + data[..free] + data[free..] == m + data;
      } else {
        TailLength(m);
        AbsorbRest(data, m);
      }
    }

    /** memset of the buffer from used to end with zero */
    method Clear(used: nat, end: nat)
      requires buffer.Length == 64 && used <= end <= 64
      modifies buffer
      ensures buffer[..end] == old(buffer[..used]) + Zeros(end - used)
    {
      forall i | used <= i < end {
        buffer[i] := 0;
      }
    }

    /** The eight octets of the length, low order first */
    method PutLength(bits: nat)
      requires buffer.Length == 64
      modifies buffer
      ensures buffer[..] == old(buffer[..56]) + OctetsOf(bits, 8)
    {
      hide OctetsOf;
      EightOctets(bits);
      buffer[56] := (bits % 256) as Octet;
      buffer[57] := (bits / 0x100 % 256) as Octet;
      buffer[58] := (bits / 0x1_0000 % 256) as Octet;
      buffer[59] := (bits / 0x100_0000 % 256) as Octet;
      buffer[60] := (bits / 0x1_0000_0000 % 256) as Octet;
      buffer[61] := (bits / 0x100_0000_0000 % 256) as Octet;
      buffer[62] := (bits / 0x1_0000_0000_0000 % 256) as Octet;
      buffer[63] := (bits / 0x100_0000_0000_0000 % 256) as Octet;
    }

    /** cc_md5_update */
    method Update(data: seq<Octet>, ghost m: seq<Octet>)
      requires Absorbed(m) && |data| < TWO_64
      modifies this`a, this`b, this`c, this`d, this`bytes, buffer
      ensures Absorbed(m + data)
    {
      hide Fold, Whole, Tail, Holds;
      var used := bytes % 64;
      CountMod(|m|, |data|);
      bytes := (bytes + |data|) % TWO_64;
      Absorb(used, data, m);
    }

    /** The end of the message is padded and compressed; two cases, as the length fits or not. */
    method Finish(ghost m: seq<Octet>)
      requires Absorbed(m)
      modifies this`a, this`b, this`c, this`d, this`bytes, buffer
      ensures Words(a, b, c, d) == Fold(INIT, PaddedMessage(m))
    {
      hide Fold, Whole, Tail, Zeros, OctetsOf, PaddedMessage;
      var used := bytes % 64;
      CountMod(|m|, 0);
      TailLength(m);
      CopyIn(used, [0x80]);
      used := used + 1;
      ghost var n, data: seq<Octet> := m, [0x80];
      var free := 64 - used;
      if free < 8 {
        Clear(used, 64);
        data := [0x80] + Zeros(free);
        assert buffer[..] == buffer[..64] == Tail(m) + [0x80] + Zeros(free);
        assert Tail(m) + [0x80] + Zeros(free) == Tail(m) + data;
        CompressBuffer(m, data);
        n, data := m + data, [];
        TailLength(n);
        used, free := 0, 64;
      }
      assert buffer[..used] == Tail(n) + data;
      Clear(used, used + free - 8);
      assert buffer[..56] == Tail(n) + data + Zeros(free - 8);
      bytes := bytes * 8 % TWO_64;
      PutLength(bytes);
      BitCount(|m|);
      ghost var last := data + Zeros(free - 8) + OctetsOf(8 * |m| % TWO_64, 8);
      assert buffer[..] == Tail(n) + last;
      CompressBuffer(n, last);
      if |m| % 64 < 56 {
        PadsOnce(m, last);
      } else {
        PadsTwice(m, n, last);
      }
      assert PaddedMessage(m) == n + last;
      WholeOf(PaddedMessage(m));
    }

    /** result[at..at + 4] := w, low order first */
    static method PutWord(result: array<Octet>, at: nat, w: Word)
      requires at + 4 <= result.Length
      modifies result
      ensures result[..at] == old(result[..at]) && result[..at + 4] == old(result[..at]) + WordOctets(w)
    {
      var o := WordOctets(w);
      result[at] := o[0];
      result[at + 1] := o[1];
      result[at + 2] := o[2];
      result[at + 3] := o[3];
    }

    /** cc_md5_final: the digest, and a context of zeros. */
    method Final(result: array<Octet>, ghost m: seq<Octet>)
      requires Absorbed(m) && result.Length == 16 && result != buffer
      modifies this`a, this`b, this`c, this`d, this`bytes, buffer, result
      ensures result[..] == Digest(m)
      ensures Words(a, b, c, d) == Words(0, 0, 0, 0) && bytes == 0 && buffer[..] == Zeros(64)
    {
      hide Fold, PaddedMessage, WordOctets, Holds;
      Size();
      Finish(m);
      PutWord(result, 0, a);
      PutWord(result, 4, b);
      PutWord(result, 8, c);
      PutWord(result, 12, d);
      assert result[..0] == [];
      assert result[..] == result[..16];
      assert [] + WordOctets(a) == WordOctets(a);
      a, b, c, d, bytes := 0, 0, 0, 0, 0;
      Clear(0, 64);
      assert buffer[..] == buffer[..64];
      assert [] + Zeros(64) == Zeros(64);
    }

    lemma Size()
      requires exists m :: Holds(m)
      ensures buffer.Length == 64
    {}
  }

  /** However a message is cut into updates, the digest is that of the whole message. */
  method DigestOf(pieces: seq<seq<Octet>>) returns (result: array<Octet>)
    requires forall k :: 0 <= k < |pieces| ==> |pieces[k]| < TWO_64
    ensures result.Length == 16 && result[..] == Digest(Concat(pieces))
  {
    hide Digest, Md5Context.Absorbed;
    var context := new Md5Context();
    var k := 0;
    ghost var m: seq<Octet> := [];
    assert Concat(pieces[..0]) == [];
    while k < |pieces|
      invariant k <= |pieces| && fresh(context) && fresh(context.buffer)
      invariant m == Concat(pieces[..k]) && context.Absorbed(m)
    {
      context.Update(pieces[k], m);
      assert pieces[..k + 1][..k] == pieces[..k];
      m := m + pieces[k];
      k := k + 1;
    }
    assert pieces[..k] == pieces;
    result := new Octet[16];
    context.Final(result, m);
  }

  lemma BitCount(n: nat)
    ensures n % TWO_64 * 8 % TWO_64 == 8 * n % TWO_64
  {
    var q := n / TWO_64;
    assert n == TWO_64 * q + n % TWO_64;
    assert 8 * n == n % TWO_64 * 8 + TWO_64 * (8 * q);
  }

  /** The length fits behind the rest of the message. */
  lemma PadsOnce(m: seq<Octet>, last: seq<Octet>)
    requires |m| % 64 < 56 && last == [0x80] + Zeros(55 - |m| % 64) + OctetsOf(8 * |m| % TWO_64, 8)
    ensures PaddedMessage(m) == m + last
  {
    hide OctetsOf, Zeros;
    ZerosCount(|m|);
  }

  /** The length goes into a block of its own. */
  lemma PadsTwice(m: seq<Octet>, n: seq<Octet>, last: seq<Octet>)
    requires |m| % 64 >= 56 && n == m + ([0x80] + Zeros(63 - |m| % 64))
    requires last == [] + Zeros(56) + OctetsOf(8 * |m| % TWO_64, 8)
    ensures PaddedMessage(m) == n + last
  {
    hide OctetsOf, Zeros;
    ZerosCount(|m|);
    var x, y, z, o := [0x80 as Octet], Zeros(63 - |m| % 64), Zeros(56), OctetsOf(8 * |m| % TWO_64, 8);
    ZerosJoin(63 - |m| % 64, 56);
    assert m + (x + y) + ([] + z + o) == m + (x + (y + z) + o);
  }

  lemma ZerosCount(n: nat)
    ensures ZerosAfter(n) == if n % 64 < 56 then 55 - n % 64 else 119 - n % 64
  {}

  lemma {:induction false} ZerosJoin(i: nat, j: nat)
    ensures Zeros(i) + Zeros(j) == Zeros(i + j)
    decreases j
  {
    if j == 0 {
      assert Zeros(i) + [] == Zeros(i);
    } else {
      ZerosJoin(i, j - 1);
      assert Zeros(i) + (Zeros(j - 1) + [0]) == Zeros(i) + Zeros(j - 1) + [0];
    }
  }

  lemma TailLength(m: seq<Octet>)
    ensures |Tail(m)| == |m| % 64 && (|m| % 64 == 0 ==> Tail(m) == [])
  {}

  /** The count is taken modulo 2^64, which 64 divides. */
  lemma CountMod(n: nat, size: nat)
    ensures n % TWO_64 % 64 == n % 64 && (n % TWO_64 + size) % TWO_64 == (n + size) % TWO_64
  {
    assert n % TWO_64 % 64 == n % 64;
    assert n == TWO_64 * (n / TWO_64) + n % TWO_64;
    assert (n % TWO_64 + size) % TWO_64 == (n + size) % TWO_64;
  }
}
