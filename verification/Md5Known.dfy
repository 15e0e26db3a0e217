/** A known answer of RFC 1321, section A.5: the digest of the 26 letters. It fixes every constant, every order
    of octets and words, and every rotation. */
module Md5Known {
  import opened Md5

  const LETTERS: seq<Octet> := [
    97, 98, 99, 100, 101, 102, 103, 104, 105, 106, 107, 108, 109,
    110, 111, 112, 113, 114, 115, 116, 117, 118, 119, 120, 121, 122]

  /** The 26 letters, padded, as words. */
  const LETTER_WORDS: seq<Word> := [
    0x6463_6261, 0x6867_6665, 0x6c6b_6a69, 0x706f_6e6d, 0x7473_7271, 0x7877_7675, 0x0080_7a79, 0x0000_0000,
    0x0000_0000, 0x0000_0000, 0x0000_0000, 0x0000_0000, 0x0000_0000, 0x0000_0000, 0x0000_00d0, 0x0000_0000]

  /** The letters, a one bit, zeros and the length of 208 bits. */
  lemma PaddedLetters()
    ensures var p := PaddedMessage(LETTERS);
      && |p| == 64 && p[..26] == LETTERS && p[26] == 0x80 && p[56] == 208
      && forall i :: 27 <= i < 64 && i != 56 ==> p[i] == 0
  {
    hide *;
    LetterCounts();
    LengthOctets();
    PaddedAs(LETTERS, 29, 208);
  }

  lemma LengthOctets()
    ensures OctetsOf(208, 8) == [208, 0, 0, 0, 0, 0, 0, 0]
  {
    hide OctetsOf;
    EightOctets(208);
  }

  /** A short message, padded to one block. */
  lemma PaddedAs(m: seq<Octet>, k: nat, bits: nat)
    requires ZerosAfter(|m|) == k && 8 * |m| % TWO_64 == bits && |m| + k == 55
    requires bits < 256 && OctetsOf(bits, 8) == [bits as Octet, 0, 0, 0, 0, 0, 0, 0]
    ensures var p := PaddedMessage(m);
      && |p| == 64 && p[..|m|] == m && p[|m|] == 0x80 && p[56] == bits as Octet
      && forall i :: |m| < i < 64 && i != 56 ==> p[i] == 0
  {
    hide Zeros, OctetsOf, ZerosAfter;
  }

  lemma LetterCounts()
    ensures |LETTERS| == 26 && ZerosAfter(26) == 29 && 8 * 26 % TWO_64 == 208
  {}

  lemma WordIs(a: Octet, b: Octet, c: Octet, d: Octet)
    ensures WordOf([a, b, c, d]) == (a as Word) | (b as Word << 8) | (c as Word << 16) | (d as Word << 24)
  {}

  lemma LetterWords()
    ensures |PaddedMessage(LETTERS)| == 64 && WordsOf(PaddedMessage(LETTERS), 16) == LETTER_WORDS
  {
    hide PaddedMessage, WordsOf, WordOf;
    PaddedLetters();
    var p := PaddedMessage(LETTERS);
    LetterAt(p);
    WordAt(p, 0, 97, 98, 99, 100, 0x6463_6261);
    WordAt(p, 1, 101, 102, 103, 104, 0x6867_6665);
    WordAt(p, 2, 105, 106, 107, 108, 0x6c6b_6a69);
    WordAt(p, 3, 109, 110, 111, 112, 0x706f_6e6d);
    WordAt(p, 4, 113, 114, 115, 116, 0x7473_7271);
    WordAt(p, 5, 117, 118, 119, 120, 0x7877_7675);
    WordAt(p, 6, 121, 122, 128, 0, 0x0080_7a79);
    WordAt(p, 7, 0, 0, 0, 0, 0x0000_0000);
    WordAt(p, 8, 0, 0, 0, 0, 0x0000_0000);
    WordAt(p, 9, 0, 0, 0, 0, 0x0000_0000);
    WordAt(p, 10, 0, 0, 0, 0, 0x0000_0000);
    WordAt(p, 11, 0, 0, 0, 0, 0x0000_0000);
    WordAt(p, 12, 0, 0, 0, 0, 0x0000_0000);
    WordAt(p, 13, 0, 0, 0, 0, 0x0000_0000);
    WordAt(p, 14, 208, 0, 0, 0, 0x0000_00d0);
    WordAt(p, 15, 0, 0, 0, 0, 0x0000_0000);
  }

  lemma LetterAt(p: seq<Octet>)
    requires |p| == 64 && p[..26] == LETTERS
    ensures forall i :: 0 <= i < 26 ==> p[i] == LETTERS[i]
  {
    assert forall i :: 0 <= i < 26 ==> p[i] == p[..26][i];
  }

  lemma WordAt(p: seq<Octet>, i: nat, a: Octet, b: Octet, c: Octet, d: Octet, w: Word)
    requires |p| == 64 && i < 16 && p[4 * i] == a && p[4 * i + 1] == b && p[4 * i + 2] == c && p[4 * i + 3] == d
    requires w == (a as Word) | (b as Word << 8) | (c as Word << 16) | (d as Word << 24)
    ensures WordsOf(p, 16)[i] == w
  {
    hide WordOf;
    assert p[4 * i..4 * i + 4] == [a, b, c, d];
    WordIs(a, b, c, d);
  }

  lemma Ops4()
    ensures Ops(4, INIT, LETTER_WORDS) == Words(0xd6d1_17a6, 0x4503_b812, 0x227d_8cf1, 0xaab1_aaaa)
  {
    hide Ops, StepF, ArgumentsOf;
    OpsStart(INIT, LETTER_WORDS);
    ArgumentsF(LETTER_WORDS);
    OpsF(0, INIT, LETTER_WORDS);
    Steps0();
  }

  lemma Steps0()
    ensures StepF(0x6745_2301, 0xefcd_ab89, 0x98ba_dcfe, 0x1032_5476, 0x6463_6261, 0xd76a_a478, 7)
         == 0xd6d1_17a6
    ensures StepF(0x1032_5476, 0xd6d1_17a6, 0xefcd_ab89, 0x98ba_dcfe, 0x6867_6665, 0xe8c7_b756, 12)
         == 0xaab1_aaaa
    ensures StepF(0x98ba_dcfe, 0xaab1_aaaa, 0xd6d1_17a6, 0xefcd_ab89, 0x6c6b_6a69, 0x2420_70db, 17)
         == 0x227d_8cf1
    ensures StepF(0xefcd_ab89, 0x227d_8cf1, 0xaab1_aaaa, 0xd6d1_17a6, 0x706f_6e6d, 0xc1bd_ceee, 22)
         == 0x4503_b812
  {
    assert F(0xefcd_ab89, 0x98ba_dcfe, 0x1032_5476) == 0x98ba_dcfe;
    assert Step(0x6745_2301, 0xefcd_ab89, 0x98ba_dcfe, 0x6463_6261, 0xd76a_a478, 7) == 0xd6d1_17a6;
    assert F(0xd6d1_17a6, 0xefcd_ab89, 0x98ba_dcfe) == 0xceeb_cbd8;
    assert Step(0x1032_5476, 0xd6d1_17a6, 0xceeb_cbd8, 0x6867_6665, 0xe8c7_b756, 12) == 0xaab1_aaaa;
    assert F(0xaab1_aaaa, 0xd6d1_17a6, 0xefcd_ab89) == 0xc7dd_03a3;
    assert Step(0x98ba_dcfe, 0xaab1_aaaa, 0xc7dd_03a3, 0x6c6b_6a69, 0x2420_70db, 17) == 0x227d_8cf1;
    assert F(0x227d_8cf1, 0xaab1_aaaa, 0xd6d1_17a6) == 0xf6b1_9ba6;
    assert Step(0xefcd_ab89, 0x227d_8cf1, 0xf6b1_9ba6, 0x706f_6e6d, 0xc1bd_ceee, 22) == 0x4503_b812;
  }

  lemma Ops8()
    ensures Ops(8, INIT, LETTER_WORDS) == Words(0xfe15_f787, 0xda9b_bb0d, 0xb711_22fc, 0xa811_b278)
  {
    hide Ops, StepF, ArgumentsOf;
    Ops4();
    ArgumentsF(LETTER_WORDS);
    OpsF(4, INIT, LETTER_WORDS);
    Steps4();
  }

  lemma Steps4()
    ensures StepF(0xd6d1_17a6, 0x4503_b812, 0x227d_8cf1, 0xaab1_aaaa, 0x7473_7271, 0xf57c_0faf, 7)
         == 0xfe15_f787
    ensures StepF(0xaab1_aaaa, 0xfe15_f787, 0x4503_b812, 0x227d_8cf1, 0x7877_7675, 0x4787_c62a, 12)
         == 0xa811_b278
    ensures StepF(0x227d_8cf1, 0xa811_b278, 0xfe15_f787, 0x4503_b812, 0x0080_7a79, 0xa830_4613, 17)
         == 0xb711_22fc
    ensures StepF(0x4503_b812, 0xb711_22fc, 0xa811_b278, 0xfe15_f787, 0x0000_0000, 0xfd46_9501, 22)
         == 0xda9b_bb0d
  {
    assert F(0x4503_b812, 0x227d_8cf1, 0xaab1_aaaa) == 0xaab1_8ab8;
    assert Step(0xd6d1_17a6, 0x4503_b812, 0xaab1_8ab8, 0x7473_7271, 0xf57c_0faf, 7) == 0xfe15_f787;
    assert F(0xfe15_f787, 0x4503_b812, 0x227d_8cf1) == 0x4469_b872;
    assert Step(0xaab1_aaaa, 0xfe15_f787, 0x4469_b872, 0x7877_7675, 0x4787_c62a, 12) == 0xa811_b278;
    assert F(0xa811_b278, 0xfe15_f787, 0x4503_b812) == 0xed13_ba02;
    assert Step(0x227d_8cf1, 0xa811_b278, 0xed13_ba02, 0x0080_7a79, 0xa830_4613, 17) == 0xb711_22fc;
    assert F(0xb711_22fc, 0xa811_b278, 0xfe15_f787) == 0xe815_f77b;
    assert Step(0x4503_b812, 0xb711_22fc, 0xe815_f77b, 0x0000_0000, 0xfd46_9501, 22) == 0xda9b_bb0d;
  }

  lemma Ops12()
    ensures Ops(12, INIT, LETTER_WORDS) == Words(0xae75_2899, 0x56cf_a5cb, 0x7d4b_d80b, 0x2bbe_757f)
  {
    hide Ops, StepF, ArgumentsOf;
    Ops8();
    ArgumentsF(LETTER_WORDS);
    OpsF(8, INIT, LETTER_WORDS);
    Steps8();
  }

  lemma Steps8()
    ensures StepF(0xfe15_f787, 0xda9b_bb0d, 0xb711_22fc, 0xa811_b278, 0x0000_0000, 0x6980_98d8, 7)
         == 0xae75_2899
    ensures StepF(0xa811_b278, 0xae75_2899, 0xda9b_bb0d, 0xb711_22fc, 0x0000_0000, 0x8b44_f7af, 12)
         == 0x2bbe_757f
    ensures StepF(0xb711_22fc, 0x2bbe_757f, 0xae75_2899, 0xda9b_bb0d, 0x0000_0000, 0xffff_5bb1, 17)
         == 0x7d4b_d80b
    ensures StepF(0xda9b_bb0d, 0x7d4b_d80b, 0x2bbe_757f, 0xae75_2899, 0x0000_0000, 0x895c_d7be, 22)
         == 0x56cf_a5cb
  {
    assert F(0xda9b_bb0d, 0xb711_22fc, 0xa811_b278) == 0xb211_227c;
    assert Step(0xfe15_f787, 0xda9b_bb0d, 0xb211_227c, 0x0000_0000, 0x6980_98d8, 7) == 0xae75_2899;
    assert F(0xae75_2899, 0xda9b_bb0d, 0xb711_22fc) == 0x9b11_2a6d;
    assert Step(0xa811_b278, 0xae75_2899, 0x9b11_2a6d, 0x0000_0000, 0x8b44_f7af, 12) == 0x2bbe_757f;
    assert F(0x2bbe_757f, 0xae75_2899, 0xda9b_bb0d) == 0xfa35_aa19;
    assert Step(0xb711_22fc, 0x2bbe_757f, 0xfa35_aa19, 0x0000_0000, 0xffff_5bb1, 17) == 0x7d4b_d80b;
    assert F(0x7d4b_d80b, 0x2bbe_757f, 0xae75_2899) == 0xab3e_709b;
    assert Step(0xda9b_bb0d, 0x7d4b_d80b, 0xab3e_709b, 0x0000_0000, 0x895c_d7be, 22) == 0x56cf_a5cb;
  }

  lemma Ops16()
    ensures Ops(16, INIT, LETTER_WORDS) == Words(0x1754_a316, 0x608d_6b7e, 0x00df_74d5, 0x8556_7d90)
  {
    hide Ops, StepF, ArgumentsOf;
    Ops12();
    ArgumentsF(LETTER_WORDS);
    OpsF(12, INIT, LETTER_WORDS);
    Steps12();
  }

  lemma Steps12()
    ensures StepF(0xae75_2899, 0x56cf_a5cb, 0x7d4b_d80b, 0x2bbe_757f, 0x0000_0000, 0x6b90_1122, 7)
         == 0x1754_a316
    ensures StepF(0x2bbe_757f, 0x1754_a316, 0x56cf_a5cb, 0x7d4b_d80b, 0x0000_0000, 0xfd98_7193, 12)
         == 0x8556_7d90
    ensures StepF(0x7d4b_d80b, 0x8556_7d90, 0x1754_a316, 0x56cf_a5cb, 0x0000_00d0, 0xa679_438e, 17)
         == 0x00df_74d5
    ensures StepF(0x56cf_a5cb, 0x00df_74d5, 0x8556_7d90, 0x1754_a316, 0x0000_0000, 0x49b4_0821, 22)
         == 0x608d_6b7e
  {
    assert F(0x56cf_a5cb, 0x7d4b_d80b, 0x2bbe_757f) == 0x7d7b_d03f;
    assert Step(0xae75_2899, 0x56cf_a5cb, 0x7d7b_d03f, 0x0000_0000, 0x6b90_1122, 7) == 0x1754_a316;
    assert F(0x1754_a316, 0x56cf_a5cb, 0x7d4b_d80b) == 0x7e4f_f90b;
    assert Step(0x2bbe_757f, 0x1754_a316, 0x7e4f_f90b, 0x0000_0000, 0xfd98_7193, 12) == 0x8556_7d90;
    assert F(0x8556_7d90, 0x1754_a316, 0x56cf_a5cb) == 0x57dd_a15b;
    assert Step(0x7d4b_d80b, 0x8556_7d90, 0x57dd_a15b, 0x0000_00d0, 0xa679_438e, 17) == 0x00df_74d5;
    assert F(0x00df_74d5, 0x8556_7d90, 0x1754_a316) == 0x1756_f792;
    assert Step(0x56cf_a5cb, 0x00df_74d5, 0x1756_f792, 0x0000_0000, 0x49b4_0821, 22) == 0x608d_6b7e;
  }

  lemma Ops20()
    ensures Ops(20, INIT, LETTER_WORDS) == Words(0x2d80_71cc, 0x4c21_45b3, 0xedfe_7e4b, 0x5dce_e119)
  {
    hide Ops, StepG, ArgumentsOf;
    Ops16();
    ArgumentsG(LETTER_WORDS);
    OpsG(16, INIT, LETTER_WORDS);
    Steps16();
  }

  lemma Steps16()
    ensures StepG(0x1754_a316, 0x608d_6b7e, 0x00df_74d5, 0x8556_7d90, 0x6867_6665, 0xf61e_2562, 5)
         == 0x2d80_71cc
    ensures StepG(0x8556_7d90, 0x2d80_71cc, 0x608d_6b7e, 0x00df_74d5, 0x0080_7a79, 0xc040_b340, 9)
         == 0x5dce_e119
    ensures StepG(0x00df_74d5, 0x5dce_e119, 0x2d80_71cc, 0x608d_6b7e, 0x0000_0000, 0x265e_5a51, 14)
         == 0xedfe_7e4b
    ensures StepG(0x608d_6b7e, 0xedfe_7e4b, 0x5dce_e119, 0x2d80_71cc, 0x6463_6261, 0xe9b6_c7aa, 20)
         == 0x4c21_45b3
  {
    assert G(0x608d_6b7e, 0x00df_74d5, 0x8556_7d90) == 0x008d_6955;
    assert Step(0x1754_a316, 0x608d_6b7e, 0x008d_6955, 0x6867_6665, 0xf61e_2562, 5) == 0x2d80_71cc;
    assert G(0x2d80_71cc, 0x608d_6b7e, 0x00df_74d5) == 0x6080_7bee;
    assert Step(0x8556_7d90, 0x2d80_71cc, 0x6080_7bee, 0x0080_7a79, 0xc040_b340, 9) == 0x5dce_e119;
    assert G(0x5dce_e119, 0x2d80_71cc, 0x608d_6b7e) == 0x4d8c_7198;
    assert Step(0x00df_74d5, 0x5dce_e119, 0x4d8c_7198, 0x0000_0000, 0x265e_5a51, 14) == 0xedfe_7e4b;
    assert G(0xedfe_7e4b, 0x5dce_e119, 0x2d80_71cc) == 0x7dce_f059;
    assert Step(0x608d_6b7e, 0xedfe_7e4b, 0x7dce_f059, 0x6463_6261, 0xe9b6_c7aa, 20) == 0x4c21_45b3;
  }

  lemma Ops24()
    ensures Ops(24, INIT, LETTER_WORDS) == Words(0x570c_43e0, 0xc9f1_62d4, 0xc28a_b49d, 0x977e_fd2a)
  {
    hide Ops, StepG, ArgumentsOf;
    Ops20();
    ArgumentsG(LETTER_WORDS);
    OpsG(20, INIT, LETTER_WORDS);
    Steps20();
  }

  lemma Steps20()
    ensures StepG(0x2d80_71cc, 0x4c21_45b3, 0xedfe_7e4b, 0x5dce_e119, 0x7877_7675, 0xd62f_105d, 5)
         == 0x570c_43e0
    ensures StepG(0x5dce_e119, 0x570c_43e0, 0x4c21_45b3, 0xedfe_7e4b, 0x0000_0000, 0x0244_1453, 9)
         == 0x977e_fd2a
    ensures StepG(0xedfe_7e4b, 0x977e_fd2a, 0x570c_43e0, 0x4c21_45b3, 0x0000_0000, 0xd8a1_e681, 14)
         == 0xc28a_b49d
    ensures StepG(0x4c21_45b3, 0xc28a_b49d, 0x977e_fd2a, 0x570c_43e0, 0x7473_7271, 0xe7d3_fbc8, 20)
         == 0xc9f1_62d4
  {
    assert G(0x4c21_45b3, 0xedfe_7e4b, 0x5dce_e119) == 0xec30_5f53;
    assert Step(0x2d80_71cc, 0x4c21_45b3, 0xec30_5f53, 0x7877_7675, 0xd62f_105d, 5) == 0x570c_43e0;
    assert G(0x570c_43e0, 0x4c21_45b3, 0xedfe_7e4b) == 0x450d_43f0;
    assert Step(0x5dce_e119, 0x570c_43e0, 0x450d_43f0, 0x0000_0000, 0x0244_1453, 9) == 0x977e_fd2a;
    assert G(0x977e_fd2a, 0x570c_43e0, 0x4c21_45b3) == 0x172c_4762;
    assert Step(0xedfe_7e4b, 0x977e_fd2a, 0x172c_4762, 0x0000_0000, 0xd8a1_e681, 14) == 0xc28a_b49d;
    assert G(0xc28a_b49d, 0x977e_fd2a, 0x570c_43e0) == 0xc27a_bc8a;
    assert Step(0x4c21_45b3, 0xc28a_b49d, 0xc27a_bc8a, 0x7473_7271, 0xe7d3_fbc8, 20) == 0xc9f1_62d4;
  }

  lemma Ops28()
    ensures Ops(28, INIT, LETTER_WORDS) == Words(0x25bf_ae3b, 0xe6d3_b398, 0xf8c8_365f, 0x8998_0104)
  {
    hide Ops, StepG, ArgumentsOf;
    Ops24();
    ArgumentsG(LETTER_WORDS);
    OpsG(24, INIT, LETTER_WORDS);
    Steps24();
  }

  lemma Steps24()
    ensures StepG(0x570c_43e0, 0xc9f1_62d4, 0xc28a_b49d, 0x977e_fd2a, 0x0000_0000, 0x21e1_cde6, 5)
         == 0x25bf_ae3b
    ensures StepG(0x977e_fd2a, 0x25bf_ae3b, 0xc9f1_62d4, 0xc28a_b49d, 0x0000_00d0, 0xc337_07d6, 9)
         == 0x8998_0104
    ensures StepG(0xc28a_b49d, 0x8998_0104, 0x25bf_ae3b, 0xc9f1_62d4, 0x706f_6e6d, 0xf4d5_0d87, 14)
         == 0xf8c8_365f
    ensures StepG(0xc9f1_62d4, 0xf8c8_365f, 0x8998_0104, 0x25bf_ae3b, 0x0000_0000, 0x455a_14ed, 20)
         == 0xe6d3_b398
  {
    assert G(0xc9f1_62d4, 0xc28a_b49d, 0x977e_fd2a) == 0xc1f0_6095;
    assert Step(0x570c_43e0, 0xc9f1_62d4, 0xc1f0_6095, 0x0000_0000, 0x21e1_cde6, 5) == 0x25bf_ae3b;
    assert G(0x25bf_ae3b, 0xc9f1_62d4, 0xc28a_b49d) == 0x09fb_e659;
    assert Step(0x977e_fd2a, 0x25bf_ae3b, 0x09fb_e659, 0x0000_00d0, 0xc337_07d6, 9) == 0x8998_0104;
    assert G(0x8998_0104, 0x25bf_ae3b, 0xc9f1_62d4) == 0xad9e_8c2f;
    assert Step(0xc28a_b49d, 0x8998_0104, 0xad9e_8c2f, 0x706f_6e6d, 0xf4d5_0d87, 14) == 0xf8c8_365f;
    assert G(0xf8c8_365f, 0x8998_0104, 0x25bf_ae3b) == 0xa888_271f;
    assert Step(0xc9f1_62d4, 0xf8c8_365f, 0xa888_271f, 0x0000_0000, 0x455a_14ed, 20) == 0xe6d3_b398;
  }

  lemma Ops32()
    ensures Ops(32, INIT, LETTER_WORDS) == Words(0xf54d_8710, 0xaeb3_5766, 0x2e69_afc7, 0x927b_72e2)
  {
    hide Ops, StepG, ArgumentsOf;
    Ops28();
    ArgumentsG(LETTER_WORDS);
    OpsG(28, INIT, LETTER_WORDS);
    Steps28();
  }

  lemma Steps28()
    ensures StepG(0x25bf_ae3b, 0xe6d3_b398, 0xf8c8_365f, 0x8998_0104, 0x0000_0000, 0xa9e3_e905, 5)
         == 0xf54d_8710
    ensures StepG(0x8998_0104, 0xf54d_8710, 0xe6d3_b398, 0xf8c8_365f, 0x6c6b_6a69, 0xfcef_a3f8, 9)
         == 0x927b_72e2
    ensures StepG(0xf8c8_365f, 0x927b_72e2, 0xf54d_8710, 0xe6d3_b398, 0x0000_0000, 0x676f_02d9, 14)
         == 0x2e69_afc7
    ensures StepG(0xe6d3_b398, 0x2e69_afc7, 0x927b_72e2, 0xf54d_8710, 0x0000_0000, 0x8d2a_4c8a, 20)
         == 0xaeb3_5766
  {
    assert G(0xe6d3_b398, 0xf8c8_365f, 0x8998_0104) == 0xf0d0_375b;
    assert Step(0x25bf_ae3b, 0xe6d3_b398, 0xf0d0_375b, 0x0000_0000, 0xa9e3_e905, 5) == 0xf54d_8710;
    assert G(0xf54d_8710, 0xe6d3_b398, 0xf8c8_365f) == 0xf65b_8790;
    assert Step(0x8998_0104, 0xf54d_8710, 0xf65b_8790, 0x6c6b_6a69, 0xfcef_a3f8, 9) == 0x927b_72e2;
    assert G(0x927b_72e2, 0xf54d_8710, 0xe6d3_b398) == 0x935f_3680;
    assert Step(0xf8c8_365f, 0x927b_72e2, 0x935f_3680, 0x0000_0000, 0x676f_02d9, 14) == 0x2e69_afc7;
    assert G(0x2e69_afc7, 0x927b_72e2, 0xf54d_8710) == 0x267b_f7e2;
    assert Step(0xe6d3_b398, 0x2e69_afc7, 0x267b_f7e2, 0x0000_0000, 0x8d2a_4c8a, 20) == 0xaeb3_5766;
  }

  lemma Ops36()
    ensures Ops(36, INIT, LETTER_WORDS) == Words(0xb4bf_680e, 0x06a5_e211, 0x2361_ed0a, 0x4c8f_fa80)
  {
    hide Ops, StepH, ArgumentsOf;
    Ops32();
    ArgumentsH(LETTER_WORDS);
    OpsH(32, INIT, LETTER_WORDS);
    Steps32();
  }

  lemma Steps32()
    ensures StepH(0xf54d_8710, 0xaeb3_5766, 0x2e69_afc7, 0x927b_72e2, 0x7877_7675, 0xfffa_3942, 4)
         == 0xb4bf_680e
    ensures StepH(0x927b_72e2, 0xb4bf_680e, 0xaeb3_5766, 0x2e69_afc7, 0x0000_0000, 0x8771_f681, 11)
         == 0x4c8f_fa80
    ensures StepH(0x2e69_afc7, 0x4c8f_fa80, 0xb4bf_680e, 0xaeb3_5766, 0x0000_0000, 0x6d9d_6122, 16)
         == 0x2361_ed0a
    ensures StepH(0xaeb3_5766, 0x2361_ed0a, 0x4c8f_fa80, 0xb4bf_680e, 0x0000_00d0, 0xfde5_380c, 23)
         == 0x06a5_e211
  {
    assert H(0xaeb3_5766, 0x2e69_afc7, 0x927b_72e2) == 0x12a1_8a43;
    assert Step(0xf54d_8710, 0xaeb3_5766, 0x12a1_8a43, 0x7877_7675, 0xfffa_3942, 4) == 0xb4bf_680e;
    assert H(0xb4bf_680e, 0xaeb3_5766, 0x2e69_afc7) == 0x3465_90af;
    assert Step(0x927b_72e2, 0xb4bf_680e, 0x3465_90af, 0x0000_0000, 0x8771_f681, 11) == 0x4c8f_fa80;
    assert H(0x4c8f_fa80, 0xb4bf_680e, 0xaeb3_5766) == 0x5683_c5e8;
    assert Step(0x2e69_afc7, 0x4c8f_fa80, 0x5683_c5e8, 0x0000_0000, 0x6d9d_6122, 16) == 0x2361_ed0a;
    assert H(0x2361_ed0a, 0x4c8f_fa80, 0xb4bf_680e) == 0xdb51_7f84;
    assert Step(0xaeb3_5766, 0x2361_ed0a, 0xdb51_7f84, 0x0000_00d0, 0xfde5_380c, 23) == 0x06a5_e211;
  }

  lemma Ops40()
    ensures Ops(40, INIT, LETTER_WORDS) == Words(0xb9c0_c733, 0x8d41_bf99, 0x23a9_451b, 0xf1e6_dc7a)
  {
    hide Ops, StepH, ArgumentsOf;
    Ops36();
    ArgumentsH(LETTER_WORDS);
    OpsH(36, INIT, LETTER_WORDS);
    Steps36();
  }

  lemma Steps36()
    ensures StepH(0xb4bf_680e, 0x06a5_e211, 0x2361_ed0a, 0x4c8f_fa80, 0x6867_6665, 0xa4be_ea44, 4)
         == 0xb9c0_c733
    ensures StepH(0x4c8f_fa80, 0xb9c0_c733, 0x06a5_e211, 0x2361_ed0a, 0x7473_7271, 0x4bde_cfa9, 11)
         == 0xf1e6_dc7a
    ensures StepH(0x2361_ed0a, 0xf1e6_dc7a, 0xb9c0_c733, 0x06a5_e211, 0x0000_0000, 0xf6bb_4b60, 16)
         == 0x23a9_451b
    ensures StepH(0x06a5_e211, 0x23a9_451b, 0xf1e6_dc7a, 0xb9c0_c733, 0x0000_0000, 0xbebf_bc70, 23)
         == 0x8d41_bf99
  {
    assert H(0x06a5_e211, 0x2361_ed0a, 0x4c8f_fa80) == 0x694b_f59b;
    assert Step(0xb4bf_680e, 0x06a5_e211, 0x694b_f59b, 0x6867_6665, 0xa4be_ea44, 4) == 0xb9c0_c733;
    assert H(0xb9c0_c733, 0x06a5_e211, 0x2361_ed0a) == 0x9c04_c828;
    assert Step(0x4c8f_fa80, 0xb9c0_c733, 0x9c04_c828, 0x7473_7271, 0x4bde_cfa9, 11) == 0xf1e6_dc7a;
    assert H(0xf1e6_dc7a, 0xb9c0_c733, 0x06a5_e211) == 0x4e83_f958;
    assert Step(0x2361_ed0a, 0xf1e6_dc7a, 0x4e83_f958, 0x0000_0000, 0xf6bb_4b60, 16) == 0x23a9_451b;
    assert H(0x23a9_451b, 0xf1e6_dc7a, 0xb9c0_c733) == 0x6b8f_5e52;
    assert Step(0x06a5_e211, 0x23a9_451b, 0x6b8f_5e52, 0x0000_0000, 0xbebf_bc70, 23) == 0x8d41_bf99;
  }

  lemma Ops44()
    ensures Ops(44, INIT, LETTER_WORDS) == Words(0xa3e8_8ead, 0x90a3_5af5, 0x66f6_468d, 0x02c0_b11c)
  {
    hide Ops, StepH, ArgumentsOf;
    Ops40();
    ArgumentsH(LETTER_WORDS);
    OpsH(40, INIT, LETTER_WORDS);
    Steps40();
  }

  lemma Steps40()
    ensures StepH(0xb9c0_c733, 0x8d41_bf99, 0x23a9_451b, 0xf1e6_dc7a, 0x0000_0000, 0x289b_7ec6, 4)
         == 0xa3e8_8ead
    ensures StepH(0xf1e6_dc7a, 0xa3e8_8ead, 0x8d41_bf99, 0x23a9_451b, 0x6463_6261, 0xeaa1_27fa, 11)
         == 0x02c0_b11c
    ensures StepH(0x23a9_451b, 0x02c0_b11c, 0xa3e8_8ead, 0x8d41_bf99, 0x706f_6e6d, 0xd4ef_3085, 16)
         == 0x66f6_468d
    ensures StepH(0x8d41_bf99, 0x66f6_468d, 0x02c0_b11c, 0xa3e8_8ead, 0x0080_7a79, 0x0488_1d05, 23)
         == 0x90a3_5af5
  {
    assert H(0x8d41_bf99, 0x23a9_451b, 0xf1e6_dc7a) == 0x5f0e_26f8;
    assert Step(0xb9c0_c733, 0x8d41_bf99, 0x5f0e_26f8, 0x0000_0000, 0x289b_7ec6, 4) == 0xa3e8_8ead;
    assert H(0xa3e8_8ead, 0x8d41_bf99, 0x23a9_451b) == 0x0d00_742f;
    assert Step(0xf1e6_dc7a, 0xa3e8_8ead, 0x0d00_742f, 0x6463_6261, 0xeaa1_27fa, 11) == 0x02c0_b11c;
    assert H(0x02c0_b11c, 0xa3e8_8ead, 0x8d41_bf99) == 0x2c69_8028;
    assert Step(0x23a9_451b, 0x02c0_b11c, 0x2c69_8028, 0x706f_6e6d, 0xd4ef_3085, 16) == 0x66f6_468d;
    assert H(0x66f6_468d, 0x02c0_b11c, 0xa3e8_8ead) == 0xc7de_793c;
    assert Step(0x8d41_bf99, 0x66f6_468d, 0xc7de_793c, 0x0080_7a79, 0x0488_1d05, 23) == 0x90a3_5af5;
  }

  lemma Ops48()
    ensures Ops(48, INIT, LETTER_WORDS) == Words(0xb5d4_1f9c, 0x71d1_0367, 0x703d_54d8, 0xa04b_4904)
  {
    hide Ops, StepH, ArgumentsOf;
    Ops44();
    ArgumentsH(LETTER_WORDS);
    OpsH(44, INIT, LETTER_WORDS);
    Steps44();
  }

  lemma Steps44()
    ensures StepH(0xa3e8_8ead, 0x90a3_5af5, 0x66f6_468d, 0x02c0_b11c, 0x0000_0000, 0xd9d4_d039, 4)
         == 0xb5d4_1f9c
    ensures StepH(0x02c0_b11c, 0xb5d4_1f9c, 0x90a3_5af5, 0x66f6_468d, 0x0000_0000, 0xe6db_99e5, 11)
         == 0xa04b_4904
    ensures StepH(0x66f6_468d, 0xa04b_4904, 0xb5d4_1f9c, 0x90a3_5af5, 0x0000_0000, 0x1fa2_7cf8, 16)
         == 0x703d_54d8
    ensures StepH(0x90a3_5af5, 0x703d_54d8, 0xa04b_4904, 0xb5d4_1f9c, 0x6c6b_6a69, 0xc4ac_5665, 23)
         == 0x71d1_0367
  {
    assert H(0x90a3_5af5, 0x66f6_468d, 0x02c0_b11c) == 0xf495_ad64;
    assert Step(0xa3e8_8ead, 0x90a3_5af5, 0xf495_ad64, 0x0000_0000, 0xd9d4_d039, 4) == 0xb5d4_1f9c;
    assert H(0xb5d4_1f9c, 0x90a3_5af5, 0x66f6_468d) == 0x4381_03e4;
    assert Step(0x02c0_b11c, 0xb5d4_1f9c, 0x4381_03e4, 0x0000_0000, 0xe6db_99e5, 11) == 0xa04b_4904;
    assert H(0xa04b_4904, 0xb5d4_1f9c, 0x90a3_5af5) == 0x853c_0c6d;
    assert Step(0x66f6_468d, 0xa04b_4904, 0x853c_0c6d, 0x0000_0000, 0x1fa2_7cf8, 16) == 0x703d_54d8;
    assert H(0x703d_54d8, 0xa04b_4904, 0xb5d4_1f9c) == 0x65a2_0240;
    assert Step(0x90a3_5af5, 0x703d_54d8, 0x65a2_0240, 0x6c6b_6a69, 0xc4ac_5665, 23) == 0x71d1_0367;
  }

  lemma Ops52()
    ensures Ops(52, INIT, LETTER_WORDS) == Words(0xfc32_dd6e, 0x33ed_b197, 0xb356_02cb, 0x6545_6b34)
  {
    hide Ops, StepI, ArgumentsOf;
    Ops48();
    ArgumentsI(LETTER_WORDS);
    OpsI(48, INIT, LETTER_WORDS);
    Steps48();
  }

  lemma Steps48()
    ensures StepI(0xb5d4_1f9c, 0x71d1_0367, 0x703d_54d8, 0xa04b_4904, 0x6463_6261, 0xf429_2244, 6)
         == 0xfc32_dd6e
    ensures StepI(0xa04b_4904, 0xfc32_dd6e, 0x71d1_0367, 0x703d_54d8, 0x0000_0000, 0x432a_ff97, 10)
         == 0x6545_6b34
    ensures StepI(0x703d_54d8, 0x6545_6b34, 0xfc32_dd6e, 0x71d1_0367, 0x0000_00d0, 0xab94_23a7, 15)
         == 0xb356_02cb
    ensures StepI(0x71d1_0367, 0xb356_02cb, 0x6545_6b34, 0xfc32_dd6e, 0x7877_7675, 0xfc93_a039, 21)
         == 0x33ed_b197
  {
    assert I(0x71d1_0367, 0x703d_54d8, 0xa04b_4904) == 0x0fc8_e327;
    assert Step(0xb5d4_1f9c, 0x71d1_0367, 0x0fc8_e327, 0x6463_6261, 0xf429_2244, 6) == 0xfc32_dd6e;
    assert I(0xfc32_dd6e, 0x71d1_0367, 0x703d_54d8) == 0x8e23_fc08;
    assert Step(0xa04b_4904, 0xfc32_dd6e, 0x8e23_fc08, 0x0000_0000, 0x432a_ff97, 10) == 0x6545_6b34;
    assert I(0x6545_6b34, 0xfc32_dd6e, 0x71d1_0367) == 0x135d_22d2;
    assert Step(0x703d_54d8, 0x6545_6b34, 0x135d_22d2, 0x0000_00d0, 0xab94_23a7, 15) == 0xb356_02cb;
    assert I(0xb356_02cb, 0x6545_6b34, 0xfc32_dd6e) == 0xd69a_49ef;
    assert Step(0x71d1_0367, 0xb356_02cb, 0xd69a_49ef, 0x7877_7675, 0xfc93_a039, 21) == 0x33ed_b197;
  }

  lemma Ops56()
    ensures Ops(56, INIT, LETTER_WORDS) == Words(0xc1e9_42f1, 0x8387_7d1b, 0x23a6_8048, 0xd9bb_987c)
  {
    hide Ops, StepI, ArgumentsOf;
    Ops52();
    ArgumentsI(LETTER_WORDS);
    OpsI(52, INIT, LETTER_WORDS);
    Steps52();
  }

  lemma Steps52()
    ensures StepI(0xfc32_dd6e, 0x33ed_b197, 0xb356_02cb, 0x6545_6b34, 0x0000_0000, 0x655b_59c3, 6)
         == 0xc1e9_42f1
    ensures StepI(0x6545_6b34, 0xc1e9_42f1, 0x33ed_b197, 0xb356_02cb, 0x706f_6e6d, 0x8f0c_cc92, 10)
         == 0xd9bb_987c
    ensures StepI(0xb356_02cb, 0xd9bb_987c, 0xc1e9_42f1, 0x33ed_b197, 0x0000_0000, 0xffef_f47d, 15)
         == 0x23a6_8048
    ensures StepI(0x33ed_b197, 0x23a6_8048, 0xd9bb_987c, 0xc1e9_42f1, 0x6867_6665, 0x8584_5dd1, 21)
         == 0x8387_7d1b
  {
    assert I(0x33ed_b197, 0xb356_02cb, 0x6545_6b34) == 0x08a9_b714;
    assert Step(0xfc32_dd6e, 0x33ed_b197, 0x08a9_b714, 0x0000_0000, 0x655b_59c3, 6) == 0xc1e9_42f1;
    assert I(0xc1e9_42f1, 0x33ed_b197, 0xb356_02cb) == 0xfe04_4e62;
    assert Step(0x6545_6b34, 0xc1e9_42f1, 0xfe04_4e62, 0x706f_6e6d, 0x8f0c_cc92, 10) == 0xd9bb_987c;
    assert I(0xd9bb_987c, 0xc1e9_42f1, 0x33ed_b197) == 0x1c52_9c8d;
    assert Step(0xb356_02cb, 0xd9bb_987c, 0x1c52_9c8d, 0x0000_0000, 0xffef_f47d, 15) == 0x23a6_8048;
    assert I(0x23a6_8048, 0xd9bb_987c, 0xc1e9_42f1) == 0xe60d_2532;
    assert Step(0x33ed_b197, 0x23a6_8048, 0xe60d_2532, 0x6867_6665, 0x8584_5dd1, 21) == 0x8387_7d1b;
  }

  lemma Ops60()
    ensures Ops(60, INIT, LETTER_WORDS) == Words(0x0077_c208, 0x5e6b_c930, 0xa3e2_247f, 0x847f_c2e7)
  {
    hide Ops, StepI, ArgumentsOf;
    Ops56();
    ArgumentsI(LETTER_WORDS);
    OpsI(56, INIT, LETTER_WORDS);
    Steps56();
  }

  lemma Steps56()
    ensures StepI(0xc1e9_42f1, 0x8387_7d1b, 0x23a6_8048, 0xd9bb_987c, 0x0000_0000, 0x6fa8_7e4f, 6)
         == 0x0077_c208
    ensures StepI(0xd9bb_987c, 0x0077_c208, 0x8387_7d1b, 0x23a6_8048, 0x0000_0000, 0xfe2c_e6e0, 10)
         == 0x847f_c2e7
    ensures StepI(0x23a6_8048, 0x847f_c2e7, 0x0077_c208, 0x8387_7d1b, 0x0080_7a79, 0xa301_4314, 15)
         == 0xa3e2_247f
    ensures StepI(0x8387_7d1b, 0xa3e2_247f, 0x847f_c2e7, 0x0077_c208, 0x0000_0000, 0x4e08_11a1, 21)
         == 0x5e6b_c930
  {
    assert I(0x8387_7d1b, 0x23a6_8048, 0xd9bb_987c) == 0x8461_ffd3;
    assert Step(0xc1e9_42f1, 0x8387_7d1b, 0x8461_ffd3, 0x0000_0000, 0x6fa8_7e4f, 6) == 0x0077_c208;
    assert I(0x0077_c208, 0x8387_7d1b, 0x23a6_8048) == 0x5ff8_82a4;
    assert Step(0xd9bb_987c, 0x0077_c208, 0x5ff8_82a4, 0x0000_0000, 0xfe2c_e6e0, 10) == 0x847f_c2e7;
    assert I(0x847f_c2e7, 0x0077_c208, 0x8387_7d1b) == 0xfc08_00ef;
    assert Step(0x23a6_8048, 0x847f_c2e7, 0xfc08_00ef, 0x0080_7a79, 0xa301_4314, 15) == 0xa3e2_247f;
    assert I(0xa3e2_247f, 0x847f_c2e7, 0x0077_c208) == 0x7b95_ff18;
    assert Step(0x8387_7d1b, 0xa3e2_247f, 0x7b95_ff18, 0x0000_0000, 0x4e08_11a1, 21) == 0x5e6b_c930;
  }

  lemma Ops64()
    ensures Ops(64, INIT, LETTER_WORDS) == Words(0x708e_d9c2, 0x1116_e6d8, 0xd38f_1e7f, 0x2baf_1354)
  {
    hide Ops, StepI, ArgumentsOf;
    Ops60();
    ArgumentsI(LETTER_WORDS);
    OpsI(60, INIT, LETTER_WORDS);
    Steps60();
  }

  lemma Steps60()
    ensures StepI(0x0077_c208, 0x5e6b_c930, 0xa3e2_247f, 0x847f_c2e7, 0x7473_7271, 0xf753_7e82, 6)
         == 0x708e_d9c2
    ensures StepI(0x847f_c2e7, 0x708e_d9c2, 0x5e6b_c930, 0xa3e2_247f, 0x0000_0000, 0xbd3a_f235, 10)
         == 0x2baf_1354
    ensures StepI(0xa3e2_247f, 0x2baf_1354, 0x708e_d9c2, 0x5e6b_c930, 0x6c6b_6a69, 0x2ad7_d2bb, 15)
         == 0xd38f_1e7f
    ensures StepI(0x5e6b_c930, 0xd38f_1e7f, 0x2baf_1354, 0x708e_d9c2, 0x0000_0000, 0xeb86_d391, 21)
         == 0x1116_e6d8
  {
    assert I(0x5e6b_c930, 0xa3e2_247f, 0x847f_c2e7) == 0xdc09_d947;
    assert Step(0x0077_c208, 0x5e6b_c930, 0xdc09_d947, 0x7473_7271, 0xf753_7e82, 6) == 0x708e_d9c2;
    assert I(0x708e_d9c2, 0x5e6b_c930, 0xa3e2_247f) == 0x22f4_12f2;
    assert Step(0x847f_c2e7, 0x708e_d9c2, 0x22f4_12f2, 0x0000_0000, 0xbd3a_f235, 10) == 0x2baf_1354;
    assert I(0x2baf_1354, 0x708e_d9c2, 0x5e6b_c930) == 0xdb31_ee1d;
    assert Step(0xa3e2_247f, 0x2baf_1354, 0xdb31_ee1d, 0x6c6b_6a69, 0x2ad7_d2bb, 15) == 0xd38f_1e7f;
    assert I(0xd38f_1e7f, 0x2baf_1354, 0x708e_d9c2) == 0xf450_2d2b;
    assert Step(0x5e6b_c930, 0xd38f_1e7f, 0xf450_2d2b, 0x0000_0000, 0xeb86_d391, 21) == 0x1116_e6d8;
  }

  /** The sums with the first registers */
  lemma LetterSums()
    ensures Plus(Words(0x708e_d9c2, 0x1116_e6d8, 0xd38f_1e7f, 0x2baf_1354), INIT)
      == Words(0xd7d3_fcc3, 0x00e4_9261, 0x6c49_fb7d, 0x3be1_67ca)
  {}

  lemma LetterOctets()
    ensures Output(Words(0xd7d3_fcc3, 0x00e4_9261, 0x6c49_fb7d, 0x3be1_67ca)) == [
      0xc3, 0xfc, 0xd3, 0xd7, 0x61, 0x92, 0xe4, 0x00,
      0x7d, 0xfb, 0x49, 0x6c, 0xca, 0x67, 0xe1, 0x3b]
  {}

  lemma KnownAnswer()
    ensures Digest(LETTERS) == [
      0xc3, 0xfc, 0xd3, 0xd7, 0x61, 0x92, 0xe4, 0x00,
      0x7d, 0xfb, 0x49, 0x6c, 0xca, 0x67, 0xe1, 0x3b]
  {
    hide Ops, WordsOf, PaddedMessage, Fold, Plus, Output;
    LetterWords();
    Ops64();
    LetterSums();
    LetterOctets();
    FoldOne(INIT, PaddedMessage(LETTERS));
  }
}
