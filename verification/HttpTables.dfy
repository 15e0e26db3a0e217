/** The character classes of the parser against the tables of the source, written out character by character. */
module HttpTables {
  import opened HttpChars
  import opened Digits

  /** The codes that the other modules name. */
  lemma AsciiCodes()
    ensures TAB == '\t' as int && LF == '\n' as int && CR == '\r' as int && SPACE == ' ' as int && FF == 0x0c
    ensures EXCLAMATION == '!' as int && HASH == '#' as int && DOLLAR == '$' as int && PERCENT == '%' as int
    ensures AMPERSAND == '&' as int && QUOTE == '\'' as int && LPAREN == '(' as int && RPAREN == ')' as int
    ensures STAR == '*' as int && PLUS == '+' as int && COMMA == ',' as int && MINUS == '-' as int && DOT == '.' as int
    ensures SLASH == '/' as int && COLON == ':' as int && SEMICOLON == ';' as int && EQUALS == '=' as int
    ensures QUESTION == '?' as int && AT == '@' as int && LBRACKET == '[' as int && RBRACKET == ']' as int
    ensures UNDERSCORE == '_' as int && TILDE == '~' as int
  {}

  /** c is one of the characters of s. */
  ghost predicate OneOf(c: Byte, s: string) { exists i :: 0 <= i < |s| && s[i] as int == c }

  const DIGITS: string := "0123456789"
  const HEX_LOWER: string := "0123456789abcdef"
  const HEX_UPPER: string := "0123456789ABCDEF"
  const LETTERS_LOWER: string := "abcdefghijklmnopqrstuvwxyz"
  const LETTERS_UPPER: string := "ABCDEFGHIJKLMNOPQRSTUVWXYZ"

  /** The table unhex: the place of a digit among the sixteen, and -1 for every other byte. */
  lemma UnhexTable(c: Byte)
    ensures forall v :: 0 <= v < 16 ==> Unhex(HEX_LOWER[v] as int) == v && Unhex(HEX_UPPER[v] as int) == v
    ensures Unhex(c) == -1 <==> !OneOf(c, HEX_LOWER) && !OneOf(c, HEX_UPPER)
    ensures -1 <= Unhex(c) < 16
  {
    var v := Unhex(c);
    if v >= 0 {
      assert HEX_LOWER[v] as int == c || HEX_UPPER[v] as int == c;
    }
  }

  /** c | 0x20: the bit of value 32 is set. */
  lemma LowerSetsBit(c: Byte)
    ensures Lower(c) == if c / 32 % 2 == 0 then c + 32 else c
  {}

  const TOKEN_MARKS: string := "!#$%&'*+-.^_`|~"

  /** The table tokens, in strict mode: letters in lower case, 0 for every byte that is no token character. */
  lemma TokenTable(c: Byte)
    ensures forall i :: 0 <= i < 26 ==> Token(LETTERS_LOWER[i] as int) == LETTERS_LOWER[i] as int
    ensures forall i :: 0 <= i < 26 ==> Token(LETTERS_UPPER[i] as int) == LETTERS_LOWER[i] as int
    ensures OneOf(c, DIGITS) || OneOf(c, TOKEN_MARKS) ==> Token(c) == c
    ensures Token(c) != 0 <==>
      OneOf(c, LETTERS_LOWER) || OneOf(c, LETTERS_UPPER) || OneOf(c, DIGITS) || OneOf(c, TOKEN_MARKS)
  {
    LettersAndDigits(c);
    MarksOfTokens(c);
    LetterTokens();
    hide OneOf;
  }

  lemma LetterTokens()
    ensures forall i :: 0 <= i < 26 ==> Token(LETTERS_LOWER[i] as int) == LETTERS_LOWER[i] as int
    ensures forall i :: 0 <= i < 26 ==> Token(LETTERS_UPPER[i] as int) == LETTERS_LOWER[i] as int
  {}

  lemma LettersAndDigits(c: Byte)
    ensures OneOf(c, LETTERS_LOWER) <==> 97 <= c <= 122
    ensures OneOf(c, LETTERS_UPPER) <==> 65 <= c <= 90
    ensures OneOf(c, DIGITS) <==> 48 <= c <= 57
  {
    hide OneOf;
    LowerLetters(c);
    UpperLetters(c);
    DecimalDigits(c);
  }

  lemma LowerLetters(c: Byte)
    ensures OneOf(c, LETTERS_LOWER) <==> 97 <= c <= 122
  {
    if 97 <= c <= 122 {
      assert LETTERS_LOWER[c - 97] as int == c;
    }
  }

  lemma UpperLetters(c: Byte)
    ensures OneOf(c, LETTERS_UPPER) <==> 65 <= c <= 90
  {
    if 65 <= c <= 90 {
      assert LETTERS_UPPER[c - 65] as int == c;
    }
  }

  lemma DecimalDigits(c: Byte)
    ensures OneOf(c, DIGITS) <==> 48 <= c <= 57
  {
    if 48 <= c <= 57 {
      assert DIGITS[c - 48] as int == c;
    }
  }

  lemma MarksOfTokens(c: Byte)
    ensures OneOf(c, TOKEN_MARKS) <==>
      c == 33 || 35 <= c <= 39 || c == 42 || c == 43 || c == 45 || c == 46 || 94 <= c <= 96 || c == 124 || c == 126
  {
    var i := if c == 33 then 0 else if 35 <= c <= 39 then c - 34 else if c == 42 then 6 else if c == 43 then 7
             else if c == 45 then 8 else if c == 46 then 9 else if 94 <= c <= 96 then c - 84
             else if c == 124 then 13 else 14;
    if TOKEN_MARKS[i] as int != c {
      assert forall k :: 0 <= k < |TOKEN_MARKS| ==> TOKEN_MARKS[k] as int != c;
    }
  }

  /** Letters, digits and what the table normal_url_char adds to them in strict mode */
  const URL_MARKS: string := "!\"$%&'()*+,-./:;<=>@[\\]^_`{|}~"

  lemma UrlTable(c: Byte)
    ensures IsUrlChar(c) <==>
      OneOf(c, LETTERS_LOWER) || OneOf(c, LETTERS_UPPER) || OneOf(c, DIGITS) || OneOf(c, URL_MARKS)
  {
    LettersAndDigits(c);
    MarksOfUrls(c);
  }

  lemma MarksOfUrls(c: Byte)
    ensures OneOf(c, URL_MARKS) <==>
      33 <= c <= 34 || 36 <= c <= 47 || 58 <= c <= 62 || c == 64 || 91 <= c <= 96 || 123 <= c <= 126
  {
    var i := if 33 <= c <= 34 then c - 33 else if 36 <= c <= 47 then c - 34 else if 58 <= c <= 62 then c - 44
             else if c == 64 then 19 else if 91 <= c <= 96 then c - 71 else if 123 <= c <= 126 then c - 97 else 0;
    if URL_MARKS[i] as int != c {
      assert forall k :: 0 <= k < |URL_MARKS| ==> URL_MARKS[k] as int != c;
    }
  }

  /** The macros for letters, digits, host names and user information, in strict mode */
  lemma ClassTable(c: Byte)
    ensures IsNum(c) <==> OneOf(c, DIGITS)
    ensures IsAlpha(c) <==> OneOf(c, LETTERS_LOWER) || OneOf(c, LETTERS_UPPER)
    ensures IsHex(c) <==> Unhex(c) >= 0
    ensures IsHostChar(c) <==>
      OneOf(c, LETTERS_LOWER) || OneOf(c, LETTERS_UPPER) || OneOf(c, DIGITS) || OneOf(c, HOST_MARKS)
    ensures IsUserinfoChar(c) <==>
      OneOf(c, LETTERS_LOWER) || OneOf(c, LETTERS_UPPER) || OneOf(c, DIGITS) || OneOf(c, USER_MARKS)
  {
    hide OneOf;
    LettersAndDigits(c);
    MarksOfHosts(c);
    MarksOfUsers(c);
  }

  const HOST_MARKS: string := ".-"
  const USER_MARKS: string := "!$%&'()*+,-.:;=_~"

  lemma MarksOfHosts(c: Byte)
    ensures OneOf(c, HOST_MARKS) <==> c == 45 || c == 46
  {
    assert HOST_MARKS[0] == '.' && HOST_MARKS[1] == '-';
  }

  lemma MarksOfUsers(c: Byte)
    ensures OneOf(c, USER_MARKS) <==>
      c == 33 || 36 <= c <= 46 || c == 58 || c == 59 || c == 61 || c == 95 || c == 126
  {
    var i := if c == 33 then 0 else if 36 <= c <= 46 then c - 35 else if c == 58 then 12 else if c == 59 then 13
             else if c == 61 then 14 else if c == 95 then 15 else 16;
    if USER_MARKS[i] as int != c {
      assert forall k :: 0 <= k < |USER_MARKS| ==> USER_MARKS[k] as int != c;
    }
  }

  /** Bytes that a header value may not hold: controls but TAB, and DEL */
  const BAD_VALUE_BYTES: seq<int> := [0, 1, 2, 3, 4, 5, 6, 7, 8, 11, 12, 14, 15, 16, 17, 18, 19, 20, 21, 22, 23, 24,
    25, 26, 27, 28, 29, 30, 31, 127]

  lemma ValueTable(c: Byte)
    ensures IsHeaderChar(c) <==> c !in BAD_VALUE_BYTES
  {}

  // ----- Numbers by the places of their digits -----

  /** The number whose digits stand at these places of the sixteen. */
  function Positional(base: nat, places: seq<nat>): nat
    decreases |places|
  {
    if places == [] then 0 else Positional(base, places[..|places| - 1]) * base + places[|places| - 1]
  }

  /** d spells the digits at these places, each in either case. */
  ghost predicate Spelled(d: seq<Byte>, places: seq<nat>) {
    |d| == |places| && forall i :: 0 <= i < |d| ==>
      (places[i] < 16 && (d[i] == HEX_LOWER[places[i]] as int || d[i] == HEX_UPPER[places[i]] as int))
  }

  lemma SpelledDigit(c: Byte, v: nat)
    requires v < 16 && (c == HEX_LOWER[v] as int || c == HEX_UPPER[v] as int)
    ensures Unhex(c) == v && DigitValue(c) == v
  {}

  /** Digits mean the number of their places; decimal ones too, whose places are below 10. */
  lemma {:induction false} SpelledValue(base: nat, d: seq<Byte>, places: seq<nat>)
    requires Spelled(d, places) && (forall i :: 0 <= i < |places| ==> places[i] < base)
    ensures AreDigits(base, d) && ValueOf(base, d) == Positional(base, places)
    decreases |d|
  {
    hide Unhex, DigitValue;
    if d != [] {
      var n := |d| - 1;
      SpelledValue(base, d[..n], places[..n]);
      SpelledDigit(d[n], places[n]);
      forall i | 0 <= i < |d|
        ensures 0 <= Unhex(d[i]) < base
      {
        SpelledDigit(d[i], places[i]);
      }
    }
  }

  /** Every sequence of digits spells some places, and no other sequence does. */
  lemma DigitsAreSpelled(d: seq<Byte>)
    ensures AreDigits(16, d) <==> exists places :: Spelled(d, places)
  {
    if AreDigits(16, d) {
      var places := seq(|d|, i requires 0 <= i < |d| => Unhex(d[i]));
      forall i | 0 <= i < |d|
        ensures d[i] == HEX_LOWER[places[i]] as int || d[i] == HEX_UPPER[places[i]] as int
      {
        UnhexTable(d[i]);
        PlaceOfDigit(d[i]);
      }
      assert Spelled(d, places);
    }
    if places :| Spelled(d, places) {
      forall i | 0 <= i < |d|
        ensures 0 <= Unhex(d[i]) < 16
      {
        SpelledDigit(d[i], places[i]);
      }
    }
  }

  lemma PlaceOfDigit(c: Byte)
    ensures Unhex(c) >= 0 ==> c == HEX_LOWER[Unhex(c)] as int || c == HEX_UPPER[Unhex(c)] as int
  {}

  /** The digits that the printer writes */
  lemma DigitTable(v: nat, upper: bool)
    requires v < 16
    ensures DigitChar(v, upper) == if upper then HEX_UPPER[v] as int else HEX_LOWER[v] as int
  {}
}
