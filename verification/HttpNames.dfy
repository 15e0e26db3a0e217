/** What the word-matching states of the request parser recognise: header names, methods, the last
    transfer coding and URLs. */
module HttpNames {
  import opened Sequences
  import opened HttpChars
  import opened HttpArms
  import opened HttpBytewise
  import opened HttpRun
  import UrlParser

  // ----- Words -----

  /** name is the beginning of word. */
  predicate Begins(name: seq<Byte>, word: string) {
    |name| <= |word| && forall i :: 0 <= i < |name| ==> name[i] == word[i] as int
  }

  predicate Spells(name: seq<Byte>, word: string) { Begins(name, word) && |name| == |word| }

  lemma BeginsNext(name: seq<Byte>, c: Byte, word: string)
    ensures Begins(name + [c], word) <==> Begins(name, word) && |name| < |word| && c == word[|name|] as int
  {
    if Begins(name + [c], word) {
      forall i | 0 <= i < |name|
        ensures name[i] == word[i] as int
      {
        assert (name + [c])[i] == name[i];
      }
      assert (name + [c])[|name|] == c;
    }
  }

  lemma LetterAt(name: seq<Byte>, word: string, k: nat)
    ensures Begins(name, word) && k < |name| ==> k < |word| && name[k] == word[k] as int
  {}

  // ----- Header names -----

  /** The header state for a name read so far, in lower case. */
  function Recognised(name: seq<Byte>): HeaderState {
    if Begins(name, "connection") then
      if |name| == 10 then Connection else if |name| > 3 then MatchConnection
      else if |name| == 3 then HCON else if |name| == 2 then HCO else HC
    else if Begins(name, "content-length") then if |name| == 14 then HeaderState.ContentLength else MatchContentLength
    else if Begins(name, "proxy-connection") then if |name| == 16 then Connection else MatchProxyConnection
    else if Begins(name, "transfer-encoding") then if |name| == 17 then TransferEncoding else MatchTransferEncoding
    else if Begins(name, "upgrade") then if |name| == 7 then Upgrade else MatchUpgrade
    else General
  }

  /** The lower-cased token characters of a name. */
  function Lowered(d: seq<Byte>): (name: seq<Byte>)
    ensures |name| == |d|
  {
    if d == [] then [] else Lowered(Front(d)) + [Token(Last(d))]
  }

  /** After a name the parser knows how far it matches, and its place in the word. */
  predicate NameRead(q: Parser, name: seq<Byte>) {
    q.hs == Recognised(name) && (q.hs != General ==> q.index == |name| - 1)
  }

  lemma FirstLetter(c: Byte)
    ensures Recognised([c]) == match c case 99 => HC case 112 => MatchProxyConnection case 116 => MatchTransferEncoding
                                       case 117 => MatchUpgrade case _ => General
  {
    hide Begins;
    BeginsNext([], c, "connection");
    BeginsNext([], c, "content-length");
    BeginsNext([], c, "proxy-connection");
    BeginsNext([], c, "transfer-encoding");
    BeginsNext([], c, "upgrade");
    BeginsEmpty("connection");
    BeginsEmpty("content-length");
    BeginsEmpty("proxy-connection");
    BeginsEmpty("transfer-encoding");
    BeginsEmpty("upgrade");
    assert [] + [c] == [c];
  }

  lemma BeginsEmpty(word: string)
    ensures Begins([], word)
  {}

  lemma NameStep(q: Parser, name: seq<Byte>, c: Byte)
    requires name != [] && NameRead(q, name)
    ensures NameRead(FieldChar(q, c), name + [c])
  {
    hide Recognised, FieldChar;
    RecognisedNext(q, name, c);
    IndexNext(q, c);
  }

  lemma IndexNext(q: Parser, c: Byte)
    ensures var r := FieldChar(q, c); r.hs != General ==> r.index == q.index + 1 && q.hs != General
  {
    hide MatchWord;
  }

  lemma RecognisedNext(q: Parser, name: seq<Byte>, c: Byte)
    requires name != [] && NameRead(q, name)
    ensures FieldChar(q, c).hs == Recognised(name + [c])
  {
    hide FieldChar, Recognised;
    if |name| <= 3 {
      RecognisedEarly(q, name, c);
    } else {
      RecognisedLate(q, name, c);
    }
  }

  lemma RecognisedEarly(q: Parser, name: seq<Byte>, c: Byte)
    requires 0 < |name| <= 3 && NameRead(q, name)
    ensures FieldChar(q, c).hs == Recognised(name + [c])
  {
    hide Begins;
    BeginsNext(name, c, "connection");
    BeginsNext(name, c, "content-length");
    BeginsNext(name, c, "proxy-connection");
    BeginsNext(name, c, "transfer-encoding");
    BeginsNext(name, c, "upgrade");
    OneWord(name);
  }

  lemma RecognisedLate(q: Parser, name: seq<Byte>, c: Byte)
    requires |name| > 3 && NameRead(q, name)
    ensures FieldChar(q, c).hs == Recognised(name + [c])
  {
    hide Begins;
    BeginsNext(name, c, "connection");
    BeginsNext(name, c, "content-length");
    BeginsNext(name, c, "proxy-connection");
    BeginsNext(name, c, "transfer-encoding");
    BeginsNext(name, c, "upgrade");
    OneWord(name);
  }

  /** Beyond "con", a name is the beginning of at most one word. */
  lemma OneWord(name: seq<Byte>)
    requires name != []
    ensures Begins(name, "connection") ==>
        !Begins(name, "proxy-connection") && !Begins(name, "transfer-encoding") && !Begins(name, "upgrade")
    ensures Begins(name, "content-length") ==>
        !Begins(name, "proxy-connection") && !Begins(name, "transfer-encoding") && !Begins(name, "upgrade")
    ensures Begins(name, "proxy-connection") ==> !Begins(name, "transfer-encoding") && !Begins(name, "upgrade")
    ensures Begins(name, "transfer-encoding") ==> !Begins(name, "upgrade")
    ensures Begins(name, "connection") && |name| > 3 ==> !Begins(name, "content-length")
    ensures Begins(name, "connection") && |name| <= 3 ==> Begins(name, "content-length")
  {
    LetterAt(name, "connection", 0);
    LetterAt(name, "content-length", 0);
    LetterAt(name, "proxy-connection", 0);
    LetterAt(name, "transfer-encoding", 0);
    LetterAt(name, "upgrade", 0);
    LetterAt(name, "connection", 3);
    LetterAt(name, "content-length", 3);
  }

  lemma {:induction false} NameChars(q: Parser, d: seq<Byte>, name: seq<Byte>)
    requires name != [] && NameRead(q, name)
    ensures NameRead(FieldChars(q, d), name + Lowered(d))
    decreases |d|
  {
    hide NameRead, FieldChar, Token;
    if d == [] {
      assert name + [] == name;
    } else {
      NameChars(q, Front(d), name);
      NameStep(FieldChars(q, Front(d)), name + Lowered(Front(d)), Token(Last(d)));
      assert name + Lowered(Front(d)) + [Token(Last(d))] == name + Lowered(d);
    }
  }

  lemma LoweredOne(c: Byte)
    ensures Lowered([c]) == [Token(c)]
  {
    assert Front([c]) == [];
  }

  lemma {:induction false} LoweredConcat(a: seq<Byte>, b: seq<Byte>)
    ensures Lowered(a + b) == Lowered(a) + Lowered(b)
    decreases |b|
  {
    if b == [] {
      assert a + b == a;
    } else {
      LoweredConcat(a, Front(b));
      assert Front(a + b) == a + Front(b) && Last(a + b) == Last(b);
    }
  }

  lemma TailTokens(d: seq<Byte>)
    requires d != [] && Tokens(d)
    ensures Token(d[0]) != 0 && Tokens(d[1..])
  {}

  /** The parser after the first byte of a name. */
  function AfterFirst(p: Parser, ch: Byte): Parser
    requires p.state == FieldStart
  {
    StepOf(p, ch).next
  }

  /** A header name, byte by byte. */
  lemma NameRan(p: Parser, nread: nat, d: seq<Byte>)
    requires Ready(p, nread) && p.state == FieldStart && d != [] && Tokens(d) && nread + |d| <= MAX_HEADER_SIZE
    ensures Ran(p, nread, d, FieldChars(AfterFirst(p, d[0]), d[1..]), nread + |d|, BytesOf(FieldData, d))
  {
    hide RunByte, Ready, Run, FieldChars, FieldChar, Token, BytesOf, Tokens, AfterFirst, Ran;
    var c, r := d[0], d[1..];
    TailTokens(d);
    FirstIs(p, nread, c);
    var q := AfterFirst(p, c);
    RanByte(p, nread, c, q, nread + 1, [Event.Byte(FieldData, c)]);
    FieldRun(q, nread + 1, r);
    Then(p, nread, [c], q, nread + 1, [Event.Byte(FieldData, c)], r, FieldChars(q, r), nread + |d|,
         BytesOf(FieldData, r));
    assert [c] + r == d;
    BytesOfOne(FieldData, c);
    BytesOfConcat(FieldData, [c], r);
  }

  lemma FirstIs(p: Parser, nread: nat, ch: Byte)
    requires Ready(p, nread) && p.state == FieldStart && Token(ch) != 0 && nread < MAX_HEADER_SIZE
    ensures var q := AfterFirst(p, ch);
      RunByte(p, nread, ch) == Outcome(q, nread + 1, [Event.Byte(FieldData, ch)], 1, false)
      && q.errno == Ok && q.state == Field && Ready(q, nread + 1)
  {}

  /** Whatever is read as a header name, its meaning is recognised if and only if it is one of the five
      names, whatever the case of its letters. */
  lemma HeaderName(p: Parser, nread: nat, d: seq<Byte>)
    requires Ready(p, nread) && p.state == FieldStart && d != [] && Tokens(d) && nread + |d| <= MAX_HEADER_SIZE
    ensures var o := Run(p, nread, d);
      Going(o) && o.p.state == Field && o.p.hs == Recognised(Lowered(d)) && o.events == BytesOf(FieldData, d)
      && o.p.flags.transferEncoding == (p.flags.transferEncoding || LongEnough(Lowered(d)))
  {
    hide RunByte, Ready, Run, FieldChars, FieldChar, Token, BytesOf;
    hide Recognised, Lowered, AfterFirst, LongEnough, Tokens;
    var c, r := d[0], d[1..];
    TailTokens(d);
    InvOk(p, nread);
    NameRan(p, nread, d);
    var q := AfterFirst(p, c);
    FirstState(p, c, r);
    LoweredOne(c);
    NameChars(q, r, Lowered([c]));
    EncodingFlag(q, r, Lowered([c]));
    assert [c] + r == d;
    LoweredConcat([c], r);
    RanState(q, r);
  }

  lemma RanState(q: Parser, d: seq<Byte>)
    ensures FieldChars(q, d).state == q.state
  {
    if d != [] {
      RanState(q, Front(d));
      FieldCharStays(FieldChars(q, Front(d)), Token(Last(d)));
    }
  }

  lemma FirstState(p: Parser, c: Byte, r: seq<Byte>)
    requires p.state == FieldStart && Token(c) != 0 && p.errno == Ok
    ensures var q := AfterFirst(p, c); q.state == Field && q.flags == p.flags && NameRead(q, [Token(c)])
    ensures !LongEnough([Token(c)])
  {
    hide Begins;
    FirstLetter(Token(c));
  }

  /** The name begins with "transfer-encoding", and may go on. */
  predicate LongEnough(name: seq<Byte>) { |name| >= 17 && Begins(name[..17], "transfer-encoding") }

  /** The flag that the header is Transfer-Encoding is set by any name that begins so. */
  lemma {:induction false} EncodingFlag(q: Parser, d: seq<Byte>, name: seq<Byte>)
    requires name != [] && NameRead(q, name) && !LongEnough(name)
    ensures FieldChars(q, d).flags.transferEncoding == (q.flags.transferEncoding || LongEnough(name + Lowered(d)))
    decreases |d|
  {
    hide NameRead, FieldChar, Token, LongEnough;
    if d == [] {
      assert name + [] == name;
    } else {
      EncodingFlag(q, Front(d), name);
      NameChars(q, Front(d), name);
      FlagStep(FieldChars(q, Front(d)), name + Lowered(Front(d)), Token(Last(d)));
      assert name + Lowered(Front(d)) + [Token(Last(d))] == name + Lowered(d);
    }
  }

  lemma FlagStep(q: Parser, name: seq<Byte>, c: Byte)
    requires name != [] && NameRead(q, name)
    ensures FieldChar(q, c).flags.transferEncoding ==
      (q.flags.transferEncoding || (!LongEnough(name) && LongEnough(name + [c])))
    ensures LongEnough(name) ==> LongEnough(name + [c])
  {
    if |name| < 16 {
    } else if |name| == 16 {
      assert (name + [c])[..17] == name + [c];
      BeginsNext(name, c, "transfer-encoding");
      OneWord(name);
      ShortWords(name);
    } else {
      assert (name + [c])[..17] == name[..17];
    }
  }

  lemma ShortWords(name: seq<Byte>)
    requires |name| == 16
    ensures !Begins(name, "connection") && !Begins(name, "content-length") && !Begins(name, "upgrade")
  {}

  // ----- Methods -----

  /** A correction of the guess goes to a method that begins with what was read, and the letter. */
  lemma CorrectionFits(verb: nat, index: nat, ch: Byte)
    requires NextMethod(verb, index, ch) >= 0
    ensures var w := MethodName(NextMethod(verb, index, ch));
      index < |w| && w[index] as int == ch && index <= |MethodName(verb)| && w[..index] == MethodName(verb)[..index]
  {
    match (verb, index, ch)
    case (3, 1, 85) =>
    case (3, 1, 65) =>
    case (3, 1, 82) =>
    case (4, 2, 82) =>
    case (5, 1, 72) =>
    case (5, 2, 80) =>
    case (10, 1, 79) =>
    case (10, 1, 69) =>
    case (10, 1, 45) =>
    case (10, 2, 65) =>
    case (10, 3, 65) =>
    case (26, 1, 69) =>
    case (26, 1, 79) =>
    case (20, 2, 66) =>
    case (12, 4, 80) =>
    case (9, 1, 73) =>
    case (15, 2, 83) =>
    case (15, 2, 66) =>
    case (15, 3, 73) =>
    case _ =>
  }

  /** The method guessed after i letters of the name of v. */
  function GuessAfter(v: nat, i: nat): int
    requires 1 <= i <= |MethodName(v)|
  {
    var ch := MethodName(v)[i - 1] as int;
    if i == 1 then (if 0 <= ch < 256 then FirstMethod(ch) else -1)
    else
      var g := GuessAfter(v, i - 1);
      if g < 0 then -1 else if MethodChar(g, i - 1) == ch then g
      else if 0 <= ch < 256 then NextMethod(g, i - 1, ch) else -1
  }

  /** The guess that is corrected to v, and at which letter; a method guessed from its first letter has none. */
  function Corrects(v: nat): (r: (nat, nat))
    ensures r.1 < 5
  {
    match v
    case 4 => (3, 1)
    case 8 => (5, 2)
    case 11 => (10, 1)
    case 12 => (3, 1)
    case 13 => (12, 4)
    case 14 => (26, 1)
    case 17 => (20, 2)
    case 18 => (15, 2)
    case 21 => (10, 2)
    case 22 => (5, 1)
    case 23 => (10, 1)
    case 24 => (10, 1)
    case 27 => (15, 2)
    case 28 => (3, 1)
    case 29 => (4, 2)
    case 30 => (10, 3)
    case 31 => (9, 1)
    case 32 => (15, 3)
    case 33 => (26, 1)
    case _ => (v, 0)
  }

  /** The tables of first guesses and corrections lead to every method. */
  lemma EveryMethod(v: nat)
    requires v <= 33
    ensures var (u, k) := Corrects(v);
      k < |MethodName(v)| && u <= 33 && 0 <= MethodName(v)[k] as int < 256
      && (if k == 0 then FirstMethod(MethodName(v)[0] as int) == v
          else (Corrects(u).1 < k <= |MethodName(u)| && NextMethod(u, k, MethodName(v)[k] as int) == v
                && MethodChar(u, k) != MethodName(v)[k] as int))
  {}

  /** The guess does not depend on later letters. */
  lemma {:induction false} HeldPrefix(v: nat, u: nat, k: nat)
    requires 1 <= k <= |MethodName(v)| && k <= |MethodName(u)| && MethodName(v)[..k] == MethodName(u)[..k]
    ensures GuessAfter(v, k) == GuessAfter(u, k)
    decreases k
  {
    hide MethodName, NextMethod, FirstMethod, MethodChar;
    assert MethodName(v)[k - 1] == MethodName(v)[..k][k - 1] == MethodName(u)[k - 1];
    if k > 1 {
      assert MethodName(v)[..k - 1] == MethodName(v)[..k][..k - 1] == MethodName(u)[..k - 1];
      HeldPrefix(v, u, k - 1);
    }
  }

  /** Once the guess is right it stays right. */
  lemma {:induction false} HeldStays(v: nat, i: nat, j: nat)
    requires 1 <= i <= j <= |MethodName(v)| && GuessAfter(v, i) == v
    ensures GuessAfter(v, j) == v
    decreases j
  {
    hide MethodName, NextMethod, FirstMethod;
    if i < j {
      HeldStays(v, i, j - 1);
    }
  }

  /** Reading the name of a method leads to that method. */
  lemma HeldAll(v: nat, i: nat)
    requires v <= 33 && Corrects(v).1 < i <= |MethodName(v)|
    ensures GuessAfter(v, i) == v
    decreases Corrects(v).1, 1
  {
    hide MethodName, NextMethod, FirstMethod, MethodChar, Corrects;
    var (u, k) := Corrects(v);
    EveryMethod(v);
    if k > 0 {
      CorrectionFits(u, k, MethodName(v)[k] as int);
      HeldAll(u, k);
      HeldPrefix(v, u, k);
    }
    HeldStays(v, k + 1, i);
  }

  lemma HeldWhole(v: nat)
    requires v <= 33
    ensures |MethodName(v)| > 0 && GuessAfter(v, |MethodName(v)|) == v
  {
    hide MethodName, GuessAfter, Corrects, NextMethod, FirstMethod, MethodChar;
    EveryMethod(v);
    HeldAll(v, |MethodName(v)|);
  }

  lemma {:induction false} HeldBefore(v: nat, i: nat)
    requires 1 <= i <= |MethodName(v)| && GuessAfter(v, |MethodName(v)|) >= 0
    ensures GuessAfter(v, i) >= 0
    decreases |MethodName(v)| - i
  {
    hide NextMethod, FirstMethod, MethodName, MethodChar;
    if i < |MethodName(v)| {
      HeldBefore(v, i + 1);
    }
  }

  predicate NoSpaces(d: seq<Byte>) { forall i :: 0 <= i < |d| ==> d[i] != SPACE }

  /** The letters read so far begin the name of the method held. */
  predicate MethodRead(q: Parser, d: seq<Byte>) {
    q.state == ReqMethod && q.index == |d| && Begins(d, MethodName(q.line.verb))
  }

  /** Names are made of letters and dashes, so a space ends them. */
  lemma NameEnds(verb: nat, i: nat)
    ensures MethodChar(verb, i) != SPACE && NextMethod(verb, i, SPACE) < 0
    ensures MethodChar(verb, i) == 0 <==> i >= |MethodName(verb)|
    ensures i < |MethodName(verb)| ==> MethodChar(verb, i) == MethodName(verb)[i] as int
  {
    hide MethodName;
    NameLetters(verb);
  }

  lemma NameLetters(verb: nat)
    ensures forall i :: 0 <= i < |MethodName(verb)| ==> 32 < MethodName(verb)[i] as int < 128
    ensures |MethodName(verb)| > 0
  {
    hide MethodName;
    if verb < 17 {
      NameLettersLow(verb);
    } else {
      NameLettersHigh(verb);
    }
  }

  lemma NameLettersLow(verb: nat)
    requires verb < 17
    ensures forall i :: 0 <= i < |MethodName(verb)| ==> 32 < MethodName(verb)[i] as int < 128
    ensures |MethodName(verb)| > 0
  {}

  lemma NameLettersHigh(verb: nat)
    requires verb >= 17
    ensures forall i :: 0 <= i < |MethodName(verb)| ==> 32 < MethodName(verb)[i] as int < 128
    ensures |MethodName(verb)| > 0
  {}

  lemma MethodStep(q: Parser, d: seq<Byte>, ch: Byte)
    requires MethodRead(q, d) && q.errno == Ok
    ensures var s := StartArm(q, ch).next;
      if ch == SPACE then
        (if Spells(d, MethodName(q.line.verb)) then s == q.(state := SpacesBeforeUrl, index := q.index + 1)
         else s.errno != Ok)
      else s.errno == Ok ==> MethodRead(s, d + [ch])
    ensures StartArm(q, ch).acts == Done && !StartArm(q, ch).stop
  {
    hide NextMethod, Begins, MethodName, MethodChar;
    NameEnds(q.line.verb, q.index);
    BeginsLength(d, MethodName(q.line.verb));
    BeginsNext(d, ch, MethodName(q.line.verb));
    if NextMethod(q.line.verb, q.index, ch) >= 0 {
      CorrectionFits(q.line.verb, q.index, ch);
      Corrected(d, ch, MethodName(q.line.verb), MethodName(NextMethod(q.line.verb, q.index, ch)));
    }
  }

  lemma BeginsLength(d: seq<Byte>, word: string)
    ensures Begins(d, word) ==> |d| <= |word|
  {}

  lemma Corrected(d: seq<Byte>, ch: Byte, word: string, other: string)
    requires Begins(d, word) && |d| < |other| && other[|d|] as int == ch && other[..|d|] == word[..|d|]
    ensures Begins(d + [ch], other)
  {
    forall i | 0 <= i < |d|
      ensures d[i] == other[i] as int
    {
      assert other[i] == other[..|d|][i] == word[..|d|][i] == word[i];
    }
    BeginsNext(d, ch, other);
  }

  lemma MethodByte(q: Parser, nread: nat, d: seq<Byte>, ch: Byte)
    requires Ready(q, nread) && MethodRead(q, d) && nread < MAX_HEADER_SIZE
    ensures var s := StartArm(q, ch).next; var o := RunByte(q, nread, ch);
      o.p == s && (s.errno == Ok ==> o == Outcome(s, nread + 1, [], 1, false))
  {
    hide NextMethod, Begins, MethodName, MethodChar, StartArm;
    InvOk(q, nread);
    MethodStep(q, d, ch);
  }

  lemma FirstMethodByte(p: Parser, nread: nat, ch: Byte)
    requires Ready(p, nread) && p.state == StartReq && ch != CR && ch != LF && nread < MAX_HEADER_SIZE
    ensures var o := RunByte(p, nread, ch);
      if FirstMethod(ch) < 0 then o.p.errno == InvalidMethod
      else (o == Outcome(o.p, nread + 1, [Note(MessageBegin)], 1, false) && o.p.errno == Ok && MethodRead(o.p, [ch])
            && o.p.line.verb == FirstMethod(ch))
  {
    FirstLetters(ch);
  }

  lemma FirstLetters(ch: Byte)
    ensures FirstMethod(ch) >= 0 ==> Begins([ch], MethodName(FirstMethod(ch)))
  {}

  /** While no space was read, the parser is in the name of a method that begins with the bytes read. */
  lemma {:induction false} MethodRun(p: Parser, nread: nat, d: seq<Byte>)
    requires Ready(p, nread) && p.state == StartReq && d != [] && d[0] != CR && d[0] != LF && NoSpaces(d)
    requires nread + |d| <= MAX_HEADER_SIZE
    ensures var o := Run(p, nread, d);
      o.p.errno == Ok ==> MethodRead(o.p, d) && o == Outcome(o.p, nread + |d|, [Note(MessageBegin)], |d|, false)
    decreases |d|
  {
    hide RunByte, Ready, Run, MethodRead, FirstMethod, Begins, MethodName;
    assert Front(d) + [Last(d)] == d && Last(d) == d[|d| - 1];
    if |d| == 1 {
      FirstMethodByte(p, nread, d[0]);
      RunOne(p, nread, d[0]);
      assert d == [d[0]];
    } else {
      assert Front(d)[0] == d[0];
      MethodRun(p, nread, Front(d));
      RunLast(p, nread, d);
      var o := Run(p, nread, Front(d));
      if o.p.errno == Ok {
        MethodByte(o.p, o.nread, Front(d), Last(d));
        MethodStep(o.p, Front(d), Last(d));
        assert [Note(MessageBegin)] + [] == [Note(MessageBegin)];
      }
    }
  }

  /** Bytes and a space are accepted as a method only if they spell the name of the method stored. */
  lemma MethodSound(p: Parser, nread: nat, d: seq<Byte>)
    requires Ready(p, nread) && p.state == StartReq && d != [] && d[0] != CR && d[0] != LF && NoSpaces(d)
    requires nread + |d| < MAX_HEADER_SIZE && Run(p, nread, d + [SPACE]).p.errno == Ok
    ensures var o := Run(p, nread, d + [SPACE]); o.p.state == SpacesBeforeUrl && Spells(d, MethodName(o.p.line.verb))
  {
    hide RunByte, Ready, Run, MethodRead, FirstMethod, Begins, MethodName, StartArm;
    MethodRun(p, nread, d);
    RunSplit(p, nread, d, [SPACE]);
    var o := Run(p, nread, d);
    RunOne(o.p, o.nread, SPACE);
    MethodByte(o.p, o.nread, d, SPACE);
    InvOk(o.p, o.nread);
    MethodStep(o.p, d, SPACE);
  }

  lemma HeldStep(q: Parser, v: nat, i: nat, ch: Byte)
    requires q.state == ReqMethod && q.index == i && 1 <= i < |MethodName(v)| && q.line.verb == GuessAfter(v, i)
    requires ch == MethodName(v)[i] as int && GuessAfter(v, i + 1) >= 0
    ensures var s := StartArm(q, ch).next; s.errno == q.errno && s.line.verb == GuessAfter(v, i + 1)
  {
    hide NextMethod, MethodName, MethodChar, FirstMethod;
    NameLetters(v);
  }

  /** The name of a method is accepted byte by byte. */
  lemma {:induction false} HeldRun(p: Parser, nread: nat, v: nat, d: seq<Byte>)
    requires Ready(p, nread) && p.state == StartReq && v <= 33 && d != [] && Begins(d, MethodName(v))
    requires nread + |d| <= MAX_HEADER_SIZE
    ensures var o := Run(p, nread, d);
      o.p.errno == Ok && o.p.line.verb == GuessAfter(v, |d|) && NoSpaces(d) && d[0] != CR && d[0] != LF
    decreases |d|
  {
    hide RunByte, Ready, Run, FirstMethod, MethodName, GuessAfter, StartArm, Inv, IsUrlState, IsChunkState;
    NameLetters(v);
    HeldWhole(v);
    HeldBefore(v, |d|);
    assert Front(d) + [Last(d)] == d && Last(d) == d[|d| - 1];
    if |d| == 1 {
      HeldFirst(v);
      FirstMethodByte(p, nread, d[0]);
      RunOne(p, nread, d[0]);
      assert d == [d[0]];
    } else {
      HeldRun(p, nread, v, Front(d));
      HeldNext(p, nread, v, d);
    }
  }

  lemma HeldNext(p: Parser, nread: nat, v: nat, d: seq<Byte>)
    requires Ready(p, nread) && p.state == StartReq && v <= 33 && |d| > 1 && Begins(d, MethodName(v))
    requires nread + |d| <= MAX_HEADER_SIZE
    requires var o := Run(p, nread, Front(d));
      o.p.errno == Ok && o.p.line.verb == GuessAfter(v, |d| - 1) && NoSpaces(Front(d)) && d[0] != CR && d[0] != LF
    ensures var o := Run(p, nread, d); o.p.errno == Ok && o.p.line.verb == GuessAfter(v, |d|) && NoSpaces(d)
  {
    hide RunByte, Ready, Run, FirstMethod, MethodName, GuessAfter, StartArm, Inv;
    NameLetters(v);
    HeldWhole(v);
    HeldBefore(v, |d|);
    assert Front(d) + [Last(d)] == d && Last(d) == d[|d| - 1];
    MethodRun(p, nread, Front(d));
    RunLast(p, nread, d);
    var o := Run(p, nread, Front(d));
    MethodByte(o.p, o.nread, Front(d), Last(d));
    InvOk(o.p, o.nread);
    HeldStep(o.p, v, |d| - 1, Last(d));
  }

  lemma HeldFirst(v: nat)
    requires v <= 33
    ensures 0 <= MethodName(v)[0] as int < 256 && GuessAfter(v, 1) == FirstMethod(MethodName(v)[0] as int)
  {
    NameLetters(v);
  }

  /** Every method is accepted under its own name. */
  lemma MethodComplete(p: Parser, nread: nat, v: nat, d: seq<Byte>)
    requires Ready(p, nread) && p.state == StartReq && v <= 33 && Spells(d, MethodName(v))
    requires nread + |d| < MAX_HEADER_SIZE
    ensures var o := Run(p, nread, d + [SPACE]);
      Going(o) && o.p.state == SpacesBeforeUrl && o.p.line.verb == v && o.events == [Note(MessageBegin)]
  {
    hide RunByte, Ready, Run, FirstMethod, MethodName, GuessAfter, StartArm, Begins;
    NameLetters(v);
    HeldRun(p, nread, v, d);
    HeldWhole(v);
    MethodRun(p, nread, d);
    RunSplit(p, nread, d, [SPACE]);
    var o := Run(p, nread, d);
    RunOne(o.p, o.nread, SPACE);
    MethodByte(o.p, o.nread, d, SPACE);
    InvOk(o.p, o.nread);
    MethodStep(o.p, d, SPACE);
    assert [Note(MessageBegin)] + [] == [Note(MessageBegin)];
  }

  // ----- Transfer codings -----

  predicate Blank(d: seq<Byte>) { forall i :: 0 <= i < |d| ==> d[i] == SPACE }

  /** A coding of the list d begins at j: at the start, or behind a comma and spaces. */
  ghost predicate CodingAt(d: seq<Byte>, j: nat) {
    j == 0 || exists i :: 1 <= i <= j <= |d| && d[i - 1] == COMMA && Blank(d[i..j])
  }

  /** The n bytes from j on begin the word "chunked", whatever their case. */
  predicate ChunkedFrom(d: seq<Byte>, j: nat, n: nat) {
    n <= 7 && j + n <= |d| && forall i :: 0 <= i < n ==> Lower(d[j + i]) == "chunked"[i] as int
  }

  /** The last coding of the list is chunked, with nothing but spaces behind it. */
  ghost predicate FinalChunked(d: seq<Byte>) {
    exists j :: 0 <= j <= |d| - 7 && CodingAt(d, j) && ChunkedFrom(d, j, 7) && Blank(d[j + 7..])
  }

  /** What the states for Transfer-Encoding know of the value d read so far. */
  ghost predicate CodingRead(q: Parser, d: seq<Byte>) {
    match q.hs
    case TeTokenStart => q.index == 0 && CodingAt(d, |d|) && d != []
    case TeMatchChunked => q.index < 6 && q.index < |d| && CodingAt(d, |d| - 1 - q.index)
        && ChunkedFrom(d, |d| - 1 - q.index, q.index + 1)
    case TeChunked => FinalChunked(d)
    case TeToken => true
    case General => true
    case _ => false
  }

  lemma CodingGrows(d: seq<Byte>, ch: Byte, j: nat)
    requires CodingAt(d, j) && j <= |d|
    ensures CodingAt(d + [ch], j)
    ensures j == |d| > 0 && ch == SPACE ==> CodingAt(d + [ch], j + 1)
  {
    if j > 0 {
      var i :| 1 <= i <= j <= |d| && d[i - 1] == COMMA && Blank(d[i..j]);
      assert (d + [ch])[i - 1] == COMMA && (d + [ch])[i..j] == d[i..j];
      if j == |d| && ch == SPACE {
        assert (d + [ch])[i..j + 1] == d[i..j] + [ch];
      }
    }
  }

  lemma CommaStarts(d: seq<Byte>)
    ensures CodingAt(d + [COMMA], |d| + 1)
  {
    assert (d + [COMMA])[|d|] == COMMA && Blank((d + [COMMA])[|d| + 1..|d| + 1]);
  }

  lemma ChunkedGrows(d: seq<Byte>, ch: Byte, j: nat, n: nat)
    requires ChunkedFrom(d, j, n) && j + n == |d| && n < 7
    ensures Lower(ch) == "chunked"[n] as int ==> ChunkedFrom(d + [ch], j, n + 1)
  {
    forall i | 0 <= i < n
      ensures Lower((d + [ch])[j + i]) == "chunked"[i] as int
    {
      assert (d + [ch])[j + i] == d[j + i];
    }
  }

  lemma FinalGrows(d: seq<Byte>)
    requires FinalChunked(d)
    ensures FinalChunked(d + [SPACE])
  {
    var j :| 0 <= j <= |d| - 7 && CodingAt(d, j) && ChunkedFrom(d, j, 7) && Blank(d[j + 7..]);
    var e := d + [SPACE];
    CodingGrows(d, SPACE, j);
    assert e[j + 7..] == d[j + 7..] + [SPACE];
    assert ChunkedFrom(e, j, 7) by {
      forall i | 0 <= i < 7
        ensures Lower(e[j + i]) == "chunked"[i] as int
      {
        assert e[j + i] == d[j + i];
      }
    }
  }

  lemma WholeWord(d: seq<Byte>, j: nat)
    requires CodingAt(d, j) && ChunkedFrom(d, j, 7) && j + 7 == |d|
    ensures FinalChunked(d)
  {
    assert Blank(d[j + 7..]);
  }

  lemma CodingStep(q: Parser, d: seq<Byte>, ch: Byte)
    requires CodingRead(q, d) && IsValueByte(ch)
    ensures CodingRead(ValueChar(q, ch), d + [ch])
  {
    hide CodingAt, ChunkedFrom, FinalChunked;
    match q.hs
    case TeTokenStart =>
      CodingGrows(d, ch, |d|);
      StartsWord(d, ch);
    case TeMatchChunked =>
      var j := |d| - 1 - q.index;
      CodingGrows(d, ch, j);
      ChunkedGrows(d, ch, j, q.index + 1);
      if q.index == 5 && Lower(ch) == 100 {
        WholeWord(d + [ch], j);
      }
    case TeChunked =>
      FinalGrows(d);
    case TeToken =>
      CommaStarts(d);
    case _ =>
  }

  lemma StartsWord(d: seq<Byte>, ch: Byte)
    ensures Lower(ch) == 99 ==> ChunkedFrom(d + [ch], |d|, 1)
  {}

  lemma {:induction false} CodingChars(q: Parser, d: seq<Byte>, r: seq<Byte>)
    requires CodingRead(q, d) && (forall i :: 0 <= i < |r| ==> IsValueByte(r[i]))
    ensures CodingRead(ValueChars(q, r), d + r)
    decreases |r|
  {
    hide CodingRead, ValueChar, IsValueByte;
    if r == [] {
      assert d + [] == d;
    } else {
      CodingChars(q, d, Front(r));
      assert Last(r) == r[|r| - 1];
      CodingStep(ValueChars(q, Front(r)), d + Front(r), Last(r));
      assert d + Front(r) + [Last(r)] == d + r;
    }
  }

  /** A Transfer-Encoding value is taken for chunked only if chunked is its final coding. */
  lemma ChunkedIsFinal(p: Parser, ch: Byte, r: seq<Byte>)
    requires p.hs == TransferEncoding && IsValueByte(ch) && (forall i :: 0 <= i < |r| ==> IsValueByte(r[i]))
    requires ValueChars(ValueStartArm(p, ch).next, r).hs == TeChunked
    ensures FinalChunked([ch] + r)
  {
    hide ValueChars, FinalChunked, CodingAt, IsValueByte;
    assert CodingAt([ch], 0) by { AtStart([ch]); }
    CodingChars(ValueStartArm(p, ch).next, [ch], r);
  }

  lemma AtStart(d: seq<Byte>)
    ensures CodingAt(d, 0)
  {}

  /** The chunked flag is set only at the end of such a value. */
  lemma ChunkedOnlyThere(p: Parser, ch: Byte)
    requires Inv(p) && !p.flags.chunked && StepOf(p, ch).next.flags.chunked
    ensures (p.state == ValueLws || p.state == ValueDiscardLws) && p.hs == TeChunked
  {
    hide UrlArm, VersionArm, HeaderArm, ChunkArm, StartArm, FieldArm, ValueArm, BodyArm;
    BodyUnchunked(p, ch);
    LineUnchunked(p, ch);
    FieldUnchunked(p, ch);
    ValueUnchunked(p, ch);
    if IsHeaderState(p.state) {
      HeaderUnchunked(p, ch);
    }
  }

  lemma BodyUnchunked(p: Parser, ch: Byte)
    requires !p.flags.chunked
    ensures p.contentLength > 0 ==> !BodyArm(p).next.flags.chunked
    ensures !ChunkArm(p, ch).next.flags.chunked
  {}

  lemma LineUnchunked(p: Parser, ch: Byte)
    requires !p.flags.chunked
    ensures !StartArm(p, ch).next.flags.chunked && !UrlArm(p, ch).next.flags.chunked
    ensures !VersionArm(p, ch).next.flags.chunked
  {
    hide StartArm, UrlArm, VersionArm;
    StartUnchunked(p, ch);
    UrlUnchunked(p, ch);
    VersionUnchunked(p, ch);
  }

  lemma StartUnchunked(p: Parser, ch: Byte)
    ensures !p.flags.chunked ==> !StartArm(p, ch).next.flags.chunked
  {
    hide MethodChar, NextMethod, FirstMethod;
  }

  lemma UrlUnchunked(p: Parser, ch: Byte)
    ensures UrlArm(p, ch).next.flags == p.flags
  {
    hide ParseUrlChar;
  }

  lemma VersionUnchunked(p: Parser, ch: Byte)
    ensures VersionArm(p, ch).next.flags == p.flags
  {}

  lemma FieldUnchunked(p: Parser, ch: Byte)
    requires !p.flags.chunked
    ensures !FieldArm(p, ch).next.flags.chunked
  {
    hide Token, MatchWord;
  }

  lemma ValueUnchunked(p: Parser, ch: Byte)
    requires !p.flags.chunked
    ensures !ValueArm(p, ch).next.flags.chunked
  {
    hide MatchWord, TokenStart, IsHeaderChar, Lower, LengthDigit, AfterConnectionWord, SetConnectionFlag;
    WordUnchunked(p, ch);
  }

  lemma WordUnchunked(p: Parser, ch: Byte)
    ensures LengthDigit(p, ch).flags == p.flags
    ensures p.hs != TeChunked && !p.flags.chunked ==> !AfterConnectionWord(p, ch).flags.chunked
  {
    hide SetConnectionFlag;
    if p.hs != TeChunked {
      FlagUnchunked(p);
    }
  }

  lemma HeaderUnchunked(p: Parser, ch: Byte)
    requires IsHeaderState(p.state) && !p.flags.chunked && HeaderArm(p, ch).next.flags.chunked
    ensures (p.state == ValueLws || p.state == ValueDiscardLws) && p.hs == TeChunked
  {
    hide FieldStartArm, HeadersEnd, ValueStartArm, ValueLwsArm, DiscardLwsArm;
    if p.hs != TeChunked {
      LwsUnchunked(p, ch);
    }
    EndUnchunked(p, ch);
    ValueStartUnchunked(p, ch);
  }

  /** Between headers, the flag of the value just read is set. */
  lemma LwsUnchunked(p: Parser, ch: Byte)
    requires !p.flags.chunked && p.hs != TeChunked
    ensures !ValueLwsArm(p, ch).next.flags.chunked && !DiscardLwsArm(p, ch).next.flags.chunked
  {
    hide FieldStartArm, ValueStartArm, SetConnectionFlag;
    FlagUnchunked(p);
    EndUnchunked(SetConnectionFlag(p).(state := FieldStart), ch);
    ValueStartUnchunked(p, ch);
    ValueStartUnchunked(p.(hs := ContentLengthWs), ch);
  }

  lemma FlagUnchunked(p: Parser)
    requires p.hs != TeChunked
    ensures SetConnectionFlag(p).flags.chunked == p.flags.chunked
  {
    match p.hs
    case ConnKeepAlive =>
    case ConnClose =>
    case ConnUpgrade =>
    case _ =>
  }

  lemma ValueStartUnchunked(p: Parser, ch: Byte)
    ensures !p.flags.chunked ==> !ValueStartArm(p, ch).next.flags.chunked
  {
    hide FirstValueState;
  }

  lemma EndUnchunked(p: Parser, ch: Byte)
    ensures !p.flags.chunked ==> !FieldStartArm(p, ch).next.flags.chunked && !HeadersEnd(p, ch).next.flags.chunked
  {
    hide Token;
  }

  /** The other direction fails: a coding directly behind a chunked coding is never recognised. */
  lemma {:induction false} ChunkedBehindChunkedMissed(q: Parser, r: seq<Byte>)
    requires q.hs == TeChunked && (forall i :: 0 <= i < |r| ==> r[i] != COMMA)
    ensures ValueChars(q, [COMMA] + r).hs == TeToken
    decreases |r|
  {
    if r == [] {
      assert [COMMA] + [] == [COMMA] && Front([COMMA]) == [] && Last([COMMA]) == COMMA;
    } else {
      ChunkedBehindChunkedMissed(q, Front(r));
      assert Front([COMMA] + r) == [COMMA] + Front(r) && Last([COMMA] + r) == r[|r| - 1];
    }
  }

  // ----- Exactly when a value is taken for chunked -----

  /** The elements of a list, between its commas. */
  function Codings(d: seq<Byte>): (c: seq<seq<Byte>>)
    ensures c != []
    decreases |d|
  {
    if d == [] then [[]]
    else
      var c := Codings(Front(d));
      if Last(d) == COMMA then c + [[]] else Front(c) + [Last(c) + [Last(d)]]
  }

  /** An element without the spaces before it. */
  function Trimmed(w: seq<Byte>): seq<Byte> {
    if w != [] && w[0] == SPACE then Trimmed(w[1..]) else w
  }

  /** The word "chunked" in any case, with nothing but spaces behind it. */
  predicate IsChunked(w: seq<Byte>) { ChunkedFrom(w, 0, 7) && Blank(w[7..]) }

  /** A proper prefix of that word */
  predicate IsPartOfChunked(w: seq<Byte>) { 0 < |w| < 7 && ChunkedFrom(w, 0, |w|) }

  /** Where an element of a list is found: first, behind a comma that was noticed, behind one that was taken
      for a part of the element before it, or after the parser gave up on the value. */
  datatype Place = Opening | Fresh | Inside | Lost

  function PlaceAfter(b: Place, w: seq<Byte>): Place {
    match b
    case Opening => if w == [] || IsPartOfChunked(w) || IsChunked(w) then Inside else Fresh
    case Fresh =>
      var t := Trimmed(w);
      if t == [] || Token(Lower(t[0])) == 0 then Lost
      else if IsPartOfChunked(t) || IsChunked(t) then Inside
      else Fresh
    case Inside => Fresh
    case Lost => Lost
  }

  /** Where the element behind those of c is found. */
  function PlaceOf(c: seq<seq<Byte>>): (b: Place)
    ensures b == Opening <==> c == []
    decreases |c|
  {
    if c == [] then Opening else PlaceAfter(PlaceOf(Front(c)), Last(c))
  }

  /** The last coding is chunked, and the parser notices where it begins. */
  predicate NoticedChunked(c: seq<seq<Byte>>)
    requires c != []
  {
    match PlaceOf(Front(c))
    case Opening => IsChunked(Last(c))
    case Fresh => IsChunked(Trimmed(Last(c)))
    case _ => false
  }

  function WordState(t: seq<Byte>): HeaderState {
    if IsChunked(t) then TeChunked else if IsPartOfChunked(t) then TeMatchChunked else TeToken
  }

  /** The state and index behind the part w of an element. */
  predicate ElementRead(q: Parser, b: Place, w: seq<Byte>) {
    match b
    case Opening => w != [] && q.hs == WordState(w) && (q.hs == TeMatchChunked ==> q.index == |w| - 1)
    case Fresh =>
      var t := Trimmed(w);
      if t == [] then q.hs == TeTokenStart && q.index == 0
      else if Token(Lower(t[0])) == 0 then q.hs == General
      else q.hs == WordState(t) && (q.hs == TeMatchChunked ==> q.index == |t| - 1)
    case Inside => q.hs == TeToken
    case Lost => q.hs == General
  }

  lemma FromStart(t: seq<Byte>, n: nat)
    ensures ChunkedFrom(t, 0, n) <==>
      (n <= 7 && n <= |t| && forall i :: 0 <= i < n ==> Lower(t[i]) == "chunked"[i] as int)
  {
    if ChunkedFrom(t, 0, n) {
      forall i | 0 <= i < n
        ensures Lower(t[i]) == "chunked"[i] as int
      {
        assert Lower(t[0 + i]) == "chunked"[i] as int;
      }
    }
  }

  lemma ChunkedLetter(t: seq<Byte>, ch: Byte, n: nat)
    requires |t| < n <= 7
    ensures ChunkedFrom(t + [ch], 0, n) <==>
      (n == |t| + 1 && ChunkedFrom(t, 0, |t|) && Lower(ch) == "chunked"[|t|] as int)
  {
    if n == |t| + 1 {
      var e := t + [ch];
      assert e[|t|] == ch && e[..|t|] == t;
      FromStart(e, n);
      FromStart(t, |t|);
    }
  }

  lemma ChunkedStays(t: seq<Byte>, ch: Byte)
    requires 7 <= |t|
    ensures ChunkedFrom(t + [ch], 0, 7) <==> ChunkedFrom(t, 0, 7)
    ensures Blank((t + [ch])[7..]) <==> Blank(t[7..]) && ch == SPACE
  {
    var e := t + [ch];
    FromStart(e, 7);
    FromStart(t, 7);
    assert e[7..] == t[7..] + [ch];
    if Blank(e[7..]) {
      assert e[7..][|t| - 7] == ch;
      forall i | 0 <= i < |t| - 7
        ensures t[7..][i] == SPACE
      {
        assert e[7..][i] == t[7..][i];
      }
    }
  }

  lemma ChunkedWord(t: seq<Byte>, ch: Byte)
    ensures IsChunked(t + [ch]) <==> (if |t| < 7 then |t| == 6 && ChunkedFrom(t, 0, 6) && Lower(ch) == 100
                                      else IsChunked(t) && ch == SPACE)
    ensures IsPartOfChunked(t + [ch]) <==> |t| < 6 && ChunkedFrom(t, 0, |t|) && Lower(ch) == "chunked"[|t|] as int
  {
    hide ChunkedFrom, Blank;
    if |t| < 7 {
      ChunkedLetter(t, ch, |t| + 1);
      ChunkedLetter(t, ch, 7);
      if |t| == 6 {
        assert (t + [ch])[7..] == [];
        BlankNothing();
      }
    } else {
      ChunkedStays(t, ch);
    }
  }

  lemma BlankNothing()
    ensures Blank([])
  {}

  /** A further byte of a word that has begun. */
  lemma WordStep(q: Parser, t: seq<Byte>, ch: Byte)
    requires t != [] && q.hs == WordState(t) && (q.hs == TeMatchChunked ==> q.index == |t| - 1) && ch != COMMA
    ensures var s := ValueChar(q, ch);
      s.hs == WordState(t + [ch]) && (s.hs == TeMatchChunked ==> s.index == |t|)
  {
    ChunkedWord(t, ch);
    assert IsChunked(t) ==> |t| >= 7;
    hide ChunkedFrom, Blank, TokenStart, LengthDigit, AfterConnectionWord;
  }

  lemma WordBegins(ch: Byte)
    ensures WordState([ch]) == if Lower(ch) == 99 then TeMatchChunked else TeToken
  {
    ChunkedWord([], ch);
    assert [] + [ch] == [ch];
    ChunkedNothing();
  }

  lemma ChunkedNothing()
    ensures ChunkedFrom([], 0, 0)
  {}

  lemma {:induction false} TrimmedNext(w: seq<Byte>, ch: Byte)
    ensures Trimmed(w + [ch]) == if Trimmed(w) == [] && ch == SPACE then [] else Trimmed(w) + [ch]
    decreases |w|
  {
    if w != [] && w[0] == SPACE {
      TrimmedNext(w[1..], ch);
      assert (w + [ch])[1..] == w[1..] + [ch];
    } else if w == [] {
      assert [] + [ch] == [ch] && Trimmed([]) == [] && [ch][1..] == [];
    } else {
      assert (w + [ch])[0] == w[0];
    }
  }

  /** A further byte of an element. */
  lemma ElementStep(q: Parser, b: Place, w: seq<Byte>, ch: Byte)
    requires ElementRead(q, b, w) && IsValueByte(ch) && ch != COMMA
    ensures ElementRead(ValueChar(q, ch), b, w + [ch])
  {
    hide ValueChar, WordState, Trimmed, IsHeaderChar, Token, Lower;
    match b
    case Opening =>
      WordStep(q, w, ch);
    case Fresh =>
      var t := Trimmed(w);
      TrimmedNext(w, ch);
      if t == [] {
        FirstOfWord(q, ch);
        assert [] + [ch] == [ch];
      } else {
        assert (t + [ch])[0] == t[0];
        if Token(Lower(t[0])) == 0 {
          OtherBytes(q, ch);
        } else {
          WordStep(q, t, ch);
        }
      }
    case _ =>
      OtherBytes(q, ch);
  }

  lemma OtherBytes(q: Parser, ch: Byte)
    ensures q.hs == General ==> ValueChar(q, ch).hs == General
    ensures q.hs == TeToken ==> ValueChar(q, ch).hs == (if ch == COMMA then TeTokenStart else TeToken)
    ensures q.hs == TeToken && ch == COMMA ==> ValueChar(q, ch).index == 0
  {}

  lemma FirstOfWord(q: Parser, ch: Byte)
    requires q.hs == TeTokenStart && q.index == 0 && IsValueByte(ch)
    ensures var s := ValueChar(q, ch);
      s.index == 0 && s.hs == (if ch == SPACE then TeTokenStart else if Token(Lower(ch)) == 0 then General
                               else WordState([ch]))
  {
    hide WordState;
    WordBegins(ch);
  }

  /** A comma after an element. */
  lemma ElementEnds(q: Parser, b: Place, w: seq<Byte>)
    requires ElementRead(q, b, w)
    ensures ElementRead(ValueChar(q, COMMA), PlaceAfter(b, w), [])
  {
    hide IsChunked, IsPartOfChunked;
    CommaBytes(q);
  }

  lemma CommaBytes(q: Parser)
    ensures var s := ValueChar(q, COMMA);
      match q.hs
      case TeToken => s.hs == TeTokenStart && s.index == 0
      case TeChunked => s.hs == TeToken
      case TeTokenStart => s.hs == General
      case General => s.hs == General
      case TeMatchChunked => s.hs == TeToken
      case _ => true
  {}

  lemma CodingsNext(d: seq<Byte>, ch: Byte)
    ensures Codings(d + [ch]) == if ch == COMMA then Codings(d) + [[]]
        else Front(Codings(d)) + [Last(Codings(d)) + [ch]]
  {
    assert Front(d + [ch]) == d;
  }

  ghost predicate ListRead(q: Parser, d: seq<Byte>) {
    ElementRead(q, PlaceOf(Front(Codings(d))), Last(Codings(d)))
  }

  lemma ListStep(q: Parser, d: seq<Byte>, ch: Byte)
    requires ListRead(q, d) && IsValueByte(ch)
    ensures ListRead(ValueChar(q, ch), d + [ch])
  {
    hide Codings, ElementRead, ValueChar, PlaceAfter, IsValueByte;
    var c := Codings(d);
    CodingsNext(d, ch);
    if ch == COMMA {
      ElementEnds(q, PlaceOf(Front(c)), Last(c));
      assert Front(c + [[]]) == c;
    } else {
      ElementStep(q, PlaceOf(Front(c)), Last(c), ch);
      assert Front(Front(c) + [Last(c) + [ch]]) == Front(c);
    }
  }

  lemma {:induction false} ListChars(q: Parser, d: seq<Byte>, r: seq<Byte>)
    requires ListRead(q, d) && (forall i :: 0 <= i < |r| ==> IsValueByte(r[i]))
    ensures ListRead(ValueChars(q, r), d + r)
    decreases |r|
  {
    hide ListRead, ValueChar, IsValueByte;
    if r == [] {
      assert d + [] == d;
    } else {
      ListChars(q, d, Front(r));
      assert Last(r) == r[|r| - 1];
      ListStep(ValueChars(q, Front(r)), d + Front(r), Last(r));
      assert d + Front(r) + [Last(r)] == d + r;
    }
  }

  lemma ListBegins(p: Parser, ch: Byte)
    requires p.hs == TransferEncoding && IsValueByte(ch)
    ensures var q := ValueStartArm(p, ch).next;
      if ch == COMMA then q.hs == TeToken && ListRead(q, [ch]) else ListRead(q, [ch])
  {
    hide WordState, Codings, IsValueByte, IsChunked, IsPartOfChunked, ValueStartArm;
    CodingsOne(ch);
    WordBegins(ch);
    FirstOfValue(p, ch);
    var empty: seq<Byte> := [];
    assert Front([empty, empty]) == [empty] && Front([empty]) == [] && Front([[ch]]) == [];
    assert Lower(COMMA) != 99;
  }

  lemma FirstOfValue(p: Parser, ch: Byte)
    requires p.hs == TransferEncoding
    ensures var q := ValueStartArm(p, ch).next;
      q.index == 0 && q.hs == if Lower(ch) == 99 then TeMatchChunked else TeToken
  {}

  /** A Transfer-Encoding value is taken for chunked if and only if its last coding is, in a place where the
      parser looks for one: behind an element that is neither empty nor begins the word chunked. */
  lemma ChunkedExactly(p: Parser, ch: Byte, r: seq<Byte>)
    requires p.hs == TransferEncoding && IsValueByte(ch) && (forall i :: 0 <= i < |r| ==> IsValueByte(r[i]))
    ensures ValueChars(ValueStartArm(p, ch).next, r).hs == TeChunked <==> NoticedChunked(Codings([ch] + r))
  {
    hide ValueChars, ValueChar, ValueStartArm, Codings, IsValueByte, IsChunked, IsPartOfChunked, PlaceOf;
    ListBegins(p, ch);
    ListChars(ValueStartArm(p, ch).next, [ch], r);
    var c := Codings([ch] + r);
    var t := Trimmed(Last(c));
    NoLetters();
    if t != [] && Token(Lower(t[0])) == 0 {
      ChunkedIsToken(t);
    }
  }

  lemma NoLetters()
    ensures !IsChunked([])
  {}

  lemma ChunkedIsToken(t: seq<Byte>)
    requires t != [] && Token(Lower(t[0])) == 0
    ensures !IsChunked(t)
  {
    FromStart(t, 7);
  }

  predicate NoComma(d: seq<Byte>) { forall i :: 0 <= i < |d| ==> d[i] != COMMA }

  /** A list of one element, and of two. */
  lemma {:induction false} OneCoding(w: seq<Byte>)
    requires NoComma(w)
    ensures Codings(w) == [w]
    decreases |w|
  {
    if w != [] {
      OneCoding(Front(w));
      assert Last(w) == w[|w| - 1] != COMMA && Front(w) + [Last(w)] == w;
    }
  }

  lemma {:induction false} TwoCodings(w: seq<Byte>, v: seq<Byte>)
    requires NoComma(w) && NoComma(v)
    ensures Codings(w + [COMMA] + v) == [w, v]
    decreases |v|
  {
    hide Codings;
    if v == [] {
      OneCoding(w);
      CodingsNext(w, COMMA);
      assert w + [COMMA] + v == w + [COMMA];
    } else {
      var b := v[|v| - 1];
      TwoCodings(w, Front(v));
      CodingsNext(w + [COMMA] + Front(v), b);
      assert Front(v) + [b] == v;
      assert w + [COMMA] + Front(v) + [b] == w + [COMMA] + v;
    }
  }

  /** Two codings of which the first is chunked: the second is missed, whatever it is. */
  lemma ChunkedTwiceMissed(p: Parser, w: seq<Byte>, v: seq<Byte>)
    requires p.hs == TransferEncoding && NoComma(w) && NoComma(v) && IsChunked(w)
    requires forall i :: 0 <= i < |w + [COMMA] + v| ==> IsValueByte((w + [COMMA] + v)[i])
    ensures ValueChars(ValueStartArm(p, w[0]).next, w[1..] + [COMMA] + v).hs != TeChunked
  {
    hide ValueChars, ValueStartArm, Codings, IsValueByte, IsChunked, IsPartOfChunked, NoComma;
    var d := w + [COMMA] + v;
    assert |w| >= 7 by { NotShort(w); }
    assert d[0] == w[0] && d[1..] == w[1..] + [COMMA] + v && d == [d[0]] + d[1..];
    forall i | 0 <= i < |d[1..]|
      ensures IsValueByte(d[1..][i])
    {
      assert d[1..][i] == d[i + 1];
    }
    ChunkedExactly(p, d[0], d[1..]);
    TwoCodings(w, v);
    assert Front([w, v]) == [w] && Front([w]) == [];
    assert PlaceOf([w]) == PlaceAfter(PlaceOf([]), w);
  }

  lemma NotShort(w: seq<Byte>)
    requires IsChunked(w)
    ensures |w| >= 7
  {}

  const CHUNKED: seq<Byte> := [99, 104, 117, 110, 107, 101, 100]

  /** "chunked,chunked" is not recognised. */
  lemma ChunkedChunked(p: Parser)
    requires p.hs == TransferEncoding
    ensures ValueChars(ValueStartArm(p, CHUNKED[0]).next, CHUNKED[1..] + [COMMA] + CHUNKED).hs != TeChunked
  {
    hide ValueChars, ValueStartArm;
    ChunkedTwiceMissed(p, CHUNKED, CHUNKED);
  }

  /** An element that is not empty, begins with a token character and is not chunked or a part of it. */
  predicate IsOtherCoding(w: seq<Byte>) {
    var t := Trimmed(w);
    t != [] && Token(Lower(t[0])) != 0 && !IsPartOfChunked(t) && !IsChunked(t)
  }

  /** On proper lists, where no earlier coding is chunked or begins like it, the value is taken for chunked
      if and only if its last coding is chunked. */
  lemma ChunkedOnProperLists(p: Parser, ch: Byte, r: seq<Byte>)
    requires p.hs == TransferEncoding && IsValueByte(ch) && ch != SPACE
    requires (forall i :: 0 <= i < |r| ==> IsValueByte(r[i]))
    requires var c := Codings([ch] + r); forall k :: 0 <= k < |c| - 1 ==> IsOtherCoding(c[k])
    ensures ValueChars(ValueStartArm(p, ch).next, r).hs == TeChunked <==> IsChunked(Trimmed(Last(Codings([ch] + r))))
  {
    hide ValueChars, ValueStartArm, IsValueByte, IsChunked, IsOtherCoding, Codings, Trimmed;
    var c := Codings([ch] + r);
    ChunkedExactly(p, ch, r);
    FirstElement(ch, r);
    TrimmedSelf(c[0]);
    ProperPlaces(Front(c));
  }

  lemma TrimmedSelf(w: seq<Byte>)
    ensures w == [] || w[0] != SPACE ==> Trimmed(w) == w
  {}

  lemma CodingsOne(ch: Byte)
    ensures Codings([ch]) == if ch == COMMA then [[], []] else [[ch]]
  {
    assert [] + [ch] == [ch];
    CodingsNext([], ch);
  }

  lemma SameFirst(c: seq<seq<Byte>>, ch: Byte)
    requires c != []
    ensures (Front(c) + [Last(c) + [ch]])[0] == if |c| > 1 then c[0] else c[0] + [ch]
  {}

  lemma {:induction false} FirstElement(ch: Byte, r: seq<Byte>)
    ensures var c := Codings([ch] + r); if c[0] == [] then |c| > 1 else c[0][0] == ch
    decreases |r|
  {
    hide Codings;
    if r == [] {
      CodingsOne(ch);
      assert [ch] + r == [ch];
    } else {
      var d := [ch] + Front(r);
      FirstElement(ch, Front(r));
      assert [ch] + r == d + [Last(r)];
      CodingsNext(d, Last(r));
      SameFirst(Codings(d), Last(r));
    }
  }

  lemma {:induction false} ProperPlaces(c: seq<seq<Byte>>)
    requires (forall k :: 0 <= k < |c| ==> IsOtherCoding(c[k])) && (c != [] ==> Trimmed(c[0]) == c[0])
    ensures PlaceOf(c) == if c == [] then Opening else Fresh
    decreases |c|
  {
    hide IsChunked, IsPartOfChunked, Trimmed;
    if c != [] {
      ProperPlaces(Front(c));
      assert IsOtherCoding(c[|c| - 1]);
    }
  }

  // ----- URLs -----

  predicate InsideUrl(ch: Byte) { ch != SPACE && ch != CR && ch != LF }

  lemma InsideUrlStep(p: Parser, ch: Byte)
    requires Inv(p) && IsUrlState(p.state) && InsideUrl(ch)
    ensures StepOf(p, ch) == UrlChar(p, ch)
  {
    hide UrlChar, Inv;
  }

  lemma UrlCounts(p: Parser, nread: nat)
    requires IsUrlState(p.state)
    ensures Counted(p, nread) == nread + 1
  {}

  lemma UrlByte(p: Parser, nread: nat, ch: Byte)
    requires Ready(p, nread) && IsUrlState(p.state) && InsideUrl(ch)
    ensures var o := RunByte(p, nread, ch);
      o.p.errno == Ok ==>
        (o.p.state == ParseUrlChar(p.state, ch) != Dead && o.p.line == p.line
        && o == Outcome(o.p, nread + 1, [Event.Byte(UrlData, ch)], 1, false))
  {
    hide Inv, ParseUrlChar, HeaderArm, StartArm, VersionArm, ChunkArm, Counted;
    UrlStays(p.state, ch);
    InsideUrlStep(p, ch);
    UrlCounts(p, nread);
  }

  lemma FirstUrlStep(p: Parser, ch: Byte)
    requires Inv(p) && p.state == SpacesBeforeUrl && InsideUrl(ch)
    ensures var s := ParseUrlChar(UrlParser.StartOf(p.line.verb == HTTP_CONNECT), ch);
      StepOf(p, ch) == if s == Dead then Fail(p, InvalidUrl) else Step(p.(state := s), Mark(UrlData, Done), false)
  {
    hide Inv, ParseUrlChar;
  }

  lemma FirstUrlByte(p: Parser, nread: nat, ch: Byte)
    requires Ready(p, nread) && p.state == SpacesBeforeUrl && InsideUrl(ch)
    ensures var o := RunByte(p, nread, ch);
      o.p.errno == Ok ==>
        (o.p.state == ParseUrlChar(UrlParser.StartOf(p.line.verb == HTTP_CONNECT), ch) != Dead && o.p.line == p.line
        && o == Outcome(o.p, nread + 1, [Event.Byte(UrlData, ch)], 1, false))
  {
    hide Inv, ParseUrlChar, StepOf, Arm;
    UrlStays(UrlParser.StartOf(p.line.verb == HTTP_CONNECT), ch);
    InvOk(p, nread);
    FirstUrlStep(p, ch);
  }

  /** The URL that the request parser accepts and delivers passes the first pass of the URL parser. */
  lemma {:induction false} UrlAgrees(p: Parser, nread: nat, d: seq<Byte>)
    requires Ready(p, nread) && p.state == SpacesBeforeUrl && d != [] && (forall i :: 0 <= i < |d| ==> InsideUrl(d[i]))
    requires Run(p, nread, d).p.errno == Ok
    ensures var o := Run(p, nread, d); var x := UrlParser.ScanOf(p.line.verb == HTTP_CONNECT, d);
      o.p.state == x.s != Dead && IsUrlState(o.p.state) && o.p.line == p.line && Going(o)
          && o.events == BytesOf(UrlData, d)
    decreases |d|
  {
    hide RunByte, Ready, Run, ParseUrlChar, BytesOf, InsideUrl;
    var n := |d| - 1;
    assert d[..n] == Front(d) && d[n] == Last(d) && d == Front(d) + [Last(d)];
    BytesOfAppend(UrlData, Front(d), Last(d));
    if n == 0 {
      assert d == [d[0]] && Front(d) == [];
      RunOne(p, nread, d[0]);
      FirstUrlByte(p, nread, d[0]);
      UrlStays(UrlParser.StartOf(p.line.verb == HTTP_CONNECT), d[0]);
      BytesOfNothing(UrlData);
    } else {
      RunLast(p, nread, d);
      UrlAgrees(p, nread, Front(d));
      var o := Run(p, nread, Front(d));
      UrlByte(o.p, o.nread, Last(d));
      UrlStays(o.p.state, Last(d));
    }
  }
}
