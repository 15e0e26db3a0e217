/** How the body of a request is framed: at the end of the headers, what was read of them decides alone whether the
    request is refused, ends there, or goes on with chunks or with a number of bytes. */
module HttpFraming {
  import opened Sequences
  import opened HttpChars
  import opened HttpArms
  import opened HttpBytewise
  import opened HttpRun
  import opened HttpNames
  import opened HttpMessage
  import opened HttpConnection
  import opened HttpHeaders
  import opened Digits
  import HttpDeclared

  // ----- Transfer-Encoding values -----

  function CodingPlace(b: Place, c: seq<seq<Byte>>): Place
    decreases |c|
  {
    if c == [] then b else PlaceAfter(CodingPlace(b, Front(c)), Last(c))
  }

  /** Where the last line of a value begins, as for Connection values. */
  function CodingLine(lines: seq<seq<Byte>>): Place
    requires lines != []
  {
    if |lines| == 1 then Opening
    else
      var c := Codings(Last(Front(lines)));
      if CodingPlace(CodingLine(Front(lines)), Front(c)) == Fresh && Trimmed(Last(c)) == [] then Fresh else Lost
  }

  function LastPlace(lines: seq<seq<Byte>>): Place
    requires lines != []
  {
    CodingPlace(CodingLine(lines), Front(Codings(Last(lines))))
  }

  /** The last coding of the value is chunked, and the parser notices where it begins. */
  predicate EndsChunked(lines: seq<seq<Byte>>) {
    lines != []
    && match LastPlace(lines)
       case Opening => IsChunked(Last(Codings(Last(lines))))
       case Fresh => IsChunked(Trimmed(Last(Codings(Last(lines)))))
       case _ => false
  }

  /** On a single line this is what HttpNames.ChunkedExactly says. */
  lemma OneLineChunked(line: seq<Byte>)
    ensures EndsChunked([line]) <==> NoticedChunked(Codings(line))
  {
    hide IsChunked, Codings, PlaceAfter;
    SamePlaces(Front(Codings(line)));
  }

  lemma {:induction false} SamePlaces(c: seq<seq<Byte>>)
    ensures CodingPlace(Opening, c) == PlaceOf(c)
    decreases |c|
  {
    hide PlaceAfter;
    if c != [] {
      SamePlaces(Front(c));
    }
  }

  /** The parser within a Transfer-Encoding value. */
  predicate CodingTold(q: Parser, lines: seq<seq<Byte>>) {
    lines != [] && ElementRead(q, LastPlace(lines), Last(Codings(Last(lines))))
  }

  predicate InCoding(h: HeaderState) {
    h == TransferEncoding || h == TeTokenStart || h == TeMatchChunked || h == TeToken || h == TeChunked
  }

  /** What the state behind an element says about it. */
  lemma ElementState(q: Parser, b: Place, w: seq<Byte>)
    requires ElementRead(q, b, w)
    ensures q.hs == TeTokenStart <==> b == Fresh && Trimmed(w) == []
    ensures q.hs == TeChunked <==>
      match b case Opening => IsChunked(w) case Fresh => IsChunked(Trimmed(w)) case _ => false
    ensures (InCoding(q.hs) || q.hs == General) && q.hs != TransferEncoding
  {
    hide IsChunked, IsPartOfChunked, Token, Lower;
    NoLetters();
    var t := Trimmed(w);
    if t != [] {
      NotToken(t);
    }
  }

  lemma NotToken(t: seq<Byte>)
    requires t != []
    ensures IsChunked(t) ==> Token(Lower(t[0])) != 0
  {
    if Token(Lower(t[0])) == 0 {
      ChunkedIsToken(t);
    }
  }

  lemma CodingBegins(p: Parser, ch: Byte)
    requires p.hs == TransferEncoding
    ensures var q := ValueStartArm(p, ch).next; CodingTold(q, [[ch]])
  {
    hide Codings, ElementRead, ValueStartArm, PlaceAfter;
    CodingsOne(ch);
    FirstCoding(p, ch);
    var empty: seq<Byte> := [];
    var none: seq<seq<Byte>> := [];
    assert Front([empty, empty]) == [empty] && Front([empty]) == none && Last([empty]) == empty;
    assert CodingPlace(Opening, [empty]) == PlaceAfter(CodingPlace(Opening, none), empty);
    assert Last([[ch]]) == [ch] && CodingLine([[ch]]) == Opening;
  }

  lemma FirstCoding(p: Parser, ch: Byte)
    requires p.hs == TransferEncoding
    ensures var q := ValueStartArm(p, ch).next;
      if ch == COMMA then ElementRead(q, PlaceAfter(Opening, []), []) else ElementRead(q, Opening, [ch])
  {
    hide WordState, ValueStartArm, IsChunked, IsPartOfChunked;
    WordBegins(ch);
    FirstOfValue(p, ch);
    CommaIsNone();
  }

  lemma CommaIsNone()
    ensures Lower(COMMA) != 99
  {}

  lemma CodingNext(q: Parser, lines: seq<seq<Byte>>, ch: Byte)
    requires CodingTold(q, lines) && IsValueByte(ch)
    ensures CodingTold(ValueChar(q, ch), Longer(lines, ch))
  {
    hide ValueChar, ElementRead, Codings, IsValueByte, PlaceAfter;
    LongerCoding(lines, ch);
    var line := Last(lines);
    var c := Codings(line);
    CodingsNext(line, ch);
    if ch == COMMA {
      ElementEnds(q, LastPlace(lines), Last(c));
      assert Front(c + [[]]) == c;
    } else {
      ElementStep(q, LastPlace(lines), Last(c), ch);
      assert Front(Front(c) + [Last(c) + [ch]]) == Front(c);
    }
  }

  lemma LongerCoding(lines: seq<seq<Byte>>, ch: Byte)
    requires lines != []
    ensures var l := Longer(lines, ch);
      l != [] && Last(l) == Last(lines) + [ch] && CodingLine(l) == CodingLine(lines)
  {
    assert Front(Longer(lines, ch)) == Front(lines);
  }

  lemma CodingFolds(p: Parser, lines: seq<seq<Byte>>, ch: Byte)
    requires CodingTold(p, lines) && IsBlank(ch)
    ensures CodingTold(ValueStartArm(p, ch).next, lines + [[]])
  {
    hide ValueStartArm, ElementRead, FirstValueState, IsChunked;
    ElementState(p, LastPlace(lines), Last(Codings(Last(lines))));
    CodingFoldStart(p, ch);
    CodingFoldTold(ValueStartArm(p, ch).next, lines);
  }

  lemma CodingFoldStart(p: Parser, ch: Byte)
    requires (InCoding(p.hs) || p.hs == General) && p.hs != TransferEncoding
    ensures var q := ValueStartArm(p, ch).next;
      q.index == 0 && q.hs == if p.hs == TeTokenStart then TeTokenStart else General
  {}

  lemma CodingFoldTold(q: Parser, lines: seq<seq<Byte>>)
    requires lines != [] && q.index == 0
    requires q.hs == (if LastPlace(lines) == Fresh && Trimmed(Last(Codings(Last(lines)))) == [] then TeTokenStart
                      else General)
    ensures CodingTold(q, lines + [[]])
  {
    var more := lines + [[]];
    assert Front(more) == lines && Last(more) == [];
    assert Codings([]) == [[]] && Front(Codings([])) == [];
  }

  lemma CodingEnds(p: Parser, lines: seq<seq<Byte>>)
    requires CodingTold(p, lines)
    ensures SetConnectionFlag(p).flags.chunked == (p.flags.chunked || EndsChunked(lines))
  {
    hide ElementRead, IsChunked, Codings, Trimmed;
    ElementState(p, LastPlace(lines), Last(Codings(Last(lines))));
    ChunkedFlag(p);
  }

  lemma ChunkedFlag(p: Parser)
    ensures SetConnectionFlag(p).flags.chunked == (p.flags.chunked || p.hs == TeChunked)
  {
    if p.hs != TeChunked {
      FlagUnchunked(p);
    }
  }

  lemma OtherCoding(p: Parser, ch: Byte)
    ensures !InCoding(p.hs) ==> !InCoding(ValueChar(p, ch).hs)
  {
    hide Lower, Token, LengthDigit, SetConnectionFlag;
    LengthState(p, ch);
  }

  lemma LengthState(p: Parser, ch: Byte)
    ensures !InCoding(p.hs) ==> !InCoding(LengthDigit(p, ch).hs)
  {}

  lemma OtherCodingStart(p: Parser, ch: Byte)
    ensures !InCoding(p.hs) ==> !InCoding(ValueStartArm(p, ch).next.hs)
  {
    hide Lower;
  }

  // ----- The flags about the body -----

  predicate IsNamed(h: Header, word: string) { Spells(Lowered(h.name), word) }

  /** A header of this name has a value that is not empty. */
  predicate HasField(word: string, headers: seq<Header>) {
    exists i :: 0 <= i < |headers| && IsNamed(headers[i], word) && headers[i].lines != []
  }

  /** The name of some header begins with "transfer-encoding". */
  predicate HasEncoding(headers: seq<Header>) {
    exists i :: 0 <= i < |headers| && LongEnough(Lowered(headers[i].name))
  }

  /** The value of some Transfer-Encoding header ends as chunked. */
  predicate HasChunked(headers: seq<Header>) {
    exists i :: 0 <= i < |headers| && IsNamed(headers[i], "transfer-encoding") && EndsChunked(headers[i].lines)
  }

  lemma FieldOne(word: string, headers: seq<Header>)
    requires headers != []
    ensures HasField(word, headers) <==>
      HasField(word, Front(headers)) || (IsNamed(Last(headers), word) && Last(headers).lines != [])
  {
    hide IsNamed;
    if HasField(word, Front(headers)) {
      var i :| 0 <= i < |headers| - 1 && IsNamed(Front(headers)[i], word) && Front(headers)[i].lines != [];
      assert headers[i] == Front(headers)[i];
    }
    if HasField(word, headers) {
      var i :| 0 <= i < |headers| && IsNamed(headers[i], word) && headers[i].lines != [];
      assert i < |headers| - 1 ==> headers[i] == Front(headers)[i];
    }
  }

  lemma EncodingOne(headers: seq<Header>)
    requires headers != []
    ensures HasEncoding(headers) <==> HasEncoding(Front(headers)) || LongEnough(Lowered(Last(headers).name))
  {
    hide LongEnough;
    if HasEncoding(Front(headers)) {
      var i :| 0 <= i < |headers| - 1 && LongEnough(Lowered(Front(headers)[i].name));
      assert headers[i] == Front(headers)[i];
    }
    if HasEncoding(headers) {
      var i :| 0 <= i < |headers| && LongEnough(Lowered(headers[i].name));
      assert i < |headers| - 1 ==> headers[i] == Front(headers)[i];
    }
  }

  lemma ChunkedOne(headers: seq<Header>)
    requires headers != []
    ensures HasChunked(headers) <==>
      HasChunked(Front(headers)) || (IsNamed(Last(headers), "transfer-encoding") && EndsChunked(Last(headers).lines))
  {
    hide IsNamed, EndsChunked;
    var word := "transfer-encoding";
    if HasChunked(Front(headers)) {
      var i :| 0 <= i < |headers| - 1 && IsNamed(Front(headers)[i], word) && EndsChunked(Front(headers)[i].lines);
      assert headers[i] == Front(headers)[i];
    }
    if HasChunked(headers) {
      var i :| 0 <= i < |headers| && IsNamed(headers[i], word) && EndsChunked(headers[i].lines);
      assert i < |headers| - 1 ==> headers[i] == Front(headers)[i];
    }
  }

  /** The flags that speak of names, and of values that have begun. */
  predicate FieldsTold(f: Flags, headers: seq<Header>) {
    && f.transferEncoding == HasEncoding(headers)
    && f.upgradeHeader == HasField("upgrade", headers)
    && f.hasLength == HasField("content-length", headers)
  }

  /** The flag of values that have ended, and the value being read. */
  predicate ChunkedTold(p: Parser, b: Head) {
    if InName(p.state) then b.headers != [] && p.flags.chunked == HasChunked(Front(b.headers))
    else if InValue(p.state) then
      b.headers != []
      && (var h := Last(b.headers);
        && p.flags.chunked == HasChunked(Front(b.headers)) && p.hs != Upgrade && p.hs != HeaderState.ContentLength
        && (if IsNamed(h, "transfer-encoding") then CodingTold(p, h.lines) else !InCoding(p.hs)))
    else p.flags.chunked == HasChunked(b.headers)
  }

  predicate Framed(p: Parser, b: Head) {
    BetweenMessages(p.state) || (FieldsTold(p.flags, b.headers) && ChunkedTold(p, b))
  }

  lemma NothingFramed()
    ensures FieldsTold(NO_FLAGS, []) && !HasChunked([])
  {}

  /** A step that reads no header. */
  lemma StaysFramed(p: Parser, q: Parser, b: Head, c: Head)
    requires !BetweenMessages(p.state) && Framed(p, b) && c.headers == b.headers
    requires InValue(p.state) ==> q.hs == p.hs && q.index == p.index
    requires (InName(p.state) <==> InName(q.state)) && (InValue(p.state) <==> InValue(q.state))
    requires q.flags.transferEncoding == p.flags.transferEncoding && q.flags.upgradeHeader == p.flags.upgradeHeader
    requires q.flags.hasLength == p.flags.hasLength && q.flags.chunked == p.flags.chunked
    ensures Framed(q, c)
  {
    hide HasEncoding, HasField, HasChunked, IsNamed;
  }

  // ----- Steps -----

  lemma NameStates(h: Header)
    ensures var hs := Recognised(Lowered(h.name));
      && (hs == Upgrade <==> IsNamed(h, "upgrade"))
      && (hs == HeaderState.ContentLength <==> IsNamed(h, "content-length"))
      && (hs == TransferEncoding <==> IsNamed(h, "transfer-encoding"))
      && (InCoding(hs) ==> hs == TransferEncoding)
  {
    hide Begins, Lowered;
    var name := Lowered(h.name);
    if name != [] {
      HttpNames.OneWord(name);
    }
  }

  lemma NameFramed(p: Parser, q: Parser, ch: Byte, b: Head)
    requires Framed(p, b) && AfterLine(p.state) && q.state == Field && q.flags == p.flags
    ensures Framed(q, Named(b, ch))
  {
    hide HasEncoding, HasField, HasChunked, IsNamed, LongEnough;
    var c := Named(b, ch);
    FrontOfNamed(b, ch);
    FieldOne("upgrade", c.headers);
    FieldOne("content-length", c.headers);
    EncodingOne(c.headers);
    LoweredOne(ch);
    ShortName(ch);
  }

  lemma ShortName(ch: Byte)
    ensures !LongEnough([Token(ch)])
  {}

  /** One more byte of a name. */
  lemma NameGrows(p: Parser, ch: Byte, b: Head)
    requires Told(p, b) && Framed(p, b) && p.state == Field && p.errno == Ok && ch != COLON
    requires FieldArm(p, ch).next.errno == Ok
    ensures Framed(FieldArm(p, ch).next, Read(b, p, ch))
  {
    hide HasEncoding, HasField, HasChunked, IsNamed, LongEnough, FieldChar, Token, Lowered, NameRead;
    hide FlagTold, VersionTold;
    var h := Last(b.headers);
    var g := h.(name := h.name + [ch]);
    var c := Changed(b, g);
    FrontOfChanged(b, g);
    FieldOne("upgrade", b.headers);
    FieldOne("content-length", b.headers);
    EncodingOne(b.headers);
    FieldOne("upgrade", c.headers);
    FieldOne("content-length", c.headers);
    EncodingOne(c.headers);
    LoweredLength(h.name);
    LoweredOne(ch);
    LoweredConcat(h.name, [ch]);
    FlagStep(p, Lowered(h.name), Token(ch));
    FieldCharFlags(p, Token(ch));
    FieldCharStays(p, Token(ch));
  }

  lemma FieldCharFlags(p: Parser, c: Byte)
    ensures var q := FieldChar(p, c); q.flags == p.flags.(transferEncoding := q.flags.transferEncoding)
  {
    hide MatchWord;
  }

  lemma FieldFramed(p: Parser, ch: Byte, b: Head)
    requires Told(p, b) && Framed(p, b) && p.state == Field && p.errno == Ok && FieldArm(p, ch).next.errno == Ok
    ensures Framed(FieldArm(p, ch).next, Read(b, p, ch))
  {
    hide Told, Framed, Token;
    if ch == COLON {
      ColonIsNone();
      StaysFramed(p, FieldArm(p, ch).next, b, Read(b, p, ch));
    } else {
      NameGrows(p, ch, b);
    }
  }

  /** The first byte of a value. */
  lemma ValueFramed(p: Parser, ch: Byte, b: Head)
    requires Told(p, b) && Framed(p, b) && p.state == ValueDiscardWs && p.errno == Ok
    requires ValueStartArm(p, ch).next.errno == Ok
    ensures Framed(ValueStartArm(p, ch).next, Valued(b, [[ch]]))
  {
    hide HasEncoding, HasField, HasChunked, IsNamed, LongEnough, ValueStartArm, Lowered, Recognised;
    hide FlagTold, VersionTold, CodingTold, InCoding;
    var h := Last(b.headers);
    var g := h.(lines := [[ch]]);
    var c := Changed(b, g);
    FrontOfChanged(b, g);
    SameNamed(h, g);
    FieldOne("upgrade", b.headers);
    FieldOne("content-length", b.headers);
    EncodingOne(b.headers);
    FieldOne("upgrade", c.headers);
    FieldOne("content-length", c.headers);
    EncodingOne(c.headers);
    NameStates(h);
    StartFlags(p, ch);
    if p.hs == TransferEncoding {
      CodingBegins(p, ch);
    } else {
      OtherCodingStart(p, ch);
    }
  }

  lemma SameNamed(h: Header, g: Header)
    requires h.name == g.name
    ensures forall word :: IsNamed(h, word) == IsNamed(g, word)
  {}

  lemma StartFlags(p: Parser, ch: Byte)
    requires p.errno == Ok && ValueStartArm(p, ch).next.errno == Ok
    ensures var q := ValueStartArm(p, ch).next;
      && q.state == Value && q.flags.transferEncoding == p.flags.transferEncoding && q.flags.chunked == p.flags.chunked
      && q.flags.upgradeHeader == (p.flags.upgradeHeader || p.hs == Upgrade)
      && q.flags.hasLength == (p.flags.hasLength || p.hs == HeaderState.ContentLength)
      && q.hs != Upgrade && q.hs != HeaderState.ContentLength
  {
    hide Lower;
  }

  /** More of a value that has begun. */
  lemma MoreFramed(p: Parser, q: Parser, b: Head, lines: seq<seq<Byte>>)
    requires Framed(p, b) && InValue(p.state) && InValue(q.state) && lines != []
    requires b.headers != [] && Last(b.headers).lines != []
    requires q.flags.transferEncoding == p.flags.transferEncoding && q.flags.upgradeHeader == p.flags.upgradeHeader
    requires q.flags.hasLength == p.flags.hasLength && q.flags.chunked == p.flags.chunked
    requires q.hs != Upgrade && q.hs != HeaderState.ContentLength
    requires if IsNamed(Last(b.headers), "transfer-encoding") then CodingTold(q, lines) else !InCoding(q.hs)
    ensures Framed(q, Valued(b, lines))
  {
    hide HasEncoding, HasField, HasChunked, IsNamed, LongEnough, CodingTold;
    var h := Last(b.headers);
    var g := h.(lines := lines);
    var c := Changed(b, g);
    FrontOfChanged(b, g);
    SameNamed(h, g);
    FieldOne("upgrade", b.headers);
    FieldOne("content-length", b.headers);
    EncodingOne(b.headers);
    FieldOne("upgrade", c.headers);
    FieldOne("content-length", c.headers);
    EncodingOne(c.headers);
  }

  lemma InValueSo(p: Parser, b: Head)
    requires Told(p, b) && Framed(p, b) && InValue(p.state)
    ensures b.headers != [] && Last(b.headers).lines != []
    ensures if IsNamed(Last(b.headers), "transfer-encoding") then CodingTold(p, Last(b.headers).lines)
            else !InCoding(p.hs)
    ensures p.hs != Upgrade && p.hs != HeaderState.ContentLength
  {
    hide IsNamed, IsConnection, HasEncoding, HasField, HasChunked, FlagTold, ElementRead, OptionRead;
  }

  lemma CharFramed(p: Parser, ch: Byte, b: Head)
    requires Told(p, b) && Framed(p, b) && p.state == Value && IsValueByte(ch)
    ensures Framed(ValueChar(p, ch), Valued(b, Longer(Last(b.headers).lines, ch)))
  {
    hide Told, Framed, ValueChar, IsNamed, Valued, CodingTold, Longer, IsValueByte, InCoding;
    InValueSo(p, b);
    var lines := Last(b.headers).lines;
    LongerLines(lines, ch);
    CharFlags(p, ch);
    OtherCoding(p, ch);
    if IsNamed(Last(b.headers), "transfer-encoding") {
      CodingNext(p, lines, ch);
    }
    MoreFramed(p, ValueChar(p, ch), b, Longer(lines, ch));
  }

  lemma CharFlags(p: Parser, ch: Byte)
    requires p.hs != Upgrade && p.hs != HeaderState.ContentLength
    ensures var q := ValueChar(p, ch);
      && q.state == p.state && q.flags.transferEncoding == p.flags.transferEncoding
      && q.flags.upgradeHeader == p.flags.upgradeHeader && q.flags.hasLength == p.flags.hasLength
      && q.flags.chunked == p.flags.chunked && q.hs != Upgrade && q.hs != HeaderState.ContentLength
  {
    hide Lower, Token;
  }

  lemma ValueArmFramed(p: Parser, ch: Byte, b: Head)
    requires Told(p, b) && Framed(p, b) && p.state == Value && p.errno == Ok && ValueArm(p, ch).next.errno == Ok
    ensures Framed(ValueArm(p, ch).next, Read(b, p, ch))
  {
    hide Told, Framed, ValueChar, Valued;
    InValueSo(p, b);
    if EndsLine(ch) {
      StaysFramed(p, ValueArm(p, ch).next, b, b);
    } else {
      CharFramed(p, ch, b);
    }
  }

  lemma FoldFramed(p: Parser, ch: Byte, b: Head)
    requires Told(p, b) && Framed(p, b) && p.state == ValueLws && IsBlank(ch) && p.errno == Ok
    ensures ValueStartArm(Folding(p), ch).next.errno == Ok
      && Framed(ValueStartArm(Folding(p), ch).next, Valued(b, Last(b.headers).lines + [[]]))
  {
    hide Told, Framed, ValueStartArm, IsNamed, Valued, CodingTold;
    InValueSo(p, b);
    var lines := Last(b.headers).lines;
    var r := Folding(p);
    FoldStarts(r, ch);
    StartFlags(r, ch);
    OtherCodingStart(r, ch);
    if IsNamed(Last(b.headers), "transfer-encoding") {
      CodingStates(p, lines);
      CodingFolds(p, lines, ch);
    }
    MoreFramed(p, ValueStartArm(r, ch).next, b, lines + [[]]);
  }

  lemma FoldStarts(p: Parser, ch: Byte)
    requires p.hs != HeaderState.ContentLength && p.errno == Ok
    ensures ValueStartArm(p, ch).next.errno == Ok
  {
    hide FirstValueState;
  }

  lemma CodingStates(p: Parser, lines: seq<seq<Byte>>)
    requires CodingTold(p, lines)
    ensures (InCoding(p.hs) || p.hs == General) && p.hs != TransferEncoding
  {
    hide ElementRead;
    ElementState(p, LastPlace(lines), Last(Codings(Last(lines))));
  }

  /** The end of a value, or of none. */
  lemma LineFramed(p: Parser, b: Head)
    requires Told(p, b) && Framed(p, b) && (p.state == ValueLws || p.state == ValueDiscardLws)
    ensures Framed(SetConnectionFlag(p).(state := FieldStart), b)
  {
    hide HasEncoding, HasField, HasChunked, IsNamed, FlagTold, VersionTold, SetConnectionFlag, CodingTold, NameRead;
    var h := Last(b.headers);
    FieldFlags(p);
    if p.state == ValueLws {
      ValueEndsChunked(p, b);
    } else {
      NothingChunked(p, b);
    }
  }

  lemma ValueEndsChunked(p: Parser, b: Head)
    requires Told(p, b) && Framed(p, b) && p.state == ValueLws
    ensures SetConnectionFlag(p).flags.chunked == HasChunked(b.headers)
  {
    hide HasEncoding, HasField, HasChunked, IsNamed, Told, SetConnectionFlag, CodingTold, EndsChunked;
    InValueSo(p, b);
    ChunkedFlag(p);
    ChunkedOne(b.headers);
    if IsNamed(Last(b.headers), "transfer-encoding") {
      CodingEnds(p, Last(b.headers).lines);
    }
  }

  lemma NothingChunked(p: Parser, b: Head)
    requires Told(p, b) && Framed(p, b) && p.state == ValueDiscardLws
    ensures SetConnectionFlag(p).flags.chunked == HasChunked(b.headers)
  {
    hide HasEncoding, HasField, HasChunked, IsNamed, FlagTold, VersionTold, SetConnectionFlag, Recognised, Lowered;
    ChunkedFlag(p);
    ChunkedOne(b.headers);
    NameStates(Last(b.headers));
  }

  lemma FieldFlags(p: Parser)
    ensures var q := SetConnectionFlag(p);
      q.flags.transferEncoding == p.flags.transferEncoding && q.flags.upgradeHeader == p.flags.upgradeHeader
      && q.flags.hasLength == p.flags.hasLength
  {
    match p.hs
    case ConnKeepAlive =>
    case ConnClose =>
    case ConnUpgrade =>
    case TeChunked =>
    case _ =>
  }

  // ----- The end of the headers -----

  datatype Framing = Refused(error: Errno) | Whole(other: bool) | Chunks(other: bool) | Sized(n: nat, other: bool)

  /** What follows headers: chunks, even if there are other transfer codings; as many bytes as Content-Length says; or
      nothing. other: another protocol follows the request, which is CONNECT or asks for an upgrade. */
  ghost function FramingOf(headers: seq<Header>, verb: nat, length: nat): Framing {
    var sized := HasField("content-length", headers);
    var other := HasField("upgrade", headers) && Has(WordUpgrade, headers);
    if HasEncoding(headers) && sized then Refused(UnexpectedContentLength)
    else if verb == HTTP_CONNECT then Whole(true)
    else if HasChunked(headers) then Chunks(other)
    else if sized && length > 0 then Sized(length, other)
    else if other then Whole(true)
    else if HasEncoding(headers) then Refused(InvalidTransferEncoding)
    else Whole(false)
  }

  predicate FramedAs(q: Parser, stop: bool, f: Framing) {
    match f
    case Refused(e) => q.errno == e
    case Whole(other) => q.errno == Ok && BetweenMessages(q.state) && stop == other
    case Chunks(other) => q.errno == Ok && q.state == ChunkSizeStart && q.upgrade == other && !stop
    case Sized(n, other) =>
      q.errno == Ok && q.state == BodyIdentity && q.contentLength == n && q.upgrade == other && !stop
  }

  /** What the headers have told where they end. */
  ghost predicate HeadersTold(p: Parser, headers: seq<Header>, length: nat) {
    && FieldsTold(p.flags, headers) && p.flags.chunked == HasChunked(headers)
    && p.flags.connUpgrade == Has(WordUpgrade, headers)
    && p.contentLength == (if p.flags.hasLength then length else U64_MAX)
    && (p.flags.hasLength ==> length != U64_MAX)
  }

  /** The end of the headers frames the body as they say. */
  lemma HeadersFrame(p: Parser, headers: seq<Header>, length: nat)
    requires HeadersTold(p, headers, length) && p.errno == Ok && !p.flags.trailing
    ensures var s := HeadersEnd(p, LF); FramedAs(s.next, s.stop, FramingOf(headers, p.line.verb, length))
  {
    hide HasField, HasEncoding, HasChunked, Has, ShouldKeepAlive;
  }

  /** Within the line of a header, what follows holds behind it. */
  lemma ToldLine(p: Parser, b: Head, t: HttpDeclared.Ledger)
    requires Told(p, b) && Framed(p, b) && HttpDeclared.Told(p, t) && !p.flags.trailing && p.errno == Ok
    requires p.state == ValueLws || p.state == ValueDiscardLws
    ensures HeadersTold(SetConnectionFlag(p).(state := FieldStart), b.headers, ValueOf(10, t.length))
  {
    hide HasField, HasEncoding, HasChunked, Has, ValueOf, Told, Framed, SetConnectionFlag, HttpDeclared.Told, AllTold;
    var q := SetConnectionFlag(p).(state := FieldStart);
    if p.state == ValueLws {
      SoEnds(p, b);
    } else {
      NothingEnds(p, b);
    }
    AfterLineTold(q, b);
    LineFramed(p, b);
    FlagLeads(p);
    FlagKeepsLength(p);
    HttpDeclared.Carried(p, q, t);
    HttpDeclared.StillTold(p, q, t);
    ToldHeaders(q, b, t);
  }

  lemma ToldHeaders(p: Parser, b: Head, t: HttpDeclared.Ledger)
    requires Told(p, b) && Framed(p, b) && HttpDeclared.Told(p, t) && !p.flags.trailing
    requires p.state == FieldStart || p.state == HeadersAlmostDone
    ensures HeadersTold(p, b.headers, ValueOf(10, t.length))
  {
    hide HasField, HasEncoding, HasChunked, Has, ValueOf;
    assert FlagTold(WordUpgrade, p, b);
  }

  // ----- All steps -----

  predicate SameFields(f: Flags, g: Flags) {
    f.transferEncoding == g.transferEncoding && f.upgradeHeader == g.upgradeHeader && f.hasLength == g.hasLength
    && f.chunked == g.chunked
  }

  predicate InHeader(s: State) { InName(s) || InValue(s) || s == ValueStart }

  /** A step outside headers. */
  lemma OutsideFramed(p: Parser, q: Parser, b: Head, c: Head)
    requires Framed(p, b) && !InHeader(p.state) && !InHeader(q.state) && c.headers == b.headers
    requires BetweenMessages(q.state) || (!BetweenMessages(p.state) && SameFields(q.flags, p.flags))
    ensures Framed(q, c)
  {
    hide Framed, BetweenMessages;
    if BetweenMessages(q.state) {
      BetweenFramed(q, c);
    } else {
      StaysFramed(p, q, b, c);
    }
  }

  lemma BetweenFramed(q: Parser, b: Head)
    requires BetweenMessages(q.state)
    ensures Framed(q, b)
  {}

  /** No state of a header. */
  lemma Outside(s: State)
    ensures BetweenMessages(s) ==> !InHeader(s)
    ensures BeforeHeaders(s) || AtBody(s) || s == FieldStart || s == HeadersAlmostDone ==>
        !InHeader(s) && !BetweenMessages(s)
  {
    hide BeforeHeaders, AtBody;
    EarlyOutside(s);
    BodyOutside(s);
  }

  lemma EarlyOutside(s: State)
    ensures BeforeHeaders(s) ==> !InHeader(s) && !BetweenMessages(s)
  {}

  lemma BodyOutside(s: State)
    ensures AtBody(s) ==> !InHeader(s) && !BetweenMessages(s)
  {}

  predicate AtBody(s: State) { IsChunkState(s) || IsBody(s) }

  lemma StartFramed(p: Parser, ch: Byte, b: Head)
    requires Framed(p, b) && (p.state == Dead || p.state == StartReq || p.state == ReqMethod)
    requires StartArm(p, ch).next.errno == Ok && p.errno == Ok
    ensures Framed(StartArm(p, ch).next, Read(b, p, ch))
  {
    hide StartArm, FieldsTold, HasChunked;
    var q := StartArm(p, ch).next;
    if p.state == ReqMethod {
      MethodGoesOn(p, ch);
      OutsideFramed(p, q, b, Read(b, p, ch));
    } else {
      FirstByteOf(p, ch);
      NothingFramed();
    }
  }

  lemma UrlFramed(p: Parser, ch: Byte, b: Head)
    requires Framed(p, b) && (p.state == SpacesBeforeUrl || IsUrlState(p.state)) && p.errno == Ok
    requires UrlArm(p, ch).next.errno == Ok
    ensures Framed(UrlArm(p, ch).next, Read(b, p, ch))
  {
    hide UrlArm, Framed, InHeader;
    UrlUnchunked(p, ch);
    UrlGoesOn(p, ch);
    Outside(p.state);
    Outside(UrlArm(p, ch).next.state);
    OutsideFramed(p, UrlArm(p, ch).next, b, Read(b, p, ch));
  }

  lemma VersionFramed(p: Parser, ch: Byte, b: Head)
    requires Framed(p, b) && IsVersionState(p.state) && p.errno == Ok && VersionArm(p, ch).next.errno == Ok
    requires Told(p, b)
    ensures Framed(VersionArm(p, ch).next, Read(b, p, ch))
  {
    hide VersionArm, Framed, InHeader, FlagTold, HeaderTold;
    VersionMoves(p, ch);
    VersionUnchunked(p, ch);
    DigitsTold(p, ch, b);
    Outside(p.state);
    Outside(VersionArm(p, ch).next.state);
    OutsideFramed(p, VersionArm(p, ch).next, b, Read(b, p, ch));
  }

  lemma ChunkFramed(p: Parser, ch: Byte, b: Head)
    requires Framed(p, b) && IsChunkState(p.state) && p.errno == Ok && ChunkArm(p, ch).next.errno == Ok
    ensures Framed(ChunkArm(p, ch).next, Read(b, p, ch))
  {
    hide ChunkArm, Framed, InHeader, Read;
    ReadsNothing(p, ch, b);
    ChunkLeads(p, ch);
    ChunkFields(p, ch);
    Outside(p.state);
    Outside(ChunkArm(p, ch).next.state);
    OutsideFramed(p, ChunkArm(p, ch).next, b, b);
  }

  lemma ChunkFields(p: Parser, ch: Byte)
    requires IsChunkState(p.state)
    ensures SameFields(ChunkArm(p, ch).next.flags, p.flags)
  {
    hide Unhex;
    match p.state
    case ChunkSizeStart =>
    case ChunkSize =>
    case ChunkParameters =>
    case ChunkSizeAlmostDone =>
    case _ =>
  }

  lemma BodyFramed(p: Parser, ch: Byte, b: Head)
    requires Framed(p, b) && IsBody(p.state) && p.contentLength > 0
    ensures Framed(BodyArm(p).next, Read(b, p, ch))
  {
    hide BodyArm, Framed, InHeader, Read, NewMessage;
    ReadsNothing(p, ch, b);
    BodyLeads(p);
    NewBetween(p.(contentLength := 0));
    Outside(p.state);
    Outside(BodyArm(p).next.state);
    OutsideFramed(p, BodyArm(p).next, b, b);
  }

  lemma NewBetween(p: Parser)
    ensures BetweenMessages(NewMessage(p).state)
  {}

  lemma EndFramed(p: Parser, ch: Byte, b: Head)
    requires Framed(p, b) && (p.state == FieldStart || p.state == HeadersAlmostDone) && p.errno == Ok
    requires HeadersEnd(p, ch).next.errno == Ok
    ensures Framed(HeadersEnd(p, ch).next, b)
  {
    hide HeadersEnd, Framed, InHeader, NewMessage;
    HeadersLead(p, ch);
    NewBetween(p);
    NewBetween(Upgraded(p));
    Outside(p.state);
    Outside(HeadersEnd(p, ch).next.state);
    OutsideFramed(p, HeadersEnd(p, ch).next, b, b);
  }

  lemma FieldStartFramed(p: Parser, ch: Byte, b: Head)
    requires Framed(p, b) && p.state == FieldStart && p.errno == Ok && FieldStartArm(p, ch).next.errno == Ok
    ensures Framed(FieldStartArm(p, ch).next, if EndsLine(ch) then b else Named(b, ch))
  {
    hide HeadersEnd, Framed, Token, Named;
    if ch == LF {
      EndFramed(p, ch, b);
    } else if ch == CR {
      OutsideFramed(p, FieldStartArm(p, ch).next, b, b);
    } else {
      NameFramed(p, FieldStartArm(p, ch).next, ch, b);
    }
  }

  lemma LineEndFramed(p: Parser, ch: Byte, b: Head)
    requires Told(p, b) && Framed(p, b) && (p.state == ValueLws || p.state == ValueDiscardLws) && !IsBlank(ch)
    requires p.errno == Ok && HeaderArm(p, ch).next.errno == Ok
    ensures Framed(HeaderArm(p, ch).next, if EndsLine(ch) then b else Named(b, ch))
  {
    hide FieldStartArm, SetConnectionFlag, Told, Framed, Named;
    FlagLeads(p);
    LineFramed(p, b);
    FieldStartFramed(SetConnectionFlag(p).(state := FieldStart), ch, b);
  }

  lemma HeaderFramed(p: Parser, ch: Byte, b: Head)
    requires Told(p, b) && Framed(p, b) && IsHeaderState(p.state) && p.errno == Ok && HeaderArm(p, ch).next.errno == Ok
    ensures Framed(HeaderArm(p, ch).next, Read(b, p, ch))
  {
    hide FieldStartArm, HeadersEnd, ValueStartArm, SetConnectionFlag, Told, Framed, Named, Valued, Changed;
    LinesRead(p, b);
    match p.state
    case FieldStart => FieldStartFramed(p, ch, b);
    case HeadersAlmostDone => EndFramed(p, ch, b);
    case ValueLws =>
      if IsBlank(ch) {
        FoldFollows(p, ch, b);
        FoldFramed(p, ch, b);
      } else {
        LineEndFramed(p, ch, b);
      }
    case ValueDiscardLws =>
      if IsBlank(ch) {
        StaysFramed(p, HeaderArm(p, ch).next, b, b);
      } else {
        LineEndFramed(p, ch, b);
      }
    case ValueDiscardWs =>
      if IsBlank(ch) || EndsLine(ch) {
        StaysFramed(p, HeaderArm(p, ch).next, b, b);
      } else {
        ValueFramed(p, ch, b);
      }
    case ValueStart => assert false;
    case _ => StaysFramed(p, HeaderArm(p, ch).next, b, b);
  }

  lemma FramedStep(p: Parser, ch: Byte, b: Head)
    requires Inv(p) && Told(p, b) && Framed(p, b) && StepOf(p, ch).next.errno == Ok
    ensures Framed(StepOf(p, ch).next, Read(b, p, ch))
  {
    hide UrlArm, VersionArm, HeaderArm, ChunkArm, StartArm, FieldArm, ValueArm, BodyArm, Framed, Told, Read;
    if p.state == Value {
      ValueArmFramed(p, ch, b);
    } else if p.state == Field {
      FieldFramed(p, ch, b);
    } else if IsHeaderState(p.state) {
      HeaderFramed(p, ch, b);
    } else if IsUrlState(p.state) || p.state == SpacesBeforeUrl {
      UrlFramed(p, ch, b);
    } else if IsBody(p.state) {
      BodyFramed(p, ch, b);
    } else if IsChunkState(p.state) {
      ChunkFramed(p, ch, b);
    } else if IsVersionState(p.state) {
      VersionFramed(p, ch, b);
    } else {
      StartFramed(p, ch, b);
    }
  }

  // ----- Runs -----

  lemma ByteFramed(p: Parser, nread: nat, ch: Byte, b: Head)
    requires Ready(p, nread) && Told(p, b) && Framed(p, b) && RunByte(p, nread, ch).p.errno == Ok
    ensures Framed(RunByte(p, nread, ch).p, Read(b, p, ch))
  {
    hide StepOf, Told, Framed, Read, EventsOf, Resets;
    FramedStep(p, ch, b);
  }

  /** In every run, the flags about the body are what the headers read so far say. */
  lemma {:induction false} RunFramed(p: Parser, nread: nat, data: seq<Byte>)
    requires Ready(p, nread) && BetweenMessages(p.state) && Run(p, nread, data).p.errno == Ok
    ensures Framed(Run(p, nread, data).p, HeadOf(p, nread, data))
    decreases |data|
  {
    hide RunByte, Ready, Told, Framed, Read, BetweenMessages;
    if data == [] {
      BetweenFramed(p, NO_HEAD);
    } else {
      var o := Run(p, nread, Front(data));
      RunFramed(p, nread, Front(data));
      HeadTold(p, nread, Front(data));
      if Going(o) {
        ByteFramed(o.p, o.nread, Last(data), HeadOf(p, nread, Front(data)));
      }
    }
  }

  /** The places where a line feed ends the headers. */
  predicate AtEnd(s: State) { s == FieldStart || s == HeadersAlmostDone || s == ValueLws || s == ValueDiscardLws }

  /** The parser behind the line of the last header. */
  function Closed(p: Parser): Parser {
    if p.state == ValueLws || p.state == ValueDiscardLws then SetConnectionFlag(p).(state := FieldStart) else p
  }

  lemma ToldClosed(p: Parser, b: Head, t: HttpDeclared.Ledger)
    requires Told(p, b) && Framed(p, b) && HttpDeclared.Told(p, t) && !p.flags.trailing && p.errno == Ok
    requires AtEnd(p.state)
    ensures HeadersTold(Closed(p), b.headers, ValueOf(10, t.length))
    ensures Closed(p).errno == Ok && !Closed(p).flags.trailing && Closed(p).line.verb == p.line.verb
  {
    hide Told, Framed, HttpDeclared.Told, HeadersTold, SetConnectionFlag, ValueOf;
    if p.state == ValueLws || p.state == ValueDiscardLws {
      ToldLine(p, b, t);
      FlagLeads(p);
    } else {
      ToldHeaders(p, b, t);
    }
  }

  /** The last header is a Content-Length without a value. */
  predicate EmptyLength(headers: seq<Header>) {
    headers != [] && IsNamed(Last(headers), "content-length") && Last(headers).lines == []
  }

  lemma EmptyState(p: Parser, b: Head)
    requires Told(p, b) && p.state == ValueDiscardLws
    ensures p.hs == HeaderState.ContentLength <==> EmptyLength(b.headers)
  {
    hide Recognised, IsNamed, FlagTold, VersionTold, Lowered;
    NameStates(Last(b.headers));
  }

  lemma EndStep(p: Parser)
    requires AtEnd(p.state) && !(p.state == ValueDiscardLws && p.hs == HeaderState.ContentLength)
    ensures StepOf(p, LF).next == HeadersEnd(Closed(p), LF).next && StepOf(p, LF).stop == HeadersEnd(Closed(p), LF).stop
  {
    hide HeadersEnd, SetConnectionFlag;
  }

  lemma EmptyStep(p: Parser)
    requires p.state == ValueDiscardLws && p.hs == HeaderState.ContentLength
    ensures StepOf(p, LF).next.errno == InvalidContentLength
  {}

  lemma StepInRun(p: Parser, nread: nat, ch: Byte)
    requires Ready(p, nread) && nread < MAX_HEADER_SIZE && !IsBody(p.state)
    ensures var o, s := RunByte(p, nread, ch), StepOf(p, ch); o.p == s.next && (o.p.errno == Ok ==> o.stop == s.stop)
  {
    hide StepOf, Inv, Resets, EventsOf;
  }

  lemma AtEndNotBody(s: State)
    ensures AtEnd(s) ==> !IsBody(s)
  {}

  /** Whatever the input: the line feed that ends the headers leads exactly where they say. */
  lemma HeadersFramed(p: Parser, nread: nat, data: seq<Byte>)
    requires Ready(p, nread) && BetweenMessages(p.state) && Going(Run(p, nread, data))
    requires var o := Run(p, nread, data); AtEnd(o.p.state) && !o.p.flags.trailing && o.nread < MAX_HEADER_SIZE
    ensures var o, headers := Run(p, nread, data), HeadOf(p, nread, data).headers;
      var r := RunByte(o.p, o.nread, LF);
      if o.p.state == ValueDiscardLws && EmptyLength(headers) then r.p.errno == InvalidContentLength
      else FramedAs(r.p, r.stop, FramingOf(headers, o.p.line.verb,
                                           ValueOf(10, HttpDeclared.LedgerOf(p, nread, data).length)))
  {
    hide Run, RunByte, Told, Framed, BetweenMessages, HttpDeclared.Told, HeadersEnd, FramingOf, ValueOf, HeadersTold;
    hide StepOf, EmptyLength, AtEnd, Inv, Closed, FramedAs;
    HeadTold(p, nread, data);
    RunFramed(p, nread, data);
    HttpDeclared.ToldBetween(p, HttpDeclared.NO_DIGITS);
    HttpDeclared.DeclaredByDigits(p, nread, data);
    var o := Run(p, nread, data);
    var t := HttpDeclared.LedgerOf(p, nread, data);
    var b := HeadOf(p, nread, data);
    InvOk(o.p, o.nread);
    AtEndNotBody(o.p.state);
    StepInRun(o.p, o.nread, LF);
    if o.p.state == ValueDiscardLws {
      EmptyState(o.p, b);
    }
    if o.p.state == ValueDiscardLws && EmptyLength(b.headers) {
      EmptyStep(o.p);
    } else {
      ToldClosed(o.p, b, t);
      HeadersFrame(Closed(o.p), b.headers, ValueOf(10, t.length));
      EndStep(o.p);
      FramedOk(HeadersEnd(Closed(o.p), LF).next, FramingOf(b.headers, o.p.line.verb, ValueOf(10, t.length)));
    }
  }

  lemma FramedOk(q: Parser, f: Framing)
    ensures q.errno != Ok ==> FramedAs(q, false, f) == FramedAs(q, true, f)
  {}

  // ----- From the end of the headers to the end of the request -----

  /** A body or the trailer behind it. */
  predicate InBody(p: Parser) { AtBody(p.state) || (HeaderLine(p.state) && p.flags.trailing) }

  /** On in the body, or to the end of the request, where another protocol follows if the headers said so. */
  predicate Upholds(p: Parser, q: Parser, stop: bool) {
    if BetweenMessages(q.state) then stop == p.upgrade else InBody(q) && q.upgrade == p.upgrade && !stop
  }

  lemma ChunkUpholds(p: Parser, ch: Byte)
    requires IsChunkState(p.state) && ChunkArm(p, ch).next.errno == Ok && p.errno == Ok
    ensures Upholds(p, ChunkArm(p, ch).next, ChunkArm(p, ch).stop)
  {
    hide ChunkArm, IsChunkState, HeaderLine;
    ChunkLeads(p, ch);
    ChunkGoesOn(p, ch);
    Outside(ChunkArm(p, ch).next.state);
  }

  lemma ChunkGoesOn(p: Parser, ch: Byte)
    requires IsChunkState(p.state) && p.errno == Ok && ChunkArm(p, ch).next.errno == Ok
    ensures var s := ChunkArm(p, ch);
      s.next.upgrade == p.upgrade && !s.stop
      && (s.next.state == FieldStart ==> HeaderLine(s.next.state) && s.next.flags.trailing)
  {
    hide Unhex;
  }

  lemma BodyUpholds(p: Parser)
    requires IsBody(p.state) && p.contentLength > 0
    ensures Upholds(p, BodyArm(p).next, BodyArm(p).stop)
  {
    hide NewMessage;
    NewBetween(p.(contentLength := 0));
  }

  lemma TrailerEnds(p: Parser, ch: Byte)
    requires p.flags.trailing && HeadersEnd(p, ch).next.errno == Ok && p.errno == Ok
    ensures Upholds(p, HeadersEnd(p, ch).next, HeadersEnd(p, ch).stop)
  {}

  lemma TrailerStarts(p: Parser, ch: Byte)
    requires p.flags.trailing && p.state == FieldStart && FieldStartArm(p, ch).next.errno == Ok && p.errno == Ok
    ensures Upholds(p, FieldStartArm(p, ch).next, FieldStartArm(p, ch).stop)
  {
    hide HeadersEnd, Token;
    if ch == LF {
      TrailerEnds(p, ch);
    }
  }

  lemma ValueUpholds(p: Parser, ch: Byte)
    requires p.flags.trailing && ValueStartArm(p, ch).next.errno == Ok && p.errno == Ok
    ensures Upholds(p, ValueStartArm(p, ch).next, ValueStartArm(p, ch).stop)
  {
    hide FirstValueState;
  }

  predicate SameTrailer(p: Parser, q: Parser) {
    q.upgrade == p.upgrade && q.flags.trailing == p.flags.trailing && q.state == p.state
  }

  lemma CharUpholds(p: Parser, ch: Byte)
    ensures SameTrailer(p, ValueChar(p, ch))
  {
    hide Lower, MatchWord, TokenStart, SetConnectionFlag;
    LineUpholds(p);
  }

  lemma NameUpholds(p: Parser, c: Byte)
    ensures SameTrailer(p, FieldChar(p, c))
  {
    hide MatchWord;
  }

  lemma InLineUpholds(p: Parser, ch: Byte)
    requires p.flags.trailing && p.errno == Ok
    ensures var s := ValueArm(p, ch); p.state == Value && s.next.errno == Ok ==> Upholds(p, s.next, s.stop)
    ensures var s := FieldArm(p, ch); p.state == Field && s.next.errno == Ok ==> Upholds(p, s.next, s.stop)
  {
    hide ValueChar, FieldChar, Token, IsHeaderChar;
    CharUpholds(p, ch);
    NameUpholds(p, Token(ch));
  }

  lemma LineUpholds(p: Parser)
    ensures SameTrailer(p, SetConnectionFlag(p))
  {
    match p.hs
    case ConnKeepAlive =>
    case ConnClose =>
    case ConnUpgrade =>
    case TeChunked =>
    case _ =>
  }

  lemma HeaderUpholds(p: Parser, ch: Byte)
    requires p.flags.trailing && IsHeaderState(p.state) && p.errno == Ok && HeaderArm(p, ch).next.errno == Ok
    ensures Upholds(p, HeaderArm(p, ch).next, HeaderArm(p, ch).stop)
  {
    hide FieldStartArm, HeadersEnd, ValueStartArm, SetConnectionFlag;
    match p.state
    case FieldStart => TrailerStarts(p, ch);
    case HeadersAlmostDone => TrailerEnds(p, ch);
    case ValueStart => ValueUpholds(p, ch);
    case ValueDiscardWs =>
      if !IsBlank(ch) && !EndsLine(ch) {
        ValueUpholds(p, ch);
      }
    case ValueLws =>
      LineUpholds(p);
      FlagLeads(p);
      if IsBlank(ch) {
        ValueUpholds(Folding(p), ch);
      } else {
        TrailerStarts(SetConnectionFlag(p).(state := FieldStart), ch);
      }
    case ValueDiscardLws =>
      LineUpholds(p);
      FlagLeads(p);
      if !IsBlank(ch) && p.hs != HeaderState.ContentLength {
        TrailerStarts(SetConnectionFlag(p).(state := FieldStart), ch);
      }
    case _ =>
  }

  lemma StepUpholds(p: Parser, ch: Byte)
    requires Inv(p) && InBody(p) && StepOf(p, ch).next.errno == Ok
    ensures Upholds(p, StepOf(p, ch).next, StepOf(p, ch).stop)
  {
    hide HeaderArm, ValueArm, FieldArm, ChunkArm, BodyArm, Upholds;
    if IsBody(p.state) {
      BodyUpholds(p);
    } else if IsChunkState(p.state) {
      ChunkUpholds(p, ch);
    } else if IsHeaderState(p.state) {
      HeaderUpholds(p, ch);
    } else {
      InLineUpholds(p, ch);
    }
  }

  lemma ByteUpholds(p: Parser, nread: nat, ch: Byte)
    requires Ready(p, nread) && InBody(p) && RunByte(p, nread, ch).p.errno == Ok
    ensures var o := RunByte(p, nread, ch); Upholds(p, o.p, o.stop)
  {
    hide StepOf, InBody, Upholds, EventsOf, Resets;
    StepUpholds(p, ch);
  }

  lemma AllButLast(p: Parser, nread: nat, d: seq<Byte>)
    requires Ready(p, nread) && UnderWay(p, nread, d) && d != []
    ensures UnderWay(p, nread, Front(d)) && !BetweenMessages(Run(p, nread, Front(d)).p.state)
  {
    hide Run, Ready;
    forall k | 0 <= k < |d| - 1
      ensures !BetweenMessages(Run(p, nread, Front(d)[..k]).p.state)
    {
      assert Front(d)[..k] == d[..k];
    }
    assert Front(d) == d[..|d| - 1];
  }

  /** From a body to the end of its request, whatever the trailer says: the parser stops there if and only if the
      headers have announced another protocol. */
  lemma {:induction false} BodyStops(p: Parser, nread: nat, d: seq<Byte>)
    requires Ready(p, nread) && InBody(p) && UnderWay(p, nread, d) && d != [] && Run(p, nread, d).p.errno == Ok
    ensures var o := Run(p, nread, d); Upholds(p, o.p, o.stop)
    decreases |d|
  {
    hide RunByte, Ready, InBody, UnderWay, BetweenMessages, Run;
    AllButLast(p, nread, d);
    RunLast(p, nread, d);
    var o := Run(p, nread, Front(d));
    if Front(d) == [] {
      RanNothing(p, nread);
    } else {
      BodyStops(p, nread, Front(d));
    }
    if Going(o) {
      ByteUpholds(o.p, o.nread, Last(d));
    }
  }
}
