/** The version and the headers of a request, read off the input: over whole runs they alone decide whether the
    parser waits for another request or is closed. */
module HttpHeaders {
  import opened Sequences
  import opened HttpChars
  import opened HttpArms
  import opened HttpBytewise
  import opened HttpRun
  import opened HttpNames
  import opened HttpMessage
  import opened HttpConnection

  /** A header as it was read: its name, and the lines of its value from the first byte that is not blank; a folded
      line begins behind its first blank. */
  datatype Header = Header(name: seq<Byte>, lines: seq<seq<Byte>>)

  /** The digits of the version and the headers, those of the trailer included, of the last request in the input. */
  datatype Head = Head(major: nat, minor: nat, headers: seq<Header>)

  const NO_HEAD: Head := Head(0, 0, [])

  predicate EndsLine(ch: Byte) { ch == CR || ch == LF }
  predicate IsBlank(ch: Byte) { ch == SPACE || ch == TAB }

  function Named(b: Head, ch: Byte): Head { b.(headers := b.headers + [Header([ch], [])]) }

  /** The last header with another name or value. */
  function Changed(b: Head, h: Header): Head
    requires b.headers != []
  {
    b.(headers := Front(b.headers) + [h])
  }

  /** The first byte of a value, of a line, or a further one. */
  function Valued(b: Head, lines: seq<seq<Byte>>): Head
    requires b.headers != []
  {
    Changed(b, Last(b.headers).(lines := lines))
  }

  function Read(b: Head, p: Parser, ch: Byte): Head {
    if BetweenMessages(p.state) then if EndsLine(ch) then b else b.(headers := [])
    else if IsUrlState(p.state) && EndsLine(ch) then b.(major := 0, minor := 9)
    else if p.state == HttpMajor && IsNum(ch) then b.(major := ch - 48)
    else if p.state == HttpMinor && IsNum(ch) then b.(minor := ch - 48)
    else if p.state == FieldStart && !EndsLine(ch) then Named(b, ch)
    else if b.headers == [] then b
    else
      var h := Last(b.headers);
      match p.state
      case Field => if ch == COLON then b else Changed(b, h.(name := h.name + [ch]))
      case ValueDiscardWs => if IsBlank(ch) || EndsLine(ch) then b else Valued(b, [[ch]])
      case ValueDiscardLws => if IsBlank(ch) || EndsLine(ch) then b else Named(b, ch)
      case Value => if EndsLine(ch) || h.lines == [] then b else Valued(b, Longer(h.lines, ch))
      case ValueLws => if IsBlank(ch) then Valued(b, h.lines + [[]]) else if EndsLine(ch) then b else Named(b, ch)
      case _ => b
  }

  /** Is it a header whose value the parser takes for connection options? */
  predicate IsConnection(h: Header) {
    Spells(Lowered(h.name), "connection") || Spells(Lowered(h.name), "proxy-connection")
  }

  /** Some Connection header has the word. */
  ghost predicate Has(word: Word, headers: seq<Header>) {
    exists i :: 0 <= i < |headers| && IsConnection(headers[i]) && HasWord(word, headers[i].lines)
  }

  /** After this request the parser waits for another one. */
  ghost predicate Persists(b: Head) {
    if b.major > 0 && b.minor > 0 then !Has(WordClose, b.headers) else Has(WordKeepAlive, b.headers)
  }

  lemma HasOne(word: Word, headers: seq<Header>)
    requires headers != []
    ensures Has(word, headers) <==>
      Has(word, Front(headers)) || (IsConnection(Last(headers)) && HasWord(word, Last(headers).lines))
  {
    hide IsConnection, HasWord;
    if Has(word, Front(headers)) {
      var i :| 0 <= i < |headers| - 1 && IsConnection(Front(headers)[i]) && HasWord(word, Front(headers)[i].lines);
      assert headers[i] == Front(headers)[i];
    }
    if Has(word, headers) {
      var i :| 0 <= i < |headers| && IsConnection(headers[i]) && HasWord(word, headers[i].lines);
      assert i < |headers| - 1 ==> headers[i] == Front(headers)[i];
    }
  }

  // ----- What the parser knows of the head -----

  predicate BeforeHeaders(s: State) {
    s == ReqMethod || s == SpacesBeforeUrl || IsUrlState(s) || IsVersionState(s)
  }

  predicate InName(s: State) {
    s == Field || s == ValueDiscardWs || s == ValueDiscardWsAlmostDone || s == ValueDiscardLws
  }

  predicate InValue(s: State) { s == Value || s == HeaderAlmostDone || s == ValueLws }

  predicate VersionTold(p: Parser, b: Head) {
    match p.state
    case HttpDot => p.line.major == b.major
    case HttpMinor => p.line.major == b.major
    case HttpEnd => p.line.major == b.major && p.line.minor == b.minor
    case LineAlmostDone => p.line.major == b.major && p.line.minor == b.minor
    case _ => BeforeHeaders(p.state) || BetweenMessages(p.state) || (p.line.major == b.major && p.line.minor == b.minor)
  }

  /** The flag of the word is set exactly for the options read so far. */
  ghost predicate FlagTold(word: Word, p: Parser, b: Head) {
    var isSet := FlagOf(p.flags, word);
    if InName(p.state) then b.headers != [] && isSet == Has(word, Front(b.headers))
    else if InValue(p.state) then
      b.headers != []
      && (var h := Last(b.headers);
        isSet == (Has(word, Front(b.headers)) || (IsConnection(h) && Listed(word, h.lines))))
    else if BeforeHeaders(p.state) then b.headers == [] && !isSet
    else BetweenMessages(p.state) || isSet == Has(word, b.headers)
  }

  /** The header being read. */
  predicate HeaderTold(p: Parser, b: Head) {
    if InName(p.state) then
      b.headers != []
      && (var h := Last(b.headers);
        h.name != [] && h.lines == [] && NameRead(p, Lowered(h.name)))
    else if InValue(p.state) then
      b.headers != []
      && (var h := Last(b.headers);
        if IsConnection(h) then ValueTold(p, h.lines) else h.lines != [] && !InConnection(p.hs))
    else p.state != ValueStart
  }

  ghost predicate Told(p: Parser, b: Head) {
    VersionTold(p, b) && HeaderTold(p, b) && forall word :: FlagTold(word, p, b)
  }

  /** A step that ends a request leads to the state that the head says. */
  ghost predicate Ends(p: Parser, q: Parser, b: Head) {
    !BetweenMessages(p.state) && BetweenMessages(q.state) ==> q.state == if Persists(b) then StartReq else Dead
  }

  ghost predicate Follows(p: Parser, q: Parser, b: Head) { Told(q, b) && Ends(p, q, b) }

  // ----- Steps -----

  lemma FlagsSame(f: Flags, g: Flags)
    requires SameWords(f, g)
    ensures forall word :: FlagOf(f, word) == FlagOf(g, word)
  {}

  /** Before the headers, and on to them. */
  lemma EarlyFollows(p: Parser, q: Parser, b: Head, c: Head)
    requires Told(p, b) && BeforeHeaders(p.state) && (BeforeHeaders(q.state) || q.state == FieldStart)
    requires q.flags == p.flags && c.headers == b.headers && VersionTold(q, c)
    ensures Follows(p, q, c)
  {
    hide VersionTold, BeforeHeaders, Has;
    EarlyState(p.state);
    EarlyState(q.state);
    forall word: Word
      ensures FlagTold(word, q, c)
    {
      assert FlagTold(word, p, b);
      HasNone(word);
    }
  }

  lemma HasNone(word: Word)
    ensures !Has(word, [])
  {}

  lemma EarlyState(s: State)
    ensures BeforeHeaders(s) || s == FieldStart ==>
        !InName(s) && !InValue(s) && !BetweenMessages(s) && s != ValueStart
    ensures s == FieldStart ==> !BeforeHeaders(s)
  {}

  lemma StartFollows(p: Parser, ch: Byte, b: Head)
    requires Told(p, b) && (p.state == Dead || p.state == StartReq || p.state == ReqMethod)
    requires StartArm(p, ch).next.errno == Ok && p.errno == Ok
    ensures Follows(p, StartArm(p, ch).next, Read(b, p, ch))
  {
    hide StartArm, Has;
    var q := StartArm(p, ch).next;
    if p.state == ReqMethod {
      MethodGoesOn(p, ch);
      EarlyFollows(p, q, b, Read(b, p, ch));
    } else {
      FirstByteOf(p, ch);
      forall word: Word
        ensures FlagTold(word, q, Read(b, p, ch))
      {}
    }
  }

  lemma MethodGoesOn(p: Parser, ch: Byte)
    requires p.state == ReqMethod
    ensures var q := StartArm(p, ch).next; q.flags == p.flags && (q.state == ReqMethod || q.state == SpacesBeforeUrl)
  {
    hide MethodChar, NextMethod, FirstMethod;
  }

  lemma FirstByteOf(p: Parser, ch: Byte)
    requires (p.state == Dead || p.state == StartReq) && StartArm(p, ch).next.errno == Ok && p.errno == Ok
    ensures var q := StartArm(p, ch).next;
      if EndsLine(ch) then q == p else q.state == ReqMethod && q.flags == NO_FLAGS
  {
    hide FirstMethod;
  }

  lemma UrlFollows(p: Parser, ch: Byte, b: Head)
    requires Told(p, b) && (p.state == SpacesBeforeUrl || IsUrlState(p.state)) && p.errno == Ok
    requires UrlArm(p, ch).next.errno == Ok
    ensures Follows(p, UrlArm(p, ch).next, Read(b, p, ch))
  {
    hide UrlArm, Told, Follows;
    UrlUnchunked(p, ch);
    UrlGoesOn(p, ch);
    UrlVersion(p, ch);
    EarlyFollows(p, UrlArm(p, ch).next, b, Read(b, p, ch));
  }

  lemma UrlVersion(p: Parser, ch: Byte)
    requires (p.state == SpacesBeforeUrl || IsUrlState(p.state)) && p.errno == Ok && UrlArm(p, ch).next.errno == Ok
    ensures var q := UrlArm(p, ch).next;
      if IsUrlState(p.state) && EndsLine(ch) then q.line.major == 0 && q.line.minor == 9
      else IsUrlState(q.state) || q.state == SpacesBeforeUrl || q.state == HttpStart
  {
    hide ParseUrlChar;
    UrlStays(if p.line.verb == HTTP_CONNECT then ServerStart else SpacesBeforeUrl, ch);
    UrlStays(p.state, ch);
    NoLineEnd(p.state, ch);
  }

  lemma NoLineEnd(s: State, ch: Byte)
    ensures EndsLine(ch) ==> ParseUrlChar(s, ch) == Dead
  {}

  lemma VersionFollows(p: Parser, ch: Byte, b: Head)
    requires Told(p, b) && IsVersionState(p.state) && p.errno == Ok && VersionArm(p, ch).next.errno == Ok
    ensures Follows(p, VersionArm(p, ch).next, Read(b, p, ch))
  {
    hide VersionArm, Follows, HeaderTold, FlagTold;
    VersionMoves(p, ch);
    VersionUnchunked(p, ch);
    DigitsTold(p, ch, b);
    EarlyFollows(p, VersionArm(p, ch).next, b, Read(b, p, ch));
  }

  lemma DigitsTold(p: Parser, ch: Byte, b: Head)
    requires VersionTold(p, b) && IsVersionState(p.state) && p.errno == Ok && VersionArm(p, ch).next.errno == Ok
    ensures VersionTold(VersionArm(p, ch).next, Read(b, p, ch)) && Read(b, p, ch).headers == b.headers
  {}

  // ----- Names -----

  lemma ConnectionName(h: Header)
    ensures Recognised(Lowered(h.name)) == Connection <==> IsConnection(h)
    ensures InConnection(Recognised(Lowered(h.name))) ==> IsConnection(h)
  {
    hide Begins, Lowered;
    var name := Lowered(h.name);
    if name != [] {
      HttpNames.OneWord(name);
    }
  }

  lemma FrontOfNamed(b: Head, ch: Byte)
    ensures var c := Named(b, ch);
      c.headers != [] && Front(c.headers) == b.headers && Last(c.headers) == Header([ch], [])
      && c.major == b.major && c.minor == b.minor
  {
    assert Front(Named(b, ch).headers) == b.headers;
  }

  lemma FrontOfChanged(b: Head, h: Header)
    requires b.headers != []
    ensures var c := Changed(b, h);
      c.headers != [] && Front(c.headers) == Front(b.headers) && Last(c.headers) == h
      && c.major == b.major && c.minor == b.minor
  {
    assert Front(Changed(b, h).headers) == Front(b.headers);
  }

  lemma NameBegins(p: Parser, ch: Byte, b: Head)
    requires Told(p, b) && p.state == FieldStart && !EndsLine(ch) && Token(ch) != 0
    ensures Follows(p, FieldStartArm(p, ch).next, Named(b, ch))
  {
    hide Token, FieldStartArm, Recognised;
    var q := FieldStartArm(p, ch).next;
    NameState(p, ch);
    FrontOfNamed(b, ch);
    LoweredOne(ch);
    forall word: Word
      ensures FlagTold(word, q, Named(b, ch))
    {
      assert FlagTold(word, p, b);
    }
  }

  lemma NameState(p: Parser, ch: Byte)
    requires p.state == FieldStart && !EndsLine(ch) && Token(ch) != 0
    ensures var q := FieldStartArm(p, ch).next;
      q.state == Field && q.flags == p.flags && q.line == p.line && NameRead(q, [Token(ch)])
  {
    hide Token, Recognised;
    FirstLetter(Token(ch));
  }

  lemma FieldFollows(p: Parser, ch: Byte, b: Head)
    requires Told(p, b) && p.state == Field && p.errno == Ok && FieldArm(p, ch).next.errno == Ok
    ensures Follows(p, FieldArm(p, ch).next, Read(b, p, ch))
  {
    hide FieldArm, NameRead, Lowered, Token;
    var q := FieldArm(p, ch).next;
    var h := Last(b.headers);
    NameNext(p, ch, h.name);
    FrontOfChanged(b, h.(name := h.name + [ch]));
    forall word: Word
      ensures FlagTold(word, q, Read(b, p, ch))
    {
      assert FlagTold(word, p, b);
      FlagsSame(p.flags, q.flags);
    }
  }

  lemma NameNext(p: Parser, ch: Byte, name: seq<Byte>)
    requires p.state == Field && p.errno == Ok && FieldArm(p, ch).next.errno == Ok
    requires name != [] && NameRead(p, Lowered(name))
    ensures var q := FieldArm(p, ch).next;
      && SameWords(p.flags, q.flags) && q.line == p.line
      && (if ch == COLON then q.state == ValueDiscardWs && NameRead(q, Lowered(name))
          else q.state == Field && NameRead(q, Lowered(name + [ch])))
  {
    hide FieldChar, Lowered, NameRead, Token;
    assert Token(COLON) == 0 by { hide *; ColonIsNone(); }
    LoweredConcat(name, [ch]);
    LoweredOne(ch);
    LoweredLength(name);
    NameStep(p, Lowered(name), Token(ch));
    FieldCharStays(p, Token(ch));
    FieldCharWords(p, Token(ch));
    SameName(p, ValueDiscardWs, Lowered(name));
  }

  lemma SameName(p: Parser, s: State, name: seq<Byte>)
    requires NameRead(p, name)
    ensures NameRead(p.(state := s), name)
  {}

  lemma ColonIsNone()
    ensures Token(COLON) == 0
  {}

  lemma LoweredLength(name: seq<Byte>)
    ensures name != [] ==> Lowered(name) != []
  {}

  lemma FieldCharWords(p: Parser, c: Byte)
    ensures var q := FieldChar(p, c); SameWords(p.flags, q.flags) && q.line == p.line
  {
    hide MatchWord;
  }

  // ----- The end of a request -----

  /** Where all headers are read, the flags tell all words. */
  ghost predicate AllTold(p: Parser, b: Head) {
    p.line.major == b.major && p.line.minor == b.minor && forall word :: FlagOf(p.flags, word) == Has(word, b.headers)
  }

  /** Not within the request line nor within a header. */
  predicate AfterLine(s: State) {
    !BetweenMessages(s) && !BeforeHeaders(s) && !InName(s) && !InValue(s) && s != ValueStart
  }

  lemma AfterLineTold(p: Parser, b: Head)
    requires AfterLine(p.state)
    ensures Told(p, b) <==> AllTold(p, b)
  {
    hide Has;
    if Told(p, b) {
      forall word: Word
        ensures FlagOf(p.flags, word) == Has(word, b.headers)
      {
        assert FlagTold(word, p, b);
      }
    }
    if AllTold(p, b) {
      forall word: Word
        ensures FlagTold(word, p, b)
      {
        assert FlagOf(p.flags, word) == Has(word, b.headers);
      }
    }
  }

  /** A step on to another place behind the headers or between them. */
  lemma StaysTold(p: Parser, q: Parser, b: Head)
    requires Told(p, b) && AfterLine(p.state) && AfterLine(q.state)
    requires SameWords(p.flags, q.flags) && q.line.major == p.line.major && q.line.minor == p.line.minor
    ensures Follows(p, q, b)
  {
    hide Told, AfterLine, Has;
    AfterLineTold(p, b);
    AfterLineTold(q, b);
    FlagsSame(p.flags, q.flags);
    OutsideMessages(p.state);
    OutsideMessages(q.state);
    forall word: Word
      ensures FlagOf(q.flags, word) == Has(word, b.headers)
    {
      assert FlagOf(p.flags, word) == Has(word, b.headers);
    }
  }

  lemma OutsideMessages(s: State)
    ensures AfterLine(s) ==> !BetweenMessages(s)
  {}

  /** http_should_keep_alive asks for what the head says. */
  lemma RequestEnds(p: Parser, r: Parser, b: Head)
    requires AllTold(p, b) && SameWords(p.flags, r.flags) && r.line.major == b.major && r.line.minor == b.minor
    ensures BetweenMessages(NewMessage(r).state) && Follows(p, NewMessage(r), b)
  {
    hide Has;
    assert FlagOf(p.flags, WordClose) == Has(WordClose, b.headers);
    assert FlagOf(p.flags, WordKeepAlive) == Has(WordKeepAlive, b.headers);
  }

  lemma EndFollows(p: Parser, ch: Byte, b: Head)
    requires Told(p, b) && (p.state == FieldStart || p.state == HeadersAlmostDone) && p.errno == Ok
    requires HeadersEnd(p, ch).next.errno == Ok
    ensures Follows(p, HeadersEnd(p, ch).next, b)
  {
    hide HeadersEnd, Told, AllTold, Follows, NewMessage, AfterLine, Upgraded;
    ChunkOutside(p.state);
    AfterLineTold(p, b);
    AllLine(p, b);
    UpgradedSame(p);
    var q := HeadersEnd(p, ch).next;
    HeadersLead(p, ch);
    if q == NewMessage(p) {
      RequestEnds(p, p, b);
    } else if q == NewMessage(Upgraded(p)) {
      RequestEnds(p, Upgraded(p), b);
    } else {
      ChunkOutside(q.state);
      StaysTold(p, q, b);
    }
  }

  lemma UpgradedSame(p: Parser)
    ensures Upgraded(p).flags == p.flags && Upgraded(p).line == p.line
  {}

  lemma AllLine(p: Parser, b: Head)
    requires AllTold(p, b)
    ensures p.line.major == b.major && p.line.minor == b.minor
  {}

  function Upgraded(p: Parser): Parser {
    p.(upgrade := (p.flags.upgradeHeader && p.flags.connUpgrade) || p.line.verb == HTTP_CONNECT)
  }

  lemma HeadersLead(p: Parser, ch: Byte)
    requires HeadersEnd(p, ch).next.errno == Ok && p.errno == Ok
    ensures var q := HeadersEnd(p, ch).next;
      || q == NewMessage(p) || q == NewMessage(Upgraded(p))
      || ((q.state == ChunkSizeStart || q.state == BodyIdentity) && q.flags == p.flags && q.line == p.line)
  {
    hide NewMessage;
  }

  lemma FieldStartFollows(p: Parser, ch: Byte, b: Head)
    requires Told(p, b) && p.state == FieldStart && p.errno == Ok && FieldStartArm(p, ch).next.errno == Ok
    ensures Follows(p, FieldStartArm(p, ch).next, if EndsLine(ch) then b else Named(b, ch))
  {
    hide Token, HeadersEnd, Told, Follows, Named;
    if ch == LF {
      EndFollows(p, ch, b);
    } else if ch == CR {
      StaysTold(p, FieldStartArm(p, ch).next, b);
    } else {
      NameBegins(p, ch, b);
    }
  }

  lemma BodyFollows(p: Parser, ch: Byte, b: Head)
    requires Told(p, b) && IsBody(p.state) && p.contentLength > 0
    ensures Follows(p, BodyArm(p).next, Read(b, p, ch))
  {
    hide Told, Follows, NewMessage, AllTold, AfterLine, Read, IsBody, BodyArm;
    ChunkOutside(p.state);
    ReadsNothing(p, ch, b);
    AfterLineTold(p, b);
    AllLine(p, b);
    var q := BodyArm(p).next;
    BodyLeads(p);
    if q == NewMessage(p.(contentLength := 0)) {
      RequestEnds(p, p.(contentLength := 0), b);
    } else {
      ChunkOutside(q.state);
      StaysTold(p, q, b);
    }
  }

  lemma ReadsNothing(p: Parser, ch: Byte, b: Head)
    requires IsBody(p.state) || IsChunkState(p.state)
    ensures Read(b, p, ch) == b
  {}

  lemma BodyLeads(p: Parser)
    requires IsBody(p.state) && p.contentLength > 0
    ensures var q := BodyArm(p).next;
      || q == NewMessage(p.(contentLength := 0))
      || ((IsChunkState(q.state) || IsBody(q.state)) && q.flags == p.flags && q.line == p.line)
  {
    hide NewMessage;
  }

  lemma ChunkFollows(p: Parser, ch: Byte, b: Head)
    requires Told(p, b) && IsChunkState(p.state) && p.errno == Ok && ChunkArm(p, ch).next.errno == Ok
    ensures Follows(p, ChunkArm(p, ch).next, Read(b, p, ch))
  {
    hide ChunkArm, Told, Follows, AfterLine, Read;
    ReadsNothing(p, ch, b);
    ChunkLeads(p, ch);
    ChunkOutside(p.state);
    ChunkOutside(ChunkArm(p, ch).next.state);
    StaysTold(p, ChunkArm(p, ch).next, b);
  }

  lemma ChunkLeads(p: Parser, ch: Byte)
    requires IsChunkState(p.state) && p.errno == Ok && ChunkArm(p, ch).next.errno == Ok
    ensures var q := ChunkArm(p, ch).next;
      && SameWords(p.flags, q.flags) && q.line == p.line
      && (IsChunkState(q.state) || q.state == ChunkData || q.state == FieldStart)
  {
    hide Unhex;
  }

  lemma ChunkOutside(s: State)
    ensures IsChunkState(s) || IsBody(s) || s == FieldStart || s == HeadersAlmostDone ==> AfterLine(s)
  {
    hide AfterLine, IsChunkState;
    if IsChunkState(s) {
      ChunkIsLater(s);
    } else {
      OthersAreLater();
    }
  }

  lemma OthersAreLater()
    ensures AfterLine(ChunkData) && AfterLine(BodyIdentity) && AfterLine(FieldStart) && AfterLine(HeadersAlmostDone)
  {}

  lemma ChunkIsLater(s: State)
    requires IsChunkState(s)
    ensures AfterLine(s)
  {
    match s
    case ChunkSizeStart =>
    case ChunkSize =>
    case ChunkParameters =>
    case ChunkSizeAlmostDone =>
    case _ =>
  }

  // ----- Values -----

  /** On between a name and its value, or to the end of a line. */
  lemma LineKeeps(p: Parser, s: State, b: Head)
    requires Told(p, b) && ((InName(p.state) && InName(s) && s != Field) || (InValue(p.state) && InValue(s)))
    ensures Follows(p, p.(state := s), b)
  {
    hide Has, IsConnection, NameRead, OptionRead, Listed;
    var q := p.(state := s);
    if InName(s) {
      SameName(p, s, Lowered(Last(b.headers).name));
    } else if IsConnection(Last(b.headers)) {
      SameValue(p, s, Last(b.headers).lines);
    }
    forall word: Word
      ensures FlagTold(word, q, b)
    {
      assert FlagTold(word, p, b);
    }
  }

  lemma SameValue(p: Parser, s: State, lines: seq<seq<Byte>>)
    requires ValueTold(p, lines)
    ensures ValueTold(p.(state := s), lines)
  {}

  /** A header whose value has been read so far as lines. */
  ghost predicate ValueSo(q: Parser, b: Head, lines: seq<seq<Byte>>) {
    && b.headers != [] && lines != []
    && (if IsConnection(Last(b.headers)) then ValueTold(q, lines) else !InConnection(q.hs))
    && (forall word :: (FlagOf(q.flags, word)
         == (Has(word, Front(b.headers)) || (IsConnection(Last(b.headers)) && Listed(word, lines)))))
  }

  lemma SoTold(p: Parser, q: Parser, b: Head, lines: seq<seq<Byte>>)
    requires ValueSo(q, b, lines) && InValue(q.state) && q.line.major == b.major && q.line.minor == b.minor
    ensures Follows(p, q, Valued(b, lines))
  {
    hide Has, OptionRead, Listed, InConnection, Begins, Lowered;
    var h := Last(b.headers).(lines := lines);
    FrontOfChanged(b, h);
    assert IsConnection(h) == IsConnection(Last(b.headers));
    forall word: Word
      ensures FlagTold(word, q, Valued(b, lines))
    {
      assert FlagOf(q.flags, word)
        == (Has(word, Front(b.headers)) || (IsConnection(Last(b.headers)) && Listed(word, lines)));
    }
  }

  lemma ToldSo(p: Parser, b: Head)
    requires Told(p, b) && InValue(p.state)
    ensures b.headers != [] && ValueSo(p, b, Last(b.headers).lines)
    ensures p.line.major == b.major && p.line.minor == b.minor
  {
    hide Has, OptionRead, Listed, InConnection, IsConnection;
    forall word: Word
      ensures FlagOf(p.flags, word) == (Has(word, Front(b.headers))
        || (IsConnection(Last(b.headers)) && Listed(word, Last(b.headers).lines)))
    {
      assert FlagTold(word, p, b);
    }
  }

  lemma SoBegins(p: Parser, ch: Byte, b: Head)
    requires Told(p, b) && p.state == ValueDiscardWs && p.errno == Ok && ValueStartArm(p, ch).next.errno == Ok
    ensures ValueSo(ValueStartArm(p, ch).next, b, [[ch]])
  {
    hide Has, ValueTold, Listed, IsConnection, Recognised, ValueStartArm, Lowered, VersionTold, InConnection;
    var h := Last(b.headers);
    var q := ValueStartArm(p, ch).next;
    ConnectionName(h);
    RecognisedPlain(Lowered(h.name));
    if !IsConnection(h) {
      OtherStart(p, ch);
      FlagsSame(p.flags, q.flags);
    }
    forall word: Word
      ensures FlagOf(q.flags, word) == (Has(word, Front(b.headers)) || (IsConnection(h) && Listed(word, [[ch]])))
    {
      assert FlagTold(word, p, b);
      if IsConnection(h) {
        ValueBegins(p, ch, word);
      }
    }
    if IsConnection(h) {
      ValueBegins(p, ch, WordClose);
    }
  }

  lemma RecognisedPlain(name: seq<Byte>)
    ensures InConnection(Recognised(name)) ==> Recognised(name) == Connection
  {
    hide Begins;
  }

  lemma SoNext(p: Parser, ch: Byte, b: Head, lines: seq<seq<Byte>>)
    requires ValueSo(p, b, lines) && IsValueByte(ch)
    ensures ValueSo(ValueChar(p, ch), b, Longer(lines, ch))
  {
    hide Has, ValueTold, Listed, IsConnection, ValueChar, Longer, IsValueByte, IsLast, InConnection;
    var h := Last(b.headers);
    var q := ValueChar(p, ch);
    LongerLines(lines, ch);
    if !IsConnection(h) {
      OtherChar(p, ch);
    }
    forall word: Word
      ensures FlagOf(q.flags, word)
        == (Has(word, Front(b.headers)) || (IsConnection(h) && Listed(word, Longer(lines, ch))))
    {
      assert FlagOf(p.flags, word) == (Has(word, Front(b.headers)) || (IsConnection(h) && Listed(word, lines)));
      if IsConnection(h) {
        ValueNext(p, lines, ch, word);
      }
    }
    if IsConnection(h) {
      ValueNext(p, lines, ch, WordClose);
    }
  }

  /** The parser as it reads the first blank of a folded line. */
  function Folding(p: Parser): Parser { if p.hs == ContentLengthNum then p.(hs := ContentLengthWs) else p }

  lemma FoldingStates(p: Parser, lines: seq<seq<Byte>>)
    ensures ValueTold(p, lines) ==> Folding(p) == p
    ensures InConnection(p.hs) <==> InConnection(Folding(p).hs)
    ensures Folding(p).flags == p.flags && Folding(p).line == p.line
  {
    hide PlaceOfLine, StateOf, Codings, PlaceIn, Trimmed, OptionRead;
    if ValueTold(p, lines) {
      var c := Codings(Last(lines));
      OptionState(p, PlaceIn(PlaceOfLine(lines), Front(c)), Last(c), WordClose);
    }
  }

  lemma SoFolds(p: Parser, ch: Byte, b: Head, lines: seq<seq<Byte>>)
    requires ValueSo(p, b, lines) && IsBlank(ch)
    ensures ValueSo(ValueStartArm(Folding(p), ch).next, b, lines + [[]])
  {
    hide Has, ValueTold, Listed, IsConnection, ValueStartArm, InConnection, Folding;
    var h := Last(b.headers);
    var q := ValueStartArm(Folding(p), ch).next;
    FoldingStates(p, lines);
    if !IsConnection(h) {
      OtherStart(Folding(p), ch);
      FlagsSame(p.flags, q.flags);
    }
    forall word: Word
      ensures FlagOf(q.flags, word)
        == (Has(word, Front(b.headers)) || (IsConnection(h) && Listed(word, lines + [[]])))
    {
      assert FlagOf(p.flags, word) == (Has(word, Front(b.headers)) || (IsConnection(h) && Listed(word, lines)));
      if IsConnection(h) {
        ValueFolds(p, lines, ch, word);
      }
    }
    if IsConnection(h) {
      ValueFolds(p, lines, ch, WordClose);
    }
  }

  /** The end of a value: the flags tell all its words. */
  lemma SoEnds(p: Parser, b: Head)
    requires Told(p, b) && InValue(p.state)
    ensures AllTold(SetConnectionFlag(p).(state := FieldStart), b)
  {
    hide Has, ValueTold, Listed, IsConnection, InConnection, SetConnectionFlag, Told, IsLast, HasWord;
    ToldSo(p, b);
    var h := Last(b.headers);
    var q := SetConnectionFlag(p).(state := FieldStart);
    FlagKeeps(p);
    if !IsConnection(h) {
      OtherEnd(p);
      FlagsSame(p.flags, q.flags);
    }
    forall word: Word
      ensures FlagOf(q.flags, word) == Has(word, b.headers)
    {
      assert FlagOf(p.flags, word) == (Has(word, Front(b.headers)) || (IsConnection(h) && Listed(word, h.lines)));
      HasOne(word, b.headers);
      if IsConnection(h) {
        HasOrListed(word, h.lines);
        ValueEnds(p, h.lines, word);
      }
    }
  }

  /** The end of an empty value. */
  lemma NothingEnds(p: Parser, b: Head)
    requires Told(p, b) && p.state == ValueDiscardLws
    ensures AllTold(SetConnectionFlag(p).(state := FieldStart), b)
  {
    hide Has, IsConnection, InConnection, SetConnectionFlag, Recognised, Lowered;
    var h := Last(b.headers);
    var q := SetConnectionFlag(p).(state := FieldStart);
    FlagKeeps(p);
    RecognisedPlain(Lowered(h.name));
    OtherEnd(p);
    FlagsSame(p.flags, q.flags);
    forall word: Word
      ensures FlagOf(q.flags, word) == Has(word, b.headers)
    {
      assert FlagTold(word, p, b);
      HasOne(word, b.headers);
    }
  }

  lemma FlagKeeps(p: Parser)
    ensures SetConnectionFlag(p).line == p.line
  {}

  lemma LineFollows(p: Parser, ch: Byte, b: Head)
    requires Told(p, b) && (p.state == ValueLws || p.state == ValueDiscardLws) && !IsBlank(ch) && p.errno == Ok
    requires HeaderArm(p, ch).next.errno == Ok
    ensures Follows(p, HeaderArm(p, ch).next, if EndsLine(ch) then b else Named(b, ch))
  {
    hide FieldStartArm, SetConnectionFlag, Told, Follows, AllTold, Named;
    var q := SetConnectionFlag(p).(state := FieldStart);
    if p.state == ValueLws {
      SoEnds(p, b);
    } else {
      NothingEnds(p, b);
    }
    AfterLineTold(q, b);
    FlagLeads(p);
    FieldStartFollows(q, ch, b);
    FollowsFrom(p, q, FieldStartArm(q, ch).next, if EndsLine(ch) then b else Named(b, ch));
  }

  lemma FollowsFrom(p: Parser, q: Parser, r: Parser, b: Head)
    requires Follows(q, r, b) && !BetweenMessages(q.state)
    ensures Follows(p, r, b)
  {}

  lemma HeaderFollows(p: Parser, ch: Byte, b: Head)
    requires Told(p, b) && IsHeaderState(p.state) && p.errno == Ok && HeaderArm(p, ch).next.errno == Ok
    ensures Follows(p, HeaderArm(p, ch).next, Read(b, p, ch))
  {
    hide FieldStartArm, HeadersEnd, ValueStartArm, SetConnectionFlag, Told, Follows, Named, Valued, Changed;
    LinesRead(p, b);
    match p.state
    case FieldStart => FieldStartFollows(p, ch, b);
    case HeadersAlmostDone => EndFollows(p, ch, b);
    case ValueLws =>
      if IsBlank(ch) {
        FoldFollows(p, ch, b);
      } else {
        LineFollows(p, ch, b);
      }
    case ValueDiscardLws =>
      if IsBlank(ch) {
        LineKeeps(p, ValueDiscardWs, b);
      } else {
        LineFollows(p, ch, b);
      }
    case ValueDiscardWs =>
      if IsBlank(ch) {
        LineKeeps(p, p.state, b);
      } else if EndsLine(ch) {
        LineKeeps(p, HeaderArm(p, ch).next.state, b);
      } else {
        BeginFollows(p, ch, b);
      }
    case ValueStart => assert false;
    case _ => LineKeeps(p, HeaderArm(p, ch).next.state, b);
  }

  lemma LinesRead(p: Parser, b: Head)
    requires Told(p, b)
    ensures InName(p.state) || InValue(p.state) ==> b.headers != []
    ensures p.state != ValueStart
  {}

  lemma BeginFollows(p: Parser, ch: Byte, b: Head)
    requires Told(p, b) && p.state == ValueDiscardWs && p.errno == Ok && ValueStartArm(p, ch).next.errno == Ok
    requires !IsBlank(ch) && !EndsLine(ch)
    ensures Follows(p, ValueStartArm(p, ch).next, Valued(b, [[ch]]))
  {
    hide Told, Follows, ValueStartArm, Valued, ValueSo;
    SoBegins(p, ch, b);
    StartsValue(p, ch);
    LineOf(p, b);
    SoTold(p, ValueStartArm(p, ch).next, b, [[ch]]);
  }

  lemma LineOf(p: Parser, b: Head)
    requires Told(p, b) && (InName(p.state) || InValue(p.state))
    ensures p.line.major == b.major && p.line.minor == b.minor
  {}

  lemma StartsValue(p: Parser, ch: Byte)
    ensures var q := ValueStartArm(p, ch).next; q.state == Value && q.line == p.line
  {}

  lemma FoldFollows(p: Parser, ch: Byte, b: Head)
    requires Told(p, b) && p.state == ValueLws && IsBlank(ch)
    ensures HeaderArm(p, ch).next == ValueStartArm(Folding(p), ch).next
    ensures Follows(p, ValueStartArm(Folding(p), ch).next, Read(b, p, ch))
  {
    hide Told, Follows, ValueStartArm, Valued, ValueSo;
    ToldSo(p, b);
    var lines := Last(b.headers).lines;
    FoldingStates(p, lines);
    SoFolds(p, ch, b, lines);
    StartsValue(Folding(p), ch);
    SoTold(p, ValueStartArm(Folding(p), ch).next, b, lines + [[]]);
  }

  lemma ValueFollows(p: Parser, ch: Byte, b: Head)
    requires Told(p, b) && p.state == Value && p.errno == Ok && ValueArm(p, ch).next.errno == Ok
    ensures Follows(p, ValueArm(p, ch).next, Read(b, p, ch))
  {
    hide Told, Follows, ValueChar, Valued, ValueSo;
    ToldSo(p, b);
    if EndsLine(ch) {
      LineKeeps(p, ValueArm(p, ch).next.state, b);
    } else {
      var lines := Last(b.headers).lines;
      SoLines(p, b, lines);
      SoNext(p, ch, b, lines);
      CharKeeps(p, ch);
      SoTold(p, ValueChar(p, ch), b, Longer(lines, ch));
    }
  }

  lemma SoLines(p: Parser, b: Head, lines: seq<seq<Byte>>)
    requires ValueSo(p, b, lines)
    ensures lines != []
  {}

  lemma CharKeeps(p: Parser, ch: Byte)
    ensures ValueChar(p, ch).line == p.line && ValueChar(p, ch).state == p.state
  {}

  /** The head read so far tells every step of the parser that ends a request. */
  lemma HeadStep(p: Parser, ch: Byte, b: Head)
    requires Inv(p) && Told(p, b) && StepOf(p, ch).next.errno == Ok
    ensures Follows(p, StepOf(p, ch).next, Read(b, p, ch))
  {
    hide UrlArm, VersionArm, HeaderArm, ChunkArm, StartArm, FieldArm, ValueArm, BodyArm, Follows, Told, Read;
    if p.state == Value {
      ValueFollows(p, ch, b);
    } else if p.state == Field {
      FieldFollows(p, ch, b);
    } else if IsHeaderState(p.state) {
      HeaderFollows(p, ch, b);
    } else if IsUrlState(p.state) || p.state == SpacesBeforeUrl {
      UrlFollows(p, ch, b);
    } else if IsBody(p.state) {
      BodyFollows(p, ch, b);
    } else if IsChunkState(p.state) {
      ChunkFollows(p, ch, b);
    } else if IsVersionState(p.state) {
      VersionFollows(p, ch, b);
    } else {
      StartFollows(p, ch, b);
    }
  }

  // ----- Runs -----

  /** The head that a run has read. */
  function HeadOf(p: Parser, nread: nat, data: seq<Byte>): Head
    requires Ready(p, nread)
    decreases |data|
  {
    if data == [] then NO_HEAD
    else
      var o := Run(p, nread, Front(data));
      var b := HeadOf(p, nread, Front(data));
      if Going(o) then Read(b, o.p, Last(data)) else b
  }

  lemma ByteFollows(p: Parser, nread: nat, ch: Byte, b: Head)
    requires Ready(p, nread) && Told(p, b) && RunByte(p, nread, ch).p.errno == Ok
    ensures Follows(p, RunByte(p, nread, ch).p, Read(b, p, ch))
  {
    hide StepOf, Told, Follows, Read, EventsOf, Resets;
    HeadStep(p, ch, b);
  }

  /** In every run, the parser knows the head of the request that it is reading. */
  lemma {:induction false} HeadTold(p: Parser, nread: nat, data: seq<Byte>)
    requires Ready(p, nread) && BetweenMessages(p.state) && Run(p, nread, data).p.errno == Ok
    ensures Told(Run(p, nread, data).p, HeadOf(p, nread, data))
    decreases |data|
  {
    hide RunByte, Ready, Told, Read, BetweenMessages;
    if data == [] {
      Between(p, NO_HEAD);
    } else {
      var o := Run(p, nread, Front(data));
      HeadTold(p, nread, Front(data));
      if Going(o) {
        ByteFollows(o.p, o.nread, Last(data), HeadOf(p, nread, Front(data)));
      }
    }
  }

  lemma Between(p: Parser, b: Head)
    requires BetweenMessages(p.state)
    ensures Told(p, b)
  {}

  /** Whatever the input: when its last byte ends a request, the parser waits for another request if and only if the
      digits of the version are both positive and no Connection header has the word close, or one of them is zero and
      some Connection header has the word keep-alive; otherwise it is closed. */
  lemma RequestEndsAs(p: Parser, nread: nat, data: seq<Byte>)
    requires Ready(p, nread) && BetweenMessages(p.state) && data != [] && Run(p, nread, data).p.errno == Ok
    requires var o := Run(p, nread, Front(data)); Going(o) && !BetweenMessages(o.p.state)
    requires BetweenMessages(Run(p, nread, data).p.state)
    ensures Run(p, nread, data).p.state == if Persists(HeadOf(p, nread, data)) then StartReq else Dead
  {
    hide RunByte, Ready, Told, Read, BetweenMessages, Persists;
    HeadTold(p, nread, Front(data));
    var o := Run(p, nread, Front(data));
    ByteFollows(o.p, o.nread, Last(data), HeadOf(p, nread, Front(data)));
  }

  // ----- Behind the last request -----

  lemma DeadByte(p: Parser, nread: nat, ch: Byte)
    requires Ready(p, nread) && p.state == Dead && nread < 81920
    ensures var o := RunByte(p, nread, ch);
      if EndsLine(ch) then o.p == p && !o.stop && o.nread == nread + 1 else o.p.errno == ClosedConnection
  {}

  /** A parser that is closed takes line ends and nothing else, within the limit of 80 kilobytes. */
  lemma {:induction false} ClosedForGood(p: Parser, nread: nat, d: seq<Byte>)
    requires Ready(p, nread) && p.state == Dead && nread + |d| <= 81920
    ensures var o := Run(p, nread, d);
      if forall i :: 0 <= i < |d| ==> EndsLine(d[i]) then Ran(p, nread, d, p, nread + |d|, o.events)
      else o.p.errno == ClosedConnection
    decreases |d|
  {
    hide RunByte, Ready, Run, EndsLine;
    InvOk(p, nread);
    if d == [] {
      RanNothing(p, nread);
    } else {
      RunLast(p, nread, d);
      ClosedForGood(p, nread, Front(d));
      assert forall i :: 0 <= i < |d| - 1 ==> Front(d)[i] == d[i];
      if forall i :: 0 <= i < |d| - 1 ==> EndsLine(d[i]) {
        DeadByte(p, nread + |d| - 1, Last(d));
      }
    }
  }
}
