/** Where the parser is strict about its input: line ends, the target of a request and chunks. */
module HttpLines {
  import opened Sequences
  import opened HttpChars
  import opened HttpArms
  import opened HttpBytewise
  import opened HttpRun
  import opened HttpNames
  import opened HttpMessage
  import opened HttpHeaders
  import opened HttpFraming
  import opened Digits
  import opened HttpBody
  import opened HttpChunked
  import HttpDeclared
  import UrlParser
  import UrlExact

  // ----- Line ends -----

  /** The states behind a carriage return. */
  predicate WantsLf(s: State) {
    s == LineAlmostDone || s == HeaderAlmostDone || s == ValueDiscardWsAlmostDone || s == HeadersAlmostDone
    || s == ChunkSizeAlmostDone || s == ChunkDataDone
  }

  lemma NeedsLf(p: Parser, ch: Byte)
    requires Inv(p) && WantsLf(p.state) && StepOf(p, ch).next.errno == Ok
    ensures ch == LF
  {
    hide HeadersEnd;
    EndNeedsLf(p, ch);
  }

  lemma EndNeedsLf(p: Parser, ch: Byte)
    ensures p.errno == Ok && HeadersEnd(p, ch).next.errno == Ok ==> ch == LF
  {}

  lemma CrInMethod(p: Parser)
    requires p.state == ReqMethod && p.errno == Ok
    ensures StartArm(p, CR).next.errno != Ok
  {
    NoCr(p.line.verb, p.index);
    NoCrCorrection(p.line.verb, p.index);
  }

  lemma NoCr(verb: nat, index: nat)
    ensures MethodChar(verb, index) != 13
  {
    NameEnds(verb, index);
    if index < |MethodName(verb)| {
      NameLetters(verb);
    }
  }

  lemma NoCrCorrection(verb: nat, index: nat)
    ensures NextMethod(verb, index, CR) < 0
  {}

  lemma CrInLine(p: Parser)
    requires p.errno == Ok
    ensures p.state == Field ==> FieldArm(p, CR).next.errno != Ok
    ensures p.state == Value ==> ValueArm(p, CR).next.state == HeaderAlmostDone
  {}

  lemma CrInVersion(p: Parser)
    requires IsVersionState(p.state) && p.errno == Ok && VersionArm(p, CR).next.errno == Ok
    ensures VersionArm(p, CR).next.state == LineAlmostDone
  {}

  lemma CrInChunk(p: Parser)
    requires IsChunkState(p.state) && p.errno == Ok && ChunkArm(p, CR).next.errno == Ok
    ensures WantsLf(ChunkArm(p, CR).next.state)
  {
    assert Unhex(CR) < 0;
    hide Unhex;
  }

  lemma CrInUrl(p: Parser)
    requires p.errno == Ok && (p.state == SpacesBeforeUrl || IsUrlState(p.state)) && UrlArm(p, CR).next.errno == Ok
    ensures UrlArm(p, CR).next.state == LineAlmostDone
  {
    NoLineEnd(p.state, CR);
    NoLineEnd(SpacesBeforeUrl, CR);
    NoLineEnd(ServerStart, CR);
    hide ParseUrlChar;
  }

  lemma CrInHeaders(p: Parser)
    requires p.errno == Ok && IsHeaderState(p.state) && p.state != ValueStart && HeaderArm(p, CR).next.errno == Ok
    ensures WantsLf(HeaderArm(p, CR).next.state)
  {
    hide HeadersEnd, ValueStartArm, SetConnectionFlag;
    EndNeedsLf(p, CR);
  }

  /** Outside bodies and between requests, a carriage return is refused or leads to a line feed. */
  lemma AfterCr(p: Parser)
    requires Inv(p) && !IsBody(p.state) && !BetweenMessages(p.state) && p.state != ValueStart
    requires StepOf(p, CR).next.errno == Ok
    ensures WantsLf(StepOf(p, CR).next.state)
  {
    hide UrlArm, VersionArm, HeaderArm, ChunkArm, StartArm, FieldArm, ValueArm, WantsLf;
    LineWants();
    CrInLine(p);
    if p.state == ReqMethod {
      CrInMethod(p);
    } else if IsHeaderState(p.state) {
      CrInHeaders(p);
    } else if p.state == SpacesBeforeUrl || IsUrlState(p.state) {
      CrInUrl(p);
    } else if IsVersionState(p.state) {
      CrInVersion(p);
    } else if IsChunkState(p.state) {
      CrInChunk(p);
    }
  }

  lemma LineWants()
    ensures WantsLf(HeaderAlmostDone) && WantsLf(LineAlmostDone)
  {}

  /** In every run: wherever a carriage return is read outside a body and within a request, a line feed follows. */
  lemma CrThenLf(p: Parser, nread: nat, d: seq<Byte>, ch: Byte)
    requires Ready(p, nread) && Going(Run(p, nread, d + [CR])) && Run(p, nread, d + [CR, ch]).p.errno == Ok
    requires var q := Run(p, nread, d).p; !IsBody(q.state) && !BetweenMessages(q.state) && q.state != ValueStart
    ensures ch == LF
  {
    hide Run, Ready, StepOf, RunByte;
    var o := Run(p, nread, d);
    RunSplit(p, nread, d, [CR]);
    var q := Run(p, nread, d + [CR]);
    assert d + [CR, ch] == (d + [CR]) + [ch];
    RunSplit(p, nread, d + [CR], [ch]);
    RunOne(o.p, o.nread, CR);
    RunOne(q.p, q.nread, ch);
    ByteStep(o.p, o.nread, CR);
    ByteStep(q.p, q.nread, ch);
    AfterCr(o.p);
    NeedsLf(q.p, ch);
  }

  lemma ByteStep(p: Parser, nread: nat, ch: Byte)
    requires Ready(p, nread)
    ensures Inv(p)
    ensures var o, q := RunByte(p, nread, ch), StepOf(p, ch).next; o.p.errno == Ok ==> o.p == q && q.errno == Ok
  {
    hide StepOf, EventsOf, Resets;
  }

  // ----- The target of a request -----

  lemma TargetByte(p: Parser, nread: nat, ch: Byte)
    requires Ready(p, nread) && IsUrlState(p.state) && InsideUrl(ch) && nread < MAX_HEADER_SIZE
    ensures RunByte(p, nread, ch).p.errno == Ok <==> ParseUrlChar(p.state, ch) != Dead
  {
    hide Inv, ParseUrlChar, StepOf;
    InvOk(p, nread);
    InsideUrlStep(p, ch);
  }

  lemma FirstTargetByte(p: Parser, nread: nat, ch: Byte)
    requires Ready(p, nread) && p.state == SpacesBeforeUrl && InsideUrl(ch) && nread < MAX_HEADER_SIZE
    ensures RunByte(p, nread, ch).p.errno == Ok <==>
      ParseUrlChar(UrlParser.StartOf(p.line.verb == HTTP_CONNECT), ch) != Dead
  {
    hide Inv, ParseUrlChar, StepOf;
    InvOk(p, nread);
    FirstUrlStep(p, ch);
  }

  /** The bytes that follow a method, up to a space or line end, are accepted if and only if they are a URL. */
  lemma {:induction false} TargetExactly(p: Parser, nread: nat, d: seq<Byte>)
    requires Ready(p, nread) && p.state == SpacesBeforeUrl && d != [] && (forall i :: 0 <= i < |d| ==> InsideUrl(d[i]))
    requires nread + |d| <= MAX_HEADER_SIZE
    ensures Run(p, nread, d).p.errno == Ok <==> UrlExact.IsUrl(p.line.verb == HTTP_CONNECT, d)
    ensures var o := Run(p, nread, d); o.p.errno == Ok ==>
      o.p.state == UrlParser.ScanOf(p.line.verb == HTTP_CONNECT, d).s && o.nread == nread + |d|
    decreases |d|
  {
    hide RunByte, Ready, Run, ParseUrlChar, InsideUrl, UrlExact.IsUrl, UrlExact.ScanAt, UrlParser.UrlStep;
    hide UrlParser.ScanOf;
    var connect := p.line.verb == HTTP_CONNECT;
    UrlExact.ScanExactly(connect, d);
    NeverDead(connect, d);
    if Run(p, nread, d).p.errno == Ok {
      UrlAgrees(p, nread, d);
    }
    var n := |d| - 1;
    assert d[..n] == Front(d) && d[n] == Last(d) && d == Front(d) + [Last(d)];
    if n == 0 {
      assert d == [d[0]] && Front(d) == [];
      RunOne(p, nread, d[0]);
      InvOk(p, nread);
      FirstTargetByte(p, nread, d[0]);
      FirstUrlByte(p, nread, d[0]);
      FirstScan(connect, d[0]);
    } else {
      RunLast(p, nread, d);
      TargetExactly(p, nread, Front(d));
      UrlExact.ScanExactly(connect, Front(d));
      NeverDead(connect, Front(d));
      NextScan(connect, d);
      var o := Run(p, nread, Front(d));
      if o.p.errno == Ok {
        UrlAgrees(p, nread, Front(d));
        TargetByte(o.p, o.nread, Last(d));
        UrlByte(o.p, o.nread, Last(d));
      }
    }
  }

  lemma NeverDead(connect: bool, d: seq<Byte>)
    requires d != []
    ensures UrlExact.ScanAt(connect, d).s != Dead
  {
    UrlExact.AtDead(connect, d);
  }

  lemma FirstScan(connect: bool, ch: Byte)
    ensures UrlParser.ScanOf(connect, [ch]).s == Dead <==> ParseUrlChar(UrlParser.StartOf(connect), ch) == Dead
  {
    hide ParseUrlChar;
    assert [ch][..0] == [];
  }

  lemma NextScan(connect: bool, d: seq<Byte>)
    requires |d| > 1
    ensures var x := UrlParser.ScanOf(connect, Front(d));
      UrlParser.ScanOf(connect, d).s == Dead <==> x.s == Dead || ParseUrlChar(x.s, Last(d)) == Dead
  {
    hide ParseUrlChar, UrlParser.FieldOf, UrlParser.Extend;
    DeadGoesOn(Last(d));
  }

  lemma DeadGoesOn(ch: Byte)
    ensures ParseUrlChar(Dead, ch) == Dead
  {}

  /** Where the target may end. */
  predicate IsWhole(connect: bool, d: seq<Byte>) {
    UrlExact.HasSchema(connect, d) ==> UrlExact.MarksIn(connect, d).start < |d|
  }

  lemma WholeState(connect: bool, d: seq<Byte>)
    requires d != [] && UrlExact.IsUrl(connect, d)
    ensures var s := UrlExact.StateAt(connect, d, UrlExact.MarksIn(connect, d));
      IsUrlState(s) && (IsWhole(connect, d) <==>
        s != Schema && s != SchemaSlash && s != SchemaSlashSlash && s != ServerStart)
  {
    hide UrlExact.MarksIn, UrlExact.IsUrl;
    UrlExact.PlacedMarks(connect, d);
    var m := UrlExact.MarksIn(connect, d);
    if m.ask < |d| {
      UrlExact.AskBehind(connect, d, m);
    }
  }

  /** A space or a line end behind the target is refused if and only if the target breaks off before its authority;
      a line end stands for version 0.9. */
  lemma TargetEnds(p: Parser, nread: nat, d: seq<Byte>, ch: Byte)
    requires Ready(p, nread) && p.state == SpacesBeforeUrl && d != [] && (forall i :: 0 <= i < |d| ==> InsideUrl(d[i]))
    requires nread + |d| < MAX_HEADER_SIZE && !InsideUrl(ch) && UrlExact.IsUrl(p.line.verb == HTTP_CONNECT, d)
    ensures var q := Run(p, nread, d + [ch]).p;
      && (q.errno == Ok <==> IsWhole(p.line.verb == HTTP_CONNECT, d))
      && (q.errno == Ok && ch == SPACE ==> q.state == HttpStart)
      && (q.errno == Ok && ch != SPACE ==>
           q.state == (if ch == CR then LineAlmostDone else FieldStart) && q.line.major == 0 && q.line.minor == 9)
  {
    hide RunByte, Ready, Run, IsWhole, UrlExact.IsUrl, UrlParser.ScanOf, UrlExact.MarksIn, UrlExact.StateAt;
    var connect := p.line.verb == HTTP_CONNECT;
    TargetExactly(p, nread, d);
    UrlExact.ScanExactly(connect, d);
    UrlAgrees(p, nread, d);
    WholeState(connect, d);
    var o := Run(p, nread, d);
    assert Front(d + [ch]) == d;
    RunLast(p, nread, d + [ch]);
    EndByte(o.p, o.nread, ch);
  }

  lemma EndByte(p: Parser, nread: nat, ch: Byte)
    requires Ready(p, nread) && IsUrlState(p.state) && !InsideUrl(ch) && nread < MAX_HEADER_SIZE
    ensures var q := RunByte(p, nread, ch).p;
      && (q.errno == Ok <==>
           p.state != Schema && p.state != SchemaSlash && p.state != SchemaSlashSlash && p.state != ServerStart)
      && (q.errno == Ok && ch == SPACE ==> q.state == HttpStart)
      && (q.errno == Ok && ch != SPACE ==>
           q.state == (if ch == CR then LineAlmostDone else FieldStart) && q.line.major == 0 && q.line.minor == 9)
  {
    hide ParseUrlChar;
    NoBlank(p.state, ch);
  }

  lemma NoBlank(s: State, ch: Byte)
    ensures !InsideUrl(ch) ==> ParseUrlChar(s, ch) == Dead
  {}

  // ----- The value of Content-Length -----

  /** Behind the digits: nothing but spaces, on the line of the digits or folded. */
  lemma {:induction false} LengthTail(p: Parser, nread: nat, r: seq<Byte>)
    requires Ready(p, nread) && p.state == Value && (p.hs == ContentLengthNum || p.hs == ContentLengthWs)
    requires nread + |r| <= MAX_HEADER_SIZE && (forall i :: 0 <= i < |r| ==> r[i] != CR && r[i] != LF)
    requires p.hs == ContentLengthNum && r != [] ==> !IsNum(r[0])
    ensures var o := Run(p, nread, r);
      && (o.p.errno == Ok <==> Blank(r))
      && (o.p.errno == Ok ==>
           Going(o) && o.nread == nread + |r| && o.p == if r == [] then p else p.(hs := ContentLengthWs))
    decreases |r|
  {
    hide Run, RunByte, Ready;
    InvOk(p, nread);
    if r == [] {
      RanNothing(p, nread);
    } else {
      RunLast(p, nread, r);
      assert Front(r) == r[..|r| - 1] && Last(r) == r[|r| - 1];
      LengthTail(p, nread, Front(r));
      BlankLonger(r);
      var o := Run(p, nread, Front(r));
      if o.p.errno == Ok {
        TailByte(o.p, o.nread, Last(r));
      }
    }
  }

  lemma BlankLonger(r: seq<Byte>)
    requires r != []
    ensures Blank(r) <==> Blank(Front(r)) && Last(r) == SPACE
  {
    assert forall i :: 0 <= i < |r| - 1 ==> Front(r)[i] == r[i];
  }

  lemma TailByte(p: Parser, nread: nat, ch: Byte)
    requires Ready(p, nread) && p.state == Value && nread < MAX_HEADER_SIZE && ch != CR && ch != LF
    requires p.hs == ContentLengthWs || (p.hs == ContentLengthNum && !IsNum(ch))
    ensures var o := RunByte(p, nread, ch);
      && (o.p.errno == Ok <==> ch == SPACE)
      && (ch == SPACE ==> o.p == p.(hs := ContentLengthWs) && o.nread == nread + 1 && !o.stop)
  {
    assert IsHeaderChar(SPACE);
    hide IsHeaderChar;
  }

  /** The number of digits that d begins with. */
  function LeadingDigits(d: seq<Byte>): (n: nat)
    ensures n <= |d| && (forall i :: 0 <= i < n ==> IsNum(d[i])) && (n < |d| ==> !IsNum(d[n]))
    decreases |d|
  {
    if d == [] || !IsNum(d[0]) then 0 else 1 + LeadingDigits(d[1..])
  }

  /** What follows the first digit of a Content-Length value, up to the end of its line, is accepted if and only if it
      is digits and then spaces and the value of all digits is at most 2^64 - 7. */
  lemma LengthValue(p: Parser, nread: nat, d: seq<Byte>)
    requires Ready(p, nread) && p.state == Value && p.hs == ContentLengthNum && p.contentLength <= MAX_LENGTH
    requires nread + |d| <= MAX_HEADER_SIZE && (forall i :: 0 <= i < |d| ==> d[i] != CR && d[i] != LF)
    ensures var n, q := LeadingDigits(d), Run(p, nread, d).p;
      var v := ValueFrom(p.contentLength, 10, d[..n]);
      && (q.errno == Ok <==> v <= MAX_LENGTH && Blank(d[n..]))
      && (q.errno == Ok ==> q.contentLength == v)
  {
    hide *;
    var n := LeadingDigits(d);
    LeadingAre(d);
    assert d == d[..n] + d[n..];
    assert d[n..] != [] ==> d[n..][0] == d[n];
    assert forall i :: 0 <= i < |d[n..]| ==> d[n..][i] == d[n + i];
    LengthParts(p, nread, d[..n], d[n..]);
  }

  lemma LeadingAre(d: seq<Byte>)
    ensures AreDigits(10, d[..LeadingDigits(d)])
  {}

  lemma LengthParts(p: Parser, nread: nat, a: seq<Byte>, b: seq<Byte>)
    requires Ready(p, nread) && p.state == Value && p.hs == ContentLengthNum && p.contentLength <= MAX_LENGTH
    requires nread + |a| + |b| <= MAX_HEADER_SIZE && (forall i :: 0 <= i < |b| ==> b[i] != CR && b[i] != LF)
    requires AreDigits(10, a) && (b != [] ==> !IsNum(b[0]))
    ensures var q, v := Run(p, nread, a + b).p, ValueFrom(p.contentLength, 10, a);
      && (q.errno == Ok <==> v <= MAX_LENGTH && Blank(b))
      && (q.errno == Ok ==> q.contentLength == v)
  {
    hide *;
    LengthDigits(p, nread, a);
    var v := ValueFrom(p.contentLength, 10, a);
    if v <= MAX_LENGTH {
      SameLength(p, nread, v, |a|);
      BehindRan(p, nread, a, b, p.(contentLength := v), nread + |a|, BytesOf(ValueData, a));
      TailLength(p.(contentLength := v), nread + |a|, b);
    } else {
      FailsEarly(p, nread, a, b);
    }
  }

  lemma TailLength(p: Parser, nread: nat, r: seq<Byte>)
    requires Ready(p, nread) && p.state == Value && p.hs == ContentLengthNum
    requires nread + |r| <= MAX_HEADER_SIZE && (forall i :: 0 <= i < |r| ==> r[i] != CR && r[i] != LF)
    requires r != [] ==> !IsNum(r[0])
    ensures Run(p, nread, r).p.errno == Ok <==> Blank(r)
    ensures Blank(r) ==> Run(p, nread, r).p.contentLength == p.contentLength
  {
    hide *;
    LengthTail(p, nread, r);
  }

  lemma BehindRan(p: Parser, nread: nat, a: seq<Byte>, b: seq<Byte>, q: Parser, m: nat, e: seq<Event>)
    requires Ready(p, nread) && Ran(p, nread, a, q, m, e) && Ready(q, m)
    ensures Run(p, nread, a + b).p == Run(q, m, b).p
  {
    hide Run, Ready;
    RunSplit(p, nread, a, b);
  }

  // ----- Chunks -----

  /** The value of the size of a chunk. */
  function SizeOf(c: Chunk): nat { ValueOf(16, c.size) }

  function Header(c: Chunk): seq<Byte> { c.size + c.extension }

  /** What has been read of a chunk, as far as the parser has come. */
  ghost predicate ChunkRead(q: Parser, n: nat, d: seq<Byte>, c: Chunk) {
    && c.size != [] && AreDigits(16, c.size) && IsExtension(c.extension)
    && match q.state
       case ChunkSize => d == c.size && c.extension == c.data == [] && q.contentLength == SizeOf(c) && n == |d|
       case ChunkParameters =>
         d == Header(c) && c.extension != [] && c.data == [] && q.contentLength == SizeOf(c) && n == |d|
       case ChunkSizeAlmostDone => d == Header(c) + [CR] && c.data == [] && q.contentLength == SizeOf(c) && n == |d|
       case FieldStart => d == Header(c) + CRLF && SizeOf(c) == 0 && c.data == [] && |d| <= MAX_HEADER_SIZE
       case ChunkData => d == Header(c) + CRLF + c.data && |c.data| + q.contentLength == SizeOf(c) && Fits(c)
       case ChunkDataAlmostDone => d == Header(c) + CRLF + c.data && Fits(c) && |c.data| == SizeOf(c)
       case ChunkDataDone => d == Header(c) + CRLF + c.data + [CR] && Fits(c) && |c.data| == SizeOf(c)
       case ChunkSizeStart => d == ChunkBytes(c) && Fits(c) && |c.data| == SizeOf(c)
       case _ => false
  }

  predicate Fits(c: Chunk) { |Header(c)| + 2 <= MAX_HEADER_SIZE && 0 < SizeOf(c) <= MAX_CHUNK }

  /** One more byte of a chunk. */
  function MoreOf(c: Chunk, s: State, ch: Byte): Chunk {
    match s
    case ChunkSizeStart => Chunk([ch], [], [])
    case ChunkSize =>
      if Unhex(ch) >= 0 then c.(size := c.size + [ch]) else if ch == CR then c else c.(extension := [ch])
    case ChunkParameters => if ch == CR then c else c.(extension := c.extension + [ch])
    case ChunkData => c.(data := c.data + [ch])
    case _ => c
  }

  lemma OneMoreDigit(c: Chunk, ch: Byte)
    ensures var e := c.(size := c.size + [ch]); SizeOf(e) == SizeOf(c) * 16 + DigitValue(ch)
    ensures AreDigits(16, c.size) && Unhex(ch) >= 0 ==> AreDigits(16, c.size + [ch])
    ensures Unhex(ch) >= 0 ==> AreDigits(16, [ch]) && ValueOf(16, [ch]) == DigitValue(ch) == Unhex(ch)
  {
    hide ValueOf, DigitValue, AreDigits;
    HttpDeclared.OneMore(16, c.size, ch);
    DigitOf(ch);
    DigitsGrow(c.size, ch);
  }

  lemma DigitOf(ch: Byte)
    ensures Unhex(ch) >= 0 ==> AreDigits(16, [ch]) && DigitValue(ch) == Unhex(ch)
  {}

  lemma DigitsGrow(d: seq<Byte>, ch: Byte)
    ensures AreDigits(16, d) && AreDigits(16, [ch]) ==> AreDigits(16, d + [ch])
  {
    assert [ch][0] == ch;
  }

  lemma ExtensionGrows(e: seq<Byte>, ch: Byte)
    requires ch != CR
    ensures IsExtension(e) && e != [] ==> IsExtension(e + [ch])
    ensures ch == SEMICOLON || ch == SPACE ==> IsExtension([ch])
  {}

  /** What a byte of the size line does. */
  lemma SizeByte(q: Parser, ch: Byte)
    requires (q.state == ChunkSizeStart || q.state == ChunkSize || q.state == ChunkParameters)
    requires q.errno == Ok && ChunkArm(q, ch).next.errno == Ok
    ensures var r := ChunkArm(q, ch).next;
      if q.state == ChunkSizeStart then Unhex(ch) >= 0 && r.state == ChunkSize && r.contentLength == Unhex(ch)
      else if ch == CR then r.state == ChunkSizeAlmostDone && r.contentLength == q.contentLength
      else if q.state == ChunkSize && Unhex(ch) >= 0 then
        r.state == ChunkSize && r.contentLength == q.contentLength * 16 + Unhex(ch)
      else
        r.state == ChunkParameters && r.contentLength == q.contentLength
        && (q.state == ChunkSize ==> ch == SEMICOLON || ch == SPACE)
    ensures Unhex(CR) < 0
  {
    assert Unhex(CR) < 0;
    hide Unhex;
  }

  lemma SizeLineRead(q: Parser, n: nat, d: seq<Byte>, c: Chunk, ch: Byte)
    requires Inv(q) && ChunkRead(q, n, d, c) && (q.state == ChunkSize || q.state == ChunkParameters)
    requires ChunkArm(q, ch).next.errno == Ok
    ensures ChunkRead(ChunkArm(q, ch).next, n + 1, d + [ch], MoreOf(c, q.state, ch))
  {
    hide ChunkArm, ValueOf, AreDigits, IsExtension, Unhex, DigitValue;
    SizeByte(q, ch);
    OneMoreDigit(c, ch);
    if ch != CR {
      ExtensionGrows(c.extension, ch);
    }
    assert c.size + [] == c.size;
    assert c.size + c.extension + [ch] == c.size + (c.extension + [ch]);
  }

  lemma SizeStartRead(q: Parser, n: nat, ch: Byte)
    requires q.state == ChunkSizeStart && q.errno == Ok && ChunkArm(q, ch).next.errno == Ok && n == 1
    ensures ChunkRead(ChunkArm(q, ch).next, n, [ch], Chunk([ch], [], []))
  {
    hide ChunkArm, ValueOf, AreDigits, Unhex, DigitValue;
    SizeByte(q, ch);
    OneMoreDigit(Chunk([], [], []), ch);
  }

  lemma SizeEndRead(q: Parser, n: nat, m: nat, d: seq<Byte>, c: Chunk, ch: Byte)
    requires Inv(q) && ChunkRead(q, n, d, c) && q.state == ChunkSizeAlmostDone && n < MAX_HEADER_SIZE
    requires ChunkArm(q, ch).next.errno == Ok
    ensures ChunkRead(ChunkArm(q, ch).next, m, d + [ch], c)
  {
    hide ValueOf, AreDigits, IsExtension, Unhex;
    assert Header(c) + [CR] + [LF] == Header(c) + CRLF;
    assert Header(c) + CRLF + [] == Header(c) + CRLF;
  }

  lemma DataRead(q: Parser, n: nat, m: nat, d: seq<Byte>, c: Chunk, ch: Byte)
    requires Inv(q) && ChunkRead(q, n, d, c) && q.state == ChunkData
    ensures ChunkRead(BodyArm(q).next, m, d + [ch], c.(data := c.data + [ch]))
  {
    hide ValueOf, AreDigits, IsExtension;
    assert Header(c) + CRLF + c.data + [ch] == Header(c) + CRLF + (c.data + [ch]);
  }

  lemma DataEndRead(q: Parser, n: nat, m: nat, d: seq<Byte>, c: Chunk, ch: Byte)
    requires Inv(q) && ChunkRead(q, n, d, c) && (q.state == ChunkDataAlmostDone || q.state == ChunkDataDone)
    requires ChunkArm(q, ch).next.errno == Ok
    ensures ChunkRead(ChunkArm(q, ch).next, m, d + [ch], c)
  {
    hide ValueOf, AreDigits, IsExtension, Unhex;
    assert Header(c) + CRLF + c.data + [CR] + [LF] == ChunkBytes(c);
  }

  predicate InSizeLine(s: State) { s == ChunkSizeStart || s == ChunkSize || s == ChunkParameters }

  lemma CountRead(q: Parser, n: nat, ch: Byte)
    requires Ready(q, n) && RunByte(q, n, ch).p.errno == Ok
    ensures Counts(q.state) ==> n < MAX_HEADER_SIZE
    ensures InSizeLine(q.state) ==> RunByte(q, n, ch).nread == n + 1
  {
    hide StepOf, Inv, EventsOf, Resets;
    if InSizeLine(q.state) {
      LineResets(q, ch);
    }
  }

  lemma LineResets(q: Parser, ch: Byte)
    requires InSizeLine(q.state)
    ensures !Resets(q, StepOf(q, ch).acts)
  {
    hide Unhex;
  }

  predicate WithinChunk(s: State) {
    s == ChunkSize || s == ChunkParameters || s == ChunkSizeAlmostDone || s == ChunkData || s == ChunkDataAlmostDone
    || s == ChunkDataDone
  }

  lemma ByteRead(q: Parser, n: nat, d: seq<Byte>, c: Chunk, ch: Byte)
    requires Ready(q, n) && WithinChunk(q.state) && ChunkRead(q, n, d, c) && RunByte(q, n, ch).p.errno == Ok
    ensures var o := RunByte(q, n, ch); ChunkRead(o.p, o.nread, d + [ch], MoreOf(c, q.state, ch))
  {
    hide StepOf, RunByte, ChunkRead, ChunkArm, BodyArm, Inv;
    ByteStep(q, n, ch);
    CountRead(q, n, ch);
    ChunkStep(q, ch);
    var m := RunByte(q, n, ch).nread;
    match q.state
    case ChunkSize => SizeLineRead(q, n, d, c, ch);
    case ChunkParameters => SizeLineRead(q, n, d, c, ch);
    case ChunkSizeAlmostDone => SizeEndRead(q, n, m, d, c, ch);
    case ChunkData => DataRead(q, n, m, d, c, ch);
    case _ => DataEndRead(q, n, m, d, c, ch);
  }

  lemma ChunkStep(q: Parser, ch: Byte)
    requires Inv(q)
    ensures (WithinChunk(q.state) && q.state != ChunkData) || q.state == ChunkSizeStart ==>
      StepOf(q, ch) == ChunkArm(q, ch)
    ensures WithinChunk(q.state) || q.state == ChunkSizeStart ==> InBody(q)
    ensures q.state == ChunkData ==> StepOf(q, ch) == BodyArm(q)
    ensures q.state == ChunkSizeAlmostDone ==> Counts(q.state)
  {
    hide ChunkArm, BodyArm;
  }

  /** Until it returns to the beginning of a chunk, the parser accepts nothing but a chunk: digits of its size, an
      extension, a line end, as many bytes as the size says and a line end; a size of zero ends the body. */
  lemma {:induction false} OnlyChunks(p: Parser, d: seq<Byte>) returns (c: Chunk)
    requires Ready(p, 0) && p.state == ChunkSizeStart && d != [] && Run(p, 0, d).p.errno == Ok
    requires forall k :: 0 < k < |d| ==> WithinChunk(Run(p, 0, d[..k]).p.state)
    ensures var o := Run(p, 0, d); ChunkRead(o.p, o.nread, d, c) && !o.stop
    decreases |d|
  {
    hide Run, RunByte, Ready, ChunkRead, WithinChunk, InBody, BetweenMessages;
    InvOk(p, 0);
    RunLast(p, 0, d);
    var n := |d| - 1;
    assert d[..n] == Front(d) && d == Front(d) + [d[n]];
    if n == 0 {
      hide ChunkArm, StepOf;
      RanNothing(p, 0);
      ByteStep(p, 0, d[0]);
      CountRead(p, 0, d[0]);
      ChunkStep(p, d[0]);
      SizeStartRead(p, 1, d[0]);
      ByteUpholds(p, 0, d[0]);
      c := Chunk([d[0]], [], []);
      NotBetween(RunByte(p, 0, d[0]).p, 1, d, c);
    } else {
      forall k | 0 < k < |Front(d)|
        ensures WithinChunk(Run(p, 0, Front(d)[..k]).p.state)
      {
        assert Front(d)[..k] == d[..k];
      }
      var b := OnlyChunks(p, Front(d));
      var o := Run(p, 0, Front(d));
      ByteRead(o.p, o.nread, Front(d), b, d[n]);
      c := MoreOf(b, o.p.state, d[n]);
      ByteStep(o.p, o.nread, d[n]);
      ChunkStep(o.p, d[n]);
      ByteUpholds(o.p, o.nread, d[n]);
      NotBetween(RunByte(o.p, o.nread, d[n]).p, RunByte(o.p, o.nread, d[n]).nread, d, c);
    }
  }

  lemma NotBetween(q: Parser, n: nat, d: seq<Byte>, c: Chunk)
    requires ChunkRead(q, n, d, c)
    ensures !BetweenMessages(q.state)
  {}

  /** A run that comes back to the beginning of a chunk, or to the trailer, has read a chunk or the last size line. */
  lemma ChunksOnly(p: Parser, d: seq<Byte>) returns (c: Chunk)
    requires Ready(p, 0) && p.state == ChunkSizeStart && d != [] && Run(p, 0, d).p.errno == Ok
    requires forall k :: 0 < k < |d| ==> WithinChunk(Run(p, 0, d[..k]).p.state)
    ensures var s := Run(p, 0, d).p.state;
      && (s == ChunkSizeStart ==> IsChunk(c) && d == ChunkBytes(c))
      && (s == FieldStart ==> IsLastSize(c.size, c.extension) && d == c.size + c.extension + CRLF)
      && (s == ChunkSizeStart || s == FieldStart || WithinChunk(s))
  {
    hide Run, Ready, ValueOf, IsExtension, AreDigits;
    c := OnlyChunks(p, d);
  }
}
