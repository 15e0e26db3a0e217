/** What the input itself declares: over whole runs, the lengths that the parser stores are the values of the
    digits it has read, so the body bytes delivered number what Content-Length values and chunk sizes say. */
module HttpDeclared {
  import opened Sequences
  import opened HttpChars
  import opened HttpArms
  import opened HttpBytewise
  import opened HttpRun
  import opened Digits
  import opened HttpBody
  import opened HttpNames
  import opened HttpMessage

  /** The digits of the last Content-Length value and of the last chunk size in the input. */
  datatype Ledger = Ledger(length: seq<Byte>, size: seq<Byte>)

  const NO_DIGITS: Ledger := Ledger([], [])

  function Read(b: Ledger, p: Parser, ch: Byte): Ledger {
    if (p.state == ValueDiscardWs || p.state == ValueStart) && p.hs == HeaderState.ContentLength && IsNum(ch)
    then b.(length := [ch])
    else if p.state == Value && p.hs == ContentLengthNum && IsNum(ch) then b.(length := b.length + [ch])
    else if p.state == ChunkSizeStart then b.(size := [ch])
    else if p.state == ChunkSize && Unhex(ch) >= 0 then b.(size := b.size + [ch])
    else b
  }

  /** From the first byte of a message to the end of its headers. */
  predicate BeforeBody(s: State) {
    s == ReqMethod || s == SpacesBeforeUrl || IsUrlState(s) || IsVersionState(s) || HeaderLine(s)
  }

  predicate InSizeLine(s: State) { s == ChunkSize || s == ChunkParameters || s == ChunkSizeAlmostDone }

  /** The stored length is the value of the digits read, or unset. */
  predicate LengthTold(p: Parser, b: Ledger) {
    if p.flags.hasLength then p.contentLength == ValueOf(10, b.length) && p.contentLength != U64_MAX
    else p.contentLength == U64_MAX && (p.state == Value ==> p.hs != ContentLengthNum)
  }

  predicate Told(p: Parser, b: Ledger) {
    && (BeforeBody(p.state) && !p.flags.trailing ==> LengthTold(p, b))
    && (p.state == Value ==> p.hs != HeaderState.ContentLength)
    && (InSizeLine(p.state) ==> p.contentLength == ValueOf(16, b.size))
  }

  /** What the step from p to q declares, by the digits read. */
  function DeclaresDigits(p: Parser, q: Parser, b: Ledger): nat {
    if IsBody(p.state) || !IsBody(q.state) then 0
    else if q.state == ChunkData then ValueOf(16, b.size)
    else ValueOf(10, b.length)
  }

  /** A step that leads to q keeps the ledger and declares what it says. */
  predicate Follows(p: Parser, q: Parser, b: Ledger) {
    Told(q, b) && Declares(p, q) == DeclaresDigits(p, q, b)
  }

  lemma OneMore(base: nat, d: seq<Byte>, ch: Byte)
    ensures ValueOf(base, d + [ch]) == ValueOf(base, d) * base + DigitValue(ch)
    ensures ValueOf(base, [ch]) == DigitValue(ch)
  {
    assert (d + [ch])[..|d|] == d && (d + [ch])[|d|] == ch;
    assert [ch][..0] == [] && ValueFrom(0, base, []) * base == 0;
  }

  lemma ToldStep(p: Parser, ch: Byte, b: Ledger)
    requires Inv(p) && Told(p, b) && StepOf(p, ch).next.errno == Ok
    ensures Follows(p, StepOf(p, ch).next, Read(b, p, ch))
  {
    hide UrlArm, VersionArm, HeaderArm, ChunkArm, StartArm, FieldArm, ValueArm, BodyArm, Follows, Told, Read;
    if p.state == Value {
      ValueFollows(p, ch, b);
    } else if p.state == Field {
      FieldFollows(p, ch, b);
    } else if IsHeaderState(p.state) {
      HeaderFollows(p, ch, b);
    } else if IsUrlState(p.state) || p.state == SpacesBeforeUrl {
      UrlFollows(p, ch, b);
    } else if IsBody(p.state) {
      BodyFollows(p, ch, b);
    } else if IsChunkState(p.state) {
      ChunkFollows(p, ch, b);
    } else if IsVersionState(p.state) {
      VersionFollows(p, ch, b);
    } else {
      StartFollows(p, ch, b);
    }
  }

  /** A step within the headers that touches neither the length nor the flags about it. */
  lemma Carried(p: Parser, q: Parser, b: Ledger)
    requires Told(p, b) && BeforeBody(p.state) && BeforeBody(q.state)
    requires q.flags.hasLength == p.flags.hasLength && q.flags.trailing == p.flags.trailing
    requires q.contentLength == p.contentLength && (q.state == Value ==> NoDigits(q))
    ensures Follows(p, q, b)
  {
    hide BeforeBody, ValueOf;
    LineOutside(p.state);
    LineOutside(q.state);
  }

  lemma StartFollows(p: Parser, ch: Byte, b: Ledger)
    requires Told(p, b) && (p.state == Dead || p.state == StartReq || p.state == ReqMethod)
    requires StartArm(p, ch).next.errno == Ok && p.errno == Ok
    ensures Follows(p, StartArm(p, ch).next, Read(b, p, ch))
  {
    hide StartArm;
    var q := StartArm(p, ch).next;
    if p.state == ReqMethod {
      hide Told, Follows;
      MethodKeeps(p, ch);
      Carried(p, q, b);
    } else {
      hide ValueOf;
      FirstOfMessage(p, ch);
    }
  }

  lemma MethodKeeps(p: Parser, ch: Byte)
    requires p.state == ReqMethod
    ensures var q := StartArm(p, ch).next;
      q.flags == p.flags && q.contentLength == p.contentLength && (q.state == ReqMethod || q.state == SpacesBeforeUrl)
  {
    hide MethodChar, NextMethod, FirstMethod;
  }

  lemma FirstOfMessage(p: Parser, ch: Byte)
    requires (p.state == Dead || p.state == StartReq) && StartArm(p, ch).next.errno == Ok && p.errno == Ok
    ensures var q := StartArm(p, ch).next;
      q == p || (q.state == ReqMethod && q.flags == NO_FLAGS && q.contentLength == U64_MAX)
  {
    hide FirstMethod;
  }

  lemma UrlFollows(p: Parser, ch: Byte, b: Ledger)
    requires Told(p, b) && (p.state == SpacesBeforeUrl || IsUrlState(p.state)) && p.errno == Ok
    requires UrlArm(p, ch).next.errno == Ok
    ensures Follows(p, UrlArm(p, ch).next, Read(b, p, ch))
  {
    hide UrlArm, Told, Follows;
    UrlUnchunked(p, ch);
    UrlKeepsLength(p, ch);
    UrlLeads(p, ch);
    Carried(p, UrlArm(p, ch).next, b);
  }

  lemma UrlLeads(p: Parser, ch: Byte)
    requires p.state == SpacesBeforeUrl || IsUrlState(p.state)
    ensures BeforeBody(UrlArm(p, ch).next.state) && UrlArm(p, ch).next.state != Value
  {
    hide UrlArm;
    UrlGoesOn(p, ch);
  }

  lemma VersionFollows(p: Parser, ch: Byte, b: Ledger)
    requires Told(p, b) && IsVersionState(p.state)
    ensures Follows(p, VersionArm(p, ch).next, Read(b, p, ch))
  {
    hide VersionArm, Told, Follows;
    VersionMoves(p, ch);
    Carried(p, VersionArm(p, ch).next, b);
  }

  lemma FieldFollows(p: Parser, ch: Byte, b: Ledger)
    requires Told(p, b) && p.state == Field && p.errno == Ok && FieldArm(p, ch).next.errno == Ok
    ensures Follows(p, FieldArm(p, ch).next, Read(b, p, ch))
  {
    hide FieldArm, Told, Follows;
    FieldLeads(p, ch);
    FieldKeepsLength(p, ch);
    Carried(p, FieldArm(p, ch).next, b);
  }

  lemma ValueFollows(p: Parser, ch: Byte, b: Ledger)
    requires Told(p, b) && p.state == Value && p.errno == Ok && ValueArm(p, ch).next.errno == Ok
    ensures Follows(p, ValueArm(p, ch).next, Read(b, p, ch))
  {
    hide ValueArm, Told, Follows;
    if p.hs == ContentLengthNum {
      DigitFollows(p, ch, b);
    } else {
      NotInLength(p, b);
      ValueLeads(p, ch);
      ValueKeepsLength(p, ch);
      Carried(p, ValueArm(p, ch).next, b);
    }
  }

  lemma NotInLength(p: Parser, b: Ledger)
    requires Told(p, b) && p.state == Value && p.hs != ContentLengthNum
    ensures NoDigits(p)
  {}

  lemma DigitFollows(p: Parser, ch: Byte, b: Ledger)
    requires Told(p, b) && p.state == Value && p.hs == ContentLengthNum && p.errno == Ok
    requires ValueArm(p, ch).next.errno == Ok
    ensures Follows(p, ValueArm(p, ch).next, Read(b, p, ch))
  {
    hide ValueOf, ValueChar, DigitValue;
    if IsNum(ch) {
      OneMore(10, b.length, ch);
      NextDigit(p, ch);
    } else {
      NoMoreDigits(p, ch);
    }
  }

  lemma NextDigit(p: Parser, ch: Byte)
    requires p.hs == ContentLengthNum && IsNum(ch)
    ensures var q := ValueChar(p, ch);
      q.errno == Ok && p.errno == Ok ==>
        q == p.(contentLength := p.contentLength * 10 + DigitValue(ch)) && q.contentLength < U64_MAX
  {}

  lemma HeaderFollows(p: Parser, ch: Byte, b: Ledger)
    requires Told(p, b) && IsHeaderState(p.state) && p.errno == Ok && HeaderArm(p, ch).next.errno == Ok
    ensures Follows(p, HeaderArm(p, ch).next, Read(b, p, ch))
  {
    hide FieldStartArm, HeadersEnd, ValueLwsArm, DiscardLwsArm, ValueStartArm, Told, Follows;
    match p.state
    case FieldStart => FieldStartFollows(p, ch, b);
    case HeadersAlmostDone => EndFollows(p, ch, b);
    case ValueLws => LwsFollows(p, ch, b);
    case ValueDiscardLws => LwsFollows(p, ch, b);
    case ValueDiscardWs =>
      if ch == SPACE || ch == TAB || ch == CR || ch == LF {
        Carried(p, HeaderArm(p, ch).next, b);
      } else {
        ValueStartFollows(p, ch, b);
      }
    case ValueStart => ValueStartFollows(p, ch, b);
    case _ => Carried(p, HeaderArm(p, ch).next, b);
  }

  lemma ValueStartFollows(p: Parser, ch: Byte, b: Ledger)
    requires Told(p, b) && (p.state == ValueDiscardWs || p.state == ValueStart)
    requires p.errno == Ok && ValueStartArm(p, ch).next.errno == Ok
    ensures Follows(p, ValueStartArm(p, ch).next, Read(b, p, ch))
  {
    hide ValueStartArm;
    if p.hs == HeaderState.ContentLength {
      hide ValueOf;
      FirstOfLength(p, ch);
      OneMore(10, [], ch);
    } else {
      hide Told, Follows;
      OtherValue(p, ch);
      ValueStartKeepsLength(p, ch);
      Carried(p, ValueStartArm(p, ch).next, b);
    }
  }

  lemma FirstOfLength(p: Parser, ch: Byte)
    requires p.hs == HeaderState.ContentLength && p.errno == Ok && ValueStartArm(p, ch).next.errno == Ok
    ensures IsNum(ch) && !p.flags.hasLength && ValueStartArm(p, ch).next == WithLength(p, DigitValue(ch))
  {}

  lemma OtherValue(p: Parser, ch: Byte)
    requires p.hs != HeaderState.ContentLength
    ensures var q := ValueStartArm(p, ch).next; SameMessage(p, q) && q.state == Value && NoDigits(q)
  {
    hide Lower, IsNum;
  }

  /** From elsewhere in the headers. */
  lemma FollowsFrom(p: Parser, q: Parser, r: Parser, b: Ledger)
    requires Follows(q, r, b) && !IsBody(p.state) && !IsBody(q.state)
    ensures Follows(p, r, b)
  {}

  lemma LwsFollows(p: Parser, ch: Byte, b: Ledger)
    requires Told(p, b) && (p.state == ValueLws || p.state == ValueDiscardLws) && p.errno == Ok
    requires HeaderArm(p, ch).next.errno == Ok
    ensures Follows(p, HeaderArm(p, ch).next, b)
  {
    hide FieldStartArm, ValueStartArm, SetConnectionFlag, Told, Follows;
    var q := SetConnectionFlag(p).(state := FieldStart);
    FlagLeads(p);
    FlagKeepsLength(p);
    if ch == SPACE || ch == TAB {
      if p.state == ValueLws {
        var r := if p.hs == ContentLengthNum then p.(hs := ContentLengthWs) else p;
        BlankIsNoDigit(p, ch);
        OtherValue(r, ch);
        ValueStartKeepsLength(r, ch);
      }
      Carried(p, HeaderArm(p, ch).next, b);
    } else {
      Carried(p, q, b);
      StillTold(p, q, b);
      FieldStartFollows(q, ch, b);
      NotBody(p, q);
      FollowsFrom(p, q, FieldStartArm(q, ch).next, b);
    }
  }

  lemma NotBody(p: Parser, q: Parser)
    requires (p.state == ValueLws || p.state == ValueDiscardLws) && q.state == FieldStart
    ensures !IsBody(p.state) && !IsBody(q.state)
  {}

  lemma StillTold(p: Parser, q: Parser, b: Ledger)
    requires Follows(p, q, b)
    ensures Told(q, b)
  {}

  lemma BlankIsNoDigit(p: Parser, ch: Byte)
    requires (ch == SPACE || ch == TAB) && p.state == ValueLws && HeaderArm(p, ch).next.errno == Ok && p.errno == Ok
    ensures p.hs != HeaderState.ContentLength
  {}

  lemma FieldStartFollows(p: Parser, ch: Byte, b: Ledger)
    requires Told(p, b) && p.state == FieldStart && p.errno == Ok && FieldStartArm(p, ch).next.errno == Ok
    ensures Follows(p, FieldStartArm(p, ch).next, b)
  {
    hide Token, HeadersEnd, Told, Follows;
    if ch == LF {
      EndFollows(p, ch, b);
    } else {
      Carried(p, FieldStartArm(p, ch).next, b);
    }
  }

  /** A body without chunks is entered with the length that was told. */
  lemma EndFollows(p: Parser, ch: Byte, b: Ledger)
    requires Told(p, b) && (p.state == FieldStart || p.state == HeadersAlmostDone) && p.errno == Ok
    requires HeadersEnd(p, ch).next.errno == Ok
    ensures Follows(p, HeadersEnd(p, ch).next, b)
  {
    hide ValueOf, HeadersEnd, BeforeBody;
    EndLength(p, ch);
    AfterHeaders(HeadersEnd(p, ch).next.state);
    AtHeaders(p.state);
  }

  lemma EndLength(p: Parser, ch: Byte)
    requires HeadersEnd(p, ch).next.errno == Ok && p.errno == Ok
    ensures HeadersEnd(p, ch).next.contentLength == p.contentLength
    ensures var s := HeadersEnd(p, ch).next.state;
      || BetweenMessages(s) || s == ChunkSizeStart
      || (s == BodyIdentity && !p.flags.trailing && p.contentLength != U64_MAX)
  {
    hide ShouldKeepAlive;
  }

  lemma AfterHeaders(s: State)
    ensures BetweenMessages(s) || s == ChunkSizeStart || s == BodyIdentity ==> !BeforeBody(s)
  {}

  lemma AtHeaders(s: State)
    ensures s == FieldStart || s == HeadersAlmostDone ==> BeforeBody(s)
  {}

  lemma ChunkFollows(p: Parser, ch: Byte, b: Ledger)
    requires Told(p, b) && IsChunkState(p.state) && p.errno == Ok && ChunkArm(p, ch).next.errno == Ok
    ensures Follows(p, ChunkArm(p, ch).next, Read(b, p, ch))
  {
    hide ChunkArm, Told, Follows, Read;
    match p.state
    case ChunkSizeStart => SizeStartFollows(p, ch, b);
    case ChunkSize => SizeFollows(p, ch, b);
    case _ => LineFollows(p, ch, b);
  }

  lemma SizeStartFollows(p: Parser, ch: Byte, b: Ledger)
    requires Told(p, b) && p.state == ChunkSizeStart && p.errno == Ok && ChunkArm(p, ch).next.errno == Ok
    ensures Follows(p, ChunkArm(p, ch).next, Read(b, p, ch))
  {
    hide ValueOf, Unhex;
    OneMore(16, [], ch);
  }

  lemma SizeFollows(p: Parser, ch: Byte, b: Ledger)
    requires Told(p, b) && p.state == ChunkSize && p.errno == Ok && ChunkArm(p, ch).next.errno == Ok
    ensures Follows(p, ChunkArm(p, ch).next, Read(b, p, ch))
  {
    hide ValueOf, Unhex, BeforeBody, LengthTold, ChunkArm, DigitValue;
    OneMore(16, b.size, ch);
    SizeStep(p, ch);
    LineOutside(ChunkSize);
    LineOutside(ChunkParameters);
    LineOutside(ChunkSizeAlmostDone);
  }

  lemma SizeStep(p: Parser, ch: Byte)
    requires p.state == ChunkSize && p.errno == Ok && ChunkArm(p, ch).next.errno == Ok
    ensures var q := ChunkArm(p, ch).next;
      if Unhex(ch) >= 0 then q == p.(contentLength := p.contentLength * 16 + DigitValue(ch))
      else q == p.(state := q.state) && (q.state == ChunkParameters || q.state == ChunkSizeAlmostDone)
  {
    assert Unhex(CR) < 0;
    hide Unhex;
  }

  lemma LineFollows(p: Parser, ch: Byte, b: Ledger)
    requires Told(p, b) && IsChunkState(p.state) && p.state != ChunkSizeStart && p.state != ChunkSize
    requires p.errno == Ok && ChunkArm(p, ch).next.errno == Ok
    ensures Follows(p, ChunkArm(p, ch).next, Read(b, p, ch))
  {
    hide ValueOf, LengthTold, BeforeBody;
    LineOutside(p.state);
    LineOutside(ChunkArm(p, ch).next.state);
  }

  lemma LineOutside(s: State)
    ensures IsChunkState(s) || IsBody(s) ==> !BeforeBody(s)
  {}

  lemma BodyFollows(p: Parser, ch: Byte, b: Ledger)
    requires Told(p, b) && IsBody(p.state) && p.contentLength > 0
    ensures Follows(p, BodyArm(p).next, Read(b, p, ch))
  {
    hide ValueOf, BeforeBody, LengthTold;
    BodyOutside(p);
  }

  lemma BodyOutside(p: Parser)
    requires IsBody(p.state) && p.contentLength > 0
    ensures !BeforeBody(BodyArm(p).next.state) && !InSizeLine(BodyArm(p).next.state) && BodyArm(p).next.state != Value
  {
    hide ShouldKeepAlive;
  }

  // ----- Runs -----

  /** The digits that a run has read. */
  function LedgerOf(p: Parser, nread: nat, data: seq<Byte>): Ledger
    requires Ready(p, nread)
    decreases |data|
  {
    if data == [] then NO_DIGITS
    else
      var o := Run(p, nread, Front(data));
      if Going(o) then Read(LedgerOf(p, nread, Front(data)), o.p, Last(data)) else LedgerOf(p, nread, Front(data))
  }

  /** The sum of the values of the Content-Lengths and chunk sizes of all bodies and chunks that begin. */
  function DeclaredDigits(p: Parser, nread: nat, data: seq<Byte>): nat
    requires Ready(p, nread)
    decreases |data|
  {
    if data == [] then 0
    else
      var o := Run(p, nread, Front(data));
      var sum := DeclaredDigits(p, nread, Front(data));
      if !Going(o) then sum
      else
        var r := RunByte(o.p, o.nread, Last(data));
        sum + if r.p.errno == Ok then DeclaresDigits(o.p, r.p, LedgerOf(p, nread, data)) else 0
  }

  lemma ByteFollows(p: Parser, nread: nat, ch: Byte, b: Ledger)
    requires Ready(p, nread) && Told(p, b) && RunByte(p, nread, ch).p.errno == Ok
    ensures Follows(p, RunByte(p, nread, ch).p, Read(b, p, ch))
  {
    hide StepOf, Told, Follows, Read, EventsOf, Resets;
    ToldStep(p, ch, b);
  }

  /** In every run, each length declared is the value of the digits in the input that declare it. */
  lemma {:induction false} DeclaredByDigits(p: Parser, nread: nat, data: seq<Byte>)
    requires Ready(p, nread) && Told(p, NO_DIGITS) && Run(p, nread, data).p.errno == Ok
    ensures Told(Run(p, nread, data).p, LedgerOf(p, nread, data))
    ensures Declared(p, nread, data) == DeclaredDigits(p, nread, data)
    decreases |data|
  {
    hide RunByte, Ready, Told, Read, Declares, DeclaresDigits;
    if data != [] {
      var o := Run(p, nread, Front(data));
      DeclaredByDigits(p, nread, Front(data));
      if Going(o) {
        ByteFollows(o.p, o.nread, Last(data), LedgerOf(p, nread, Front(data)));
      }
    }
  }

  lemma ToldBetween(p: Parser, b: Ledger)
    requires BetweenMessages(p.state)
    ensures Told(p, b) && Owed(p) == 0
  {}

  /** From between messages on, body bytes delivered and still owed add up to the values of the digits that the
      input declares; between messages again, nothing is owed. */
  lemma BodyBytesByDigits(p: Parser, nread: nat, data: seq<Byte>)
    requires Ready(p, nread) && BetweenMessages(p.state) && Run(p, nread, data).p.errno == Ok
    ensures var o := Run(p, nread, data); BodyBytes(o.events) + Owed(o.p) == DeclaredDigits(p, nread, data)
    ensures var o := Run(p, nread, data);
      BetweenMessages(o.p.state) ==> BodyBytes(o.events) == DeclaredDigits(p, nread, data)
  {
    hide Run, RunByte, Ready, Told, Owed, BetweenMessages, BodyBytes, Declared, DeclaredDigits;
    ToldBetween(p, NO_DIGITS);
    DeclaredByDigits(p, nread, data);
    BodyBytesBalance(p, nread, data);
    var q := Run(p, nread, data).p;
    if BetweenMessages(q.state) {
      ToldBetween(q, NO_DIGITS);
    }
  }
}
