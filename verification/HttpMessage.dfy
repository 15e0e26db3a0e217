/** Whole messages with a Content-Length: the digits of the header decide how many body bytes follow. */
module HttpMessage {
  import opened Sequences
  import opened HttpChars
  import opened HttpArms
  import opened HttpBytewise
  import opened HttpRun
  import opened Digits
  import opened HttpBody
  import opened HttpNames

  // ----- What may change the length -----

  /** The places where a byte may change contentLength: the first byte of a message, Content-Length digits,
      chunk size digits and bodies. */
  predicate SetsLength(p: Parser) {
    || p.state == StartReq || IsBody(p.state) || p.state == ChunkSizeStart || p.state == ChunkSize
    || (p.state == Value && !NoDigits(p))
    || (BeforeValue(p.state) && p.hs == HeaderState.ContentLength)
  }

  /** No Content-Length is being read. */
  predicate NoDigits(p: Parser) { p.hs != HeaderState.ContentLength && p.hs != ContentLengthNum }

  predicate BeforeValue(s: State) { s == ValueDiscardWs || s == ValueStart || s == ValueLws }

  /** No other byte touches the length, whether it is accepted or not. */
  lemma LengthFrame(p: Parser, ch: Byte)
    requires Inv(p) && !SetsLength(p)
    ensures StepOf(p, ch).next.contentLength == p.contentLength
  {
    hide UrlArm, VersionArm, HeaderArm, ChunkArm, StartArm, FieldArm, ValueArm;
    LineKeepsLength(p, ch);
    if p.state == Value {
      ValueKeepsLength(p, ch);
    } else if IsHeaderState(p.state) {
      HeaderKeepsLength(p, ch);
    }
    FieldKeepsLength(p, ch);
    ChunkKeepsLength(p, ch);
  }

  lemma LineKeepsLength(p: Parser, ch: Byte)
    ensures p.state != StartReq ==> StartArm(p, ch).next.contentLength == p.contentLength
    ensures UrlArm(p, ch).next.contentLength == p.contentLength
    ensures VersionArm(p, ch).next.contentLength == p.contentLength
  {
    hide StartArm, UrlArm, VersionArm;
    StartKeepsLength(p, ch);
    UrlKeepsLength(p, ch);
    VersionKeepsLength(p, ch);
  }

  lemma StartKeepsLength(p: Parser, ch: Byte)
    ensures p.state != StartReq ==> StartArm(p, ch).next.contentLength == p.contentLength
  {
    hide MethodChar, NextMethod, FirstMethod;
  }

  lemma UrlKeepsLength(p: Parser, ch: Byte)
    ensures UrlArm(p, ch).next.contentLength == p.contentLength
  {
    hide ParseUrlChar;
  }

  lemma VersionKeepsLength(p: Parser, ch: Byte)
    ensures VersionArm(p, ch).next.contentLength == p.contentLength
  {}

  lemma FieldKeepsLength(p: Parser, ch: Byte)
    ensures FieldArm(p, ch).next.contentLength == p.contentLength
  {
    hide Token, MatchWord;
  }

  lemma ValueKeepsLength(p: Parser, ch: Byte)
    requires NoDigits(p)
    ensures ValueArm(p, ch).next.contentLength == p.contentLength
  {
    hide MatchWord, TokenStart, IsHeaderChar, Lower, LengthDigit, SetConnectionFlag;
    FlagKeepsLength(p);
  }

  lemma FlagKeepsLength(p: Parser)
    ensures SetConnectionFlag(p).contentLength == p.contentLength
  {}

  lemma HeaderKeepsLength(p: Parser, ch: Byte)
    requires IsHeaderState(p.state) && !(BeforeValue(p.state) && p.hs == HeaderState.ContentLength)
    ensures HeaderArm(p, ch).next.contentLength == p.contentLength
  {
    hide FieldStartArm, HeadersEnd, ValueStartArm, SetConnectionFlag;
    var q := SetConnectionFlag(p).(state := FieldStart);
    FlagKeepsLength(p);
    EndKeepsLength(p, ch);
    EndKeepsLength(q, ch);
    if p.hs != HeaderState.ContentLength {
      ValueStartKeepsLength(p, ch);
    }
    ValueStartKeepsLength(p.(hs := ContentLengthWs), ch);
  }

  lemma ValueStartKeepsLength(p: Parser, ch: Byte)
    requires p.hs != HeaderState.ContentLength
    ensures ValueStartArm(p, ch).next.contentLength == p.contentLength
  {
    hide FirstValueState;
  }

  lemma EndKeepsLength(p: Parser, ch: Byte)
    ensures FieldStartArm(p, ch).next.contentLength == p.contentLength
    ensures HeadersEnd(p, ch).next.contentLength == p.contentLength
  {
    hide Token;
  }

  lemma ChunkKeepsLength(p: Parser, ch: Byte)
    requires p.state != ChunkSizeStart && p.state != ChunkSize
    ensures ChunkArm(p, ch).next.contentLength == p.contentLength
  {}

  // ----- Transfer codings need their header -----

  predicate IsCoding(h: HeaderState) {
    h == TransferEncoding || h == TeTokenStart || h == TeMatchChunked || h == TeToken || h == TeChunked
  }

  /** Inside a header line, where the header state is that of its name. */
  predicate InsideLine(s: State) {
    s == Field || s == ValueDiscardWs || s == ValueDiscardWsAlmostDone || s == ValueDiscardLws || s == ValueStart
    || s == Value || s == HeaderAlmostDone || s == ValueLws
  }

  /** Only a Transfer-Encoding header leads to a coding, and so to the chunked flag. */
  predicate Coded(p: Parser) {
    && (p.flags.chunked ==> p.flags.transferEncoding)
    && (InsideLine(p.state) && IsCoding(p.hs) ==> p.flags.transferEncoding)
  }

  lemma CodedStep(p: Parser, ch: Byte)
    requires Inv(p) && Coded(p) && StepOf(p, ch).next.errno == Ok
    ensures Coded(StepOf(p, ch).next)
  {
    hide UrlArm, VersionArm, HeaderArm, ChunkArm, StartArm, FieldArm, ValueArm, BodyArm, Coded;
    if p.state == Value {
      ValueCoded(p, ch);
    } else if p.state == Field {
      FieldCoded(p, ch);
    } else if IsHeaderState(p.state) {
      HeaderCoded(p, ch);
    } else if IsUrlState(p.state) || p.state == SpacesBeforeUrl {
      UrlCoded(p, ch);
    } else if IsBody(p.state) || IsChunkState(p.state) {
      BodyCoded(p, ch);
    } else if IsVersionState(p.state) {
      VersionCoded(p, ch);
    } else {
      StartCoded(p, ch);
    }
  }

  lemma FieldCoded(p: Parser, ch: Byte)
    requires Inv(p) && Coded(p) && p.state == Field && FieldArm(p, ch).next.errno == Ok
    ensures Coded(FieldArm(p, ch).next)
  {
    hide Token;
  }

  lemma ValueCoded(p: Parser, ch: Byte)
    requires Coded(p) && p.state == Value && p.errno == Ok && ValueArm(p, ch).next.errno == Ok
    ensures Coded(ValueArm(p, ch).next)
  {
    hide IsHeaderChar, ValueChar, Coded;
    CharCoded(p, ch);
    SameCoded(p, HeaderAlmostDone);
    SameCoded(p, ValueLws);
  }

  lemma SameCoded(p: Parser, s: State)
    requires Coded(p) && InsideLine(p.state)
    ensures Coded(p.(state := s))
  {}

  lemma CharCoded(p: Parser, ch: Byte)
    requires Coded(p) && p.state == Value
    ensures Coded(ValueChar(p, ch))
  {
    hide ValueChar;
    CharFlags(p, ch);
    if !IsCoding(p.hs) {
      CharNoCoding(p, ch);
    }
  }

  lemma CharFlags(p: Parser, ch: Byte)
    ensures var f := ValueChar(p, ch).flags;
      f.transferEncoding == p.flags.transferEncoding && f.chunked == p.flags.chunked
  {
    hide Lower, IsNum, MatchWord, TokenStart, AfterConnectionWord;
    if p.hs == ConnKeepAlive || p.hs == ConnClose || p.hs == ConnUpgrade {
      ConnectionFlags(p, ch);
    }
  }

  lemma ConnectionFlags(p: Parser, ch: Byte)
    requires p.hs == ConnKeepAlive || p.hs == ConnClose || p.hs == ConnUpgrade
    ensures var f := AfterConnectionWord(p, ch).flags;
      f.transferEncoding == p.flags.transferEncoding && f.chunked == p.flags.chunked
  {}

  lemma CharNoCoding(p: Parser, ch: Byte)
    requires !IsCoding(p.hs)
    ensures !IsCoding(ValueChar(p, ch).hs)
  {
    hide Lower, IsNum, Token, SetConnectionFlag;
  }

  lemma HeaderCoded(p: Parser, ch: Byte)
    requires Coded(p) && IsHeaderState(p.state) && HeaderArm(p, ch).next.errno == Ok && p.errno == Ok
    ensures Coded(HeaderArm(p, ch).next)
  {
    hide FieldStartArm, HeadersEnd, ValueStartArm, SetConnectionFlag, Coded;
    match p.state
    case FieldStart => EndCoded(p, ch);
    case HeadersAlmostDone => EndCoded(p, ch);
    case ValueLws => LwsCoded(p, ch);
    case ValueDiscardLws => LwsCoded(p, ch);
    case _ =>
      ValueStartCoded(p, ch);
      SameCoded(p, ValueLws);
      SameCoded(p, ValueDiscardLws);
      SameCoded(p, ValueDiscardWsAlmostDone);
  }

  lemma LwsCoded(p: Parser, ch: Byte)
    requires Coded(p) && p.errno == Ok
    ensures p.state == ValueLws && ValueLwsArm(p, ch).next.errno == Ok ==> Coded(ValueLwsArm(p, ch).next)
    ensures p.state == ValueDiscardLws && DiscardLwsArm(p, ch).next.errno == Ok ==> Coded(DiscardLwsArm(p, ch).next)
  {
    hide FieldStartArm, ValueStartArm, SetConnectionFlag, Coded;
    if p.state == ValueLws || p.state == ValueDiscardLws {
      FlagCoded(p);
      EndCoded(SetConnectionFlag(p).(state := FieldStart), ch);
      ValueStartCoded(p, ch);
      LengthIsNoCoding(p);
      ValueStartCoded(p.(hs := ContentLengthWs), ch);
      SameCoded(p, ValueDiscardWs);
    }
  }

  lemma LengthIsNoCoding(p: Parser)
    requires Coded(p)
    ensures Coded(p.(hs := ContentLengthWs))
  {}

  lemma FlagCoded(p: Parser)
    requires Coded(p) && InsideLine(p.state)
    ensures Coded(SetConnectionFlag(p).(state := FieldStart)) && SetConnectionFlag(p).errno == p.errno
  {
    match p.hs
    case ConnKeepAlive =>
    case ConnClose =>
    case ConnUpgrade =>
    case TeChunked =>
    case _ =>
  }

  lemma ValueStartCoded(p: Parser, ch: Byte)
    requires Coded(p) && InsideLine(p.state) && p.errno == Ok
    ensures Coded(ValueStartArm(p, ch).next)
  {
    hide ValueStartArm;
    ValueStartFlags(p, ch);
  }

  lemma ValueStartFlags(p: Parser, ch: Byte)
    ensures var f := ValueStartArm(p, ch).next.flags;
      f.chunked == p.flags.chunked && f.transferEncoding == p.flags.transferEncoding
    ensures IsCoding(ValueStartArm(p, ch).next.hs) ==> IsCoding(p.hs)
  {
    hide ValueStartArm;
    ValueStartCoding(p, ch);
    if p.hs == HeaderState.ContentLength {
      LengthStartFlags(p, ch);
    } else {
      OtherStartFlags(p, ch);
    }
  }

  lemma ValueStartCoding(p: Parser, ch: Byte)
    ensures IsCoding(ValueStartArm(p, ch).next.hs) ==> IsCoding(p.hs)
  {
    hide Lower, IsNum, FirstValueState;
    FirstCoding(p, Lower(ch));
  }

  lemma LengthStartFlags(p: Parser, ch: Byte)
    requires p.hs == HeaderState.ContentLength
    ensures var f := ValueStartArm(p, ch).next.flags; f == p.flags || f == p.flags.(hasLength := true)
  {
    hide Lower, IsNum, FirstValueState;
  }

  lemma OtherStartFlags(p: Parser, ch: Byte)
    requires p.hs != HeaderState.ContentLength
    ensures ValueStartArm(p, ch).next.flags == p.flags.(upgradeHeader := p.flags.upgradeHeader || p.hs == Upgrade)
  {
    hide Lower, IsNum, FirstValueState;
  }

  lemma FirstCoding(p: Parser, c: Byte)
    ensures IsCoding(FirstValueState(p, c)) ==> IsCoding(p.hs)
  {}

  lemma EndCoded(p: Parser, ch: Byte)
    requires Coded(p) && p.errno == Ok && (p.state == FieldStart || p.state == HeadersAlmostDone)
    ensures FieldStartArm(p, ch).next.errno == Ok ==> Coded(FieldStartArm(p, ch).next)
    ensures HeadersEnd(p, ch).next.errno == Ok ==> Coded(HeadersEnd(p, ch).next)
  {
    hide Token;
  }

  lemma UrlCoded(p: Parser, ch: Byte)
    requires Coded(p) && (p.state == SpacesBeforeUrl || IsUrlState(p.state))
    ensures Coded(UrlArm(p, ch).next)
  {
    hide UrlArm, IsUrlState;
    UrlUnchunked(p, ch);
    UrlOutside(p, ch);
  }

  /** Where the URL states lead. */
  lemma UrlGoesOn(p: Parser, ch: Byte)
    requires p.state == SpacesBeforeUrl || IsUrlState(p.state)
    ensures var s := UrlArm(p, ch).next.state;
      IsUrlState(s) || s == SpacesBeforeUrl || s == HttpStart || s == LineAlmostDone || s == FieldStart
  {
    hide ParseUrlChar, IsUrlState, UrlChar;
    if p.state == SpacesBeforeUrl {
      UrlStays(if p.line.verb == HTTP_CONNECT then ServerStart else SpacesBeforeUrl, ch);
    } else {
      UrlCharGoesOn(p, ch);
    }
  }

  lemma UrlCharGoesOn(p: Parser, ch: Byte)
    requires IsUrlState(p.state)
    ensures IsUrlState(UrlChar(p, ch).next.state)
  {
    hide ParseUrlChar, IsUrlState;
    UrlStays(p.state, ch);
  }

  lemma UrlOutside(p: Parser, ch: Byte)
    requires p.state == SpacesBeforeUrl || IsUrlState(p.state)
    ensures !InsideLine(UrlArm(p, ch).next.state)
  {
    hide UrlArm;
    UrlGoesOn(p, ch);
  }

  lemma VersionCoded(p: Parser, ch: Byte)
    requires Coded(p) && IsVersionState(p.state)
    ensures Coded(VersionArm(p, ch).next)
  {
    hide VersionArm;
    VersionMoves(p, ch);
  }

  lemma BodyCoded(p: Parser, ch: Byte)
    requires Coded(p) && p.errno == Ok
    ensures IsBody(p.state) && p.contentLength > 0 ==> Coded(BodyArm(p).next)
    ensures IsChunkState(p.state) && ChunkArm(p, ch).next.errno == Ok ==> Coded(ChunkArm(p, ch).next)
  {
    hide ChunkArm, ShouldKeepAlive;
    if IsChunkState(p.state) {
      ChunkOutside(p, ch);
    }
  }

  lemma ChunkOutside(p: Parser, ch: Byte)
    requires IsChunkState(p.state)
    ensures var q := ChunkArm(p, ch).next;
      !InsideLine(q.state) && q.flags.chunked == p.flags.chunked && q.flags.transferEncoding == p.flags.transferEncoding
  {
    hide Unhex;
  }

  lemma StartCoded(p: Parser, ch: Byte)
    requires Coded(p) && !InsideLine(p.state)
    ensures Coded(StartArm(p, ch).next)
  {
    hide StartArm, InsideLine;
    StartFlags(p, ch);
    OutsideLine();
  }

  lemma StartFlags(p: Parser, ch: Byte)
    ensures var q := StartArm(p, ch).next;
      (q.flags == p.flags || q.flags == NO_FLAGS)
      && (q.state == p.state || q.state == ReqMethod || q.state == SpacesBeforeUrl)
  {
    hide MethodChar, NextMethod, FirstMethod;
  }

  lemma OutsideLine()
    ensures !InsideLine(ReqMethod) && !InsideLine(SpacesBeforeUrl)
  {}

  /** In every run. */
  lemma {:induction false} CodedRun(p: Parser, nread: nat, data: seq<Byte>)
    requires Ready(p, nread) && Coded(p) && Run(p, nread, data).p.errno == Ok
    ensures Coded(Run(p, nread, data).p)
    decreases |data|
  {
    hide RunByte, Ready, Coded;
    if data != [] {
      var o := Run(p, nread, Front(data));
      CodedRun(p, nread, Front(data));
      if Going(o) {
        CodedByte(o.p, o.nread, Last(data));
      }
    }
  }

  lemma CodedByte(p: Parser, nread: nat, ch: Byte)
    requires Ready(p, nread) && Coded(p) && RunByte(p, nread, ch).p.errno == Ok
    ensures Coded(RunByte(p, nread, ch).p)
  {
    hide StepOf, Coded, EventsOf, Resets;
    CodedStep(p, ch);
  }

  // ----- From the Content-Length to the end of the message -----

  predicate HeaderLine(s: State) { s == Field || s == Value || IsHeaderState(s) }

  /** Behind the digits of a Content-Length of v, and still in the headers. */
  predicate InHeaders(p: Parser, v: nat, verb: nat) {
    && HeaderLine(p.state) && p.flags.hasLength && !p.flags.trailing && p.contentLength == v <= MAX_LENGTH
    && p.line.verb == verb && p.errno == Ok && Coded(p)
    && (p.state == Value ==> NoDigits(p))
  }

  /** No message is under way. */
  predicate BetweenMessages(s: State) { s == StartReq || s == Dead }

  /** Where the headers may lead: on in the headers, to a body of v bytes, or, without a body, to the end. */
  predicate Leads(p: Parser, v: nat, verb: nat) {
    || InHeaders(p, v, verb)
    || (p.state == BodyIdentity && p.contentLength == v > 0 && verb != HTTP_CONNECT)
    || (BetweenMessages(p.state) && (v == 0 || verb == HTTP_CONNECT))
  }

  lemma HeadersStep(p: Parser, ch: Byte, v: nat, verb: nat)
    requires Inv(p) && InHeaders(p, v, verb) && StepOf(p, ch).next.errno == Ok
    ensures Leads(StepOf(p, ch).next, v, verb) && (StepOf(p, ch).stop ==> BetweenMessages(StepOf(p, ch).next.state))
  {
    hide HeaderArm, FieldArm, ValueArm, Coded, Leads;
    CodedStep(p, ch);
    LengthFrameInHeaders(p, ch);
    if p.state == Field {
      FieldLeads(p, ch);
    } else if p.state == Value {
      ValueLeads(p, ch);
    } else {
      HeaderLeads(p, ch, v, verb);
    }
    Stays(StepOf(p, ch).next, v, verb);
  }

  lemma Stays(q: Parser, v: nat, verb: nat)
    ensures InHeaders(q, v, verb) ==> Leads(q, v, verb)
  {}

  /** A further Content-Length is refused. */
  lemma LengthFrameInHeaders(p: Parser, ch: Byte)
    requires Inv(p) && HeaderLine(p.state) && p.flags.hasLength && StepOf(p, ch).next.errno == Ok
    requires p.state == Value ==> NoDigits(p)
    ensures StepOf(p, ch).next.contentLength == p.contentLength
  {
    hide UrlArm, VersionArm, ChunkArm, StartArm, FieldArm, ValueArm, FieldStartArm;
    if SetsLength(p) {
      SecondLength(p, ch);
    } else {
      LengthFrame(p, ch);
    }
  }

  lemma SecondLength(p: Parser, ch: Byte)
    requires p.hs == HeaderState.ContentLength && p.flags.hasLength && p.errno == Ok && BeforeValue(p.state)
    requires HeaderArm(p, ch).next.errno == Ok
    ensures HeaderArm(p, ch).next.contentLength == p.contentLength
  {
    hide FieldStartArm, SetConnectionFlag;
    FlagKeepsLength(p);
    EndKeepsLength(SetConnectionFlag(p).(state := FieldStart), ch);
  }

  /** The fields that a header line leaves alone. */
  predicate SameMessage(p: Parser, q: Parser) {
    q.flags.hasLength == p.flags.hasLength && q.flags.trailing == p.flags.trailing && q.line == p.line
        && q.errno == p.errno
  }

  lemma FieldLeads(p: Parser, ch: Byte)
    requires p.state == Field && p.errno == Ok && FieldArm(p, ch).next.errno == Ok
    ensures var s := FieldArm(p, ch);
      SameMessage(p, s.next) && (s.next.state == Field || s.next.state == ValueDiscardWs) && !s.stop
  {
    hide Token, MatchWord;
  }

  lemma ValueLeads(p: Parser, ch: Byte)
    requires p.state == Value && p.errno == Ok && ValueArm(p, ch).next.errno == Ok
    requires NoDigits(p)
    ensures var s := ValueArm(p, ch); SameMessage(p, s.next) && HeaderLine(s.next.state) && !s.stop && NoDigits(s.next)
  {
    hide IsHeaderChar, ValueChar;
    CharLeads(p, ch);
  }

  lemma CharLeads(p: Parser, ch: Byte)
    requires p.state == Value && NoDigits(p)
    ensures var q := ValueChar(p, ch); q.state == Value && (q.errno == p.errno ==> SameMessage(p, q)) && NoDigits(q)
  {
    hide Lower, IsNum, Token;
  }

  lemma HeaderLeads(p: Parser, ch: Byte, v: nat, verb: nat)
    requires InHeaders(p, v, verb) && IsHeaderState(p.state) && HeaderArm(p, ch).next.errno == Ok
    requires HeaderArm(p, ch).next.contentLength == v && Coded(HeaderArm(p, ch).next)
    ensures var s := HeaderArm(p, ch); Leads(s.next, v, verb) && (s.stop ==> BetweenMessages(s.next.state))
  {
    hide FieldStartArm, HeadersEnd, ValueLwsArm, DiscardLwsArm, ValueStartArm, Leads, Coded;
    match p.state
    case FieldStart => FieldStartLeads(p, ch, v, verb);
    case HeadersAlmostDone => EndLeads(p, ch, v, verb);
    case ValueLws => LwsLeads(p, ch, v, verb);
    case ValueDiscardLws => LwsLeads(p, ch, v, verb);
    case _ =>
      ValueStartLeads(p, ch);
      Stays(HeaderArm(p, ch).next, v, verb);
  }

  lemma ValueStartLeads(p: Parser, ch: Byte)
    requires p.errno == Ok && p.flags.hasLength
    ensures var s := ValueStartArm(p, ch);
      s.next.errno == Ok ==> SameMessage(p, s.next) && s.next.state == Value && !s.stop && NoDigits(s.next)
  {
    hide Lower, IsNum;
  }

  /** The end of the headers: a body follows exactly if the length is not 0 and the method not CONNECT. */
  lemma EndLeads(p: Parser, ch: Byte, v: nat, verb: nat)
    requires p.flags.hasLength && !p.flags.trailing && p.contentLength == v <= MAX_LENGTH && p.line.verb == verb
    requires p.errno == Ok
    requires Coded(p) && HeadersEnd(p, ch).next.errno == Ok
    ensures var s := HeadersEnd(p, ch); Leads(s.next, v, verb) && (s.stop ==> BetweenMessages(s.next.state))
  {
    hide InHeaders, ShouldKeepAlive;
  }

  lemma FieldStartLeads(p: Parser, ch: Byte, v: nat, verb: nat)
    requires InHeaders(p, v, verb) && p.state == FieldStart && FieldStartArm(p, ch).next.errno == Ok
    requires Coded(FieldStartArm(p, ch).next)
    ensures var s := FieldStartArm(p, ch); Leads(s.next, v, verb) && (s.stop ==> BetweenMessages(s.next.state))
  {
    hide Token, HeadersEnd, Leads, Coded;
    if ch == LF {
      EndLeads(p, ch, v, verb);
    } else {
      Stays(FieldStartArm(p, ch).next, v, verb);
    }
  }

  lemma LwsLeads(p: Parser, ch: Byte, v: nat, verb: nat)
    requires InHeaders(p, v, verb) && (p.state == ValueLws || p.state == ValueDiscardLws)
    requires HeaderArm(p, ch).next.errno == Ok && HeaderArm(p, ch).next.contentLength == v
    requires Coded(HeaderArm(p, ch).next)
    ensures var s := HeaderArm(p, ch); Leads(s.next, v, verb) && (s.stop ==> BetweenMessages(s.next.state))
  {
    hide FieldStartArm, ValueStartArm, SetConnectionFlag, Leads, Coded;
    var q := SetConnectionFlag(p).(state := FieldStart);
    FlagCoded(p);
    FlagLeads(p);
    FlagKeepsLength(p);
    if ch == SPACE || ch == TAB {
      if p.state == ValueLws {
        ValueStartLeads(if p.hs == ContentLengthNum then p.(hs := ContentLengthWs) else p, ch);
      }
      Stays(HeaderArm(p, ch).next, v, verb);
    } else {
      FieldStartLeads(q, ch, v, verb);
    }
  }

  lemma FlagLeads(p: Parser)
    ensures SameMessage(p, SetConnectionFlag(p))
  {
    match p.hs
    case ConnKeepAlive =>
    case ConnClose =>
    case ConnUpgrade =>
    case TeChunked =>
    case _ =>
  }

  // ----- The body of a message -----

  /** How far a message with a Content-Length of v has come. */
  predicate Progress(o: Outcome, v: nat, verb: nat) {
    && (o.stop ==> BetweenMessages(o.p.state))
    && (|| (InHeaders(o.p, v, verb) && BodyBytes(o.events) == 0)
        || (o.p.state == BodyIdentity && verb != HTTP_CONNECT && BodyBytes(o.events) + o.p.contentLength == v)
        || (BetweenMessages(o.p.state) && BodyBytes(o.events) == if verb == HTTP_CONNECT then 0 else v))
  }

  lemma ProgressByte(o: Outcome, v: nat, verb: nat, ch: Byte)
    requires Ready(o.p, o.nread) && Progress(o, v, verb) && !BetweenMessages(o.p.state)
    requires RunByte(o.p, o.nread, ch).p.errno == Ok
    ensures Progress(Prepend(o, RunByte(o.p, o.nread, ch)), v, verb)
  {
    hide StepOf, InHeaders, EventsOf, BodyBytes, Resets, Inv, Leads;
    var r := RunByte(o.p, o.nread, ch);
    InvOk(o.p, o.nread);
    BodyBytesConcat(o.events, r.events);
    StepBodyBytes(o.p, ch);
    if InHeaders(o.p, v, verb) {
      NoBody(o.p, v, verb);
      HeadersStep(o.p, ch, v, verb);
      LeadsTo(r.p, v, verb);
    } else {
      BodyStep(o.p, ch);
    }
  }

  lemma NoBody(p: Parser, v: nat, verb: nat)
    requires InHeaders(p, v, verb)
    ensures !IsBody(p.state)
  {}

  lemma LeadsTo(p: Parser, v: nat, verb: nat)
    requires Leads(p, v, verb)
    ensures || InHeaders(p, v, verb)
            || (p.state == BodyIdentity && p.contentLength == v > 0 && verb != HTTP_CONNECT)
            || (BetweenMessages(p.state) && (v == 0 || verb == HTTP_CONNECT))
  {
    hide InHeaders;
  }

  lemma BodyStep(p: Parser, ch: Byte)
    requires Inv(p) && p.state == BodyIdentity
    ensures var s := StepOf(p, ch);
      if p.contentLength > 1 then s.next == p.(contentLength := p.contentLength - 1) && !s.stop
          else BetweenMessages(s.next.state)
  {}

  /** All proper prefixes of d leave the message under way. */
  ghost predicate UnderWay(p: Parser, nread: nat, d: seq<Byte>)
    requires Ready(p, nread)
  {
    forall k :: 0 <= k < |d| ==> !BetweenMessages(Run(p, nread, d[..k]).p.state)
  }

  lemma {:induction false} MessageRun(p: Parser, nread: nat, d: seq<Byte>, v: nat, verb: nat)
    requires Ready(p, nread) && InHeaders(p, v, verb) && UnderWay(p, nread, d) && Run(p, nread, d).p.errno == Ok
    ensures Progress(Run(p, nread, d), v, verb)
    decreases |d|
  {
    hide RunByte, Ready, InHeaders, Progress, BodyBytes;
    if d == [] {
      AtHeaders(p, nread, v, verb);
    } else {
      var e := Front(d);
      assert UnderWay(p, nread, e) by {
        forall k | 0 <= k < |e|
          ensures !BetweenMessages(Run(p, nread, e[..k]).p.state)
        {
          assert e[..k] == d[..k];
        }
      }
      var o := Run(p, nread, e);
      assert e == d[..|d| - 1];
      MessageRun(p, nread, e, v, verb);
      NotStopped(o, v, verb);
      ProgressByte(o, v, verb, Last(d));
    }
  }

  lemma NotStopped(o: Outcome, v: nat, verb: nat)
    requires Progress(o, v, verb) && !BetweenMessages(o.p.state)
    ensures !o.stop
  {}

  lemma AtHeaders(p: Parser, nread: nat, v: nat, verb: nat)
    requires InHeaders(p, v, verb)
    ensures Progress(Outcome(p, nread, [], 0, false), v, verb)
  {}

  // ----- From the digits to the body -----

  /** The byte behind the digits of a Content-Length. */
  lemma BehindDigits(p: Parser, nread: nat, ch: Byte, v: nat)
    requires Ready(p, nread) && p.state == Value && p.hs == ContentLengthNum && p.contentLength == v <= MAX_LENGTH
    requires p.flags.hasLength && !p.flags.trailing && Coded(p) && !IsNum(ch) && RunByte(p, nread, ch).p.errno == Ok
    ensures var o := RunByte(p, nread, ch); InHeaders(o.p, v, p.line.verb) && !o.stop && BodyBytes(o.events) == 0
  {
    hide StepOf, EventsOf, BodyBytes, Resets, Coded;
    StepBodyBytes(p, ch);
    CodedStep(p, ch);
    DigitsEnd(p, ch);
  }

  lemma DigitsEnd(p: Parser, ch: Byte)
    requires p.state == Value && p.hs == ContentLengthNum && !IsNum(ch) && p.errno == Ok
    requires StepOf(p, ch).next.errno == Ok
    ensures var s := StepOf(p, ch);
      SameMessage(p, s.next) && HeaderLine(s.next.state) && !s.stop && (s.next.state == Value ==> NoDigits(s.next))
      && s.next.contentLength == p.contentLength
  {
    hide IsHeaderChar, ValueChar;
    NoMoreDigits(p, ch);
  }

  lemma NoMoreDigits(p: Parser, ch: Byte)
    requires p.hs == ContentLengthNum && !IsNum(ch)
    ensures ValueChar(p, ch) == if ch == SPACE then p.(hs := ContentLengthWs) else p.(errno := InvalidContentLength)
  {}

  lemma {:induction false} ValueHasNoBody(kind: Kind, d: seq<Byte>)
    requires kind != BodyData
    ensures BodyBytes(BytesOf(kind, d)) == 0
    decreases |d|
  {
    hide BodyBytes;
    if d == [] {
      NoBytes();
    } else {
      ValueHasNoBody(kind, Front(d));
      OneByte(kind, Last(d));
      BodyBytesConcat(BytesOf(kind, Front(d)), [Event.Byte(kind, Last(d))]);
    }
  }

  /** More digits than the header limit leaves room for are refused. */
  lemma DigitsWithinLimit(p: Parser, nread: nat, d: seq<Byte>)
    requires Ready(p, nread) && p.state == ValueDiscardWs && p.hs == HeaderState.ContentLength && !p.flags.hasLength
    requires AreDigits(10, d) && nread + |d| > MAX_HEADER_SIZE
    ensures Run(p, nread, d).p.errno != Ok
  {
    hide RunByte, Ready, Run, ValueOf, BytesOf, Ran, AreDigits;
    InvOk(p, nread);
    var k := MAX_HEADER_SIZE - nread;
    assert d == d[..k] + ([d[k]] + d[k + 1..]);
    if k > 0 {
      SomeDigits(d, k);
      ContentLengthHeader(p, nread, d[..k]);
      var v := ValueOf(10, d[..k]);
      if v <= MAX_LENGTH {
        OverflowsBehind(p, nread, d[..k], WithLength(p, v), BytesOf(ValueData, d[..k]), d[k], d[k + 1..]);
      } else {
        FailsEarly(p, nread, d[..k], [d[k]] + d[k + 1..]);
      }
    } else {
      assert d[..k] == [];
      RanNothing(p, nread);
      OverflowsBehind(p, nread, [], p, [], d[k], d[k + 1..]);
    }
  }

  lemma SomeDigits(d: seq<Byte>, k: nat)
    requires AreDigits(10, d) && k <= |d|
    ensures AreDigits(10, d[..k])
  {}

  /** A byte of a header that comes when the limit is reached. */
  lemma OverflowsBehind(p: Parser, nread: nat, a: seq<Byte>, q: Parser, e: seq<Event>, ch: Byte, rest: seq<Byte>)
    requires Ready(p, nread) && Ran(p, nread, a, q, MAX_HEADER_SIZE, e) && Counts(q.state)
    ensures Run(p, nread, a + ([ch] + rest)).p.errno != Ok
  {
    hide RunByte, Ready, Run, Ran, Counts;
    RanReady(p, nread, a, q, MAX_HEADER_SIZE, e);
    RunSplit(p, nread, a, [ch] + rest);
    ByteOverflows(q, ch);
    RunOne(q, MAX_HEADER_SIZE, ch);
    RunSplit(q, MAX_HEADER_SIZE, [ch], rest);
  }

  lemma RanReady(p: Parser, n: nat, d: seq<Byte>, q: Parser, m: nat, e: seq<Event>)
    requires Ready(p, n) && Ran(p, n, d, q, m, e)
    ensures Run(p, n, d) == Outcome(q, m, e, |d|, false) && q.errno == Ok && Ready(q, m)
  {
    hide Run, Ready;
  }

  /** A message is under way behind the whole of a and on through b. */
  lemma UnderWayBehind(p: Parser, nread: nat, a: seq<Byte>, b: seq<Byte>, o: Outcome)
    requires Ready(p, nread) && UnderWay(p, nread, a + b) && o == Run(p, nread, a) && Going(o)
    ensures UnderWay(o.p, o.nread, b)
  {
    hide Run, Ready;
    forall k | 0 <= k < |b|
      ensures !BetweenMessages(Run(o.p, o.nread, b[..k]).p.state)
    {
      assert (a + b)[..|a| + k] == a + b[..k];
      RunSplit(p, nread, a, b[..k]);
    }
  }

  /** The digits of a Content-Length and what follows them to the end of the message: exactly as many body
      bytes are delivered as the digits say, and none for CONNECT. */
  lemma DigitsDecide(p: Parser, nread: nat, d: seq<Byte>, r: seq<Byte>)
    requires Ready(p, nread) && p.state == ValueDiscardWs && p.hs == HeaderState.ContentLength && Coded(p)
    requires !p.flags.hasLength && !p.flags.trailing
    requires d != [] && AreDigits(10, d) && r != [] && !IsNum(r[0])
    requires Run(p, nread, d + r).p.errno == Ok && UnderWay(p, nread, d + r)
    requires BetweenMessages(Run(p, nread, d + r).p.state)
    ensures ValueOf(10, d) <= MAX_LENGTH
    ensures BodyBytes(Run(p, nread, d + r).events) == if p.line.verb == HTTP_CONNECT then 0 else ValueOf(10, d)
  {
    hide Run, RunByte, Ready, ValueOf, BytesOf, Ran, BodyBytes, Coded, InHeaders, Progress, UnderWay;
    RunSplit(p, nread, d, r);
    if nread + |d| > MAX_HEADER_SIZE {
      DigitsWithinLimit(p, nread, d);
    }
    ContentLengthHeader(p, nread, d);
    var v, e := ValueOf(10, d), BytesOf(ValueData, d);
    var q, m := WithLength(p, v), nread + |d|;
    RanReady(p, nread, d, q, m, e);
    LengthCoded(p, v);
    UnderWayBehind(p, nread, d, r, Run(p, nread, d));
    AfterDigits(q, m, r, v);
    ValueHasNoBody(ValueData, d);
    BodyBytesConcat(e, Run(q, m, r).events);
  }

  lemma LengthCoded(p: Parser, v: nat)
    requires Coded(p)
    ensures Coded(WithLength(p, v))
  {}

  lemma AfterDigits(q: Parser, m: nat, r: seq<Byte>, v: nat)
    requires Ready(q, m) && q.state == Value && q.hs == ContentLengthNum && q.contentLength == v <= MAX_LENGTH
    requires q.flags.hasLength && !q.flags.trailing && Coded(q) && r != [] && !IsNum(r[0])
    requires Run(q, m, r).p.errno == Ok && UnderWay(q, m, r) && BetweenMessages(Run(q, m, r).p.state)
    ensures BodyBytes(Run(q, m, r).events) == if q.line.verb == HTTP_CONNECT then 0 else v
  {
    hide Run, RunByte, Ready, BodyBytes, Coded, UnderWay;
    var verb := q.line.verb;
    assert r == [r[0]] + r[1..];
    RunOne(q, m, r[0]);
    RunSplit(q, m, [r[0]], r[1..]);
    BehindDigits(q, m, r[0], v);
    var o := RunByte(q, m, r[0]);
    UnderWayBehind(q, m, [r[0]], r[1..], o);
    MessageRun(o.p, o.nread, r[1..], v, verb);
    AtTheEnd(Run(o.p, o.nread, r[1..]), v, verb);
    BodyBytesConcat(o.events, Run(o.p, o.nread, r[1..]).events);
  }

  lemma AtTheEnd(o: Outcome, v: nat, verb: nat)
    requires Progress(o, v, verb) && BetweenMessages(o.p.state)
    ensures BodyBytes(o.events) == if verb == HTTP_CONNECT then 0 else v
  {
    hide BodyBytes;
  }

  // ----- The header line -----

  /** A name that means Content-Length, in any case of letters. */
  predicate NamesLength(name: seq<Byte>) {
    name != [] && Tokens(name) && Spells(Lowered(name), "content-length")
  }

  lemma NamedLength(name: seq<Byte>)
    requires NamesLength(name)
    ensures Recognised(Lowered(name)) == HeaderState.ContentLength && !LongEnough(Lowered(name))
  {
    var l := Lowered(name);
    OneWord(l);
    assert l[3] == 116;
  }

  lemma {:induction false} NameFrame(q: Parser, d: seq<Byte>)
    ensures SameMessage(q, FieldChars(q, d))
    decreases |d|
  {
    hide FieldChar;
    if d != [] {
      NameFrame(q, Front(d));
      CharFrame(FieldChars(q, Front(d)), Token(Last(d)));
    }
  }

  lemma CharFrame(q: Parser, c: Byte)
    ensures SameMessage(q, FieldChar(q, c))
  {
    hide MatchWord;
  }

  /** Before the digits of the first Content-Length of a message. */
  predicate BeforeDigits(p: Parser, s: State, line: RequestLine) {
    && p.state == s && p.hs == HeaderState.ContentLength && !p.flags.hasLength && !p.flags.trailing && p.line == line
    && Coded(p)
  }

  lemma AfterName(p: Parser, nread: nat, name: seq<Byte>)
    requires Ready(p, nread) && p.state == FieldStart && Coded(p) && !p.flags.hasLength && !p.flags.trailing
    requires NamesLength(name) && Run(p, nread, name).p.errno == Ok
    ensures var o := Run(p, nread, name); Going(o) && BeforeDigits(o.p, Field, p.line) && BodyBytes(o.events) == 0
  {
    hide Run, RunByte, Ready, BytesOf, Ran, BodyBytes, Coded, FieldChars, Tokens, Lowered, Spells;
    if nread + |name| > MAX_HEADER_SIZE {
      NameWithinLimit(p, nread, name);
    }
    HeaderName(p, nread, name);
    NamedLength(name);
    NameRan(p, nread, name);
    var q := AfterFirst(p, name[0]);
    InvOk(p, nread);
    TailTokens(name);
    FirstFrame(p, name[0]);
    NameFrame(q, name[1..]);
    RanReady(p, nread, name, FieldChars(q, name[1..]), nread + |name|, BytesOf(FieldData, name));
    CodedRun(p, nread, name);
    ValueHasNoBody(FieldData, name);
  }

  lemma FirstFrame(p: Parser, ch: Byte)
    requires p.state == FieldStart && p.errno == Ok && Token(ch) != 0
    ensures SameMessage(p, AfterFirst(p, ch))
  {}

  /** Names longer than the header limit leaves room for are refused. */
  lemma NameWithinLimit(p: Parser, nread: nat, name: seq<Byte>)
    requires Ready(p, nread) && p.state == FieldStart && Tokens(name) && nread + |name| > MAX_HEADER_SIZE
    ensures Run(p, nread, name).p.errno != Ok
  {
    hide RunByte, Ready, Run, BytesOf, Ran, FieldChars, Lowered, Tokens;
    InvOk(p, nread);
    var k := MAX_HEADER_SIZE - nread;
    assert name == name[..k] + ([name[k]] + name[k + 1..]);
    if k > 0 {
      var a := name[..k];
      SomeTokens(name, k);
      HeaderName(p, nread, a);
      NameRan(p, nread, a);
      RanReady(p, nread, a, FieldChars(AfterFirst(p, a[0]), a[1..]), MAX_HEADER_SIZE, BytesOf(FieldData, a));
      OverflowsBehind(p, nread, a, FieldChars(AfterFirst(p, a[0]), a[1..]), BytesOf(FieldData, a), name[k],
                      name[k + 1..]);
    } else {
      assert name[..k] == [];
      RanNothing(p, nread);
      OverflowsBehind(p, nread, [], p, [], name[k], name[k + 1..]);
    }
  }

  lemma SomeTokens(d: seq<Byte>, k: nat)
    requires Tokens(d) && k <= |d|
    ensures Tokens(d[..k])
  {}

  lemma ColonByte(p: Parser, nread: nat, line: RequestLine)
    requires Ready(p, nread) && BeforeDigits(p, Field, line) && RunByte(p, nread, COLON).p.errno == Ok
    ensures var o := RunByte(p, nread, COLON);
      Going(o) && BeforeDigits(o.p, ValueDiscardWs, line) && BodyBytes(o.events) == 0
  {
    hide BodyBytes, Coded, EventsOf;
    StepBodyBytes(p, COLON);
    CodedStep(p, COLON);
  }

  lemma BlankByte(p: Parser, nread: nat, ch: Byte, line: RequestLine)
    requires Ready(p, nread) && BeforeDigits(p, ValueDiscardWs, line) && (ch == SPACE || ch == TAB)
    requires RunByte(p, nread, ch).p.errno == Ok
    ensures var o := RunByte(p, nread, ch);
      Going(o) && BeforeDigits(o.p, ValueDiscardWs, line) && BodyBytes(o.events) == 0
  {
    hide BodyBytes, Coded, EventsOf;
    StepBodyBytes(p, ch);
    CodedStep(p, ch);
  }

  predicate Blanks(d: seq<Byte>) { forall i :: 0 <= i < |d| ==> d[i] == SPACE || d[i] == TAB }

  lemma {:induction false} BlankRun(p: Parser, nread: nat, d: seq<Byte>, line: RequestLine)
    requires Ready(p, nread) && BeforeDigits(p, ValueDiscardWs, line) && Blanks(d) && Run(p, nread, d).p.errno == Ok
    ensures var o := Run(p, nread, d); Going(o) && BeforeDigits(o.p, ValueDiscardWs, line) && BodyBytes(o.events) == 0
    decreases |d|
  {
    hide RunByte, Ready, BodyBytes, BeforeDigits;
    NoBytes();
    if d != [] {
      BlankRun(p, nread, Front(d), line);
      var o := Run(p, nread, Front(d));
      assert Last(d) == d[|d| - 1];
      BlankByte(o.p, o.nread, Last(d), line);
      BodyBytesConcat(o.events, RunByte(o.p, o.nread, Last(d)).events);
    }
  }

  /** The name, the colon and the blanks of a header line. */
  function LineStart(name: seq<Byte>, blanks: seq<Byte>): seq<Byte> { name + ([COLON] + blanks) }

  lemma LineStartRun(p: Parser, nread: nat, name: seq<Byte>, blanks: seq<Byte>)
    requires Ready(p, nread) && p.state == FieldStart && Coded(p) && !p.flags.hasLength && !p.flags.trailing
    requires NamesLength(name) && Blanks(blanks) && Run(p, nread, LineStart(name, blanks)).p.errno == Ok
    ensures var o := Run(p, nread, LineStart(name, blanks));
      Going(o) && BeforeDigits(o.p, ValueDiscardWs, p.line) && BodyBytes(o.events) == 0
  {
    hide Run, RunByte, Ready, BodyBytes, Coded, BeforeDigits, NamesLength, Blanks;
    RunSplit(p, nread, name, [COLON] + blanks);
    AfterName(p, nread, name);
    var o := Run(p, nread, name);
    RunSplit(o.p, o.nread, [COLON], blanks);
    RunOne(o.p, o.nread, COLON);
    ColonByte(o.p, o.nread, p.line);
    var c := RunByte(o.p, o.nread, COLON);
    BlankRun(c.p, c.nread, blanks, p.line);
    var b := Run(c.p, c.nread, blanks);
    BodyBytesConcat(c.events, b.events);
    BodyBytesConcat(o.events, c.events + b.events);
  }

  /** A message with a Content-Length line, whatever headers stand around it: if it is accepted, the number of
      body bytes delivered up to its end is the decimal value of the digits, and none for CONNECT. */
  lemma DeclaredBody(p: Parser, nread: nat, name: seq<Byte>, blanks: seq<Byte>, d: seq<Byte>, r: seq<Byte>)
    requires Ready(p, nread) && p.state == FieldStart && Coded(p) && !p.flags.hasLength && !p.flags.trailing
    requires NamesLength(name) && Blanks(blanks) && d != [] && AreDigits(10, d) && r != [] && !IsNum(r[0])
    requires var o := Run(p, nread, LineStart(name, blanks) + (d + r)); o.p.errno == Ok && BetweenMessages(o.p.state)
    requires UnderWay(p, nread, LineStart(name, blanks) + (d + r))
    ensures var o := Run(p, nread, LineStart(name, blanks) + (d + r));
      BodyBytes(o.events) == if p.line.verb == HTTP_CONNECT then 0 else ValueOf(10, d)
  {
    hide Run, RunByte, Ready, BodyBytes, Coded, NamesLength, Blanks, ValueOf, AreDigits, UnderWay, LineStart;
    var a := LineStart(name, blanks);
    RunSplit(p, nread, a, d + r);
    LineStartRun(p, nread, name, blanks);
    var o := Run(p, nread, a);
    UnderWayBehind(p, nread, a, d + r, o);
    DigitsDecide(o.p, o.nread, d, r);
    BodyBytesConcat(o.events, Run(o.p, o.nread, d + r).events);
  }
}
