/** The request parser one byte at a time: the events each byte causes and what every reachable
    parser state satisfies. */
module HttpBytewise {
  import opened Sequences
  import opened HttpChars
  import opened HttpArms

  /** A byte that belongs to a slice of the given kind, or a notification. */
  datatype Event = Byte(kind: Kind, b: Byte) | Note(notice: Notice)

  // ----- Slice marks -----

  /** The mark that http_parser_execute sets before its first byte in a state. */
  function MarkOf(s: State): Option<Kind> {
    if s == Field then Some(FieldData)
    else if s == Value then Some(ValueData)
    else if IsUrlState(s) then Some(UrlData)
    else None
  }

  /** The mark set after some acts, if they keep to one mark at a time and notify under none. */
  function After(acts: Acts, k: Option<Kind>): Option<Option<Kind>> {
    match acts
    case Done => Some(k)
    case Mark(j, rest) => if k == None || k == Some(j) then After(rest, Some(j)) else None
    case Flush(j, rest) => if k == None || k == Some(j) then After(rest, None) else None
    case Notify(_, rest) => if k == None then After(rest, None) else None
  }

  function Notes(acts: Acts): seq<Event> {
    match acts
    case Done => []
    case Mark(_, rest) => Notes(rest)
    case Flush(_, rest) => Notes(rest)
    case Notify(n, rest) => [Note(n)] + Notes(rest)
  }

  // ----- One byte -----

  /** The arms of the states that consume runs of bytes, on a single byte. */
  function BulkArm(p: Parser, ch: Byte): Step
    requires p.state == Field || p.state == Value
  {
    if p.state == Field then FieldArm(p, ch) else ValueArm(p, ch)
  }

  /** s_body_identity and s_chunk_data on a single byte */
  function BodyArm(p: Parser): Step
    requires p.contentLength > 0
  {
    var q := p.(contentLength := p.contentLength - 1);
    if q.contentLength > 0 then Stay(q)
    else if p.state == ChunkData then Go(q, ChunkDataAlmostDone)
    else MessageEnd(q)
  }

  function StepOf(p: Parser, ch: Byte): Step
    requires IsBody(p.state) ==> p.contentLength > 0
  {
    if IsBody(p.state) then BodyArm(p) else if IsBulk(p.state) then BulkArm(p, ch) else Arm(p, ch)
  }

  /** The byte itself, if a mark is set after it. */
  function InSlice(mark: Option<Option<Kind>>, ch: Byte): seq<Event> {
    if mark.Some? && mark.value.Some? then [Byte(mark.value.value, ch)] else []
  }

  /** The events of one byte: its notifications and, at the end, the byte itself if it lies in a slice. */
  function EventsOf(p: Parser, ch: Byte): seq<Event>
    requires IsBody(p.state) ==> p.contentLength > 0
  {
    var s := StepOf(p, ch);
    if IsBody(p.state) then [Byte(BodyData, ch)] + Notes(s.acts)
    else
      Notes(s.acts) + if s.next.errno == Ok then InSlice(After(s.acts, MarkOf(p.state)), ch) else []
  }

  // ----- Reachable states -----

  predicate IsFieldState(h: HeaderState) {
    h == General || h == HC || h == HCO || h == HCON || h == MatchConnection || h == MatchProxyConnection
    || h == MatchContentLength || h == MatchTransferEncoding || h == MatchUpgrade
    || h == Connection || h == ContentLength || h == TransferEncoding || h == Upgrade
  }

  /** Largest accepted Content-Length and chunk size. */
  const MAX_LENGTH: nat := 0x1_0000_0000_0000_0000 - 7
  const MAX_CHUNK: nat := 0x1_0000_0000_0000_0000 - 17

  /** What the assertions of http_parser_execute rely on. */
  predicate Inv(p: Parser) {
    && p.errno == Ok
    && (p.contentLength <= MAX_LENGTH || p.contentLength == U64_MAX)
    && (IsChunkState(p.state) || p.state == ChunkData ==>
        p.flags.chunked && (p.state != ChunkSizeStart ==> p.contentLength <= MAX_CHUNK))
    && (p.state == ChunkDataAlmostDone ==> p.contentLength == 0)
    && (IsBody(p.state) ==> 0 < p.contentLength <= MAX_LENGTH)
    && (p.state == Field ==> IsFieldState(p.hs))
    && (p.state == Value ==> p.hs != Connection && p.hs != TransferEncoding)
  }

  /** An arm keeps the invariant and handles the marks as the states say. */
  predicate Sound(s: Step, k: Option<Kind>) {
    After(s.acts, k).Some? && (s.next.errno == Ok ==> Inv(s.next) && After(s.acts, k) == Some(MarkOf(s.next.state)))
  }

  lemma StartSound(p: Parser, ch: Byte)
    requires Inv(p) && (p.state == Dead || p.state == StartReq || p.state == ReqMethod)
    ensures Sound(StartArm(p, ch), None)
  {
    hide MethodChar, NextMethod, FirstMethod;
  }

  lemma UrlStays(s: State, ch: Byte)
    ensures var t := ParseUrlChar(s, ch); t == Dead || IsUrlState(t)
  {}

  lemma UrlSound(p: Parser, ch: Byte)
    requires Inv(p) && (p.state == SpacesBeforeUrl || IsUrlState(p.state))
    ensures Sound(UrlArm(p, ch), MarkOf(p.state))
  {
    hide ParseUrlChar, Inv, IsChunkState, UrlChar;
    if p.state == SpacesBeforeUrl {
      var s := ParseUrlChar(if p.line.verb == HTTP_CONNECT then ServerStart else SpacesBeforeUrl, ch);
      UrlStays(if p.line.verb == HTTP_CONNECT then ServerStart else SpacesBeforeUrl, ch);
      if s != Dead {
        UrlMoves(p, s, p.line);
      }
    } else {
      UrlCharSound(p, ch);
      UrlMoves(p, HttpStart, p.line);
      UrlMoves(p, LineAlmostDone, p.line.(major := 0, minor := 9));
      UrlMoves(p, FieldStart, p.line.(major := 0, minor := 9));
    }
  }

  lemma UrlMoves(p: Parser, s: State, line: RequestLine)
    requires Inv(p) && (IsUrlState(s) || s == HttpStart || s == LineAlmostDone || s == FieldStart)
    ensures Inv(p.(state := s)) && Inv(p.(state := s, line := line))
  {}

  lemma UrlCharSound(p: Parser, ch: Byte)
    requires Inv(p) && IsUrlState(p.state)
    ensures Sound(UrlChar(p, ch), Some(UrlData))
  {
    hide ParseUrlChar, Inv;
    UrlStays(p.state, ch);
    var s := ParseUrlChar(p.state, ch);
    if s != Dead {
      UrlMoves(p, s, p.line);
    }
  }

  /** The version states only move on. */
  lemma VersionMoves(p: Parser, ch: Byte)
    requires IsVersionState(p.state)
    ensures var s := VersionArm(p, ch);
      s.acts == Done && s.next == p.(state := s.next.state, line := s.next.line, errno := s.next.errno)
      && (IsVersionState(s.next.state) || s.next.state == FieldStart)
  {}

  lemma VersionSound(p: Parser, ch: Byte)
    requires Inv(p) && IsVersionState(p.state)
    ensures Sound(VersionArm(p, ch), None)
  {
    hide VersionArm;
    VersionMoves(p, ch);
  }

  lemma MessageEndSound(p: Parser)
    requires Inv(p)
    ensures Sound(MessageEnd(p), None)
  {}

  lemma BodyStartSound(p: Parser)
    requires Inv(p)
    ensures Sound(BodyStart(p), None)
  {}

  lemma HeadersEndSound(p: Parser, ch: Byte)
    requires Inv(p)
    ensures Sound(HeadersEnd(p, ch), None)
  {
    MessageEndSound(p);
    BodyStartSound(p.(upgrade := (p.flags.upgradeHeader && p.flags.connUpgrade) || p.line.verb == HTTP_CONNECT));
  }

  lemma FieldStartSound(p: Parser, ch: Byte)
    requires Inv(p)
    ensures Sound(FieldStartArm(p, ch), None)
  {
    hide HeadersEnd, Token;
    HeadersEndSound(p, ch);
  }

  lemma ValueStartSound(p: Parser, ch: Byte)
    requires Inv(p)
    ensures Sound(ValueStartArm(p, ch), None)
  {}

  lemma ValueLwsSound(p: Parser, ch: Byte)
    requires Inv(p) && p.state == ValueLws
    ensures Sound(ValueLwsArm(p, ch), None)
  {
    hide Inv, ValueStartArm, FieldStartArm, SetConnectionFlag, Sound;
    LineInv(p);
    ValueStartSound(p, ch);
    ValueStartSound(p.(hs := ContentLengthWs), ch);
    FieldStartSound(SetConnectionFlag(p).(state := FieldStart), ch);
  }

  /** The end of a header line keeps the invariant. */
  lemma LineInv(p: Parser)
    requires Inv(p) && IsHeaderState(p.state)
    ensures Inv(SetConnectionFlag(p).(state := FieldStart)) && Inv(p.(hs := ContentLengthWs))
  {}

  lemma EmptyAfter(acts: Acts)
    ensures After(Mark(ValueData, Flush(ValueData, acts)), None) == After(acts, None)
    ensures After(Done, None) == Some(None)
  {}

  lemma DiscardWsInv(p: Parser)
    requires Inv(p) && p.state == ValueDiscardLws
    ensures Inv(p.(state := ValueDiscardWs))
  {}

  lemma DiscardLwsSound(p: Parser, ch: Byte)
    requires Inv(p) && p.state == ValueDiscardLws
    ensures Sound(DiscardLwsArm(p, ch), None)
  {
    hide Inv, After, FieldStartArm, SetConnectionFlag;
    LineInv(p);
    DiscardWsInv(p);
    var q := SetConnectionFlag(p).(state := FieldStart);
    FieldStartSound(q, ch);
    EmptyAfter(FieldStartArm(q, ch).acts);
  }

  lemma HeaderSound(p: Parser, ch: Byte)
    requires Inv(p) && IsHeaderState(p.state)
    ensures Sound(HeaderArm(p, ch), None)
  {
    hide ValueStartArm, FieldStartArm, ValueLwsArm, DiscardLwsArm, HeadersEnd;
    match p.state
    case FieldStart => FieldStartSound(p, ch);
    case ValueDiscardWs => ValueStartSound(p, ch);
    case ValueStart => ValueStartSound(p, ch);
    case ValueLws => ValueLwsSound(p, ch);
    case ValueDiscardLws => DiscardLwsSound(p, ch);
    case HeadersAlmostDone => HeadersEndSound(p, ch);
    case _ =>
  }

  lemma HexDigitFits(n: nat, d: int)
    requires d < 16 && (U64_MAX - 16) / 16 >= n
    ensures n * 16 + d <= MAX_CHUNK
  {}

  lemma ChunkSizeSound(p: Parser, ch: Byte)
    requires Inv(p) && p.state == ChunkSize
    ensures Sound(ChunkArm(p, ch), None)
  {
    if (U64_MAX - 16) / 16 >= p.contentLength {
      HexDigitFits(p.contentLength, Unhex(ch));
    }
  }

  lemma ChunkLineSound(p: Parser, ch: Byte)
    requires Inv(p) && (p.state == ChunkSizeStart || p.state == ChunkParameters || p.state == ChunkSizeAlmostDone)
    ensures Sound(ChunkArm(p, ch), None)
  {
    hide Sound;
    match p.state
    case ChunkSizeStart => SizeStartSound(p, ch);
    case ChunkParameters => ParametersSound(p, ch);
    case _ => SizeEndSound(p, ch);
  }

  lemma SizeStartSound(p: Parser, ch: Byte)
    requires Inv(p) && p.state == ChunkSizeStart
    ensures Sound(ChunkArm(p, ch), None)
  {}

  lemma ParametersSound(p: Parser, ch: Byte)
    requires Inv(p) && p.state == ChunkParameters
    ensures Sound(ChunkArm(p, ch), None)
  {
    hide Unhex;
  }

  lemma SizeEndSound(p: Parser, ch: Byte)
    requires Inv(p) && p.state == ChunkSizeAlmostDone
    ensures Sound(ChunkArm(p, ch), None)
  {
    hide Unhex;
  }

  lemma ChunkEndSound(p: Parser, ch: Byte)
    requires Inv(p) && (p.state == ChunkDataAlmostDone || p.state == ChunkDataDone)
    ensures Sound(ChunkArm(p, ch), None)
    ensures p.state == ChunkDataAlmostDone ==> Sound(ChunkArm(p, ch), Some(BodyData))
  {}

  lemma ChunkSound(p: Parser, ch: Byte)
    requires Inv(p) && IsChunkState(p.state)
    ensures Sound(ChunkArm(p, ch), None)
    ensures p.state == ChunkDataAlmostDone ==> Sound(ChunkArm(p, ch), Some(BodyData))
  {
    hide ChunkArm, Sound, Inv;
    if p.state == ChunkSize {
      ChunkSizeSound(p, ch);
    } else if p.state == ChunkDataAlmostDone || p.state == ChunkDataDone {
      ChunkEndSound(p, ch);
    } else {
      ChunkLineSound(p, ch);
    }
  }

  lemma FieldSound(p: Parser, ch: Byte)
    requires Inv(p) && p.state == Field
    ensures Sound(FieldArm(p, ch), Some(FieldData))
  {}

  lemma ValueCharInv(p: Parser, ch: Byte)
    requires Inv(p) && p.state == Value
    ensures var q := ValueChar(p, ch); q.state == Value && (q.errno == Ok ==> Inv(q))
  {}

  lemma ValueSound(p: Parser, ch: Byte)
    requires Inv(p) && p.state == Value
    ensures Sound(ValueArm(p, ch), Some(ValueData))
  {
    ValueCharInv(p, ch);
  }

  lemma BodySound(p: Parser)
    requires Inv(p) && IsBody(p.state)
    ensures Sound(BodyArm(p), None)
  {}

  /** Every byte leads from reachable states to reachable states. */
  lemma StepSound(p: Parser, ch: Byte)
    requires Inv(p)
    ensures Sound(StepOf(p, ch), if IsBody(p.state) then None else MarkOf(p.state))
  {
    if p.state == Field {
      FieldSound(p, ch);
    } else if p.state == Value {
      ValueSound(p, ch);
    } else if IsBody(p.state) {
      BodySound(p);
    } else if IsUrlState(p.state) || p.state == SpacesBeforeUrl {
      UrlSound(p, ch);
    } else if IsVersionState(p.state) {
      VersionSound(p, ch);
    } else if IsHeaderState(p.state) {
      HeaderSound(p, ch);
    } else if IsChunkState(p.state) {
      ChunkSound(p, ch);
    } else {
      StartSound(p, ch);
    }
  }
}
