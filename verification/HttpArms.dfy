/** The request states of http_parser_execute (third/http_parser/http_parser.c, strict mode, header
    checks not lenient), as the arms of its switch: what one byte does in one state. Callbacks
    return 0. */
module HttpArms {
  import opened HttpChars

  const U64_MAX: int := 0xFFFF_FFFF_FFFF_FFFF

  datatype State =
    | Dead | StartReq | ReqMethod
    | SpacesBeforeUrl | Schema | SchemaSlash | SchemaSlashSlash | ServerStart | Server | ServerWithAt
    | Path | QueryStart | Query | FragmentStart | Fragment
    | HttpStart | HttpH | HttpHT | HttpHTT | HttpHTTP | HttpI | HttpIC | HttpMajor | HttpDot | HttpMinor | HttpEnd
    | LineAlmostDone
    | FieldStart | Field | ValueDiscardWs | ValueDiscardWsAlmostDone | ValueDiscardLws | ValueStart | Value | ValueLws
    | HeaderAlmostDone
    | ChunkSizeStart | ChunkSize | ChunkParameters | ChunkSizeAlmostDone
    | HeadersAlmostDone
    | ChunkData | ChunkDataAlmostDone | ChunkDataDone
    | BodyIdentity

  datatype HeaderState =
    | General | HC | HCO | HCON
    | MatchConnection | MatchProxyConnection | MatchContentLength | MatchTransferEncoding | MatchUpgrade
    | Connection | ContentLength | ContentLengthNum | ContentLengthWs | TransferEncoding | Upgrade
    | TeTokenStart | TeMatchChunked | TeToken
    | ConnTokenStart | ConnMatchKeepAlive | ConnMatchClose | ConnMatchUpgrade | ConnToken
    | TeChunked | ConnKeepAlive | ConnClose | ConnUpgrade

  datatype Errno =
    | Ok | InvalidEofState | HeaderOverflow | ClosedConnection | InvalidVersion | InvalidMethod | InvalidUrl
    | LfExpected | InvalidHeaderToken | InvalidContentLength | UnexpectedContentLength | InvalidChunkSize
    | InvalidConstant | Strict | InvalidTransferEncoding

  datatype Flags = Flags(
    chunked: bool, keepAlive: bool, close: bool, connUpgrade: bool, trailing: bool, upgradeHeader: bool,
    hasLength: bool, transferEncoding: bool)

  const NO_FLAGS: Flags := Flags(false, false, false, false, false, false, false, false)

  /** The parser fields, without the header byte counter. */
  datatype Parser = Parser(
    state: State, hs: HeaderState, index: nat, line: RequestLine, flags: Flags, contentLength: nat,
    upgrade: bool, errno: Errno)

  /** Method, and HTTP version */
  datatype RequestLine = RequestLine(verb: nat, major: nat, minor: nat)

  /** http_parser_init for requests */
  const INITIAL: Parser := Parser(StartReq, General, 0, RequestLine(0, 0, 0), NO_FLAGS, 0, false, Ok)

  /** The slices handed to data callbacks. */
  datatype Kind = FieldData | ValueData | UrlData | BodyData

  datatype Notice = MessageBegin | HeadersComplete | ChunkHeader | ChunkComplete | MessageComplete

  /** What an arm does besides updating fields: MARK, CALLBACK_DATA, CALLBACK_NOTIFY. */
  datatype Acts =
    | Done
    | Mark(kind: Kind, rest: Acts)
    | Flush(kind: Kind, rest: Acts)
    | Notify(notice: Notice, rest: Acts)

  /** stop: the parser returns after this byte because the rest is another protocol. */
  datatype Step = Step(next: Parser, acts: Acts, stop: bool)

  function Go(p: Parser, s: State): Step { Step(p.(state := s), Done, false) }
  function Stay(p: Parser): Step { Step(p, Done, false) }
  function Fail(p: Parser, e: Errno): Step { Step(p.(errno := e), Done, false) }

  // ----- Method names -----

  function MethodName(verb: nat): string {
    match verb
    case 0 => "DELETE" case 1 => "GET" case 2 => "HEAD" case 3 => "POST"
    case 4 => "PUT" case 5 => "CONNECT" case 6 => "OPTIONS" case 7 => "TRACE"
    case 8 => "COPY" case 9 => "LOCK" case 10 => "MKCOL" case 11 => "MOVE"
    case 12 => "PROPFIND" case 13 => "PROPPATCH" case 14 => "SEARCH" case 15 => "UNLOCK"
    case 16 => "BIND" case 17 => "REBIND" case 18 => "UNBIND" case 19 => "ACL"
    case 20 => "REPORT" case 21 => "MKACTIVITY" case 22 => "CHECKOUT" case 23 => "MERGE"
    case 24 => "M-SEARCH" case 25 => "NOTIFY" case 26 => "SUBSCRIBE" case 27 => "UNSUBSCRIBE"
    case 28 => "PATCH" case 29 => "PURGE" case 30 => "MKCALENDAR" case 31 => "LINK"
    case 32 => "UNLINK"
    case _ => "SOURCE"
  }

  const HTTP_CONNECT: nat := 5
  const HTTP_SOURCE: nat := 33

  /** matcher[index], 0 at the end of the name */
  function MethodChar(verb: nat, index: nat): int {
    var name := MethodName(verb);
    if index < |name| then name[index] as int else 0
  }

  /** The method guessed from its first letter, if any. */
  function FirstMethod(ch: Byte): int {
    match ch
    case 65 => 19 case 66 => 16 case 67 => 5 case 68 => 0 case 71 => 1 case 72 => 2 case 76 => 9 case 77 => 10
    case 78 => 25 case 79 => 6 case 80 => 3 case 82 => 20 case 83 => 26 case 84 => 7 case 85 => 15
    case _ => -1
  }

  /** The table of corrections at a letter that does not match the guess. */
  function NextMethod(verb: nat, index: nat, ch: Byte): int {
    match (verb, index, ch)
    case (3, 1, 85) => 4    // POST: PU -> PUT
    case (3, 1, 65) => 28   // POST: PA -> PATCH
    case (3, 1, 82) => 12   // POST: PR -> PROPFIND
    case (4, 2, 82) => 29   // PUT: PUR -> PURGE
    case (5, 1, 72) => 22   // CONNECT: CH -> CHECKOUT
    case (5, 2, 80) => 8    // CONNECT: COP -> COPY
    case (10, 1, 79) => 11  // MKCOL: MO -> MOVE
    case (10, 1, 69) => 23  // MKCOL: ME -> MERGE
    case (10, 1, 45) => 24  // MKCOL: M- -> M-SEARCH
    case (10, 2, 65) => 21  // MKCOL: MKA -> MKACTIVITY
    case (10, 3, 65) => 30  // MKCOL: MKCA -> MKCALENDAR
    case (26, 1, 69) => 14  // SUBSCRIBE: SE -> SEARCH
    case (26, 1, 79) => 33  // SUBSCRIBE: SO -> SOURCE
    case (20, 2, 66) => 17  // REPORT: REB -> REBIND
    case (12, 4, 80) => 13  // PROPFIND: PROPP -> PROPPATCH
    case (9, 1, 73) => 31   // LOCK: LI -> LINK
    case (15, 2, 83) => 27  // UNLOCK: UNS -> UNSUBSCRIBE
    case (15, 2, 66) => 18  // UNLOCK: UNB -> UNBIND
    case (15, 3, 73) => 32  // UNLOCK: UNLI -> UNLINK
    case _ => -1
  }

  // ----- Request line -----

  function StartArm(p: Parser, ch: Byte): Step {
    match p.state
    case Dead => if ch == CR || ch == LF then Stay(p) else Fail(p, ClosedConnection)
    case StartReq =>
      if ch == CR || ch == LF then Stay(p)
      else
        var q := p.(flags := NO_FLAGS, contentLength := U64_MAX);
        if FirstMethod(ch) < 0 then Fail(q, InvalidMethod)
        else Step(q.(state := ReqMethod, line := p.line.(verb := FirstMethod(ch)), index := 1),
                  Notify(MessageBegin, Done), false)
    case _ => // ReqMethod
      if ch == 0 then Fail(p, InvalidMethod)
      else
        var m := MethodChar(p.line.verb, p.index);
        var q := p.(index := p.index + 1);
        if ch == SPACE && m == 0 then Step(q.(state := SpacesBeforeUrl), Done, false)
        else if ch == m then Stay(q)
        else if NextMethod(p.line.verb, p.index, ch) >= 0 then
          Stay(q.(line := p.line.(verb := NextMethod(p.line.verb, p.index, ch))))
        else Fail(p, InvalidMethod)
  }

  /** parse_url_char */
  function ParseUrlChar(s: State, ch: Byte): State {
    if ch == SPACE || ch == CR || ch == LF || ch == TAB || ch == FF then Dead
    else match s
      case SpacesBeforeUrl => if ch == SLASH || ch == STAR then Path else if IsAlpha(ch) then Schema else Dead
      case Schema => if IsAlpha(ch) then Schema else if ch == COLON then SchemaSlash else Dead
      case SchemaSlash => if ch == SLASH then SchemaSlashSlash else Dead
      case SchemaSlashSlash => if ch == SLASH then ServerStart else Dead
      case ServerWithAt => if ch == AT then Dead else ParseServerChar(ch)
      case ServerStart => ParseServerChar(ch)
      case Server => ParseServerChar(ch)
      case Path =>
        if IsUrlChar(ch) then Path
        else if ch == QUESTION then QueryStart
        else if ch == HASH then FragmentStart
        else Dead
      case QueryStart => if IsUrlChar(ch) || ch == QUESTION then Query else if ch == HASH then FragmentStart else Dead
      case Query => if IsUrlChar(ch) || ch == QUESTION then Query else if ch == HASH then FragmentStart else Dead
      case FragmentStart =>
        if IsUrlChar(ch) || ch == QUESTION then Fragment else if ch == HASH then FragmentStart else Dead
      case Fragment => if IsUrlChar(ch) || ch == QUESTION || ch == HASH then Fragment else Dead
      case _ => Dead
  }

  function ParseServerChar(ch: Byte): State {
    if ch == SLASH then Path
    else if ch == QUESTION then QueryStart
    else if ch == AT then ServerWithAt
    else if IsUserinfoChar(ch) || ch == LBRACKET || ch == RBRACKET then Server
    else Dead
  }

  function UrlArm(p: Parser, ch: Byte): Step {
    match p.state
    case SpacesBeforeUrl =>
      if ch == SPACE then Stay(p)
      else
        var s := ParseUrlChar(if p.line.verb == HTTP_CONNECT then ServerStart else SpacesBeforeUrl, ch);
        if s == Dead then Fail(p, InvalidUrl) else Step(p.(state := s), Mark(UrlData, Done), false)
    case Schema => UrlChar(p, ch)
    case SchemaSlash => UrlChar(p, ch)
    case SchemaSlashSlash => UrlChar(p, ch)
    case ServerStart => UrlChar(p, ch)
    case _ => // Server, ServerWithAt, Path, QueryStart, Query, FragmentStart, Fragment
      if ch == SPACE then Step(p.(state := HttpStart), Flush(UrlData, Done), false)
      else if ch == CR then
        Step(p.(state := LineAlmostDone, line := p.line.(major := 0, minor := 9)), Flush(UrlData, Done), false)
      else if ch == LF then
        Step(p.(state := FieldStart, line := p.line.(major := 0, minor := 9)), Flush(UrlData, Done), false)
      else UrlChar(p, ch)
  }

  function UrlChar(p: Parser, ch: Byte): Step {
    var s := ParseUrlChar(p.state, ch);
    if s == Dead then Fail(p, InvalidUrl) else Go(p, s)
  }

  function VersionArm(p: Parser, ch: Byte): Step {
    match p.state
    case HttpStart =>
      if ch == SPACE then Stay(p)
      else if ch == 72 then Go(p, HttpH)
      else if ch == 73 && p.line.verb == HTTP_SOURCE then Go(p, HttpI)
      else Fail(p, InvalidConstant)
    case HttpH => if ch == 84 then Go(p, HttpHT) else Fail(p, Strict)
    case HttpHT => if ch == 84 then Go(p, HttpHTT) else Fail(p, Strict)
    case HttpHTT => if ch == 80 then Go(p, HttpHTTP) else Fail(p, Strict)
    case HttpI => if ch == 67 then Go(p, HttpIC) else Fail(p, Strict)
    case HttpIC => if ch == 69 then Go(p, HttpHTTP) else Fail(p, Strict)
    case HttpHTTP => if ch == SLASH then Go(p, HttpMajor) else Fail(p, Strict)
    case HttpMajor => if IsNum(ch) then Go(p.(line := p.line.(major := ch - 48)), HttpDot) else Fail(p, InvalidVersion)
    case HttpDot => if ch == DOT then Go(p, HttpMinor) else Fail(p, InvalidVersion)
    case HttpMinor => if IsNum(ch) then Go(p.(line := p.line.(minor := ch - 48)), HttpEnd) else Fail(p, InvalidVersion)
    case HttpEnd =>
      if ch == CR then Go(p, LineAlmostDone) else if ch == LF then Go(p, FieldStart) else Fail(p, InvalidVersion)
    case _ => // LineAlmostDone
      if ch == LF then Go(p, FieldStart) else Fail(p, LfExpected)
  }

  // ----- Header fields -----

  /** One more letter of a word that is being matched: still matching, complete, or lost. */
  function MatchWord(word: string, index: nat, c: Byte, matching: HeaderState, done: HeaderState,
                     lost: HeaderState): HeaderState {
    if index >= |word| || c != word[index] as int then lost
    else if index == |word| - 1 then done
    else matching
  }

  /** The header state after a further token character of the field name. */
  function FieldChar(p: Parser, c: Byte): Parser {
    var i := p.index + 1;
    var q := p.(index := i);
    match p.hs
    case General => p
    case HC => q.(hs := if c == 111 then HCO else General)
    case HCO => q.(hs := if c == 110 then HCON else General)
    case HCON => q.(hs := if c == 110 then MatchConnection else if c == 116 then MatchContentLength else General)
    case MatchConnection => q.(hs := MatchWord("connection", i, c, MatchConnection, Connection, General))
    case MatchProxyConnection =>
      q.(hs := MatchWord("proxy-connection", i, c, MatchProxyConnection, Connection, General))
    case MatchContentLength => q.(hs := MatchWord("content-length", i, c, MatchContentLength, ContentLength, General))
    case MatchTransferEncoding =>
      var h := MatchWord("transfer-encoding", i, c, MatchTransferEncoding, TransferEncoding, General);
      q.(hs := h, flags := p.flags.(transferEncoding := p.flags.transferEncoding || h == TransferEncoding))
    case MatchUpgrade => q.(hs := MatchWord("upgrade", i, c, MatchUpgrade, Upgrade, General))
    case _ => p.(hs := General) // a complete name goes on; a token character is never a space
  }

  /** s_header_field, one byte */
  function FieldArm(p: Parser, ch: Byte): Step {
    var c := Token(ch);
    if c != 0 then Stay(FieldChar(p, c))
    else if ch == COLON then Step(p.(state := ValueDiscardWs), Flush(FieldData, Done), false)
    else Fail(p, InvalidHeaderToken)
  }

  // ----- Header values -----

  function FirstValueState(p: Parser, c: Byte): HeaderState {
    match p.hs
    case TransferEncoding => if c == 99 then TeMatchChunked else TeToken
    case TeTokenStart => TeTokenStart
    case ContentLengthWs => ContentLengthWs
    case Connection => if c == 107 then ConnMatchKeepAlive else if c == 99 then ConnMatchClose
                       else if c == 117 then ConnMatchUpgrade else ConnToken
    case ConnTokenStart => ConnTokenStart
    case _ => General
  }

  /** s_header_value_start */
  function ValueStartArm(p: Parser, ch: Byte): Step {
    var q := p.(state := Value, index := 0);
    if p.hs == ContentLength then
      if !IsNum(ch) then Fail(q, InvalidContentLength)
      else if p.flags.hasLength then Fail(q, UnexpectedContentLength)
      else Step(q.(flags := p.flags.(hasLength := true), contentLength := ch - 48, hs := ContentLengthNum),
                Mark(ValueData, Done), false)
    else
      Step(q.(hs := FirstValueState(p, Lower(ch)),
              flags := p.flags.(upgradeHeader := p.flags.upgradeHeader || p.hs == Upgrade)),
           Mark(ValueData, Done), false)
  }

  function TokenStart(c: Byte, whenC: HeaderState, token: HeaderState, same: HeaderState): HeaderState {
    if c == 99 then whenC
    else if c != SPACE && Token(c) != 0 then token
    else if c == SPACE || c == TAB then same
    else General
  }

  /** A further decimal digit of Content-Length, with the conservative overflow test. */
  function LengthDigit(p: Parser, ch: Byte): Parser {
    if ch == SPACE then p.(hs := ContentLengthWs)
    else if !IsNum(ch) || (U64_MAX - 10) / 10 < p.contentLength then p.(errno := InvalidContentLength)
    else p.(hs := ContentLengthNum, contentLength := p.contentLength * 10 + (ch - 48))
  }

  function SetConnectionFlag(p: Parser): Parser {
    match p.hs
    case ConnKeepAlive => p.(flags := p.flags.(keepAlive := true))
    case ConnClose => p.(flags := p.flags.(close := true))
    case ConnUpgrade => p.(flags := p.flags.(connUpgrade := true))
    case TeChunked => p.(flags := p.flags.(chunked := true))
    case _ => p
  }

  /** A byte of a header value that is neither CR nor LF. */
  function ValueChar(p: Parser, ch: Byte): Parser {
    var c := Lower(ch);
    var q := p.(index := p.index + 1);
    match p.hs
    case General => p
    case ContentLength => if ch == SPACE then p else LengthDigit(p, ch)
    case ContentLengthNum => LengthDigit(p, ch)
    case ContentLengthWs => if ch == SPACE then p else p.(errno := InvalidContentLength)
    case TeTokenStart => p.(hs := TokenStart(c, TeMatchChunked, TeToken, TeTokenStart))
    case TeMatchChunked => q.(hs := MatchWord("chunked", q.index, c, TeMatchChunked, TeChunked, TeToken))
    case TeToken => if ch == COMMA then p.(hs := TeTokenStart, index := 0) else p
    case ConnTokenStart =>
      p.(hs := if c == 107 then ConnMatchKeepAlive else if c == 117 then ConnMatchUpgrade
               else TokenStart(c, ConnMatchClose, ConnToken, ConnTokenStart))
    case ConnMatchKeepAlive =>
      q.(hs := MatchWord("keep-alive", q.index, c, ConnMatchKeepAlive, ConnKeepAlive, ConnToken))
    case ConnMatchClose => q.(hs := MatchWord("close", q.index, c, ConnMatchClose, ConnClose, ConnToken))
    case ConnMatchUpgrade => q.(hs := MatchWord("upgrade", q.index, c, ConnMatchUpgrade, ConnUpgrade, ConnToken))
    case ConnToken => if ch == COMMA then p.(hs := ConnTokenStart, index := 0) else p
    case TeChunked => if ch == SPACE then p else p.(hs := TeToken)
    case ConnKeepAlive => AfterConnectionWord(p, ch)
    case ConnClose => AfterConnectionWord(p, ch)
    case ConnUpgrade => AfterConnectionWord(p, ch)
    case _ => p.(hs := General)
  }

  function AfterConnectionWord(p: Parser, ch: Byte): Parser {
    if ch == COMMA then SetConnectionFlag(p).(hs := ConnTokenStart, index := 0)
    else if ch == SPACE then p
    else p.(hs := ConnToken)
  }

  /** s_header_value, one byte; a line feed is read again as the end of the line. */
  function ValueArm(p: Parser, ch: Byte): Step {
    if ch == CR then Step(p.(state := HeaderAlmostDone), Flush(ValueData, Done), false)
    else if ch == LF then Step(p.(state := ValueLws), Flush(ValueData, Done), false)
    else if !IsHeaderChar(ch) then Fail(p, InvalidHeaderToken)
    else Stay(ValueChar(p, ch))
  }

  // ----- Between headers -----

  function FieldStartArm(p: Parser, ch: Byte): Step {
    if ch == CR then Go(p, HeadersAlmostDone)
    else if ch == LF then HeadersEnd(p, ch)
    else
      var c := Token(ch);
      if c == 0 then Fail(p, InvalidHeaderToken)
      else
        var h := match c
          case 99 => HC
          case 112 => MatchProxyConnection
          case 116 => MatchTransferEncoding
          case 117 => MatchUpgrade
          case _ => General;
        Step(p.(state := Field, index := 0, hs := h), Mark(FieldData, Done), false)
  }

  /** MARK(header_value) and CALLBACK_DATA_NOADVANCE(header_value) at one place, then s */
  function EmptyValue(s: Step): Step {
    Step(s.next, Mark(ValueData, Flush(ValueData, s.acts)), s.stop)
  }

  function Noting(notice: Notice, s: Step): Step {
    Step(s.next, Notify(notice, s.acts), s.stop)
  }

  /** s_header_value_lws: a folded value goes on, or the next header begins with this byte. */
  function ValueLwsArm(p: Parser, ch: Byte): Step {
    if ch == SPACE || ch == TAB then
      ValueStartArm(if p.hs == ContentLengthNum then p.(hs := ContentLengthWs) else p, ch)
    else FieldStartArm(SetConnectionFlag(p).(state := FieldStart), ch)
  }

  /** s_header_value_discard_lws: the value was empty unless it is folded. */
  function DiscardLwsArm(p: Parser, ch: Byte): Step {
    if ch == SPACE || ch == TAB then Go(p, ValueDiscardWs)
    else if p.hs == ContentLength then Fail(p, InvalidContentLength)
    else EmptyValue(FieldStartArm(SetConnectionFlag(p).(state := FieldStart), ch))
  }

  function HeaderArm(p: Parser, ch: Byte): Step {
    match p.state
    case FieldStart => FieldStartArm(p, ch)
    case ValueDiscardWs =>
      if ch == SPACE || ch == TAB then Stay(p)
      else if ch == CR then Go(p, ValueDiscardWsAlmostDone)
      else if ch == LF then Go(p, ValueDiscardLws)
      else ValueStartArm(p, ch)
    case ValueStart => ValueStartArm(p, ch)
    case HeaderAlmostDone => if ch == LF then Go(p, ValueLws) else Fail(p, LfExpected)
    case ValueLws => ValueLwsArm(p, ch)
    case ValueDiscardWsAlmostDone => if ch == LF then Go(p, ValueDiscardLws) else Fail(p, Strict)
    case ValueDiscardLws => DiscardLwsArm(p, ch)
    case _ => // HeadersAlmostDone
      HeadersEnd(p, ch)
  }

  // ----- End of headers and body -----

  /** http_should_keep_alive for a request */
  predicate ShouldKeepAlive(p: Parser) {
    if p.line.major > 0 && p.line.minor > 0 then !p.flags.close else p.flags.keepAlive
  }

  function NewMessage(p: Parser): Parser {
    p.(state := if ShouldKeepAlive(p) then StartReq else Dead)
  }

  /** s_message_done */
  function MessageEnd(p: Parser): Step {
    Step(NewMessage(p), Notify(MessageComplete, Done), p.upgrade)
  }

  /** s_headers_almost_done and, read again with the same byte, s_headers_done or s_message_done */
  function HeadersEnd(p: Parser, ch: Byte): Step {
    if ch != LF then Fail(p, Strict)
    else if p.flags.trailing then Noting(ChunkComplete, MessageEnd(p))
    else if p.flags.transferEncoding && p.flags.hasLength then Fail(p, UnexpectedContentLength)
    else
      var upgrade := (p.flags.upgradeHeader && p.flags.connUpgrade) || p.line.verb == HTTP_CONNECT;
      Noting(HeadersComplete, BodyStart(p.(upgrade := upgrade)))
  }

  /** s_headers_done */
  function BodyStart(p: Parser): Step {
    var hasBody := p.flags.chunked || (p.contentLength > 0 && p.contentLength != U64_MAX);
    if p.upgrade && (p.line.verb == HTTP_CONNECT || !hasBody) then
      Step(NewMessage(p), Notify(MessageComplete, Done), true)
    else if p.flags.chunked then Go(p, ChunkSizeStart)
    else if p.flags.transferEncoding then Fail(p, InvalidTransferEncoding)
    else if p.contentLength == 0 then Step(NewMessage(p), Notify(MessageComplete, Done), false)
    else if p.contentLength != U64_MAX then Go(p, BodyIdentity)
    else Step(NewMessage(p), Notify(MessageComplete, Done), false)
  }

  function ChunkArm(p: Parser, ch: Byte): Step {
    match p.state
    case ChunkSizeStart =>
      if Unhex(ch) < 0 then Fail(p, InvalidChunkSize) else Go(p.(contentLength := Unhex(ch)), ChunkSize)
    case ChunkSize =>
      if ch == CR then Go(p, ChunkSizeAlmostDone)
      else if Unhex(ch) < 0 then
        if ch == SEMICOLON || ch == SPACE then Go(p, ChunkParameters) else Fail(p, InvalidChunkSize)
      else if (U64_MAX - 16) / 16 < p.contentLength then Fail(p, InvalidContentLength)
      else Stay(p.(contentLength := p.contentLength * 16 + Unhex(ch)))
    case ChunkParameters => if ch == CR then Go(p, ChunkSizeAlmostDone) else Stay(p)
    case ChunkSizeAlmostDone =>
      if ch != LF then Fail(p, Strict)
      else
        var q := if p.contentLength == 0 then p.(flags := p.flags.(trailing := true), state := FieldStart)
                 else p.(state := ChunkData);
        Step(q, Notify(ChunkHeader, Done), false)
    case ChunkDataAlmostDone =>
      if ch != CR then Fail(p, Strict) else Step(p.(state := ChunkDataDone), Flush(BodyData, Done), false)
    case _ => // ChunkDataDone
      if ch != LF then Fail(p, Strict) else Step(p.(state := ChunkSizeStart), Notify(ChunkComplete, Done), false)
  }

  // ----- Families of states -----

  /** A part of the URL was read, and its mark is set. */
  predicate IsUrlState(s: State) {
    match s
    case Path => true case Schema => true case SchemaSlash => true case SchemaSlashSlash => true
    case ServerStart => true case Server => true case ServerWithAt => true case QueryStart => true
    case Query => true case FragmentStart => true case Fragment => true
    case _ => false
  }

  predicate IsVersionState(s: State) {
    match s
    case HttpStart => true case HttpH => true case HttpHT => true case HttpHTT => true case HttpHTTP => true
    case HttpI => true case HttpIC => true case HttpMajor => true case HttpDot => true case HttpMinor => true
    case HttpEnd => true case LineAlmostDone => true
    case _ => false
  }

  predicate IsHeaderState(s: State) {
    match s
    case FieldStart => true case ValueDiscardWs => true case ValueStart => true case HeaderAlmostDone => true
    case ValueLws => true case ValueDiscardWsAlmostDone => true case ValueDiscardLws => true
    case HeadersAlmostDone => true
    case _ => false
  }

  predicate IsChunkState(s: State) {
    match s
    case ChunkSizeStart => true case ChunkSize => true case ChunkParameters => true case ChunkSizeAlmostDone => true
    case ChunkDataAlmostDone => true case ChunkDataDone => true
    case _ => false
  }

  predicate IsBody(s: State) { s == ChunkData || s == BodyIdentity }

  /** The states whose arm consumes a run of bytes at once. */
  predicate IsBulk(s: State) { s == Field || s == Value || IsBody(s) }

  /** The arm of any other state. */
  function Arm(p: Parser, ch: Byte): Step
    requires !IsBulk(p.state)
  {
    if IsUrlState(p.state) || p.state == SpacesBeforeUrl then UrlArm(p, ch)
    else if IsVersionState(p.state) then VersionArm(p, ch)
    else if IsHeaderState(p.state) then HeaderArm(p, ch)
    else if IsChunkState(p.state) then ChunkArm(p, ch)
    else StartArm(p, ch)
  }
}
