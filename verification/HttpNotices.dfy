/** What the parser notifies: exactly which notices each step gives, and over whole runs that every request is begun,
    has its headers completed and is completed once, and every chunk likewise. */
module HttpNotices {
  import opened Sequences
  import opened HttpChars
  import opened HttpArms
  import opened HttpBytewise
  import opened HttpRun
  import opened HttpMessage
  import opened HttpHeaders
  import opened HttpFraming

  /** The notices of a step from p to q. */
  function NoticesOf(p: Parser, q: Parser): seq<Event> {
    if BetweenMessages(p.state) then if BetweenMessages(q.state) then [] else [Note(MessageBegin)]
    else if InBody(p) then
      if p.state == ChunkSizeAlmostDone then [Note(ChunkHeader)]
      else if p.state == ChunkDataDone then [Note(ChunkComplete)]
      else if !BetweenMessages(q.state) then []
      else if p.flags.trailing && !AtBody(p.state) then [Note(ChunkComplete), Note(MessageComplete)]
      else [Note(MessageComplete)]
    else if BetweenMessages(q.state) then [Note(HeadersComplete), Note(MessageComplete)]
    else if InBody(q) then [Note(HeadersComplete)]
    else []
  }

  /** No trailer before there was a body. */
  predicate NoTrailerYet(p: Parser) {
    (p.flags.trailing ==> !BeforeHeaders(p.state)) && p.state != ValueStart
  }

  /** Between the notices of a chunk: the last one and its trailer included. */
  predicate InChunk(p: Parser) {
    p.state == ChunkData || p.state == ChunkDataAlmostDone || p.state == ChunkDataDone
    || (HeaderLine(p.state) && p.flags.trailing)
  }

  /** How a step moves within the order of a request. */
  predicate Orderly(p: Parser, q: Parser) {
    if BetweenMessages(p.state) then !InBody(q)
    else if InBody(p) && InBody(q) then
      InChunk(q) == (p.state == ChunkSizeAlmostDone || (p.state != ChunkDataDone && InChunk(p)))
    else if InBody(p) then
      BetweenMessages(q.state) && InChunk(p) == !AtBody(p.state)
      && p.state != ChunkSizeAlmostDone && p.state != ChunkDataDone
    else !InChunk(q)
  }

  /** An arm gives the notices of its step, and keeps to the order of a request. */
  predicate Notified(p: Parser, s: Step) {
    Notes(s.acts) == NoticesOf(p, s.next) && NoTrailerYet(s.next) && Orderly(p, s.next)
  }

  lemma StartNotified(p: Parser, ch: Byte)
    requires NoTrailerYet(p) && (p.state == Dead || p.state == StartReq || p.state == ReqMethod)
    requires StartArm(p, ch).next.errno == Ok && p.errno == Ok
    ensures Notified(p, StartArm(p, ch))
  {
    hide StartArm;
    StartNotes(p, ch);
    if p.state == ReqMethod {
      MethodGoesOn(p, ch);
    } else {
      FirstByteOf(p, ch);
    }
  }

  lemma StartNotes(p: Parser, ch: Byte)
    requires StartArm(p, ch).next.errno == Ok && p.errno == Ok
    ensures Notes(StartArm(p, ch).acts) ==
      if BetweenMessages(p.state) && StartArm(p, ch).next.state == ReqMethod then [Note(MessageBegin)] else []
  {
    hide MethodChar, NextMethod, FirstMethod;
  }

  lemma EarlyQuiet(p: Parser, q: Parser)
    requires NoTrailerYet(p) && BeforeHeaders(p.state) && (BeforeHeaders(q.state) || q.state == FieldStart)
    requires q.flags == p.flags
    ensures NoticesOf(p, q) == [] && NoTrailerYet(q) && Orderly(p, q)
  {
    hide BeforeHeaders;
    Outside(p.state);
    EarlyState(p.state);
    EarlyState(q.state);
    EarlyBody(p.state);
    EarlyBody(q.state);
  }

  lemma EarlyBody(s: State)
    ensures BeforeHeaders(s) ==> !AtBody(s) && !HeaderLine(s) && s != ValueStart
    ensures s == FieldStart ==> !AtBody(s)
  {}

  lemma UrlNotified(p: Parser, ch: Byte)
    requires NoTrailerYet(p) && (p.state == SpacesBeforeUrl || IsUrlState(p.state)) && p.errno == Ok
    requires UrlArm(p, ch).next.errno == Ok
    ensures Notified(p, UrlArm(p, ch))
  {
    hide UrlArm, NoTrailerYet, NoticesOf, Orderly;
    HttpNames.UrlUnchunked(p, ch);
    UrlGoesOn(p, ch);
    UrlQuiet(p, ch);
    EarlyQuiet(p, UrlArm(p, ch).next);
  }

  lemma UrlQuiet(p: Parser, ch: Byte)
    ensures Notes(UrlArm(p, ch).acts) == []
  {
    hide ParseUrlChar;
  }

  lemma VersionNotified(p: Parser, ch: Byte)
    requires NoTrailerYet(p) && IsVersionState(p.state)
    ensures Notified(p, VersionArm(p, ch))
  {
    hide VersionArm, NoTrailerYet, NoticesOf, Orderly;
    VersionMoves(p, ch);
    HttpNames.VersionUnchunked(p, ch);
    EarlyQuiet(p, VersionArm(p, ch).next);
  }

  /** A header line goes on, or another begins. */
  lemma LineQuiet(p: Parser, q: Parser)
    requires HeaderLine(p.state) && HeaderLine(q.state) && q.state != ValueStart && q.flags.trailing == p.flags.trailing
    ensures NoticesOf(p, q) == [] && NoTrailerYet(q) && Orderly(p, q)
  {
    hide HeaderLine, AtBody;
    LineState(p.state);
    LineState(q.state);
  }

  lemma LineState(s: State)
    ensures HeaderLine(s) ==> !AtBody(s) && !BetweenMessages(s) && s != ChunkSizeAlmostDone && s != ChunkDataDone
    ensures HeaderLine(s) ==> s != ChunkData && s != ChunkDataAlmostDone
    ensures HeaderLine(s) ==> !BeforeHeaders(s)
  {}

  /** The end of the headers or of the trailer. */
  lemma EndNotified(p: Parser, ch: Byte)
    requires HeaderLine(p.state) && HeadersEnd(p, ch).next.errno == Ok && p.errno == Ok
    ensures Notified(p, HeadersEnd(p, ch))
  {
    hide HeadersEnd, HeaderLine, BeforeHeaders, AtBody;
    var q := HeadersEnd(p, ch).next;
    EndNotes(p, ch);
    LineState(p.state);
    AfterHeaders(q.state);
    BodyState(q.state);
  }

  lemma EndNotes(p: Parser, ch: Byte)
    requires HeadersEnd(p, ch).next.errno == Ok && p.errno == Ok
    ensures var s := HeadersEnd(p, ch);
      && (BetweenMessages(s.next.state) || s.next.state == ChunkSizeStart || s.next.state == BodyIdentity)
      && (p.flags.trailing ==> BetweenMessages(s.next.state))
      && Notes(s.acts) == if p.flags.trailing then [Note(ChunkComplete), Note(MessageComplete)]
                          else if BetweenMessages(s.next.state) then [Note(HeadersComplete), Note(MessageComplete)]
                          else [Note(HeadersComplete)]
  {
    hide ShouldKeepAlive;
  }

  lemma AfterHeaders(s: State)
    ensures BetweenMessages(s) || s == ChunkSizeStart || s == BodyIdentity ==>
        !BeforeHeaders(s) && s != ValueStart && !HeaderLine(s)
  {}

  lemma FieldStartNotified(p: Parser, ch: Byte)
    requires p.state == FieldStart && FieldStartArm(p, ch).next.errno == Ok && p.errno == Ok
    ensures Notified(p, FieldStartArm(p, ch))
  {
    hide HeadersEnd, Token, NoticesOf, NoTrailerYet, Orderly;
    if ch == LF {
      EndNotified(p, ch);
    } else {
      LineQuiet(p, FieldStartArm(p, ch).next);
    }
  }

  lemma ValueNotified(p: Parser, ch: Byte)
    requires HeaderLine(p.state) && ValueStartArm(p, ch).next.errno == Ok && p.errno == Ok
    ensures Notified(p, ValueStartArm(p, ch))
  {
    hide FirstValueState, NoticesOf, NoTrailerYet, Orderly, HeaderLine;
    ValueIsLine(Value);
    LineQuiet(p, ValueStartArm(p, ch).next);
  }

  lemma ValueIsLine(s: State)
    ensures s == Value || s == Field || s == FieldStart ==> HeaderLine(s)
  {}

  /** Behind the line of a header the notices are those of the next line. */
  lemma LineNotified(p: Parser, ch: Byte)
    requires p.state == ValueLws || p.state == ValueDiscardLws
    requires var q := SetConnectionFlag(p).(state := FieldStart); FieldStartArm(q, ch).next.errno == Ok && p.errno == Ok
    ensures var s := FieldStartArm(SetConnectionFlag(p).(state := FieldStart), ch); Notified(p, s)
  {
    hide FieldStartArm, SetConnectionFlag, NoTrailerYet, HeaderLine;
    var q := SetConnectionFlag(p).(state := FieldStart);
    FlagLeads(p);
    FieldStartNotified(q, ch);
    ValueIsLine(q.state);
    LwsIsLine(p.state);
    LineState(p.state);
    LineState(q.state);
  }

  lemma LwsIsLine(s: State)
    ensures IsHeaderState(s) ==> HeaderLine(s)
  {}

  lemma SameNotes(p: Parser, s: Step)
    requires Notified(p, s)
    ensures Notified(p, EmptyValue(s))
  {
    hide NoticesOf, NoTrailerYet, Orderly;
    assert Notes(Flush(ValueData, s.acts)) == Notes(s.acts);
  }

  lemma HeaderNotified(p: Parser, ch: Byte)
    requires IsHeaderState(p.state) && p.errno == Ok && HeaderArm(p, ch).next.errno == Ok
    ensures Notified(p, HeaderArm(p, ch))
  {
    hide FieldStartArm, HeadersEnd, ValueStartArm, SetConnectionFlag, Notified, EmptyValue;
    LwsIsLine(p.state);
    match p.state
    case FieldStart => FieldStartNotified(p, ch);
    case HeadersAlmostDone => EndNotified(p, ch);
    case ValueStart => ValueNotified(p, ch);
    case ValueDiscardWs =>
      if !IsBlank(ch) && !EndsLine(ch) {
        ValueNotified(p, ch);
      } else {
        GoNotified(p, HeaderArm(p, ch));
      }
    case ValueLws =>
      if IsBlank(ch) {
        ValueNotified(Folding(p), ch);
        FoldNotified(p, ValueStartArm(Folding(p), ch));
      } else {
        LineNotified(p, ch);
      }
    case ValueDiscardLws =>
      if IsBlank(ch) {
        GoNotified(p, HeaderArm(p, ch));
      } else {
        EmptySame(FieldStartArm(SetConnectionFlag(p).(state := FieldStart), ch));
        LineNotified(p, ch);
        SameNotes(p, FieldStartArm(SetConnectionFlag(p).(state := FieldStart), ch));
      }
    case _ => GoNotified(p, HeaderArm(p, ch));
  }

  lemma EmptySame(s: Step)
    ensures EmptyValue(s).next == s.next
  {}

  lemma FoldNotified(p: Parser, s: Step)
    requires Notified(Folding(p), s)
    ensures Notified(p, s)
  {}

  lemma GoNotified(p: Parser, s: Step)
    requires IsHeaderState(p.state) && IsHeaderState(s.next.state) && s.next.state != ValueStart
    requires s.next.flags == p.flags && s.acts == Done
    ensures Notified(p, s)
  {
    hide NoticesOf, NoTrailerYet, Orderly, IsHeaderState;
    LwsIsLine(p.state);
    LwsIsLine(s.next.state);
    LineQuiet(p, s.next);
  }

  lemma InLineNotified(p: Parser, ch: Byte)
    requires p.errno == Ok
    ensures p.state == Value && ValueArm(p, ch).next.errno == Ok ==> Notified(p, ValueArm(p, ch))
    ensures p.state == Field && FieldArm(p, ch).next.errno == Ok ==> Notified(p, FieldArm(p, ch))
  {
    hide ValueChar, FieldChar, Token, IsHeaderChar, NoTrailerYet, NoticesOf, Orderly;
    CharUpholds(p, ch);
    NameUpholds(p, Token(ch));
    if p.state == Value && ValueArm(p, ch).next.errno == Ok {
      LineQuiet(p, ValueArm(p, ch).next);
    }
    if p.state == Field && FieldArm(p, ch).next.errno == Ok {
      LineQuiet(p, FieldArm(p, ch).next);
    }
  }

  lemma ChunkNotified(p: Parser, ch: Byte)
    requires IsChunkState(p.state) && p.errno == Ok && ChunkArm(p, ch).next.errno == Ok
    ensures Notified(p, ChunkArm(p, ch))
  {
    hide ChunkArm, AtBody, HeaderLine, BeforeHeaders, BetweenMessages, IsChunkState;
    var q := ChunkArm(p, ch).next;
    ChunkMoves(p, ch);
    ChunkGoesOn(p, ch);
    NoChunkData(p.state);
    BodyState(p.state);
    BodyState(q.state);
    LineState(q.state);
  }

  lemma BodyState(s: State)
    ensures IsChunkState(s) || IsBody(s) ==> AtBody(s) && !HeaderLine(s)
    ensures AtBody(s) || s == FieldStart ==> !BeforeHeaders(s) && s != ValueStart && !BetweenMessages(s)
  {
    if IsChunkState(s) {
      ChunkIsLater(s);
    }
  }

  lemma NoChunkData(s: State)
    ensures IsChunkState(s) ==> s != ChunkData && s != FieldStart
  {}

  lemma ChunkMoves(p: Parser, ch: Byte)
    requires IsChunkState(p.state) && p.errno == Ok && ChunkArm(p, ch).next.errno == Ok
    ensures var s := ChunkArm(p, ch);
      match p.state
      case ChunkSizeAlmostDone =>
        Notes(s.acts) == [Note(ChunkHeader)] && (s.next.state == ChunkData || s.next.state == FieldStart)
      case ChunkDataDone => Notes(s.acts) == [Note(ChunkComplete)] && s.next.state == ChunkSizeStart
      case ChunkDataAlmostDone => Notes(s.acts) == [] && s.next.state == ChunkDataDone
      case _ =>
        Notes(s.acts) == [] && s.next.state != ChunkDataAlmostDone && s.next.state != ChunkDataDone
    ensures var s := ChunkArm(p, ch).next.state; IsChunkState(s) || s == ChunkData || s == FieldStart
    ensures var s := ChunkArm(p, ch).next.state; s == ChunkData || s == FieldStart ==> p.state == ChunkSizeAlmostDone
  {
    hide Unhex;
  }

  lemma BodyNotified(p: Parser)
    requires IsBody(p.state) && p.contentLength > 0
    ensures Notified(p, BodyArm(p))
  {
    hide BodyArm, AtBody, HeaderLine, BeforeHeaders;
    var q := BodyArm(p).next;
    BodyMoves(p);
    BodyState(p.state);
    BodyState(q.state);
    AfterHeaders(q.state);
  }

  lemma BodyMoves(p: Parser)
    requires IsBody(p.state) && p.contentLength > 0
    ensures var s := BodyArm(p);
      if BetweenMessages(s.next.state) then Notes(s.acts) == [Note(MessageComplete)] && p.state == BodyIdentity
      else
        Notes(s.acts) == [] && s.next.flags == p.flags
        && (s.next.state == p.state || (p.state == ChunkData && s.next.state == ChunkDataAlmostDone))
  {
    hide ShouldKeepAlive;
  }

  /** Every step gives exactly its notices. */
  lemma StepNotified(p: Parser, ch: Byte)
    requires Inv(p) && NoTrailerYet(p) && StepOf(p, ch).next.errno == Ok
    ensures Notified(p, StepOf(p, ch))
  {
    hide UrlArm, VersionArm, HeaderArm, ChunkArm, StartArm, FieldArm, ValueArm, BodyArm, Notified, NoTrailerYet;
    if p.state == Value || p.state == Field {
      InLineNotified(p, ch);
    } else if IsHeaderState(p.state) {
      HeaderNotified(p, ch);
    } else if IsUrlState(p.state) || p.state == SpacesBeforeUrl {
      UrlNotified(p, ch);
    } else if IsBody(p.state) {
      BodyNotified(p);
    } else if IsChunkState(p.state) {
      ChunkNotified(p, ch);
    } else if IsVersionState(p.state) {
      VersionNotified(p, ch);
    } else {
      StartNotified(p, ch);
    }
  }

  lemma {:induction false} CompletesNotes(acts: Acts)
    ensures Completes(acts) <==> Note(HeadersComplete) in Notes(acts)
  {
    match acts
    case Done =>
    case Mark(_, rest) => CompletesNotes(rest);
    case Flush(_, rest) => CompletesNotes(rest);
    case Notify(_, rest) => CompletesNotes(rest);
  }

  /** The notices behind which bytes are counted afresh: the end of the headers, of a size line and of a chunk, but not
      of a trailer. */
  predicate Restarts(notices: seq<Event>) {
    Note(HeadersComplete) in notices || Note(ChunkHeader) in notices || notices == [Note(ChunkComplete)]
  }

  /** Bytes of bodies, and the line ends of chunks, are not counted. */
  predicate Uncounted(s: State) {
    s == BodyIdentity || s == ChunkData || s == ChunkDataAlmostDone || s == ChunkDataDone
  }

  /** How many bytes have been counted towards the limit, behind every byte. */
  lemma CountExactly(p: Parser, nread: nat, ch: Byte)
    requires Ready(p, nread) && NoTrailerYet(p) && RunByte(p, nread, ch).p.errno == Ok
    ensures var o := RunByte(p, nread, ch);
      o.nread == if Restarts(NoticesOf(p, o.p)) then 0 else if Uncounted(p.state) then nread else nread + 1
  {
    hide StepOf, NoTrailerYet, EventsOf, NoticesOf, Inv, Orderly;
    InvOk(p, nread);
    InvOf(p, nread);
    StepNotified(p, ch);
    CompletesNotes(StepOf(p, ch).acts);
    RestartsAt(p, StepOf(p, ch).next);
  }

  lemma InvOf(p: Parser, nread: nat)
    requires Ready(p, nread)
    ensures Inv(p)
  {}

  lemma RestartsAt(p: Parser, q: Parser)
    requires Orderly(p, q)
    ensures Restarts(NoticesOf(p, q)) <==>
      p.state == ChunkSizeAlmostDone || p.state == ChunkDataDone || Note(HeadersComplete) in NoticesOf(p, q)
  {
    hide HeaderLine, AtBody;
    NotBoth(p);
  }

  // ----- Runs -----

  /** How often a notice is given. */
  function Times(n: Notice, e: seq<Event>): nat
    decreases |e|
  {
    if e == [] then 0 else Times(n, Front(e)) + if Last(e) == Note(n) then 1 else 0
  }

  lemma {:induction false} TimesConcat(n: Notice, a: seq<Event>, b: seq<Event>)
    ensures Times(n, a + b) == Times(n, a) + Times(n, b)
    decreases |b|
  {
    if b == [] {
      assert a + b == a;
    } else {
      TimesConcat(n, a, Front(b));
      assert Front(a + b) == a + Front(b) && Last(a + b) == Last(b);
    }
  }

  lemma TimesFew(n: Notice, a: Event, b: Event)
    ensures Times(n, []) == 0 && Times(n, [a]) == if a == Note(n) then 1 else 0
    ensures Times(n, [a, b]) == (if a == Note(n) then 1 else 0) + if b == Note(n) then 1 else 0
  {
    assert Front([a]) == [] && Front([a, b]) == [a];
  }

  lemma StepTimes(p: Parser, ch: Byte, n: Notice)
    requires IsBody(p.state) ==> p.contentLength > 0
    ensures Times(n, EventsOf(p, ch)) == Times(n, Notes(StepOf(p, ch).acts))
  {
    hide StepOf, Notes, After;
    var notes := Notes(StepOf(p, ch).acts);
    TimesFew(n, Event.Byte(BodyData, ch), Event.Byte(BodyData, ch));
    var k := After(StepOf(p, ch).acts, MarkOf(p.state));
    var slice := InSlice(k, ch);
    if slice != [] {
      TimesFew(n, Event.Byte(k.value.value, ch), Event.Byte(BodyData, ch));
    }
    TimesConcat(n, notes, slice);
    TimesConcat(n, notes, []);
    TimesConcat(n, [Event.Byte(BodyData, ch)], notes);
  }

  /** Which notices have been given for the request that is being read. */
  predicate Balanced(p: Parser, e: seq<Event>) {
    && Times(MessageBegin, e) == Times(MessageComplete, e) + (if BetweenMessages(p.state) then 0 else 1)
    && Times(HeadersComplete, e) == Times(MessageComplete, e) + (if InBody(p) then 1 else 0)
    && Times(ChunkHeader, e) == Times(ChunkComplete, e) + (if InChunk(p) then 1 else 0)
  }

  /** How often a step gives a notice. */
  function Given(n: Notice, p: Parser, q: Parser): nat {
    var ends := !BetweenMessages(p.state) && BetweenMessages(q.state);
    match n
    case MessageBegin => if BetweenMessages(p.state) && !BetweenMessages(q.state) then 1 else 0
    case MessageComplete => if ends then 1 else 0
    case HeadersComplete => if !BetweenMessages(p.state) && !InBody(p) && (ends || InBody(q)) then 1 else 0
    case ChunkHeader => if p.state == ChunkSizeAlmostDone then 1 else 0
    case ChunkComplete => if p.state == ChunkDataDone || (ends && InBody(p) && !AtBody(p.state)) then 1 else 0
  }

  lemma NoticesGiven(n: Notice, p: Parser, q: Parser)
    requires Orderly(p, q)
    ensures Times(n, NoticesOf(p, q)) == Given(n, p, q)
  {
    hide Times, HeaderLine, IsChunkState;
    TimesFew(n, Note(MessageBegin), Note(MessageComplete));
    TimesFew(n, Note(HeadersComplete), Note(MessageComplete));
    TimesFew(n, Note(ChunkComplete), Note(MessageComplete));
    TimesFew(n, Note(ChunkHeader), Note(MessageComplete));
    TimesFew(n, Note(MessageComplete), Note(MessageComplete));
    NotBoth(p);
    NotBoth(q);
  }

  /** The balance behind a step. */
  lemma BalanceStep(p: Parser, q: Parser, e: seq<Event>, f: seq<Event>)
    requires Balanced(p, e) && Orderly(p, q)
    requires forall n :: Times(n, f) == Times(n, NoticesOf(p, q))
    ensures Balanced(q, e + f)
  {
    hide Times, AtBody, HeaderLine, NoticesOf;
    forall n: Notice
      ensures Times(n, e + f) == Times(n, e) + Given(n, p, q)
    {
      TimesConcat(n, e, f);
      NoticesGiven(n, p, q);
    }
    NotBoth(p);
    NotBoth(q);
  }

  lemma NotBoth(p: Parser)
    ensures InBody(p) ==> !BetweenMessages(p.state)
    ensures InChunk(p) ==> InBody(p)
    ensures p.state == ChunkSizeAlmostDone || p.state == ChunkDataDone ==> InBody(p)
    ensures p.state == ChunkSizeAlmostDone ==> !InChunk(p)
  {}

  lemma ByteNotified(p: Parser, nread: nat, ch: Byte, e: seq<Event>)
    requires Ready(p, nread) && NoTrailerYet(p) && RunByte(p, nread, ch).p.errno == Ok && Balanced(p, e)
    ensures var o := RunByte(p, nread, ch); NoTrailerYet(o.p) && Balanced(o.p, e + o.events)
  {
    hide StepOf, NoTrailerYet, Balanced, EventsOf, Resets, Orderly, NoticesOf, Notes, Times;
    StepNotified(p, ch);
    InvOk(p, nread);
    forall n: Notice
      ensures Times(n, EventsOf(p, ch)) == Times(n, Notes(StepOf(p, ch).acts))
    {
      StepTimes(p, ch, n);
    }
    BalanceStep(p, RunByte(p, nread, ch).p, e, EventsOf(p, ch));
  }

  /** In every run, each request that has begun is completed exactly once, by its end, its headers are completed
      exactly once, between the two, and every chunk that has begun is completed. */
  lemma {:induction false} NoticesBalance(p: Parser, nread: nat, data: seq<Byte>)
    requires Ready(p, nread) && BetweenMessages(p.state) && Run(p, nread, data).p.errno == Ok
    ensures var o := Run(p, nread, data); NoTrailerYet(o.p) && Balanced(o.p, o.events)
    decreases |data|
  {
    hide RunByte, Ready, NoTrailerYet, Balanced;
    if data == [] {
      NoNotices(p);
    } else {
      var o := Run(p, nread, Front(data));
      NoticesBalance(p, nread, Front(data));
      if Going(o) {
        ByteNotified(o.p, o.nread, Last(data), o.events);
      }
    }
  }

  lemma NoNotices(p: Parser)
    requires BetweenMessages(p.state)
    ensures NoTrailerYet(p) && Balanced(p, [])
  {}
}
