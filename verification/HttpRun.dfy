/** Whole inputs, one byte at a time: what http_parser_execute is measured against. */
module HttpRun {
  import opened Sequences
  import opened HttpChars
  import opened HttpArms
  import opened HttpBytewise

  // ----- Header byte counter -----

  const MAX_HEADER_SIZE: nat := 80 * 1024

  /** PARSING_HEADER: these states count their bytes. */
  predicate Counts(s: State) {
    !IsBody(s) && s != ChunkDataAlmostDone && s != ChunkDataDone
  }

  predicate Completes(acts: Acts) {
    match acts
    case Done => false
    case Mark(_, rest) => Completes(rest)
    case Flush(_, rest) => Completes(rest)
    case Notify(n, rest) => n == HeadersComplete || Completes(rest)
  }

  /** The arms that start the count afresh: end of headers, of a chunk size line and of a chunk. */
  predicate Resets(p: Parser, acts: Acts) {
    p.state == ChunkSizeAlmostDone || p.state == ChunkDataDone || Completes(acts)
  }

  function Counted(p: Parser, nread: nat): nat {
    if Counts(p.state) then nread + 1 else nread
  }

  predicate Ready(p: Parser, nread: nat) {
    Inv(p) && nread <= MAX_HEADER_SIZE && (p.state == ChunkSizeStart ==> nread == 0)
  }

  // ----- Many bytes -----

  /** Final state and count, events, number of bytes consumed, and whether the parser stopped early. */
  datatype Outcome = Outcome(p: Parser, nread: nat, events: seq<Event>, n: nat, stop: bool)

  /** No error, and the next byte continues the same stream. */
  predicate Going(o: Outcome) {
    o.p.errno == Ok && !o.stop
  }

  function RunByte(p: Parser, nread: nat, ch: Byte): (o: Outcome)
    requires Ready(p, nread)
    ensures o.p.errno == Ok ==> Ready(o.p, o.nread) && o.n == 1
  {
    var count := Counted(p, nread);
    if count > MAX_HEADER_SIZE then Outcome(p.(errno := HeaderOverflow), nread, [], 0, false)
    else
      StepSound(p, ch);
      ChunkStart(p, ch);
      var s := StepOf(p, ch);
      if s.next.errno != Ok then Outcome(s.next, count, EventsOf(p, ch), 0, false)
      else Outcome(s.next, if Resets(p, s.acts) then 0 else count, EventsOf(p, ch), 1, s.stop)
  }

  /** A byte overflows the headers if and only if 81920 bytes of them have been counted before. */
  lemma HeaderLimit(p: Parser, nread: nat, ch: Byte)
    requires Ready(p, nread)
    ensures RunByte(p, nread, ch).p.errno == HeaderOverflow <==> Counts(p.state) && nread == 81920
  {
    hide StepOf, Inv, EventsOf, Resets;
    OtherFaults(p, ch);
  }

  /** No arm reports an overflow. */
  lemma OtherFaults(p: Parser, ch: Byte)
    requires Inv(p)
    ensures StepOf(p, ch).next.errno != HeaderOverflow
  {
    hide UrlArm, VersionArm, HeaderArm, ChunkArm, StartArm, FieldArm, ValueArm, BodyArm;
    StartFaults(p, ch);
    UrlFaults(p, ch);
    VersionFaults(p, ch);
    LineFaults(p, ch);
    HeaderFaults(p, ch);
    BodyFaults(p, ch);
  }

  lemma StartFaults(p: Parser, ch: Byte)
    ensures p.errno == Ok ==> StartArm(p, ch).next.errno != HeaderOverflow
  {
    hide MethodChar, NextMethod, FirstMethod;
  }

  lemma UrlFaults(p: Parser, ch: Byte)
    ensures p.errno == Ok ==> UrlArm(p, ch).next.errno != HeaderOverflow
  {
    hide ParseUrlChar;
  }

  lemma VersionFaults(p: Parser, ch: Byte)
    ensures p.errno == Ok ==> VersionArm(p, ch).next.errno != HeaderOverflow
  {}

  lemma LineFaults(p: Parser, ch: Byte)
    ensures p.errno == Ok ==> FieldArm(p, ch).next.errno != HeaderOverflow
    ensures p.errno == Ok ==> ValueArm(p, ch).next.errno != HeaderOverflow
    ensures p.errno == Ok ==> ValueStartArm(p, ch).next.errno != HeaderOverflow
  {
    hide FieldChar, ValueChar, Token, FirstValueState;
    CharFaults(p, ch);
    NameFaults(p, Token(ch));
  }

  lemma CharFaults(p: Parser, ch: Byte)
    ensures p.errno == Ok ==> ValueChar(p, ch).errno != HeaderOverflow && SetConnectionFlag(p).errno == Ok
  {
    hide Lower, TokenStart, MatchWord;
  }

  lemma NameFaults(p: Parser, c: Byte)
    ensures p.errno == Ok ==> FieldChar(p, c).errno == Ok
  {
    hide MatchWord;
  }

  lemma EndFaults(p: Parser, ch: Byte)
    ensures p.errno == Ok ==> HeadersEnd(p, ch).next.errno != HeaderOverflow
    ensures p.errno == Ok ==> FieldStartArm(p, ch).next.errno != HeaderOverflow
  {
    hide Token, ShouldKeepAlive;
  }

  lemma LwsFaults(p: Parser, ch: Byte)
    ensures p.errno == Ok ==> ValueLwsArm(p, ch).next.errno != HeaderOverflow
    ensures p.errno == Ok ==> DiscardLwsArm(p, ch).next.errno != HeaderOverflow
  {
    hide FieldStartArm, ValueStartArm, SetConnectionFlag;
    EndFaults(SetConnectionFlag(p).(state := FieldStart), ch);
    CharFaults(p, ch);
    LineFaults(p, ch);
    LineFaults(p.(hs := ContentLengthWs), ch);
  }

  lemma HeaderFaults(p: Parser, ch: Byte)
    ensures p.errno == Ok ==> HeaderArm(p, ch).next.errno != HeaderOverflow
  {
    hide HeadersEnd, FieldStartArm, ValueStartArm, ValueLwsArm, DiscardLwsArm;
    EndFaults(p, ch);
    LineFaults(p, ch);
    LwsFaults(p, ch);
  }

  lemma BodyFaults(p: Parser, ch: Byte)
    ensures p.errno == Ok ==> ChunkArm(p, ch).next.errno != HeaderOverflow
    ensures p.errno == Ok && p.contentLength > 0 ==> BodyArm(p).next.errno == Ok
  {
    hide Unhex, ShouldKeepAlive;
  }

  /** A chunk size is read from a fresh count. */
  lemma ChunkStart(p: Parser, ch: Byte)
    requires Inv(p)
    ensures var s := StepOf(p, ch);
      s.next.errno == Ok && s.next.state == ChunkSizeStart ==> p.state != ChunkSizeStart && Resets(p, s.acts)
  {
    hide HeaderArm, After, ChunkArm, UrlArm, VersionArm, FieldArm, ValueArm, StartArm, BodyArm, Completes;
    if IsUrlState(p.state) || p.state == SpacesBeforeUrl {
      UrlChunkStart(p, ch);
    } else if p.state == Field || p.state == Value || IsBody(p.state) || IsVersionState(p.state) {
      LineChunkStart(p, ch);
    } else if IsHeaderState(p.state) {
      HeaderChunkStart(p, ch);
    } else if IsChunkState(p.state) {
      ChunkChunkStart(p, ch);
    } else {
      FirstChunkStart(p, ch);
    }
  }

  lemma FirstChunkStart(p: Parser, ch: Byte)
    requires p.state == Dead || p.state == StartReq || p.state == ReqMethod
    ensures StartArm(p, ch).next.state != ChunkSizeStart
  {
    hide MethodChar, NextMethod, FirstMethod;
  }

  lemma UrlChunkStart(p: Parser, ch: Byte)
    ensures UrlArm(p, ch).next.state != ChunkSizeStart || p.state == ChunkSizeStart
  {
    hide ParseUrlChar;
    NoChunkInUrl(SpacesBeforeUrl, ch);
    NoChunkInUrl(p.state, ch);
    NoChunkInUrl(ServerStart, ch);
    match p.state
    case SpacesBeforeUrl =>
    case Schema =>
    case SchemaSlash =>
    case SchemaSlashSlash =>
    case ServerStart =>
    case _ =>
  }

  lemma NoChunkInUrl(s: State, ch: Byte)
    ensures ParseUrlChar(s, ch) != ChunkSizeStart
  {
    hide ParseUrlChar;
    UrlStays(s, ch);
  }

  lemma LineChunkStart(p: Parser, ch: Byte)
    ensures IsBody(p.state) && p.contentLength > 0 ==> BodyArm(p).next.state != ChunkSizeStart
    ensures IsVersionState(p.state) ==> VersionArm(p, ch).next.state != ChunkSizeStart
    ensures p.state == Field ==> FieldArm(p, ch).next.state != ChunkSizeStart
    ensures p.state == Value && ValueArm(p, ch).next.errno == Ok ==> ValueArm(p, ch).next.state != ChunkSizeStart
  {}

  lemma ChunkChunkStart(p: Parser, ch: Byte)
    requires IsChunkState(p.state)
    ensures var s := ChunkArm(p, ch);
      s.next.errno == Ok && p.errno == Ok && s.next.state == ChunkSizeStart ==> p.state == ChunkDataDone
  {}

  lemma HeaderChunkStart(p: Parser, ch: Byte)
    requires IsHeaderState(p.state)
    ensures var s := HeaderArm(p, ch); s.next.errno == Ok && s.next.state == ChunkSizeStart ==> Completes(s.acts)
  {
    match p.state
    case FieldStart => EndChunkStart(p, ch);
    case ValueLws => EndChunkStart(SetConnectionFlag(p).(state := FieldStart), ch);
    case ValueDiscardLws => EndChunkStart(SetConnectionFlag(p).(state := FieldStart), ch);
    case HeadersAlmostDone => EndChunkStart(p, ch);
    case _ =>
  }

  lemma EndChunkStart(p: Parser, ch: Byte)
    ensures var s := FieldStartArm(p, ch); s.next.errno == Ok && s.next.state == ChunkSizeStart ==> Completes(s.acts)
    ensures var s := HeadersEnd(p, ch); s.next.errno == Ok && s.next.state == ChunkSizeStart ==> Completes(s.acts)
  {}

  /** The outcome of first o, then r. */
  function Prepend(o: Outcome, r: Outcome): Outcome {
    Outcome(r.p, r.nread, o.events + r.events, o.n + r.n, r.stop)
  }

  /** All bytes in turn, up to the first error or early stop. */
  function Run(p: Parser, nread: nat, data: seq<Byte>): (o: Outcome)
    requires Ready(p, nread)
    ensures o.p.errno == Ok ==> Ready(o.p, o.nread)
    ensures Going(o) ==> o.n == |data|
    ensures o.n <= |data|
    decreases |data|
  {
    if data == [] then Outcome(p, nread, [], 0, false)
    else
      var o := Run(p, nread, Front(data));
      if Going(o) then Prepend(o, RunByte(o.p, o.nread, Last(data))) else o
  }

  /** The last byte of an input. */
  lemma RunLast(p: Parser, nread: nat, d: seq<Byte>)
    requires Ready(p, nread) && d != []
    ensures var o := Run(p, nread, Front(d));
      Run(p, nread, d) == if Going(o) then Prepend(o, RunByte(o.p, o.nread, Last(d))) else o
  {
    hide RunByte, Ready;
  }

  /** Running on from where a part of the input led is running on the whole input. */
  lemma {:induction false} RunSplit(p: Parser, nread: nat, a: seq<Byte>, b: seq<Byte>)
    requires Ready(p, nread)
    ensures var o := Run(p, nread, a);
      Run(p, nread, a + b) == if Going(o) then Prepend(o, Run(o.p, o.nread, b)) else o
    decreases |b|
  {
    hide RunByte, Ready;
    var o := Run(p, nread, a);
    if b == [] {
      assert a + b == a && o.events + [] == o.events;
    } else {
      RunSplit(p, nread, a, Front(b));
      assert Front(a + b) == a + Front(b) && Last(a + b) == Last(b);
      if Going(o) {
        var m := Run(o.p, o.nread, Front(b));
        if Going(m) {
          var r := RunByte(m.p, m.nread, Last(b));
          assert o.events + (m.events + r.events) == (o.events + m.events) + r.events;
        }
      }
    }
  }

  /** Consecutive calls, each with the next part of the input, until an error or early stop. */
  function RunCalls(p: Parser, nread: nat, calls: seq<seq<Byte>>): (o: Outcome)
    requires Ready(p, nread)
    ensures Going(o) ==> Ready(o.p, o.nread)
    decreases |calls|
  {
    if calls == [] then Outcome(p, nread, [], 0, false)
    else
      var o := RunCalls(p, nread, Front(calls));
      if Going(o) then Prepend(o, Run(o.p, o.nread, Last(calls))) else o
  }

  /** However the input is cut into calls, the result is the same. */
  lemma {:induction false} CutsDoNotMatter(p: Parser, nread: nat, calls: seq<seq<Byte>>)
    requires Ready(p, nread)
    ensures RunCalls(p, nread, calls) == Run(p, nread, Concat(calls))
    decreases |calls|
  {
    if calls != [] {
      CutsDoNotMatter(p, nread, Front(calls));
      RunSplit(p, nread, Concat(Front(calls)), Last(calls));
    }
  }

  // ----- Runs of bytes in one state -----

  function BytesOf(kind: Kind, d: seq<Byte>): (e: seq<Event>)
    decreases |d|
  {
    if d == [] then [] else BytesOf(kind, Front(d)) + [Event.Byte(kind, Last(d))]
  }

  lemma {:induction false} BytesOfConcat(kind: Kind, a: seq<Byte>, b: seq<Byte>)
    ensures BytesOf(kind, a + b) == BytesOf(kind, a) + BytesOf(kind, b)
    decreases |b|
  {
    if b == [] {
      assert a + b == a;
    } else {
      BytesOfConcat(kind, a, Front(b));
      assert Front(a + b) == a + Front(b) && Last(a + b) == Last(b);
    }
  }

  lemma BytesOfOne(kind: Kind, ch: Byte)
    ensures BytesOf(kind, [ch]) == [Event.Byte(kind, ch)]
  {
    assert Front([ch]) == [];
  }

  lemma BytesOfNothing(kind: Kind)
    ensures BytesOf(kind, []) == []
  {}

  lemma BytesOfAppend(kind: Kind, d: seq<Byte>, ch: Byte)
    ensures BytesOf(kind, d + [ch]) == BytesOf(kind, d) + [Event.Byte(kind, ch)]
  {
    assert Front(d + [ch]) == d;
  }

  lemma BytesOfLast(kind: Kind, d: seq<Byte>)
    requires d != []
    ensures BytesOf(kind, d) == BytesOf(kind, Front(d)) + [Event.Byte(kind, Last(d))]
  {}

  /** d leads from (p, nread) to (q, m) with the events of e and nothing else happening. */
  ghost predicate Ran(p: Parser, nread: nat, d: seq<Byte>, q: Parser, m: nat, e: seq<Event>)
    requires Ready(p, nread)
  {
    Run(p, nread, d) == Outcome(q, m, e, |d|, false) && q.errno == Ok
  }

  lemma InvOk(p: Parser, nread: nat)
    requires Ready(p, nread)
    ensures p.errno == Ok && nread <= MAX_HEADER_SIZE && (IsBody(p.state) ==> p.contentLength > 0)
  {}

  lemma RunOne(p: Parser, nread: nat, ch: Byte)
    requires Ready(p, nread)
    ensures Run(p, nread, [ch]) == RunByte(p, nread, ch)
  {
    hide RunByte;
    assert Front([ch]) == [];
    assert [] + RunByte(p, nread, ch).events == RunByte(p, nread, ch).events;
  }

  lemma RanNothing(p: Parser, nread: nat)
    requires Ready(p, nread)
    ensures Ran(p, nread, [], p, nread, [])
  {}

  /** One run after another. */
  lemma Then(p: Parser, n: nat, a: seq<Byte>, q: Parser, m: nat, e: seq<Event>, b: seq<Byte>, r: Parser, k: nat,
             f: seq<Event>)
    requires Ready(p, n) && Ran(p, n, a, q, m, e) && Ready(q, m) && Ran(q, m, b, r, k, f)
    ensures Ran(p, n, a + b, r, k, e + f)
  {
    hide Run, Ready;
    RunSplit(p, n, a, b);
  }

  lemma RanByte(p: Parser, n: nat, ch: Byte, q: Parser, m: nat, e: seq<Event>)
    requires Ready(p, n) && RunByte(p, n, ch) == Outcome(q, m, e, 1, false) && q.errno == Ok
    ensures Ran(p, n, [ch], q, m, e)
  {
    hide Ready, RunByte;
    RunOne(p, n, ch);
  }

  lemma FailsEarly(p: Parser, n: nat, a: seq<Byte>, b: seq<Byte>)
    requires Ready(p, n) && Run(p, n, a).p.errno != Ok
    ensures Run(p, n, a + b) == Run(p, n, a)
  {
    hide Run, Ready;
    RunSplit(p, n, a, b);
  }

  lemma ThenFails(p: Parser, n: nat, a: seq<Byte>, q: Parser, m: nat, e: seq<Event>, b: seq<Byte>)
    requires Ready(p, n) && Ran(p, n, a, q, m, e) && Ready(q, m)
    ensures Run(p, n, a + b).p.errno == Run(q, m, b).p.errno
  {
    hide Run, Ready;
    RunSplit(p, n, a, b);
  }

  function FieldChars(p: Parser, d: seq<Byte>): Parser
    decreases |d|
  {
    if d == [] then p else FieldChar(FieldChars(p, Front(d)), Token(Last(d)))
  }

  predicate Tokens(d: seq<Byte>) {
    forall i :: 0 <= i < |d| ==> Token(d[i]) != 0
  }

  lemma ByteOverflows(p: Parser, ch: Byte)
    requires Ready(p, MAX_HEADER_SIZE) && Counts(p.state)
    ensures var o := RunByte(p, MAX_HEADER_SIZE, ch); o.p.errno == HeaderOverflow && o.n == 0
  {}

  lemma FieldCharStays(p: Parser, c: Byte)
    ensures FieldChar(p, c).state == p.state
  {}

  lemma FieldByte(p: Parser, nread: nat, ch: Byte)
    requires Ready(p, nread) && p.state == Field && Token(ch) != 0 && nread < MAX_HEADER_SIZE
    ensures RunByte(p, nread, ch) == Outcome(FieldChar(p, Token(ch)), nread + 1, [Event.Byte(FieldData, ch)], 1, false)
    ensures FieldChar(p, Token(ch)).errno == Ok && FieldChar(p, Token(ch)).state == Field
  {
    hide FieldChar, Token, Inv;
    InvOk(p, nread);
    FieldCharStays(p, Token(ch));
    NameFaults(p, Token(ch));
  }

  /** A run of token characters of a field name, as long as the header limit allows. */
  lemma {:induction false} FieldRun(p: Parser, nread: nat, d: seq<Byte>)
    requires Ready(p, nread) && p.state == Field && Tokens(d)
    ensures FieldChars(p, d).state == Field
    ensures
      if nread + |d| <= MAX_HEADER_SIZE then
        Ran(p, nread, d, FieldChars(p, d), nread + |d|, BytesOf(FieldData, d))
      else Run(p, nread, d).p.errno == HeaderOverflow
    decreases |d|
  {
    hide RunByte, StepOf, Token, FieldChar, Ready, BytesOf, Inv, Run;
    InvOk(p, nread);
    if d == [] {
      BytesOfNothing(FieldData);
      RanNothing(p, nread);
    } else {
      BytesOfLast(FieldData, d);
      RunLast(p, nread, d);
      FieldRun(p, nread, Front(d));
      FieldCharStays(FieldChars(p, Front(d)), Token(Last(d)));
      if nread + |d| <= MAX_HEADER_SIZE {
        FieldByte(FieldChars(p, Front(d)), nread + |d| - 1, Last(d));
      } else if nread + |d| - 1 == MAX_HEADER_SIZE {
        ByteOverflows(FieldChars(p, Front(d)), Last(d));
      }
    }
  }

  function ValueChars(p: Parser, d: seq<Byte>): Parser
    decreases |d|
  {
    if d == [] then p else ValueChar(ValueChars(p, Front(d)), Last(d))
  }

  predicate IsValueByte(ch: Byte) { ch != CR && ch != LF && IsHeaderChar(ch) }

  /** No byte of d ends the line or is refused. */
  ghost predicate Accepted(p: Parser, d: seq<Byte>)
    decreases |d|
  {
    d == [] || (Accepted(p, Front(d)) && IsValueByte(Last(d)) && ValueChars(p, d).errno == Ok)
  }

  lemma ValueByte(p: Parser, nread: nat, ch: Byte)
    requires Ready(p, nread) && p.state == Value && IsValueByte(ch) && ValueChar(p, ch).errno == Ok
    requires nread < MAX_HEADER_SIZE
    ensures RunByte(p, nread, ch) == Outcome(ValueChar(p, ch), nread + 1, [Event.Byte(ValueData, ch)], 1, false)
    ensures ValueChar(p, ch).state == Value
  {
    ValueCharInv(p, ch);
  }

  /** A run of bytes of a header value. */
  lemma {:induction false} ValueRun(p: Parser, nread: nat, d: seq<Byte>)
    requires Ready(p, nread) && p.state == Value && Accepted(p, d)
    ensures if nread + |d| <= MAX_HEADER_SIZE then
              ValueChars(p, d).state == Value && Ran(p, nread, d, ValueChars(p, d), nread + |d|, BytesOf(ValueData, d))
            else Run(p, nread, d).p.errno == HeaderOverflow
    decreases |d|
  {
    hide RunByte, StepOf, ValueChar, Ready, IsValueByte;
    InvOk(p, nread);
    if d != [] {
      ValueRun(p, nread, Front(d));
      if nread + |d| <= MAX_HEADER_SIZE {
        ValueByte(ValueChars(p, Front(d)), nread + |d| - 1, Last(d));
      } else if nread + |d| - 1 == MAX_HEADER_SIZE {
        ByteOverflows(ValueChars(p, Front(d)), Last(d));
      }
    }
  }

  lemma BodyByte(p: Parser, nread: nat, ch: Byte)
    requires Ready(p, nread) && IsBody(p.state) && p.contentLength > 1
    ensures RunByte(p, nread, ch) == Outcome(p.(contentLength := p.contentLength - 1), nread,
                                             [Event.Byte(BodyData, ch)], 1, false)
  {}

  lemma ShorterBody(p: Parser, nread: nat, k: nat)
    requires Ready(p, nread) && IsBody(p.state) && 0 < k <= p.contentLength
    ensures Ready(p.(contentLength := k), nread)
  {}

  /** A run of body bytes short of the last one. */
  lemma {:induction false} BodyRun(p: Parser, nread: nat, d: seq<Byte>)
    requires Ready(p, nread) && IsBody(p.state) && |d| < p.contentLength
    ensures Ran(p, nread, d, p.(contentLength := p.contentLength - |d|), nread, BytesOf(BodyData, d))
    decreases |d|
  {
    hide RunByte, StepOf, Ready;
    InvOk(p, nread);
    if d != [] {
      BodyRun(p, nread, Front(d));
      ShorterBody(p, nread, p.contentLength - (|d| - 1));
      BodyByte(p.(contentLength := p.contentLength - (|d| - 1)), nread, Last(d));
    }
  }

  lemma LastChunkByte(p: Parser, nread: nat, ch: Byte)
    requires Ready(p, nread) && p.state == ChunkData && p.contentLength == 1
    ensures RunByte(p, nread, ch) ==
      Outcome(p.(contentLength := 0, state := ChunkDataAlmostDone), nread, [Event.Byte(BodyData, ch)], 1, false)
  {}

  lemma LastIdentityByte(p: Parser, nread: nat, ch: Byte)
    requires Ready(p, nread) && p.state == BodyIdentity && p.contentLength == 1
    ensures RunByte(p, nread, ch) ==
      Outcome(NewMessage(p.(contentLength := 0)), nread, [Event.Byte(BodyData, ch), Note(MessageComplete)], 1,
              p.upgrade)
  {
    hide ShouldKeepAlive, Arm, BulkArm;
    assert StepOf(p, ch) == MessageEnd(p.(contentLength := 0));
  }

  /** The whole of a chunk: its last byte leads on to the line end. */
  lemma ChunkRun(p: Parser, nread: nat, d: seq<Byte>)
    requires Ready(p, nread) && p.state == ChunkData && |d| == p.contentLength
    ensures Run(p, nread, d) ==
      Outcome(p.(contentLength := 0, state := ChunkDataAlmostDone), nread, BytesOf(BodyData, d), |d|, false)
  {
    hide RunByte, StepOf, NewMessage, BytesOf, Ready;
    InvOk(p, nread);
    BytesOfLast(BodyData, d);
    ShorterBody(p, nread, 1);
    BodyRun(p, nread, Front(d));
    LastChunkByte(p.(contentLength := 1), nread, Last(d));
  }

  /** The whole of a body of declared length: its last byte completes the message. */
  lemma IdentityRun(p: Parser, nread: nat, d: seq<Byte>)
    requires Ready(p, nread) && p.state == BodyIdentity && |d| == p.contentLength
    ensures Run(p, nread, d) ==
      Outcome(NewMessage(p.(contentLength := 0)), nread, BytesOf(BodyData, d) + [Note(MessageComplete)], |d|, p.upgrade)
  {
    hide RunByte, StepOf, NewMessage, BytesOf, Ready;
    InvOk(p, nread);
    BytesOfLast(BodyData, d);
    ShorterBody(p, nread, 1);
    BodyRun(p, nread, Front(d));
    LastIdentityByte(p.(contentLength := 1), nread, Last(d));
    Assoc(BytesOf(BodyData, Front(d)), Event.Byte(BodyData, Last(d)), Note(MessageComplete));
  }

  lemma Assoc(a: seq<Event>, b: Event, c: Event)
    ensures a + [b, c] == a + [b] + [c]
  {}
}
