/** The chunked coding of a body: what cc_http/cc_http_client_reply.c queues is what the parser reads back. */
module HttpChunked {
  import opened Sequences
  import opened HttpChars
  import opened HttpArms
  import opened HttpBytewise
  import opened HttpRun
  import opened HttpBody
  import opened Digits
  import opened HttpTables

  const CRLF: seq<Byte> := [CR, LF]

  /** A chunk as it is queued: size in hexadecimal, line end, data, line end. */
  function EncodeChunk(piece: seq<Byte>): seq<Byte> {
    Numeral(|piece|, 16, false) + CRLF + (piece + CRLF)
  }

  const LAST_CHUNK: seq<Byte> := [48, CR, LF, CR, LF]

  function Encode(pieces: seq<seq<Byte>>): seq<Byte> {
    if pieces == [] then [] else Encode(Front(pieces)) + EncodeChunk(Last(pieces))
  }

  /** What the parser reports of one chunk. */
  function ChunkEvents(piece: seq<Byte>): seq<Event> {
    [Note(ChunkHeader)] + BytesOf(BodyData, piece) + [Note(ChunkComplete)]
  }

  function AllEvents(pieces: seq<seq<Byte>>): seq<Event> {
    if pieces == [] then [] else AllEvents(Front(pieces)) + ChunkEvents(Last(pieces))
  }

  // ----- The size line -----

  lemma SizeCr(p: Parser, n: nat)
    requires Ready(p, n) && (p.state == ChunkSize || p.state == ChunkParameters) && n < MAX_HEADER_SIZE
    ensures RunByte(p, n, CR) == Outcome(p.(state := ChunkSizeAlmostDone), n + 1, [], 1, false)
  {}

  /** The parser after the line of a size v. */
  function AfterSize(p: Parser, v: nat): Parser {
    if v == 0 then p.(flags := p.flags.(trailing := true), state := FieldStart, contentLength := 0)
    else p.(state := ChunkData, contentLength := v)
  }

  lemma SizeLf(p: Parser, n: nat)
    requires Ready(p, n) && p.state == ChunkSizeAlmostDone && n < MAX_HEADER_SIZE
    ensures RunByte(p, n, LF) == Outcome(AfterSize(p, p.contentLength), 0, [Note(ChunkHeader)], 1, false)
  {}

  lemma SizeInv(p: Parser, v: nat, n: nat)
    requires Ready(p, 0) && p.state == ChunkSizeStart && v <= MAX_CHUNK && n <= MAX_HEADER_SIZE
    ensures Ready(p.(state := ChunkSize, contentLength := v), n)
    ensures Ready(p.(state := ChunkSizeAlmostDone, contentLength := v), n)
    ensures Ready(AfterSize(p, v), 0)
  {}

  /** The line end behind a size, from either state of the size line. */
  lemma SizeEnd(p: Parser, v: nat, n: nat, s: State)
    requires Ready(p, 0) && p.state == ChunkSizeStart && v <= MAX_CHUNK && n + 2 <= MAX_HEADER_SIZE
    requires (s == ChunkSize || s == ChunkParameters) && Ready(p.(state := s, contentLength := v), n)
    ensures Ran(p.(state := s, contentLength := v), n, CRLF, AfterSize(p, v), 0, [Note(ChunkHeader)])
  {
    hide RunByte, Ready, Ran, Inv;
    SizeInv(p, v, n);
    SizeInv(p, v, n + 1);
    InvOk(p, 0);
    var q := p.(state := s, contentLength := v);
    var r := p.(state := ChunkSizeAlmostDone, contentLength := v);
    assert q.(state := ChunkSizeAlmostDone) == r && AfterSize(r, v) == AfterSize(p, v);
    SizeCr(q, n);
    SizeLf(r, n + 1);
    RanByte(q, n, CR, r, n + 1, []);
    RanByte(r, n + 1, LF, AfterSize(p, v), 0, [Note(ChunkHeader)]);
    Then(q, n, [CR], r, n + 1, [], [LF], AfterSize(p, v), 0, [Note(ChunkHeader)]);
    assert [CR] + [LF] == CRLF && [] + [Note(ChunkHeader)] == [Note(ChunkHeader)];
  }

  /** A chunk extension: nothing, or a semicolon or space and anything but CR. */
  predicate IsExtension(e: seq<Byte>) {
    e == [] || ((e[0] == SEMICOLON || e[0] == SPACE) && forall i :: 0 <= i < |e| ==> e[i] != CR)
  }

  lemma ExtensionByte(p: Parser, n: nat, ch: Byte)
    requires Ready(p, n) && n < MAX_HEADER_SIZE && ch != CR
    requires if p.state == ChunkSize then ch == SEMICOLON || ch == SPACE else p.state == ChunkParameters
    ensures RunByte(p, n, ch) == Outcome(p.(state := ChunkParameters), n + 1, [], 1, false)
  {
    hide HeaderArm, UrlArm, VersionArm, StartArm;
  }

  lemma ParametersInv(p: Parser, n: nat, k: nat)
    requires Ready(p, n) && p.state == ChunkSize && n + k <= MAX_HEADER_SIZE
    ensures Ready(p.(state := ChunkParameters), n + k) && p.errno == Ok
  {}

  /** The bytes of an extension are skipped. */
  lemma {:induction false} ExtensionRun(p: Parser, n: nat, e: seq<Byte>)
    requires Ready(p, n) && p.state == ChunkSize && IsExtension(e) && e != [] && n + |e| <= MAX_HEADER_SIZE
    ensures Ran(p, n, e, p.(state := ChunkParameters), n + |e|, [])
    decreases |e|
  {
    hide Run, RunByte, Ready, Ran, Inv;
    var k, q := |e| - 1, p.(state := ChunkParameters);
    ParametersInv(p, n, k);
    assert Front(e) + [e[k]] == e;
    NothingBefore([]);
    if k == 0 {
      ExtensionByte(p, n, e[0]);
      RanByte(p, n, e[0], q, n + 1, []);
      assert e == [e[0]];
    } else {
      ExtensionRun(p, n, Front(e));
      ExtensionByte(q, n + k, e[k]);
      RanByte(q, n + k, e[k], q, n + k + 1, []);
      Then(p, n, Front(e), q, n + k, [], [e[k]], q, n + k + 1, []);
    }
  }

  /** Any size line a client may send: digits of either case, leading zeros, an extension. */
  lemma AnySizeLine(p: Parser, d: seq<Byte>, e: seq<Byte>)
    requires Ready(p, 0) && p.state == ChunkSizeStart && d != [] && AreDigits(16, d) && IsExtension(e)
    requires |d| + |e| + 2 <= MAX_HEADER_SIZE && ValueOf(16, d) <= MAX_CHUNK
    ensures Ran(p, 0, d + e + CRLF, AfterSize(p, ValueOf(16, d)), 0, [Note(ChunkHeader)])
  {
    hide Run, RunByte, Ready, Ran, ValueOf, IsExtension;
    var v, n := ValueOf(16, d), |d| + |e|;
    var q := p.(state := ChunkSize, contentLength := v);
    ChunkSizeDigits(p, d);
    SizeInv(p, v, |d|);
    NothingBefore([Note(ChunkHeader)]);
    if e == [] {
      SizeEnd(p, v, |d|, ChunkSize);
      Then(p, 0, d, q, |d|, [], CRLF, AfterSize(p, v), 0, [Note(ChunkHeader)]);
      assert d + e == d;
    } else {
      var r := p.(state := ChunkParameters, contentLength := v);
      ExtensionRun(q, |d|, e);
      ParametersInv(q, |d|, |e|);
      assert q.(state := ChunkParameters) == r;
      Then(p, 0, d, q, |d|, [], e, r, n, []);
      NothingBefore([]);
      SizeEnd(p, v, n, ChunkParameters);
      Then(p, 0, d + e, r, n, [], CRLF, AfterSize(p, v), 0, [Note(ChunkHeader)]);
    }
  }

  /** The size by the places of its digits among the sixteen. */
  lemma SpelledSizeLine(p: Parser, d: seq<Byte>, places: seq<nat>, e: seq<Byte>)
    requires Ready(p, 0) && p.state == ChunkSizeStart && d != [] && Spelled(d, places) && IsExtension(e)
    requires |d| + |e| + 2 <= MAX_HEADER_SIZE && Positional(16, places) <= MAX_CHUNK
    ensures Ran(p, 0, d + e + CRLF, AfterSize(p, Positional(16, places)), 0, [Note(ChunkHeader)])
  {
    hide Run, Ready, Ran, ValueOf, Positional, AreDigits;
    SpelledValue(16, d, places);
    AnySizeLine(p, d, e);
  }

  lemma NothingBefore(e: seq<Event>)
    ensures [] + e == e
  {}

  lemma SizeLine(p: Parser, v: nat)
    requires Ready(p, 0) && p.state == ChunkSizeStart && v <= MAX_CHUNK
    ensures Ran(p, 0, Numeral(v, 16, false) + CRLF, AfterSize(p, v), 0, [Note(ChunkHeader)])
  {
    hide Run, RunByte, Ready, Ran, Numeral, ValueOf;
    var d := Numeral(v, 16, false);
    NumeralValue(v, 16, false);
    SizeLength(v);
    AnySizeLine(p, d, []);
    assert d + [] == d;
  }

  lemma SizeLength(v: nat)
    requires v <= MAX_CHUNK
    ensures 0 < |Numeral(v, 16, false)| <= 16
  {
    assert Power(16, 4) == 0x1_0000;
    assert Power(16, 8) == 0x1_0000_0000;
    assert Power(16, 12) == 0x1_0000_0000_0000;
    assert Power(16, 16) == 0x1_0000_0000_0000_0000;
    NumeralLength(v, 16, false, 16);
  }

  // ----- Data and line end -----

  lemma DataCr(p: Parser, n: nat)
    requires Ready(p, n) && p.state == ChunkDataAlmostDone
    ensures RunByte(p, n, CR) == Outcome(p.(state := ChunkDataDone), n, [], 1, false)
  {}

  lemma DataLf(p: Parser, n: nat)
    requires Ready(p, n) && p.state == ChunkDataDone
    ensures RunByte(p, n, LF) == Outcome(p.(state := ChunkSizeStart), 0, [Note(ChunkComplete)], 1, false)
  {}

  lemma DataInv(p: Parser)
    requires Ready(p, 0) && p.state == ChunkData
    ensures Ready(p.(state := ChunkDataAlmostDone, contentLength := 0), 0)
    ensures Ready(p.(state := ChunkDataDone, contentLength := 0), 0)
    ensures Ready(p.(state := ChunkSizeStart, contentLength := 0), 0) && p.errno == Ok
  {}

  lemma DataLine(p: Parser, piece: seq<Byte>)
    requires Ready(p, 0) && p.state == ChunkData && p.contentLength == |piece|
    ensures Ran(p, 0, piece + CRLF, p.(state := ChunkSizeStart, contentLength := 0), 0,
                BytesOf(BodyData, piece) + [Note(ChunkComplete)])
  {
    hide Run, RunByte, Ready, BytesOf, Inv, StepOf;
    DataInv(p);
    var q := p.(state := ChunkDataAlmostDone, contentLength := 0);
    var r := p.(state := ChunkDataDone, contentLength := 0);
    var s := p.(state := ChunkSizeStart, contentLength := 0);
    ChunkRun(p, 0, piece);
    DataCr(q, 0);
    DataLf(r, 0);
    RanByte(q, 0, CR, r, 0, []);
    RanByte(r, 0, LF, s, 0, [Note(ChunkComplete)]);
    Then(q, 0, [CR], r, 0, [], [LF], s, 0, [Note(ChunkComplete)]);
    assert [CR] + [LF] == CRLF && [] + [Note(ChunkComplete)] == [Note(ChunkComplete)];
    Then(p, 0, piece, q, 0, BytesOf(BodyData, piece), CRLF, s, 0, [Note(ChunkComplete)]);
  }

  /** A chunk as a client may send it. */
  datatype Chunk = Chunk(size: seq<Byte>, extension: seq<Byte>, data: seq<Byte>)

  ghost predicate IsChunk(c: Chunk) {
    && c.size != [] && AreDigits(16, c.size) && IsExtension(c.extension)
    && |c.size| + |c.extension| + 2 <= MAX_HEADER_SIZE && 0 < ValueOf(16, c.size) == |c.data| <= MAX_CHUNK
  }

  function ChunkBytes(c: Chunk): seq<Byte> { c.size + c.extension + CRLF + (c.data + CRLF) }

  /** However its size is written, a chunk is read as its data between a chunk header and a chunk end. */
  lemma AnyChunk(p: Parser, c: Chunk)
    requires Ready(p, 0) && p.state == ChunkSizeStart && IsChunk(c)
    ensures Ran(p, 0, ChunkBytes(c), p.(contentLength := 0), 0, ChunkEvents(c.data))
    ensures Ready(p.(contentLength := 0), 0)
  {
    hide Run, RunByte, Ready, BytesOf, Ran, ValueOf, IsExtension;
    var v := |c.data|;
    var q := AfterSize(p, v);
    SizeInv(p, v, 0);
    AnySizeLine(p, c.size, c.extension);
    DataInv(q);
    DataLine(q, c.data);
    assert q.(state := ChunkSizeStart, contentLength := 0) == p.(contentLength := 0);
    Then(p, 0, c.size + c.extension + CRLF, q, 0, [Note(ChunkHeader)],
         c.data + CRLF, p.(contentLength := 0), 0, BytesOf(BodyData, c.data) + [Note(ChunkComplete)]);
    assert [Note(ChunkHeader)] + (BytesOf(BodyData, c.data) + [Note(ChunkComplete)]) == ChunkEvents(c.data);
  }

  /** A queued chunk is read back as its data between a chunk header and a chunk end. */
  lemma ChunkRoundTrip(p: Parser, piece: seq<Byte>)
    requires Ready(p, 0) && p.state == ChunkSizeStart && 0 < |piece| <= MAX_CHUNK
    ensures Ran(p, 0, EncodeChunk(piece), p.(contentLength := 0), 0, ChunkEvents(piece))
    ensures Ready(p.(contentLength := 0), 0)
  {
    hide Run, RunByte, Ready, BytesOf, Numeral, Ran, ValueOf, ChunkEvents;
    var d := Numeral(|piece|, 16, false);
    NumeralValue(|piece|, 16, false);
    SizeLength(|piece|);
    AnyChunk(p, Chunk(d, [], piece));
    assert d + [] == d;
  }

  ghost predicate Sendable(pieces: seq<seq<Byte>>) {
    forall k :: 0 <= k < |pieces| ==> 0 < |pieces[k]| <= MAX_CHUNK
  }

  /** The parser between chunks: the size of the last one is used up. */
  function BetweenChunks(p: Parser, pieces: seq<seq<Byte>>): Parser {
    if pieces == [] then p else p.(contentLength := 0)
  }

  lemma BetweenReady(p: Parser, pieces: seq<seq<Byte>>)
    requires Ready(p, 0) && p.state == ChunkSizeStart
    ensures Ready(BetweenChunks(p, pieces), 0)
  {}

  lemma {:induction false} ChunksRoundTrip(p: Parser, pieces: seq<seq<Byte>>)
    requires Ready(p, 0) && p.state == ChunkSizeStart && Sendable(pieces)
    ensures Ran(p, 0, Encode(pieces), BetweenChunks(p, pieces), 0, AllEvents(pieces))
    decreases |pieces|
  {
    hide Run, RunByte, Ready, EncodeChunk, ChunkEvents, Ran;
    if pieces == [] {
      RanNothing(p, 0);
    } else {
      assert Last(pieces) == pieces[|pieces| - 1];
      ChunksRoundTrip(p, Front(pieces));
      var q := BetweenChunks(p, Front(pieces));
      BetweenReady(p, Front(pieces));
      ChunkRoundTrip(q, Last(pieces));
      assert q.(contentLength := 0) == BetweenChunks(p, pieces);
      Then(p, 0, Encode(Front(pieces)), q, 0, AllEvents(Front(pieces)),
           EncodeChunk(Last(pieces)), BetweenChunks(p, pieces), 0, ChunkEvents(Last(pieces)));
    }
  }

  // ----- The last chunk -----

  lemma TrailerCr(p: Parser)
    requires Ready(p, 0) && p.state == FieldStart && p.flags.trailing
    ensures RunByte(p, 0, CR) == Outcome(p.(state := HeadersAlmostDone), 1, [], 1, false)
    ensures Ready(p.(state := HeadersAlmostDone), 1)
  {}

  lemma TrailerLf(p: Parser)
    requires Ready(p, 1) && p.state == HeadersAlmostDone && p.flags.trailing
    ensures RunByte(p, 1, LF) == Outcome(NewMessage(p), 2, [Note(ChunkComplete), Note(MessageComplete)], 1, p.upgrade)
  {
    hide ShouldKeepAlive, FieldArm, ValueArm, UrlArm, VersionArm, ChunkArm, StartArm;
    assert [Note(ChunkComplete)] + [Note(MessageComplete)] == [Note(ChunkComplete), Note(MessageComplete)];
  }

  /** The parser after a message whose last chunk was read. */
  function Finished(p: Parser): Parser {
    NewMessage(p.(flags := p.flags.(trailing := true), contentLength := 0, state := HeadersAlmostDone))
  }

  /** A size of zero, with its line end and the first byte of the empty line */
  lemma LastSize(p: Parser, z: seq<Byte>, e: seq<Byte>)
    requires Ready(p, 0) && p.state == ChunkSizeStart && IsLastSize(z, e)
    ensures var r := AfterSize(p, 0).(state := HeadersAlmostDone);
      Ready(r, 1) && Ran(p, 0, z + e + CRLF + [CR], r, 1, [Note(ChunkHeader)])
  {
    hide Run, RunByte, Ready, ValueOf, Ran, IsExtension;
    AnySizeLine(p, z, e);
    var q := AfterSize(p, 0);
    SizeInv(p, 0, 0);
    TrailerCr(q);
    var r := q.(state := HeadersAlmostDone);
    InvOk(p, 0);
    RanByte(q, 0, CR, r, 1, []);
    Then(p, 0, z + e + CRLF, q, 0, [Note(ChunkHeader)], [CR], r, 1, []);
    assert [Note(ChunkHeader)] + [] == [Note(ChunkHeader)];
  }

  /** A size line that says zero. */
  ghost predicate IsLastSize(z: seq<Byte>, e: seq<Byte>) {
    && z != [] && AreDigits(16, z) && ValueOf(16, z) == 0 && IsExtension(e)
    && |z| + |e| + 2 <= MAX_HEADER_SIZE
  }

  const END_EVENTS: seq<Event> := [Note(ChunkHeader), Note(ChunkComplete), Note(MessageComplete)]

  /** The end of a chunked message without trailers. */
  lemma MessageEnds(p: Parser, z: seq<Byte>, e: seq<Byte>)
    requires Ready(p, 0) && p.state == ChunkSizeStart && IsLastSize(z, e)
    ensures Run(p, 0, z + e + CRLF + CRLF) == Outcome(Finished(p), 2, END_EVENTS, |z| + |e| + 4, p.upgrade)
  {
    hide Run, RunByte, Ready, NewMessage, IsLastSize;
    LastSize(p, z, e);
    var r := AfterSize(p, 0).(state := HeadersAlmostDone);
    TrailerLf(r);
    RunOne(r, 1, LF);
    RunSplit(p, 0, z + e + CRLF + [CR], [LF]);
    assert z + e + CRLF + [CR] + [LF] == z + e + CRLF + CRLF;
    assert [Note(ChunkHeader)] + [Note(ChunkComplete), Note(MessageComplete)] == END_EVENTS;
  }

  lemma LastChunkLine(p: Parser)
    requires Ready(p, 0) && p.state == ChunkSizeStart
    ensures Run(p, 0, LAST_CHUNK) == Outcome(Finished(p), 2, END_EVENTS, 5, p.upgrade)
  {
    hide Run, Ready, NewMessage;
    ZeroIsLast();
    MessageEnds(p, [48], []);
    assert [48] + [] + CRLF + CRLF == LAST_CHUNK;
  }

  lemma ZeroIsLast()
    ensures IsLastSize([48], [])
  {
    assert [48][..0] == [];
    assert ValueFrom(0, 16, [48][..0]) == 0;
  }

  /** Whatever non-empty pieces are sent, the parser accepts the coding, delivers exactly the pieces
      in order and completes one message at its last byte. */
  lemma ChunkedRoundTrip(p: Parser, pieces: seq<seq<Byte>>)
    requires Ready(p, 0) && p.state == ChunkSizeStart && Sendable(pieces)
    ensures Run(p, 0, Encode(pieces) + LAST_CHUNK) ==
      Outcome(Finished(p), 2, AllEvents(pieces) + END_EVENTS, |Encode(pieces)| + 5, p.upgrade)
  {
    hide Run, RunByte, Ready, Encode, AllEvents;
    ChunksRoundTrip(p, pieces);
    BetweenReady(p, pieces);
    LastChunkLine(BetweenChunks(p, pieces));
    RunSplit(p, 0, Encode(pieces), LAST_CHUNK);
  }

  /** The body bytes among events. */
  function Body(e: seq<Event>): seq<Byte> {
    if e == [] then [] else Body(Front(e)) + if Last(e).Byte? && Last(e).kind == BodyData then [Last(e).b] else []
  }

  /** As many as HttpBody counts. */
  lemma {:induction false} BodyCounted(e: seq<Event>)
    ensures |Body(e)| == BodyBytes(e)
    decreases |e|
  {
    if e != [] {
      BodyCounted(Front(e));
    }
  }

  lemma {:induction false} BodyConcat(a: seq<Event>, b: seq<Event>)
    ensures Body(a + b) == Body(a) + Body(b)
    decreases |b|
  {
    if b == [] {
      assert a + b == a;
    } else {
      BodyConcat(a, Front(b));
      assert Front(a + b) == a + Front(b) && Last(a + b) == Last(b);
    }
  }

  lemma {:induction false} BodyOfBytes(piece: seq<Byte>)
    ensures Body(BytesOf(BodyData, piece)) == piece
    decreases |piece|
  {
    hide Body;
    if piece == [] {
      BodyOfNothing();
    } else {
      BodyOfBytes(Front(piece));
      BodyConcat(BytesOf(BodyData, Front(piece)), [Event.Byte(BodyData, Last(piece))]);
      BodyOfByte(Last(piece));
      assert Front(piece) + [Last(piece)] == piece;
    }
  }

  lemma BodyOfByte(b: Byte)
    ensures Body([Event.Byte(BodyData, b)]) == [b]
  {
    assert Front([Event.Byte(BodyData, b)]) == [] && [] + [b] == [b];
  }

  lemma BodyOfNote(n: Notice)
    ensures Body([Note(n)]) == []
  {
    assert Front([Note(n)]) == [];
  }

  /** The events of the pieces carry their concatenation. */
  lemma {:induction false} BodyOfPieces(pieces: seq<seq<Byte>>)
    ensures Body(AllEvents(pieces)) == Concat(pieces)
    decreases |pieces|
  {
    hide Body, BytesOf;
    if pieces == [] {
      assert Body([]) == [] by { BodyOfNothing(); }
    } else {
      BodyOfPieces(Front(pieces));
      var e, piece := AllEvents(Front(pieces)), Last(pieces);
      var d := BytesOf(BodyData, piece);
      BodyOfBytes(piece);
      BodyConcat([Note(ChunkHeader)], d);
      BodyConcat([Note(ChunkHeader)] + d, [Note(ChunkComplete)]);
      BodyOfNote(ChunkHeader);
      BodyOfNote(ChunkComplete);
      BodyConcat(e, ChunkEvents(piece));
      assert [] + piece + [] == piece;
    }
  }

  lemma BodyOfNothing()
    ensures Body([]) == []
  {}

  /** The whole coding delivers the concatenation of the pieces as its body. */
  lemma DeliversPieces(p: Parser, pieces: seq<seq<Byte>>)
    requires Ready(p, 0) && p.state == ChunkSizeStart && Sendable(pieces)
    ensures Body(Run(p, 0, Encode(pieces) + LAST_CHUNK).events) == Concat(pieces)
  {
    hide Run, Ready, Encode, AllEvents, Body, Concat;
    ChunkedRoundTrip(p, pieces);
    BodyOfPieces(pieces);
    BodyOfEnd();
    BodyConcat(AllEvents(pieces), END_EVENTS);
    assert Concat(pieces) + [] == Concat(pieces);
  }

  lemma BodyOfEnd()
    ensures Body(END_EVENTS) == []
  {
    hide Body;
    BodyOfNote(ChunkHeader);
    BodyOfNote(ChunkComplete);
    BodyOfNote(MessageComplete);
    BodyConcat([Note(ChunkHeader)], [Note(ChunkComplete)]);
    BodyConcat([Note(ChunkHeader), Note(ChunkComplete)], [Note(MessageComplete)]);
    assert [Note(ChunkHeader)] + [Note(ChunkComplete)] == [Note(ChunkHeader), Note(ChunkComplete)];
    assert [Note(ChunkHeader), Note(ChunkComplete)] + [Note(MessageComplete)]
        == [Note(ChunkHeader), Note(ChunkComplete), Note(MessageComplete)];
  }

  // ----- A chunk without its data -----

  /** What is queued for a chunk: its data only if a buffer of the context holds it. */
  function QueuedChunk(piece: seq<Byte>, held: bool): seq<Byte> {
    if held then EncodeChunk(piece) else Numeral(|piece|, 16, false) + CRLF + CRLF
  }

  /** The line end that follows a size n without data is read as the data. One byte of data takes the CR, and
      the LF is refused; otherwise CR LF is delivered as body, and the rest of the chunk is still awaited. */
  lemma MissingData(p: Parser, n: nat)
    requires Ready(p, 0) && p.state == ChunkSizeStart && 0 < n <= MAX_CHUNK
    ensures var o := Run(p, 0, Numeral(n, 16, false) + CRLF + CRLF);
      && o.events == [Note(ChunkHeader)] + BytesOf(BodyData, if n == 1 then [CR] else CRLF)
      && (if n == 1 then o.p.errno == Strict
          else if n == 2 then Going(o) && o.p == p.(state := ChunkDataAlmostDone, contentLength := 0)
          else Going(o) && o.p == p.(state := ChunkData, contentLength := n - 2))
  {
    hide Run, RunByte, Ready, Numeral, BytesOf, Ran;
    var q, d := AfterSize(p, n), Numeral(n, 16, false) + CRLF;
    SizeInv(p, n, 0);
    SizeLine(p, n);
    RanOutcome(p, d, q, [Note(ChunkHeader)]);
    RunSplit(p, 0, d, CRLF);
    LineEndAsData(q);
  }

  /** A line end as the first data of a chunk. */
  lemma LineEndAsData(p: Parser)
    requires Ready(p, 0) && p.state == ChunkData
    ensures var o, n := Run(p, 0, CRLF), p.contentLength;
      && o.events == BytesOf(BodyData, if n == 1 then [CR] else CRLF)
      && (if n == 1 then o.p.errno == Strict
          else if n == 2 then Going(o) && o.p == p.(state := ChunkDataAlmostDone, contentLength := 0)
          else Going(o) && o.p == p.(state := ChunkData, contentLength := n - 2))
  {
    hide Run, Ready, BytesOf;
    InvOk(p, 0);
    if p.contentLength == 1 {
      CrLfRefused(p);
    } else if p.contentLength == 2 {
      ChunkRun(p, 0, CRLF);
    } else {
      BodyRun(p, 0, CRLF);
    }
  }

  lemma RanOutcome(p: Parser, d: seq<Byte>, q: Parser, e: seq<Event>)
    requires Ready(p, 0) && Ran(p, 0, d, q, 0, e)
    ensures Run(p, 0, d) == Outcome(q, 0, e, |d|, false) && q.errno == Ok
  {}

  /** A line end as the whole data of a chunk of one byte. */
  lemma CrLfRefused(p: Parser)
    requires Ready(p, 0) && p.state == ChunkData && p.contentLength == 1
    ensures var o := Run(p, 0, CRLF); o.p.errno == Strict && o.events == BytesOf(BodyData, [CR])
  {
    hide Run, RunByte, Ready, BytesOf;
    DataInv(p);
    ChunkRun(p, 0, [CR]);
    var r := p.(contentLength := 0, state := ChunkDataAlmostDone);
    LfRefused(r);
    RunOne(r, 0, LF);
    assert [CR] + [LF] == CRLF;
    RunSplit(p, 0, [CR], [LF]);
    assert BytesOf(BodyData, [CR]) + [] == BytesOf(BodyData, [CR]);
  }

  lemma LfRefused(p: Parser)
    requires Ready(p, 0) && p.state == ChunkDataAlmostDone
    ensures var o := RunByte(p, 0, LF); o.p.errno == Strict && o.events == []
  {}

  /** What was queued is read back as the chunk if and only if its data was queued. */
  lemma ReadBackIffHeld(p: Parser, piece: seq<Byte>, held: bool)
    requires Ready(p, 0) && p.state == ChunkSizeStart && 0 < |piece| <= MAX_CHUNK
    ensures Run(p, 0, QueuedChunk(piece, held)).events == ChunkEvents(piece) <==> held
    ensures held ==> Ran(p, 0, QueuedChunk(piece, held), p.(contentLength := 0), 0, ChunkEvents(piece))
  {
    hide Run, Ready, Numeral, Ran, EncodeChunk;
    if held {
      ChunkRoundTrip(p, piece);
      RanOutcome(p, EncodeChunk(piece), p.(contentLength := 0), ChunkEvents(piece));
    } else {
      MissingData(p, |piece|);
      var d := if |piece| == 1 then [CR] else CRLF;
      BytesOfLast(BodyData, d);
      var e, f := [Note(ChunkHeader)] + BytesOf(BodyData, d), ChunkEvents(piece);
      assert Last(e) == Event.Byte(BodyData, Last(d)) && Last(f) == Note(ChunkComplete);
    }
  }

  // ----- Any chunked message -----

  function AllChunks(chunks: seq<Chunk>): seq<Byte> {
    if chunks == [] then [] else AllChunks(Front(chunks)) + ChunkBytes(Last(chunks))
  }

  function DataOf(chunks: seq<Chunk>): (d: seq<seq<Byte>>)
    ensures |d| == |chunks|
  {
    if chunks == [] then [] else DataOf(Front(chunks)) + [Last(chunks).data]
  }

  /** The sum of the sizes that the size lines declare. */
  function Sizes(chunks: seq<Chunk>): nat {
    if chunks == [] then 0 else Sizes(Front(chunks)) + ValueOf(16, Last(chunks).size)
  }

  ghost predicate AreChunks(chunks: seq<Chunk>) {
    forall k :: 0 <= k < |chunks| ==> IsChunk(chunks[k])
  }

  lemma {:induction false} ChunksRun(p: Parser, chunks: seq<Chunk>)
    requires Ready(p, 0) && p.state == ChunkSizeStart && AreChunks(chunks)
    ensures Ran(p, 0, AllChunks(chunks), BetweenChunks(p, DataOf(chunks)), 0, AllEvents(DataOf(chunks)))
    decreases |chunks|
  {
    hide Run, RunByte, Ready, ChunkBytes, ChunkEvents, Ran, IsChunk;
    if chunks == [] {
      RanNothing(p, 0);
    } else {
      var f, c := Front(chunks), Last(chunks);
      assert c == chunks[|chunks| - 1];
      ChunksRun(p, f);
      var q := BetweenChunks(p, DataOf(f));
      BetweenReady(p, DataOf(f));
      AnyChunk(q, c);
      assert Front(DataOf(chunks)) == DataOf(f) && Last(DataOf(chunks)) == c.data;
      assert q.(contentLength := 0) == BetweenChunks(p, DataOf(chunks));
      Then(p, 0, AllChunks(f), q, 0, AllEvents(DataOf(f)),
           ChunkBytes(c), BetweenChunks(p, DataOf(chunks)), 0, ChunkEvents(c.data));
    }
  }

  lemma {:induction false} SizesOfData(chunks: seq<Chunk>)
    requires AreChunks(chunks)
    ensures |Concat(DataOf(chunks))| == Sizes(chunks)
    decreases |chunks|
  {
    hide IsChunk, ValueOf;
    if chunks != [] {
      var f, c := Front(chunks), Last(chunks);
      SizesOfData(f);
      assert Front(DataOf(chunks)) == DataOf(f) && Last(DataOf(chunks)) == c.data;
      assert IsChunk(chunks[|chunks| - 1]);
      SizeOfData(c);
    }
  }

  lemma SizeOfData(c: Chunk)
    requires IsChunk(c)
    ensures |c.data| == ValueOf(16, c.size)
  {}

  /** Any chunked message without trailers, however its sizes are written: it is accepted, its body is the data
      of the chunks, and the number of body bytes is the sum of the sizes that its size lines declare. */
  lemma ChunkedMessage(p: Parser, chunks: seq<Chunk>, z: seq<Byte>, e: seq<Byte>)
    requires Ready(p, 0) && p.state == ChunkSizeStart && AreChunks(chunks) && IsLastSize(z, e)
    ensures var o := Run(p, 0, AllChunks(chunks) + (z + e + CRLF + CRLF));
      && o.p == Finished(p) && o.n == |AllChunks(chunks)| + |z| + |e| + 4
      && o.events == AllEvents(DataOf(chunks)) + END_EVENTS
      && Body(o.events) == Concat(DataOf(chunks)) && BodyBytes(o.events) == Sizes(chunks)
  {
    hide Run, RunByte, Ready, AllChunks, AllEvents, DataOf, Sizes, Body, BodyBytes;
    hide Concat, AreChunks, IsLastSize, Finished;
    var d, q := DataOf(chunks), BetweenChunks(p, DataOf(chunks));
    ChunksRun(p, chunks);
    BetweenReady(p, d);
    MessageEnds(q, z, e);
    FinishedSame(p, d);
    RunSplit(p, 0, AllChunks(chunks), z + e + CRLF + CRLF);
    BodyOfPieces(d);
    BodyOfEnd();
    BodyConcat(AllEvents(d), END_EVENTS);
    assert Concat(d) + [] == Concat(d);
    BodyCounted(AllEvents(d) + END_EVENTS);
    SizesOfData(chunks);
  }

  lemma FinishedSame(p: Parser, d: seq<seq<Byte>>)
    ensures Finished(BetweenChunks(p, d)) == Finished(p)
  {}
}
