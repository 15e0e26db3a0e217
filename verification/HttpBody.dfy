/** Lengths of request bodies: which Content-Length values and chunk sizes are accepted, and that as
    many body bytes are delivered as were declared. */
module HttpBody {
  import opened Sequences
  import opened HttpChars
  import opened HttpArms
  import opened HttpBytewise
  import opened HttpRun
  import opened Digits

  // ----- Content-Length -----

  /** The conservative overflow test refuses a digit exactly when the value would pass MAX_LENGTH. */
  lemma LengthDigitFits(v: nat, c: nat)
    requires c < 10
    ensures (U64_MAX - 10) / 10 < v <==> v * 10 + c > MAX_LENGTH
  {}

  lemma LengthByte(p: Parser, nread: nat, ch: Byte)
    requires Ready(p, nread) && p.state == Value && p.hs == ContentLengthNum && IsNum(ch) && nread < MAX_HEADER_SIZE
    requires p.contentLength <= MAX_LENGTH
    ensures var v := p.contentLength * 10 + DigitValue(ch);
      if v <= MAX_LENGTH then
          RunByte(p, nread, ch) == Outcome(p.(contentLength := v), nread + 1, [Event.Byte(ValueData, ch)], 1, false)
      else RunByte(p, nread, ch).p.errno == InvalidContentLength
  {
    hide HeaderArm, FieldArm, MatchWord, TokenStart, AfterConnectionWord, SetConnectionFlag;
    LengthDigitFits(p.contentLength, DigitValue(ch));
  }

  lemma DecimalDigit(d: seq<Byte>)
    requires AreDigits(10, d) && d != []
    ensures IsNum(Last(d)) && DigitValue(Last(d)) == Last(d) - 48 && AreDigits(10, Front(d))
  {
    assert Last(d) == d[|d| - 1];
  }

  lemma ValueNext(v: nat, base: nat, d: seq<Byte>)
    requires d != []
    ensures ValueFrom(v, base, d) == ValueFrom(v, base, Front(d)) * base + DigitValue(Last(d))
  {}

  lemma ValueNothing(v: nat, base: nat)
    ensures ValueFrom(v, base, []) == v
  {}

  /** A run of digits is accepted if and only if the value is at most 2^64 - 7, and then it is the value. */
  lemma {:induction false} LengthDigits(p: Parser, nread: nat, d: seq<Byte>)
    requires Ready(p, nread) && p.state == Value && p.hs == ContentLengthNum && p.contentLength <= MAX_LENGTH
    requires AreDigits(10, d) && nread + |d| <= MAX_HEADER_SIZE
    ensures var v := ValueFrom(p.contentLength, 10, d);
      if v <= MAX_LENGTH then Ran(p, nread, d, p.(contentLength := v), nread + |d|, BytesOf(ValueData, d))
      else Run(p, nread, d).p.errno == InvalidContentLength
    decreases |d|
  {
    hide RunByte, Ready, AreDigits, Run, BytesOf, Ran, ValueFrom, DigitValue;
    if d == [] {
      RanNothing(p, nread);
      ValueNothing(p.contentLength, 10);
      assert BytesOf(ValueData, []) == [] by { BytesOfNothing(ValueData); }
    } else {
      DecimalDigit(d);
      ValueNext(p.contentLength, 10, d);
      LengthDigits(p, nread, Front(d));
      LengthStep(p, nread, Front(d), Last(d));
      assert Front(d) + [Last(d)] == d;
    }
  }

  /** One more digit. */
  lemma LengthStep(p: Parser, nread: nat, d: seq<Byte>, ch: Byte)
    requires Ready(p, nread) && p.state == Value && p.hs == ContentLengthNum && p.contentLength <= MAX_LENGTH
    requires IsNum(ch) && nread + |d| < MAX_HEADER_SIZE
    requires var v := ValueFrom(p.contentLength, 10, d);
      if v <= MAX_LENGTH then Ran(p, nread, d, p.(contentLength := v), nread + |d|, BytesOf(ValueData, d))
      else Run(p, nread, d).p.errno == InvalidContentLength
    ensures var v := ValueFrom(p.contentLength, 10, d) * 10 + DigitValue(ch);
      if v <= MAX_LENGTH then
          Ran(p, nread, d + [ch], p.(contentLength := v), nread + |d| + 1, BytesOf(ValueData, d + [ch]))
      else Run(p, nread, d + [ch]).p.errno == InvalidContentLength
  {
    hide *;
    var v := ValueFrom(p.contentLength, 10, d);
    if v <= MAX_LENGTH {
      LengthNext(p, nread, d, ch, v);
    } else {
      FailsEarly(p, nread, d, [ch]);
    }
  }

  lemma LengthNext(p: Parser, nread: nat, d: seq<Byte>, ch: Byte, v: nat)
    requires Ready(p, nread) && p.state == Value && p.hs == ContentLengthNum && IsNum(ch)
    requires nread + |d| < MAX_HEADER_SIZE
    requires v <= MAX_LENGTH && Ran(p, nread, d, p.(contentLength := v), nread + |d|, BytesOf(ValueData, d))
    ensures var w := v * 10 + DigitValue(ch);
      if w <= MAX_LENGTH then
          Ran(p, nread, d + [ch], p.(contentLength := w), nread + |d| + 1, BytesOf(ValueData, d + [ch]))
      else Run(p, nread, d + [ch]).p.errno == InvalidContentLength
  {
    hide RunByte, Ready, Run, BytesOf, Ran, DigitValue, IsNum, Inv;
    var q, w, e := p.(contentLength := v), v * 10 + DigitValue(ch), [Event.Byte(ValueData, ch)];
    SameLength(p, nread, v, |d|);
    LengthByte(q, nread + |d|, ch);
    BytesOfAppend(ValueData, d, ch);
    if w <= MAX_LENGTH {
      var r := p.(contentLength := w);
      assert q.(contentLength := w) == r;
      InvOk(p, nread);
      RanByte(q, nread + |d|, ch, r, nread + |d| + 1, e);
      Then(p, nread, d, q, nread + |d|, BytesOf(ValueData, d), [ch], r, nread + |d| + 1, e);
    } else {
      RunOne(q, nread + |d|, ch);
      ThenFails(p, nread, d, q, nread + |d|, BytesOf(ValueData, d), [ch]);
    }
  }

  lemma SameLength(p: Parser, nread: nat, v: nat, k: nat)
    requires Ready(p, nread) && p.state == Value && v <= MAX_LENGTH && nread + k <= MAX_HEADER_SIZE
    ensures Ready(p.(contentLength := v), nread + k)
  {}

  /** The parser behind a first Content-Length value v. */
  function WithLength(p: Parser, v: nat): Parser {
    p.(state := Value, index := 0, flags := p.flags.(hasLength := true), hs := ContentLengthNum, contentLength := v)
  }

  lemma FirstLengthByte(p: Parser, nread: nat, ch: Byte)
    requires Ready(p, nread) && p.state == ValueDiscardWs && p.hs == HeaderState.ContentLength && !p.flags.hasLength
    requires IsNum(ch)
    requires nread < MAX_HEADER_SIZE
    ensures RunByte(p, nread, ch) == Outcome(WithLength(p, ch - 48), nread + 1, [Event.Byte(ValueData, ch)], 1, false)
  {}

  /** The value of a first Content-Length header: accepted if and only if it is at most 2^64 - 7. */
  lemma ContentLengthHeader(p: Parser, nread: nat, d: seq<Byte>)
    requires Ready(p, nread) && p.state == ValueDiscardWs && p.hs == HeaderState.ContentLength && !p.flags.hasLength
    requires d != [] && AreDigits(10, d) && nread + |d| <= MAX_HEADER_SIZE
    ensures var v := ValueOf(10, d);
      if v <= MAX_LENGTH then Ran(p, nread, d, WithLength(p, v), nread + |d|, BytesOf(ValueData, d))
      else Run(p, nread, d).p.errno == InvalidContentLength
  {
    hide RunByte, StepOf, Ready, Unhex, DigitValue, ValueFrom, Run, BytesOf;
    InvOk(p, nread);
    assert d == [d[0]] + d[1..];
    FirstDigit(d);
    FirstLengthByte(p, nread, d[0]);
    RunOne(p, nread, d[0]);
    RunSplit(p, nread, [d[0]], d[1..]);
    ValueFromConcat(0, 10, [d[0]], d[1..]);
    var o := RunByte(p, nread, d[0]);
    LengthDigits(o.p, o.nread, d[1..]);
    BytesOfOne(ValueData, d[0]);
    BytesOfConcat(ValueData, [d[0]], d[1..]);
  }

  lemma FirstDigit(d: seq<Byte>)
    requires d != [] && AreDigits(10, d)
    ensures IsNum(d[0]) && ValueFrom(0, 10, [d[0]]) == d[0] - 48 && AreDigits(10, d[1..])
  {
    assert [d[0]][..0] == [];
    assert IsNum(d[0]);
  }

  // ----- Chunk sizes -----

  lemma ChunkDigitFits(v: nat, c: nat)
    requires c < 16
    ensures (U64_MAX - 16) / 16 < v <==> v * 16 + c > MAX_CHUNK
  {}

  lemma ChunkByte(p: Parser, nread: nat, ch: Byte)
    requires Ready(p, nread) && p.state == ChunkSize && Unhex(ch) >= 0 && nread < MAX_HEADER_SIZE
    ensures var v := p.contentLength * 16 + DigitValue(ch);
      if v <= MAX_CHUNK then RunByte(p, nread, ch) == Outcome(p.(contentLength := v), nread + 1, [], 1, false)
      else RunByte(p, nread, ch).p.errno == InvalidContentLength
  {
    ChunkDigitFits(p.contentLength, DigitValue(ch));
    assert ch != CR;
  }

  lemma HexDigit(d: seq<Byte>)
    requires AreDigits(16, d) && d != []
    ensures Unhex(Last(d)) >= 0 && AreDigits(16, Front(d))
  {
    assert Last(d) == d[|d| - 1];
  }

  lemma {:induction false} ChunkDigits(p: Parser, nread: nat, d: seq<Byte>)
    requires Ready(p, nread) && p.state == ChunkSize && AreDigits(16, d) && nread + |d| <= MAX_HEADER_SIZE
    ensures var v := ValueFrom(p.contentLength, 16, d);
      if v <= MAX_CHUNK then Ran(p, nread, d, p.(contentLength := v), nread + |d|, [])
      else Run(p, nread, d).p.errno == InvalidContentLength
    decreases |d|
  {
    hide RunByte, Ready, AreDigits, Run, Ran, ValueFrom, DigitValue;
    ChunkInv(p, nread);
    if d == [] {
      RanNothing(p, nread);
      ValueNothing(p.contentLength, 16);
    } else {
      HexDigit(d);
      ValueNext(p.contentLength, 16, d);
      ChunkDigits(p, nread, Front(d));
      ChunkStep(p, nread, Front(d), Last(d));
      assert Front(d) + [Last(d)] == d;
    }
  }

  /** One more digit. */
  lemma ChunkStep(p: Parser, nread: nat, d: seq<Byte>, ch: Byte)
    requires Ready(p, nread) && p.state == ChunkSize && Unhex(ch) >= 0 && nread + |d| < MAX_HEADER_SIZE
    requires var v := ValueFrom(p.contentLength, 16, d);
      if v <= MAX_CHUNK then Ran(p, nread, d, p.(contentLength := v), nread + |d|, [])
      else Run(p, nread, d).p.errno == InvalidContentLength
    ensures var v := ValueFrom(p.contentLength, 16, d) * 16 + DigitValue(ch);
      if v <= MAX_CHUNK then Ran(p, nread, d + [ch], p.(contentLength := v), nread + |d| + 1, [])
      else Run(p, nread, d + [ch]).p.errno == InvalidContentLength
  {
    hide *;
    var v := ValueFrom(p.contentLength, 16, d);
    if v <= MAX_CHUNK {
      ChunkNext(p, nread, d, ch, v);
    } else {
      FailsEarly(p, nread, d, [ch]);
    }
  }

  lemma ChunkNext(p: Parser, nread: nat, d: seq<Byte>, ch: Byte, v: nat)
    requires Ready(p, nread) && p.state == ChunkSize && Unhex(ch) >= 0 && nread + |d| < MAX_HEADER_SIZE
    requires v <= MAX_CHUNK && Ran(p, nread, d, p.(contentLength := v), nread + |d|, [])
    ensures var w := v * 16 + DigitValue(ch);
      if w <= MAX_CHUNK then Ran(p, nread, d + [ch], p.(contentLength := w), nread + |d| + 1, [])
      else Run(p, nread, d + [ch]).p.errno == InvalidContentLength
  {
    hide RunByte, Ready, Run, Ran, DigitValue, Unhex, Inv;
    var q, w := p.(contentLength := v), v * 16 + DigitValue(ch);
    SameChunk(p, nread, v, |d|);
    ChunkByte(q, nread + |d|, ch);
    if w <= MAX_CHUNK {
      var r := p.(contentLength := w);
      assert q.(contentLength := w) == r;
      InvOk(p, nread);
      RanByte(q, nread + |d|, ch, r, nread + |d| + 1, []);
      Then(p, nread, d, q, nread + |d|, [], [ch], r, nread + |d| + 1, []);
      NoEvents([]);
    } else {
      RunOne(q, nread + |d|, ch);
      ThenFails(p, nread, d, q, nread + |d|, [], [ch]);
    }
  }

  lemma NoEvents(e: seq<Event>)
    requires e == []
    ensures e + e == e
  {}

  lemma ChunkInv(p: Parser, nread: nat)
    requires Ready(p, nread) && p.state == ChunkSize
    ensures p.contentLength <= MAX_CHUNK
  {}

  lemma SameChunk(p: Parser, nread: nat, v: nat, k: nat)
    requires Ready(p, nread) && p.state == ChunkSize && v <= MAX_CHUNK && nread + k <= MAX_HEADER_SIZE
    ensures Ready(p.(contentLength := v), nread + k)
  {}

  lemma FirstChunkByte(p: Parser, ch: Byte)
    requires Ready(p, 0) && p.state == ChunkSizeStart && Unhex(ch) >= 0
    ensures RunByte(p, 0, ch) == Outcome(p.(state := ChunkSize, contentLength := DigitValue(ch)), 1, [], 1, false)
  {}

  /** The size of a chunk: accepted if and only if it is below 2^64 - 16, and then it is the value. */
  lemma ChunkSizeDigits(p: Parser, d: seq<Byte>)
    requires Ready(p, 0) && p.state == ChunkSizeStart && d != [] && AreDigits(16, d) && |d| <= MAX_HEADER_SIZE
    ensures var v := ValueOf(16, d);
      if v <= MAX_CHUNK then Ran(p, 0, d, p.(state := ChunkSize, contentLength := v), |d|, [])
      else Run(p, 0, d).p.errno == InvalidContentLength
  {
    hide RunByte, StepOf, Ready, Unhex, DigitValue, Run;
    InvOk(p, 0);
    assert d == [d[0]] + d[1..];
    assert [d[0]][..0] == [];
    assert ValueFrom(0, 16, [d[0]]) == DigitValue(d[0]);
    FirstChunkByte(p, d[0]);
    RunOne(p, 0, d[0]);
    RunSplit(p, 0, [d[0]], d[1..]);
    ValueFromConcat(0, 16, [d[0]], d[1..]);
    var o := RunByte(p, 0, d[0]);
    ChunkDigits(o.p, o.nread, d[1..]);
  }

  // ----- Conservation -----

  /** How many bytes of the body are still to come. */
  function Owed(p: Parser): nat { if IsBody(p.state) then p.contentLength else 0 }

  /** What the step from p to q declares: the length of a body or chunk that begins. */
  function Declares(p: Parser, q: Parser): nat { if IsBody(p.state) then 0 else Owed(q) }

  /** All lengths declared in the course of a run. */
  function Declared(p: Parser, nread: nat, data: seq<Byte>): nat
    requires Ready(p, nread)
    decreases |data|
  {
    if data == [] then 0
    else
      var o := Run(p, nread, Front(data));
      if !Going(o) then Declared(p, nread, Front(data))
      else
        var r := RunByte(o.p, o.nread, Last(data));
        Declared(p, nread, Front(data)) + if r.p.errno == Ok then Declares(o.p, r.p) else 0
  }

  function BodyBytes(e: seq<Event>): nat
    decreases |e|
  {
    if e == [] then 0 else BodyBytes(Front(e)) + if Last(e).Byte? && Last(e).kind == BodyData then 1 else 0
  }

  lemma {:induction false} BodyBytesConcat(a: seq<Event>, b: seq<Event>)
    ensures BodyBytes(a + b) == BodyBytes(a) + BodyBytes(b)
    decreases |b|
  {
    if b == [] {
      assert a + b == a;
    } else {
      BodyBytesConcat(a, Front(b));
      assert Front(a + b) == a + Front(b) && Last(a + b) == Last(b);
    }
  }

  lemma {:induction false} NotesHaveNoBody(acts: Acts)
    ensures BodyBytes(Notes(acts)) == 0
    decreases acts
  {
    match acts
    case Done =>
    case Mark(_, rest) => NotesHaveNoBody(rest);
    case Flush(_, rest) => NotesHaveNoBody(rest);
    case Notify(n, rest) =>
      NotesHaveNoBody(rest);
      assert Front([Note(n)]) == [];
      BodyBytesConcat([Note(n)], Notes(rest));
  }

  lemma OneByte(kind: Kind, ch: Byte)
    ensures BodyBytes([Event.Byte(kind, ch)]) == if kind == BodyData then 1 else 0
  {
    assert Front([Event.Byte(kind, ch)]) == [];
  }

  /** Only the body states deliver body bytes, one each. */
  lemma StepBodyBytes(p: Parser, ch: Byte)
    requires Inv(p)
    ensures StepOf(p, ch).next.errno == Ok ==> BodyBytes(EventsOf(p, ch)) == if IsBody(p.state) then 1 else 0
  {
    hide BodyBytes, StepOf;
    var s := StepOf(p, ch);
    StepSound(p, ch);
    NotesHaveNoBody(s.acts);
    if IsBody(p.state) {
      OneByte(BodyData, ch);
      BodyBytesConcat([Event.Byte(BodyData, ch)], Notes(s.acts));
    } else if s.next.errno == Ok {
      var slice := InSlice(After(s.acts, MarkOf(p.state)), ch);
      BodyBytesConcat(Notes(s.acts), slice);
      if MarkOf(s.next.state).Some? {
        OneByte(MarkOf(s.next.state).value, ch);
      } else {
        assert BodyBytes([]) == 0 by { NoBytes(); }
      }
    }
  }

  lemma NoBytes()
    ensures BodyBytes([]) == 0
  {}

  /** A byte of a body pays off one byte of what is owed. */
  lemma StepOwes(p: Parser, ch: Byte)
    requires Inv(p) && StepOf(p, ch).next.errno == Ok
    ensures Owed(StepOf(p, ch).next) + (if IsBody(p.state) then 1 else 0) == Owed(p) + Declares(p, StepOf(p, ch).next)
  {}

  lemma RunByteBalance(p: Parser, nread: nat, ch: Byte)
    requires Ready(p, nread) && RunByte(p, nread, ch).p.errno == Ok
    ensures var o := RunByte(p, nread, ch); BodyBytes(o.events) + Owed(o.p) == Owed(p) + Declares(p, o.p)
  {
    hide BodyBytes, StepOf, EventsOf, Owed, Declares, Resets;
    StepBodyBytes(p, ch);
    StepOwes(p, ch);
  }

  /** In every run, the body bytes delivered and those still owed add up to what was owed and declared. */
  lemma {:induction false} BodyBytesBalance(p: Parser, nread: nat, data: seq<Byte>)
    requires Ready(p, nread) && Run(p, nread, data).p.errno == Ok
    ensures var o := Run(p, nread, data); BodyBytes(o.events) + Owed(o.p) == Owed(p) + Declared(p, nread, data)
    decreases |data|
  {
    hide RunByte, Ready, Owed, Declares;
    if data != [] {
      var o := Run(p, nread, Front(data));
      BodyBytesBalance(p, nread, Front(data));
      if Going(o) {
        RunByteBalance(o.p, o.nread, Last(data));
        BodyBytesConcat(o.events, RunByte(o.p, o.nread, Last(data)).events);
      }
    }
  }

  /** At the end of every message nothing is owed: its body has exactly the declared length. */
  lemma CompleteMessages(p: Parser, nread: nat, data: seq<Byte>)
    requires Ready(p, nread) && Owed(p) == 0
    requires var o := Run(p, nread, data); o.p.errno == Ok && (o.p.state == StartReq || o.p.state == Dead)
    ensures BodyBytes(Run(p, nread, data).events) == Declared(p, nread, data)
  {
    hide RunByte, Ready, Run;
    BodyBytesBalance(p, nread, data);
  }
}
