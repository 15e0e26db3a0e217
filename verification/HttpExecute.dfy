/** http_parser_execute for requests (third/http_parser/http_parser.c): slices between marks,
    loops that consume runs of bytes, and resumption across calls. */
module HttpExecute {
  import opened Sequences
  import opened HttpChars
  import opened HttpArms
  import opened HttpBytewise
  import opened HttpRun

  /** A call of a data callback or of a notification callback. */
  datatype Call = Data(kind: Kind, bytes: seq<Byte>) | Notified(notice: Notice)

  function EventsIn(c: Call): seq<Event> {
    match c
    case Data(k, d) => BytesOf(k, d)
    case Notified(n) => [Note(n)]
  }

  /** The bytes and notifications that calls deliver, however the bytes are sliced. */
  function Flatten(calls: seq<Call>): seq<Event> {
    if calls == [] then [] else Flatten(Front(calls)) + EventsIn(Last(calls))
  }

  lemma FlattenAppend(calls: seq<Call>, c: Call)
    ensures Flatten(calls + [c]) == Flatten(calls) + EventsIn(c)
  {
    assert Front(calls + [c]) == calls && Last(calls + [c]) == c;
  }

  // ----- Slice marks -----

  /** The four mark pointers of a request, as offsets into the input; -1 is NULL. */
  datatype Marks = Marks(field: int, value: int, url: int, body: int)

  const NO_MARKS: Marks := Marks(-1, -1, -1, -1)

  function MarkAt(m: Marks, k: Kind): int {
    match k
    case FieldData => m.field
    case ValueData => m.value
    case UrlData => m.url
    case BodyData => m.body
  }

  function WithMark(m: Marks, k: Kind, at: int): Marks {
    match k
    case FieldData => m.(field := at)
    case ValueData => m.(value := at)
    case UrlData => m.(url := at)
    case BodyData => m.(body := at)
  }

  predicate InRange(m: Marks, i: nat) {
    m.field <= i && m.value <= i && m.url <= i && m.body <= i
  }

  /** Only the mark of kind k is set, if any, and at no later place than i. */
  predicate Only(m: Marks, k: Option<Kind>, i: nat) {
    match k
    case None => m == NO_MARKS
    case Some(j) => 0 <= MarkAt(m, j) <= i && m == WithMark(NO_MARKS, j, MarkAt(m, j))
  }

  /** The bytes between the mark and i, which no callback has seen yet. */
  function Pending(m: Marks, k: Option<Kind>, data: seq<Byte>, i: nat): seq<Event>
    requires Only(m, k, i) && i <= |data|
  {
    match k
    case None => []
    case Some(j) => BytesOf(j, data[MarkAt(m, j)..i])
  }

  lemma PendingGrows(m: Marks, k: Kind, data: seq<Byte>, i: nat, j: nat)
    requires Only(m, Some(k), i) && i <= j <= |data|
    ensures Pending(m, Some(k), data, j) == Pending(m, Some(k), data, i) + BytesOf(k, data[i..j])
  {
    var a := MarkAt(m, k);
    assert data[a..j] == data[a..i] + data[i..j];
    BytesOfConcat(k, data[a..i], data[i..j]);
  }

  /** The macros MARK, CALLBACK_DATA and CALLBACK_NOTIFY at byte i. */
  function Perform(acts: Acts, m: Marks, data: seq<Byte>, i: nat, calls: seq<Call>): (Marks, seq<Call>)
    requires i <= |data|
    requires InRange(m, i)
  {
    match acts
    case Done => (m, calls)
    case Mark(k, rest) => Perform(rest, if MarkAt(m, k) < 0 then WithMark(m, k, i) else m, data, i, calls)
    case Flush(k, rest) =>
      if MarkAt(m, k) < 0 then Perform(rest, m, data, i, calls)
      else Perform(rest, WithMark(m, k, -1), data, i, calls + [Data(k, data[MarkAt(m, k)..i])])
    case Notify(n, rest) => Perform(rest, m, data, i, calls + [Notified(n)])
  }

  /** CALLBACK_DATA_NOADVANCE(k) */
  function FlushMark(k: Kind, l: Locals, data: seq<Byte>): Locals
    requires InRange(l.marks, l.i) && l.i <= |data|
  {
    if MarkAt(l.marks, k) < 0 then l
    else l.(marks := WithMark(l.marks, k, -1), calls := l.calls + [Data(k, data[MarkAt(l.marks, k)..l.i])])
  }

  lemma MarkStep(m: Marks, k: Option<Kind>, j: Kind, data: seq<Byte>, i: nat)
    requires i <= |data| && Only(m, k, i) && (k == None || k == Some(j))
    ensures var m1 := if MarkAt(m, j) < 0 then WithMark(m, j, i) else m;
      Only(m1, Some(j), i) && Pending(m1, Some(j), data, i) == Pending(m, k, data, i)
  {}

  lemma FlushStep(m: Marks, k: Option<Kind>, j: Kind, data: seq<Byte>, i: nat, calls: seq<Call>)
    requires i <= |data| && Only(m, k, i) && (k == None || k == Some(j))
    ensures MarkAt(m, j) < 0 ==> k == None && m == NO_MARKS
    ensures MarkAt(m, j) >= 0 ==> WithMark(m, j, -1) == NO_MARKS
    ensures MarkAt(m, j) >= 0 ==>
        Flatten(calls + [Data(j, data[MarkAt(m, j)..i])]) == Flatten(calls) + Pending(m, k, data, i)
  {
    if MarkAt(m, j) >= 0 {
      FlattenAppend(calls, Data(j, data[MarkAt(m, j)..i]));
    }
  }

  /** Delivered plus pending bytes grow by exactly the notifications of the acts. */
  lemma {:induction false} PerformDelivers(acts: Acts, m: Marks, k: Option<Kind>, data: seq<Byte>, i: nat,
                                           calls: seq<Call>)
    requires i <= |data| && Only(m, k, i) && After(acts, k).Some?
    ensures InRange(m, i)
    ensures var (m', calls') := Perform(acts, m, data, i, calls);
      Only(m', After(acts, k).value, i) &&
      Flatten(calls') + Pending(m', After(acts, k).value, data, i)
      == Flatten(calls) + Pending(m, k, data, i) + Notes(acts)
    decreases acts
  {
    match acts
    case Done =>
      EmptyTail(Flatten(calls) + Pending(m, k, data, i));
    case Mark(j, rest) =>
      MarkStep(m, k, j, data, i);
      PerformDelivers(rest, if MarkAt(m, j) < 0 then WithMark(m, j, i) else m, Some(j), data, i, calls);
    case Flush(j, rest) =>
      FlushStep(m, k, j, data, i, calls);
      if MarkAt(m, j) < 0 {
        PerformDelivers(rest, m, None, data, i, calls);
      } else {
        var calls1 := calls + [Data(j, data[MarkAt(m, j)..i])];
        PerformDelivers(rest, NO_MARKS, None, data, i, calls1);
        EmptyTail(Flatten(calls1));
      }
    case Notify(n, rest) =>
      FlattenAppend(calls, Notified(n));
      PerformDelivers(rest, m, None, data, i, calls + [Notified(n)]);
      NoteStep(Flatten(calls), Note(n), Notes(rest));
  }

  lemma EmptyTail(e: seq<Event>)
    ensures e + [] == e
  {}

  lemma NoteStep(e: seq<Event>, n: Event, f: seq<Event>)
    ensures e + [n] + [] + f == e + [] + ([n] + f)
  {}

  // ----- Inside a call -----

  /** The local variables of http_parser_execute and the callbacks made so far. */
  datatype Locals = Locals(q: Parser, nread: nat, i: nat, marks: Marks, calls: seq<Call>)

  /** Which mark is set: the one of the state, or the body mark until the input or the chunk ends. */
  function Held(l: Locals): Option<Kind> {
    if (l.q.state == ChunkDataAlmostDone || IsBody(l.q.state)) && l.marks.body >= 0 then Some(BodyData)
    else MarkOf(l.q.state)
  }

  /** Before the byte at l.i the locals agree with the bytewise run on the bytes before it, up to
      the slice that is still pending. */
  ghost predicate At(p0: Parser, n0: nat, data: seq<Byte>, l: Locals)
    requires Ready(p0, n0)
  {
    && l.i <= |data| && Ready(l.q, l.nread) && InRange(l.marks, l.i) && Only(l.marks, Held(l), l.i)
    && (IsBody(l.q.state) && l.marks.body >= 0 ==> l.i == |data|)
    && Ran(p0, n0, data[..l.i], l.q, l.nread, Flatten(l.calls) + Pending(l.marks, Held(l), data, l.i))
  }

  /** How a call may end, against the bytewise run on its whole input. A header overflow may be
      noticed later, or as another error, by the arms that count a run of bytes at its end. */
  ghost predicate Agreed(p0: Parser, n0: nat, data: seq<Byte>, q: Parser, m: nat, calls: seq<Call>, n: nat)
    requires Ready(p0, n0)
  {
    var r := Run(p0, n0, data);
    if r.p.errno == HeaderOverflow then q.errno != Ok
    else if r.p.errno == Ok then n == r.n && q == r.p && m == r.nread && Flatten(calls) == r.events
    else n == r.n && q.errno == r.p.errno && Flatten(calls) <= r.events
  }

  ghost predicate Agrees(p0: Parser, n0: nat, data: seq<Byte>, l: Locals, n: nat)
    requires Ready(p0, n0)
  {
    Agreed(p0, n0, data, l.q, l.nread, l.calls, n)
  }

  /** The marks that are set before the first byte. */
  function InitialMarks(s: State): Marks {
    match MarkOf(s)
    case None => NO_MARKS
    case Some(k) => WithMark(NO_MARKS, k, 0)
  }

  lemma AtStart(p0: Parser, n0: nat, data: seq<Byte>)
    requires Ready(p0, n0)
    ensures At(p0, n0, data, Locals(p0, n0, 0, InitialMarks(p0.state), []))
  {
    assert data[..0] == [];
  }

  /** An input of which a part is stuck is stuck there. */
  lemma Stuck(p0: Parser, n0: nat, data: seq<Byte>, j: nat)
    requires Ready(p0, n0) && j <= |data| && !Going(Run(p0, n0, data[..j]))
    ensures Run(p0, n0, data) == Run(p0, n0, data[..j])
  {
    hide Ready, RunByte;
    RunSplit(p0, n0, data[..j], data[j..]);
    assert data[..j] + data[j..] == data;
  }

  /** The run ends at byte l.i, by an error or an early stop. */
  lemma EndsAt(p0: Parser, n0: nat, data: seq<Byte>, l: Locals)
    requires Ready(p0, n0) && At(p0, n0, data, l) && l.i < |data|
    requires !Going(RunByte(l.q, l.nread, data[l.i]))
    ensures Run(p0, n0, data) ==
      Prepend(Outcome(l.q, l.nread, Flatten(l.calls) + Pending(l.marks, Held(l), data, l.i), l.i, false),
              RunByte(l.q, l.nread, data[l.i]))
  {
    hide StepOf, EventsOf, Pending, Held, Ready, RunByte, Only;
    var d := data[..l.i + 1];
    assert Front(d) == data[..l.i] && Last(d) == data[l.i];
    Stuck(p0, n0, data, l.i + 1);
  }

  lemma GoesOn(p0: Parser, n0: nat, data: seq<Byte>, l: Locals)
    requires Ready(p0, n0) && At(p0, n0, data, l) && l.i < |data|
    requires Going(RunByte(l.q, l.nread, data[l.i]))
    ensures var o := RunByte(l.q, l.nread, data[l.i]);
      Ran(p0, n0, data[..l.i + 1], o.p, o.nread, Flatten(l.calls) + Pending(l.marks, Held(l), data, l.i) + o.events)
  {
    hide StepOf, EventsOf, Pending, Held, Ready, RunByte, Only;
    var d := data[..l.i + 1];
    assert Front(d) == data[..l.i] && Last(d) == data[l.i];
  }

  // ----- Arms for single bytes -----

  lemma SoundAt(l: Locals, ch: Byte)
    requires Ready(l.q, l.nread) && !IsBody(l.q.state)
    ensures Sound(StepOf(l.q, ch), Held(l)) && Sound(StepOf(l.q, ch), MarkOf(l.q.state))
  {
    StepSound(l.q, ch);
    if l.q.state == ChunkDataAlmostDone {
      ChunkSound(l.q, ch);
    }
  }

  lemma ActsDeliver(acts: Acts, m: Marks, k: Option<Kind>, data: seq<Byte>, i: nat, calls: seq<Call>)
    requires i < |data| && Only(m, k, i) && After(acts, k).Some?
    ensures InRange(m, i)
    ensures var (m', calls') := Perform(acts, m, data, i, calls);
      var k' := After(acts, k).value;
      Only(m', k', i + 1) && Flatten(calls') + Pending(m', k', data, i + 1)
        == Flatten(calls) + Pending(m, k, data, i) + (Notes(acts) + InSlice(Some(k'), data[i]))
  {
    PerformDelivers(acts, m, k, data, i, calls);
    var (m', calls') := Perform(acts, m, data, i, calls);
    var k' := After(acts, k).value;
    if k'.Some? {
      PendingGrows(m', k'.value, data, i, i + 1);
      assert data[i..i + 1] == [data[i]] && BytesOf(k'.value, [data[i]]) == [Event.Byte(k'.value, data[i])];
    }
    var e, f := Flatten(calls) + Pending(m, k, data, i), InSlice(Some(k'), data[i]);
    Assoc3(Flatten(calls'), Pending(m', k', data, i), f);
    Assoc3(e, Notes(acts), f);
    EmptyTail(Flatten(calls') + Pending(m', k', data, i));
  }

  lemma Assoc3(a: seq<Event>, b: seq<Event>, c: seq<Event>)
    ensures a + b + c == a + (b + c)
  {}

  lemma IsPrefix(a: seq<Event>, b: seq<Event>, c: seq<Event>)
    requires a + b == c
    ensures a <= c + [] && c + [] == c
  {}

  /** The arm of a state that takes one byte, with its callbacks. */
  function Single(l: Locals, data: seq<Byte>): Locals
    requires l.i < |data| && !IsBody(l.q.state) && InRange(l.marks, l.i)
  {
    var s := StepOf(l.q, data[l.i]);
    var (m, calls) := Perform(s.acts, l.marks, data, l.i, l.calls);
    Locals(s.next, if Resets(l.q, s.acts) then 0 else Counted(l.q, l.nread), l.i + 1, m, calls)
  }

  ghost predicate Delivered(l: Locals, data: seq<Byte>, e: seq<Event>) {
    l.i <= |data| && InRange(l.marks, l.i) && Only(l.marks, Held(l), l.i)
    && (IsBody(l.q.state) ==> l.marks.body < 0) && Flatten(l.calls) + Pending(l.marks, Held(l), data, l.i) == e
  }

  /** The callbacks of a single byte deliver what was pending and its events. */
  lemma SingleDelivers(l: Locals, data: seq<Byte>)
    requires l.i < |data| && Ready(l.q, l.nread) && !IsBody(l.q.state) && Only(l.marks, Held(l), l.i)
    requires StepOf(l.q, data[l.i]).next.errno == Ok
    ensures InRange(l.marks, l.i)
    ensures Delivered(Single(l, data), data,
                      Flatten(l.calls) + Pending(l.marks, Held(l), data, l.i) + EventsOf(l.q, data[l.i]))
  {
    hide StepOf, Flatten, Pending, Perform;
    var s := StepOf(l.q, data[l.i]);
    SoundAt(l, data[l.i]);
    ActsDeliver(s.acts, l.marks, Held(l), data, l.i, l.calls);
  }

  lemma SingleFails(l: Locals, data: seq<Byte>)
    requires l.i < |data| && Ready(l.q, l.nread) && !IsBody(l.q.state) && Only(l.marks, Held(l), l.i)
    requires StepOf(l.q, data[l.i]).next.errno != Ok
    ensures InRange(l.marks, l.i)
    ensures Flatten(Single(l, data).calls)
         <= Flatten(l.calls) + Pending(l.marks, Held(l), data, l.i) + EventsOf(l.q, data[l.i])
  {
    var s := StepOf(l.q, data[l.i]);
    SoundAt(l, data[l.i]);
    PerformDelivers(s.acts, l.marks, Held(l), data, l.i, l.calls);
    var (m, calls) := Perform(s.acts, l.marks, data, l.i, l.calls);
    var e := Flatten(l.calls) + Pending(l.marks, Held(l), data, l.i);
    IsPrefix(Flatten(calls), Pending(m, After(s.acts, Held(l)).value, data, l.i), e + Notes(s.acts));
    EmptyTail(Notes(s.acts));
    assert EventsOf(l.q, data[l.i]) == Notes(s.acts) + [];
  }

  /** The byte at l.i is counted and goes to an arm that takes one byte. */
  ghost predicate Takes(p0: Parser, n0: nat, data: seq<Byte>, l: Locals)
    requires Ready(p0, n0)
  {
    At(p0, n0, data, l) && l.i < |data| && !IsBody(l.q.state) && Counted(l.q, l.nread) <= MAX_HEADER_SIZE
  }

  /** An early stop is after a whole message. */
  lemma StopState(p: Parser, ch: Byte)
    requires Inv(p) && !IsBody(p.state) && StepOf(p, ch).stop
    ensures var q := StepOf(p, ch).next; q.errno == Ok && (q.state == StartReq || q.state == Dead)
  {
    hide HeaderArm, ParseUrlChar, FieldChar, ValueChar;
    if p.state == Field || p.state == Value {
    } else if IsUrlState(p.state) || p.state == SpacesBeforeUrl {
    } else if IsVersionState(p.state) {
    } else if IsHeaderState(p.state) {
      HeaderStop(p, ch);
    } else if IsChunkState(p.state) {
    }
  }

  lemma HeaderStop(p: Parser, ch: Byte)
    requires IsHeaderState(p.state) && HeaderArm(p, ch).stop
    ensures var q := HeaderArm(p, ch).next; q.errno == p.errno && (q.state == StartReq || q.state == Dead)
  {
    match p.state
    case FieldStart =>
    case ValueLws => FieldStartStop(SetConnectionFlag(p).(state := FieldStart), ch);
    case ValueDiscardLws => FieldStartStop(SetConnectionFlag(p).(state := FieldStart), ch);
    case _ =>
  }

  lemma FieldStartStop(p: Parser, ch: Byte)
    requires FieldStartArm(p, ch).stop
    ensures var q := FieldStartArm(p, ch).next; q.errno == p.errno && (q.state == StartReq || q.state == Dead)
  {}

  lemma SingleError(p0: Parser, n0: nat, data: seq<Byte>, l: Locals)
    requires Ready(p0, n0) && Takes(p0, n0, data, l)
    requires StepOf(l.q, data[l.i]).next.errno != Ok
    ensures Agrees(p0, n0, data, Single(l, data), l.i)
  {
    SingleFails(l, data);
    EndsAt(p0, n0, data, l);
  }

  lemma SingleStop(p0: Parser, n0: nat, data: seq<Byte>, l: Locals)
    requires Ready(p0, n0) && Takes(p0, n0, data, l)
    requires StepOf(l.q, data[l.i]).stop
    ensures Agrees(p0, n0, data, Single(l, data), l.i + 1)
  {
    StopState(l.q, data[l.i]);
    SingleDelivers(l, data);
    EndsAt(p0, n0, data, l);
    EmptyTail(Flatten(Single(l, data).calls));
  }

  lemma SingleGoesOn(p0: Parser, n0: nat, data: seq<Byte>, l: Locals)
    requires Ready(p0, n0) && Takes(p0, n0, data, l)
    requires StepOf(l.q, data[l.i]).next.errno == Ok && !StepOf(l.q, data[l.i]).stop
    ensures At(p0, n0, data, Single(l, data))
  {
    hide StepOf, Perform, EventsOf, Pending, Run, MarkOf, Held, IsBody, Resets, Completes, Only;
    SingleDelivers(l, data);
    GoesOn(p0, n0, data, l);
  }

  /** An arm that takes one byte. */
  method SingleArm(data: seq<Byte>, l: Locals, ghost p0: Parser, ghost n0: nat)
    returns (next: Locals, done: bool, n: nat)
    requires Ready(p0, n0) && Takes(p0, n0, data, l)
    ensures if done then Agrees(p0, n0, data, next, n) else At(p0, n0, data, next) && next.i > l.i
  {
    // The assertions of the chunk arms.
    assert l.q.state == ChunkSizeStart ==> Counted(l.q, l.nread) == 1;
    assert IsChunkState(l.q.state) ==> l.q.flags.chunked;
    assert l.q.state == ChunkDataAlmostDone ==> l.q.contentLength == 0;
    next := Single(l, data);
    if next.q.errno != Ok {
      SingleError(p0, n0, data, l);
      return next, true, l.i;
    }
    if StepOf(l.q, data[l.i]).stop {
      SingleStop(p0, n0, data, l);
      return next, true, l.i + 1;
    }
    SingleGoesOn(p0, n0, data, l);
    return next, false, 0;
  }

  // ----- Arms that take runs of bytes -----

  /** The run on the whole input continues from l with the run on the rest. */
  lemma RestRun(p0: Parser, n0: nat, data: seq<Byte>, l: Locals, j: nat)
    requires Ready(p0, n0) && At(p0, n0, data, l) && l.i <= j <= |data|
    ensures var o := Outcome(l.q, l.nread, Flatten(l.calls) + Pending(l.marks, Held(l), data, l.i), l.i, false);
      Run(p0, n0, data[..j]) == Prepend(o, Run(l.q, l.nread, data[l.i..j]))
  {
    hide Ready, RunByte, Run, Pending, Held, Only;
    assert data[..j] == data[..l.i] + data[l.i..j];
    RunSplit(p0, n0, data[..l.i], data[l.i..j]);
  }

  lemma Overflows(p0: Parser, n0: nat, data: seq<Byte>, l: Locals, j: nat)
    requires Ready(p0, n0) && At(p0, n0, data, l) && l.i <= j <= |data|
    requires Run(l.q, l.nread, data[l.i..j]).p.errno == HeaderOverflow
    ensures Run(p0, n0, data).p.errno == HeaderOverflow
  {
    hide Ready, RunByte, Run, Pending, Held, Only;
    RestRun(p0, n0, data, l, j);
    Stuck(p0, n0, data, j);
  }

  /** A run of bytes of one slice leaves the locals in step. */
  lemma SliceRuns(p0: Parser, n0: nat, data: seq<Byte>, l: Locals, j: nat, q: Parser, m: nat, k: Kind)
    requires Ready(p0, n0) && At(p0, n0, data, l) && l.i <= j <= |data|
    requires Held(l) == Some(k) && MarkOf(q.state) == Some(k) && k != BodyData
    requires Ran(l.q, l.nread, data[l.i..j], q, m, BytesOf(k, data[l.i..j]))
    ensures At(p0, n0, data, l.(q := q, nread := m, i := j))
  {
    hide Run, RunByte, BytesOf, Flatten, Pending;
    RestRun(p0, n0, data, l, j);
    PendingGrows(l.marks, k, data, l.i, j);
    Assoc3(Flatten(l.calls), Pending(l.marks, Held(l), data, l.i), BytesOf(k, data[l.i..j]));
    assert q.state != ChunkDataAlmostDone;
  }

  lemma FieldCharsNext(p: Parser, data: seq<Byte>, i: nat, j: nat)
    requires i <= j < |data|
    ensures FieldChars(p, data[i..j + 1]) == FieldChar(FieldChars(p, data[i..j]), Token(data[j]))
    ensures Tokens(data[i..j]) && Token(data[j]) != 0 ==> Tokens(data[i..j + 1])
  {
    assert Front(data[i..j + 1]) == data[i..j] && Last(data[i..j + 1]) == data[j];
  }

  /** The bytes up to j are token characters and lead to q. */
  ghost predicate FieldScanned(p: Parser, data: seq<Byte>, i: nat, j: nat, q: Parser) {
    i <= j <= |data| && Tokens(data[i..j]) && q == FieldChars(p, data[i..j])
  }

  lemma FieldScannedNone(p: Parser, data: seq<Byte>, i: nat)
    requires i <= |data|
    ensures FieldScanned(p, data, i, i, p)
  {
    assert data[i..i] == [];
  }

  /** A stretch of token characters after the name is known to be none of interest. */
  lemma {:induction false} FieldScannedSkip(p: Parser, data: seq<Byte>, i: nat, j: nat, k: nat, q: Parser)
    requires FieldScanned(p, data, i, j, q) && q.hs == General && j <= k <= |data|
    requires forall x :: j <= x < k ==> Token(data[x]) != 0
    ensures FieldScanned(p, data, i, k, q)
    decreases k
  {
    hide Token, FieldChars;
    if j < k {
      FieldScannedSkip(p, data, i, j, k - 1, q);
      FieldCharsNext(p, data, i, k - 1);
    }
  }

  /** The skip of s_header_field while the name is none of interest: to the last token character before pe. */
  method SkipField(data: seq<Byte>, j: nat, pe: nat) returns (k: nat)
    requires j < pe <= |data| && Token(data[j]) != 0
    ensures j <= k < pe && forall x :: j <= x < k + 1 ==> Token(data[x]) != 0
    ensures k + 1 < pe ==> Token(data[k + 1]) == 0
  {
    hide Token;
    k := j;
    while k + 1 < pe && Token(data[k + 1]) != 0
      invariant j <= k < pe && forall x :: j <= x < k + 1 ==> Token(data[x]) != 0
    {
      k := k + 1;
    }
  }

  /** The loop of s_header_field up to the first byte that is no token character. */
  method ScanField(data: seq<Byte>, i: nat, p: Parser) returns (j: nat, q: Parser)
    requires i <= |data|
    ensures FieldScanned(p, data, i, j, q) && (j < |data| ==> Token(data[j]) == 0)
  {
    hide FieldChar, FieldChars, Token, Tokens;
    j, q := i, p;
    FieldScannedNone(p, data, i);
    while j < |data| && Token(data[j]) != 0
      invariant FieldScanned(p, data, i, j, q)
    {
      if q.hs == General {
        var k := SkipField(data, j, j + if |data| - j < MAX_HEADER_SIZE then |data| - j else MAX_HEADER_SIZE);
        FieldScannedSkip(p, data, i, j, k + 1, q);
        j := k;
      } else {
        FieldCharsNext(p, data, i, j);
        q := FieldChar(q, Token(data[j]));
      }
      j := j + 1;
    }
  }

  /** The byte at l.i is one too many. */
  lemma OverflowsHere(p0: Parser, n0: nat, data: seq<Byte>, l: Locals)
    requires Ready(p0, n0) && At(p0, n0, data, l) && l.i < |data| && Counted(l.q, l.nread) > MAX_HEADER_SIZE
    ensures Run(p0, n0, data).p.errno == HeaderOverflow
  {
    hide Pending, Held, Only, Run;
    EndsAt(p0, n0, data, l);
  }

  lemma FieldOverflows(p0: Parser, n0: nat, data: seq<Byte>, l: Locals, j: nat)
    requires Ready(p0, n0) && At(p0, n0, data, l) && l.i <= j <= |data| && l.q.state == Field && Tokens(data[l.i..j])
    requires l.nread + (j - l.i) > MAX_HEADER_SIZE
    ensures Run(p0, n0, data).p.errno == HeaderOverflow
  {
    FieldRun(l.q, l.nread, data[l.i..j]);
    Overflows(p0, n0, data, l, j);
  }

  /** The locals after the scan of a field name, up to its end or the end of the input. */
  lemma FieldRuns(p0: Parser, n0: nat, data: seq<Byte>, l: Locals, j: nat)
    requires Ready(p0, n0) && At(p0, n0, data, l) && l.i <= j <= |data| && l.q.state == Field && Tokens(data[l.i..j])
    requires l.nread + (j - l.i) <= MAX_HEADER_SIZE
    ensures FieldChars(l.q, data[l.i..j]).state == Field
    ensures At(p0, n0, data, l.(q := FieldChars(l.q, data[l.i..j]), nread := l.nread + (j - l.i), i := j))
  {
    hide Run, RunByte, FieldChars, Flatten, BytesOf, Tokens, InRange;
    FieldRun(l.q, l.nread, data[l.i..j]);
    SliceRuns(p0, n0, data, l, j, FieldChars(l.q, data[l.i..j]), l.nread + (j - l.i), FieldData);
  }

  /** One call may not be so long that the 32-bit header count wraps around. */
  const MAX_CALL: nat := 0x1_0000_0000 - MAX_HEADER_SIZE

  /** uint32_t nread */
  function Count32(n: nat): nat { n % 0x1_0000_0000 }

  lemma NoWrap(p: Parser, nread: nat, k: nat)
    requires Ready(p, nread) && k < MAX_CALL
    ensures Count32(nread + k) == nread + k
  {}

  lemma Taken(p0: Parser, n0: nat, data: seq<Byte>, l: Locals)
    requires Ready(p0, n0) && Takes(p0, n0, data, l)
    ensures At(p0, n0, data, l) && l.i < |data| && Ready(l.q, l.nread) && InRange(l.marks, l.i)
    ensures l.q.errno == Ok && l.nread <= MAX_HEADER_SIZE
  {
    InvOk(l.q, l.nread);
  }

  /** s_header_field */
  method FieldLoop(data: seq<Byte>, l: Locals, ghost p0: Parser, ghost n0: nat)
    returns (next: Locals, done: bool, n: nat)
    requires Ready(p0, n0) && Takes(p0, n0, data, l) && l.q.state == Field && |data| < MAX_CALL
    ensures if done then Agrees(p0, n0, data, next, n) else At(p0, n0, data, next) && next.i > l.i
  {
    hide Run, RunByte, Pending, Only, Held, StepOf, Count32, Flatten, BytesOf;
    hide FieldChars, Tokens, Token, At, Ready, Inv, Agreed, InRange, NO_MARKS;
    Taken(p0, n0, data, l);
    var j, q := ScanField(data, l.i, l.q);
    var p := if j == |data| then j - 1 else j;
    NoWrap(l.q, l.nread, 1 + (p - l.i));
    if Count32(l.nread + 1 + (p - l.i)) > MAX_HEADER_SIZE {
      if l.nread + (j - l.i) > MAX_HEADER_SIZE {
        FieldOverflows(p0, n0, data, l, j);
      } else {
        FieldRuns(p0, n0, data, l, j);
        OverflowsHere(p0, n0, data, l.(q := q, nread := l.nread + (j - l.i), i := j));
      }
      next := l.(q := q.(errno := HeaderOverflow));
      OverflowAgrees(p0, n0, data, next, p);
      return next, true, p;
    }
    FieldRuns(p0, n0, data, l, j);
    next := l.(q := q, nread := l.nread + (j - l.i), i := j);
    if j == |data| {
      return next, false, 0;
    }
    next, done, n := SingleArm(data, next, p0, n0);
  }

  lemma AcceptedNext(p: Parser, data: seq<Byte>, i: nat, j: nat)
    requires i <= j < |data| && Accepted(p, data[i..j]) && IsValueByte(data[j])
    ensures ValueChars(p, data[i..j + 1]) == ValueChar(ValueChars(p, data[i..j]), data[j])
    ensures ValueChars(p, data[i..j + 1]).errno == Ok ==> Accepted(p, data[i..j + 1])
  {
    assert Front(data[i..j + 1]) == data[i..j] && Last(data[i..j + 1]) == data[j];
  }

  /** The bytes up to k were examined in turn and led to q without an error. */
  ghost predicate Scanned(p: Parser, data: seq<Byte>, i: nat, k: nat, q: Parser) {
    i <= k <= |data| && Accepted(p, data[i..k]) && q == ValueChars(p, data[i..k]) && q.errno == Ok
  }

  /** A stretch of ordinary bytes while no word is looked for. */
  lemma {:induction false} ScannedSkip(p: Parser, data: seq<Byte>, i: nat, j: nat, k: nat, q: Parser)
    requires Scanned(p, data, i, j, q) && q.hs == General && j <= k <= |data|
    requires forall x :: j <= x < k ==> IsValueByte(data[x])
    ensures Scanned(p, data, i, k, q)
    decreases k
  {
    if j < k {
      ScannedSkip(p, data, i, j, k - 1, q);
      AcceptedNext(p, data, i, k - 1);
    }
  }

  /** The skip of s_header_value while no word is looked for: up to the line end, a bad byte, or pe. */
  method SkipValue(data: seq<Byte>, j: nat, pe: nat) returns (k: nat, bad: bool)
    requires j <= pe <= |data|
    ensures j <= k <= pe && forall x :: j <= x < k ==> IsValueByte(data[x])
    ensures bad ==> k < pe && data[k] != CR && data[k] != LF && !IsHeaderChar(data[k])
    ensures !bad && k < pe ==> data[k] == CR || data[k] == LF
  {
    k := j;
    while k != pe
      invariant j <= k <= pe && forall x :: j <= x < k ==> IsValueByte(data[x])
    {
      if data[k] == CR || data[k] == LF {
        return k, false;
      }
      if !IsHeaderChar(data[k]) {
        return k, true;
      }
      k := k + 1;
    }
    bad := false;
  }

  /** The byte at j is refused in the middle of a value. */
  predicate Refused(q: Parser, data: seq<Byte>, j: nat, e: Errno) {
    j < |data| && data[j] != CR && data[j] != LF && e != Ok
    && e == if !IsHeaderChar(data[j]) then InvalidHeaderToken else ValueChar(q, data[j]).errno
  }

  /** The scan of s_header_value stopped at j with parser q and error e. It examined the bytes up to
      k in turn, leading to r; it is past k only if it skipped as many bytes as headers may have. */
  ghost predicate ValueScan(p: Parser, data: seq<Byte>, i: nat, j: nat, q: Parser, e: Errno, k: nat, r: Parser) {
    && k <= j && j <= |data| && Scanned(p, data, i, k, r)
    && (if k < j then i + MAX_HEADER_SIZE <= k else if e == Ok then q == r else Refused(r, data, j, e))
    && (e == Ok && j < |data| ==> data[j] == CR || data[j] == LF)
  }

  /** The loop of s_header_value up to the line end, the end of input or an error at j. */
  method ScanValue(data: seq<Byte>, i: nat, p: Parser)
    returns (j: nat, q: Parser, e: Errno, ghost k: nat, ghost r: Parser)
    requires i < |data| && p.errno == Ok
    ensures ValueScan(p, data, i, j, q, e, k, r)
  {
    hide Accepted, ValueChars, ValueChar;
    j, q, e, k, r := i, p, Ok, i, p;
    assert Scanned(p, data, i, k, r) by {
      ScannedNone(p, data, i);
    }
    while j < |data| && data[j] != CR && data[j] != LF
      invariant i <= k <= j <= |data| && Scanned(p, data, i, k, r)
      invariant if k < j then i + MAX_HEADER_SIZE <= k else q == r
    {
      if !IsHeaderChar(data[j]) {
        return j, q, InvalidHeaderToken, k, r;
      }
      if q.hs == General {
        var pe := j + if |data| - j < MAX_HEADER_SIZE then |data| - j else MAX_HEADER_SIZE;
        var m, bad := SkipValue(data, j, pe);
        if k == j {
          ScannedSkip(p, data, i, j, m, q);
          k := m;
        }
        if bad {
          return m, q, InvalidHeaderToken, k, r;
        }
        // A skip that ends at pe inside the input goes on behind the byte at pe.
        j := if m == pe < |data| then m + 1 else m;
      } else {
        var next := ValueChar(q, data[j]);
        if next.errno != Ok {
          return j, q, next.errno, k, r;
        }
        if k == j {
          AcceptedNext(p, data, i, j);
          k, r := k + 1, next;
        }
        q, j := next, j + 1;
      }
    }
  }

  lemma ScannedNone(p: Parser, data: seq<Byte>, i: nat)
    requires i <= |data| && p.errno == Ok
    ensures Scanned(p, data, i, i, p)
  {
    assert data[i..i] == [];
  }

  lemma ValueRuns(p0: Parser, n0: nat, data: seq<Byte>, l: Locals, j: nat, q: Parser)
    requires Ready(p0, n0) && At(p0, n0, data, l) && l.q.state == Value && l.i <= j && Scanned(l.q, data, l.i, j, q)
    requires l.nread + (j - l.i) <= MAX_HEADER_SIZE
    ensures q.state == Value && At(p0, n0, data, l.(q := q, nread := l.nread + (j - l.i), i := j))
  {
    hide Run, RunByte, Pending, Only, StepOf, ValueChars, Accepted, BytesOf;
    ValueRun(l.q, l.nread, data[l.i..j]);
    SliceRuns(p0, n0, data, l, j, q, l.nread + (j - l.i), ValueData);
  }

  /** As many bytes as headers may have were accepted, and one more follows. */
  lemma ValueTooLong(p0: Parser, n0: nat, data: seq<Byte>, l: Locals, j: nat, q: Parser)
    requires Ready(p0, n0) && At(p0, n0, data, l) && l.q.state == Value && l.i <= j && Scanned(l.q, data, l.i, j, q)
    requires l.nread + (j - l.i) > MAX_HEADER_SIZE || (l.nread + (j - l.i) == MAX_HEADER_SIZE && j < |data|)
    ensures Run(p0, n0, data).p.errno == HeaderOverflow
  {
    hide Run, RunByte, Pending, Only, StepOf, ValueChars, Accepted, BytesOf, Held;
    if l.nread + (j - l.i) > MAX_HEADER_SIZE {
      ValueRun(l.q, l.nread, data[l.i..j]);
      Overflows(p0, n0, data, l, j);
    } else {
      ValueRuns(p0, n0, data, l, j, q);
      OverflowsHere(p0, n0, data, l.(q := q, nread := MAX_HEADER_SIZE, i := j));
    }
  }

  lemma RefusedStep(q: Parser, data: seq<Byte>, j: nat, e: Errno)
    requires q.state == Value && q.errno == Ok && Refused(q, data, j, e)
    ensures e != Ok && StepOf(q, data[j]).next.errno == e && StepOf(q, data[j]).acts == Done
  {}

  lemma RefusedHere(q: Parser, data: seq<Byte>, j: nat, e: Errno)
    requires Refused(q, data, j, e)
    ensures j < |data|
  {}

  lemma ValueRefused(p0: Parser, n0: nat, data: seq<Byte>, l: Locals, e: Errno)
    requires Ready(p0, n0) && Takes(p0, n0, data, l) && l.q.state == Value && Refused(l.q, data, l.i, e)
    ensures Agrees(p0, n0, data, l.(q := l.q.(errno := e)), l.i)
  {
    hide Run, RunByte, Pending, Only, StepOf, Refused, Held;
    RefusedStep(l.q, data, l.i, e);
    SingleError(p0, n0, data, l);
  }

  /** A refused byte, or more bytes than headers may have before it. */
  lemma ValueFails(p0: Parser, n0: nat, data: seq<Byte>, l: Locals, j: nat, q: Parser, e: Errno, k: nat, r: Parser)
    requires Ready(p0, n0) && Takes(p0, n0, data, l) && l.q.state == Value && ValueScan(l.q, data, l.i, j, q, e, k, r)
    requires e != Ok || l.nread + 1 + ((if j == |data| then j - 1 else j) - l.i) > MAX_HEADER_SIZE
    ensures e != Ok ==> Agrees(p0, n0, data, l.(q := q.(errno := e)), j)
    ensures e == Ok ==> Run(p0, n0, data).p.errno == HeaderOverflow
  {
    hide Run, RunByte, Pending, Only, StepOf, Refused, Held, Accepted, ValueChars, At, Ready;
    if l.nread + (k - l.i) > MAX_HEADER_SIZE || (l.nread + (k - l.i) == MAX_HEADER_SIZE && k < |data|) {
      ValueTooLong(p0, n0, data, l, k, r);
    } else {
      ValueRuns(p0, n0, data, l, k, r);
      assert e != Ok && k == j;
      RefusedHere(r, data, j, e);
      ValueRefused(p0, n0, data, l.(q := r, nread := l.nread + (j - l.i), i := j), e);
    }
  }

  /** s_header_value */
  method ValueLoop(data: seq<Byte>, l: Locals, ghost p0: Parser, ghost n0: nat)
    returns (next: Locals, done: bool, n: nat)
    requires Ready(p0, n0) && Takes(p0, n0, data, l) && l.q.state == Value && |data| < MAX_CALL
    ensures if done then Agrees(p0, n0, data, next, n) else At(p0, n0, data, next) && next.i > l.i
  {
    hide Run, RunByte, Pending, Only, StepOf, Refused, Held, ValueChars, Accepted, Count32;
    hide Flatten, BytesOf, At, Ready, Inv, Agreed;
    Taken(p0, n0, data, l);
    var j, q, e, k, r := ScanValue(data, l.i, l.q);
    if e != Ok {
      ValueFails(p0, n0, data, l, j, q, e, k, r);
      return l.(q := q.(errno := e)), true, j;
    }
    var p := if j == |data| then j - 1 else j;
    NoWrap(l.q, l.nread, 1 + (p - l.i));
    if Count32(l.nread + 1 + (p - l.i)) > MAX_HEADER_SIZE {
      ValueFails(p0, n0, data, l, j, q, e, k, r);
      next := l.(q := q.(errno := HeaderOverflow));
      if j < |data| && data[j] == CR { // the callback comes before the count
        next := FlushMark(ValueData, next.(i := j), data);
      }
      OverflowAgrees(p0, n0, data, next, p);
      return next, true, p;
    }
    ValueRuns(p0, n0, data, l, j, q);
    next := l.(q := q, nread := l.nread + (j - l.i), i := j);
    if j == |data| {
      return next, false, 0;
    }
    next, done, n := SingleArm(data, next, p0, n0);
  }

  // ----- Bodies -----

  /** Body bytes up to j, which stay pending under the body mark. */
  lemma BodyRuns(p0: Parser, n0: nat, data: seq<Byte>, l: Locals, j: nat, q: Parser)
    requires Ready(p0, n0) && At(p0, n0, data, l) && IsBody(l.q.state) && l.i < j <= |data| && Inv(q)
    requires Run(l.q, l.nread, data[l.i..j]) == Outcome(q, l.nread, BytesOf(BodyData, data[l.i..j]), j - l.i, false)
    requires q.state == ChunkDataAlmostDone || (IsBody(q.state) && j == |data|)
    ensures l.marks == NO_MARKS
    ensures At(p0, n0, data, l.(q := q, i := j, marks := WithMark(NO_MARKS, BodyData, l.i)))
  {
    hide Run, RunByte, BytesOf, Flatten;
    RestRun(p0, n0, data, l, j);
    EmptyTail(Flatten(l.calls));
  }

  /** s_chunk_data: all that is left of the chunk, or of the input, in one step. */
  method ChunkDataArm(data: seq<Byte>, l: Locals, ghost p0: Parser, ghost n0: nat) returns (next: Locals)
    requires Ready(p0, n0) && At(p0, n0, data, l) && l.i < |data| && l.q.state == ChunkData
    ensures At(p0, n0, data, next) && next.i > l.i
  {
    hide Run, RunByte, BytesOf, Pending, Only, Flatten, MarkOf, InRange;
    assert l.q.flags.chunked && l.q.contentLength != 0 && l.q.contentLength != U64_MAX;
    var left := |data| - l.i;
    var toRead := if l.q.contentLength < left then l.q.contentLength else left;
    var q := l.q.(contentLength := l.q.contentLength - toRead);
    if q.contentLength == 0 {
      q := q.(state := ChunkDataAlmostDone);
      ChunkRun(l.q, l.nread, data[l.i..l.i + toRead]);
    } else {
      BodyRun(l.q, l.nread, data[l.i..l.i + toRead]);
    }
    BodyRuns(p0, n0, data, l, l.i + toRead, q);
    next := l.(q := q, i := l.i + toRead,
               marks := WithMark(l.marks, BodyData, if l.marks.body < 0 then l.i else l.marks.body));
  }

  /** The callbacks at the end of a body of declared length. */
  function Completed(l: Locals, data: seq<Byte>, j: nat): Locals
    requires l.i <= j <= |data|
  {
    l.(q := NewMessage(l.q.(contentLength := 0)), i := j,
       calls := l.calls + [Data(BodyData, data[l.i..j])] + [Notified(MessageComplete)])
  }

  lemma PendingNothing(l: Locals, data: seq<Byte>)
    requires l.i <= |data| && IsBody(l.q.state) && Only(l.marks, Held(l), l.i) && (l.marks.body >= 0 ==> l.i == |data|)
    requires l.i < |data|
    ensures l.marks == NO_MARKS && Pending(l.marks, Held(l), data, l.i) == []
  {}

  lemma CompletedReady(p: Parser, nread: nat)
    requires Ready(p, nread)
    ensures var q := NewMessage(p.(contentLength := 0));
      Ready(q, nread) && MarkOf(q.state) == None && q.state != ChunkDataAlmostDone && !IsBody(q.state) && q.errno == Ok
  {}

  lemma IdentityEnds(p0: Parser, n0: nat, data: seq<Byte>, l: Locals, j: nat)
    requires Ready(p0, n0) && At(p0, n0, data, l) && l.q.state == BodyIdentity && l.i < j <= |data|
    requires j - l.i == l.q.contentLength
    ensures l.marks == NO_MARKS && Completed(l, data, j).i == j
    ensures l.q.upgrade ==> Agrees(p0, n0, data, Completed(l, data, j), j)
    ensures !l.q.upgrade ==> At(p0, n0, data, Completed(l, data, j))
  {
    hide RunByte, BytesOf, Run, Ready, NewMessage, Flatten;
    var d := data[l.i..j];
    PendingNothing(l, data);
    CompletedReady(l.q, l.nread);
    IdentityRun(l.q, l.nread, d);
    RestRun(p0, n0, data, l, j);
    FlattenAppend(l.calls, Data(BodyData, d));
    FlattenAppend(l.calls + [Data(BodyData, d)], Notified(MessageComplete));
    EmptyTail(Flatten(l.calls));
    EmptyTail(Flatten(Completed(l, data, j).calls));
    Assoc3(Flatten(l.calls), BytesOf(BodyData, d), [Note(MessageComplete)]);
    if l.q.upgrade {
      Stuck(p0, n0, data, j);
    }
  }

  lemma IdentityGoesOn(p0: Parser, n0: nat, data: seq<Byte>, l: Locals)
    requires Ready(p0, n0) && At(p0, n0, data, l) && l.q.state == BodyIdentity && l.i < |data|
    requires |data| - l.i < l.q.contentLength
    ensures l.marks == NO_MARKS
    ensures var q := l.q.(contentLength := l.q.contentLength - (|data| - l.i));
      At(p0, n0, data, l.(q := q, i := |data|, marks := WithMark(NO_MARKS, BodyData, l.i)))
  {
    hide Run, RunByte, BytesOf, Pending, Only, Flatten, MarkOf, InRange, Inv, Held;
    InvOk(l.q, l.nread);
    BodyRun(l.q, l.nread, data[l.i..|data|]);
    BodyRuns(p0, n0, data, l, |data|, l.q.(contentLength := l.q.contentLength - (|data| - l.i)));
  }

  /** s_body_identity: all that is left of the body, or of the input, in one step. */
  method IdentityArm(data: seq<Byte>, l: Locals, ghost p0: Parser, ghost n0: nat)
    returns (next: Locals, done: bool, n: nat)
    requires Ready(p0, n0) && At(p0, n0, data, l) && l.i < |data| && l.q.state == BodyIdentity
    ensures if done then Agrees(p0, n0, data, next, n) else At(p0, n0, data, next) && next.i > l.i
  {
    hide Run, RunByte, BytesOf, Pending, Only, Flatten, Completed, Agreed, MarkOf, NewMessage, Ran, InRange;
    assert l.q.contentLength != 0 && l.q.contentLength != U64_MAX;
    var left := |data| - l.i;
    var toRead := if l.q.contentLength < left then l.q.contentLength else left;
    var j := l.i + toRead;
    if l.q.contentLength == toRead {
      IdentityEnds(p0, n0, data, l, j);
      return Completed(l, data, j), l.q.upgrade, j;
    }
    IdentityGoesOn(p0, n0, data, l);
    var q := l.q.(contentLength := l.q.contentLength - toRead);
    return l.(q := q, i := j,
              marks := WithMark(l.marks, BodyData, if l.marks.body < 0 then l.i else l.marks.body)), false, 0;
  }

  // ----- The end of a call -----

  /** The callbacks for marks that are left when the input is used up. */
  function FlushAll(l: Locals, data: seq<Byte>): Locals
    requires InRange(l.marks, l.i) && l.i <= |data|
  {
    FlushMark(BodyData, FlushMark(UrlData, FlushMark(ValueData, FlushMark(FieldData, l, data), data), data), data)
  }

  function SetMarks(m: Marks): nat {
    (if m.field >= 0 then 1 else 0) + (if m.value >= 0 then 1 else 0) + (if m.url >= 0 then 1 else 0)
    + (if m.body >= 0 then 1 else 0)
  }

  lemma FlushLeftover(l: Locals, data: seq<Byte>, k: Option<Kind>)
    requires l.i <= |data| && Only(l.marks, k, l.i)
    ensures InRange(l.marks, l.i) && SetMarks(l.marks) <= 1
    ensures Flatten(FlushAll(l, data).calls) == Flatten(l.calls) + Pending(l.marks, k, data, l.i)
  {
    hide Flatten, BytesOf;
    match k
    case None => EmptyTail(Flatten(l.calls));
    case Some(FieldData) => FlattenAppend(l.calls, Data(FieldData, data[l.marks.field..l.i]));
    case Some(ValueData) => FlattenAppend(l.calls, Data(ValueData, data[l.marks.value..l.i]));
    case Some(UrlData) => FlattenAppend(l.calls, Data(UrlData, data[l.marks.url..l.i]));
    case Some(BodyData) => FlattenAppend(l.calls, Data(BodyData, data[l.marks.body..l.i]));
  }

  /** A call that consumes all its input sets at most one mark and delivers it. */
  lemma EndOfInput(p0: Parser, n0: nat, data: seq<Byte>, l: Locals)
    requires Ready(p0, n0) && At(p0, n0, data, l) && l.i == |data|
    ensures SetMarks(l.marks) <= 1
    ensures Agrees(p0, n0, data, FlushAll(l, data), |data|)
  {
    hide Run, RunByte, Flatten, Pending, SetMarks;
    assert data[..|data|] == data;
    FlushLeftover(l, data, Held(l));
  }

  // ----- Calls of the parser -----

  /** The loop over the bytes of one call. */
  method ExecuteBytes(data: seq<Byte>, p0: Parser, n0: nat) returns (l: Locals, n: nat)
    requires Ready(p0, n0) && |data| < MAX_CALL
    ensures Agrees(p0, n0, data, l, n)
  {
    hide Run, RunByte, Pending, Only, StepOf, Held, Agreed;
    l := Locals(p0, n0, 0, InitialMarks(p0.state), []);
    AtStart(p0, n0, data);
    while l.i < |data|
      invariant At(p0, n0, data, l)
      decreases |data| - l.i
    {
      var done := false;
      if Counted(l.q, l.nread) > MAX_HEADER_SIZE {
        OverflowsHere(p0, n0, data, l);
        n := l.i;
        l := l.(q := l.q.(errno := HeaderOverflow));
        OverflowAgrees(p0, n0, data, l, n);
        return;
      }
      if l.q.state == Field {
        l, done, n := FieldLoop(data, l, p0, n0);
      } else if l.q.state == Value {
        l, done, n := ValueLoop(data, l, p0, n0);
      } else if l.q.state == ChunkData {
        l := ChunkDataArm(data, l, p0, n0);
      } else if l.q.state == BodyIdentity {
        l, done, n := IdentityArm(data, l, p0, n0);
      } else {
        l, done, n := SingleArm(data, l, p0, n0);
      }
      if done {
        return;
      }
    }
    EndOfInput(p0, n0, data, l);
    assert SetMarks(l.marks) <= 1;
    l := FlushAll(l, data);
    n := |data|;
  }

  lemma OverflowAgrees(p0: Parser, n0: nat, data: seq<Byte>, l: Locals, n: nat)
    requires Ready(p0, n0) && Run(p0, n0, data).p.errno == HeaderOverflow && l.q.errno != Ok
    ensures Agrees(p0, n0, data, l, n)
  {}

  /** A request parser with the callbacks it has made. */
  class HttpParser {
    var p: Parser
    var nread: nat
    var calls: seq<Call>

    /** http_parser_init */
    constructor ()
      ensures p == INITIAL && nread == 0 && calls == [] && Ready(p, nread)
    {
      p, nread, calls := INITIAL, 0, [];
    }

    /** http_parser_execute */
    method Execute(data: seq<Byte>) returns (n: nat)
      requires p.errno == Ok ==> Ready(p, nread)
      requires |data| < MAX_CALL
      modifies this
      ensures old(p.errno) != Ok ==> n == 0 && p == old(p) && nread == old(nread) && calls == old(calls)
      ensures old(p.errno) == Ok && data == [] ==> nread == old(nread) && calls == old(calls)
      ensures old(p.errno) == Ok && data == [] && (old(p.state) == Dead || old(p.state) == StartReq) ==>
          n == 0 && p == old(p)
      ensures old(p.errno) == Ok && data == [] && old(p.state) != Dead && old(p.state) != StartReq ==>
        n == 1 && p == old(p).(errno := InvalidEofState)
      ensures old(p.errno) == Ok && data != [] ==>
        old(calls) <= calls && Agreed(old(p), old(nread), data, p, nread, calls[|old(calls)|..], n)
      ensures p.errno == Ok ==> Ready(p, nread)
    {
      hide Run, RunByte, Agreed, Ready;
      if p.errno != Ok {
        return 0;
      }
      if |data| == 0 {
        if p.state == Dead || p.state == StartReq {
          return 0;
        }
        p := p.(errno := InvalidEofState);
        return 1;
      }
      var l: Locals;
      l, n := ExecuteBytes(data, p, nread);
      if l.q.errno == Ok {
        AgreesReady(p, nread, data, l, n);
      }
      p, nread, calls := l.q, l.nread, calls + l.calls;
      assert calls[|old(calls)|..] == l.calls;
    }
  }

  lemma AgreesReady(p0: Parser, n0: nat, data: seq<Byte>, l: Locals, n: nat)
    requires Ready(p0, n0) && Agrees(p0, n0, data, l, n) && l.q.errno == Ok
    ensures Ready(l.q, l.nread)
  {
    hide Run, RunByte, Ready, Inv;
  }

  lemma {:induction false} FlattenConcat(a: seq<Call>, b: seq<Call>)
    ensures Flatten(a + b) == Flatten(a) + Flatten(b)
    decreases |b|
  {
    if b == [] {
      assert a + b == a;
      EmptyTail(Flatten(a));
    } else {
      FlattenConcat(a, Front(b));
      assert Front(a + b) == a + Front(b) && Last(a + b) == Last(b);
      Assoc3(Flatten(a), Flatten(Front(b)), EventsIn(Last(b)));
    }
  }

  /** The parser is where the run r led, unless r stopped early. If r failed, other than by passing the header
      limit, the parser has the same error, and has delivered only events of the run. */
  ghost predicate InStep(r: Outcome, q: Parser, m: nat, made: seq<Call>) {
    && (Going(r) ==> q == r.p && m == r.nread && Flatten(made) == r.events)
    && (r.p.errno == HeaderOverflow ==> q.errno != Ok)
    && (r.p.errno != Ok && r.p.errno != HeaderOverflow ==> q.errno == r.p.errno && Flatten(made) <= r.events)
  }

  lemma CallInStep(p0: Parser, n0: nat, pieces: seq<seq<Byte>>, k: nat, made: seq<Call>, q: Parser, m: nat,
                   more: seq<Call>, n: nat)
    requires Ready(p0, n0) && k < |pieces|
    requires var r := RunCalls(p0, n0, pieces[..k]);
      Going(r) && Flatten(made) == r.events && Agreed(r.p, r.nread, pieces[k], q, m, more, n)
    ensures InStep(RunCalls(p0, n0, pieces[..k + 1]), q, m, made + more)
  {
    hide Run, RunByte, Ready, Flatten;
    assert Front(pieces[..k + 1]) == pieces[..k] && Last(pieces[..k + 1]) == pieces[k];
    FlattenConcat(made, more);
  }

  lemma NoMoreInStep(p0: Parser, n0: nat, pieces: seq<seq<Byte>>, k: nat)
    requires Ready(p0, n0) && k < |pieces| && !Going(RunCalls(p0, n0, pieces[..k]))
    ensures RunCalls(p0, n0, pieces[..k + 1]) == RunCalls(p0, n0, pieces[..k])
  {
    hide Run, RunByte, Ready;
    assert Front(pieces[..k + 1]) == pieces[..k];
  }

  /** A message that arrives in any non-empty pieces leaves the parser, and has delivered, what one
      byte at a time would. */
  method Feed(parser: HttpParser, pieces: seq<seq<Byte>>)
    requires parser.p.errno == Ok && Ready(parser.p, parser.nread)
    requires forall k :: 0 <= k < |pieces| ==> 0 < |pieces[k]| < MAX_CALL
    modifies parser
    ensures old(parser.calls) <= parser.calls
    ensures InStep(old(Run(parser.p, parser.nread, Concat(pieces))), parser.p, parser.nread,
                   parser.calls[|old(parser.calls)|..])
  {
    hide Run, RunByte, Ready, Agreed, RunCalls, Flatten;
    ghost var p0, n0, c0 := parser.p, parser.nread, parser.calls;
    var k := 0;
    assert InStep(RunCalls(p0, n0, pieces[..0]), p0, n0, []) by {
      NothingInStep(p0, n0, pieces);
    }
    assert parser.calls[|c0|..] == [];
    while k < |pieces|
      invariant 0 <= k <= |pieces| && c0 <= parser.calls
      invariant parser.p.errno == Ok ==> Ready(parser.p, parser.nread)
      invariant InStep(RunCalls(p0, n0, pieces[..k]), parser.p, parser.nread, parser.calls[|c0|..])
    {
      ghost var made, before := parser.calls[|c0|..], parser.calls;
      var n := parser.Execute(pieces[k]);
      if Going(RunCalls(p0, n0, pieces[..k])) {
        CallInStep(p0, n0, pieces, k, made, parser.p, parser.nread, parser.calls[|before|..], n);
        assert made + parser.calls[|before|..] == parser.calls[|c0|..];
      } else {
        NoMoreInStep(p0, n0, pieces, k);
      }
      k := k + 1;
    }
    CutsDoNotMatter(p0, n0, pieces);
    assert pieces[..k] == pieces;
  }

  lemma NothingInStep(p0: Parser, n0: nat, pieces: seq<seq<Byte>>)
    requires Ready(p0, n0)
    ensures InStep(RunCalls(p0, n0, pieces[..0]), p0, n0, [])
  {}
}
