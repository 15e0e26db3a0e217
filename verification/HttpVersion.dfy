/** Exactly which text is read as the version of a request, and which digits of it are stored. */
module HttpVersion {
  import opened Sequences
  import opened HttpChars
  import opened HttpArms
  import opened HttpBytewise
  import opened HttpRun
  import opened HttpNames

  /** "ICE/" stands in requests with the method SOURCE only. */
  function StemOf(t: seq<Byte>): string { if t != [] && t[0] == 73 then "ICE/" else "HTTP/" }

  /** What stands at place k of a version: the stem, a digit, a dot and another digit. */
  predicate StandsAt(stem: string, k: nat, c: Byte) {
    if k < |stem| then c == stem[k] as int
    else if k == |stem| + 1 then c == DOT
    else k <= |stem| + 2 && IsNum(c)
  }

  /** The beginning of a version, up to the whole. */
  predicate BeginsVersion(t: seq<Byte>, verb: nat) {
    && (StemOf(t) == "ICE/" ==> verb == HTTP_SOURCE)
    && forall k :: 0 <= k < |t| ==> StandsAt(StemOf(t), k, t[k])
  }

  predicate IsVersion(t: seq<Byte>, verb: nat) { BeginsVersion(t, verb) && |t| == |StemOf(t)| + 3 }

  /** The digits of a version, as far as it is read. */
  function DigitsOf(line: RequestLine, t: seq<Byte>): RequestLine {
    var n := |StemOf(t)|;
    var with := if |t| > n && t[n] >= 48 then line.(major := t[n] - 48) else line;
    if |t| > n + 2 && t[n + 2] >= 48 then with.(minor := t[n + 2] - 48) else with
  }

  function PlaceState(stem: string, n: nat): State {
    if n == |stem| then HttpMajor
    else if n == |stem| + 1 then HttpDot
    else if n == |stem| + 2 then HttpMinor
    else if n > |stem| then HttpEnd
    else if n == 0 then HttpStart
    else if n == |stem| - 1 then HttpHTTP
    else if stem == "ICE/" then if n == 1 then HttpI else HttpIC
    else if n == 1 then HttpH
    else if n == 2 then HttpHT
    else HttpHTT
  }

  /** The parser p, at HttpStart, behind the version text t. */
  function Reading(p: Parser, t: seq<Byte>): Parser {
    p.(state := PlaceState(StemOf(t), |t|), line := DigitsOf(p.line, t))
  }

  lemma VersionNext(t: seq<Byte>, ch: Byte, verb: nat)
    ensures StemOf(t + [ch]) == if t == [] then StemOf([ch]) else StemOf(t)
    ensures BeginsVersion(t + [ch], verb) <==>
      if t == [] then ch == 72 || (ch == 73 && verb == HTTP_SOURCE)
      else BeginsVersion(t, verb) && StandsAt(StemOf(t), |t|, ch)
  {
    var e := t + [ch];
    assert e[|t|] == ch && forall k :: 0 <= k < |t| ==> e[k] == t[k];
  }

  lemma DigitsNext(line: RequestLine, t: seq<Byte>, ch: Byte)
    requires t != []
    ensures DigitsOf(line, t + [ch]) ==
      if |t| == |StemOf(t)| && ch >= 48 then DigitsOf(line, t).(major := ch - 48)
      else if |t| == |StemOf(t)| + 2 && ch >= 48 then DigitsOf(line, t).(minor := ch - 48)
      else DigitsOf(line, t)
  {
    var e := t + [ch];
    assert e[|t|] == ch && forall k :: 0 <= k < |t| ==> e[k] == t[k];
  }

  lemma ReadingNext(p: Parser, t: seq<Byte>, ch: Byte)
    requires p.errno == Ok && BeginsVersion(t, p.line.verb) && !(ch == SPACE && t == []) && ch != CR && ch != LF
    ensures var q := VersionArm(Reading(p, t), ch).next;
      if BeginsVersion(t + [ch], p.line.verb) then q == Reading(p, t + [ch]) else q.errno != Ok
  {
    hide BeginsVersion, DigitsOf;
    VersionNext(t, ch, p.line.verb);
    if t == [] {
      FirstReading(p, ch);
    } else {
      DigitsNext(p.line, t, ch);
      StemKept(t, p.line.verb);
    }
  }

  lemma StemKept(t: seq<Byte>, verb: nat)
    requires BeginsVersion(t, verb)
    ensures |t| <= |StemOf(t)| + 3
  {
    var n := |StemOf(t)| + 3;
    assert |t| > n ==> StandsAt(StemOf(t), n, t[n]);
  }

  lemma FirstReading(p: Parser, ch: Byte)
    ensures DigitsOf(p.line, []) == p.line && DigitsOf(p.line, [ch]) == p.line
    ensures [] + [ch] == [ch]
  {}

  /** One byte of the version, in a run. */
  lemma VersionByte(q: Parser, nread: nat, ch: Byte)
    requires Ready(q, nread) && IsVersionState(q.state) && nread < MAX_HEADER_SIZE
    ensures var o, r := RunByte(q, nread, ch), VersionArm(q, ch).next;
      o.p == r && !o.stop && (r.errno == Ok ==> o.nread == nread + 1)
  {
    hide VersionArm, Inv;
    VersionMoves(q, ch);
    VersionCounts(q);
    VersionGoes(q, ch);
  }

  lemma VersionGoes(q: Parser, ch: Byte)
    ensures !VersionArm(q, ch).stop
  {}

  lemma VersionCounts(q: Parser)
    requires IsVersionState(q.state)
    ensures Counts(q.state) && !IsBody(q.state) && !IsBulk(q.state) && q.state != ChunkSizeAlmostDone
      && q.state != ChunkDataDone && !IsUrlState(q.state) && q.state != SpacesBeforeUrl
  {}

  lemma PlaceIsVersion(stem: string, n: nat)
    ensures IsVersionState(PlaceState(stem, n)) && PlaceState(stem, n) != LineAlmostDone
  {}

  /** From the end of a URL on, bytes without a line end are read if and only if they begin a version behind spaces,
      and its digits are the ones stored. */
  lemma {:induction false} VersionExactly(p: Parser, nread: nat, d: seq<Byte>)
    requires Ready(p, nread) && p.state == HttpStart && nread + |d| <= MAX_HEADER_SIZE
    requires forall i :: 0 <= i < |d| ==> d[i] != CR && d[i] != LF
    ensures var o := Run(p, nread, d);
      && (Going(o) <==> BeginsVersion(Trimmed(d), p.line.verb))
      && (Going(o) ==> o.p == Reading(p, Trimmed(d)) && o.nread == nread + |d|)
    decreases |d|
  {
    hide RunByte, Ready, Run, BeginsVersion, VersionArm, Reading, Trimmed;
    InvOk(p, nread);
    if d == [] {
      NoVersion(p, nread);
    } else {
      var o := Run(p, nread, Front(d));
      var t, ch := Trimmed(Front(d)), Last(d);
      RunLast(p, nread, d);
      VersionExactly(p, nread, Front(d));
      TrimmedNext(Front(d), ch);
      assert Front(d) + [ch] == d;
      assert ch == d[|d| - 1];
      if Going(o) {
        VersionState(p, t);
        VersionState(p, t + [ch]);
        VersionByte(o.p, o.nread, ch);
        if ch == SPACE && t == [] {
          SpaceStays(p);
        } else {
          ReadingNext(p, t, ch);
        }
      } else {
        StaysNone(t, ch, p.line.verb);
      }
    }
  }

  lemma NoVersion(p: Parser, nread: nat)
    requires Ready(p, nread) && p.state == HttpStart
    ensures Trimmed([]) == [] && BeginsVersion([], p.line.verb) && Reading(p, []) == p
    ensures Run(p, nread, []) == Outcome(p, nread, [], 0, false)
  {}

  lemma VersionState(p: Parser, t: seq<Byte>)
    ensures IsVersionState(Reading(p, t).state) && Reading(p, t).errno == p.errno
  {
    PlaceIsVersion(StemOf(t), |t|);
  }

  lemma SpaceStays(p: Parser)
    requires p.state == HttpStart
    ensures Reading(p, []) == p && VersionArm(p, SPACE).next == p
  {}

  lemma StaysNone(t: seq<Byte>, ch: Byte, verb: nat)
    ensures BeginsVersion(t + [ch], verb) ==> BeginsVersion(t, verb)
    ensures BeginsVersion([], verb)
  {
    VersionNext(t, ch, verb);
  }

  /** A whole version and the end of its line lead to the headers, with the two digits stored. */
  lemma VersionLine(p: Parser, nread: nat, d: seq<Byte>)
    requires Ready(p, nread) && p.state == HttpStart && nread + |d| + 2 <= MAX_HEADER_SIZE
    requires forall i :: 0 <= i < |d| ==> d[i] != CR && d[i] != LF
    requires IsVersion(Trimmed(d), p.line.verb)
    ensures var t, n := Trimmed(d), |StemOf(Trimmed(d))|;
      var q := p.(state := FieldStart, line := p.line.(major := t[n] - 48, minor := t[n + 2] - 48));
      Run(p, nread, d + [LF]).p == q && Run(p, nread, d + [CR, LF]).p == q
  {
    hide RunByte, Ready, Run, Reading, VersionArm, Trimmed;
    VersionExactly(p, nread, d);
    WholeVersion(p, Trimmed(d));
    InvOk(p, nread);
    var o := Run(p, nread, d);
    var q := o.p.(state := LineAlmostDone);
    VersionEnds(o.p);
    VersionByte(o.p, o.nread, LF);
    VersionByte(o.p, o.nread, CR);
    AfterByte(p, nread, d, LF);
    AfterByte(p, nread, d, CR);
    assert d + [CR, LF] == (d + [CR]) + [LF];
    VersionByte(q, o.nread + 1, LF);
    AfterByte(p, nread, d + [CR], LF);
  }

  lemma AfterByte(p: Parser, nread: nat, d: seq<Byte>, ch: Byte)
    requires Ready(p, nread)
    ensures var o := Run(p, nread, d);
      Run(p, nread, d + [ch]) == if Going(o) then Prepend(o, RunByte(o.p, o.nread, ch)) else o
  {
    hide RunByte, Ready;
    assert Front(d + [ch]) == d;
  }

  lemma WholeVersion(p: Parser, t: seq<Byte>)
    requires IsVersion(t, p.line.verb)
    ensures var n := |StemOf(t)|;
      IsNum(t[n]) && IsNum(t[n + 2])
      && Reading(p, t) == p.(state := HttpEnd, line := p.line.(major := t[n] - 48, minor := t[n + 2] - 48))
  {
    assert StandsAt(StemOf(t), |StemOf(t)|, t[|StemOf(t)|]);
    assert StandsAt(StemOf(t), |StemOf(t)| + 2, t[|StemOf(t)| + 2]);
  }

  lemma VersionEnds(q: Parser)
    requires q.state == HttpEnd
    ensures VersionArm(q, LF).next == q.(state := FieldStart)
    ensures VersionArm(q, CR).next == q.(state := LineAlmostDone)
    ensures VersionArm(q.(state := LineAlmostDone), LF).next == q.(state := FieldStart)
  {}
}
