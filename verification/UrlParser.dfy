/** http_parser_parse_url and http_parse_host (third/http_parser/http_parser.c, strict mode). */
module UrlParser {
  import opened Sequences
  import opened HttpChars
  import opened HttpArms
  import opened Digits

  /** One entry of field_data, with its bit of field_set. */
  datatype Slice = Slice(present: bool, off: nat, len: nat)

  const ABSENT: Slice := Slice(false, 0, 0)

  function End(s: Slice): nat { s.off + s.len }
  predicate Covers(s: Slice, k: nat) { s.present && s.off <= k < End(s) }

  /** The end of a slice, or of what comes before it if it is absent. */
  function EndOr(s: Slice, before: nat): nat { if s.present then End(s) else before }

  predicate StartsAfter(s: Slice, before: nat) { s.present ==> before <= s.off && s.len > 0 }

  datatype Field = SchemaField | HostField | PathField | QueryField | FragmentField | NoField

  /** The fields that the first pass sets, in their order in a URL. */
  datatype Parts = Parts(schema: Slice, host: Slice, path: Slice, query: Slice, fragment: Slice)

  const NO_PARTS: Parts := Parts(ABSENT, ABSENT, ABSENT, ABSENT, ABSENT)

  function Get(f: Parts, uf: Field): Slice {
    match uf
    case SchemaField => f.schema
    case HostField => f.host
    case PathField => f.path
    case QueryField => f.query
    case FragmentField => f.fragment
    case NoField => ABSENT
  }

  function Put(f: Parts, uf: Field, s: Slice): Parts {
    match uf
    case SchemaField => f.(schema := s)
    case HostField => f.(host := s)
    case PathField => f.(path := s)
    case QueryField => f.(query := s)
    case FragmentField => f.(fragment := s)
    case NoField => f
  }

  // ----- First pass -----

  /** The field of a byte read into state s; a delimiter belongs to none. */
  function FieldOf(s: State): Field {
    match s
    case Schema => SchemaField
    case Server => HostField
    case ServerWithAt => HostField
    case Path => PathField
    case Query => QueryField
    case Fragment => FragmentField
    case _ => NoField
  }

  predicate IsDelimiter(c: Byte) {
    c == COLON || c == SLASH || c == AT || c == LBRACKET || c == RBRACKET || c == QUESTION || c == HASH
  }

  /** No two slices overlap, they follow each other in the order of the fields and end by n. */
  predicate InOrder(f: Parts, n: nat) {
    var e0 := EndOr(f.schema, 0);
    var e1 := EndOr(f.host, e0);
    var e2 := EndOr(f.path, e1);
    var e3 := EndOr(f.query, e2);
    && StartsAfter(f.schema, 0) && StartsAfter(f.host, e0) && StartsAfter(f.path, e1)
    && StartsAfter(f.query, e2) && StartsAfter(f.fragment, e3) && EndOr(f.fragment, e3) <= n
  }

  predicate InPart(f: Parts, k: nat) {
    Covers(f.schema, k) || Covers(f.host, k) || Covers(f.path, k) || Covers(f.query, k) || Covers(f.fragment, k)
  }

  /** Every byte is in a slice or a delimiter. */
  predicate Covered(f: Parts, buf: seq<Byte>, n: nat) {
    n <= |buf| && forall k :: 0 <= k < n ==> InPart(f, k) || IsDelimiter(buf[k])
  }

  /** How far a state is into a URL. */
  function Stage(s: State): nat {
    match s
    case SpacesBeforeUrl => 0
    case Schema => 1
    case SchemaSlash => 2
    case SchemaSlashSlash => 3
    case ServerStart => 4
    case Server => 5
    case ServerWithAt => 5
    case Path => 6
    case QueryStart => 7
    case Query => 8
    case FragmentStart => 9
    case Fragment => 10
    case _ => 11
  }

  /** Which fields are set in state s: none of a later stage, and the one being read up to i. */
  predicate Shaped(s: State, old_: Field, f: Parts, i: nat) {
    var g := Stage(s);
    && g <= 10
    && (f.schema.present ==> g >= 1) && (f.host.present ==> g >= 5) && (f.path.present ==> g >= 6)
    && (f.query.present ==> g >= 8) && (f.fragment.present ==> g >= 10)
    && (FieldOf(s) != NoField ==> Get(f, FieldOf(s)).present && End(Get(f, FieldOf(s))) == i)
    && old_ == if f.fragment.present then FragmentField else if f.query.present then QueryField
               else if f.path.present then PathField else if f.host.present then HostField
               else if f.schema.present then SchemaField else NoField
  }

  /** The stages that a byte can lead to. */
  lemma StageGrows(s: State, c: Byte)
    requires Stage(s) <= 10
    ensures var t := ParseUrlChar(s, c);
      t == Dead || (Stage(s) <= Stage(t) <= 10 && Stage(t) > 0 && (Stage(s) == Stage(t) ==> FieldOf(s) == FieldOf(t)))
    ensures var t := ParseUrlChar(s, c); t != Dead && FieldOf(t) == NoField ==> IsDelimiter(c)
  {}

  /** The update of the loop body. */
  function Extend(f: Parts, old_: Field, uf: Field, i: nat): Parts {
    if uf == NoField then f
    else if uf == old_ then Put(f, uf, Get(f, uf).(len := Get(f, uf).len + 1))
    else Put(f, uf, Slice(true, i, 1))
  }

  lemma ShapedStep(s: State, t: State, old_: Field, f: Parts, i: nat)
    requires Shaped(s, old_, f, i) && InOrder(f, i)
    requires Stage(s) <= Stage(t) <= 10 && Stage(t) > 0 && (Stage(s) == Stage(t) ==> FieldOf(s) == FieldOf(t))
    ensures var uf := FieldOf(t); Shaped(t, if uf == NoField then old_ else uf, Extend(f, old_, uf, i), i + 1)
  {}

  lemma InOrderStep(s: State, t: State, old_: Field, f: Parts, i: nat)
    requires Shaped(s, old_, f, i) && InOrder(f, i)
    requires Stage(s) <= Stage(t) <= 10 && Stage(t) > 0 && (Stage(s) == Stage(t) ==> FieldOf(s) == FieldOf(t))
    ensures InOrder(Extend(f, old_, FieldOf(t), i), i + 1)
  {
    hide Shaped, Stage, InOrder;
    if FieldOf(t) == old_ {
      InOrderGrown(s, t, old_, f, i);
    } else {
      InOrderBegun(s, t, old_, f, i);
    }
  }

  lemma InOrderGrown(s: State, t: State, old_: Field, f: Parts, i: nat)
    requires Shaped(s, old_, f, i) && InOrder(f, i)
    requires Stage(s) <= Stage(t) <= 10 && Stage(t) > 0 && (Stage(s) == Stage(t) ==> FieldOf(s) == FieldOf(t))
    requires FieldOf(t) == old_
    ensures InOrder(Extend(f, old_, FieldOf(t), i), i + 1)
  {}

  lemma InOrderBegun(s: State, t: State, old_: Field, f: Parts, i: nat)
    requires Shaped(s, old_, f, i) && InOrder(f, i)
    requires Stage(s) <= Stage(t) <= 10 && Stage(t) > 0 && (Stage(s) == Stage(t) ==> FieldOf(s) == FieldOf(t))
    requires FieldOf(t) != old_
    ensures InOrder(Extend(f, old_, FieldOf(t), i), i + 1)
  {}

  lemma CoveredStep(s: State, t: State, old_: Field, f: Parts, i: nat)
    requires Shaped(s, old_, f, i) && InOrder(f, i)
    requires Stage(s) <= Stage(t) <= 10 && Stage(t) > 0 && (Stage(s) == Stage(t) ==> FieldOf(s) == FieldOf(t))
    ensures FieldOf(t) != NoField ==> Covers(Get(Extend(f, old_, FieldOf(t), i), FieldOf(t)), i)
    ensures forall k :: InPart(f, k) ==> InPart(Extend(f, old_, FieldOf(t), i), k)
  {}

  /** What the first pass knows before byte i. */
  ghost predicate Scanned(buf: seq<Byte>, s: State, old_: Field, f: Parts, i: nat) {
    i <= |buf| && Shaped(s, old_, f, i) && InOrder(f, i) && Covered(f, buf, i)
  }

  lemma ScanStep(buf: seq<Byte>, s: State, old_: Field, f: Parts, i: nat)
    requires i < |buf| && Scanned(buf, s, old_, f, i) && ParseUrlChar(s, buf[i]) != Dead
    ensures Stage(ParseUrlChar(s, buf[i])) > 0
    ensures var t := ParseUrlChar(s, buf[i]);
      var uf := FieldOf(t);
      Scanned(buf, t, if uf == NoField then old_ else uf, Extend(f, old_, uf, i), i + 1)
  {
    hide ParseUrlChar, Shaped, InOrder, Extend, IsDelimiter, InPart;
    var t := ParseUrlChar(s, buf[i]);
    ShapedStage(s, old_, f, i);
    StageGrows(s, buf[i]);
    ShapedStep(s, t, old_, f, i);
    InOrderStep(s, t, old_, f, i);
    CoveredStep(s, t, old_, f, i);
    var g := Extend(f, old_, FieldOf(t), i);
    if FieldOf(t) != NoField {
      CoversPart(g, FieldOf(t), i);
    }
  }

  lemma ShapedStage(s: State, old_: Field, f: Parts, i: nat)
    requires Shaped(s, old_, f, i)
    ensures Stage(s) <= 10
  {}

  lemma CoversPart(f: Parts, uf: Field, k: nat)
    requires Covers(Get(f, uf), k)
    ensures InPart(f, k)
  {}

  lemma ScanStart(buf: seq<Byte>, s: State)
    requires s == ServerStart || s == SpacesBeforeUrl
    ensures Scanned(buf, s, NoField, NO_PARTS, 0)
  {}

  // ----- The first pass as a fold -----

  /** The local variables of http_parser_parse_url. */
  datatype UrlScan = UrlScan(s: State, oldUf: Field, f: Parts, foundAt: bool)

  /** One byte at offset i. */
  function UrlStep(x: UrlScan, c: Byte, i: nat): UrlScan {
    var t := ParseUrlChar(x.s, c);
    if t == Dead then x.(s := Dead)
    else
      var uf := FieldOf(t);
      UrlScan(t, if uf == NoField then x.oldUf else uf, Extend(x.f, x.oldUf, uf, i), x.foundAt || t == ServerWithAt)
  }

  function StartOf(isConnect: bool): State { if isConnect then ServerStart else SpacesBeforeUrl }

  function ScanOf(isConnect: bool, d: seq<Byte>): UrlScan {
    if d == [] then UrlScan(StartOf(isConnect), NoField, NO_PARTS, false)
    else UrlStep(ScanOf(isConnect, d[..|d| - 1]), d[|d| - 1], |d| - 1)
  }

  lemma ScanNext(isConnect: bool, buf: seq<Byte>, i: nat)
    requires i < |buf|
    ensures ScanOf(isConnect, buf[..i + 1]) == UrlStep(ScanOf(isConnect, buf[..i]), buf[i], i)
  {
    assert buf[..i + 1][..i] == buf[..i];
  }

  lemma DeadStep(x: UrlScan, c: Byte, i: nat)
    requires x.s == Dead
    ensures UrlStep(x, c, i).s == Dead
  {}

  lemma {:induction false} DeadStays(isConnect: bool, buf: seq<Byte>, i: nat)
    requires i <= |buf| && ScanOf(isConnect, buf[..i]).s == Dead
    ensures ScanOf(isConnect, buf).s == Dead
    decreases |buf| - i
  {
    hide ScanOf, UrlStep;
    if i == |buf| {
      assert buf[..i] == buf;
    } else {
      ScanNext(isConnect, buf, i);
      DeadStep(ScanOf(isConnect, buf[..i]), buf[i], i);
      DeadStays(isConnect, buf, i + 1);
    }
  }

  /** The first pass keeps its slices in bounds, in order and apart, and covers all but delimiters. */
  lemma {:induction false} ScanSound(isConnect: bool, buf: seq<Byte>, i: nat)
    requires i <= |buf|
    ensures var x := ScanOf(isConnect, buf[..i]);
      x.s != Dead ==> Scanned(buf, x.s, x.oldUf, x.f, i) && (i > 0 ==> Stage(x.s) > 0)
    decreases i
  {
    hide Scanned, Extend, ParseUrlChar, Stage;
    if i == 0 {
      ScanStart(buf, StartOf(isConnect));
    } else {
      ScanSound(isConnect, buf, i - 1);
      ScanNext(isConnect, buf, i - 1);
      var x := ScanOf(isConnect, buf[..i - 1]);
      if x.s == Dead {
        DeadStep(x, buf[i - 1], i - 1);
      } else if ParseUrlChar(x.s, buf[i - 1]) != Dead {
        ScanStep(buf, x.s, x.oldUf, x.f, i - 1);
      }
    }
  }

  /** Offsets and lengths are 16 bits wide: those of longer input are truncated. */
  const MAX_URL: nat := 0xffff

  /** uint16_t off, len */
  function U16(n: nat): nat { n % 0x1_0000 }

  /** In an input that is not too long, nothing is truncated. */
  lemma FieldFits(isConnect: bool, buf: seq<Byte>, i: nat)
    requires i < |buf| <= MAX_URL && ScanOf(isConnect, buf[..i]).s != Dead && ScanOf(isConnect, buf[..i + 1]).s != Dead
    ensures var x, uf := ScanOf(isConnect, buf[..i]), FieldOf(ScanOf(isConnect, buf[..i + 1]).s);
      U16(i) == i && (uf == x.oldUf != NoField ==> U16(Get(x.f, uf).len + 1) == Get(x.f, uf).len + 1)
  {
    hide ScanOf, Covered, InOrder, ParseUrlChar;
    ScanNext(isConnect, buf, i);
    ScanSound(isConnect, buf, i + 1);
  }

  lemma ScanStage(isConnect: bool, buf: seq<Byte>, i: nat)
    requires 0 < i <= |buf| && ScanOf(isConnect, buf[..i]).s != Dead
    ensures 0 < Stage(ScanOf(isConnect, buf[..i]).s) <= 10
  {
    hide ScanOf, Covered, InOrder;
    ScanSound(isConnect, buf, i);
  }

  /** The loop of http_parser_parse_url over all bytes. */
  method ScanUrl(buf: seq<Byte>, isConnect: bool) returns (ok: bool, f: Parts, foundAt: bool)
    requires |buf| <= MAX_URL
    ensures var x := ScanOf(isConnect, buf); ok == (x.s != Dead) && (ok ==> f == x.f && foundAt == x.foundAt)
  {
    hide ParseUrlChar, Stage, ScanOf, U16, Scanned;
    var s, oldUf := StartOf(isConnect), NoField;
    f, foundAt := NO_PARTS, false;
    ScanNothing(isConnect, buf);
    var i := 0;
    while i < |buf|
      invariant i <= |buf| && s != Dead && ScanOf(isConnect, buf[..i]) == UrlScan(s, oldUf, f, foundAt)
    {
      ScanNext(isConnect, buf, i);
      s := ParseUrlChar(s, buf[i]);
      if s == Dead {
        DeadStays(isConnect, buf, i + 1);
        return false, f, foundAt;
      }
      ScanStage(isConnect, buf, i + 1);
      OnlyExpected(s);
      FieldFits(isConnect, buf, i);
      var uf := NoField;
      match s {
        case SchemaSlash => // a delimiter
        case SchemaSlashSlash =>
        case ServerStart =>
        case QueryStart =>
        case FragmentStart =>
        case Schema => uf := SchemaField;
        case ServerWithAt =>
          foundAt := true;
          uf := HostField;
        case Server => uf := HostField;
        case Path => uf := PathField;
        case Query => uf := QueryField;
        case Fragment => uf := FragmentField;
        case _ => assert false; // "Unexpected state"
      }
      if uf != NoField {
        if uf == oldUf {
          f := Put(f, uf, Get(f, uf).(len := U16(Get(f, uf).len + 1)));
        } else {
          f := Put(f, uf, Slice(true, U16(i), 1));
          oldUf := uf;
        }
      }
      i := i + 1;
    }
    assert buf[..i] == buf;
    ok := true;
  }

  lemma ScanNothing(isConnect: bool, buf: seq<Byte>)
    ensures ScanOf(isConnect, buf[..0]) == UrlScan(StartOf(isConnect), NoField, NO_PARTS, false)
  {}

  /** The states that the loop expects after a byte. */
  lemma OnlyExpected(s: State)
    requires 0 < Stage(s) <= 10
    ensures FieldOf(s) != NoField || s == SchemaSlash || s == SchemaSlashSlash || s == ServerStart || s == QueryStart
        || s == FragmentStart
  {}

  // ----- http_parse_host -----

  datatype HostState =
    | UserinfoStart | Userinfo | HostStart | HostName | V6Start | V6 | V6End | V6ZoneStart | V6Zone
    | PortStart | PortDigits | HostDead

  /** http_parse_host_char */
  function ParseHostChar(s: HostState, ch: Byte): HostState {
    match s
    case UserinfoStart => UserinfoChar(ch)
    case Userinfo => UserinfoChar(ch)
    case HostStart => if ch == LBRACKET then V6Start else if IsHostChar(ch) then HostName else HostDead
    case HostName => if IsHostChar(ch) then HostName else if ch == COLON then PortStart else HostDead
    case V6End => if ch == COLON then PortStart else HostDead
    case V6 => if ch == RBRACKET then V6End else if ch == PERCENT then V6ZoneStart else V6Char(ch)
    case V6Start => V6Char(ch)
    case V6Zone => if ch == RBRACKET then V6End else ZoneChar(ch)
    case V6ZoneStart => ZoneChar(ch)
    case PortStart => if IsNum(ch) then PortDigits else HostDead
    case PortDigits => if IsNum(ch) then PortDigits else HostDead
    case HostDead => HostDead
  }

  function UserinfoChar(ch: Byte): HostState {
    if ch == AT then HostStart else if IsUserinfoChar(ch) then Userinfo else HostDead
  }

  function V6Char(ch: Byte): HostState { if IsHex(ch) || ch == COLON || ch == DOT then V6 else HostDead }

  function ZoneChar(ch: Byte): HostState {
    if IsAlphaNum(ch) || ch == PERCENT || ch == DOT || ch == MINUS || ch == UNDERSCORE || ch == TILDE then V6Zone
    else HostDead
  }

  /** The slices that http_parse_host sets. */
  datatype HostParts = HostParts(userinfo: Slice, host: Slice, port: Slice)

  /** A slice that grows by the byte at i, or begins there. */
  function Grow(s: Slice, begins: bool, i: nat): Slice {
    if begins then Slice(true, i, 1) else s.(len := s.len + 1)
  }

  /** One byte at offset i; the host keeps its length when an address begins, which was zero. */
  function HostStep(s: HostState, h: HostParts, c: Byte, i: nat): (HostState, HostParts) {
    var t := ParseHostChar(s, c);
    (t, match t
        case HostName => h.(host := h.host.(off := if s != HostName then i else h.host.off, len := h.host.len + 1))
        case V6 => h.(host := h.host.(off := if s != V6 then i else h.host.off, len := h.host.len + 1))
        case V6ZoneStart => h.(host := h.host.(len := h.host.len + 1))
        case V6Zone => h.(host := h.host.(len := h.host.len + 1))
        case PortDigits => h.(port := Grow(h.port, s != PortDigits, i))
        case Userinfo => h.(userinfo := Grow(h.userinfo, s != Userinfo, i))
        case _ => h)
  }

  function HostStartOf(foundAt: bool): HostState { if foundAt then UserinfoStart else HostStart }

  /** The state and the slices after the bytes of buf from a to i. */
  function HostOf(buf: seq<Byte>, foundAt: bool, a: nat, i: nat): (HostState, HostParts)
    requires a <= i <= |buf|
    decreases i
  {
    if i == a then (HostStartOf(foundAt), HostParts(ABSENT, Slice(true, a, 0), ABSENT))
    else
      var (s, h) := HostOf(buf, foundAt, a, i - 1);
      if s == HostDead then (s, h) else HostStep(s, h, buf[i - 1], i - 1)
  }

  predicate AcceptsHost(s: HostState) { s == HostName || s == V6End || s == PortDigits }

  predicate HostRead(s: HostState) {
    s == HostName || s == V6 || s == V6ZoneStart || s == V6Zone || s == V6End || s == PortStart || s == PortDigits
  }

  /** Slices of a host between a and i, as far as state s has come. */
  predicate HostShaped(s: HostState, h: HostParts, a: nat, i: nat) {
    && s != HostDead && h.host.present && a <= i
    && (h.userinfo.present ==> a <= h.userinfo.off && h.userinfo.len > 0 && End(h.userinfo) <= i)
    && (s == UserinfoStart ==> !h.userinfo.present) && (s == Userinfo ==> h.userinfo.present && End(h.userinfo) == i)
    && (HostRead(s) <==> h.host.len > 0)
    && (HostRead(s) ==> EndOr(h.userinfo, a) <= h.host.off && End(h.host) <= i)
    && (s == HostName || s == V6 || s == V6ZoneStart || s == V6Zone ==> End(h.host) == i)
    && (h.port.present <==> s == PortDigits)
    && (s == PortDigits ==> End(h.host) <= h.port.off && h.port.len > 0 && End(h.port) == i)
  }

  predicate InHost(h: HostParts, k: nat) {
    Covers(h.userinfo, k) || (h.host.off <= k < End(h.host)) || Covers(h.port, k)
  }

  lemma HostShapedStep(s: HostState, h: HostParts, c: Byte, a: nat, i: nat)
    requires HostShaped(s, h, a, i) && ParseHostChar(s, c) != HostDead
    ensures HostShaped(HostStep(s, h, c, i).0, HostStep(s, h, c, i).1, a, i + 1)
    ensures InHost(HostStep(s, h, c, i).1, i) || IsDelimiter(c)
    ensures forall k :: InHost(h, k) ==> InHost(HostStep(s, h, c, i).1, k)
    ensures ParseHostChar(s, c) == PortDigits ==> IsNum(c)
  {}

  ghost predicate HostCovered(buf: seq<Byte>, h: HostParts, a: nat, i: nat) {
    && i <= |buf|
    && (forall k :: a <= k < i ==> InHost(h, k) || IsDelimiter(buf[k]))
    && (forall k :: 0 <= k < i && Covers(h.port, k) ==> IsNum(buf[k]))
  }

  lemma PortDigitsStep(buf: seq<Byte>, s: HostState, h: HostParts, a: nat, i: nat)
    requires i < |buf| && HostShaped(s, h, a, i) && HostCovered(buf, h, a, i) && ParseHostChar(s, buf[i]) != HostDead
    ensures HostCovered(buf, HostStep(s, h, buf[i], i).1, a, i + 1)
  {
    hide ParseHostChar, HostShaped, InHost, IsNum, IsDelimiter;
    HostShapedStep(s, h, buf[i], a, i);
    PortGrows(s, h, buf[i], a, i);
  }

  lemma PortGrows(s: HostState, h: HostParts, c: Byte, a: nat, i: nat)
    requires HostShaped(s, h, a, i)
    ensures forall k :: Covers(HostStep(s, h, c, i).1.port, k) ==>
        Covers(h.port, k) || (k == i && ParseHostChar(s, c) == PortDigits)
  {}

  /** The slices of a host are in bounds, in order and apart, and cover all but delimiters. */
  lemma {:induction false} HostSound(buf: seq<Byte>, foundAt: bool, a: nat, i: nat)
    requires a <= i <= |buf|
    ensures var (s, h) := HostOf(buf, foundAt, a, i);
      s != HostDead ==> HostShaped(s, h, a, i) && HostCovered(buf, h, a, i)
    decreases i
  {
    hide HostShaped, ParseHostChar, HostCovered, InHost, IsNum, IsDelimiter;
    if i == a {
      HostStarts(buf, foundAt, a);
    } else {
      HostSound(buf, foundAt, a, i - 1);
      var (s, h) := HostOf(buf, foundAt, a, i - 1);
      if s != HostDead && ParseHostChar(s, buf[i - 1]) != HostDead {
        HostShapedStep(s, h, buf[i - 1], a, i - 1);
        PortDigitsStep(buf, s, h, a, i - 1);
      }
    }
  }

  lemma HostStarts(buf: seq<Byte>, foundAt: bool, a: nat)
    requires a <= |buf|
    ensures var (s, h) := HostOf(buf, foundAt, a, a); HostShaped(s, h, a, a) && HostCovered(buf, h, a, a)
  {}

  lemma {:induction false} HostDeadStays(buf: seq<Byte>, foundAt: bool, a: nat, i: nat, b: nat)
    requires a <= i <= b <= |buf| && HostOf(buf, foundAt, a, i).0 == HostDead
    ensures HostOf(buf, foundAt, a, b).0 == HostDead
    decreases b
  {
    if i < b {
      HostDeadStays(buf, foundAt, a, i, b - 1);
    }
  }

  /** In an input that is not too long, nothing is truncated. */
  lemma HostFits(buf: seq<Byte>, foundAt: bool, a: nat, i: nat)
    requires a <= i < |buf| <= MAX_URL && HostOf(buf, foundAt, a, i).0 != HostDead
    ensures var (s, h) := HostOf(buf, foundAt, a, i);
      U16(i) == i && U16(h.host.len + 1) == h.host.len + 1
      && (s == Userinfo ==> U16(h.userinfo.len + 1) == h.userinfo.len + 1)
      && (s == PortDigits ==> U16(h.port.len + 1) == h.port.len + 1)
  {
    hide HostOf, HostCovered;
    HostSound(buf, foundAt, a, i);
  }

  lemma HostNothing(buf: seq<Byte>, foundAt: bool, a: nat)
    requires a <= |buf|
    ensures HostOf(buf, foundAt, a, a) == (HostStartOf(foundAt), HostParts(ABSENT, Slice(true, a, 0), ABSENT))
  {}

  lemma HostNext(buf: seq<Byte>, foundAt: bool, a: nat, i: nat)
    requires a <= i < |buf|
    ensures var (s, h) := HostOf(buf, foundAt, a, i);
      HostOf(buf, foundAt, a, i + 1) == if s == HostDead then (s, h) else HostStep(s, h, buf[i], i)
  {}

  /** http_parse_host on the host slice of the first pass */
  method ParseHost(buf: seq<Byte>, slice: Slice, foundAt: bool) returns (ok: bool, h: HostParts)
    requires End(slice) <= |buf| <= MAX_URL
    ensures var (s, r) := HostOf(buf, foundAt, slice.off, End(slice)); ok == AcceptsHost(s) && (ok ==> h == r)
  {
    hide ParseHostChar, HostOf, U16;
    var buflen := End(slice);
    HostNothing(buf, foundAt, slice.off);
    h := HostParts(ABSENT, Slice(true, slice.off, 0), ABSENT);
    var s := if foundAt then UserinfoStart else HostStart;
    var p := slice.off;
    while p < buflen
      invariant slice.off <= p <= buflen && s != HostDead && HostOf(buf, foundAt, slice.off, p) == (s, h)
    {
      var t := ParseHostChar(s, buf[p]);
      if t == HostDead {
        HostNext(buf, foundAt, slice.off, p);
        HostDeadStays(buf, foundAt, slice.off, p + 1, buflen);
        return false, h;
      }
      HostFits(buf, foundAt, slice.off, p);
      HostNext(buf, foundAt, slice.off, p);
      match t {
        case HostName => h := h.(host := h.host.(off := if s != HostName then U16(p)
                                                 else h.host.off, len := U16(h.host.len + 1)));
        case V6 => h := h.(host := h.host.(off := if s != V6 then U16(p) else h.host.off, len := U16(h.host.len + 1)));
        case V6ZoneStart => h := h.(host := h.host.(len := U16(h.host.len + 1)));
        case V6Zone => h := h.(host := h.host.(len := U16(h.host.len + 1)));
        case PortDigits =>
          h := h.(port := if s != PortDigits then Slice(true, U16(p), 1) else h.port.(len := U16(h.port.len + 1)));
        case Userinfo =>
          h := h.(userinfo := if s != Userinfo then Slice(true, U16(p), 1)
                  else h.userinfo.(len := U16(h.userinfo.len + 1)));
        case _ =>
      }
      s := t;
      p := p + 1;
    }
    match s { // do not end somewhere unexpected
      case HostStart => ok := false;
      case V6Start => ok := false;
      case V6 => ok := false;
      case V6ZoneStart => ok := false;
      case V6Zone => ok := false;
      case PortStart => ok := false;
      case Userinfo => ok := false;
      case UserinfoStart => ok := false;
      case _ => ok := true;
    }
  }

  // ----- The port -----

  function Text(buf: seq<Byte>, s: Slice): seq<Byte> {
    if End(s) <= |buf| then buf[s.off..End(s)] else []
  }

  lemma PortPrefix(buf: seq<Byte>, port: Slice, i: nat)
    requires port.off <= i < End(port) <= |buf| && IsNum(buf[i])
    ensures ValueOf(10, buf[port.off..i + 1]) == ValueOf(10, buf[port.off..i]) * 10 + (buf[i] - 48)
    ensures ValueOf(10, buf[port.off..i + 1]) <= ValueOf(10, Text(buf, port))
  {
    var d := buf[port.off..i + 1];
    assert d[..|d| - 1] == buf[port.off..i] && d[|d| - 1] == buf[i];
    var rest := buf[i + 1..End(port)];
    assert Text(buf, port) == d + rest;
    ValueFromConcat(0, 10, d, rest);
    ValueFromGrows(ValueOf(10, d), 10, rest);
  }

  /** The loop over the digits of the port, which stops at the first value that is too large. */
  method ParsePort(buf: seq<Byte>, port: Slice) returns (ok: bool, v: nat)
    requires End(port) <= |buf| && (forall k :: 0 <= k < |buf| && port.off <= k < End(port) ==> IsNum(buf[k]))
    ensures ok <==> ValueOf(10, Text(buf, port)) <= 0xffff
    ensures ok ==> v == ValueOf(10, Text(buf, port))
  {
    hide ValueOf;
    v := 0;
    var p := port.off;
    NoValue(buf, p);
    while p < End(port)
      invariant port.off <= p <= End(port) && v == ValueOf(10, buf[port.off..p]) && v <= 0xffff
    {
      PortPrefix(buf, port, p);
      v := v * 10;
      v := v + (buf[p] as int - 48);
      if v > 0xffff {
        return false, v;
      }
      p := p + 1;
    }
    ok := true;
  }

  lemma NoValue(buf: seq<Byte>, p: nat)
    requires p <= |buf|
    ensures ValueOf(10, buf[p..p]) == 0
  {}

  // ----- http_parser_parse_url -----

  /** struct http_parser_url */
  datatype Url = Url(f: Parts, h: HostParts, port: nat)

  /** What http_parser_parse_url makes of the bytes. */
  const NO_HOST: HostParts := HostParts(ABSENT, ABSENT, ABSENT)

  function HostOfScan(buf: seq<Byte>, x: UrlScan): Option<HostParts> {
    if !x.f.host.present then Some(NO_HOST)
    else if End(x.f.host) > |buf| then None
    else
      var (s, h) := HostOf(buf, x.foundAt, x.f.host.off, End(x.f.host));
      if AcceptsHost(s) then Some(h) else None
  }

  /** A CONNECT request names a host and a port and nothing else. */
  predicate OnlyHostAndPort(f: Parts, h: HostParts) {
    !f.schema.present && f.host.present && !f.path.present && !f.query.present && !f.fragment.present
    && !h.userinfo.present && h.port.present
  }

  /** Which bytes are accepted as a URL, and how it is cut up. */
  function UrlOf(buf: seq<Byte>, isConnect: bool): Option<Url> {
    var x := ScanOf(isConnect, buf);
    if buf == [] || x.s == Dead || (x.f.schema.present && !x.f.host.present) then None
    else match HostOfScan(buf, x)
      case None => None
      case Some(h) =>
        if isConnect && !OnlyHostAndPort(x.f, h) then None
        else if !h.port.present then Some(Url(x.f, h, 0))
        else
          var v := ValueOf(10, Text(buf, h.port));
          if v <= 0xffff then Some(Url(x.f, h, v)) else None
  }

  /** All slices, in the order schema, userinfo, host, port, path, query, fragment. */
  predicate Ordered(u: Url, n: nat) {
    var e0 := EndOr(u.f.schema, 0);
    var e1 := EndOr(u.h.userinfo, e0);
    var e2 := EndOr(u.h.host, e1);
    var e3 := EndOr(u.h.port, e2);
    var e4 := EndOr(u.f.path, e3);
    var e5 := EndOr(u.f.query, e4);
    && StartsAfter(u.f.schema, 0) && StartsAfter(u.h.userinfo, e0) && StartsAfter(u.h.host, e1)
          && StartsAfter(u.h.port, e2)
    && StartsAfter(u.f.path, e3) && StartsAfter(u.f.query, e4) && StartsAfter(u.f.fragment, e5)
          && EndOr(u.f.fragment, e5) <= n
  }

  predicate InUrl(u: Url, k: nat) {
    Covers(u.f.schema, k) || Covers(u.h.userinfo, k) || Covers(u.h.host, k) || Covers(u.h.port, k)
    || Covers(u.f.path, k) || Covers(u.f.query, k) || Covers(u.f.fragment, k)
  }

  /** What a caller can rely on after success. */
  ghost predicate WellFormed(buf: seq<Byte>, u: Url) {
    && Ordered(u, |buf|)
    && (forall k :: 0 <= k < |buf| ==> InUrl(u, k) || IsDelimiter(buf[k]))
    && (u.f.schema.present ==> u.h.host.present)
    && (u.h.host.present ==> u.h.host.len > 0)
    && (u.h.port.present ==> u.h.host.present && AreDigits(10, Text(buf, u.h.port)))
    && u.port == (if u.h.port.present then ValueOf(10, Text(buf, u.h.port)) else 0) && u.port <= 0xffff
  }

  lemma HostSlices(buf: seq<Byte>, x: UrlScan)
    requires InOrder(x.f, |buf|) && x.f.host.present
    ensures x.f.host.off <= End(x.f.host) <= |buf|
  {}

  /** The slices of the host lie within the host slice of the first pass. */
  lemma OrderedUrl(f: Parts, h: HostParts, s: HostState, port: nat, n: nat)
    requires InOrder(f, n)
    requires if f.host.present then AcceptsHost(s) && HostShaped(s, h, f.host.off, End(f.host)) else h == NO_HOST
    ensures Ordered(Url(f, h, port), n)
  {}

  lemma PortText(buf: seq<Byte>, h: HostParts, a: nat, i: nat)
    requires HostCovered(buf, h, a, i) && h.port.present && End(h.port) <= i
    ensures AreDigits(10, Text(buf, h.port))
    ensures forall k :: 0 <= k < |buf| && h.port.off <= k < End(h.port) ==> IsNum(buf[k])
  {
    forall k | 0 <= k < |buf| && h.port.off <= k < End(h.port)
      ensures IsNum(buf[k])
    {
      assert Covers(h.port, k);
    }
    var d := Text(buf, h.port);
    forall j | 0 <= j < |d|
      ensures IsNum(d[j])
    {
      assert d[j] == buf[h.port.off + j];
    }
  }

  /** What the two passes establish, whatever the input. */
  lemma BothPasses(buf: seq<Byte>, isConnect: bool, h: HostParts)
    requires var x := ScanOf(isConnect, buf); buf != [] && x.s != Dead && HostOfScan(buf, x) == Some(h)
    ensures var x := ScanOf(isConnect, buf);
      Ordered(Url(x.f, h, 0), |buf|) && Covered(x.f, buf, |buf|)
      && (x.f.host.present ==> h.host.present && h.host.len > 0 && HostCovered(buf, h, x.f.host.off, End(x.f.host)))
      && (!x.f.host.present ==> h == NO_HOST) && (h.port.present ==> End(h.port) <= End(x.f.host))
  {
    hide Ordered, HostCovered, Covered, Shaped, ScanOf, InOrder;
    var x := ScanOf(isConnect, buf);
    ScanSound(isConnect, buf, |buf|);
    assert buf[..|buf|] == buf;
    if x.f.host.present {
      HostSlices(buf, x);
      HostSound(buf, x.foundAt, x.f.host.off, End(x.f.host));
    }
    OrderedUrl(x.f, h, if x.f.host.present then HostOf(buf, x.foundAt, x.f.host.off, End(x.f.host)).0
               else HostDead, 0, |buf|);
  }

  lemma InUrlOrDelimiter(buf: seq<Byte>, f: Parts, h: HostParts, port: nat, k: nat)
    requires k < |buf| && Covered(f, buf, |buf|) && h.host.present == f.host.present
    requires f.host.present ==> HostCovered(buf, h, f.host.off, End(f.host))
    ensures InUrl(Url(f, h, port), k) || IsDelimiter(buf[k])
  {
    hide IsDelimiter;
    assert InPart(f, k) || IsDelimiter(buf[k]);
    if Covers(f.host, k) {
      assert InHost(h, k) || IsDelimiter(buf[k]);
    }
  }

  /** On success all slices are in bounds, disjoint and in the order of a URL, all other bytes are
      delimiters, the host is not empty, and the port is the decimal value of its slice. */
  lemma UrlSound(buf: seq<Byte>, isConnect: bool)
    requires UrlOf(buf, isConnect).Some?
    ensures var u := UrlOf(buf, isConnect).value; WellFormed(buf, u) && (isConnect ==> OnlyHostAndPort(u.f, u.h))
  {
    hide ScanOf, HostOfScan, Ordered, HostCovered, Covered, ValueOf, InUrl, IsDelimiter, Text;
    var u := UrlOf(buf, isConnect).value;
    BothPasses(buf, isConnect, u.h);
    OrderedPort(u, 0, |buf|);
    forall k | 0 <= k < |buf|
      ensures InUrl(u, k) || IsDelimiter(buf[k])
    {
      InUrlOrDelimiter(buf, u.f, u.h, u.port, k);
    }
    if u.h.port.present {
      PortText(buf, u.h, u.f.host.off, End(u.f.host));
    }
  }

  lemma OrderedPort(u: Url, port: nat, n: nat)
    ensures Ordered(Url(u.f, u.h, port), n) == Ordered(u, n)
  {}

  /** A struct http_parser_url, filled in place. */
  class UrlFields {
    var f: Parts
    var h: HostParts
    var port: nat

    constructor ()
      ensures f == NO_PARTS && h == NO_HOST && port == 0
    {
      f, h, port := NO_PARTS, NO_HOST, 0;
    }

    /** http_parser_parse_url: zero, and the fields set, exactly when the bytes are accepted. */
    method ParseUrl(buf: seq<Byte>, isConnect: bool) returns (code: nat)
      requires |buf| <= MAX_URL
      modifies this
      ensures code == if UrlOf(buf, isConnect).Some? then 0 else 1
      ensures code == 0 ==> Url(f, h, port) == UrlOf(buf, isConnect).value && WellFormed(buf, Url(f, h, port))
    {
      hide ScanOf, HostOf, Ordered, HostCovered, Covered, ValueOf, WellFormed, HostShaped, Text;
      if |buf| == 0 {
        return 1;
      }
      port, h := 0, NO_HOST;
      var ok, foundAt;
      ok, f, foundAt := ScanUrl(buf, isConnect);
      if !ok || (f.schema.present && !f.host.present) {
        return 1;
      }
      if f.host.present {
        HostBounds(buf, isConnect);
        ok, h := ParseHost(buf, f.host, foundAt);
        if !ok {
          return 1;
        }
      }
      if isConnect && !OnlyHostAndPort(f, h) {
        return 1;
      }
      if h.port.present {
        BothPasses(buf, isConnect, h);
        HostBounds(buf, isConnect);
        PortText(buf, h, f.host.off, End(f.host));
        assert End(h.port) <= |buf|; // "Port number overflow"
        var v;
        ok, v := ParsePort(buf, h.port);
        if !ok {
          return 1;
        }
        port := v;
      }
      UrlSound(buf, isConnect);
      return 0;
    }
  }

  lemma HostBounds(buf: seq<Byte>, isConnect: bool)
    requires ScanOf(isConnect, buf).s != Dead && ScanOf(isConnect, buf).f.host.present
    ensures End(ScanOf(isConnect, buf).f.host) <= |buf|
  {
    hide ScanOf, Covered, Shaped;
    ScanSound(isConnect, buf, |buf|);
    assert buf[..|buf|] == buf;
  }
}
