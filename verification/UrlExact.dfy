/** URLs by position: where the first of each delimiter stands says how a URL is cut up, and the class of each
    byte between them whether it is one. The passes of UrlParser accept and cut exactly so. */
module UrlExact {
  import opened Sequences
  import opened HttpChars
  import opened HttpArms
  import opened Digits
  import opened UrlParser

  /** The first place from k on that holds a or b; behind the end if there is none. */
  function Find(d: seq<Byte>, a: Byte, b: Byte, k: nat): (r: nat)
    ensures r >= k && (k <= |d| ==> r <= |d|) && (k > |d| ==> r == k) && (r < |d| ==> d[r] == a || d[r] == b)
    ensures forall j :: k <= j < r && j < |d| ==> d[j] != a && d[j] != b
    decreases |d| - k
  {
    if k >= |d| || d[k] == a || d[k] == b then k else Find(d, a, b, k + 1)
  }

  /** The first place from k on that does not hold a. */
  function Skip(d: seq<Byte>, a: Byte, k: nat): (r: nat)
    ensures r >= k && (k <= |d| ==> r <= |d|) && (k > |d| ==> r == k) && (r < |d| ==> d[r] != a)
    ensures forall j :: k <= j < r && j < |d| ==> d[j] == a
    decreases |d| - k
  {
    if k >= |d| || d[k] != a then k else Skip(d, a, k + 1)
  }

  lemma {:induction false} FindNext(d: seq<Byte>, c: Byte, a: Byte, b: Byte, k: nat)
    ensures Find(d + [c], a, b, k) ==
      var r := Find(d, a, b, k); if r != |d| || c == a || c == b then r else r + 1
    decreases |d| - k
  {
    if k < |d| {
      assert (d + [c])[k] == d[k];
      FindNext(d, c, a, b, k + 1);
    }
  }

  lemma {:induction false} SkipNext(d: seq<Byte>, c: Byte, a: Byte, k: nat)
    ensures Skip(d + [c], a, k) == var r := Skip(d, a, k); if r != |d| || c != a then r else r + 1
    decreases |d| - k
  {
    if k < |d| {
      assert (d + [c])[k] == d[k];
      SkipNext(d, c, a, k + 1);
    }
  }

  /** The slice from a to b, absent if it is empty. */
  function Cut(a: nat, b: nat): Slice { if a < b then Slice(true, a, b - a) else ABSENT }

  // ----- The parts of a URL -----

  /** A URL of a CONNECT request begins with the authority, one that begins with a letter has it behind "://",
      any other is a path. */
  predicate HasSchema(isConnect: bool, d: seq<Byte>) { !isConnect && d != [] && IsAlpha(d[0]) }

  /** Places in a URL: the end of the schema, the authority and its end, the first '?' or '#', the first '#', and
      the first other byte behind that. */
  datatype Marks = Marks(colon: nat, start: nat, slash: nat, ask: nat, hash: nat, text: nat)

  function MarksIn(isConnect: bool, d: seq<Byte>): Marks {
    var colon := if HasSchema(isConnect, d) then Find(d, COLON, COLON, 0) else 0;
    var start := if HasSchema(isConnect, d) then colon + 3 else 0;
    var hash := Find(d, HASH, HASH, 0);
    Marks(colon, start, if isConnect || HasSchema(isConnect, d) then Find(d, SLASH, QUESTION, start) else 0,
          Find(d, QUESTION, HASH, 0), hash, Skip(d, HASH, hash))
  }

  /** The slices between the marks. */
  function CutUp(m: Marks, n: nat): Parts {
    Parts(Cut(0, m.colon), Cut(m.start, m.slash), Cut(m.slash, m.ask), Cut(m.ask + 1, m.hash), Cut(m.text, n))
  }

  predicate IsServerByte(c: Byte) { IsUserinfoChar(c) || c == LBRACKET || c == RBRACKET || c == AT }

  /** What may stand at place k of a URL. */
  predicate Allowed(isConnect: bool, d: seq<Byte>, m: Marks, k: nat)
    requires k < |d|
  {
    var c := d[k];
    if k < m.colon then IsAlpha(c)
    else if k < m.start then c == (if k == m.colon then COLON else SLASH)
    else if k < m.slash then IsServerByte(c) && (c == AT && k > m.start ==> d[k - 1] != AT)
    else if k == 0 && !isConnect then c == SLASH || c == STAR
    else IsUrlChar(c) || c == QUESTION || c == HASH
  }

  predicate IsUrl(isConnect: bool, d: seq<Byte>) {
    forall k :: 0 <= k < |d| ==> Allowed(isConnect, d, MarksIn(isConnect, d), k)
  }

  // ----- The first pass -----

  /** Where the first pass is behind the bytes d of a URL. */
  function StateAt(isConnect: bool, d: seq<Byte>, m: Marks): State {
    var n := |d|;
    if n == 0 then StartOf(isConnect)
    else if m.hash < n then if m.text < n then Fragment else FragmentStart
    else if m.ask < n then if m.ask == n - 1 then QueryStart else Query
    else if m.slash < n then Path
    else if m.colon == n then Schema
    else if m.start == n + 2 then SchemaSlash
    else if m.start == n + 1 then SchemaSlashSlash
    else if m.start == n then ServerStart
    else if Last(d) == AT then ServerWithAt
    else Server
  }

  /** What the marks of a URL know of each other. */
  predicate Placed(isConnect: bool, d: seq<Byte>, m: Marks) {
    var n := |d|;
    && (m.start == if HasSchema(isConnect, d) then m.colon + 3 else 0) && (m.start == 0 ==> m.colon == 0)
    && m.colon <= n && m.start <= m.slash && (m.slash <= n || m.slash == m.start)
    && m.ask <= m.hash <= m.text <= n && (m.hash < n ==> m.hash < m.text)
  }

  lemma PlacedMarks(isConnect: bool, d: seq<Byte>)
    ensures Placed(isConnect, d, MarksIn(isConnect, d))
  {
    var m := MarksIn(isConnect, d);
    assert m.ask <= m.hash;
  }

  /** The marks behind one more byte. */
  lemma MarksNext(isConnect: bool, d: seq<Byte>, c: Byte)
    requires d != []
    ensures HasSchema(isConnect, d + [c]) == HasSchema(isConnect, d)
    ensures var m, r, n := MarksIn(isConnect, d), MarksIn(isConnect, d + [c]), |d|;
      && r.colon == (if m.colon != n || c == COLON then m.colon else n + 1)
      && r.start == (if m.start == 0 then 0 else r.colon + 3)
      && r.slash == (if m.start == m.slash > n then r.start
                     else if m.slash != n || c == SLASH || c == QUESTION then m.slash else n + 1)
      && r.ask == (if m.ask != n || c == QUESTION || c == HASH then m.ask else n + 1)
      && r.hash == (if m.hash != n || c == HASH then m.hash else n + 1)
      && r.text == (if m.text != n || (c != HASH && m.hash < n) then m.text else n + 1)
  {
    hide Find, Skip, IsAlpha;
    var m := MarksIn(isConnect, d);
    assert (d + [c])[0] == d[0];
    FindNext(d, c, COLON, COLON, 0);
    FindNext(d, c, SLASH, QUESTION, m.start);
    FindNext(d, c, QUESTION, HASH, 0);
    FindNext(d, c, HASH, HASH, 0);
    SkipNext(d, c, HASH, m.hash);
  }

  /** A further byte does not change what may stand before it. */
  lemma AllowedNext(isConnect: bool, d: seq<Byte>, c: Byte, k: nat)
    requires d != [] && k < |d|
    ensures Allowed(isConnect, d + [c], MarksIn(isConnect, d + [c]), k)
      == Allowed(isConnect, d, MarksIn(isConnect, d), k)
  {
    hide MarksIn, IsAlpha, IsUrlChar, IsUserinfoChar;
    MarksNext(isConnect, d, c);
    PlacedMarks(isConnect, d);
    assert (d + [c])[k] == d[k];
    assert k > 0 ==> (d + [c])[k - 1] == d[k - 1];
  }

  /** The classes at the delimiters. */
  lemma Classes(c: Byte)
    ensures c == SPACE || c == CR || c == LF || c == TAB || c == FF || c == QUESTION || c == HASH ==>
      !IsAlpha(c) && !IsUrlChar(c) && !IsServerByte(c)
    ensures c == COLON ==> !IsAlpha(c)
    ensures c == SLASH ==> !IsAlpha(c) && !IsUserinfoChar(c) && IsUrlChar(c)
    ensures c == AT ==> !IsUserinfoChar(c)
  {}

  /** No '?' or '#' before the path. */
  lemma AskBehind(isConnect: bool, d: seq<Byte>, m: Marks)
    requires IsUrl(isConnect, d) && m == MarksIn(isConnect, d) && m.ask < |d|
    ensures m.slash <= m.ask
  {
    hide MarksIn, IsAlpha, IsUrlChar, IsServerByte;
    PlacedMarks(isConnect, d);
    assert d[m.ask] == QUESTION || d[m.ask] == HASH by { hide *; AskIs(isConnect, d); }
    Classes(d[m.ask]);
    assert Allowed(isConnect, d, m, m.ask);
  }

  lemma AskIs(isConnect: bool, d: seq<Byte>)
    ensures var k := MarksIn(isConnect, d).ask; k < |d| ==> d[k] == QUESTION || d[k] == HASH
    ensures var k := MarksIn(isConnect, d).hash; k < |d| ==> d[k] == HASH
  {}

  /** The first pass goes on exactly if the byte may stand there, and to the state at the marks behind it. */
  lemma StateNext(isConnect: bool, d: seq<Byte>, c: Byte)
    requires d != []
    requires IsUrl(isConnect, d)
    ensures var s := ParseUrlChar(StateAt(isConnect, d, MarksIn(isConnect, d)), c);
      var m := MarksIn(isConnect, d + [c]);
      s == if Allowed(isConnect, d + [c], m, |d|) then StateAt(isConnect, d + [c], m) else Dead
  {
    hide MarksIn, IsAlpha, IsUrlChar, IsUserinfoChar;
    MarksNext(isConnect, d, c);
    PlacedMarks(isConnect, d);
    Classes(c);
    if MarksIn(isConnect, d).ask < |d| {
      AskBehind(isConnect, d, MarksIn(isConnect, d));
    }
    assert (d + [c])[|d|] == c;
    assert (d + [c])[|d| - 1] == Last(d);
  }

  /** The field that the next byte belongs to if it is not the one that was set last. */
  function LastField(f: Parts): Field {
    if f.fragment.present then FragmentField else if f.query.present then QueryField
    else if f.path.present then PathField else if f.host.present then HostField
    else if f.schema.present then SchemaField else NoField
  }

  /** A byte goes to the slice that it extends or begins. */
  lemma CutNext(isConnect: bool, d: seq<Byte>, c: Byte)
    requires d != [] && IsUrl(isConnect, d) && IsUrl(isConnect, d + [c])
    ensures var m, r := MarksIn(isConnect, d), MarksIn(isConnect, d + [c]);
      var f := CutUp(m, |d|);
      Extend(f, LastField(f), FieldOf(StateAt(isConnect, d + [c], r)), |d|) == CutUp(r, |d| + 1)
  {
    hide MarksIn, IsUrl, CutUp, StateAt, Extend, FieldOf, LastField;
    if MarksIn(isConnect, d).ask < |d| {
      CutNextBehind(isConnect, d, c);
    } else {
      CutNextBefore(isConnect, d, c);
    }
  }

  lemma CutNextBehind(isConnect: bool, d: seq<Byte>, c: Byte)
    requires d != [] && IsUrl(isConnect, d) && IsUrl(isConnect, d + [c])
    requires MarksIn(isConnect, d).ask < |d|
    ensures var m, r := MarksIn(isConnect, d), MarksIn(isConnect, d + [c]);
      var f := CutUp(m, |d|);
      Extend(f, LastField(f), FieldOf(StateAt(isConnect, d + [c], r)), |d|) == CutUp(r, |d| + 1)
  {
    hide MarksIn, IsUrl;
    var m, r := MarksIn(isConnect, d), MarksIn(isConnect, d + [c]);
    MarksNext(isConnect, d, c);
    PlacedMarks(isConnect, d);
    AskBehind(isConnect, d, m);
  }

  lemma CutNextBefore(isConnect: bool, d: seq<Byte>, c: Byte)
    requires d != [] && IsUrl(isConnect, d) && IsUrl(isConnect, d + [c])
    requires MarksIn(isConnect, d).ask >= |d|
    ensures var m, r := MarksIn(isConnect, d), MarksIn(isConnect, d + [c]);
      var f := CutUp(m, |d|);
      Extend(f, LastField(f), FieldOf(StateAt(isConnect, d + [c], r)), |d|) == CutUp(r, |d| + 1)
  {
    hide MarksIn, IsUrl;
    var m, r := MarksIn(isConnect, d), MarksIn(isConnect, d + [c]);
    MarksNext(isConnect, d, c);
    PlacedMarks(isConnect, d);
    if r.ask < |d| + 1 {
      AskBehind(isConnect, d + [c], r);
    }
  }

  /** Is there an '@' in the authority? */
  predicate HasAt(d: seq<Byte>, m: Marks) { Find(d, AT, AT, m.start) < m.slash }

  lemma AtNext(isConnect: bool, d: seq<Byte>, c: Byte)
    requires d != [] && IsUrl(isConnect, d) && IsUrl(isConnect, d + [c])
    ensures var m, r := MarksIn(isConnect, d), MarksIn(isConnect, d + [c]);
      HasAt(d + [c], r) == (HasAt(d, m) || StateAt(isConnect, d + [c], r) == ServerWithAt)
  {
    hide MarksIn, IsUrl, Find;
    var m, r := MarksIn(isConnect, d), MarksIn(isConnect, d + [c]);
    MarksNext(isConnect, d, c);
    PlacedMarks(isConnect, d);
    PlacedMarks(isConnect, d + [c]);
    FindNext(d, c, AT, AT, m.start);
    if r.ask < |d| + 1 {
      AskBehind(isConnect, d + [c], r);
    }
  }

  lemma UrlNext(isConnect: bool, d: seq<Byte>, c: Byte)
    requires d != []
    ensures IsUrl(isConnect, d + [c]) <==>
      IsUrl(isConnect, d) && Allowed(isConnect, d + [c], MarksIn(isConnect, d + [c]), |d|)
  {
    hide Allowed, MarksIn;
    forall k | 0 <= k < |d|
      ensures Allowed(isConnect, d + [c], MarksIn(isConnect, d + [c]), k)
        == Allowed(isConnect, d, MarksIn(isConnect, d), k)
    {
      AllowedNext(isConnect, d, c, k);
    }
  }

  /** What the marks say about the first pass. */
  function ScanAt(isConnect: bool, d: seq<Byte>): UrlScan {
    var m := MarksIn(isConnect, d);
    var f := CutUp(m, |d|);
    UrlScan(StateAt(isConnect, d, m), LastField(f), f, HasAt(d, m))
  }

  predicate Agree(isConnect: bool, d: seq<Byte>, x: UrlScan) {
    if IsUrl(isConnect, d) then x == ScanAt(isConnect, d) else x.s == Dead
  }

  lemma FirstMarks(isConnect: bool, c: Byte)
    ensures var m := MarksIn(isConnect, [c]);
      m == if HasSchema(isConnect, [c]) then Marks(1, 4, 4, 1, 1, 1)
           else Marks(0, 0, if !isConnect || c == SLASH || c == QUESTION then 0 else 1,
                      if c == QUESTION || c == HASH then 0 else 1, if c == HASH then 0 else 1, 1)
    ensures Find([c], AT, AT, MarksIn(isConnect, [c]).start) ==
      if HasSchema(isConnect, [c]) then 4 else if c == AT then 0 else 1
  {
    Classes(c);
    hide IsAlpha;
    FindNext([], c, COLON, COLON, 0);
    FindNext([], c, SLASH, QUESTION, 0);
    FindNext([], c, QUESTION, HASH, 0);
    FindNext([], c, HASH, HASH, 0);
    FindNext([], c, AT, AT, 0);
    assert [] + [c] == [c];
    SkipNext([], c, HASH, 0);
  }

  lemma FirstOfUrl(isConnect: bool, c: Byte)
    ensures Agree(isConnect, [c], ScanOf(isConnect, [c]))
  {
    hide Agree, UrlStep;
    assert [c][..0] == [];
    if isConnect || HasSchema(isConnect, [c]) {
      FirstOfAuthority(isConnect, c);
    } else {
      FirstOfPath(c);
    }
  }

  lemma FirstOfAuthority(isConnect: bool, c: Byte)
    requires isConnect || HasSchema(isConnect, [c])
    ensures Agree(isConnect, [c], UrlStep(UrlScan(StartOf(isConnect), NoField, NO_PARTS, false), c, 0))
  {
    hide Find, Skip, IsAlpha, IsUrlChar, IsUserinfoChar, MarksIn;
    Classes(c);
    FirstMarks(isConnect, c);
    assert IsUrl(isConnect, [c]) == Allowed(isConnect, [c], MarksIn(isConnect, [c]), 0);
    Star();
  }

  lemma FirstOfPath(c: Byte)
    requires !HasSchema(false, [c])
    ensures Agree(false, [c], UrlStep(UrlScan(StartOf(false), NoField, NO_PARTS, false), c, 0))
  {
    hide Find, Skip, IsAlpha, IsUrlChar, IsUserinfoChar, MarksIn;
    Classes(c);
    FirstMarks(false, c);
    assert IsUrl(false, [c]) == Allowed(false, [c], MarksIn(false, [c]), 0);
    Star();
  }

  lemma Star()
    ensures IsUrlChar(STAR) && !IsAlpha(STAR)
  {}

  lemma AgreeNext(isConnect: bool, d: seq<Byte>, c: Byte, x: UrlScan)
    requires d != [] && Agree(isConnect, d, x)
    ensures Agree(isConnect, d + [c], UrlStep(x, c, |d|))
  {
    hide IsUrl, StateAt, CutUp, HasAt, LastField, Allowed, MarksIn, ParseUrlChar, FieldOf, Extend;
    UrlNext(isConnect, d, c);
    if !IsUrl(isConnect, d) {
      DeadStep(x, c, |d|);
    } else {
      StateNext(isConnect, d, c);
      if IsUrl(isConnect, d + [c]) {
        CutNext(isConnect, d, c);
        AtNext(isConnect, d, c);
        LastNext(isConnect, d, c);
      }
    }
  }

  lemma LastNext(isConnect: bool, d: seq<Byte>, c: Byte)
    requires d != [] && IsUrl(isConnect, d) && IsUrl(isConnect, d + [c])
    ensures var m, r := MarksIn(isConnect, d), MarksIn(isConnect, d + [c]);
      var uf := FieldOf(StateAt(isConnect, d + [c], r));
      LastField(CutUp(r, |d| + 1)) == (if uf == NoField then LastField(CutUp(m, |d|)) else uf)
    ensures StateAt(isConnect, d + [c], MarksIn(isConnect, d + [c])) != Dead
  {
    hide MarksIn, IsUrl;
    var m, r := MarksIn(isConnect, d), MarksIn(isConnect, d + [c]);
    MarksNext(isConnect, d, c);
    PlacedMarks(isConnect, d);
    if m.ask < |d| {
      AskBehind(isConnect, d, m);
    }
    if r.ask < |d| + 1 {
      AskBehind(isConnect, d + [c], r);
    }
  }

  /** The first pass accepts exactly the bytes of a URL and cuts them at its marks. */
  lemma {:induction false} ScanExactly(isConnect: bool, d: seq<Byte>)
    requires d != []
    ensures Agree(isConnect, d, ScanOf(isConnect, d))
  {
    hide Agree, UrlStep;
    if |d| == 1 {
      FirstOfUrl(isConnect, d[0]);
      assert d == [d[0]];
    } else {
      ScanExactly(isConnect, Front(d));
      AgreeNext(isConnect, Front(d), Last(d), ScanOf(isConnect, Front(d)));
      assert d == Front(d) + [Last(d)];
    }
  }

  // ----- The parts of a host -----

  /** Places in an authority that begins at a: the end of the user information, the first byte behind it and its
      '@', the bracket that closes an address, the first '%' and the colon of the port. */
  datatype HostMarks = HostMarks(info: nat, start: nat, address: bool, close: nat, percent: nat, colon: nat)

  function HostMarksIn(foundAt: bool, d: seq<Byte>, a: nat): HostMarks {
    var info := if foundAt then Find(d, AT, AT, a) else a;
    var start := if foundAt then info + 1 else info;
    var address := start < |d| && d[start] == LBRACKET;
    var close := if address then Find(d, RBRACKET, RBRACKET, start) else start;
    HostMarks(info, start, address, close, Find(d, PERCENT, PERCENT, start), Find(d, COLON, COLON, close))
  }

  function NameOf(m: HostMarks): Slice {
    if m.address then Cut(m.start + 1, m.close) else Cut(m.start, m.colon)
  }

  function CutHost(m: HostMarks, a: nat, n: nat): HostParts {
    HostParts(Cut(a, m.info), NameOf(m), Cut(m.colon + 1, n))
  }

  predicate IsAddressByte(c: Byte) { IsHex(c) || c == COLON || c == DOT }

  predicate IsZoneByte(c: Byte) {
    IsAlphaNum(c) || c == PERCENT || c == DOT || c == MINUS || c == UNDERSCORE || c == TILDE
  }

  /** What may stand at place k of an authority. */
  predicate HostAllowed(d: seq<Byte>, m: HostMarks, k: nat)
    requires k < |d|
  {
    var c := d[k];
    if k < m.start then IsUserinfoChar(c) || c == AT
    else if k >= m.close && k > m.colon then IsNum(c)
    else if m.address then
      if k == m.start then c == LBRACKET
      else if k < m.percent && k < m.close then IsAddressByte(c)
      else if k == m.percent && k < m.close then k > m.start + 1
      else if k < m.close then IsZoneByte(c)
      else if k == m.close then k > m.start + 1 && k != m.percent + 1
      else c == COLON
    else if k == m.colon then k > m.start
    else IsHostChar(c)
  }

  predicate IsHost(foundAt: bool, d: seq<Byte>, a: nat) {
    forall k :: a <= k < |d| ==> HostAllowed(d, HostMarksIn(foundAt, d, a), k)
  }

  /** A name or a closed address, and digits behind the colon if there is one. */
  predicate Complete(m: HostMarks, n: nat) {
    (if m.address then m.close < n else m.start < n) && m.colon + 1 != n
  }

  function HostStateAt(m: HostMarks, a: nat, n: nat): HostState {
    if n < m.start then if n == a then UserinfoStart else Userinfo
    else if n == m.start then HostStart
    else if m.close <= m.colon < n then if n == m.colon + 1 then PortStart else PortDigits
    else if !m.address then HostName
    else if m.close < n then V6End
    else if m.percent >= n then if n == m.start + 1 then V6Start else V6
    else if n == m.percent + 1 then V6ZoneStart
    else V6Zone
  }

  /** What the marks of an authority know of each other. */
  lemma HostPlaced(foundAt: bool, d: seq<Byte>, a: nat)
    requires a <= |d|
    ensures var m, n := HostMarksIn(foundAt, d, a), |d|;
      && a <= m.start <= m.close && m.start <= m.percent && m.close <= m.colon
      && m.start <= n + 1 && (m.start <= n ==> m.percent <= n && m.colon <= n)
      && (m.address ==> m.start < m.close && m.start < m.percent) && (!m.address ==> m.close == m.start)
      && (m.address ==> m.start < n) && m.start == (if foundAt then m.info + 1 else m.info)
      && m.info >= a && (!foundAt ==> m.info == a)
      && (m.start == n + 1 ==> m.percent == m.colon == n + 1)
      && (m.address && m.close < n ==> d[m.close] == RBRACKET) && (m.colon < n ==> d[m.colon] == COLON)
  {}

  lemma HostMarksNext(foundAt: bool, d: seq<Byte>, a: nat, c: Byte)
    requires a <= |d|
    ensures var m, r, n := HostMarksIn(foundAt, d, a), HostMarksIn(foundAt, d + [c], a), |d|;
      && r.start == (if m.start == n + 1 && c != AT then n + 2 else m.start)
      && r.info == (if m.start == n + 1 && c != AT then n + 1 else m.info)
      && r.address == (m.address || (m.start == n && c == LBRACKET))
      && r.close == (if !r.address then r.start else if m.address && (m.close < n || c == RBRACKET) then m.close
                     else n + 1)
      && r.percent == (if r.start == n + 2 then n + 2 else if m.percent != n || c == PERCENT then m.percent else n + 1)
      && r.colon == (if r.start == n + 2 then n + 2 else if m.colon != n || (c == COLON && r.close <= n) then m.colon
                     else n + 1)
  {
    hide Find;
    var m, r, n := HostMarksIn(foundAt, d, a), HostMarksIn(foundAt, d + [c], a), |d|;
    assert m.start < n ==> (d + [c])[m.start] == d[m.start];
    assert (d + [c])[n] == c;
    HostPlaced(foundAt, d, a);
    FindNext(d, c, AT, AT, a);
    FindNext(d, c, PERCENT, PERCENT, m.start);
    FindNext(d, c, RBRACKET, RBRACKET, m.start);
    FindNext(d, c, COLON, COLON, m.close);
  }

  lemma HostAllowedNext(foundAt: bool, d: seq<Byte>, a: nat, c: Byte, k: nat)
    requires a <= k < |d|
    ensures HostAllowed(d + [c], HostMarksIn(foundAt, d + [c], a), k) == HostAllowed(d, HostMarksIn(foundAt, d, a), k)
  {
    hide HostMarksIn, IsHostChar, IsUserinfoChar, IsAddressByte, IsZoneByte;
    HostMarksNext(foundAt, d, a, c);
    HostPlaced(foundAt, d, a);
    assert (d + [c])[k] == d[k];
  }

  lemma HostNextByte(foundAt: bool, d: seq<Byte>, a: nat, c: Byte)
    requires a <= |d|
    ensures IsHost(foundAt, d + [c], a) <==>
      IsHost(foundAt, d, a) && HostAllowed(d + [c], HostMarksIn(foundAt, d + [c], a), |d|)
  {
    hide HostAllowed, HostMarksIn;
    forall k | a <= k < |d|
      ensures HostAllowed(d + [c], HostMarksIn(foundAt, d + [c], a), k)
        == HostAllowed(d, HostMarksIn(foundAt, d, a), k)
    {
      HostAllowedNext(foundAt, d, a, c, k);
    }
  }

  /** The classes at the delimiters of a host. */
  lemma HostClasses(c: Byte)
    ensures c == COLON ==> !IsHostChar(c) && !IsNum(c) && IsAddressByte(c) && !IsZoneByte(c)
    ensures c == LBRACKET || c == RBRACKET ==> !IsHostChar(c) && !IsNum(c) && !IsAddressByte(c) && !IsZoneByte(c)
    ensures c == PERCENT ==> !IsHostChar(c) && !IsAddressByte(c) && IsZoneByte(c)
    ensures c == AT ==> !IsUserinfoChar(c)
    ensures ParseHostChar(V6Start, c) == if IsAddressByte(c) then V6 else HostDead
    ensures ParseHostChar(V6ZoneStart, c) == if IsZoneByte(c) then V6Zone else HostDead
  {}

  lemma HostStateNext(foundAt: bool, d: seq<Byte>, a: nat, c: Byte)
    requires a <= |d| && IsHost(foundAt, d, a)
    ensures var m, r := HostMarksIn(foundAt, d, a), HostMarksIn(foundAt, d + [c], a);
      ParseHostChar(HostStateAt(m, a, |d|), c)
      == if HostAllowed(d + [c], r, |d|) then HostStateAt(r, a, |d| + 1) else HostDead
  {
    hide HostMarksIn, IsHostChar, IsUserinfoChar, IsAddressByte, IsZoneByte, IsNum, IsHost, V6Char, ZoneChar;
    HostClasses(c);
    HostMarksNext(foundAt, d, a, c);
    HostPlaced(foundAt, d, a);
    assert (d + [c])[|d|] == c;
  }

  /** The slices in the course of the second pass: the host is empty until its first byte. */
  predicate HostCutAs(m: HostMarks, a: nat, n: nat, h: HostParts) {
    var r := CutHost(m, a, n);
    h.userinfo == r.userinfo && h.port == r.port
    && if HostRead(HostStateAt(m, a, n)) then h.host == r.host else h.host.present && h.host.len == 0
  }

  predicate HostAgree(foundAt: bool, d: seq<Byte>, a: nat, s: HostState, h: HostParts) {
    var m := HostMarksIn(foundAt, d, a);
    if IsHost(foundAt, d, a) then s == HostStateAt(m, a, |d|) && HostCutAs(m, a, |d|, h) else s == HostDead
  }

  lemma HostCutNext(foundAt: bool, d: seq<Byte>, a: nat, c: Byte, h: HostParts)
    requires a <= |d| && HostAllowed(d + [c], HostMarksIn(foundAt, d + [c], a), |d|)
    requires HostCutAs(HostMarksIn(foundAt, d, a), a, |d|, h)
    ensures var m, r := HostMarksIn(foundAt, d, a), HostMarksIn(foundAt, d + [c], a);
      ParseHostChar(HostStateAt(m, a, |d|), c) == HostStateAt(r, a, |d| + 1) ==>
        HostCutAs(r, a, |d| + 1, HostStep(HostStateAt(m, a, |d|), h, c, |d|).1)
  {
    hide HostMarksIn, IsHostChar, IsUserinfoChar, IsAddressByte, IsZoneByte, IsNum, ParseHostChar;
    HostMarksNext(foundAt, d, a, c);
    HostPlaced(foundAt, d, a);
    assert (d + [c])[|d|] == c;
    HostClasses(c);
  }

  lemma HostAgreeNext(foundAt: bool, d: seq<Byte>, a: nat, c: Byte, s: HostState, h: HostParts)
    requires a <= |d| && HostAgree(foundAt, d, a, s, h) && s != HostDead
    ensures var (t, r) := HostStep(s, h, c, |d|); HostAgree(foundAt, d + [c], a, t, r)
  {
    hide HostMarksIn, HostAllowed, IsHost, HostCutAs, ParseHostChar, HostStateAt;
    HostNextByte(foundAt, d, a, c);
    if IsHost(foundAt, d, a) {
      HostStateNext(foundAt, d, a, c);
      if HostAllowed(d + [c], HostMarksIn(foundAt, d + [c], a), |d|) {
        HostCutNext(foundAt, d, a, c, h);
      }
    }
  }

  lemma HostDeadAgrees(foundAt: bool, d: seq<Byte>, a: nat, c: Byte, h: HostParts)
    requires a <= |d| && HostAgree(foundAt, d, a, HostDead, h)
    ensures HostAgree(foundAt, d + [c], a, HostDead, h)
  {
    hide HostMarksIn, HostAllowed, IsHost, HostCutAs;
    HostNextByte(foundAt, d, a, c);
  }

  lemma HostBegins(foundAt: bool, d: seq<Byte>, a: nat)
    requires a == |d|
    ensures HostAgree(foundAt, d, a, HostStartOf(foundAt), HostParts(ABSENT, Slice(true, a, 0), ABSENT))
  {}

  /** The second pass goes on exactly over the bytes of a host and cuts them at its marks. */
  lemma {:induction false} HostExactly(buf: seq<Byte>, foundAt: bool, a: nat, i: nat)
    requires a <= i <= |buf|
    ensures var (s, h) := HostOf(buf, foundAt, a, i); HostAgree(foundAt, buf[..i], a, s, h)
    decreases i
  {
    hide HostAgree, HostStep;
    if i == a {
      HostBegins(foundAt, buf[..a], a);
    } else {
      HostExactly(buf, foundAt, a, i - 1);
      var (s, h) := HostOf(buf, foundAt, a, i - 1);
      assert buf[..i] == buf[..i - 1] + [buf[i - 1]];
      if s == HostDead {
        HostDeadAgrees(foundAt, buf[..i - 1], a, buf[i - 1], h);
      } else {
        HostAgreeNext(foundAt, buf[..i - 1], a, buf[i - 1], s, h);
      }
    }
  }

  // ----- The whole URL -----

  /** The slices of a host between a and the end of d, if it is one. */
  function HostIn(foundAt: bool, d: seq<Byte>, a: nat): Option<HostParts> {
    var m := HostMarksIn(foundAt, d, a);
    if IsHost(foundAt, d, a) && Complete(m, |d|) then Some(CutHost(m, a, |d|)) else None
  }

  /** Which bytes are a URL, and how it is cut up, by the places of its delimiters. */
  function UrlIn(buf: seq<Byte>, isConnect: bool): Option<Url> {
    var m := MarksIn(isConnect, buf);
    var f := CutUp(m, |buf|);
    if buf == [] || !IsUrl(isConnect, buf) || (f.schema.present && !f.host.present) then None
    else
      var h := if f.host.present then HostIn(HasAt(buf, m), buf[..m.slash], m.start) else Some(NO_HOST);
      if h.None? || (isConnect && !OnlyHostAndPort(f, h.value)) then None
      else
        var v := if h.value.port.present then ValueOf(10, Text(buf, h.value.port)) else 0;
        if v <= 0xffff then Some(Url(f, h.value, v)) else None
  }

  lemma HostAccepted(foundAt: bool, d: seq<Byte>, a: nat, s: HostState, h: HostParts)
    requires a <= |d| && HostAgree(foundAt, d, a, s, h)
    ensures HostIn(foundAt, d, a) == if AcceptsHost(s) then Some(h) else None
  {
    hide HostMarksIn, IsHost;
    HostPlaced(foundAt, d, a);
  }

  lemma HostSame(buf: seq<Byte>, isConnect: bool)
    requires IsUrl(isConnect, buf) && ScanAt(isConnect, buf).f.host.present
    ensures var m := MarksIn(isConnect, buf);
      m.slash <= |buf| && HostOfScan(buf, ScanAt(isConnect, buf)) == HostIn(HasAt(buf, m), buf[..m.slash], m.start)
  {
    hide MarksIn, IsUrl, HasAt, HostIn, HostAgree, StateAt, HostOf;
    var m := MarksIn(isConnect, buf);
    PlacedMarks(isConnect, buf);
    HostExactly(buf, HasAt(buf, m), m.start, m.slash);
    var (s, h) := HostOf(buf, HasAt(buf, m), m.start, m.slash);
    HostAccepted(HasAt(buf, m), buf[..m.slash], m.start, s, h);
  }

  /** http_parser_parse_url accepts exactly the URLs and cuts each at the places of its delimiters. */
  lemma UrlExactly(buf: seq<Byte>, isConnect: bool)
    ensures UrlOf(buf, isConnect) == UrlIn(buf, isConnect)
  {
    hide MarksIn, IsUrl, HasAt, HostIn, ScanOf, StateAt, OnlyHostAndPort, ValueOf, HostOf;
    if buf != [] {
      ScanExactly(isConnect, buf);
      if IsUrl(isConnect, buf) {
        AtDead(isConnect, buf);
        if ScanAt(isConnect, buf).f.host.present {
          HostSame(buf, isConnect);
        }
      }
    }
  }

  lemma AtDead(isConnect: bool, d: seq<Byte>)
    requires d != []
    ensures StateAt(isConnect, d, MarksIn(isConnect, d)) != Dead
  {}

  // ----- What a caller sees -----

  predicate Holds(buf: seq<Byte>, k: int, c: Byte) { 0 <= k < |buf| && buf[k] == c }

  /** The schema begins the URL, and "://" leads from it to the authority. */
  predicate SchemaDelimited(buf: seq<Byte>, f: Parts) {
    var n := f.schema.len;
    && f.schema.off == 0 && Holds(buf, n, COLON) && Holds(buf, n + 1, SLASH) && Holds(buf, n + 2, SLASH)
    && f.host.present && f.host.off == n + 3
  }

  /** The delimiters around the slices of a URL. */
  predicate Delimited(buf: seq<Byte>, u: Url) {
    && (u.f.schema.present ==> SchemaDelimited(buf, u.f))
    && (u.h.userinfo.present ==> Holds(buf, End(u.h.userinfo), AT))
    && (u.h.port.present ==> Holds(buf, u.h.port.off - 1, COLON))
    && (u.f.query.present ==> Holds(buf, u.f.query.off - 1, QUESTION))
    && (u.f.fragment.present ==> Holds(buf, u.f.fragment.off - 1, HASH))
  }

  /** No delimiter of a later part within a slice. */
  predicate Undivided(buf: seq<Byte>, f: Parts) {
    forall k :: 0 <= k < |buf| ==>
      (Covers(f.path, k) ==> buf[k] != QUESTION && buf[k] != HASH) && (Covers(f.query, k) ==> buf[k] != HASH)
  }

  /** Every slice of an accepted URL stands between its delimiters, and none contains that of a later part. */
  lemma UrlDelimited(buf: seq<Byte>, isConnect: bool)
    requires UrlOf(buf, isConnect).Some?
    ensures var u := UrlOf(buf, isConnect).value; Delimited(buf, u) && Undivided(buf, u.f)
  {
    hide UrlOf, IsUrl, OnlyHostAndPort, ValueOf, MarksIn, HasAt, HostIn, Undivided, CutUp, Holds, Text,
      SchemaDelimited, IsHost;
    UrlExactly(buf, isConnect);
    var m := MarksIn(isConnect, buf);
    PathUndivided(isConnect, buf);
    PlacedMarks(isConnect, buf);
    PartsDelimited(isConnect, buf, m);
    if CutUp(m, |buf|).host.present {
      HostWithin(isConnect, buf);
      HostDelimited(HasAt(buf, m), buf[..m.slash], m.start);
      PrefixHolds(buf, m.slash);
    }
  }

  lemma PrefixHolds(buf: seq<Byte>, n: nat)
    requires n <= |buf|
    ensures forall k: int, c :: Holds(buf[..n], k, c) ==> Holds(buf, k, c)
  {}

  lemma HostWithin(isConnect: bool, d: seq<Byte>)
    requires CutUp(MarksIn(isConnect, d), |d|).host.present
    ensures MarksIn(isConnect, d).slash <= |d|
  {
    hide MarksIn;
    PlacedMarks(isConnect, d);
  }

  lemma HostDelimited(foundAt: bool, d: seq<Byte>, a: nat)
    requires a <= |d| && HostIn(foundAt, d, a).Some?
    ensures var h := HostIn(foundAt, d, a).value;
      && (h.userinfo.present ==> Holds(d, End(h.userinfo), AT))
      && (h.port.present ==> Holds(d, h.port.off - 1, COLON))
  {
    hide IsHost, HostMarksIn;
    HostPlaced(foundAt, d, a);
    InfoAt(foundAt, d, a);
  }

  lemma InfoAt(foundAt: bool, d: seq<Byte>, a: nat)
    requires a <= |d|
    ensures var m := HostMarksIn(foundAt, d, a); foundAt && m.info < |d| ==> d[m.info] == AT
  {}

  lemma PathUndivided(isConnect: bool, d: seq<Byte>)
    ensures Undivided(d, CutUp(MarksIn(isConnect, d), |d|))
  {}

  /** The delimiters before the query and the fragment, and behind the schema. */
  lemma PartsDelimited(isConnect: bool, d: seq<Byte>, m: Marks)
    requires IsUrl(isConnect, d) && m == MarksIn(isConnect, d)
    ensures var f := CutUp(m, |d|);
      && (f.query.present ==> Holds(d, f.query.off - 1, QUESTION))
      && (f.fragment.present ==> Holds(d, f.fragment.off - 1, HASH))
      && (f.schema.present && f.host.present ==> SchemaDelimited(d, f))
  {
    hide MarksIn, IsUrl;
    PlacedMarks(isConnect, d);
    AskIs(isConnect, d);
    HashBefore(isConnect, d);
    if m.colon > 0 && m.start < |d| {
      SchemaBytes(isConnect, d, m);
    }
  }

  lemma HashBefore(isConnect: bool, d: seq<Byte>)
    ensures var m := MarksIn(isConnect, d); 
      && (m.ask < m.hash && m.ask < |d| ==> d[m.ask] == QUESTION)
      && (m.hash < m.text && m.text <= |d| ==> d[m.text - 1] == HASH)
  {}

  lemma SchemaBytes(isConnect: bool, d: seq<Byte>, m: Marks)
    requires IsUrl(isConnect, d) && m == MarksIn(isConnect, d) && m.start < |d| && m.colon > 0
    ensures m.start == m.colon + 3 && d[m.colon] == COLON && d[m.colon + 1] == d[m.colon + 2] == SLASH
  {
    hide MarksIn;
    PlacedMarks(isConnect, d);
    assert Allowed(isConnect, d, m, m.colon);
    assert Allowed(isConnect, d, m, m.colon + 1);
    assert Allowed(isConnect, d, m, m.colon + 2);
  }

  /** Behind the first '?' that no '#' precedes everything up to the first '#' is the query; behind the first '#'
      and those that follow it at once everything is the fragment. */
  lemma BehindDelimiters(buf: seq<Byte>, isConnect: bool, j: nat, k: nat)
    requires UrlOf(buf, isConnect).Some? && j < k < |buf|
    ensures var f := UrlOf(buf, isConnect).value.f;
      && (buf[j] == QUESTION && HASH !in buf[..k + 1] ==> Covers(f.query, k))
      && (buf[j] == HASH && buf[k] != HASH ==> forall i :: k <= i < |buf| ==> Covers(f.fragment, i))
  {
    hide UrlOf, IsUrl, IsHost, OnlyHostAndPort, ValueOf, Allowed, HostIn;
    UrlExactly(buf, isConnect);
    assert forall i :: 0 <= i <= k ==> buf[i] == buf[..k + 1][i];
  }
}
