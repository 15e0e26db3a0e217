/** Exactly which words the parser recognises in the value of a Connection header, over all its lines. */
module HttpConnection {
  import opened Sequences
  import opened HttpChars
  import opened HttpArms
  import opened HttpBytewise
  import opened HttpRun
  import opened HttpNames

  // ----- Words of a Connection value -----

  datatype Word = WordClose | WordKeepAlive | WordUpgrade

  function Spelling(word: Word): (s: string)
    ensures |s| > 0
  {
    match word
    case WordClose => "close"
    case WordKeepAlive => "keep-alive"
    case WordUpgrade => "upgrade"
  }

  /** The first n bytes begin the word, whatever their case. */
  predicate Said(t: seq<Byte>, word: Word, n: nat) {
    n <= |Spelling(word)| && n <= |t| && forall i :: 0 <= i < n ==> Lower(t[i]) == Spelling(word)[i] as int
  }

  /** The word with nothing but spaces behind it */
  predicate IsWord(t: seq<Byte>, word: Word) {
    var n := |Spelling(word)|; Said(t, word, n) && Blank(t[n..])
  }

  /** A proper prefix of the word */
  predicate IsPart(t: seq<Byte>, word: Word) { 0 < |t| < |Spelling(word)| && Said(t, word, |t|) }

  predicate IsPartOfAny(t: seq<Byte>) { IsPart(t, WordClose) || IsPart(t, WordKeepAlive) || IsPart(t, WordUpgrade) }

  lemma SaidNext(t: seq<Byte>, ch: Byte, word: Word, n: nat)
    requires n > |t|
    ensures Said(t + [ch], word, n) <==>
      n == |t| + 1 <= |Spelling(word)| && Said(t, word, |t|) && Lower(ch) == Spelling(word)[|t|] as int
  {
    if n == |t| + 1 <= |Spelling(word)| {
      var e := t + [ch];
      assert e[|t|] == ch && forall i :: 0 <= i < |t| ==> e[i] == t[i];
    }
  }

  lemma SaidStays(t: seq<Byte>, ch: Byte, word: Word, n: nat)
    requires n <= |t|
    ensures Said(t + [ch], word, n) == Said(t, word, n)
    ensures Blank((t + [ch])[n..]) == (Blank(t[n..]) && ch == SPACE)
  {
    var e := t + [ch];
    assert forall i :: 0 <= i < n ==> e[i] == t[i];
    assert e[n..] == t[n..] + [ch];
    if Blank(e[n..]) {
      assert e[n..][|t| - n] == ch;
      assert forall i :: 0 <= i < |t| - n ==> t[n..][i] == e[n..][i];
    }
  }

  /** A further byte of a word. */
  lemma WordNext(t: seq<Byte>, ch: Byte, word: Word)
    ensures var n := |Spelling(word)|;
      var fits := |t| < n && Said(t, word, |t|) && Lower(ch) == Spelling(word)[|t|] as int;
      && IsWord(t + [ch], word) == (if |t| < n then |t| == n - 1 && fits else IsWord(t, word) && ch == SPACE)
      && IsPart(t + [ch], word) == (|t| < n - 1 && fits)
  {
    hide Said, Spelling;
    var n := |Spelling(word)|;
    SaidNext(t, ch, word, |t| + 1);
    if |t| < n {
      SaidNext(t, ch, word, n);
      if |t| == n - 1 {
        assert (t + [ch])[n..] == [];
      }
    } else {
      SaidStays(t, ch, word, n);
    }
  }

  function DoneState(word: Word): HeaderState {
    match word case WordClose => ConnClose case WordKeepAlive => ConnKeepAlive case WordUpgrade => ConnUpgrade
  }

  function MatchState(word: Word): HeaderState {
    match word case WordClose => ConnMatchClose case WordKeepAlive => ConnMatchKeepAlive
    case WordUpgrade => ConnMatchUpgrade
  }

  /** The state behind the part t of an element. */
  function StateOf(t: seq<Byte>): HeaderState {
    if IsWord(t, WordClose) then ConnClose
    else if IsWord(t, WordKeepAlive) then ConnKeepAlive
    else if IsWord(t, WordUpgrade) then ConnUpgrade
    else if IsPart(t, WordClose) then ConnMatchClose
    else if IsPart(t, WordKeepAlive) then ConnMatchKeepAlive
    else if IsPart(t, WordUpgrade) then ConnMatchUpgrade
    else ConnToken
  }

  predicate Matches(h: HeaderState) { h == ConnMatchClose || h == ConnMatchKeepAlive || h == ConnMatchUpgrade }

  predicate WordRead(q: Parser, t: seq<Byte>) { q.hs == StateOf(t) && (Matches(q.hs) ==> q.index == |t| - 1) }

  /** The first letter tells the words apart. */
  lemma WordInitial(t: seq<Byte>, word: Word)
    requires t != []
    ensures IsWord(t, word) || IsPart(t, word) || Said(t, word, |t|) ==> Lower(t[0]) == Spelling(word)[0] as int
  {}

  /** One letter of each word */
  lemma WordLetter(q: Parser, word: Word, ch: Byte)
    requires q.hs == MatchState(word) && ch != COMMA
    ensures var s, n := ValueChar(q, ch), q.index + 1;
      && s.flags == q.flags && s.state == q.state && s.errno == q.errno
      && s.hs == (if n >= |Spelling(word)| || Lower(ch) != Spelling(word)[n] as int then ConnToken
                  else if n == |Spelling(word)| - 1 then DoneState(word) else MatchState(word))
      && (Matches(s.hs) ==> s.index == n)
  {
    hide TokenStart, LengthDigit, AfterConnectionWord;
  }

  /** After a word, or within an element that is none */
  lemma WordOver(q: Parser, ch: Byte)
    requires ch != COMMA
    ensures var s := ValueChar(q, ch);
      && (q.hs == ConnToken ==> s == q)
      && (q.hs == ConnClose || q.hs == ConnKeepAlive || q.hs == ConnUpgrade ==>
           s.flags == q.flags && s.hs == if ch == SPACE then q.hs else ConnToken)
  {}

  lemma LetterStep(q: Parser, t: seq<Byte>, ch: Byte)
    requires t != [] && WordRead(q, t) && ch != COMMA
    ensures var s := ValueChar(q, ch); WordRead(s, t + [ch]) && s.flags == q.flags
  {
    hide Said, ValueChar, Lower, Blank, IsWord;
    WordNext(t, ch, WordClose);
    WordNext(t, ch, WordKeepAlive);
    WordNext(t, ch, WordUpgrade);
    LongWord(t, WordClose);
    LongWord(t, WordKeepAlive);
    LongWord(t, WordUpgrade);
    WordInitial(t, WordClose);
    WordInitial(t, WordKeepAlive);
    WordInitial(t, WordUpgrade);
    WordOver(q, ch);
    if q.hs == ConnMatchClose {
      WordLetter(q, WordClose, ch);
    } else if q.hs == ConnMatchKeepAlive {
      WordLetter(q, WordKeepAlive, ch);
    } else if q.hs == ConnMatchUpgrade {
      WordLetter(q, WordUpgrade, ch);
    }
  }

  lemma LongWord(t: seq<Byte>, word: Word)
    ensures IsWord(t, word) ==> |t| >= |Spelling(word)|
  {}

  // ----- Elements of a Connection value -----

  /** Where the element behind w is found, if a comma follows: unless w begins a word and breaks off there, or is
      nothing at the beginning of the value, the comma is noticed. */
  function Behind(b: Place, w: seq<Byte>): Place {
    match b
    case Opening => if w == [] || IsPartOfAny(w) then Inside else Fresh
    case Fresh =>
      var t := Trimmed(w);
      if t == [] || Token(Lower(t[0])) == 0 then Lost else if IsPartOfAny(t) then Inside else Fresh
    case Inside => Fresh
    case Lost => Lost
  }

  /** An element found at b is the word. */
  predicate IsNoticed(word: Word, b: Place, w: seq<Byte>) {
    match b
    case Opening => IsWord(w, word)
    case Fresh => IsWord(Trimmed(w), word)
    case _ => false
  }

  /** The state and index behind the part w of an element. */
  predicate OptionRead(q: Parser, b: Place, w: seq<Byte>) {
    match b
    case Opening => w != [] && WordRead(q, w)
    case Fresh =>
      var t := Trimmed(w);
      if t == [] then q.hs == ConnTokenStart && q.index == 0
      else if Token(Lower(t[0])) == 0 then q.hs == General
      else WordRead(q, t)
    case Inside => q.hs == ConnToken
    case Lost => q.hs == General
  }

  function FlagOf(f: Flags, word: Word): bool {
    match word case WordClose => f.close case WordKeepAlive => f.keepAlive case WordUpgrade => f.connUpgrade
  }

  lemma PlainBytes(q: Parser, ch: Byte)
    ensures q.hs == General || q.hs == ConnToken ==>
      var s := ValueChar(q, ch);
      s.flags == q.flags && s.hs == (if q.hs == ConnToken && ch == COMMA then ConnTokenStart else q.hs)
      && (s.hs == ConnTokenStart ==> s.index == 0)
  {}

  lemma StartsWith(t: seq<Byte>, ch: Byte)
    requires t == [ch]
    ensures StateOf(t) == if Lower(ch) == 99 then ConnMatchClose else if Lower(ch) == 107 then ConnMatchKeepAlive
                          else if Lower(ch) == 117 then ConnMatchUpgrade else ConnToken
  {
    hide Said, Lower;
    var empty: seq<Byte> := [];
    assert empty + [ch] == t;
    WordNext([], ch, WordClose);
    WordNext([], ch, WordKeepAlive);
    WordNext([], ch, WordUpgrade);
    NothingSaid(WordClose);
    NothingSaid(WordKeepAlive);
    NothingSaid(WordUpgrade);
  }

  lemma NothingSaid(word: Word)
    ensures Said([], word, 0)
  {}

  /** The first byte behind a comma that was noticed. */
  lemma FirstAfterComma(q: Parser, ch: Byte)
    requires q.hs == ConnTokenStart && q.index == 0 && IsValueByte(ch)
    ensures var s := ValueChar(q, ch);
      && s.index == 0 && s.flags == q.flags
      && s.hs == (if ch == SPACE then ConnTokenStart else if Token(Lower(ch)) == 0 then General else StateOf([ch]))
  {
    hide StateOf;
    StartsWith([ch], ch);
  }

  lemma OptionStep(q: Parser, b: Place, w: seq<Byte>, ch: Byte)
    requires OptionRead(q, b, w) && IsValueByte(ch) && ch != COMMA
    ensures OptionRead(ValueChar(q, ch), b, w + [ch]) && ValueChar(q, ch).flags == q.flags
  {
    hide ValueChar, StateOf, Trimmed, IsHeaderChar, Token, Lower;
    match b
    case Opening =>
      LetterStep(q, w, ch);
    case Fresh =>
      var t := Trimmed(w);
      TrimmedNext(w, ch);
      if t == [] {
        FirstAfterComma(q, ch);
        assert [] + [ch] == [ch];
      } else {
        assert (t + [ch])[0] == t[0];
        if Token(Lower(t[0])) == 0 {
          PlainBytes(q, ch);
        } else {
          LetterStep(q, t, ch);
        }
      }
    case _ =>
      PlainBytes(q, ch);
  }

  lemma CommaStep(q: Parser)
    ensures var s := ValueChar(q, COMMA);
      match q.hs
      case ConnToken => s.hs == ConnTokenStart && s.index == 0 && s.flags == q.flags
      case ConnClose => s.hs == ConnTokenStart && s.index == 0 && s.flags == q.flags.(close := true)
      case ConnKeepAlive => s.hs == ConnTokenStart && s.index == 0 && s.flags == q.flags.(keepAlive := true)
      case ConnUpgrade => s.hs == ConnTokenStart && s.index == 0 && s.flags == q.flags.(connUpgrade := true)
      case ConnTokenStart => s.hs == General && s.flags == q.flags
      case General => s.hs == General && s.flags == q.flags
      case ConnMatchClose => s.hs == ConnToken && s.flags == q.flags
      case ConnMatchKeepAlive => s.hs == ConnToken && s.flags == q.flags
      case ConnMatchUpgrade => s.hs == ConnToken && s.flags == q.flags
      case _ => true
  {}

  /** The words tell the states apart. */
  lemma StatesTell(t: seq<Byte>, word: Word)
    requires t != []
    ensures IsWord(t, word) <==> StateOf(t) == DoneState(word)
    ensures IsPartOfAny(t) <==> Matches(StateOf(t))
    ensures Matches(StateOf(t)) || StateOf(t) == ConnToken || StateOf(t) == ConnClose || StateOf(t) == ConnKeepAlive
        || StateOf(t) == ConnUpgrade
  {
    hide Said, Lower, Blank, IsWord;
    LongWord(t, WordClose);
    LongWord(t, WordKeepAlive);
    LongWord(t, WordUpgrade);
    WordInitial(t, WordClose);
    WordInitial(t, WordKeepAlive);
    WordInitial(t, WordUpgrade);
  }

  /** A comma after a word or a part of one. */
  lemma WordEnds(q: Parser, t: seq<Byte>, word: Word)
    requires t != [] && WordRead(q, t)
    ensures var s := ValueChar(q, COMMA);
      && s.hs == (if IsPartOfAny(t) then ConnToken else ConnTokenStart) && (s.hs == ConnTokenStart ==> s.index == 0)
      && FlagOf(s.flags, word) == (FlagOf(q.flags, word) || IsWord(t, word))
  {
    hide ValueChar, StateOf, IsWord, IsPartOfAny;
    StatesTell(t, word);
    CommaStep(q);
  }

  /** A comma after an element. */
  lemma OptionEnds(q: Parser, b: Place, w: seq<Byte>, word: Word)
    requires OptionRead(q, b, w)
    ensures var s := ValueChar(q, COMMA);
      && OptionRead(s, Behind(b, w), [])
      && FlagOf(s.flags, word) == (FlagOf(q.flags, word) || IsNoticed(word, b, w))
  {
    hide ValueChar, WordRead, IsWord, IsPartOfAny, Token, Lower;
    var t := if b == Fresh then Trimmed(w) else w;
    if t != [] {
      WordIsToken(t, word);
      if WordRead(q, t) {
        WordEnds(q, t, word);
      }
    } else {
      LongWord(t, word);
    }
    CommaStep(q);
  }

  lemma WordIsToken(t: seq<Byte>, word: Word)
    requires t != []
    ensures IsWord(t, word) ==> Token(Lower(t[0])) != 0
  {}

  // ----- Connection values -----

  /** Where the element behind those of c is found, if the first is found at b. */
  function PlaceIn(b: Place, c: seq<seq<Byte>>): Place
    decreases |c|
  {
    if c == [] then b else Behind(PlaceIn(b, Front(c)), Last(c))
  }

  /** The word is an element of c that is noticed. */
  predicate NoticedIn(word: Word, b: Place, c: seq<seq<Byte>>) {
    c != [] && (NoticedIn(word, b, Front(c)) || IsNoticed(word, PlaceIn(b, Front(c)), Last(c)))
  }

  /** Where the last line of a value begins: a folded line goes on behind a comma that was noticed, and otherwise the
      parser gives up on the value. */
  function PlaceOfLine(lines: seq<seq<Byte>>): Place
    requires lines != []
  {
    if |lines| == 1 then Opening
    else
      var c := Codings(Last(Front(lines)));
      if PlaceIn(PlaceOfLine(Front(lines)), Front(c)) == Fresh && Trimmed(Last(c)) == [] then Fresh else Lost
  }

  /** The elements of a line with a comma behind them. */
  function Complete(line: seq<Byte>): seq<seq<Byte>> { Front(Codings(line)) }

  /** The words with a comma behind them in the lines of a value. */
  predicate Listed(word: Word, lines: seq<seq<Byte>>) {
    lines != [] && (Listed(word, Front(lines)) || NoticedIn(word, PlaceOfLine(lines), Complete(Last(lines))))
  }

  /** A value of one or more lines has the word as one of its elements. */
  predicate HasWord(word: Word, lines: seq<seq<Byte>>) {
    lines != [] && (Listed(word, Front(lines)) || NoticedIn(word, PlaceOfLine(lines), Codings(Last(lines))))
  }

  predicate IsLast(word: Word, lines: seq<seq<Byte>>)
    requires lines != []
  {
    var c := Codings(Last(lines)); IsNoticed(word, PlaceIn(PlaceOfLine(lines), Front(c)), Last(c))
  }

  lemma HasOrListed(word: Word, lines: seq<seq<Byte>>)
    requires lines != []
    ensures HasWord(word, lines) == (Listed(word, lines) || IsLast(word, lines))
  {}

  /** The parser within a Connection value. */
  predicate ValueTold(q: Parser, lines: seq<seq<Byte>>) {
    lines != [] && OptionRead(q, PlaceIn(PlaceOfLine(lines), Complete(Last(lines))), Last(Codings(Last(lines))))
  }

  /** One more byte of the last line. */
  function Longer(lines: seq<seq<Byte>>, ch: Byte): seq<seq<Byte>>
    requires lines != []
  {
    Front(lines) + [Last(lines) + [ch]]
  }

  lemma LongerLines(lines: seq<seq<Byte>>, ch: Byte)
    requires lines != []
    ensures var l := Longer(lines, ch);
      l != [] && Front(l) == Front(lines) && Last(l) == Last(lines) + [ch] && PlaceOfLine(l) == PlaceOfLine(lines)
  {
    assert Front(Longer(lines, ch)) == Front(lines);
  }

  lemma ValueNext(q: Parser, lines: seq<seq<Byte>>, ch: Byte, word: Word)
    requires ValueTold(q, lines) && IsValueByte(ch)
    ensures var s := ValueChar(q, ch);
      ValueTold(s, Longer(lines, ch))
      && (Listed(word, Longer(lines, ch)) <==> Listed(word, lines) || (ch == COMMA && IsLast(word, lines)))
      && (FlagOf(s.flags, word) <==> FlagOf(q.flags, word) || (ch == COMMA && IsLast(word, lines)))
  {
    hide ValueChar, OptionRead, Codings, PlaceOfLine, IsNoticed, IsValueByte, Behind;
    LongerLines(lines, ch);
    var line := Last(lines);
    var c := Codings(line);
    CodingsNext(line, ch);
    var b := PlaceIn(PlaceOfLine(lines), Front(c));
    if ch == COMMA {
      OptionEnds(q, b, Last(c), word);
      assert Front(c + [[]]) == c;
    } else {
      OptionStep(q, b, Last(c), ch);
      assert Front(Front(c) + [Last(c) + [ch]]) == Front(c);
    }
  }

  /** What the state behind an element says about it. */
  lemma OptionState(q: Parser, b: Place, w: seq<Byte>, word: Word)
    requires OptionRead(q, b, w)
    ensures q.hs == ConnTokenStart <==> b == Fresh && Trimmed(w) == []
    ensures q.hs == DoneState(word) <==> IsNoticed(word, b, w)
    ensures InConnection(q.hs) || q.hs == General
    ensures q.hs != Connection
  {
    hide StateOf, Lower, Token, IsWord;
    var t := if b == Fresh then Trimmed(w) else w;
    if t != [] {
      StatesTell(t, word);
      WordIsToken(t, word);
    } else {
      LongWord(t, word);
    }
  }

  /** The first byte of a value */
  lemma ValueBegins(p: Parser, ch: Byte, word: Word)
    requires p.hs == Connection
    ensures var q := ValueStartArm(p, ch).next; ValueTold(q, [[ch]]) && q.flags == p.flags
    ensures !Listed(word, [[ch]])
  {
    hide StateOf, Lower, Behind, ValueStartArm, IsWord, IsNoticed, Codings, OptionRead;
    FirstByte(p, ch);
    OneByte(ch);
    FirstOption(p, ch, word);
    var empty: seq<seq<Byte>> := [];
    assert Front([[ch]]) == empty && Front([[]]) == empty;
  }

  lemma FirstOption(p: Parser, ch: Byte, word: Word)
    requires p.hs == Connection
    ensures var q := ValueStartArm(p, ch).next;
      if ch == COMMA then OptionRead(q, Behind(Opening, []), []) else OptionRead(q, Opening, [ch])
    ensures !IsNoticed(word, Opening, [])
  {
    hide StateOf, Lower, ValueStartArm, IsWord;
    FirstByte(p, ch);
    StartsWith([ch], ch);
    LongWord([], word);
  }

  lemma FirstByte(p: Parser, ch: Byte)
    requires p.hs == Connection
    ensures var q := ValueStartArm(p, ch).next;
      && q.index == 0 && q.flags == p.flags && q.state == Value
      && q.hs == (if Lower(ch) == 99 then ConnMatchClose else if Lower(ch) == 107 then ConnMatchKeepAlive
                  else if Lower(ch) == 117 then ConnMatchUpgrade else ConnToken)
      && (ch == COMMA ==> q.hs == ConnToken)
  {}

  lemma OneByte(ch: Byte)
    ensures Codings([ch]) == if ch == COMMA then [[], []] else [[ch]]
    ensures Front(Codings([ch])) == if ch == COMMA then [[]] else []
  {
    CodingsNext([], ch);
    assert [] + [ch] == [ch];
    assert Codings([]) == [[]];
  }

  /** A folded line: nothing of it has been read behind its first blank. */
  lemma ValueFolds(p: Parser, lines: seq<seq<Byte>>, ch: Byte, word: Word)
    requires ValueTold(p, lines) && (ch == SPACE || ch == TAB)
    ensures var q := ValueStartArm(p, ch).next; ValueTold(q, lines + [[]]) && q.flags == p.flags
    ensures Listed(word, lines + [[]]) == Listed(word, lines)
  {
    hide StateOf, ValueStartArm, Listed, OptionRead, FirstValueState;
    ListedFold(word, lines);
    var c := Codings(Last(lines));
    OptionState(p, PlaceIn(PlaceOfLine(lines), Front(c)), Last(c), word);
    FoldedStart(p, ch);
    FoldTold(ValueStartArm(p, ch).next, lines);
  }

  lemma FoldTold(q: Parser, lines: seq<seq<Byte>>)
    requires lines != [] && q.index == 0
    requires var c := Codings(Last(lines));
      q.hs == (if PlaceIn(PlaceOfLine(lines), Front(c)) == Fresh && Trimmed(Last(c)) == [] then ConnTokenStart
               else General)
    ensures ValueTold(q, lines + [[]])
  {
    var more := lines + [[]];
    assert Front(more) == lines && Last(more) == [];
    assert Codings([]) == [[]] && Front(Codings([])) == [];
  }

  lemma ListedFold(word: Word, lines: seq<seq<Byte>>)
    ensures Listed(word, lines + [[]]) == Listed(word, lines)
  {
    assert Front(lines + [[]]) == lines;
    assert Codings([]) == [[]] && Front(Codings([])) == [];
  }

  lemma FoldedStart(p: Parser, ch: Byte)
    requires p.hs != Connection && p.hs != TransferEncoding && p.hs != HeaderState.ContentLength
    ensures var q := ValueStartArm(p, ch).next;
      && q.index == 0 && q.state == Value
      && (p.hs != Upgrade ==> q.flags == p.flags)
      && (p.hs != TeTokenStart && p.hs != ContentLengthWs ==>
           q.hs == if p.hs == ConnTokenStart then ConnTokenStart else General)
  {}

  /** At the end of its last line the value has told all its words. */
  lemma ValueEnds(p: Parser, lines: seq<seq<Byte>>, word: Word)
    requires ValueTold(p, lines)
    ensures FlagOf(SetConnectionFlag(p).flags, word) == (FlagOf(p.flags, word) || IsLast(word, lines))
  {
    hide OptionRead, IsNoticed;
    var c := Codings(Last(lines));
    OptionState(p, PlaceIn(PlaceOfLine(lines), Front(c)), Last(c), word);
  }

  // ----- What is recognised and what is missed -----

  /** An element that begins with a token character and does not break off within a word. */
  predicate IsProper(w: seq<Byte>) {
    var t := Trimmed(w); t != [] && Token(Lower(t[0])) != 0 && !IsPartOfAny(t)
  }

  ghost predicate AnyIs(word: Word, c: seq<seq<Byte>>) { exists i :: 0 <= i < |c| && IsWord(Trimmed(c[i]), word) }

  lemma AnyOfMore(word: Word, c: seq<seq<Byte>>)
    requires c != []
    ensures AnyIs(word, c) <==> AnyIs(word, Front(c)) || IsWord(Trimmed(Last(c)), word)
  {
    hide IsWord, Trimmed;
    if AnyIs(word, Front(c)) {
      var i :| 0 <= i < |c| - 1 && IsWord(Trimmed(Front(c)[i]), word);
      assert c[i] == Front(c)[i];
    }
    if AnyIs(word, c) {
      var i :| 0 <= i < |c| && IsWord(Trimmed(c[i]), word);
      assert i < |c| - 1 ==> c[i] == Front(c)[i];
    }
  }

  lemma {:induction false} ProperList(word: Word, c: seq<seq<Byte>>)
    requires (forall k :: 0 <= k < |c| - 1 ==> IsProper(c[k])) && (c != [] ==> Trimmed(c[0]) == c[0])
    ensures NoticedIn(word, Opening, c) <==> AnyIs(word, c)
    ensures (forall k :: 0 <= k < |c| ==> IsProper(c[k])) && c != [] ==> PlaceIn(Opening, c) == Fresh
    decreases |c|
  {
    hide IsWord, IsPartOfAny, Trimmed, Token, Lower;
    if c != [] {
      assert forall k :: 0 <= k < |c| - 1 ==> IsProper(Front(c)[k]);
      ProperList(word, Front(c));
      AnyOfMore(word, c);
    }
  }

  /** On one line whose elements but the last are proper, a word is recognised if and only if it is an element. */
  lemma WordsOfProperLists(word: Word, ch: Byte, r: seq<Byte>)
    requires ch != SPACE
    requires var c := Codings([ch] + r); forall k :: 0 <= k < |c| - 1 ==> IsProper(c[k])
    ensures HasWord(word, [[ch] + r]) <==> AnyIs(word, Codings([ch] + r))
  {
    hide IsWord, IsProper, Trimmed, Codings, NoticedIn;
    var c := Codings([ch] + r);
    FirstElement(ch, r);
    TrimmedSelf(c[0]);
    ProperList(word, c);
    assert Front([[ch] + r]) == [] && !Listed(word, []);
  }

  /** Behind an element that breaks off within a word, the comma is taken for a letter: nothing is recognised. */
  lemma MissedBehindPart(w: seq<Byte>, v: seq<Byte>, word: Word)
    requires NoComma(w) && NoComma(v) && IsPartOfAny(w)
    ensures !HasWord(word, [w + [COMMA] + v])
  {
    hide Said, Codings, IsWord, IsPart;
    var line := w + [COMMA] + v;
    TwoCodings(w, v);
    assert Front([line]) == [] && !Listed(word, []);
    assert Front([w, v]) == [w] && Front([w]) == [];
    assert PlaceIn(Opening, [w]) == Behind(PlaceIn(Opening, []), w) == Inside;
    PartIsNoWord(w, word);
    assert !NoticedIn(word, Opening, [w]);
  }

  lemma PartIsNoWord(w: seq<Byte>, word: Word)
    ensures IsPartOfAny(w) ==> !IsWord(w, word)
  {
    if w != [] {
      StatesTell(w, word);
    }
  }

  /** A value whose last element is folded away from its end is not recognised. */
  lemma MissedWhenFolded(w: seq<Byte>, v: seq<Byte>, word: Word)
    requires NoComma(w)
    ensures !HasWord(word, [w, v])
  {
    hide Codings, IsWord;
    OneCoding(w);
    assert Front([w, v]) == [w] && Front([w]) == [] && !Listed(word, []);
    NoneWhenLost(word, Codings(v));
  }

  lemma {:induction false} NoneWhenLost(word: Word, c: seq<seq<Byte>>)
    ensures PlaceIn(Lost, c) == Lost && !NoticedIn(word, Lost, c)
    decreases |c|
  {
    if c != [] {
      NoneWhenLost(word, Front(c));
    }
  }

  const CLO: seq<Byte> := [99, 108, 111]
  const CLOSE: seq<Byte> := [99, 108, 111, 115, 101]

  /** "close" is recognised, but not in "clo,close" nor in front of a folded line. */
  lemma CloseOnlyAlone(v: seq<Byte>)
    ensures HasWord(WordClose, [CLOSE]) && !HasWord(WordClose, [CLO + [COMMA] + CLOSE])
      && !HasWord(WordClose, [CLOSE, v])
  {
    hide Codings, HasWord;
    MissedBehindPart(CLO, CLOSE, WordClose);
    MissedWhenFolded(CLOSE, v, WordClose);
    CloseAlone();
  }

  lemma CloseAlone()
    ensures HasWord(WordClose, [CLOSE])
  {
    hide Codings;
    OneCoding(CLOSE);
    assert Front([CLOSE]) == [] && CLOSE[5..] == [];
    assert IsWord(CLOSE, WordClose);
  }

  // ----- Other headers -----

  /** The states that only a Connection header leads to. */
  predicate InConnection(h: HeaderState) {
    h == Connection || h == ConnTokenStart || Matches(h) || h == ConnToken
    || h == ConnClose || h == ConnKeepAlive || h == ConnUpgrade
  }

  predicate SameWords(f: Flags, g: Flags) {
    f.close == g.close && f.keepAlive == g.keepAlive && f.connUpgrade == g.connUpgrade
  }

  lemma OtherChar(p: Parser, ch: Byte)
    requires !InConnection(p.hs)
    ensures var q := ValueChar(p, ch); !InConnection(q.hs) && q.flags == p.flags
  {}

  lemma OtherStart(p: Parser, ch: Byte)
    requires !InConnection(p.hs)
    ensures var q := ValueStartArm(p, ch).next; !InConnection(q.hs) && SameWords(q.flags, p.flags)
  {
    hide Lower;
  }

  lemma OtherEnd(p: Parser)
    requires !InConnection(p.hs) || p.hs == Connection
    ensures SameWords(SetConnectionFlag(p).flags, p.flags)
  {}
}
