/** Header lines of a request, read by the byte machine: what each line means, said without the machine. */
module HttpLines {
  import opened Wrappers
  import opened Sequences
  import opened HttpMachine
  import opened HttpInvariant
  import opened HttpRuns
  import opened HttpExecute
  import opened HttpMeaning

  // ---------------------------------------------------------------- characters

  /** Section 3.2.6 of RFC 7230: the characters of a token, but for letters and digits. */
  const TOKEN_MARKS: set<int> := {33, 35, 36, 37, 38, 39, 42, 43, 45, 46, 94, 95, 96, 124, 126}

  predicate IsLetter(ch: Byte) { 65 <= ch <= 90 || 97 <= ch <= 122 }

  /** A byte may stand in a name exactly if RFC 7230 says so, and capital letters are read as small ones. */
  lemma TokenIs(ch: Byte)
    ensures Token(ch) != 0 <==> IsLetter(ch) || 48 <= ch <= 57 || ch in TOKEN_MARKS
    ensures Token(ch) != 0 ==> Token(ch) == if 65 <= ch <= 90 then ch + 32 else ch
  {
  }

  /** `a` is the small letter or the sign `b`, or its capital. */
  predicate SameLetter(a: Byte, b: Byte) {
    a == b || (97 <= b <= 122 && a == b - 32)
  }

  predicate Spells(w: Bytes, word: Bytes) {
    |w| == |word| && forall i :: 0 <= i < |w| ==> SameLetter(w[i], word[i])
  }

  /** So far `v` is `word` and spaces behind it. */
  predicate Toward(v: Bytes, word: Bytes) {
    forall i :: 0 <= i < |v| ==> if i < |word| then SameLetter(v[i], word[i]) else v[i] == SPACE
  }

  /** `v` is `word`, in whatever case, and perhaps spaces behind it. */
  predicate Says(v: Bytes, word: Bytes) {
    |word| <= |v| && Toward(v, word)
  }

  /** Small letters and dashes only. */
  predicate Wordlike(word: Bytes) {
    forall i :: 0 <= i < |word| ==> 97 <= word[i] <= 122 || word[i] == 45
  }

  lemma LowerLetter(c: Byte, b: Byte)
    requires c != CR && (97 <= b <= 122 || b == 45)
    ensures Lower(c) == b <==> SameLetter(c, b)
  {
  }

  lemma TokenLetter(c: Byte, b: Byte)
    requires 97 <= b <= 122 || b == 45
    ensures Token(c) == b <==> SameLetter(c, b)
  {
  }

  lemma TowardNext(v: Bytes, c: Byte, word: Bytes)
    ensures Toward(v + [c], word) <==> Toward(v, word) && if |v| < |word| then SameLetter(c, word[|v|]) else c == SPACE
  {
    var w := v + [c];
    assert forall i :: 0 <= i < |v| ==> w[i] == v[i];
    assert w[|v|] == c;
  }

  /** A name is one of the words in whatever case. */
  lemma {:induction false} NameSpells(name: Bytes, word: Bytes)
    requires Wordlike(word)
    ensures LowerName(name) == word <==> Spells(name, word)
    decreases |name|
  {
    if name != [] && word != [] && |name| == |word| {
      var n := |name| - 1;
      NameSpells(name[..n], word[..n]);
      TokenLetter(name[n], word[n]);
      assert name == name[..n] + [name[n]] && word == word[..n] + [word[n]];
      hide Token, SameLetter, LowerName;
      assert LowerName(name) == LowerName(name[..n]) + [Token(name[n])] by { NameLast(name); }
      if LowerName(name) == word { assert LowerName(name)[..n] == word[..n] && LowerName(name)[n] == word[n]; }
    }
  }

  lemma NameLast(name: Bytes)
    requires name != []
    ensures LowerName(name) == LowerName(name[..|name| - 1]) + [Token(name[|name| - 1])]
  {
  }

  // ---------------------------------------------------------------- what a header asks for

  datatype Header = Header(name: Bytes, blanks: Bytes, value: Bytes)

  predicate ConnectionName(name: Bytes) { Spells(name, CONNECTION) || Spells(name, PROXY_CONNECTION) }

  /** The name only has to begin with transfer-encoding. */
  predicate TransferName(name: Bytes) { |TRANSFER_ENCODING| <= |name| && Spells(name[..|TRANSFER_ENCODING|], TRANSFER_ENCODING) }

  predicate AsksKeepAlive(h: Header) { ConnectionName(h.name) && Says(h.value, KEEP_ALIVE) }

  predicate AsksClose(h: Header) { ConnectionName(h.name) && Says(h.value, CLOSE) }

  /** Any Upgrade header but one whose value begins with `h2`. */
  predicate AsksUpgrade(h: Header) {
    Spells(h.name, UPGRADE) && h.value != [] && !(h.value[0] == LOWER_H && |h.value| > 1 && h.value[1] == TWO)
  }

  predicate GivesLength(h: Header) { Spells(h.name, CONTENT_LENGTH) && h.value != [] }

  /** Where in a list of transfer codings the one begins that is being read; nothing once a coding begins with a
      character that none may begin with. A coding that spells the beginning of `chunked`, or all of it, takes the comma
      behind it for its own. */
  function CodingAt(v: Bytes): (r: Option<nat>)
    requires v != []
    ensures r.Some? ==> r.value <= |v|
  {
    if |v| == 1 then Some(0)
    else
      var front, c := v[..|v| - 1], v[|v| - 1];
      var at := CodingAt(front);
      if at.None? then None
      else if at.value == |front| then
        if c == SPACE then Some(|v|) else if Token(Lower(c)) != 0 then at else None
      else if c == COMMA && !Toward(front[at.value..], CHUNKED) then Some(|v|)
      else at
  }

  /** The last transfer coding that is heard is `chunked`. */
  predicate SaysChunked(h: Header) {
    Spells(h.name, TRANSFER_ENCODING) && h.value != [] && CodingAt(h.value).Some? && Says(h.value[CodingAt(h.value).value..], CHUNKED)
  }

  /** A value without a comma is one coding. */
  lemma {:induction false} OneCoding(v: Bytes)
    requires v != [] && COMMA !in v
    ensures CodingAt(v) == Some(0)
    decreases |v|
  {
    if |v| > 1 { OneCoding(v[..|v| - 1]); }
  }

  /** The coding being read begins at place `n`. */
  predicate CodingIs(v: Bytes, n: nat)
    requires v != []
  {
    CodingAt(v).Some? && CodingAt(v).value == n
  }

  /** Behind the comma after any coding that does not begin to spell `chunked`, the next one is heard. */
  lemma NextCoding(front: Bytes, spaces: Bytes, coding: Bytes)
    requires front != [] && CodingAt(front).Some? && CodingAt(front).value < |front| && !Toward(front[CodingAt(front).value..], CHUNKED)
    requires (forall i :: 0 <= i < |spaces| ==> spaces[i] == SPACE) && COMMA !in coding && coding != [] && Token(Lower(coding[0])) != 0
    ensures CodingIs((front + [COMMA]) + spaces + coding, |front| + 1 + |spaces|)
  {
    hide Toward, Token, Lower, CodingAt;
    CodingNext(front, COMMA);
    SpacesBefore(front + [COMMA], spaces);
    CodingGrows(front + [COMMA] + spaces, coding);
  }

  lemma {:induction false} SpacesBefore(v: Bytes, spaces: Bytes)
    requires v != [] && CodingIs(v, |v|) && forall i :: 0 <= i < |spaces| ==> spaces[i] == SPACE
    ensures CodingIs(v + spaces, |v| + |spaces|)
    decreases |spaces|
  {
    hide Toward, Token, Lower, CodingAt;
    if spaces == [] {
      assert v + spaces == v;
    } else {
      var n := |spaces| - 1;
      SpacesBefore(v, spaces[..n]);
      CodingNext(v + spaces[..n], spaces[n]);
      assert (v + spaces[..n]) + [spaces[n]] == v + spaces;
    }
  }

  lemma {:induction false} CodingGrows(v: Bytes, coding: Bytes)
    requires v != [] && CodingIs(v, |v|) && COMMA !in coding && coding != [] && Token(Lower(coding[0])) != 0
    ensures CodingIs(v + coding, |v|)
    decreases |coding|
  {
    hide Toward, Token, Lower, CodingAt;
    var n := |coding| - 1;
    if n == 0 {
      FirstOfCoding(v, coding[0]);
      assert coding == [coding[0]];
    } else {
      CodingGrows(v, coding[..n]);
      CodingNext(v + coding[..n], coding[n]);
      assert (v + coding[..n]) + [coding[n]] == v + coding;
    }
  }

  lemma FirstOfCoding(v: Bytes, c: Byte)
    requires v != [] && CodingIs(v, |v|) && Token(Lower(c)) != 0
    ensures CodingIs(v + [c], |v|)
  {
    hide Toward;
    SpaceIsNoToken(c);
    CodingNext(v, c);
  }

  lemma SpaceIsNoToken(c: Byte)
    ensures Token(Lower(c)) != 0 ==> c != SPACE
  {
  }

  // ---------------------------------------------------------------- lines

  /** A byte of a value on one line. */
  predicate ValueChar(ch: Byte) { ch == TAB || (ch >= 32 && ch != 127) }

  predicate Blank(ch: Byte) { ch == SPACE || ch == TAB }

  /** A line of its own: a name, blanks, and a value without line breaks. */
  predicate Regular(h: Header) {
    && h.name != [] && AllTokens(h.name)
    && (forall i :: 0 <= i < |h.blanks| ==> Blank(h.blanks[i]))
    && (forall i :: 0 <= i < |h.value| ==> ValueChar(h.value[i]))
    && (h.value != [] ==> !Blank(h.value[0]))
    && (GivesLength(h) ==> AllDigits(h.value) && Decimal(h.value) <= MAX_CONTENT_LENGTH)
  }

  function Line(h: Header): Bytes {
    h.name + [COLON] + h.blanks + h.value + [CR, LF]
  }

  /** A line has been read, but what its value asks for is only noted with the byte behind it. */
  function Settled(s: Parser): Parser {
    if s.state.HeaderValueLws? then FinishHeader(s)
    else if s.state.HeaderValueDiscardLws? then s.(state := HeaderFieldStart, sink := OnValue(s.sink, []))
    else s
  }

  predicate Fine(s: Parser) { s.errno == OK && !Exited(s) }

  /** What a line makes of the flags. */
  function FlagsWith(f: Flags, h: Header): Flags {
    Flags(f.chunked || SaysChunked(h), f.keepAlive || AsksKeepAlive(h), f.close || AsksClose(h), f.trailing,
          f.upgrade || AsksUpgrade(h), f.contentLength || GivesLength(h))
  }

  /** What a line makes of the headers collected so far: the header before it joins them unless its value is empty. */
  function SinkWith(k: Sink, h: Header): Sink {
    Sink(false, h.name, h.value, if k.value != [] then k.headers + [(k.field, k.value)] else k.headers, k.body)
  }

  // ---------------------------------------------------------------- values

  /** What the matcher says about the bytes of a Connection value read so far. */
  predicate ConnectionAt(v: Bytes, hs: HeaderState, index: nat) {
    match hs
    case MatchingKeepAlive => |v| == index + 1 < |KEEP_ALIVE| && Toward(v, KEEP_ALIVE)
    case ConnectionKeepAlive => Says(v, KEEP_ALIVE)
    case MatchingClose => |v| == index + 1 < |CLOSE| && Toward(v, CLOSE)
    case ConnectionClose => Says(v, CLOSE)
    case General => !Toward(v, KEEP_ALIVE) && !Toward(v, CLOSE)
    case _ => false
  }

  /** The same for a Transfer-Encoding value. */
  predicate CodingsAt(v: Bytes, hs: HeaderState, index: nat)
    requires v != []
  {
    var at := CodingAt(v);
    match hs
    case General => at.None?
    case TransferEncodingTokenStart => at.Some? && at.value == |v| && index == 0
    case MatchingChunked => at.Some? && |v| == at.value + index + 1 && index + 1 < |CHUNKED| && Toward(v[at.value..], CHUNKED)
    case TransferEncodingChunked => at.Some? && Says(v[at.value..], CHUNKED)
    case TransferEncodingToken => at.Some? && !Toward(v[at.value..], CHUNKED)
    case _ => false
  }

  /** The two words have no beginning in common. */
  lemma EitherWord(v: Bytes)
    requires v != []
    ensures !(Toward(v, KEEP_ALIVE) && Toward(v, CLOSE))
  {
    assert Toward(v, KEEP_ALIVE) ==> SameLetter(v[0], KEEP_ALIVE[0]);
    assert Toward(v, CLOSE) ==> SameLetter(v[0], CLOSE[0]);
  }

  lemma WordsWordlike()
    ensures Wordlike(KEEP_ALIVE) && Wordlike(CLOSE) && Wordlike(CHUNKED)
    ensures |KEEP_ALIVE| == 10 && |CLOSE| == 5 && |CHUNKED| == 7
  {
  }

  /** One more byte of a word that may have spaces behind it. */
  lemma NextOfWord(v: Bytes, index: nat, c: Byte, word: Bytes, again: HeaderState, full: HeaderState, other: HeaderState)
    requires Wordlike(word) && |v| == index + 1 < |word| && Toward(v, word) && c != CR
    ensures var hs := MatchWord(word, index + 1, Lower(c), again, full, other);
            if !Toward(v + [c], word) then hs == other
            else if |v| + 1 == |word| then hs == full && Says(v + [c], word)
            else hs == again && |v| + 1 < |word|
  {
    hide Lower, Toward, SameLetter, Wordlike, Says;
    TowardNext(v, c, word);
    WordLetter(word, |v|);
    LowerLetter(c, word[|v|]);
    if |v| + 1 == |word| { WordSaid(v + [c], word); }
  }

  lemma WordLetter(word: Bytes, i: nat)
    requires Wordlike(word) && i < |word|
    ensures 97 <= word[i] <= 122 || word[i] == 45
  {
  }

  lemma WordSaid(v: Bytes, word: Bytes)
    requires |v| == |word|
    ensures Toward(v, word) <==> Says(v, word)
  {
  }

  lemma SpaceBehind(v: Bytes, c: Byte, word: Bytes)
    requires Says(v, word)
    ensures Toward(v + [c], word) <==> c == SPACE
    ensures c == SPACE ==> Says(v + [c], word)
  {
    hide Toward;
    TowardNext(v, c, word);
  }

  lemma NeverAgain(v: Bytes, c: Byte, word: Bytes)
    requires !Toward(v, word)
    ensures !Toward(v + [c], word)
  {
    hide Toward;
    TowardNext(v, c, word);
  }

  lemma ConnectionNext(v: Bytes, hs: HeaderState, index: nat, contentLength: nat, c: Byte)
    requires v != [] && ConnectionAt(v, hs, index) && c != CR
    ensures var m := MatchValue(hs, index, contentLength, c);
            m.errno == OK && m.contentLength == contentLength && ConnectionAt(v + [c], m.hs, m.index)
  {
    hide Toward, Lower, KEEP_ALIVE, CLOSE, Wordlike;
    WordsWordlike();
    EitherWord(v);
    EitherWord(v + [c]);
    TowardNext(v, c, KEEP_ALIVE);
    TowardNext(v, c, CLOSE);
    match hs
    case MatchingKeepAlive => NextOfWord(v, index, c, KEEP_ALIVE, hs, ConnectionKeepAlive, General);
    case MatchingClose => NextOfWord(v, index, c, CLOSE, hs, ConnectionClose, General);
    case ConnectionKeepAlive => SpaceBehind(v, c, KEEP_ALIVE);
    case ConnectionClose => SpaceBehind(v, c, CLOSE);
    case General =>
  }

  lemma ConnectionFirst(c: Byte)
    requires ValueChar(c) && !Blank(c)
    ensures var l := Lower(c);
            var hs := if l == LOWER_K then MatchingKeepAlive else if l == LOWER_C then MatchingClose
                      else if l == SPACE || l == TAB then Connection else General;
            ConnectionAt([c], hs, 0)
  {
    hide Toward, SameLetter, Lower, Wordlike;
    WordsWordlike();
    OneLetter(c, KEEP_ALIVE);
    OneLetter(c, CLOSE);
    FreshByte(c);
    EitherWord([c]);
  }

  lemma CodingsFirst(c: Byte)
    requires ValueChar(c)
    ensures CodingsAt([c], if Lower(c) == LOWER_C then MatchingChunked else TransferEncodingToken, 0)
  {
    hide Toward, SameLetter, Lower, Wordlike;
    assert [c][0..] == [c];
    WordsWordlike();
    OneLetter(c, CHUNKED);
  }

  /** How the place of the coding moves with one more byte. */
  lemma CodingNext(v: Bytes, c: Byte)
    requires v != []
    ensures CodingAt(v).None? ==> CodingAt(v + [c]).None?
    ensures CodingAt(v).Some? ==>
              var at, w := CodingAt(v).value, v + [c];
              && at <= |v|
              && (at == |v| ==> if c == SPACE then CodingAt(w) == Some(|w|) else if Token(Lower(c)) != 0 then CodingAt(w) == Some(at) else CodingAt(w) == None)
              && (at < |v| && c == COMMA && !Toward(v[at..], CHUNKED) ==> CodingAt(w) == Some(|w|))
              && (at < |v| && !(c == COMMA && !Toward(v[at..], CHUNKED)) ==> CodingAt(w) == Some(at))
              && w[at..] == v[at..] + [c]
  {
    hide Toward, Token, Lower, CHUNKED;
    var w := v + [c];
    assert w[..|w| - 1] == v && w[|w| - 1] == c;
  }

  lemma CodingsNext(v: Bytes, hs: HeaderState, index: nat, contentLength: nat, c: Byte)
    requires v != [] && CodingsAt(v, hs, index) && ValueChar(c)
    ensures var m := MatchValue(hs, index, contentLength, c);
            m.errno == OK && m.contentLength == contentLength && CodingsAt(v + [c], m.hs, m.index)
  {
    hide Toward, Lower, CHUNKED, Wordlike, CodingAt, Token;
    WordsWordlike();
    CodingNext(v, c);
    match hs
    case General =>
    case TransferEncodingTokenStart => FreshCoding(v, contentLength, c);
    case MatchingChunked => InChunked(v, index, contentLength, c);
    case TransferEncodingChunked => SpaceBehind(v[CodingAt(v).value..], c, CHUNKED);
    case TransferEncodingToken => InCoding(v, index, contentLength, c);
  }

  lemma InChunked(v: Bytes, index: nat, contentLength: nat, c: Byte)
    requires v != [] && CodingsAt(v, MatchingChunked, index) && ValueChar(c)
    ensures var m := MatchValue(MatchingChunked, index, contentLength, c);
            m.errno == OK && m.contentLength == contentLength && CodingsAt(v + [c], m.hs, m.index)
  {
    hide Toward, Lower, CHUNKED, Wordlike, CodingAt, Token;
    WordsWordlike();
    CodingNext(v, c);
    NextOfWord(v[CodingAt(v).value..], index, c, CHUNKED, MatchingChunked, TransferEncodingChunked, TransferEncodingToken);
  }

  lemma InCoding(v: Bytes, index: nat, contentLength: nat, c: Byte)
    requires v != [] && CodingsAt(v, TransferEncodingToken, index) && ValueChar(c)
    ensures var m := MatchValue(TransferEncodingToken, index, contentLength, c);
            m.errno == OK && m.contentLength == contentLength && CodingsAt(v + [c], m.hs, m.index)
  {
    hide Toward, Lower, CHUNKED, CodingAt, Token;
    CodingNext(v, c);
    NothingYet(v);
    NeverAgain(v[CodingAt(v).value..], c, CHUNKED);
  }

  lemma NothingYet(v: Bytes)
    ensures Toward(v[|v|..], CHUNKED)
  {
  }

  lemma FreshCoding(v: Bytes, contentLength: nat, c: Byte)
    requires v != [] && CodingsAt(v, TransferEncodingTokenStart, 0) && ValueChar(c)
    ensures var m := MatchValue(TransferEncodingTokenStart, 0, contentLength, c);
            m.errno == OK && m.contentLength == contentLength && CodingsAt(v + [c], m.hs, m.index)
  {
    hide CodingAt, Toward;
    CodingNext(v, c);
    assert v[|v|..] + [c] == [c];
    WordsWordlike();
    OneLetter(c, CHUNKED);
    FreshByte(c);
  }

  lemma OneLetter(c: Byte, word: Bytes)
    requires |word| > 0 && Wordlike(word) && c != CR
    ensures Toward([c], word) <==> Lower(c) == word[0]
  {
    hide Lower, SameLetter;
    LowerLetter(c, word[0]);
    assert Toward([c], word) ==> SameLetter([c][0], word[0]);
  }

  /** A coding may not begin with a space or a tab. */
  lemma FreshByte(c: Byte)
    requires ValueChar(c)
    ensures Lower(c) == LOWER_C ==> Token(Lower(c)) != 0 && c != SPACE
    ensures Lower(c) == SPACE <==> c == SPACE
    ensures Lower(c) != TAB
    ensures c == SPACE ==> Token(Lower(c)) == 0
  {
  }

  // ---------------------------------------------------------------- reading a value

  /** What a value read so far has made of the matcher, for each of the treatments that a name selects. */
  predicate ValueAt(kind: HeaderState, v: Bytes, t: Parser)
    requires v != []
  {
    match kind
    case Connection => ConnectionAt(v, t.hs, t.index)
    case TransferEncoding => CodingsAt(v, t.hs, t.index)
    case ContentLength => t.hs.ContentLengthNum? && t.contentLength == Decimal(v)
    case _ => t.hs.General?
  }

  /** A state of the matcher behind a name. */
  predicate Treatment(kind: HeaderState) {
    !kind.TransferEncodingTokenStart? && !kind.ContentLengthWs?
  }

  /** The flags behind the first byte of a value. */
  function FirstFlags(f: Flags, kind: HeaderState, c: Byte, next: Option<Byte>): Flags {
    if kind.ContentLength? then f.(contentLength := true)
    else if kind.Upgrade? && (c != LOWER_H || next != Some(TWO)) then f.(upgrade := true)
    else f
  }

  lemma FirstOfValue(u: Parser, c: Byte, next: Option<Byte>)
    requires u.state.HeaderValueDiscardWs? && Fine(u) && u.nread + 1 <= MAX_HEADER_SIZE && Treatment(u.hs)
    requires ValueChar(c) && !Blank(c) && (u.hs.ContentLength? ==> IsNum(c) && !u.flags.contentLength)
    ensures var t := Step(u, c, next);
            && t == u.(state := HeaderValue, nread := u.nread + 1, hs := t.hs, index := 0, sink := OnValue(u.sink, [c]),
                       flags := FirstFlags(u.flags, u.hs, c, next),
                       contentLength := if u.hs.ContentLength? then c - ZERO else u.contentLength)
            && ValueAt(u.hs, [c], t)
  {
    hide Lower, ConnectionAt, CodingsAt, OnValue;
    ConnectionFirst(c);
    CodingsFirst(c);
    OneDigit(c);
    FreshByte(c);
    assert c != CR && c != LF;
  }

  lemma OneDigit(c: Byte)
    ensures Decimal([c]) == c - ZERO
  {
    assert [c][..0] == [];
    assert Decimal([]) == 0;
  }

  lemma AnotherDigit(v: Bytes, c: Byte)
    ensures Decimal(v + [c]) == Decimal(v) * 10 + (c - ZERO)
  {
    assert (v + [c])[..|v|] == v;
  }

  lemma NextOfValue(t: Parser, kind: HeaderState, v: Bytes, c: Byte, next: Option<Byte>)
    requires t.state.HeaderValue? && Fine(t) && t.nread + 1 <= MAX_HEADER_SIZE && Treatment(kind) && ValueChar(c)
    requires v != [] && ValueAt(kind, v, t)
    requires kind.ContentLength? ==> IsNum(c) && Decimal(v) <= 1844674407370955160
    ensures var u := Step(t, c, next);
            && u == t.(nread := t.nread + 1, hs := u.hs, index := u.index, sink := OnValue(t.sink, [c]),
                       contentLength := if kind.ContentLength? then Decimal(v + [c]) else t.contentLength)
            && ValueAt(kind, v + [c], u)
  {
    hide Step, ValueByte, MatchValue, ValueAt, OnValue, IsHeaderChar, Decimal, ValueChar;
    NoLineEnd(c);
    ValueByteStep(t, c, next);
    ValueByteIs(t.(nread := t.nread + 1), c);
    MatchAt(kind, v, t, c);
    var m := MatchValue(t.hs, t.index, t.contentLength, c);
    SameMatch(kind, v + [c], t.(hs := m.hs, index := m.index, contentLength := m.contentLength), Step(t, c, next));
  }

  lemma SameMatch(kind: HeaderState, v: Bytes, t: Parser, u: Parser)
    requires v != [] && t.hs == u.hs && t.index == u.index && t.contentLength == u.contentLength
    ensures ValueAt(kind, v, t) == ValueAt(kind, v, u)
  {
    hide ConnectionAt, CodingsAt, Decimal;
  }

  lemma NoLineEnd(c: Byte)
    requires ValueChar(c)
    ensures c != CR && c != LF && IsHeaderChar(c)
  {
  }

  lemma ValueByteIs(t: Parser, c: Byte)
    requires IsHeaderChar(c)
    ensures var m := MatchValue(t.hs, t.index, t.contentLength, c);
            ValueByte(t, c) == t.(hs := m.hs, index := m.index, contentLength := m.contentLength, errno := m.errno, sink := OnValue(t.sink, [c]))
  {
    hide MatchValue, OnValue, IsHeaderChar;
  }

  lemma MatchAt(kind: HeaderState, v: Bytes, t: Parser, c: Byte)
    requires Treatment(kind) && v != [] && ValueAt(kind, v, t) && ValueChar(c)
    requires kind.ContentLength? ==> IsNum(c) && Decimal(v) <= 1844674407370955160
    ensures var m := MatchValue(t.hs, t.index, t.contentLength, c);
            && m.errno == OK && m.contentLength == (if kind.ContentLength? then Decimal(v + [c]) else t.contentLength)
            && ValueAt(kind, v + [c], t.(hs := m.hs, index := m.index, contentLength := m.contentLength))
  {
    hide Lower, ConnectionAt, CodingsAt, MatchValue, ContentLengthDigit;
    NoLineEnd(c);
    match kind
    case Connection => ConnectionNext(v, t.hs, t.index, t.contentLength, c);
    case TransferEncoding => CodingsNext(v, t.hs, t.index, t.contentLength, c);
    case ContentLength =>
      AnotherDigit(v, c);
      LengthBound(t.contentLength, c);
      DigitMatch(t.hs, t.index, t.contentLength, c);
    case _ => GeneralStays(t.index, t.contentLength, c);
  }

  lemma LengthBound(n: nat, c: Byte)
    requires n <= 1844674407370955160 && IsNum(c)
    ensures ContentLengthDigit(n, c) == (n * 10 + (c - ZERO), OK)
  {
  }

  lemma GeneralStays(index: nat, contentLength: nat, c: Byte)
    ensures MatchValue(General, index, contentLength, c) == ValueMatch(General, index, contentLength, OK)
  {
  }

  // ---------------------------------------------------------------- reading a line

  /** The value that begins at `b`, read up to `j`. */
  lemma {:induction false} ValueRead(u: Parser, data: Bytes, b: nat, j: nat, c: nat)
    requires u.state.HeaderValueDiscardWs? && Fine(u) && Treatment(u.hs)
    requires b < j <= c <= |data| && u.nread + (j - b) <= MAX_HEADER_SIZE
    requires !Blank(data[b]) && forall i :: b <= i < c ==> ValueChar(data[i])
    requires u.hs.ContentLength? ==> !u.flags.contentLength && AllDigits(data[b..c]) && Decimal(data[b..c]) <= MAX_CONTENT_LENGTH
    ensures var t := RunTo(u, data, b, j);
            && t == u.(state := HeaderValue, nread := u.nread + (j - b), hs := t.hs, index := t.index,
                       sink := OnValue(u.sink, data[b..j]), flags := FirstFlags(u.flags, u.hs, data[b], Next(data, b)),
                       contentLength := t.contentLength)
            && t.contentLength == (if u.hs.ContentLength? then Decimal(data[b..j]) else u.contentLength)
            && ValueAt(u.hs, data[b..j], t)
    decreases j
  {
    hide Step, OnValue, ValueAt, Decimal, ValueChar, Blank, FirstFlags, IsNum, Exited;
    var kind := u.hs;
    if kind.ContentLength? { DigitsSoFar(data, b, j, c); }
    assert data[b..b + 1] == [data[b]];
    if j == b + 1 {
      assert RunTo(u, data, b, b) == u;
      FirstOfValue(u, data[b], Next(data, b));
      OneDigit(data[b]);
    } else {
      ValueRead(u, data, b, j - 1, c);
      var t := RunTo(u, data, b, j - 1);
      StillFine(u, t);
      NextOfValue(t, kind, data[b..j - 1], data[j - 1], Next(data, j - 1));
      ValuePieces(u.sink, data, b, j - 1);
      assert data[b..j - 1] + [data[j - 1]] == data[b..j];
    }
  }

  lemma StillFine(u: Parser, t: Parser)
    requires Fine(u) && t.errno == OK && t.upgrade == u.upgrade && t.completions == u.completions
    ensures Fine(t)
  {
  }

  lemma DigitsSoFar(data: Bytes, b: nat, j: nat, c: nat)
    requires b < j <= c <= |data| && AllDigits(data[b..c]) && Decimal(data[b..c]) <= MAX_CONTENT_LENGTH
    ensures IsNum(data[b]) && IsNum(data[j - 1])
    ensures j - 1 > b ==> 0 <= Decimal(data[b..j - 1]) <= 1844674407370955160
  {
    hide Decimal;
    var ds := data[b..c];
    assert ds[0] == data[b] && ds[j - 1 - b] == data[j - 1];
    if j - 1 > b {
      var k: nat := j - b;
      assert ds[..k - 1] == data[b..j - 1];
      DecimalNext(ds, k);
      DecimalGrows(ds, k);
    }
  }

  /** Blanks before the value. */
  lemma {:induction false} BlanksRead(u: Parser, data: Bytes, a: nat, b: nat)
    requires u.state.HeaderValueDiscardWs? && Fine(u) && a <= b <= |data| && u.nread + (b - a) <= MAX_HEADER_SIZE
    requires forall i :: a <= i < b ==> Blank(data[i])
    ensures RunTo(u, data, a, b) == u.(nread := u.nread + (b - a))
    decreases b
  {
    hide Step, Blank;
    if a < b {
      BlanksRead(u, data, a, b - 1);
      BlankStep(u.(nread := u.nread + (b - 1 - a)), data[b - 1], Next(data, b - 1));
    }
  }

  lemma BlankStep(u: Parser, c: Byte, next: Option<Byte>)
    requires u.state.HeaderValueDiscardWs? && Fine(u) && u.nread + 1 <= MAX_HEADER_SIZE && Blank(c)
    ensures Step(u, c, next) == u.(nread := u.nread + 1)
  {
  }

  lemma LineEndRead(t: Parser, data: Bytes, c: nat)
    requires t.state.HeaderValue? || t.state.HeaderValueDiscardWs?
    requires Fine(t) && c + 2 <= |data| && data[c] == CR && data[c + 1] == LF && t.nread + 2 <= MAX_HEADER_SIZE
    ensures RunTo(t, data, c, c + 2) == t.(nread := t.nread + 2, state := if t.state.HeaderValue? then HeaderValueLws else HeaderValueDiscardLws)
  {
    assert RunTo(t, data, c, c) == t;
    assert RunTo(t, data, c, c + 1) ==
      t.(nread := t.nread + 1, state := if t.state.HeaderValue? then HeaderAlmostDone else HeaderValueDiscardWsAlmostDone);
  }

  lemma NamesWordlike()
    ensures Wordlike(CONNECTION) && Wordlike(PROXY_CONNECTION) && Wordlike(CONTENT_LENGTH)
    ensures Wordlike(TRANSFER_ENCODING) && Wordlike(UPGRADE)
    ensures |TRANSFER_ENCODING| == 17
  {
  }

  lemma {:induction false} LowerPart(name: Bytes, n: nat)
    requires n <= |name|
    ensures LowerName(name)[..n] == LowerName(name[..n])
    decreases |name|
  {
    if n < |name| {
      var m := |name| - 1;
      LowerPart(name[..m], n);
      assert name[..m][..n] == name[..n];
      NameLast(name);
    } else {
      assert name[..n] == name;
    }
  }

  lemma KindIs(name: Bytes, hs: HeaderState, index: nat)
    requires name != [] && Tracks(LowerName(name), hs, index)
    ensures hs == ContentLength <==> Spells(name, CONTENT_LENGTH)
    ensures hs == TransferEncoding <==> Spells(name, TRANSFER_ENCODING)
    ensures hs == Upgrade <==> Spells(name, UPGRADE)
    ensures hs == Connection <==> ConnectionName(name)
    ensures StartsWith(LowerName(name), TRANSFER_ENCODING) <==> TransferName(name)
    ensures Treatment(hs)
  {
    TracksTreatment(LowerName(name), hs, index);
    hide Tracks, LowerName, Spells, Wordlike;
    NamesWordlike();
    TracksExact(LowerName(name), hs, index);
    NameSpells(name, CONTENT_LENGTH);
    NameSpells(name, TRANSFER_ENCODING);
    NameSpells(name, UPGRADE);
    NameSpells(name, CONNECTION);
    NameSpells(name, PROXY_CONNECTION);
    if |TRANSFER_ENCODING| <= |name| {
      LowerPart(name, |TRANSFER_ENCODING|);
      NameSpells(name[..|TRANSFER_ENCODING|], TRANSFER_ENCODING);
    }
  }

  lemma TracksTreatment(w: Bytes, hs: HeaderState, index: nat)
    requires Tracks(w, hs, index)
    ensures Treatment(hs)
  {
    hide Prefix;
  }

  /** A name and its colon. */
  lemma NameAndColon(s: Parser, data: Bytes, name: Bytes)
    requires s.state.HeaderFieldStart? && Fine(s) && name != [] && AllTokens(name) && s.nread + |name| + 1 <= MAX_HEADER_SIZE
    requires At(data, 0, name + [COLON])
    ensures var t := RunTo(s, data, 0, |name| + 1);
            && t == s.(state := HeaderValueDiscardWs, nread := s.nread + |name| + 1, hs := t.hs, index := t.index,
                       usesTransferEncoding := s.usesTransferEncoding || TransferName(name), sink := OnField(s.sink, name))
            && Treatable(name, t.hs)
  {
    hide Tracks, Step, LowerName, Token, StartsWith, TransferName, OnField, Treatable, At;
    AtParts(data, 0, name, [COLON]);
    PieceThere(data, 0, name);
    PieceThere(data, |name|, [COLON]);
    assert data[..|name|] == name;
    NameRead(s, data, |name|);
    var t := RunTo(s, data, 0, |name|);
    ColonStep(t, Next(data, |name|));
    KindIs(name, t.hs, t.index);
    Treated(name, t.hs, t.index);
  }

  lemma PieceThere(data: Bytes, i: nat, piece: Bytes)
    requires At(data, i, piece)
    ensures i + |piece| <= |data| && data[i..i + |piece|] == piece && forall k :: 0 <= k < |piece| ==> data[i + k] == piece[k]
  {
    forall k | 0 <= k < |piece| ensures data[i + k] == piece[k] { assert data[i..i + |piece|][k] == data[i + k]; }
  }

  /** The matcher's answer treats the value as the name says, and any other name as a general one. */
  predicate Treatable(name: Bytes, hs: HeaderState) {
    && (hs == ContentLength <==> Spells(name, CONTENT_LENGTH)) && (hs == TransferEncoding <==> Spells(name, TRANSFER_ENCODING))
    && (hs == Upgrade <==> Spells(name, UPGRADE)) && (hs == Connection <==> ConnectionName(name))
    && Treatment(hs)
  }

  lemma Treated(name: Bytes, hs: HeaderState, index: nat)
    requires name != [] && Tracks(LowerName(name), hs, index)
    ensures Treatable(name, hs)
  {
    hide Tracks, LowerName, Spells;
    KindIs(name, hs, index);
  }

  /** The parts of a line. */
  lemma LineParts(h: Header, data: Bytes)
    requires data == Line(h) && Regular(h)
    ensures var a, b := |h.name| + 1, |h.name| + 1 + |h.blanks|;
            var c := b + |h.value|;
            && At(data, 0, h.name + [COLON]) && |data| == c + 2
            && (forall i :: a <= i < b ==> Blank(data[i])) && data[b..c] == h.value && (forall i :: b <= i < c ==> ValueChar(data[i]))
            && data[c] == CR && data[c + 1] == LF && (h.value != [] ==> !Blank(data[b]) && data[b] == h.value[0])
            && (h.value != [] ==> Next(data, b) == Some(if |h.value| > 1 then h.value[1] else CR))
  {
    hide Blank, ValueChar, AllTokens, GivesLength, AllDigits;
    var a, b := |h.name| + 1, |h.name| + 1 + |h.blanks|;
    var c := b + |h.value|;
    assert data[0..a] == h.name + [COLON];
    forall i | a <= i < b ensures Blank(data[i]) { assert data[i] == h.blanks[i - a]; }
    forall i | b <= i < c ensures ValueChar(data[i]) { assert data[i] == h.value[i - b]; }
  }

  /** The flags and the length that a whole line asks for are those that the matcher's last state gives it. */
  lemma WhatItAsks(h: Header, kind: HeaderState, f: Flags, t: Parser)
    requires Treatable(h.name, kind) && h.value != [] && ValueAt(kind, h.value, t)
    requires t.flags == FirstFlags(f, kind, h.value[0], Some(if |h.value| > 1 then h.value[1] else CR))
    ensures FinishHeader(t).flags == FlagsWith(f, h)
  {
    hide Toward, Spells, CodingAt, Decimal, CONNECTION, PROXY_CONNECTION, KEEP_ALIVE, CLOSE, CHUNKED;
    NamesApart(h.name);
    EitherWord(h.value);
    EndsKnown(h.value, kind, t);
  }

  /** No name is two of the words at once. */
  lemma NamesApart(name: Bytes)
    ensures !(ConnectionName(name) && Spells(name, CONTENT_LENGTH)) && !(ConnectionName(name) && Spells(name, UPGRADE))
    ensures !(ConnectionName(name) && Spells(name, TRANSFER_ENCODING)) && !(Spells(name, UPGRADE) && Spells(name, CONTENT_LENGTH))
    ensures !(Spells(name, TRANSFER_ENCODING) && Spells(name, CONTENT_LENGTH)) && !(Spells(name, TRANSFER_ENCODING) && Spells(name, UPGRADE))
  {
    assert |CONNECTION| == 10 && |PROXY_CONNECTION| == 16 && |CONTENT_LENGTH| == 14 && |TRANSFER_ENCODING| == 17 && |UPGRADE| == 7;
  }

  /** When the matcher has found a word. */
  lemma EndsKnown(v: Bytes, kind: HeaderState, t: Parser)
    requires v != [] && ValueAt(kind, v, t) && Treatment(kind)
    ensures t.hs.ConnectionKeepAlive? <==> kind.Connection? && Says(v, KEEP_ALIVE)
    ensures t.hs.ConnectionClose? <==> kind.Connection? && Says(v, CLOSE)
    ensures t.hs.TransferEncodingChunked? <==> kind.TransferEncoding? && CodingAt(v).Some? && Says(v[CodingAt(v).value..], CHUNKED)
  {
    hide Toward, CodingAt, Decimal, KEEP_ALIVE, CLOSE, CHUNKED, Wordlike;
    WordsWordlike();
    EitherWord(v);
  }

  /** Before a header line. */
  predicate Between(s: Parser) {
    s.state.HeaderFieldStart? && Fine(s) && !s.sink.inField
  }

  /** What a line makes of the parser. */
  predicate LineDone(s: Parser, h: Header, u: Parser) {
    && u == s.(hs := u.hs, index := u.index, nread := s.nread + |Line(h)|, contentLength := u.contentLength,
               usesTransferEncoding := s.usesTransferEncoding || TransferName(h.name), flags := FlagsWith(s.flags, h),
               sink := SinkWith(s.sink, h))
    && u.contentLength == (if GivesLength(h) then Decimal(h.value) else s.contentLength)
  }

  /** The parser has read a whole line and does not know yet whether it is continued. */
  predicate AfterLine(t: Parser) {
    (t.state.HeaderValueLws? || t.state.HeaderValueDiscardLws?) && Fine(t)
  }

  /** Behind the line, before it is known whether it is continued: the matcher has heard the whole value, and notes nothing
      of it yet but an upgrade or a length. */
  ghost predicate Heard(s: Parser, h: Header, t: Parser) {
    && h.value != [] && t.state.HeaderValueLws? && Fine(t) && t.sink == SinkWith(s.sink, h)
    && exists kind :: HeardAs(s, h, t, kind)
  }

  ghost predicate HeardAs(s: Parser, h: Header, t: Parser, kind: HeaderState)
    requires h.value != []
  {
    && Treatable(h.name, kind) && ValueAt(kind, h.value, t)
    && t.flags == FirstFlags(s.flags, kind, h.value[0], Some(if |h.value| > 1 then h.value[1] else CR))
  }

  /** A header line: its name and its value are collected, and it asks for what it says. */
  lemma HeaderRead(s: Parser, h: Header)
    requires Between(s) && Regular(h) && (GivesLength(h) ==> !s.flags.contentLength) && s.nread + |Line(h)| <= MAX_HEADER_SIZE
    ensures var t := Run(s, Line(h)); AfterLine(t) && LineDone(s, h, Settled(t)) && (h.value != [] ==> Heard(s, h, t))
  {
    hide *;
    var data := Line(h);
    var a, b := |h.name| + 1, |h.name| + 1 + |h.blanks|;
    var c := b + |h.value|;
    RegularParts(h);
    LineParts(h, data);
    BetweenParts(s);
    NameAndColon(s, data, h.name);
    var n := RunTo(s, data, 0, a);
    NameDone(s, h, n);
    BlanksRead(n, data, a, b);
    var u := RunTo(n, data, a, b);
    RunJoins(s, data, 0, a, b);
    if h.value == [] {
      assert c == b;
      EmptyLine(s, h, data, u, b);
    } else {
      FullLine(s, h, data, u, b);
    }
    RunJoins(s, data, 0, b, c + 2);
    RunIs(s, data);
  }

  lemma RunIs(s: Parser, data: Bytes)
    ensures Run(s, data) == RunTo(s, data, 0, |data|)
  {
  }

  lemma RegularParts(h: Header)
    requires Regular(h)
    ensures h.name != [] && AllTokens(h.name) && |Line(h)| == |h.name| + 1 + |h.blanks| + |h.value| + 2
    ensures GivesLength(h) ==> AllDigits(h.value) && Decimal(h.value) <= MAX_CONTENT_LENGTH
  {
    hide AllTokens, AllDigits, Decimal;
  }

  lemma BetweenParts(s: Parser)
    requires Between(s)
    ensures s.state.HeaderFieldStart? && Fine(s) && !s.sink.inField
  {
  }

  /** The parser before the value, at place `b`. */
  predicate BeforeValue(s: Parser, h: Header, u: Parser) {
    && u == s.(state := HeaderValueDiscardWs, nread := s.nread + |h.name| + 1 + |h.blanks|, hs := u.hs, index := u.index,
               usesTransferEncoding := s.usesTransferEncoding || TransferName(h.name), sink := OnField(s.sink, h.name))
    && Treatable(h.name, u.hs) && Fine(s)
  }

  lemma NameDone(s: Parser, h: Header, n: Parser)
    requires Fine(s) && Treatable(h.name, n.hs)
    requires n == s.(state := HeaderValueDiscardWs, nread := s.nread + |h.name| + 1, hs := n.hs, index := n.index,
                     usesTransferEncoding := s.usesTransferEncoding || TransferName(h.name), sink := OnField(s.sink, h.name))
    ensures n.state.HeaderValueDiscardWs? && Fine(n) && n.nread == s.nread + |h.name| + 1
    ensures BeforeValue(s, h, n.(nread := n.nread + |h.blanks|))
  {
    hide OnField, Treatable, TransferName;
  }

  lemma EmptyLine(s: Parser, h: Header, data: Bytes, u: Parser, b: nat)
    requires BeforeValue(s, h, u) && s.state.HeaderFieldStart? && h.value == [] && !s.sink.inField && b + 2 == |data| && data[b] == CR && data[b + 1] == LF
    requires |Line(h)| == |h.name| + 1 + |h.blanks| + 2 && s.nread + |Line(h)| <= MAX_HEADER_SIZE
    ensures var t := RunTo(u, data, b, b + 2); AfterLine(t) && LineDone(s, h, Settled(t))
  {
    hide RunTo, Treatable, TransferName, Spells, Decimal, Line, KEEP_ALIVE, CLOSE;
    WordsWordlike();
    LineEndRead(u, data, b);
  }

  lemma FullLine(s: Parser, h: Header, data: Bytes, u: Parser, b: nat)
    requires BeforeValue(s, h, u) && s.state.HeaderFieldStart? && h.value != [] && !s.sink.inField
    requires (GivesLength(h) ==> !s.flags.contentLength && AllDigits(h.value) && Decimal(h.value) <= MAX_CONTENT_LENGTH)
    requires var c := b + |h.value|;
             && c + 2 == |data| && data[b..c] == h.value && data[c] == CR && data[c + 1] == LF
             && (forall i :: b <= i < c ==> ValueChar(data[i])) && !Blank(data[b]) && data[b] == h.value[0]
             && Next(data, b) == Some(if |h.value| > 1 then h.value[1] else CR)
    requires |Line(h)| == |h.name| + 1 + |h.blanks| + |h.value| + 2 && s.nread + |Line(h)| <= MAX_HEADER_SIZE
    ensures var t := RunTo(u, data, b, |data|); AfterLine(t) && LineDone(s, h, Settled(t)) && Heard(s, h, t)
  {
    hide RunTo, Treatable, TransferName, Decimal, Line, ValueAt, ValueChar, Blank, AllDigits, FlagsWith, GivesLength, FirstFlags, LineDone, Settled, Heard;
    var c := b + |h.value|;
    LengthTreated(h, u.hs);
    ValueRead(u, data, b, c, c);
    var t := RunTo(u, data, b, c);
    LineEndRead(t, data, c);
    RunJoins(u, data, b, c, c + 2);
    ValueDone(s, h, u, t);
  }

  lemma ValueDone(s: Parser, h: Header, u: Parser, t: Parser)
    requires BeforeValue(s, h, u) && s.state.HeaderFieldStart? && h.value != [] && !s.sink.inField && ValueAt(u.hs, h.value, t)
    requires t == u.(state := HeaderValue, nread := u.nread + |h.value|, hs := t.hs, index := t.index, sink := OnValue(u.sink, h.value),
                     flags := FirstFlags(u.flags, u.hs, h.value[0], Some(if |h.value| > 1 then h.value[1] else CR)),
                     contentLength := t.contentLength)
    requires t.contentLength == (if u.hs.ContentLength? then Decimal(h.value) else u.contentLength)
    requires |Line(h)| == |h.name| + 1 + |h.blanks| + |h.value| + 2
    ensures LineDone(s, h, Settled(t.(nread := t.nread + 2, state := HeaderValueLws)))
    ensures Heard(s, h, t.(nread := t.nread + 2, state := HeaderValueLws))
  {
    hide Treatable, TransferName, Decimal, Line, ValueAt, FlagsWith, GivesLength, FirstFlags;
    LengthTreated(h, u.hs);
    TreatableHere(s, h, u);
    WhatItAsks(h, u.hs, s.flags, t);
    SameMatch(u.hs, h.value, t, t.(nread := t.nread + 2, state := HeaderValueLws));
    assert HeardAs(s, h, t.(nread := t.nread + 2, state := HeaderValueLws), u.hs);
  }

  lemma TreatableHere(s: Parser, h: Header, u: Parser)
    requires BeforeValue(s, h, u)
    ensures Treatable(h.name, u.hs) && u.flags == s.flags
  {
    hide Treatable;
  }

  lemma LengthTreated(h: Header, kind: HeaderState)
    requires Treatable(h.name, kind) && h.value != []
    ensures GivesLength(h) <==> kind.ContentLength?
    ensures Treatment(kind)
  {
    hide Spells;
  }
}
