/** What the byte machine computes, said without the machine: header names, lengths and chunked bodies. */
module HttpMeaning {
  import opened Wrappers
  import opened Sequences
  import opened HttpMachine
  import opened HttpInvariant
  import opened HttpRuns
  import opened HttpExecute

  // ---------------------------------------------------------------- header names

  function LowerName(name: Bytes): (w: Bytes)
    ensures |w| == |name|
  {
    if name == [] then [] else LowerName(name[..|name| - 1]) + [Token(name[|name| - 1])]
  }

  predicate Prefix(w: Bytes, word: Bytes) {
    |w| <= |word| && forall i :: 0 <= i < |w| ==> w[i] == word[i]
  }

  /** What the matcher's state says about the lower-cased bytes of the name read so far. */
  predicate Tracks(w: Bytes, hs: HeaderState, index: nat) {
    match hs
    case C => |w| == 1 && index == 0 && Prefix(w, CONNECTION)
    case CO => |w| == 2 && index == 1 && Prefix(w, CONNECTION)
    case CON => |w| == 3 && index == 2 && Prefix(w, CONNECTION)
    case MatchingConnection => 4 <= |w| == index + 1 < |CONNECTION| && Prefix(w, CONNECTION)
    case MatchingContentLength => 4 <= |w| == index + 1 < |CONTENT_LENGTH| && Prefix(w, CONTENT_LENGTH)
    case MatchingProxyConnection => 1 <= |w| == index + 1 < |PROXY_CONNECTION| && Prefix(w, PROXY_CONNECTION)
    case MatchingTransferEncoding => 1 <= |w| == index + 1 < |TRANSFER_ENCODING| && Prefix(w, TRANSFER_ENCODING)
    case MatchingUpgrade => 1 <= |w| == index + 1 < |UPGRADE| && Prefix(w, UPGRADE)
    case Connection => w == CONNECTION || w == PROXY_CONNECTION
    case ContentLength => w == CONTENT_LENGTH
    case TransferEncoding => w == TRANSFER_ENCODING
    case Upgrade => w == UPGRADE
    case General => NoWord(w)
    case _ => false
  }

  predicate NoWord(w: Bytes) {
    && !Prefix(w, CONNECTION) && !Prefix(w, PROXY_CONNECTION) && !Prefix(w, CONTENT_LENGTH)
    && !Prefix(w, TRANSFER_ENCODING) && !Prefix(w, UPGRADE)
  }

  lemma Longer(w: Bytes, c: Byte, word: Bytes)
    ensures Prefix(w + [c], word) <==> |w| < |word| && Prefix(w, word) && c == word[|w|]
  {
    assert forall i :: 0 <= i < |w| ==> (w + [c])[i] == w[i];
    assert (w + [c])[|w|] == c;
  }

  /** The words part at their first letter, the two that begin with `con` at their fourth. */
  lemma WordsDiffer(w: Bytes)
    requires |w| > 0
    ensures Prefix(w, CONNECTION) || Prefix(w, CONTENT_LENGTH) ==> w[0] == LOWER_C
    ensures Prefix(w, PROXY_CONNECTION) ==> w[0] == LOWER_P
    ensures Prefix(w, TRANSFER_ENCODING) ==> w[0] == LOWER_T
    ensures Prefix(w, UPGRADE) ==> w[0] == LOWER_U
    ensures |w| > 3 && Prefix(w, CONNECTION) ==> w[3] == LOWER_N
    ensures |w| > 3 && Prefix(w, CONTENT_LENGTH) ==> w[3] == LOWER_T
  {
  }

  lemma WholeWord(w: Bytes, word: Bytes)
    ensures |w| == |word| && Prefix(w, word) <==> w == word
  {
  }

  /** `word` is listed, and long enough a part of it has been read to tell it from the others. */
  predicate OnlyWord(w: Bytes, word: Bytes) {
    || (word == CONNECTION && |w| > 3) || word == PROXY_CONNECTION || (word == CONTENT_LENGTH && |w| > 3)
    || word == TRANSFER_ENCODING || word == UPGRADE
  }

  /** A byte that leaves the only word still possible leaves no word. */
  lemma Mismatch(w: Bytes, c: Byte, word: Bytes)
    requires |w| > 0 && Prefix(w, word) && !Prefix(w + [c], word)
    requires OnlyWord(w, word)
    ensures NoWord(w + [c])
  {
    Extension(w, c);
    WordsDiffer(w);
    hide Prefix, CONNECTION, PROXY_CONNECTION, CONTENT_LENGTH, TRANSFER_ENCODING, UPGRADE;
  }

  lemma Extension(w: Bytes, c: Byte)
    ensures Prefix(w + [c], CONNECTION) ==> Prefix(w, CONNECTION)
    ensures Prefix(w + [c], PROXY_CONNECTION) ==> Prefix(w, PROXY_CONNECTION)
    ensures Prefix(w + [c], CONTENT_LENGTH) ==> Prefix(w, CONTENT_LENGTH)
    ensures Prefix(w + [c], TRANSFER_ENCODING) ==> Prefix(w, TRANSFER_ENCODING)
    ensures Prefix(w + [c], UPGRADE) ==> Prefix(w, UPGRADE)
  {
    Longer(w, c, CONNECTION);
    Longer(w, c, PROXY_CONNECTION);
    Longer(w, c, CONTENT_LENGTH);
    Longer(w, c, TRANSFER_ENCODING);
    Longer(w, c, UPGRADE);
  }

  /** One more byte while matching `word`. */
  lemma NextInWord(w: Bytes, index: nat, c: Byte, word: Bytes, again: HeaderState, full: HeaderState)
    requires 1 <= |w| == index + 1 < |word| && Prefix(w, word)
    requires OnlyWord(w, word)
    requires again != General && full != General && again != full
    ensures var hs := MatchWord(word, index + 1, c, again, full, General);
            && (hs == General ==> NoWord(w + [c]))
            && (hs == full ==> w + [c] == word)
            && (hs == again ==> |w| + 1 < |word| && Prefix(w + [c], word))
  {
    hide Prefix, NoWord, OnlyWord;
    Longer(w, c, word);
    WholeWord(w + [c], word);
    if c != word[|w|] { Mismatch(w, c, word); }
  }

  lemma TracksFirst(c: Byte)
    ensures Tracks([c], FirstMatch(c), 0)
  {
    WordsDiffer([c]);
  }

  /** The first three letters, shared by two words. */
  lemma NextInCon(w: Bytes, c: Byte)
    requires 1 <= |w| <= 3 && Prefix(w, CONNECTION)
    ensures |w| < 3 && c == CONNECTION[|w|] ==> Prefix(w + [c], CONNECTION)
    ensures |w| < 3 && c != CONNECTION[|w|] ==> NoWord(w + [c])
    ensures |w| == 3 && c == LOWER_N ==> Prefix(w + [c], CONNECTION)
    ensures |w| == 3 && c == LOWER_T ==> Prefix(w + [c], CONTENT_LENGTH)
    ensures |w| == 3 && c != LOWER_N && c != LOWER_T ==> NoWord(w + [c])
  {
    Extension(w, c);
    WordsDiffer(w);
    Longer(w, c, CONNECTION);
    Longer(w, c, CONTENT_LENGTH);
  }

  lemma NextInGeneral(w: Bytes, c: Byte)
    requires NoWord(w)
    ensures NoWord(w + [c])
  {
    Extension(w, c);
  }

  lemma WordEnds(w: Bytes, c: Byte)
    requires w == CONNECTION || w == PROXY_CONNECTION || w == CONTENT_LENGTH || w == TRANSFER_ENCODING || w == UPGRADE
    ensures NoWord(w + [c])
  {
    Longer(w, c, w);
    Mismatch(w, c, w);
  }

  lemma TracksNext(w: Bytes, hs: HeaderState, index: nat, c: Byte)
    requires Tracks(w, hs, index)
    ensures var (hs', index') := MatchField(hs, index, c); Tracks(w + [c], hs', index')
  {
    hide Prefix, NoWord;
    match hs
    case C => NextInCon(w, c);
    case CO => NextInCon(w, c);
    case CON => NextInCon(w, c);
    case MatchingConnection => NextInWord(w, index, c, CONNECTION, hs, Connection);
    case MatchingProxyConnection => NextInWord(w, index, c, PROXY_CONNECTION, hs, Connection);
    case MatchingContentLength => NextInWord(w, index, c, CONTENT_LENGTH, hs, ContentLength);
    case MatchingTransferEncoding => NextInWord(w, index, c, TRANSFER_ENCODING, hs, TransferEncoding);
    case MatchingUpgrade => NextInWord(w, index, c, UPGRADE, hs, Upgrade);
    case General => NextInGeneral(w, c);
    case _ => WordEnds(w, c);
  }

  /** The matcher ends in one of its four answers exactly on the words they stand for. */
  lemma TracksExact(w: Bytes, hs: HeaderState, index: nat)
    requires w != [] && Tracks(w, hs, index)
    ensures hs == ContentLength <==> w == CONTENT_LENGTH
    ensures hs == TransferEncoding <==> w == TRANSFER_ENCODING
    ensures hs == Upgrade <==> w == UPGRADE
    ensures hs == Connection <==> w == CONNECTION || w == PROXY_CONNECTION
  {
    WordsDiffer(w);
    WholeWord(w, CONNECTION);
    WholeWord(w, PROXY_CONNECTION);
    WholeWord(w, CONTENT_LENGTH);
    WholeWord(w, TRANSFER_ENCODING);
    WholeWord(w, UPGRADE);
    hide Prefix;
  }

  predicate AllTokens(name: Bytes) { forall i :: 0 <= i < |name| ==> Token(name[i]) != 0 }

  /** A name has been seen to spell transfer-encoding at some point, so has that word at its front. */
  predicate StartsWith(w: Bytes, word: Bytes) { |word| <= |w| && w[..|word|] == word }

  lemma {:induction false} NameRead(s: Parser, name: Bytes, j: nat)
    requires s.state.HeaderFieldStart? && s.errno == OK && !Exited(s)
    requires 0 < j <= |name| && AllTokens(name[..j]) && s.nread + j <= MAX_HEADER_SIZE
    ensures var t := RunTo(s, name, 0, j);
            && t == s.(state := HeaderField, nread := s.nread + j, hs := t.hs, index := t.index,
                       usesTransferEncoding := t.usesTransferEncoding, sink := OnField(s.sink, name[..j]))
            && Tracks(LowerName(name[..j]), t.hs, t.index)
            && (t.usesTransferEncoding <==> s.usesTransferEncoding || StartsWith(LowerName(name[..j]), TRANSFER_ENCODING))
    decreases j
  {
    LastToken(name, j);
    hide *;
    if j == 1 {
      FirstNameByte(s, name);
    } else {
      var ch := name[j - 1];
      NameRead(s, name, j - 1);
      var t := RunTo(s, name, 0, j - 1);
      var w := LowerName(name[..j - 1]);
      OneMoreByte(s, name, 0, j - 1);
      FieldByteStep(t, ch, Next(name, j - 1));
      FieldByteIs(t.(nread := t.nread + 1), ch);
      TracksNext(w, t.hs, t.index, Token(ch));
      FieldPieces(s.sink, name, 0, j - 1);
      assert name[0..j - 1] == name[..j - 1] && name[0..j] == name[..j];
      SpellsNow(w, t.hs, t.index, Token(ch));
      SameExit(s, t);
    }
  }

  lemma LastToken(name: Bytes, j: nat)
    requires 0 < j <= |name| && AllTokens(name[..j])
    ensures AllTokens(name[..j - 1]) && Token(name[j - 1]) != 0 && Token(name[0]) != 0
    ensures LowerName(name[..j]) == LowerName(name[..j - 1]) + [Token(name[j - 1])]
  {
    hide Token;
    var front := name[..j];
    var less := name[..j - 1];
    assert front[j - 1] == name[j - 1] && front[0] == name[0] && front[..j - 1] == less;
    forall i | 0 <= i < |less| ensures Token(less[i]) != 0 { assert less[i] == front[i]; }
  }

  lemma FieldByteIs(s: Parser, ch: Byte)
    ensures var (hs, index) := MatchField(s.hs, s.index, Token(ch));
            FieldByte(s, ch) == s.(hs := hs, index := index, sink := OnField(s.sink, [ch]),
              usesTransferEncoding := s.usesTransferEncoding || (s.hs == MatchingTransferEncoding && hs == TransferEncoding))
  {
    hide Token, MatchField, OnField;
  }

  lemma SameExit(s: Parser, t: Parser)
    requires t.upgrade == s.upgrade && t.completions == s.completions
    ensures Exited(t) == Exited(s)
  {
  }

  lemma FirstNameByte(s: Parser, name: Bytes)
    requires s.state.HeaderFieldStart? && s.errno == OK && !Exited(s) && name != [] && Token(name[0]) != 0
    requires s.nread + 1 <= MAX_HEADER_SIZE
    ensures RunTo(s, name, 0, 1) == s.(state := HeaderField, nread := s.nread + 1, hs := FirstMatch(Token(name[0])), index := 0,
                                       sink := OnField(s.sink, name[..1]))
    ensures LowerName(name[..1]) == [Token(name[0])] && Tracks(LowerName(name[..1]), FirstMatch(Token(name[0])), 0)
    ensures !StartsWith(LowerName(name[..1]), TRANSFER_ENCODING)
  {
    hide OnField, Prefix, Tracks;
    assert name[..1] == [name[0]];
    TracksFirst(Token(name[0]));
    assert RunTo(s, name, 0, 0) == s;
  }

  /** The matcher reaches its answer on the very byte that completes the word. */
  lemma SpellsNow(w: Bytes, hs: HeaderState, index: nat, c: Byte)
    requires w != [] && Tracks(w, hs, index)
    ensures StartsWith(w + [c], TRANSFER_ENCODING) <==>
              StartsWith(w, TRANSFER_ENCODING) || (hs == MatchingTransferEncoding && MatchField(hs, index, c).0 == TransferEncoding)
  {
    hide Tracks, MatchField, Prefix;
    var (hs', index') := MatchField(hs, index, c);
    TracksNext(w, hs, index, c);
    TracksExact(w + [c], hs', index');
    TracksExact(w, hs, index);
    FromMatching(hs, index, c);
    if |w| + 1 == |TRANSFER_ENCODING| {
      assert (w + [c])[..|TRANSFER_ENCODING|] == w + [c];
    } else if |w| >= |TRANSFER_ENCODING| {
      assert (w + [c])[..|TRANSFER_ENCODING|] == w[..|TRANSFER_ENCODING|];
    }
  }

  lemma FromMatching(hs: HeaderState, index: nat, c: Byte)
    ensures MatchField(hs, index, c).0 == TransferEncoding ==> hs == MatchingTransferEncoding
  {
  }

  /** After a whole header name and its colon the parser treats the header as Content-Length, Transfer-Encoding,
      Upgrade or Connection exactly when the name is that word in any case (Proxy-Connection counts as Connection),
      the collected name is the name as sent, and a Transfer-Encoding header has been seen as soon as a name only
      begins with that word. */
  lemma HeaderNameMeaning(s: Parser, name: Bytes)
    requires s.state.HeaderFieldStart? && s.errno == OK && !Exited(s)
    requires name != [] && AllTokens(name) && s.nread + |name| + 1 <= MAX_HEADER_SIZE
    ensures var t := Run(s, name + [COLON]);
            var w := LowerName(name);
            && t.errno == OK && t.state == HeaderValueDiscardWs && t.sink == OnField(s.sink, name)
            && (t.hs == ContentLength <==> w == CONTENT_LENGTH)
            && (t.hs == TransferEncoding <==> w == TRANSFER_ENCODING)
            && (t.hs == Upgrade <==> w == UPGRADE)
            && (t.hs == Connection <==> w == CONNECTION || w == PROXY_CONNECTION)
            && (t.usesTransferEncoding <==> s.usesTransferEncoding || StartsWith(w, TRANSFER_ENCODING))
            && t.flags == s.flags && t.contentLength == s.contentLength
  {
    hide Tracks, Prefix, StartsWith, OnField, Step, LowerName, Token, CONNECTION, PROXY_CONNECTION, CONTENT_LENGTH,
      TRANSFER_ENCODING, UPGRADE;
    var line := name + [COLON];
    assert line[..|name|] == name && line[|name|] == COLON;
    NameRead(s, line, |name|);
    var t := RunTo(s, line, 0, |name|);
    TracksExact(LowerName(name), t.hs, t.index);
    ColonStep(t, Next(line, |name|));
  }

  // ---------------------------------------------------------------- lengths

  /** The number that digits spell in base ten. */
  function Decimal(ds: Bytes): (n: int) {
    if ds == [] then 0 else Decimal(ds[..|ds| - 1]) * 10 + (ds[|ds| - 1] - ZERO)
  }

  predicate AllDigits(ds: Bytes) { forall i :: 0 <= i < |ds| ==> IsNum(ds[i]) }

  const MAX_CONTENT_LENGTH := 18446744073709551609 // 2^64 - 7
  const MAX_CHUNK_LENGTH := 18446744073709551599 // 2^64 - 17

  lemma {:induction false} DecimalGrows(ds: Bytes, j: nat)
    requires j <= |ds| && AllDigits(ds)
    ensures 0 <= Decimal(ds[..j]) <= Decimal(ds)
    decreases |ds|
  {
    if j < |ds| {
      DecimalGrows(ds[..|ds| - 1], j);
      assert ds[..|ds| - 1][..j] == ds[..j];
    } else {
      assert ds[..j] == ds;
      if ds != [] {
        DecimalGrows(ds[..|ds| - 1], |ds| - 1);
        assert ds[..|ds| - 1][..|ds| - 1] == ds[..|ds| - 1];
      }
    }
  }

  lemma DecimalNext(ds: Bytes, j: nat)
    requires 0 < j <= |ds| && AllDigits(ds)
    ensures Decimal(ds[..j]) == Decimal(ds[..j - 1]) * 10 + (ds[j - 1] - ZERO) && Decimal(ds[..j - 1]) >= 0
  {
    assert ds[..j][..j - 1] == ds[..j - 1];
    DecimalGrows(ds[..j - 1], 0);
  }

  /** A step on one more digit of a length. */
  lemma DigitStep(t: Parser, ch: Byte, next: Option<Byte>)
    requires t.state.HeaderValue? && t.hs.ContentLengthNum? && t.errno == OK && !Exited(t) && IsNum(ch)
    requires t.nread + 1 <= MAX_HEADER_SIZE && t.contentLength <= ULLONG_MAX
    ensures var u := Step(t, ch, next);
            if t.contentLength <= 1844674407370955160 then
              && u.errno == OK && u.state == t.state && u.hs == t.hs && u.nread == t.nread + 1 && Exited(u) == Exited(t)
              && u.contentLength == t.contentLength * 10 + (ch - ZERO)
            else u.errno == InvalidContentLength
  {
    hide OnValue, MatchValue;
    ValueByteStep(t, ch, next);
    ContentLengthDigitBound(t.contentLength, ch);
    DigitMatch(t.hs, t.index, t.contentLength, ch);
  }

  lemma DigitMatch(hs: HeaderState, index: nat, contentLength: nat, ch: Byte)
    requires hs.ContentLengthNum? && IsNum(ch)
    ensures var (n, e) := ContentLengthDigit(contentLength, ch);
            MatchValue(hs, index, contentLength, ch) == ValueMatch(hs, index, n, e)
  {
    hide ContentLengthDigit, Lower;
  }

  /** Content-Length arithmetic is exact or rejected: the digits are accepted exactly when they spell a number of at
      most 2^64 - 7, and then that number is the length, so never the value that stands for "no length". */
  lemma {:induction false} ContentLengthExact(s: Parser, ds: Bytes, j: nat)
    requires s.state.HeaderValueDiscardWs? && s.hs.ContentLength? && !s.flags.contentLength && s.errno == OK && !Exited(s)
    requires 0 < j <= |ds| && AllDigits(ds) && s.nread + j <= MAX_HEADER_SIZE
    ensures var t := RunTo(s, ds, 0, j);
            if Decimal(ds[..j]) <= MAX_CONTENT_LENGTH then
              && t.errno == OK && t.state == HeaderValue && t.hs == ContentLengthNum && t.nread == s.nread + j && !Exited(t)
              && t.contentLength == Decimal(ds[..j]) < ULLONG_MAX
            else t.errno == InvalidContentLength
    decreases j
  {
    var ch := ds[j - 1];
    assert IsNum(ch);
    if j == 1 {
      FirstDigit(s, ds);
    } else {
      DecimalNext(ds, j);
      hide Step, IsNum, Decimal;
      ContentLengthExact(s, ds, j - 1);
      var t := RunTo(s, ds, 0, j - 1);
      if t.errno == OK {
        DigitStep(t, ch, Next(ds, j - 1));
      } else {
        StickyFrom(s, ds, 0, j - 1, j);
      }
    }
  }

  lemma FirstDigit(s: Parser, ds: Bytes)
    requires s.state.HeaderValueDiscardWs? && s.hs.ContentLength? && !s.flags.contentLength && s.errno == OK && !Exited(s)
    requires 0 < |ds| && IsNum(ds[0]) && s.nread + 1 <= MAX_HEADER_SIZE
    ensures var t := RunTo(s, ds, 0, 1);
            && t.errno == OK && t.state == HeaderValue && t.hs == ContentLengthNum && t.nread == s.nread + 1 && !Exited(t)
            && t.contentLength == Decimal(ds[..1]) == ds[0] - ZERO
  {
    hide OnValue;
    assert RunTo(s, ds, 0, 0) == s;
    assert ds[..1] == [ds[0]] && ds[..1][..0] == [];
    assert Decimal([]) == 0;
  }

  predicate IsHex(ch: Byte) { ch < 128 && Unhex(ch) >= 0 }

  predicate AllHex(ds: Bytes) { forall i :: 0 <= i < |ds| ==> IsHex(ds[i]) }

  /** The number that digits spell in base sixteen. */
  function Hexadecimal(ds: Bytes): (n: int)
    requires AllHex(ds)
    ensures n >= 0
  {
    if ds == [] then 0 else Hexadecimal(ds[..|ds| - 1]) * 16 + Unhex(ds[|ds| - 1])
  }

  /** A chunk size likewise: accepted exactly up to 2^64 - 17, and then exact. `data` holds the digits from `i` on. */
  lemma {:induction false} ChunkSizeExact(s: Parser, data: Bytes, i: nat, j: nat)
    requires s.state.ChunkSizeStart? && s.errno == OK && !Exited(s) && s.nread == 0
    requires i < j <= |data| && AllHex(data[i..j]) && j - i <= MAX_HEADER_SIZE
    ensures var t := RunTo(s, data, i, j);
            if Hexadecimal(data[i..j]) <= MAX_CHUNK_LENGTH then
              t == s.(state := ChunkSize, nread := j - i, contentLength := Hexadecimal(data[i..j]))
            else t.errno == InvalidContentLength
    decreases j
  {
    hide Step;
    var ch := data[j - 1];
    assert data[i..j][j - 1 - i] == ch;
    assert data[i..j][..j - 1 - i] == data[i..j - 1];
    if j == i + 1 {
      assert RunTo(s, data, i, i) == s;
      assert data[i..i] == [];
      HexFirst(s, ch, Next(data, i));
    } else {
      assert AllHex(data[i..j - 1]);
      ChunkSizeExact(s, data, i, j - 1);
      var t := RunTo(s, data, i, j - 1);
      if t.errno == OK {
        HexStep(t, ch, Next(data, j - 1));
      } else {
        StickyFrom(s, data, i, j - 1, j);
      }
    }
  }

  lemma HexFirst(s: Parser, ch: Byte, next: Option<Byte>)
    requires s.state.ChunkSizeStart? && s.errno == OK && !Exited(s) && s.nread == 0 && IsHex(ch)
    ensures Step(s, ch, next) == s.(state := ChunkSize, nread := 1, contentLength := Unhex(ch)) && Unhex(ch) < 16
  {
  }

  lemma HexStep(t: Parser, ch: Byte, next: Option<Byte>)
    requires t.state.ChunkSize? && t.errno == OK && !Exited(t) && IsHex(ch)
    requires t.nread + 1 <= MAX_HEADER_SIZE && t.contentLength <= ULLONG_MAX
    ensures Step(t, ch, next) ==
              if t.contentLength <= 1152921504606846974 then
                t.(nread := t.nread + 1, contentLength := t.contentLength * 16 + Unhex(ch))
              else Fail(t.(nread := t.nread + 1), InvalidContentLength)
  {
  }

  // ---------------------------------------------------------------- chunked bodies

  /** A chunk as sent: size digits, an extension that may be empty, and the data. */
  datatype Chunk = Chunk(size: Bytes, extension: Bytes, data: Bytes)

  predicate ValidLine(size: Bytes, extension: Bytes) {
    && size != [] && AllHex(size)
    && (extension != [] ==> extension[0] == SEMICOLON || extension[0] == SPACE)
    && (forall i :: 0 <= i < |extension| ==> extension[i] != CR)
    && |size| + |extension| + 2 <= MAX_HEADER_SIZE
  }

  predicate ValidChunk(c: Chunk) {
    ValidLine(c.size, c.extension) && 0 < Hexadecimal(c.size) == |c.data| <= MAX_CHUNK_LENGTH
  }

  function EncodeLine(size: Bytes, extension: Bytes): Bytes {
    size + extension + [CR, LF]
  }

  function EncodeChunk(c: Chunk): Bytes {
    EncodeLine(c.size, c.extension) + c.data + [CR, LF]
  }

  /** Section 4.1 of RFC 7230, without trailers. */
  function Encode(chunks: seq<Chunk>, last: Chunk): Bytes {
    if chunks == [] then EncodeLine(last.size, last.extension) + [CR, LF]
    else EncodeChunk(chunks[0]) + Encode(chunks[1..], last)
  }

  function Payload(chunks: seq<Chunk>): Bytes {
    if chunks == [] then [] else chunks[0].data + Payload(chunks[1..])
  }

  /** Between chunks. */
  predicate Ready(s: Parser) {
    s.state.ChunkSizeStart? && s.errno == OK && !Exited(s) && s.nread == 0 && s.flags.chunked
  }

  lemma ExtensionStep(t: Parser, ch: Byte, next: Option<Byte>)
    requires t.errno == OK && !Exited(t) && t.nread + 1 <= MAX_HEADER_SIZE && ch != CR
    requires t.state.ChunkParameters? || (t.state.ChunkSize? && (ch == SEMICOLON || ch == SPACE))
    ensures Step(t, ch, next) == t.(state := ChunkParameters, nread := t.nread + 1)
  {
  }

  lemma {:induction false} ExtensionRead(s: Parser, data: Bytes, i: nat, j: nat)
    requires s.state.ChunkSize? && s.errno == OK && !Exited(s)
    requires i < j <= |data| && (data[i] == SEMICOLON || data[i] == SPACE)
    requires s.nread + (j - i) <= MAX_HEADER_SIZE && forall k :: i <= k < j ==> data[k] != CR
    ensures RunTo(s, data, i, j) == s.(state := ChunkParameters, nread := s.nread + (j - i))
    decreases j
  {
    hide Step;
    if j == i + 1 {
      assert RunTo(s, data, i, i) == s;
      ExtensionStep(s, data[i], Next(data, i));
    } else {
      ExtensionRead(s, data, i, j - 1);
      ExtensionStep(RunTo(s, data, i, j - 1), data[j - 1], Next(data, j - 1));
    }
  }

  /** A chunk-size line, its line end included. */
  lemma LineRead(s: Parser, data: Bytes, i: nat, size: Bytes, extension: Bytes)
    requires Ready(s) && ValidLine(size, extension) && Hexadecimal(size) <= MAX_CHUNK_LENGTH
    requires At(data, i, EncodeLine(size, extension))
    ensures var n := Hexadecimal(size);
            RunTo(s, data, i, i + |EncodeLine(size, extension)|) ==
              if n == 0 then s.(state := HeaderFieldStart, contentLength := 0, flags := s.flags.(trailing := true))
              else s.(state := ChunkData, contentLength := n)
  {
    hide Step, Hexadecimal;
    var j := i + |size|;
    var k := j + |extension|;
    AtParts(data, i, size + extension, [CR, LF]);
    AtParts(data, i, size, extension);
    assert data[k..k + 2][0] == CR && data[k..k + 2][1] == LF;
    ChunkSizeExact(s, data, i, j);
    var t := RunTo(s, data, i, j);
    if extension != [] {
      assert data[j] == data[j..k][0];
      forall m | j <= m < k ensures data[m] != CR { assert data[m] == data[j..k][m - j]; }
      ExtensionRead(t, data, j, k);
      RunJoins(s, data, i, j, k);
    }
    LineEnd(RunTo(s, data, i, k), data, k);
    RunJoins(s, data, i, k, k + 2);
  }

  lemma LineEnd(t: Parser, data: Bytes, k: nat)
    requires (t.state.ChunkSize? || t.state.ChunkParameters?) && t.errno == OK && !Exited(t) && t.nread + 2 <= MAX_HEADER_SIZE
    requires k + 2 <= |data| && data[k] == CR && data[k + 1] == LF
    ensures RunTo(t, data, k, k + 2) ==
              if t.contentLength == 0 then t.(state := HeaderFieldStart, nread := 0, flags := t.flags.(trailing := true))
              else t.(state := ChunkData, nread := 0)
  {
    assert RunTo(t, data, k, k) == t;
    assert RunTo(t, data, k, k + 1) == t.(state := ChunkSizeAlmostDone, nread := t.nread + 1);
  }

  /** One whole chunk: its data reaches on_body and the parser is ready for the next. */
  lemma ChunkRead(s: Parser, data: Bytes, i: nat, c: Chunk)
    requires Ready(s) && ValidChunk(c) && At(data, i, EncodeChunk(c))
    ensures RunTo(s, data, i, i + |EncodeChunk(c)|) == s.(contentLength := 0, sink := OnBody(s.sink, c.data))
  {
    hide Step, Hexadecimal, OnBody;
    var line := EncodeLine(c.size, c.extension);
    AtParts(data, i, line + c.data, [CR, LF]);
    AtParts(data, i, line, c.data);
    var j := i + |line|;
    var k := j + |c.data|;
    LineRead(s, data, i, c.size, c.extension);
    var t := RunTo(s, data, i, j);
    LastBodyByte(t, data, j);
    RunJoins(s, data, i, j, k);
    assert data[k..k + 2][0] == CR && data[k..k + 2][1] == LF;
    ChunkEnd(RunTo(s, data, i, k), data, k);
    RunJoins(s, data, i, k, k + 2);
  }

  lemma ChunkEnd(t: Parser, data: Bytes, k: nat)
    requires t.state.ChunkDataAlmostDone? && t.errno == OK && !Exited(t)
    requires k + 2 <= |data| && data[k] == CR && data[k + 1] == LF
    ensures RunTo(t, data, k, k + 2) == t.(state := ChunkSizeStart, nread := 0)
  {
    assert RunTo(t, data, k, k) == t;
    assert RunTo(t, data, k, k + 1) == t.(state := ChunkDataDone);
  }

  lemma EndRead(t: Parser, data: Bytes, k: nat)
    requires t.state.HeaderFieldStart? && t.flags.trailing && t.errno == OK && !Exited(t) && t.nread == 0
    requires k + 2 <= |data| && data[k] == CR && data[k + 1] == LF
    ensures RunTo(t, data, k, k + 1) == t.(state := HeadersAlmostDone, nread := 1)
    ensures RunTo(t, data, k, k + 2) == Complete(t.(state := HeadersAlmostDone, nread := 2))
  {
    assert RunTo(t, data, k, k) == t;
  }

  /** The last chunk, which is empty, and the end of the message behind it. */
  lemma LastChunkRead(s: Parser, data: Bytes, i: nat, last: Chunk)
    requires Ready(s) && ValidLine(last.size, last.extension) && Hexadecimal(last.size) == 0
    requires At(data, i, EncodeLine(last.size, last.extension) + [CR, LF])
    ensures var n := i + |EncodeLine(last.size, last.extension)| + 2;
            && RunTo(s, data, i, n - 1).completions == s.completions
            && RunTo(s, data, i, n) == Complete(s.(state := HeadersAlmostDone, nread := 2, contentLength := 0,
                 flags := s.flags.(trailing := true), sink := OnBody(s.sink, [])))
  {
    hide Step, Hexadecimal, ValidLine;
    var line := EncodeLine(last.size, last.extension);
    AtParts(data, i, line, [CR, LF]);
    var k := i + |line|;
    LineRead(s, data, i, last.size, last.extension);
    assert data[k..k + 2][0] == CR && data[k..k + 2][1] == LF;
    EndRead(RunTo(s, data, i, k), data, k);
    RunJoins(s, data, i, k, k + 1);
    RunJoins(s, data, i, k, k + 2);
    assert s.sink.body + [] == s.sink.body;
  }

  /** Chunked decoding inverts chunked encoding: whatever the chunks, their size digits and their extensions, on_body
      gets exactly the data of all chunks in order, and on_message_complete is called once, on the last byte. */
  lemma {:induction false} ChunkedInverts(s: Parser, data: Bytes, i: nat, chunks: seq<Chunk>, last: Chunk)
    requires Ready(s) && (forall k :: 0 <= k < |chunks| ==> ValidChunk(chunks[k]))
    requires ValidLine(last.size, last.extension) && Hexadecimal(last.size) == 0
    requires At(data, i, Encode(chunks, last))
    ensures var n := i + |Encode(chunks, last)|;
            && i < n
            && RunTo(s, data, i, n - 1).completions == s.completions
            && RunTo(s, data, i, n) == Complete(s.(state := HeadersAlmostDone, nread := 2, contentLength := 0,
                 flags := s.flags.(trailing := true), sink := OnBody(s.sink, Payload(chunks))))
    decreases chunks
  {
    hide Step, Hexadecimal, ValidLine, RunTo;
    if chunks == [] {
      LastChunkRead(s, data, i, last);
    } else {
      hide Ready, At, EncodeLine, EncodeChunk;
      var c := chunks[0];
      AtParts(data, i, EncodeChunk(c), Encode(chunks[1..], last));
      ChunkRead(s, data, i, c);
      var j := i + |EncodeChunk(c)|;
      var t := RunTo(s, data, i, j);
      ChunkedInverts(t, data, j, chunks[1..], last);
      var n := j + |Encode(chunks[1..], last)|;
      RunJoins(s, data, i, j, n - 1);
      RunJoins(s, data, i, j, n);
      assert (s.sink.body + c.data) + Payload(chunks[1..]) == s.sink.body + (c.data + Payload(chunks[1..]));
    }
  }

  lemma CompletionsInNames(s: Parser, ch: Byte)
    ensures FieldStart(s, ch).completions >= s.completions && Field(s, ch).completions >= s.completions
    ensures Value(s, ch).completions >= s.completions
  {
    hide Token, IsHeaderChar, MatchValue, MatchField, Lower, OnField, OnValue;
  }

  lemma CompletionsInValues(s: Parser, ch: Byte, next: Option<Byte>)
    ensures DiscardWs(s, ch, next).completions >= s.completions && DiscardLws(s, ch).completions >= s.completions
    ensures ValueStart(s, ch, next).completions >= s.completions && ValueLws(s, ch, next).completions >= s.completions
  {
    hide Token, IsHeaderChar, MatchValue, MatchField, Lower, OnField, OnValue;
  }

  lemma CompletionsInBodies(s: Parser, ch: Byte)
    ensures HeadersAlmostDoneStep(s, ch).completions >= s.completions && HeadersDoneStep(s, ch).completions >= s.completions
    ensures BodyIdentityStep(s, ch).completions >= s.completions && Complete(s).completions >= s.completions
    ensures ChunkSizeStartStep(s, ch).completions >= s.completions && ChunkSizeStep(s, ch).completions >= s.completions
    ensures ChunkSizeAlmostDoneStep(s, ch).completions >= s.completions && ChunkDataStep(s, ch).completions >= s.completions
  {
    hide Unhex, OnBody, OnHeadersComplete;
  }

  lemma CompletionsStep(s: Parser, ch: Byte, next: Option<Byte>)
    ensures Step(s, ch, next).completions >= s.completions
  {
    var c := Counted(s);
    CompletionsInNames(c, ch);
    CompletionsInValues(c, ch, next);
    CompletionsInBodies(c, ch);
    hide FieldStart, Field, Value, DiscardWs, DiscardLws, ValueStart, ValueLws, HeadersAlmostDoneStep, HeadersDoneStep;
    hide BodyIdentityStep, Complete, ChunkSizeStartStep, ChunkSizeStep, ChunkSizeAlmostDoneStep, ChunkDataStep, OnBody;
  }

  lemma {:induction false} CompletionsGrow(s: Parser, data: Bytes, j: nat, k: nat)
    requires j <= k <= |data|
    ensures RunTo(s, data, 0, j).completions <= RunTo(s, data, 0, k).completions
    decreases k
  {
    hide Step;
    if j < k {
      CompletionsGrow(s, data, j, k - 1);
      CompletionsStep(RunTo(s, data, 0, k - 1), data[k - 1], Next(data, k - 1));
    }
  }

  /** A chunked body is one message: read in one buffer or, by `HttpRuns.SplitInvariance`, in any pieces. */
  lemma ChunkedMessage(s: Parser, chunks: seq<Chunk>, last: Chunk)
    requires Ready(s) && s.completions == 0 && (forall k :: 0 <= k < |chunks| ==> ValidChunk(chunks[k]))
    requires ValidLine(last.size, last.extension) && Hexadecimal(last.size) == 0
    ensures var data := Encode(chunks, last);
            var t := Run(s, data);
            && OneMessage(s, data) && t.errno == OK && t.completions == 1
            && t.sink == s.sink.(body := s.sink.body + Payload(chunks))
  {
    hide Step, Hexadecimal, ValidLine, Encode, RunTo;
    var data := Encode(chunks, last);
    assert data[0..|data|] == data;
    ChunkedInverts(s, data, 0, chunks, last);
    forall j | 0 <= j < |data| ensures RunTo(s, data, 0, j).completions == 0 {
      CompletionsGrow(s, data, j, |data| - 1);
    }
  }
}
