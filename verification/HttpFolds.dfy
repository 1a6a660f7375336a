/** Header values that go on on a folded line, which begins with a space or a tab. */
module HttpFolds {
  import opened Wrappers
  import opened Sequences
  import opened HttpMachine
  import opened HttpInvariant
  import opened HttpRuns
  import opened HttpExecute
  import opened HttpMeaning
  import opened HttpLines
  import opened HttpMessage

  /** The bytes of a folded line, without its end. */
  predicate Fold(more: Bytes) {
    more != [] && Blank(more[0]) && forall i :: 0 <= i < |more| ==> ValueChar(more[i])
  }

  /** The value of the header with the folded line behind it. */
  function Longer(h: Header, more: Bytes): Header {
    h.(value := h.value + more)
  }

  predicate SpacesOnly(more: Bytes) { forall i :: 0 <= i < |more| ==> more[i] == SPACE }

  /** A list of transfer codings that breaks off behind a comma. */
  predicate EndsWithComma(h: Header) {
    Spells(h.name, TRANSFER_ENCODING) && h.value != [] && CodingAt(h.value) == Some(|h.value|)
  }

  // ---------------------------------------------------------------- byte by byte

  /** Behind a value of these the matcher gives up at a fold. */
  predicate GivesUp(hs: HeaderState) {
    hs.General? || hs.MatchingKeepAlive? || hs.MatchingClose? || hs.ConnectionKeepAlive? || hs.ConnectionClose?
    || hs.MatchingChunked? || hs.TransferEncodingChunked? || hs.TransferEncodingToken?
  }

  /** Behind a line with a value, before the fold. */
  predicate Foldable(t: Parser, data: Bytes, c: nat) {
    && t.state.HeaderValueLws? && Fine(t) && !t.sink.inField && 0 < c <= |data| && t.nread + c <= MAX_HEADER_SIZE
    && Blank(data[0]) && forall i :: 0 <= i < c ==> ValueChar(data[i])
  }

  function ValueMore(k: Sink, more: Bytes): Sink {
    k.(value := k.value + more)
  }

  lemma MoreByByte(k: Sink, data: Bytes, j: nat)
    requires 0 < j <= |data| && !k.inField
    ensures OnValue(ValueMore(k, data[..j - 1]), [data[j - 1]]) == ValueMore(k, data[..j])
    ensures OnValue(k, [data[0]]) == ValueMore(k, data[..1])
  {
    assert data[..j] == data[..j - 1] + [data[j - 1]];
    assert k.value + data[..j] == (k.value + data[..j - 1]) + [data[j - 1]];
    assert data[..1] == [data[0]];
  }

  /** The first byte of the fold. */
  lemma FoldStart(t: Parser, data: Bytes, c: nat)
    requires Foldable(t, data, c)
    ensures var u := RunTo(t, data, 0, 1);
            && (GivesUp(t.hs) ==> u == t.(state := HeaderValue, nread := t.nread + 1, hs := General, index := 0, sink := ValueMore(t.sink, data[..1])))
            && (t.hs.TransferEncodingTokenStart? ==>
                  u == t.(state := HeaderValue, nread := t.nread + 1, index := 0, sink := ValueMore(t.sink, data[..1])))
            && (t.hs.ContentLengthNum? ==>
                  u == t.(state := HeaderValue, nread := t.nread + 1, hs := ContentLengthWs, index := 0, sink := ValueMore(t.sink, data[..1])))
  {
    hide OnValue, ValueMore;
    MoreByByte(t.sink, data, 1);
    assert RunTo(t, data, 0, 0) == t;
  }

  /** One more byte of it. */
  lemma FoldByte(t: Parser, c: Byte, next: Option<Byte>)
    requires t.state.HeaderValue? && Fine(t) && ValueChar(c) && t.nread + 1 <= MAX_HEADER_SIZE
    ensures var m := MatchValue(t.hs, t.index, t.contentLength, c);
            Step(t, c, next) == t.(nread := t.nread + 1, hs := m.hs, index := m.index, contentLength := m.contentLength, errno := m.errno,
                                   sink := OnValue(t.sink, [c]))
  {
    hide MatchValue, OnValue;
    ValueByteIs(t, c);
  }

  /** A general value, and one whose word is given up, goes on with every byte. */
  lemma {:induction false} FoldGivesUp(t: Parser, data: Bytes, c: nat, j: nat)
    requires Foldable(t, data, c) && GivesUp(t.hs) && 0 < j <= c
    ensures RunTo(t, data, 0, j) ==
            t.(state := HeaderValue, nread := t.nread + j, hs := General, index := 0, sink := ValueMore(t.sink, data[..j]))
    decreases j
  {
    hide Step, OnValue, ValueMore, GivesUp, ValueChar, Blank, MatchValue;
    if j == 1 {
      FoldStart(t, data, c);
    } else {
      FoldGivesUp(t, data, c, j - 1);
      var u := RunTo(t, data, 0, j - 1);
      FoldByte(u, data[j - 1], Next(data, j - 1));
      GeneralStays(u.index, u.contentLength, data[j - 1]);
      MoreByByte(t.sink, data, j);
    }
  }

  /** Behind a length only spaces may follow. */
  lemma {:induction false} FoldLength(t: Parser, data: Bytes, c: nat, j: nat)
    requires Foldable(t, data, c) && t.hs.ContentLengthNum? && 0 < j <= c
    ensures var u := RunTo(t, data, 0, j);
            if SpacesOnly(data[1..j]) then
              u == t.(state := HeaderValue, nread := t.nread + j, hs := ContentLengthWs, index := 0, sink := ValueMore(t.sink, data[..j]))
            else u.errno == InvalidContentLength
    decreases j
  {
    hide OnValue, ValueMore, ValueChar, Blank, Dispatch, SpacesOnly;
    if j == 1 {
      FoldStart(t, data, c);
      assert data[1..1] == [];
      NoSpaces();
    } else {
      FoldLength(t, data, c, j - 1);
      assert data[1..j] == data[1..j - 1] + [data[j - 1]];
      OneMoreSpace(data[1..j - 1], data[j - 1]);
      var u := RunTo(t, data, 0, j - 1);
      if u.errno == OK {
        FoldByte(u, data[j - 1], Next(data, j - 1));
        MoreByByte(t.sink, data, j);
      }
    }
  }

  lemma NoSpaces()
    ensures SpacesOnly([])
  {
  }

  lemma OneMoreSpace(a: Bytes, x: Byte)
    ensures SpacesOnly(a + [x]) <==> SpacesOnly(a) && x == SPACE
  {
    assert (a + [x])[|a|] == x;
    if SpacesOnly(a + [x]) {
      forall i | 0 <= i < |a| ensures a[i] == SPACE { assert (a + [x])[i] == a[i]; }
    }
  }

  /** What is heard of a list of codings that goes on on the next line, the blank before counting as a space. */
  lemma {:induction false} FoldCodings(t: Parser, v: Bytes, data: Bytes, c: nat, j: nat)
    requires Foldable(t, data, c) && t.hs.TransferEncodingTokenStart? && v != [] && CodingsAt(v, t.hs, t.index) && 0 < j <= c
    ensures var u := RunTo(t, data, 0, j);
            && u == t.(state := HeaderValue, nread := t.nread + j, hs := u.hs, index := u.index, sink := ValueMore(t.sink, data[..j]))
            && CodingsAt(v + [SPACE] + data[1..j], u.hs, u.index)
    decreases j
  {
    hide Step, OnValue, ValueMore, ValueChar, Blank, CodingsAt, MatchValue;
    if j == 1 {
      FoldStart(t, data, c);
      SpaceHeard(v, t.hs, t.index, t.contentLength);
      assert v + [SPACE] + data[1..1] == v + [SPACE];
    } else {
      FoldCodings(t, v, data, c, j - 1);
      var u := RunTo(t, data, 0, j - 1);
      var w := v + [SPACE] + data[1..j - 1];
      FoldByte(u, data[j - 1], Next(data, j - 1));
      CodingsNext(w, u.hs, u.index, u.contentLength, data[j - 1]);
      assert v + [SPACE] + data[1..j] == w + [data[j - 1]];
      MoreByByte(t.sink, data, j);
    }
  }

  lemma SpaceHeard(v: Bytes, hs: HeaderState, index: nat, contentLength: nat)
    requires v != [] && CodingsAt(v, hs, index) && hs.TransferEncodingTokenStart?
    ensures CodingsAt(v + [SPACE], hs, 0)
  {
    CodingsNext(v, hs, index, contentLength, SPACE);
  }

  // ---------------------------------------------------------------- a folded header

  /** A header with a value, and a fold behind it. */
  predicate FoldedHeader(s: Parser, h: Header, more: Bytes) {
    && Between(s) && Inv(s) && Regular(h) && h.value != [] && (GivesLength(h) ==> !s.flags.contentLength) && Fold(more)
    && s.nread + |Line(h)| + |more| + 2 <= MAX_HEADER_SIZE
  }

  function FoldText(h: Header, more: Bytes): Bytes {
    Line(h) + (more + [CR, LF])
  }

  /** What the two lines make of the parser. */
  predicate FoldDone(s: Parser, h: Header, more: Bytes, t: Parser)
    requires more != []
  {
    if GivesLength(h) && !SpacesOnly(more[1..]) then t.errno == InvalidContentLength
    else
      && AfterLine(t) && Settled(t).sink == SinkWith(s.sink, Longer(h, more)) && t.nread == s.nread + |Line(h)| + |more| + 2
      && t.contentLength == (if GivesLength(h) then Decimal(h.value) else s.contentLength)
      && t.usesTransferEncoding == (s.usesTransferEncoding || TransferName(h.name))
      && Settled(t).flags == if EndsWithComma(h) then FlagsWith(s.flags, Longer(h, [SPACE] + more[1..]))
                             else s.flags.(upgrade := s.flags.upgrade || AsksUpgrade(h), contentLength := s.flags.contentLength || GivesLength(h))
  }

  /** Behind a folded line the value is one with the bytes of both, the blank before the second among them. Keep-alive, close and
      chunked are not heard then, even if the first line said so; but a list of transfer codings that breaks off behind a
      comma goes on. Behind a length only spaces are allowed. */
  lemma FoldRead(s: Parser, h: Header, more: Bytes)
    requires FoldedHeader(s, h, more)
    ensures FoldDone(s, h, more, Run(s, FoldText(h, more)))
  {
    hide *;
    FoldParts(s, h, more);
    HeaderRead(s, h);
    TwoLines(s, h, more + [CR, LF]);
    var t := Run(s, Line(h));
    assert Heard(s, h, t);
    LineBefore(s, h, t);
    var kind := KindHeard(s, h, t);
    RunIs(t, more + [CR, LF]);
    FoldReads(s, h, t, more, kind);
  }

  lemma FoldParts(s: Parser, h: Header, more: Bytes)
    requires FoldedHeader(s, h, more)
    ensures Between(s) && Inv(s) && Regular(h) && h.value != [] && (GivesLength(h) ==> !s.flags.contentLength) && Fold(more)
    ensures s.nread + |Line(h)| <= MAX_HEADER_SIZE && s.nread + |Line(h)| + |more| + 2 <= MAX_HEADER_SIZE
    ensures s.errno == OK && FoldText(h, more) == Line(h) + (more + [CR, LF])
  {
    hide Inv, Regular, Line, GivesLength, Fold;
  }

  /** A line and what is behind it. */
  lemma TwoLines(s: Parser, h: Header, rest: Bytes)
    requires Inv(s) && s.errno == OK && Regular(h) && rest != []
    ensures Run(s, Line(h) + rest) == Run(Run(s, Line(h)), rest)
  {
    hide Inv, Regular, Line, RunTo, Run;
    LineLength(h);
    EndsInLineFeed(s, Line(h), rest);
    CutInvariant(s, Line(h), rest);
  }

  lemma EndsInLineFeed(s: Parser, a: Bytes, b: Bytes)
    requires a != [] && b != [] && a[|a| - 1] == LF
    ensures !HazardAt(s, a + b, |a|)
  {
    hide RunTo;
  }

  /** The parser behind the first line. */
  predicate Before(s: Parser, h: Header, t: Parser) {
    && t.state.HeaderValueLws? && Fine(t) && t.sink == SinkWith(s.sink, h) && t.nread == s.nread + |Line(h)|
    && t.contentLength == (if GivesLength(h) then Decimal(h.value) else s.contentLength)
    && t.usesTransferEncoding == (s.usesTransferEncoding || TransferName(h.name))
  }

  lemma LineBefore(s: Parser, h: Header, t: Parser)
    requires LineDone(s, h, Settled(t)) && Heard(s, h, t)
    ensures Before(s, h, t) && t.nread == s.nread + |Line(h)|
  {
    hide Line, GivesLength, Decimal, TransferName, SinkWith, FlagsWith, HeardAs;
  }

  /** The bytes of the fold and its end. */
  lemma FoldData(s: Parser, h: Header, t: Parser, more: Bytes)
    requires Before(s, h, t) && Fold(more) && t.nread + |more| + 2 <= MAX_HEADER_SIZE
    ensures var data := more + [CR, LF];
            && more != [] && |data| == |more| + 2 && Foldable(t, data, |more|) && data[|more|] == CR && data[|more| + 1] == LF
            && data[..|more|] == more && data[1..|more|] == more[1..]
  {
    hide Line, GivesLength, Decimal, TransferName;
  }

  lemma KindHeard(s: Parser, h: Header, t: Parser) returns (kind: HeaderState)
    requires Heard(s, h, t)
    ensures h.value != [] && HeardAs(s, h, t, kind)
  {
    hide HeardAs;
    kind :| HeardAs(s, h, t, kind);
  }

  /** What was heard tells how the fold is taken. */
  lemma FoldKind(s: Parser, h: Header, t: Parser, kind: HeaderState)
    requires h.value != [] && HeardAs(s, h, t, kind)
    ensures GivesLength(h) <==> t.hs.ContentLengthNum?
    ensures EndsWithComma(h) <==> t.hs.TransferEncodingTokenStart?
    ensures t.hs.TransferEncodingTokenStart? ==> kind.TransferEncoding? && CodingsAt(h.value, t.hs, t.index) && t.flags == s.flags
    ensures !t.hs.ContentLengthNum? && !t.hs.TransferEncodingTokenStart? ==> GivesUp(t.hs)
    ensures !t.hs.TransferEncodingTokenStart? ==>
              t.flags == s.flags.(upgrade := s.flags.upgrade || AsksUpgrade(h), contentLength := s.flags.contentLength || GivesLength(h))
  {
    hide Spells, Decimal, Toward, CodingAt;
    NothingYet(h.value);
  }

  lemma FoldReads(s: Parser, h: Header, t: Parser, more: Bytes, kind: HeaderState)
    requires h.value != [] && HeardAs(s, h, t, kind) && Before(s, h, t) && Fold(more) && t.nread + |more| + 2 <= MAX_HEADER_SIZE
    ensures FoldDone(s, h, more, RunTo(t, more + [CR, LF], 0, |more| + 2))
  {
    hide RunTo, HeardAs, Before, Fold, FoldDone, Foldable, GivesLength, EndsWithComma, SpacesOnly, GivesUp, CodingsAt, ValueMore;
    var data := more + [CR, LF];
    FoldData(s, h, t, more);
    FoldKind(s, h, t, kind);
    var u := RunTo(t, data, 0, |more|);
    if GivesLength(h) {
      FoldLength(t, data, |more|, |more|);
    } else if EndsWithComma(h) {
      FoldCodings(t, h.value, data, |more|, |more|);
    } else {
      FoldGivesUp(t, data, |more|, |more|);
    }
    FoldEnds(t, data, |more|);
    FoldIsDone(s, h, t, more, kind, u, RunTo(t, data, 0, |more| + 2));
  }

  lemma FoldEnds(t: Parser, data: Bytes, c: nat)
    requires c + 2 <= |data| && data[c] == CR && data[c + 1] == LF
    ensures var u, v := RunTo(t, data, 0, c), RunTo(t, data, 0, c + 2);
            && (u.errno != OK ==> v == u)
            && (u.state.HeaderValue? && Fine(u) && u.nread + 2 <= MAX_HEADER_SIZE ==> v == u.(nread := u.nread + 2, state := HeaderValueLws))
  {
    hide Dispatch;
    var u := RunTo(t, data, 0, c);
    if u.errno != OK {
      assert RunTo(t, data, 0, c + 1) == u;
    } else if u.state.HeaderValue? && Fine(u) && u.nread + 2 <= MAX_HEADER_SIZE {
      LineEndRead(u, data, c);
      RunJoins(t, data, 0, c, c + 2);
    }
  }

  /** The state behind the bytes of the fold. */
  predicate FoldTaken(h: Header, t: Parser, more: Bytes, u: Parser)
    requires more != [] && h.value != []
  {
    if GivesLength(h) && !SpacesOnly(more[1..]) then u.errno == InvalidContentLength
    else
      && u == t.(state := HeaderValue, nread := t.nread + |more|, hs := u.hs, index := u.index, sink := ValueMore(t.sink, more))
      && if GivesLength(h) then u.hs.ContentLengthWs?
         else if EndsWithComma(h) then CodingsAt(h.value + [SPACE] + more[1..], u.hs, u.index)
         else u.hs.General?
  }

  lemma FoldIsDone(s: Parser, h: Header, t: Parser, more: Bytes, kind: HeaderState, u: Parser, v: Parser)
    requires h.value != [] && HeardAs(s, h, t, kind) && Before(s, h, t) && Fold(more) && t.nread + |more| + 2 <= MAX_HEADER_SIZE
    requires FoldTaken(h, t, more, u)
    requires u.errno != OK ==> v == u
    requires u.state.HeaderValue? && Fine(u) && u.nread + 2 <= MAX_HEADER_SIZE ==> v == u.(nread := u.nread + 2, state := HeaderValueLws)
    ensures FoldDone(s, h, more, v)
  {
    hide Line, Decimal, TransferName, SpacesOnly, FlagsWith, CodingsAt, EndsWithComma, GivesLength, AsksUpgrade, HeardAs;
    FoldKind(s, h, t, kind);
    MoreIsLonger(s.sink, h, more);
    if EndsWithComma(h) { FoldAsks(s, h, more, t, kind, v); }
  }

  lemma MoreIsLonger(k: Sink, h: Header, more: Bytes)
    ensures ValueMore(SinkWith(k, h), more) == SinkWith(k, Longer(h, more))
  {
  }

  lemma FoldAsks(s: Parser, h: Header, more: Bytes, t: Parser, kind: HeaderState, v: Parser)
    requires h.value != [] && more != [] && HeardAs(s, h, t, kind) && EndsWithComma(h)
    requires CodingsAt(h.value + [SPACE] + more[1..], v.hs, v.index) && v.flags == s.flags
    ensures FinishHeader(v).flags == FlagsWith(s.flags, Longer(h, [SPACE] + more[1..]))
  {
    hide Spells, CodingsAt, FlagsWith, CodingAt, FinishHeader;
    FoldKind(s, h, t, kind);
    var l := Longer(h, [SPACE] + more[1..]);
    assert h.value + ([SPACE] + more[1..]) == h.value + [SPACE] + more[1..];
    WhatItAsks(l, kind, s.flags, v);
  }
}
