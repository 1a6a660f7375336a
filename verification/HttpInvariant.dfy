/** What every reachable state of the byte machine satisfies: the source's assertions. */
module HttpInvariant {
  import opened Wrappers
  import opened HttpMachine

  predicate ChunkState(state: State) {
    || state.ChunkSizeStart? || state.ChunkSize? || state.ChunkParameters? || state.ChunkSizeAlmostDone?
    || state.ChunkData? || state.ChunkDataAlmostDone? || state.ChunkDataDone?
  }

  predicate HeaderPhase(state: State) {
    ParsingHeader(state) && !ChunkState(state) && !state.HeadersDone?
  }

  /** The assertions on lengths, F_CHUNKED and nread (lines 1725-1726, 1772-1773, 1787, 1823, 1836,
      1855-1857, 1875-1876 and 1883 of the source), and what keeps them true. */
  predicate LengthsOk(s: Parser) {
    && !s.state.HeaderValueStart?
    && s.contentLength <= ULLONG_MAX
    && (ChunkState(s.state) ==> s.flags.chunked)
    && (s.state.BodyIdentity? || s.state.ChunkData? ==> 0 < s.contentLength < ULLONG_MAX)
    && (s.state.ChunkDataAlmostDone? ==> s.contentLength == 0)
    && (ChunkState(s.state) && !s.state.ChunkSizeStart? ==> s.contentLength < ULLONG_MAX)
    && (HeaderPhase(s.state) && !s.flags.trailing ==>
          if s.flags.contentLength then s.contentLength < ULLONG_MAX else s.contentLength == ULLONG_MAX)
  }

  predicate FieldMatcherOk(hs: HeaderState, index: nat) {
    match hs
    case C => index == 0
    case CO => index == 1
    case CON => index == 2
    case MatchingConnection => 3 <= index < 9
    case MatchingProxyConnection => index < 15
    case MatchingContentLength => 3 <= index < 13
    case MatchingTransferEncoding => index < 16
    case MatchingUpgrade => index < 6
    case _ => hs in {General, Connection, ContentLength, TransferEncoding, Upgrade}
  }

  /** What the matcher may be doing inside a value. `TransferEncoding` and `ContentLength` have been
      left by then; `Connection` is listed apart, see `AtAssertion`. */
  predicate ValueMatcherOk(hs: HeaderState, index: nat, lengthFlagged: bool) {
    match hs
    case MatchingChunked => index < 6
    case MatchingKeepAlive => index < 9
    case MatchingClose => index < 4
    case ContentLengthNum => lengthFlagged
    case TransferEncodingTokenStart => index == 0
    case _ =>
      || hs.General? || hs.ContentLengthWs? || hs.TransferEncodingToken?
      || hs.TransferEncodingChunked? || hs.ConnectionKeepAlive? || hs.ConnectionClose? || hs.Connection?
  }

  predicate InName(state: State) {
    || state.HeaderField? || state.HeaderValueDiscardWs? || state.HeaderValueDiscardWsAlmostDone?
    || state.HeaderValueDiscardLws?
  }

  predicate InValue(state: State) {
    state.HeaderValue? || state.HeaderAlmostDone? || state.HeaderValueLws?
  }

  predicate MatcherOk(s: Parser) {
    && (InName(s.state) ==> FieldMatcherOk(s.hs, s.index))
    && (InValue(s.state) ==> ValueMatcherOk(s.hs, s.index, s.flags.contentLength))
  }

  predicate Inv(s: Parser) {
    && s.nread <= MAX_HEADER_SIZE
    && (s.state.ChunkSizeStart? ==> s.nread == 0)
    && LengthsOk(s)
    && MatcherOk(s)
  }

  /** The matcher is still at h_connection although a value has begun. */
  predicate AtAssertion(s: Parser) {
    InValue(s.state) && s.hs.Connection?
  }

  /** The byte on which `assert(0 && "Shouldn't get here.")` fails, line 1397: one that the tests before it in
      s_header_value let pass. */
  predicate FailsAssertion(s: Parser, ch: Byte) {
    && s.errno == OK && !Exited(s) && s.nread < MAX_HEADER_SIZE
    && s.state.HeaderValue? && (s.hs.Connection? || s.hs.TransferEncoding?) && Passes(s.cfg, ch)
  }

  /** Neither the end of a line nor a byte that is refused inside a value. */
  predicate Passes(cfg: Config, ch: Byte) {
    ch != CR && ch != LF && (cfg.lenient || IsHeaderChar(ch))
  }

  /** A NUL where the value of a Connection header begins. */
  predicate NulStart(s: Parser, ch: Byte) {
    && s.errno == OK && !Exited(s) && s.nread < MAX_HEADER_SIZE
    && s.state.HeaderValueDiscardWs? && s.hs.Connection? && ch == 0
  }

  lemma InitialOk(cfg: Config, nread: nat)
    requires nread <= MAX_HEADER_SIZE
    ensures Inv(Initial(cfg, nread)) && !AtAssertion(Initial(cfg, nread))
  {
  }

  lemma HeadersDoneKeeps(s: Parser, ch: Byte)
    requires s.state.HeadersDone? && LengthsOk(s) && s.nread <= MAX_HEADER_SIZE
    ensures var t := HeadersDoneStep(s, ch); t.errno == OK ==> Inv(t) && !AtAssertion(t)
  {
  }

  lemma HeadersAlmostDoneKeeps(s: Parser, ch: Byte)
    requires s.state.HeadersAlmostDone? && LengthsOk(s) && s.nread <= MAX_HEADER_SIZE
    ensures var t := HeadersAlmostDoneStep(s, ch); t.errno == OK ==> Inv(t) && !AtAssertion(t)
  {
    HeadersDoneKeeps(s.(state := HeadersDone, upgrade := s.flags.upgrade || s.cfg.connect,
                        sink := OnHeadersComplete(s.sink)), ch);
  }

  lemma FieldStartKeeps(s: Parser, ch: Byte)
    requires HeaderPhase(s.state) && LengthsOk(s) && s.nread <= MAX_HEADER_SIZE
    ensures var t := FieldStart(s, ch); t.errno == OK ==> Inv(t) && !AtAssertion(t)
  {
    hide HeadersAlmostDoneStep;
    if ch == LF { HeadersAlmostDoneKeeps(s.(state := HeadersAlmostDone), ch); }
  }

  lemma ValueStartKeeps(s: Parser, ch: Byte, next: Option<Byte>)
    requires HeaderPhase(s.state) && LengthsOk(s.(state := HeaderFieldStart))
    ensures var t := ValueStart(s, ch, next); t.errno == OK ==> LengthsOk(t) && ValueMatcherOk(t.hs, t.index, t.flags.contentLength)
    ensures ValueStart(s, ch, next).nread == s.nread && ValueStart(s, ch, next).state.HeaderValue?
  {
    hide FieldMatcherOk;
    match s.hs
    case Upgrade =>
    case TransferEncoding =>
    case ContentLength =>
    case Connection =>
    case _ =>
  }

  lemma ValueStartAtAssertion(s: Parser, ch: Byte, next: Option<Byte>)
    ensures var t := ValueStart(s, ch, next); t.errno == OK && t.hs.Connection? <==> s.errno == OK && s.hs.Connection? && (ch == 0 || ch == SPACE)
  {
    hide OnValue;
  }

  lemma FieldKeeps(s: Parser, ch: Byte)
    requires s.state.HeaderField? && LengthsOk(s) && MatcherOk(s) && s.nread <= MAX_HEADER_SIZE
    ensures var t := Field(s, ch); t.errno == OK ==> Inv(t) && !AtAssertion(t)
  {
    hide OnField, Token;
  }

  lemma ContentLengthDigitBound(contentLength: nat, ch: Byte)
    requires contentLength <= ULLONG_MAX
    ensures var (n, e) := ContentLengthDigit(contentLength, ch);
            && (e == OK <==> IsNum(ch) && contentLength <= 1844674407370955160)
            && (e == OK ==> n == contentLength * 10 + (ch - ZERO) < ULLONG_MAX)
            && (e != OK ==> n == contentLength)
  {
  }

  lemma MatchValueKeeps(s: Parser, ch: Byte)
    requires LengthsOk(s) && ValueMatcherOk(s.hs, s.index, s.flags.contentLength) && s.state.HeaderValue?
    ensures var m := MatchValue(s.hs, s.index, s.contentLength, ch);
            m.errno == OK ==>
              && ValueMatcherOk(m.hs, m.index, s.flags.contentLength)
              && (m.hs.Connection? ==> s.hs.Connection?)
              && (m.contentLength == s.contentLength || (s.flags.contentLength && m.contentLength < ULLONG_MAX))
  {
    hide LengthsOk, Lower, Token;
    assert s.contentLength <= ULLONG_MAX by { assert LengthsOk(s); LengthBound(s); }
    ContentLengthDigitBound(s.contentLength, ch);
  }

  lemma LengthBound(s: Parser)
    requires LengthsOk(s)
    ensures s.contentLength <= ULLONG_MAX
  {
  }

  lemma ValueKeeps(s: Parser, ch: Byte)
    requires s.state.HeaderValue? && LengthsOk(s) && MatcherOk(s) && s.nread <= MAX_HEADER_SIZE
    ensures var t := Value(s, ch); t.errno == OK ==> Inv(t) && (AtAssertion(t) ==> AtAssertion(s))
  {
    hide MatchValue, IsHeaderChar, OnValue, ValueMatcherOk, FieldMatcherOk;
    MatchValueKeeps(s, ch);
  }

  lemma ChunkSizeKeeps(s: Parser, ch: Byte)
    requires s.state.ChunkSize? && LengthsOk(s)
    ensures var t := ChunkSizeStep(s, ch); t.errno == OK ==> LengthsOk(t) && t.nread == s.nread && MatcherOk(t)
  {
  }

  lemma ValueLwsKeeps(s: Parser, ch: Byte, next: Option<Byte>)
    requires s.state.HeaderValueLws? && LengthsOk(s) && MatcherOk(s) && s.nread <= MAX_HEADER_SIZE && s.errno == OK
    ensures var t := ValueLws(s, ch, next); t.errno == OK ==> Inv(t) && (AtAssertion(t) ==> AtAssertion(s))
  {
    hide ValueStart, FieldStart;
    if ch == SPACE || ch == TAB {
      var v := s.(state := HeaderValueStart, hs := if s.hs == ContentLengthNum then ContentLengthWs else s.hs);
      ValueStartKeeps(v, ch, next);
      ValueStartAtAssertion(v, ch, next);
    } else {
      FieldStartKeeps(FinishHeader(s), ch);
    }
  }

  lemma DiscardKeeps(s: Parser, ch: Byte, next: Option<Byte>)
    requires s.state.HeaderValueDiscardWs? && LengthsOk(s) && MatcherOk(s) && s.errno == OK && s.nread <= MAX_HEADER_SIZE
    ensures var t := DiscardWs(s, ch, next); t.errno == OK ==> Inv(t)
    ensures var t := DiscardWs(s, ch, next); t.errno == OK && AtAssertion(t) <==> s.hs.Connection? && ch == 0
  {
    hide ValueStart, FieldMatcherOk, ValueMatcherOk;
    ValueStartKeeps(s, ch, next);
    ValueStartAtAssertion(s, ch, next);
  }

  lemma DiscardLwsKeeps(s: Parser, ch: Byte)
    requires s.state.HeaderValueDiscardLws? && LengthsOk(s) && MatcherOk(s) && s.nread <= MAX_HEADER_SIZE
    ensures var t := DiscardLws(s, ch); t.errno == OK ==> Inv(t) && !AtAssertion(t)
  {
    hide FieldStart, FieldMatcherOk, ValueMatcherOk;
    FieldStartKeeps(s.(state := HeaderFieldStart, sink := OnValue(s.sink, [])), ch);
  }

  lemma BodyKeeps(s: Parser, ch: Byte, next: Option<Byte>)
    requires s.state.BodyIdentity? || s.state.BodyIdentityEof? || s.state.MessageDone?
    requires Inv(s) && s.errno == OK
    ensures var t := Dispatch(s, ch, next); t.errno == OK ==> Inv(t) && !AtAssertion(t)
  {
  }

  lemma ChunkKeeps(s: Parser, ch: Byte, next: Option<Byte>)
    requires ChunkState(s.state) && s.errno == OK && LengthsOk(s) && s.nread <= MAX_HEADER_SIZE
    ensures var t := Dispatch(s, ch, next); t.errno == OK ==> Inv(t) && !AtAssertion(t)
  {
    hide OnBody, Unhex, FieldMatcherOk, ValueMatcherOk;
    if s.state.ChunkSize? { ChunkSizeKeeps(s, ch); }
  }

  /** The states that only wait for a line feed. */
  lemma WaitKeeps(s: Parser, ch: Byte, next: Option<Byte>)
    requires s.state.HeaderValueDiscardWsAlmostDone? || s.state.HeaderAlmostDone?
    requires s.errno == OK && LengthsOk(s) && MatcherOk(s) && s.nread <= MAX_HEADER_SIZE
    ensures var t := Dispatch(s, ch, next); t.errno == OK ==> Inv(t) && (AtAssertion(t) ==> AtAssertion(s))
  {
    hide FieldMatcherOk, ValueMatcherOk;
  }

  /** Every header state but the chunk ones, after the byte has been counted. */
  lemma HeaderKeeps(s: Parser, ch: Byte, next: Option<Byte>)
    requires HeaderPhase(s.state) || s.state.HeadersDone?
    requires s.errno == OK && LengthsOk(s) && MatcherOk(s) && s.nread <= MAX_HEADER_SIZE
    ensures var t := Dispatch(s, ch, next);
            && (t.errno == OK ==> Inv(t))
            && (!AtAssertion(s) ==>
                  (t.errno == OK && AtAssertion(t) <==> s.state.HeaderValueDiscardWs? && s.hs.Connection? && ch == 0))
  {
    hide Inv, AtAssertion, LengthsOk, MatcherOk, FieldStart, Field, DiscardWs, DiscardLws, ValueLws, Value,
      HeadersAlmostDoneStep, HeadersDoneStep;
    match s.state
    case HeaderFieldStart => FieldStartKeeps(s, ch);
    case HeaderField => FieldKeeps(s, ch);
    case HeaderValueDiscardWs => DiscardKeeps(s, ch, next);
    case HeaderValueDiscardLws => DiscardLwsKeeps(s, ch);
    case HeaderValueLws => ValueLwsKeeps(s, ch, next);
    case HeaderValue => ValueKeeps(s, ch);
    case HeadersAlmostDone => HeadersAlmostDoneKeeps(s, ch);
    case HeadersDone => HeadersDoneKeeps(s, ch);
    case HeaderValueStart => NotStored(s);
    case _ => WaitKeeps(s, ch, next);
  }

  lemma NotStored(s: Parser)
    requires LengthsOk(s)
    ensures !s.state.HeaderValueStart?
  {
  }

  /** The machine either stops with an error or keeps the invariant. The matcher stays at h_connection inside a value
      exactly if a NUL begins the value; no other byte leads to the one assertion that can fail. */
  lemma StepKeepsInv(s: Parser, ch: Byte, next: Option<Byte>)
    requires s.errno == OK && Inv(s)
    ensures var t := Step(s, ch, next);
            && (t.errno == OK ==> Inv(t))
            && (!AtAssertion(s) ==>
                  (t.errno == OK && AtAssertion(t) <==>
                     NulStart(s, ch)))
  {
    if !Exited(s) && Counted(s).errno == OK {
      var c := Counted(s);
      if ChunkState(s.state) {
        ChunkKeeps(c, ch, next);
      } else if ParsingHeader(s.state) {
        HeaderKeeps(c, ch, next);
      } else {
        BodyKeeps(c, ch, next);
      }
    }
  }
}
