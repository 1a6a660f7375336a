/** The assertion at line 1397 of `http_parser_merged.h`: exactly which requests make it fail. */
module HttpAssertion {
  import opened Wrappers
  import opened HttpMachine
  import opened HttpInvariant
  import opened HttpRuns
  import opened HttpExecute
  import opened HttpMeaning

  // ---------------------------------------------------------------- folded lines

  /** Where line breaks, each followed by a space, leave a reader; a tab would move the matcher on. */
  datatype Fold = Inside | BehindCr | BehindLf | Broken

  function FoldStep(f: Fold, ch: Byte): Fold {
    match f
    case Inside => if ch == CR then BehindCr else if ch == LF then BehindLf else Broken
    case BehindCr => if ch == LF then BehindLf else Broken
    case BehindLf => if ch == SPACE then Inside else Broken
    case Broken => Broken
  }

  function Folded(data: Bytes, i: nat, j: nat): Fold
    requires i <= j <= |data|
    decreases j
  {
    if i == j then Inside else FoldStep(Folded(data, i, j - 1), data[j - 1])
  }

  function FoldOf(state: State): Fold {
    match state
    case HeaderValue => Inside
    case HeaderAlmostDone => BehindCr
    case HeaderValueLws => BehindLf
    case _ => Broken
  }

  // ---------------------------------------------------------------- the matcher inside a value

  /** The matcher is at h_connection inside a value, and the parser has not left. */
  predicate Lingers(s: Parser) {
    AtAssertion(s) && s.errno == OK && !Exited(s)
  }

  lemma NulLingers(s: Parser, ch: Byte, next: Option<Byte>)
    requires NulStart(s, ch)
    ensures var t := Step(s, ch, next); Lingers(t) && t.state.HeaderValue? && t.nread == s.nread + 1 && t.cfg == s.cfg
  {
    hide OnValue;
  }

  lemma FoldLingers(s: Parser, ch: Byte, next: Option<Byte>)
    requires Lingers(s) && s.nread < MAX_HEADER_SIZE && FoldStep(FoldOf(s.state), ch) != Broken
    ensures var t := Step(s, ch, next);
            Lingers(t) && FoldOf(t.state) == FoldStep(FoldOf(s.state), ch) && t.nread == s.nread + 1 && t.cfg == s.cfg
  {
    hide OnValue, FieldStart;
  }

  /** Nothing else brings the matcher there. */
  lemma LingersFrom(s: Parser, ch: Byte, next: Option<Byte>)
    requires s.errno == OK && !Exited(s) && Inv(s) && !FailsAssertion(s, ch)
    requires var t := Step(s, ch, next); t.errno == OK && AtAssertion(t)
    ensures Lingers(Step(s, ch, next))
    ensures NulStart(s, ch) || (Lingers(s) && FoldOf(Step(s, ch, next).state) == FoldStep(FoldOf(s.state), ch))
    ensures Step(s, ch, next).nread == s.nread + 1 && Step(s, ch, next).cfg == s.cfg
  {
    StaysInside(s, ch, next);
    if AtAssertion(s) {
      FoldsOn(s, ch, next);
    } else {
      StepKeepsInv(s, ch, next);
    }
  }

  /** Only the states around a value lead into one. */
  lemma StaysInside(s: Parser, ch: Byte, next: Option<Byte>)
    requires s.errno == OK && !Exited(s)
    requires var t := Step(s, ch, next); t.errno == OK && InValue(t.state)
    ensures var t := Step(s, ch, next); !Exited(t) && t.nread == s.nread + 1 && t.cfg == s.cfg
  {
    hide Dispatch;
    CountedStep(s, ch, next);
    var c := Counted(s);
    if ParsingHeader(s.state) {
      InsideDispatch(c, ch, next);
    } else {
      OutsideDispatch(s, ch, next);
    }
  }

  lemma OutsideDispatch(s: Parser, ch: Byte, next: Option<Byte>)
    requires !ParsingHeader(s.state)
    ensures !InValue(Dispatch(s, ch, next).state)
  {
    hide OnBody;
  }

  predicate AroundValue(state: State) {
    || state.HeaderValueDiscardWs? || state.HeaderValueStart? || state.HeaderValue? || state.HeaderAlmostDone? || state.HeaderValueLws?
  }

  lemma InsideDispatch(s: Parser, ch: Byte, next: Option<Byte>)
    requires s.errno == OK && ParsingHeader(s.state)
    requires var t := Dispatch(s, ch, next); t.errno == OK && InValue(t.state)
    ensures var t := Dispatch(s, ch, next); t.upgrade == s.upgrade && t.completions == s.completions && t.nread == s.nread && t.cfg == s.cfg
  {
    hide Dispatch;
    if AroundValue(s.state) { AroundDispatch(s, ch, next); } else { AwayDispatch(s, ch, next); }
  }

  lemma AroundDispatch(s: Parser, ch: Byte, next: Option<Byte>)
    requires s.errno == OK && AroundValue(s.state)
    requires var t := Dispatch(s, ch, next); t.errno == OK && InValue(t.state)
    ensures var t := Dispatch(s, ch, next); t.upgrade == s.upgrade && t.completions == s.completions && t.nread == s.nread && t.cfg == s.cfg
  {
    hide FieldStart, Field, ValueStart, ValueByte, HeadersAlmostDoneStep, HeadersDoneStep, ChunkSizeStartStep, ChunkSizeStep,
      ChunkSizeAlmostDoneStep;
    FieldStartLeaves(FinishHeader(s), ch);
    FromValueStart(s, ch, next);
    FromValueStart(s.(state := HeaderValueStart, hs := if s.hs == ContentLengthNum then ContentLengthWs else s.hs), ch, next);
    FromValueByte(s, ch);
  }

  lemma AwayDispatch(s: Parser, ch: Byte, next: Option<Byte>)
    requires s.errno == OK && ParsingHeader(s.state) && !AroundValue(s.state)
    ensures var t := Dispatch(s, ch, next); t.errno == OK ==> !InValue(t.state)
  {
    hide FieldStart, Field, ValueStart, ValueByte, HeadersAlmostDoneStep, HeadersDoneStep, ChunkSizeStartStep, ChunkSizeStep,
      ChunkSizeAlmostDoneStep, OnValue;
    FromName(s, ch);
    FieldStartLeaves(s, ch);
    FieldStartLeaves(s.(state := HeaderFieldStart, sink := OnValue(s.sink, [])), ch);
    FromChunk(s, ch);
    FromHeadersDone(s, ch);
  }

  lemma FromName(s: Parser, ch: Byte)
    requires s.errno == OK
    ensures Field(s, ch).errno == OK && InValue(Field(s, ch).state) ==> s.state == Field(s, ch).state
  {
    hide OnField, MatchField, Token;
  }

  lemma FieldStartLeaves(s: Parser, ch: Byte)
    requires s.errno == OK
    ensures FieldStart(s, ch).errno == OK ==> !InValue(FieldStart(s, ch).state)
  {
    hide OnField, Token, OnHeadersComplete;
  }

  lemma FromValueStart(s: Parser, ch: Byte, next: Option<Byte>)
    ensures var t := ValueStart(s, ch, next); t.upgrade == s.upgrade && t.completions == s.completions && t.nread == s.nread && t.cfg == s.cfg
  {
    hide OnValue;
  }

  lemma FromValueByte(s: Parser, ch: Byte)
    ensures var t := ValueByte(s, ch); t.upgrade == s.upgrade && t.completions == s.completions && t.nread == s.nread && t.cfg == s.cfg
  {
    hide OnValue, MatchValue, IsHeaderChar;
  }

  lemma FromChunk(s: Parser, ch: Byte)
    ensures InValue(ChunkSizeStartStep(s, ch).state) ==> s.state == ChunkSizeStartStep(s, ch).state
    ensures InValue(ChunkSizeStep(s, ch).state) ==> s.state == ChunkSizeStep(s, ch).state
    ensures InValue(ChunkSizeAlmostDoneStep(s, ch).state) ==> s.state == ChunkSizeAlmostDoneStep(s, ch).state
  {
    hide Unhex;
  }

  lemma FromHeadersDone(s: Parser, ch: Byte)
    ensures InValue(HeadersDoneStep(s, ch).state) ==> s.state == HeadersDoneStep(s, ch).state
    ensures InValue(HeadersAlmostDoneStep(s, ch).state) ==> s.state == HeadersAlmostDoneStep(s, ch).state
  {
    hide OnHeadersComplete;
  }

  lemma FoldsOn(s: Parser, ch: Byte, next: Option<Byte>)
    requires AtAssertion(s) && s.errno == OK && !Exited(s) && !FailsAssertion(s, ch)
    requires var t := Step(s, ch, next); t.errno == OK && AtAssertion(t)
    ensures FoldOf(Step(s, ch, next).state) == FoldStep(FoldOf(s.state), ch)
  {
    hide OnValue, OnField, OnHeadersComplete, MatchField, Token, IsHeaderChar;
  }

  // ---------------------------------------------------------------- whole runs

  /** The run of the machine on `data` fails the assertion at byte `j`. */
  predicate FailsAt(s: Parser, data: Bytes, j: nat)
    requires j < |data|
  {
    FailsAssertion(RunTo(s, data, 0, j), data[j])
  }

  /** A Connection value begins with NUL at `i`; up to `j` only folded lines follow, and at `j`, within the size limit,
      a byte that may stand in a value. */
  predicate NulValue(s: Parser, data: Bytes, i: nat, j: nat)
    requires i < j < |data|
  {
    var t := RunTo(s, data, 0, i);
    && NulStart(t, data[i]) && Folded(data, i + 1, j) == Inside && Passes(s.cfg, data[j])
    && t.nread + (j - i) < MAX_HEADER_SIZE
  }

  lemma {:induction false} CfgStays(s: Parser, data: Bytes, j: nat)
    requires j <= |data|
    ensures RunTo(s, data, 0, j).cfg == s.cfg
    decreases j
  {
    if j > 0 {
      CfgStays(s, data, j - 1);
      StepCfg(RunTo(s, data, 0, j - 1), data[j - 1], Next(data, j - 1));
    }
  }

  lemma StepCfg(s: Parser, ch: Byte, next: Option<Byte>)
    ensures Step(s, ch, next).cfg == s.cfg
  {
    hide Dispatch;
    var c := Counted(s);
    if AroundValue(s.state) { AroundCfg(c, ch, next); } else { AwayCfg(c, ch, next); }
  }

  lemma AroundCfg(s: Parser, ch: Byte, next: Option<Byte>)
    requires AroundValue(s.state)
    ensures Dispatch(s, ch, next).cfg == s.cfg
  {
    hide FieldStart, ValueStart, ValueByte, ValueLws;
    FoldedCfg(s, ch, next);
    FromValueStart(s, ch, next);
    FromValueByte(s, ch);
  }

  lemma FoldedCfg(s: Parser, ch: Byte, next: Option<Byte>)
    ensures ValueLws(s, ch, next).cfg == s.cfg
  {
    hide FieldStart, ValueStart;
    HeaderCfg(FinishHeader(s), ch);
    FromValueStart(s.(state := HeaderValueStart, hs := if s.hs == ContentLengthNum then ContentLengthWs else s.hs), ch, next);
  }

  lemma AwayCfg(s: Parser, ch: Byte, next: Option<Byte>)
    requires !AroundValue(s.state)
    ensures Dispatch(s, ch, next).cfg == s.cfg
  {
    hide FieldStart, Field, HeadersAlmostDoneStep, HeadersDoneStep, ChunkSizeStartStep, ChunkSizeStep,
      ChunkSizeAlmostDoneStep, OnValue, OnBody;
    HeaderCfg(s, ch);
    HeaderCfg(s.(state := HeaderFieldStart, sink := OnValue(s.sink, [])), ch);
  }

  lemma HeaderCfg(s: Parser, ch: Byte)
    ensures FieldStart(s, ch).cfg == s.cfg && Field(s, ch).cfg == s.cfg
    ensures HeadersAlmostDoneStep(s, ch).cfg == s.cfg && HeadersDoneStep(s, ch).cfg == s.cfg
    ensures ChunkSizeStartStep(s, ch).cfg == s.cfg && ChunkSizeStep(s, ch).cfg == s.cfg && ChunkSizeAlmostDoneStep(s, ch).cfg == s.cfg
  {
    hide OnField, MatchField, Token, OnHeadersComplete, Unhex;
  }

  /** Folded lines keep the matcher where the NUL left it. */
  lemma {:induction false} FoldsLinger(s: Parser, data: Bytes, i: nat, j: nat)
    requires i < j <= |data| && NulStart(RunTo(s, data, 0, i), data[i])
    requires Folded(data, i + 1, j) != Broken && RunTo(s, data, 0, i).nread + (j - i) <= MAX_HEADER_SIZE
    ensures var t := RunTo(s, data, 0, j);
            && Lingers(t) && FoldOf(t.state) == Folded(data, i + 1, j)
            && t.nread == RunTo(s, data, 0, i).nread + (j - i)
    decreases j
  {
    hide Step, NulStart, Lingers, FoldOf, FoldStep;
    if j == i + 1 {
      NulLingers(RunTo(s, data, 0, i), data[i], Next(data, i));
      ValueFold(RunTo(s, data, 0, j));
    } else {
      BrokenStays(data, i + 1, j);
      FoldsLinger(s, data, i, j - 1);
      FoldLingers(RunTo(s, data, 0, j - 1), data[j - 1], Next(data, j - 1));
    }
  }

  lemma ValueFold(s: Parser)
    ensures s.state.HeaderValue? <==> FoldOf(s.state) == Inside
  {
  }

  lemma BrokenStays(data: Bytes, i: nat, j: nat)
    requires i < j <= |data| && Folded(data, i, j) != Broken
    ensures Folded(data, i, j - 1) != Broken
  {
  }

  /** Whenever the matcher is there, and the assertion did not fail before, a NUL and folded lines led there. */
  lemma {:induction false} NulBefore(s: Parser, data: Bytes, j: nat) returns (i: nat)
    requires 0 < j <= |data| && s.errno == OK && !Exited(s) && Inv(s) && !AtAssertion(s)
    requires forall k :: 0 <= k < j ==> !FailsAt(s, data, k)
    requires RunTo(s, data, 0, j).errno == OK && AtAssertion(RunTo(s, data, 0, j))
    ensures i < j && NulStart(RunTo(s, data, 0, i), data[i]) && Lingers(RunTo(s, data, 0, j))
    ensures Folded(data, i + 1, j) == FoldOf(RunTo(s, data, 0, j).state)
    ensures RunTo(s, data, 0, j).nread == RunTo(s, data, 0, i).nread + (j - i)
    decreases j
  {
    hide Step, NulStart, Inv, AtAssertion, FoldOf, FoldStep, FailsAssertion;
    var t := RunTo(s, data, 0, j - 1);
    StepErrno(t, data[j - 1], Next(data, j - 1));
    ReachableOk(s, data, 0, j - 1);
    assert !FailsAt(s, data, j - 1);
    if Exited(t) {
      StepExited(t, data[j - 1], Next(data, j - 1));
      i := NulBefore(s, data, j - 1);
      assert false;
    }
    LingersFrom(t, data[j - 1], Next(data, j - 1));
    if NulStart(t, data[j - 1]) {
      i := j - 1;
      NulLingers(t, data[j - 1], Next(data, j - 1));
      ValueFold(RunTo(s, data, 0, j));
    } else {
      assert j > 1;
      i := NulBefore(s, data, j - 1);
    }
  }

  lemma StepErrno(s: Parser, ch: Byte, next: Option<Byte>)
    ensures Step(s, ch, next).errno == OK ==> s.errno == OK
  {
    hide Dispatch;
  }

  lemma StepExited(s: Parser, ch: Byte, next: Option<Byte>)
    requires Exited(s)
    ensures Step(s, ch, next) == s
  {
  }

  /** The assertion fails on a request if and only if a Connection value in it begins with NUL and goes on, possibly
      behind folded lines, with a byte that may stand in a value. */
  lemma AssertionFailsIff(s: Parser, data: Bytes)
    requires s.errno == OK && !Exited(s) && Inv(s) && !AtAssertion(s)
    ensures (exists j :: 0 <= j < |data| && FailsAt(s, data, j)) <==>
            (exists i, j :: 0 <= i < j < |data| && NulValue(s, data, i, j))
  {
    hide RunTo, Inv, AtAssertion, Folded, FailsAt, NulValue;
    if j :| 0 <= j < |data| && FailsAt(s, data, j) {
      var first := FirstFailure(s, data, j);
      var i := NulBehind(s, data, first);
      assert NulValue(s, data, i, first);
    }
    if i, j :| 0 <= i < j < |data| && NulValue(s, data, i, j) {
      NulFails(s, data, i, j);
      assert FailsAt(s, data, j);
    }
  }

  lemma {:induction false} FirstFailure(s: Parser, data: Bytes, j: nat) returns (first: nat)
    requires j < |data| && FailsAt(s, data, j)
    ensures first <= j && FailsAt(s, data, first) && forall k :: 0 <= k < first ==> !FailsAt(s, data, k)
  {
    hide FailsAt;
    if k :| 0 <= k < j && FailsAt(s, data, k) { first := FirstFailure(s, data, k); } else { first := j; }
  }

  lemma NulBehind(s: Parser, data: Bytes, j: nat) returns (i: nat)
    requires s.errno == OK && !Exited(s) && Inv(s) && !AtAssertion(s)
    requires j < |data| && FailsAt(s, data, j) && forall k :: 0 <= k < j ==> !FailsAt(s, data, k)
    ensures i < j && NulValue(s, data, i, j)
  {
    hide RunTo, Step, Folded;
    var t := RunTo(s, data, 0, j);
    ReachableOk(s, data, 0, j);
    CfgStays(s, data, j);
    NoTransferEncoding(t);
    if j == 0 { NoBytes(s, data, 0); }
    i := NulBefore(s, data, j);
  }

  lemma NoTransferEncoding(s: Parser)
    requires Inv(s) && s.state.HeaderValue?
    ensures !s.hs.TransferEncoding?
  {
  }

  lemma NulFails(s: Parser, data: Bytes, i: nat, j: nat)
    requires i < j < |data| && NulValue(s, data, i, j)
    ensures FailsAt(s, data, j)
  {
    hide RunTo, Step, Folded;
    FoldsLinger(s, data, i, j);
    CfgStays(s, data, j);
    ValueFold(RunTo(s, data, 0, j));
  }

  // ---------------------------------------------------------------- one header line

  predicate Blanks(data: Bytes, i: nat, j: nat)
    requires i <= j <= |data|
  {
    forall k :: i <= k < j ==> data[k] == SPACE || data[k] == TAB
  }

  lemma {:induction false} BlanksSkipped(s: Parser, data: Bytes, i: nat, j: nat)
    requires i <= j <= |data| && Blanks(data, i, j)
    requires var t := RunTo(s, data, 0, i);
             t.state.HeaderValueDiscardWs? && t.errno == OK && !Exited(t) && t.nread + (j - i) <= MAX_HEADER_SIZE
    ensures var t := RunTo(s, data, 0, i); RunTo(s, data, 0, j) == t.(nread := t.nread + (j - i))
    decreases j
  {
    hide Step;
    if i < j {
      BlanksSkipped(s, data, i, j - 1);
      BlankStep(RunTo(s, data, 0, j - 1), data[j - 1], Next(data, j - 1));
    }
  }

  lemma BlankStep(t: Parser, ch: Byte, next: Option<Byte>)
    requires t.state.HeaderValueDiscardWs? && t.errno == OK && !Exited(t) && t.nread < MAX_HEADER_SIZE
    requires ch == SPACE || ch == TAB
    ensures Step(t, ch, next) == t.(nread := t.nread + 1)
  {
  }

  /** The matcher's answer for a name that stands at the front of `data`, with its colon and `k` blanks read. */
  lemma NameAndBlanks(s: Parser, data: Bytes, n: nat, k: nat)
    requires s.state.HeaderFieldStart? && s.errno == OK && !Exited(s) && 0 < n && n + 1 + k <= |data|
    requires AllTokens(data[..n]) && data[n] == COLON && Blanks(data, n + 1, n + 1 + k) && s.nread + n + 1 + k <= MAX_HEADER_SIZE
    ensures var t := RunTo(s, data, 0, n + 1 + k);
            && t.state.HeaderValueDiscardWs? && t.errno == OK && !Exited(t) && t.nread == s.nread + n + 1 + k && t.cfg == s.cfg
            && (t.hs == Connection <==> LowerName(data[..n]) == CONNECTION || LowerName(data[..n]) == PROXY_CONNECTION)
  {
    hide Step, Tracks, Prefix, StartsWith, OnField, LowerName, Token, CONNECTION, PROXY_CONNECTION, CONTENT_LENGTH,
      TRANSFER_ENCODING, UPGRADE;
    assert data[..n][..n] == data[..n];
    NameRead(s, data, n);
    var t := RunTo(s, data, 0, n);
    TracksExact(LowerName(data[..n]), t.hs, t.index);
    ColonStep(t, Next(data, n));
    assert RunTo(s, data, 0, n + 1) == Step(t, COLON, Next(data, n));
    BlanksSkipped(s, data, n + 1, n + 1 + k);
  }

  /** A header `name: NUL byte` makes the assertion fail exactly if the name is Connection or Proxy-Connection in any
      case and the byte may stand in a value. */
  lemma NulLineFails(s: Parser, data: Bytes, n: nat, k: nat)
    requires s.state.HeaderFieldStart? && s.errno == OK && !Exited(s) && Inv(s) && 0 < n && |data| == n + k + 3
    requires AllTokens(data[..n]) && data[n] == COLON && Blanks(data, n + 1, n + 1 + k) && data[n + 1 + k] == 0
    requires s.nread + |data| <= MAX_HEADER_SIZE
    ensures FailsAt(s, data, |data| - 1) <==>
              && (LowerName(data[..n]) == CONNECTION || LowerName(data[..n]) == PROXY_CONNECTION)
              && Passes(s.cfg, data[|data| - 1])
  {
    hide Step, LowerName, CONNECTION, PROXY_CONNECTION, IsHeaderChar;
    var i := n + 1 + k;
    NameAndBlanks(s, data, n, k);
    var t := RunTo(s, data, 0, i);
    assert RunTo(s, data, 0, i + 1) == Step(t, 0, Next(data, i));
    if t.hs.Connection? {
      NulLingers(t, 0, Next(data, i));
    } else {
      ReachableOk(s, data, 0, i);
      OtherStart(t, 0, Next(data, i));
    }
  }

  lemma OtherStart(t: Parser, ch: Byte, next: Option<Byte>)
    requires t.state.HeaderValueDiscardWs? && t.errno == OK && !t.hs.Connection? && !Exited(t) && Inv(t)
    ensures var u := Step(t, ch, next); !(u.errno == OK && u.state.HeaderValue? && (u.hs.Connection? || u.hs.TransferEncoding?))
  {
    hide OnValue;
  }

  /** `Connection:` NUL `a`, sent by a client after a request line, is such a request. */
  lemma AssertionReached(cfg: Config, nread: nat)
    requires nread + 13 <= MAX_HEADER_SIZE
    ensures FailsAt(Initial(cfg, nread), CONNECTION + [COLON, 0, 97], 12)
  {
    var data := CONNECTION + [COLON, 0, 97];
    assert data[..10] == CONNECTION;
    InitialOk(cfg, nread);
    LowerFixed(CONNECTION);
    hide RunTo, LowerName;
    NulLineFails(Initial(cfg, nread), data, 10, 0);
  }

  lemma {:induction false} LowerFixed(w: Bytes)
    requires forall i :: 0 <= i < |w| ==> Token(w[i]) == w[i] != 0
    ensures LowerName(w) == w && AllTokens(w)
  {
    if w != [] {
      LowerFixed(w[..|w| - 1]);
      assert w == w[..|w| - 1] + [w[|w| - 1]];
    }
  }
}
