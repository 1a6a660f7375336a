/** What a cut at the Upgrade look-ahead does to the rest of a message. */
module HttpUpgrade {
  import opened Wrappers
  import opened HttpMachine
  import opened HttpInvariant
  import opened HttpRuns
  import opened HttpExecute

  function Flagged(s: Parser): Parser { s.(flags := s.flags.(upgrade := true)) }

  /** The flag is set in the part of the message, headers or trailer, that `trailing` names. */
  predicate FlagSet(s: Parser, trailing: bool) { s.flags.upgrade && s.flags.trailing == trailing }

  /** The two runs part in the flag alone. */
  predicate FlagOnly(trailing: bool, x: Parser, y: Parser) {
    && y == Flagged(x) && !x.flags.upgrade && x.flags.trailing == trailing
    && (HeaderPhase(x.state) || x.errno != OK || Exited(x))
  }

  /** The flagged run has left for another protocol behind the headers, the other reads on. */
  predicate OneLeft(trailing: bool, x: Parser, y: Parser) {
    && !trailing && Exited(y) && !x.upgrade
    && (x.flags.upgrade ==> x.flags.trailing) && (HeaderPhase(x.state) ==> x.flags.trailing)
  }

  predicate Apart(trailing: bool, x: Parser, y: Parser) {
    FlagOnly(trailing, x, y) || OneLeft(trailing, x, y)
  }

  lemma ApartDiffers(trailing: bool, x: Parser, y: Parser)
    requires Apart(trailing, x, y)
    ensures x != y && !FlagSet(x, trailing)
  {
  }

  predicate Meets(trailing: bool, x: Parser, y: Parser) {
    Apart(trailing, x, y) || (x == y && FlagSet(x, trailing))
  }

  // ---------------------------------------------------------------- one byte while only the flag differs

  lemma StillFlag(trailing: bool, s: Parser)
    requires !s.flags.upgrade && s.flags.trailing == trailing && (s.errno == OK ==> HeaderPhase(s.state))
    ensures Meets(trailing, s, Flagged(s))
  {
  }

  lemma FlagField(s: Parser, ch: Byte)
    ensures Field(Flagged(s), ch) == Flagged(Field(s, ch))
    ensures var t := Field(s, ch); t.flags == s.flags && (t.errno == OK ==> HeaderPhase(t.state) || t.state == s.state)
  {
    hide OnField, MatchField, Token;
  }

  lemma FlagValueByte(s: Parser, ch: Byte)
    ensures ValueByte(Flagged(s), ch) == Flagged(ValueByte(s, ch))
    ensures ValueByte(s, ch).flags == s.flags && ValueByte(s, ch).state == s.state
  {
    hide OnValue, MatchValue, IsHeaderChar;
  }

  lemma FlagValueStart(s: Parser, ch: Byte, next: Option<Byte>)
    requires !s.flags.upgrade && s.errno == OK
    ensures var t, u := ValueStart(s, ch, next), ValueStart(Flagged(s), ch, next);
            && t.state.HeaderValue? && t.flags.trailing == s.flags.trailing
            && (if t.flags.upgrade then u == t else u == Flagged(t))
  {
    hide ValueStart;
    if s.hs.Upgrade? { FlagUpgrade(s, ch, next); } else { FlagOther(s, ch, next); }
  }

  lemma FlagUpgrade(s: Parser, ch: Byte, next: Option<Byte>)
    requires !s.flags.upgrade && s.errno == OK && s.hs.Upgrade?
    ensures var t, u := ValueStart(s, ch, next), ValueStart(Flagged(s), ch, next);
            && t.state.HeaderValue? && t.flags.trailing == s.flags.trailing
            && (if t.flags.upgrade then u == t else u == Flagged(t))
  {
    hide OnValue;
  }

  lemma FlagOther(s: Parser, ch: Byte, next: Option<Byte>)
    requires !s.flags.upgrade && s.errno == OK && !s.hs.Upgrade?
    ensures var t := ValueStart(s, ch, next);
            t.state.HeaderValue? && t.flags.trailing == s.flags.trailing && !t.flags.upgrade && ValueStart(Flagged(s), ch, next) == Flagged(t)
  {
    hide ValueStart;
    if s.hs.ContentLength? { FlagLength(s, ch, next); } else { FlagWord(s, ch, next); }
  }

  lemma FlagLength(s: Parser, ch: Byte, next: Option<Byte>)
    requires !s.flags.upgrade && s.errno == OK && s.hs.ContentLength?
    ensures var t := ValueStart(s, ch, next);
            t.state.HeaderValue? && t.flags.trailing == s.flags.trailing && !t.flags.upgrade && ValueStart(Flagged(s), ch, next) == Flagged(t)
  {
    hide OnValue;
  }

  lemma FlagWord(s: Parser, ch: Byte, next: Option<Byte>)
    requires !s.flags.upgrade && s.errno == OK && !s.hs.Upgrade? && !s.hs.ContentLength?
    ensures var t := ValueStart(s, ch, next);
            t.state.HeaderValue? && t.flags.trailing == s.flags.trailing && !t.flags.upgrade && ValueStart(Flagged(s), ch, next) == Flagged(t)
  {
    hide ValueStart, OnValue;
    WordShape(s, ch, next);
    WordShape(Flagged(s), ch, next);
    SameWord(s, ch, next);
  }

  lemma WordShape(s: Parser, ch: Byte, next: Option<Byte>)
    requires !s.hs.Upgrade? && !s.hs.ContentLength?
    ensures var t := ValueStart(s, ch, next); t == s.(state := HeaderValue, index := 0, sink := OnValue(s.sink, [ch]), hs := t.hs)
  {
    hide OnValue, Lower;
  }

  lemma SameWord(s: Parser, ch: Byte, next: Option<Byte>)
    requires !s.hs.Upgrade? && !s.hs.ContentLength?
    ensures ValueStart(Flagged(s), ch, next).hs == ValueStart(s, ch, next).hs
  {
    hide OnValue, Lower;
  }

  lemma FlagHeadersDone(s: Parser, ch: Byte, connect: bool)
    requires s.state.HeadersDone? && s.errno == OK && !s.flags.upgrade && !s.flags.trailing && s.completions == 0 && ch == LF
    ensures var t, u := HeadersDoneStep(s.(upgrade := connect), ch), HeadersDoneStep(Flagged(s).(upgrade := true), ch);
            Apart(false, t, u)
  {
  }

  lemma FlagHeadersEnd(s: Parser, ch: Byte)
    requires s.state.HeadersAlmostDone? && s.errno == OK && !s.flags.upgrade && s.completions == 0
    ensures Apart(s.flags.trailing, HeadersAlmostDoneStep(s, ch), HeadersAlmostDoneStep(Flagged(s), ch))
  {
    hide HeadersDoneStep, OnHeadersComplete;
    if ch == LF && !s.flags.trailing {
      FlagHeadersDone(s.(state := HeadersDone, sink := OnHeadersComplete(s.sink)), ch, s.cfg.connect);
    }
  }

  lemma FlagFieldStart(s: Parser, ch: Byte)
    requires s.errno == OK && !s.flags.upgrade && s.completions == 0 && HeaderPhase(s.state)
    ensures Apart(s.flags.trailing, FieldStart(s, ch), FieldStart(Flagged(s), ch))
  {
    hide HeadersAlmostDoneStep, OnField, Token;
    if ch == LF { FlagHeadersEnd(s.(state := HeadersAlmostDone), ch); }
  }

  lemma FlagFolded(s: Parser, ch: Byte, next: Option<Byte>)
    requires s.errno == OK && !s.flags.upgrade && s.completions == 0 && s.state.HeaderValueLws?
    ensures Meets(s.flags.trailing, ValueLws(s, ch, next), ValueLws(Flagged(s), ch, next))
  {
    hide FieldStart, ValueStart, FlagOnly, OneLeft;
    if ch == SPACE || ch == TAB {
      FlagValue(s.(state := HeaderValueStart, hs := if s.hs == ContentLengthNum then ContentLengthWs else s.hs), ch, next);
    } else {
      FlagFinish(s);
      FlagFieldStart(FinishHeader(s), ch);
    }
  }

  lemma FlagFinish(s: Parser)
    ensures FinishHeader(Flagged(s)) == Flagged(FinishHeader(s))
    ensures FinishHeader(s).flags.upgrade == s.flags.upgrade && FinishHeader(s).flags.trailing == s.flags.trailing
  {
  }

  lemma FlagValue(s: Parser, ch: Byte, next: Option<Byte>)
    requires !s.flags.upgrade && s.errno == OK
    ensures Meets(s.flags.trailing, ValueStart(s, ch, next), ValueStart(Flagged(s), ch, next))
  {
    hide ValueStart;
    FlagValueStart(s, ch, next);
  }

  lemma FlagDiscard(s: Parser, ch: Byte, next: Option<Byte>)
    requires s.errno == OK && !s.flags.upgrade && s.completions == 0 && s.state.HeaderValueDiscardWs?
    ensures Meets(s.flags.trailing, DiscardWs(s, ch, next), DiscardWs(Flagged(s), ch, next))
  {
    hide ValueStart, Meets;
    FlagValue(s, ch, next);
    if ch == SPACE || ch == TAB || ch == CR || ch == LF { StillFlag(s.flags.trailing, DiscardWs(s, ch, next)); }
  }

  lemma FlagDiscardLws(s: Parser, ch: Byte)
    requires s.errno == OK && !s.flags.upgrade && s.completions == 0 && s.state.HeaderValueDiscardLws?
    ensures Apart(s.flags.trailing, DiscardLws(s, ch), DiscardLws(Flagged(s), ch))
  {
    hide FieldStart, OnValue;
    FlagFieldStart(s.(state := HeaderFieldStart, sink := OnValue(s.sink, [])), ch);
  }

  lemma FlagDispatch(s: Parser, ch: Byte, next: Option<Byte>)
    requires s.errno == OK && !s.flags.upgrade && s.completions == 0 && HeaderPhase(s.state) && !s.state.HeaderValueStart?
    ensures Meets(s.flags.trailing, Dispatch(s, ch, next), Dispatch(Flagged(s), ch, next))
  {
    hide FieldStart, Field, DiscardWs, DiscardLws, ValueLws, Value, HeadersAlmostDoneStep, FlagOnly, OneLeft;
    match s.state
    case HeaderFieldStart => FlagFieldStart(s, ch);
    case HeaderField =>
      FlagField(s, ch);
      StillFlag(s.flags.trailing, Field(s, ch));
    case HeaderValueDiscardWs => FlagDiscard(s, ch, next);
    case HeaderValueDiscardLws => FlagDiscardLws(s, ch);
    case HeaderValueLws => FlagFolded(s, ch, next);
    case HeaderValue => FlagInValue(s, ch);
    case HeadersAlmostDone => FlagHeadersEnd(s, ch);
    case _ => StillFlag(s.flags.trailing, Dispatch(s, ch, next));
  }

  lemma FlagInValue(s: Parser, ch: Byte)
    requires s.errno == OK && !s.flags.upgrade && s.state.HeaderValue?
    ensures Meets(s.flags.trailing, Value(s, ch), Value(Flagged(s), ch))
  {
    hide ValueByte, Meets;
    FlagValueByte(s, ch);
    StillFlag(s.flags.trailing, Value(s, ch));
  }

  lemma FlagStep(trailing: bool, x: Parser, y: Parser, ch: Byte, next: Option<Byte>)
    requires FlagOnly(trailing, x, y) && x.completions == 0 && !x.state.HeaderValueStart?
    ensures Meets(trailing, Step(x, ch, next), Step(y, ch, next))
  {
    hide Dispatch;
    if x.errno == OK {
      CountedStep(x, ch, next);
      CountedStep(y, ch, next);
      FlagDispatch(x.(nread := x.nread + 1), ch, next);
    }
  }

  // ---------------------------------------------------------------- one byte behind the headers

  /** The run that reads on stays in the body or its trailer. */
  predicate ReadsOn(s: Parser) {
    !s.upgrade && (s.flags.upgrade ==> s.flags.trailing) && (HeaderPhase(s.state) ==> s.flags.trailing)
  }

  lemma ReadsOnStep(s: Parser, ch: Byte, next: Option<Byte>)
    requires ReadsOn(s) && s.errno == OK && !s.state.HeaderValueStart?
    ensures ReadsOn(Step(s, ch, next))
  {
    hide Dispatch;
    CountedStep(s, ch, next);
    var c := Counted(s);
    if HeaderPhase(s.state) { TrailerReadsOn(c, ch, next); } else { BodyReadsOn(c, ch, next); }
  }

  lemma BodyReadsOn(s: Parser, ch: Byte, next: Option<Byte>)
    requires ReadsOn(s) && !HeaderPhase(s.state)
    ensures ReadsOn(Dispatch(s, ch, next))
  {
    hide OnBody, Unhex;
  }

  lemma TrailerReadsOn(s: Parser, ch: Byte, next: Option<Byte>)
    requires s.flags.trailing && !s.upgrade && HeaderPhase(s.state) && !s.state.HeaderValueStart?
    ensures var t := Dispatch(s, ch, next); t.flags.trailing && !t.upgrade
  {
    hide FieldStart, Field, ValueStart, ValueByte, HeadersAlmostDoneStep;
    TrailerStart(s, ch);
    TrailerStart(FinishHeader(s), ch);
    TrailerStart(s.(state := HeaderFieldStart, sink := OnValue(s.sink, [])), ch);
    TrailerValue(s, ch, next);
    TrailerValue(s.(state := HeaderValueStart, hs := if s.hs == ContentLengthNum then ContentLengthWs else s.hs), ch, next);
    FlagField(s, ch);
    TrailerName(s, ch);
    FlagValueByte(s, ch);
    TrailerByte(s, ch);
  }

  lemma TrailerStart(s: Parser, ch: Byte)
    requires s.flags.trailing && !s.upgrade
    ensures var t := FieldStart(s, ch); t.flags.trailing && !t.upgrade
    ensures var t := HeadersAlmostDoneStep(s, ch); t.flags.trailing && !t.upgrade
  {
    hide OnField, Token, HeadersDoneStep;
  }

  lemma TrailerValue(s: Parser, ch: Byte, next: Option<Byte>)
    ensures var t := ValueStart(s, ch, next); t.flags.trailing == s.flags.trailing && t.upgrade == s.upgrade
  {
    hide OnValue;
  }

  lemma TrailerName(s: Parser, ch: Byte)
    ensures Field(s, ch).upgrade == s.upgrade
  {
    hide OnField, MatchField, Token;
  }

  lemma TrailerByte(s: Parser, ch: Byte)
    ensures ValueByte(s, ch).upgrade == s.upgrade
  {
    hide OnValue, MatchValue, IsHeaderChar;
  }

  // ---------------------------------------------------------------- to the end of the message

  lemma ApartStep(trailing: bool, x: Parser, y: Parser, ch: Byte, next: Option<Byte>)
    requires Apart(trailing, x, y) && x.completions == 0 && (x.errno == OK ==> Inv(x))
    ensures Meets(trailing, Step(x, ch, next), Step(y, ch, next))
  {
    hide Step, Inv;
    if x.errno == OK { NoValueStart(x); }
    if FlagOnly(trailing, x, y) {
      if x.errno == OK { FlagStep(trailing, x, y, ch, next); } else { SameStep(x, ch, next); SameStep(y, ch, next); }
    } else {
      SameStep(y, ch, next);
      if x.errno == OK { ReadsOnStep(x, ch, next); } else { SameStep(x, ch, next); }
    }
  }

  lemma NoValueStart(s: Parser)
    requires Inv(s)
    ensures !s.state.HeaderValueStart?
  {
  }

  lemma SameStep(s: Parser, ch: Byte, next: Option<Byte>)
    requires s.errno != OK || Exited(s)
    ensures Step(s, ch, next) == s
  {
  }

  /** Somewhere in `i..j` the run of `s` has the flag set, in the same part of the message. */
  predicate SetLater(s: Parser, data: Bytes, trailing: bool, i: nat, j: nat)
    requires i <= j <= |data|
  {
    exists k :: i <= k <= j && FlagSet(RunTo(s, data, 0, k), trailing)
  }

  lemma {:induction false} StaysApart(s: Parser, y: Parser, data: Bytes, trailing: bool, i: nat, j: nat)
    requires i <= j <= |data| && s.errno == OK && Inv(s)
    requires forall k :: 0 <= k < |data| ==> RunTo(s, data, 0, k).completions == 0
    requires Apart(trailing, RunTo(s, data, 0, i), y)
    ensures var x, z := RunTo(s, data, 0, j), RunTo(y, data, i, j);
            if SetLater(s, data, trailing, i, j) then x == z else Apart(trailing, x, z)
    decreases j
  {
    hide Step, Inv, Apart, FlagSet;
    if i == j {
      ApartDiffers(trailing, RunTo(s, data, 0, i), y);
      assert RunTo(y, data, i, j) == y;
    } else {
      StaysApart(s, y, data, trailing, i, j - 1);
      SetNext(s, data, trailing, i, j);
      var x, z := RunTo(s, data, 0, j - 1), RunTo(y, data, i, j - 1);
      if !SetLater(s, data, trailing, i, j - 1) {
        ReachableOk(s, data, 0, j - 1);
        ApartStep(trailing, x, z, data[j - 1], Next(data, j - 1));
        if Apart(trailing, Step(x, data[j - 1], Next(data, j - 1)), Step(z, data[j - 1], Next(data, j - 1))) {
          ApartDiffers(trailing, Step(x, data[j - 1], Next(data, j - 1)), Step(z, data[j - 1], Next(data, j - 1)));
        }
      }
    }
  }

  lemma SetNext(s: Parser, data: Bytes, trailing: bool, i: nat, j: nat)
    requires i < j <= |data|
    ensures SetLater(s, data, trailing, i, j) <==> SetLater(s, data, trailing, i, j - 1) || FlagSet(RunTo(s, data, 0, j), trailing)
  {
    hide RunTo, FlagSet;
  }

  /** Cut at the look-ahead, a message ends in the same state if and only if a later Upgrade value of the same
      headers, or of the same trailer, sets the flag in the uncut run as well. */
  lemma CutAtHazardEnds(s: Parser, a: Bytes, b: Bytes)
    requires s.errno == OK && Inv(s) && a != [] && b != []
    requires HazardAt(s, a + b, |a|) && OneMessage(s, a + b)
    ensures Run(s, a + b) == Run(Run(s, a), b) <==>
              SetLater(s, a + b, RunTo(s, a + b, 0, |a|).flags.trailing, |a|, |a + b|)
  {
    hide Step, Inv, Hazard, Apart, FlagSet, SetLater;
    var d := a + b;
    var t := RunTo(s, a, 0, |a| - 1);
    var x := RunTo(s, d, 0, |a|);
    var trailing := x.flags.trailing;
    PrefixReadsAlike(s, a, b, |a| - 1);
    assert d[|a| - 1] == a[|a| - 1] && d[|a|] == b[0];
    assert Next(d, |a| - 1) == Some(b[0]) && Next(a, |a| - 1) == None;
    HazardOk(t, a[|a| - 1], b[0]);
    ReachableOk(s, a, 0, |a| - 1);
    LookaheadMatters(t, a[|a| - 1], b[0]);
    HazardParts(t, a[|a| - 1], b[0]);
    StaysApart(s, Run(s, a), d, trailing, |a|, |d|);
    SuffixReadsAlike(Run(s, a), a, b, |b|);
    assert |a| + |b| == |d|;
    if !SetLater(s, d, trailing, |a|, |d|) { ApartDiffers(trailing, Run(s, d), RunTo(Run(s, a), d, |a|, |d|)); }
  }

  /** So cutting a message in two makes no difference at its end if and only if the cut is not at the look-ahead, or
      the flag that it sets is set later anyway. */
  lemma CutEndsIff(s: Parser, a: Bytes, b: Bytes)
    requires s.errno == OK && Inv(s) && a != [] && b != [] && OneMessage(s, a + b)
    ensures Run(s, a + b) == Run(Run(s, a), b) <==>
              !HazardAt(s, a + b, |a|) || SetLater(s, a + b, RunTo(s, a + b, 0, |a|).flags.trailing, |a|, |a + b|)
  {
    hide Run, Inv, HazardAt, OneMessage, SetLater;
    if HazardAt(s, a + b, |a|) { CutAtHazardEnds(s, a, b); } else { CutInvariant(s, a, b); }
  }

  lemma HazardOk(s: Parser, ch: Byte, next: Byte)
    requires Hazard(s, ch, next)
    ensures s.errno == OK
  {
  }

  lemma HazardParts(t: Parser, ch: Byte, next: Byte)
    requires Hazard(t, ch, next)
    requires Step(t, ch, None) == Step(t, ch, Some(next)).(flags := t.flags.(upgrade := true))
    ensures var x := Step(t, ch, Some(next)); Apart(x.flags.trailing, x, Step(t, ch, None))
  {
    hide OnValue;
  }
}
