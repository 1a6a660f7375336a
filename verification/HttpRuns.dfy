/** Whole runs of the byte machine: what every reachable state keeps, and what cutting a stream does. */
module HttpRuns {
  import opened Wrappers
  import opened HttpMachine
  import opened HttpInvariant

  lemma {:induction false} RunJoins(s: Parser, data: Bytes, i: nat, j: nat, k: nat)
    requires i <= j <= k <= |data|
    ensures RunTo(RunTo(s, data, i, j), data, j, k) == RunTo(s, data, i, k)
    decreases k
  {
    hide Step;
    if j < k { RunJoins(s, data, i, j, k - 1); }
  }

  lemma {:induction false} Sticky(s: Parser, data: Bytes, i: nat, j: nat)
    requires i <= j <= |data|
    requires s.errno != OK || Exited(s)
    ensures RunTo(s, data, i, j) == s
    decreases j
  {
    if i < j { Sticky(s, data, i, j - 1); }
  }

  /** An error, once met, is the error of every longer run. */
  lemma StickyFrom(s: Parser, data: Bytes, i: nat, j: nat, k: nat)
    requires i <= j <= k <= |data|
    requires RunTo(s, data, i, j).errno != OK || Exited(RunTo(s, data, i, j))
    ensures RunTo(s, data, i, k) == RunTo(s, data, i, j)
  {
    RunJoins(s, data, i, j, k);
    Sticky(RunTo(s, data, i, j), data, j, k);
  }

  predicate NoNul(data: Bytes) { forall i :: 0 <= i < |data| ==> data[i] != 0 }

  /** Every state reachable from a good one is good: no length, flag or nread assertion of the source ever
      fails, whatever the bytes; and without NUL bytes the matcher's assertion does not fail either. */
  lemma {:induction false} ReachableOk(s: Parser, data: Bytes, i: nat, j: nat)
    requires i <= j <= |data| && s.errno == OK && Inv(s)
    ensures RunTo(s, data, i, j).errno == OK ==>
              && Inv(RunTo(s, data, i, j))
              && (NoNul(data) && !AtAssertion(s) ==> !AtAssertion(RunTo(s, data, i, j)))
    decreases j
  {
    hide Step, Inv, AtAssertion;
    if i < j {
      ReachableOk(s, data, i, j - 1);
      var t := RunTo(s, data, i, j - 1);
      if t.errno == OK {
        StepKeepsInv(t, data[j - 1], Next(data, j - 1));
      } else {
        StickyFrom(s, data, i, j - 1, j);
      }
    }
  }

  /** From the first header byte on. */
  lemma AssertionsHold(cfg: Config, nread: nat, data: Bytes)
    requires nread <= MAX_HEADER_SIZE
    ensures var t := Run(Initial(cfg, nread), data);
            t.errno == OK ==> Inv(t) && (NoNul(data) ==> !AtAssertion(t))
  {
    InitialOk(cfg, nread);
    ReachableOk(Initial(cfg, nread), data, 0, |data|);
  }

  // ---------------------------------------------------------------- cutting a stream

  /** The one place where the code looks at the byte after the current one: the first value byte `h` of an
      Upgrade header that is followed by `2`. */
  predicate Hazard(s: Parser, ch: Byte, next: Byte) {
    && s.errno == OK && !Exited(s) && s.nread < MAX_HEADER_SIZE
    && s.state.HeaderValueDiscardWs? && s.hs.Upgrade? && ch == LOWER_H && next == TWO
    && !s.flags.upgrade
  }

  /** Hiding the next byte changes a step exactly at the hazard. */
  lemma LookaheadMatters(s: Parser, ch: Byte, next: Byte)
    requires s.errno == OK && Inv(s)
    ensures Step(s, ch, Some(next)) == Step(s, ch, None) <==> !Hazard(s, ch, next)
    ensures Hazard(s, ch, next) ==> Step(s, ch, None) == Step(s, ch, Some(next)).(flags := s.flags.(upgrade := true))
  {
    hide Inv, FieldStart, Field, Value, HeadersAlmostDoneStep, HeadersDoneStep, BodyIdentityStep, ChunkDataStep,
      ChunkSizeStep, ChunkSizeStartStep, ChunkSizeAlmostDoneStep, DiscardLws, OnValue, OnBody, FieldMatcherOk, ValueMatcherOk;
    if s.state.HeaderValueStart? { StoredStates(s); }
    if s.state.HeaderValueLws? { FoldedLookahead(Counted(s), ch, next); }
  }

  lemma StoredStates(s: Parser)
    requires Inv(s)
    ensures !s.state.HeaderValueStart?
    ensures InValue(s.state) ==> !s.hs.Upgrade?
  {
  }

  lemma FoldedLookahead(s: Parser, ch: Byte, next: Byte)
    requires s.state.HeaderValueLws?
    ensures ValueLws(s, ch, Some(next)) == ValueLws(s, ch, None)
  {
    hide FieldStart, OnValue;
  }

  predicate HazardAt(s: Parser, data: Bytes, cut: nat)
    requires 0 < cut < |data|
  {
    Hazard(RunTo(s, data, 0, cut - 1), data[cut - 1], data[cut])
  }

  /** Before a cut, the whole buffer and its first part read alike. */
  lemma {:induction false} PrefixReadsAlike(s: Parser, a: Bytes, b: Bytes, j: nat)
    requires j < |a|
    ensures RunTo(s, a + b, 0, j) == RunTo(s, a, 0, j)
    decreases j
  {
    hide Step;
    if j > 0 {
      PrefixReadsAlike(s, a, b, j - 1);
      assert (a + b)[j - 1] == a[j - 1] && Next(a + b, j - 1) == Next(a, j - 1);
    }
  }

  /** After a cut, the bytes are those of the second part. */
  lemma {:induction false} SuffixReadsAlike(s: Parser, a: Bytes, b: Bytes, j: nat)
    requires j <= |b|
    ensures RunTo(s, a + b, |a|, |a| + j) == RunTo(s, b, 0, j)
    decreases j
  {
    hide Step;
    if j > 0 {
      SuffixReadsAlike(s, a, b, j - 1);
      assert (a + b)[|a| + j - 1] == b[j - 1] && Next(a + b, |a| + j - 1) == Next(b, j - 1);
    }
  }

  /** One cut: the two buffers leave the machine exactly where the one buffer does, unless the cut is at the hazard. */
  lemma CutInvariant(s: Parser, a: Bytes, b: Bytes)
    requires s.errno == OK && Inv(s) && a != [] && b != []
    requires !HazardAt(s, a + b, |a|)
    ensures RunTo(s, a + b, 0, |a|) == Run(s, a)
    ensures Run(s, a + b) == Run(Run(s, a), b)
  {
    hide Step, Inv, Hazard;
    var d := a + b;
    var t := RunTo(s, a, 0, |a| - 1);
    PrefixReadsAlike(s, a, b, |a| - 1);
    assert d[|a| - 1] == a[|a| - 1] && d[|a|] == b[0];
    assert Next(d, |a| - 1) == Some(b[0]) && Next(a, |a| - 1) == None;
    assert RunTo(s, d, 0, |a|) == Run(s, a) by {
      if t.errno == OK {
        ReachableOk(s, a, 0, |a| - 1);
        LookaheadMatters(t, a[|a| - 1], b[0]);
      } else {
        StickyFrom(s, a, 0, |a| - 1, |a|);
        StickyFrom(s, d, 0, |a| - 1, |a|);
      }
    }
    RunJoins(s, d, 0, |a|, |d|);
    SuffixReadsAlike(Run(s, a), a, b, |b|);
    assert |a| + |b| == |d|;
  }

  /** At the hazard the cut is not harmless: read in one buffer, `Upgrade: h2...` leaves the upgrade flag clear;
      cut after the `h`, it is set. */
  lemma CutAtHazard(s: Parser, a: Bytes, b: Bytes)
    requires s.errno == OK && Inv(s) && a != [] && b != []
    requires HazardAt(s, a + b, |a|)
    ensures !RunTo(s, a + b, 0, |a|).flags.upgrade && Run(s, a).flags.upgrade
    ensures RunTo(s, a + b, 0, |a|) != Run(s, a)
  {
    hide Step, Inv;
    var d := a + b;
    var t := RunTo(s, a, 0, |a| - 1);
    PrefixReadsAlike(s, a, b, |a| - 1);
    assert d[|a| - 1] == a[|a| - 1] && d[|a|] == b[0];
    assert Next(d, |a| - 1) == Some(b[0]) && Next(a, |a| - 1) == None;
    assert RunTo(s, d, 0, |a| - 1) == t;
    ReachableOk(s, a, 0, |a| - 1);
    LookaheadMatters(t, a[|a| - 1], b[0]);
    HazardStep(t, a[|a| - 1], b[0]);
  }

  lemma HazardStep(s: Parser, ch: Byte, next: Byte)
    requires Hazard(s, ch, next)
    ensures !Step(s, ch, Some(next)).flags.upgrade
  {
    hide OnValue;
  }

  /** So a cut is harmless exactly when it is not at the hazard. */
  lemma CutHarmlessIff(s: Parser, a: Bytes, b: Bytes)
    requires s.errno == OK && Inv(s) && a != [] && b != []
    ensures RunTo(s, a + b, 0, |a|) == Run(s, a) <==> !HazardAt(s, a + b, |a|)
  {
    hide Run, RunTo, Inv, HazardAt;
    if HazardAt(s, a + b, |a|) { CutAtHazard(s, a, b); } else { CutInvariant(s, a, b); }
  }

  // ---------------------------------------------------------------- many cuts

  function Concat(pieces: seq<Bytes>): Bytes {
    if pieces == [] then [] else Concat(pieces[..|pieces| - 1]) + pieces[|pieces| - 1]
  }

  /** `feed`, buffer by buffer: once the message is complete, further buffers are not looked at. */
  function FeedRun(s: Parser, pieces: seq<Bytes>): Parser {
    if pieces == [] then s
    else
      var t := FeedRun(s, pieces[..|pieces| - 1]);
      if t.completions > 0 then t else Run(t, pieces[|pieces| - 1])
  }

  /** The stream holds no more than one message: nothing before its last byte completes it. */
  predicate OneMessage(s: Parser, data: Bytes) {
    forall j :: 0 <= j < |data| ==> RunTo(s, data, 0, j).completions == 0
  }

  predicate HarmlessCuts(s: Parser, pieces: seq<Bytes>) {
    pieces == [] ||
    (var a, b := Concat(pieces[..|pieces| - 1]), pieces[|pieces| - 1];
     && b != [] && HarmlessCuts(s, pieces[..|pieces| - 1])
     && (a != [] ==> !HazardAt(s, a + b, |a|)))
  }

  /** Split invariance: cut anywhere into any number of non-empty buffers, a message leaves the parser in the same
      state, with the same flags, lengths, error and collected headers and body, as in one buffer. */
  lemma {:induction false} SplitInvariance(s: Parser, pieces: seq<Bytes>)
    requires s.errno == OK && Inv(s) && s.completions == 0
    requires HarmlessCuts(s, pieces) && OneMessage(s, Concat(pieces))
    ensures FeedRun(s, pieces) == Run(s, Concat(pieces))
  {
    hide Inv, HazardAt, Step;
    if pieces != [] {
      var front := pieces[..|pieces| - 1];
      var a, b := Concat(front), pieces[|pieces| - 1];
      if a == [] {
        NoFront(front, s);
        assert a + b == b;
      } else {
        CutInvariant(s, a, b);
        assert OneMessage(s, a) by {
          forall j | 0 <= j < |a| ensures RunTo(s, a, 0, j).completions == 0 {
            PrefixReadsAlike(s, a, b, j);
          }
        }
        SplitInvariance(s, front);
        assert RunTo(s, a + b, 0, |a|).completions == 0;
      }
    }
  }

  lemma NoFront(pieces: seq<Bytes>, s: Parser)
    requires Concat(pieces) == [] && HarmlessCuts(s, pieces)
    ensures pieces == []
  {
  }
}
