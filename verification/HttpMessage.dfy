/** Whole requests: header lines, the end of the headers, and a body of known length, of chunks, or none. */
module HttpMessage {
  import opened Wrappers
  import opened Sequences
  import opened HttpMachine
  import opened HttpInvariant
  import opened HttpRuns
  import opened HttpExecute
  import opened HttpMeaning
  import opened HttpLines

  // ---------------------------------------------------------------- all header lines

  function Lines(hs: seq<Header>): Bytes {
    if hs == [] then [] else Lines(hs[..|hs| - 1]) + Line(hs[|hs| - 1])
  }

  /** Lines of their own, with one Content-Length at most. */
  predicate RegularHeaders(hs: seq<Header>) {
    && (forall h <- hs :: Regular(h))
    && forall i, j :: 0 <= i < j < |hs| ==> !(GivesLength(hs[i]) && GivesLength(hs[j]))
  }

  predicate SomeKeepAlive(hs: seq<Header>) { exists h <- hs :: AsksKeepAlive(h) }

  predicate SomeClose(hs: seq<Header>) { exists h <- hs :: AsksClose(h) }

  predicate SomeUpgrade(hs: seq<Header>) { exists h <- hs :: AsksUpgrade(h) }

  predicate SomeChunked(hs: seq<Header>) { exists h <- hs :: SaysChunked(h) }

  predicate SomeLength(hs: seq<Header>) { exists h <- hs :: GivesLength(h) }

  predicate SomeTransfer(hs: seq<Header>) { exists h <- hs :: TransferName(h.name) }

  /** The headers that have a value. */
  function Valued(hs: seq<Header>): seq<(Bytes, Bytes)> {
    if hs == [] then []
    else
      var h := hs[|hs| - 1];
      Valued(hs[..|hs| - 1]) + if h.value != [] then [(h.name, h.value)] else []
  }

  /** What is handed over at the end: the headers that have a value, and the last one even without. */
  function Collected(hs: seq<Header>): seq<(Bytes, Bytes)> {
    if hs == [] then [] else Valued(hs[..|hs| - 1]) + [(hs[|hs| - 1].name, hs[|hs| - 1].value)]
  }

  /** The parser as before any header. */
  predicate Fresh(s: Parser) {
    && Between(s) && s.nread <= MAX_HEADER_SIZE && s.sink.field == [] && s.sink.value == [] && s.sink.headers == []
    && s.flags == Flags(false, false, false, false, false, false) && !s.usesTransferEncoding && s.contentLength == ULLONG_MAX
    && !s.upgrade && s.completions == 0
  }

  /** What the parser knows behind the header lines. */
  predicate Knows(s: Parser, hs: seq<Header>, u: Parser) {
    && Between(u) && u.cfg == s.cfg && u.nread == s.nread + |Lines(hs)| && !u.upgrade && u.completions == 0
    && u.flags == Flags(SomeChunked(hs), SomeKeepAlive(hs), SomeClose(hs), false, SomeUpgrade(hs), SomeLength(hs))
    && u.usesTransferEncoding == SomeTransfer(hs)
    && (if SomeLength(hs) then forall h <- hs :: GivesLength(h) ==> u.contentLength == Decimal(h.value) else u.contentLength == ULLONG_MAX)
    && u.sink.body == s.sink.body && Pending(hs, u.sink)
  }

  /** The last header waits for the end of the headers or for another one. */
  predicate Pending(hs: seq<Header>, k: Sink) {
    if hs == [] then k.field == [] && k.value == [] && k.headers == []
    else k.field == hs[|hs| - 1].name && k.value == hs[|hs| - 1].value && k.headers == Valued(hs[..|hs| - 1])
  }

  lemma OneMore(hs: seq<Header>)
    requires hs != []
    ensures var front, h := hs[..|hs| - 1], hs[|hs| - 1];
            && (SomeKeepAlive(hs) <==> SomeKeepAlive(front) || AsksKeepAlive(h))
            && (SomeClose(hs) <==> SomeClose(front) || AsksClose(h))
            && (SomeUpgrade(hs) <==> SomeUpgrade(front) || AsksUpgrade(h))
            && (SomeChunked(hs) <==> SomeChunked(front) || SaysChunked(h))
            && (SomeLength(hs) <==> SomeLength(front) || GivesLength(h))
            && (SomeTransfer(hs) <==> SomeTransfer(front) || TransferName(h.name))
  {
    hide AsksKeepAlive, AsksClose, AsksUpgrade, SaysChunked, GivesLength, TransferName;
    var front, h := hs[..|hs| - 1], hs[|hs| - 1];
    assert hs == front + [h];
  }

  lemma RegularFront(hs: seq<Header>)
    requires hs != [] && RegularHeaders(hs)
    ensures var front, h := hs[..|hs| - 1], hs[|hs| - 1];
            RegularHeaders(front) && Regular(h) && (GivesLength(h) ==> !SomeLength(front)) && Lines(hs) == Lines(front) + Line(h)
  {
    hide Regular, GivesLength, Line;
    var front, h := hs[..|hs| - 1], hs[|hs| - 1];
    assert h in hs;
    forall x <- front ensures x in hs && !(GivesLength(x) && GivesLength(h)) {
      var i :| 0 <= i < |front| && front[i] == x;
      assert hs[i] == x;
    }
  }

  /** After a line, the byte behind it settles what the line asked for. */
  lemma {:induction false} SettledReads(t: Parser, data: Bytes, j: nat)
    requires AfterLine(t) || Between(t)
    requires data != [] && !Blank(data[0]) && 0 < j <= |data| && t.nread + 1 <= MAX_HEADER_SIZE
    ensures RunTo(t, data, 0, j) == RunTo(Settled(t), data, 0, j)
    decreases j
  {
    hide Step, Settled, AfterLine, Between, Blank;
    if j == 1 {
      assert RunTo(t, data, 0, 0) == t && RunTo(Settled(t), data, 0, 0) == Settled(t);
      SettledStep(t, data[0], Next(data, 0));
    } else {
      SettledReads(t, data, j - 1);
    }
  }

  lemma SettledStep(t: Parser, c: Byte, next: Option<Byte>)
    requires AfterLine(t) || Between(t)
    requires !Blank(c) && t.nread + 1 <= MAX_HEADER_SIZE
    ensures Step(t, c, next) == Step(Settled(t), c, next)
  {
    hide FieldStart;
  }

  /** All header lines, one behind the other. */
  lemma {:induction false} HeadersRead(s: Parser, hs: seq<Header>)
    requires Fresh(s) && Inv(s) && RegularHeaders(hs) && s.nread + |Lines(hs)| <= MAX_HEADER_SIZE
    ensures var t := Run(s, Lines(hs));
            && (AfterLine(t) || Between(t)) && Inv(t) && t.nread == s.nread + |Lines(hs)| && Knows(s, hs, Settled(t))
    decreases |hs|
  {
    hide *;
    if hs == [] {
      NoHeaders(s);
      OkFacts(s);
    } else {
      var front, h := hs[..|hs| - 1], hs[|hs| - 1];
      RegularFront(hs);
      LineLength(h);
      HeadersRead(s, front);
      var t := Run(s, Lines(front));
      FreshOk(s);
      OkFacts(t);
      OkFacts(Run(t, Line(h)));
      KnowsFacts(s, front, Settled(t));
      HeaderRead(Settled(t), h);
      SettledReads(t, Line(h), |Line(h)|);
      RunIs(t, Line(h));
      RunIs(Settled(t), Line(h));
      Joined(s, front, h);
      KnowsMore(s, hs, Settled(t), Settled(Run(s, Lines(hs))));
      LineKeepsInv(t, Line(h));
      KnowsFacts(s, hs, Settled(Run(s, Lines(hs))));
      SettledNread(Run(s, Lines(hs)));
    }
  }

  lemma OkFacts(t: Parser)
    ensures AfterLine(t) || Between(t) ==> t.errno == OK && !Exited(t)
  {
  }

  lemma FreshOk(s: Parser)
    requires Fresh(s)
    ensures s.errno == OK && Between(s) && s.completions == 0
  {
  }

  lemma SettledNread(t: Parser)
    ensures Settled(t).nread == t.nread
  {
    hide OnValue;
  }

  lemma NoHeaders(s: Parser)
    requires Fresh(s)
    ensures Lines([]) == [] && Run(s, []) == s && Knows(s, [], Settled(s)) && Between(s)
  {
  }

  lemma LineLength(h: Header)
    requires Regular(h)
    ensures |Line(h)| > 2 && !Blank(Line(h)[0]) && Line(h)[|Line(h)| - 1] == LF
  {
    hide GivesLength;
    assert Line(h)[0] == h.name[0];
  }

  lemma KnowsFacts(s: Parser, hs: seq<Header>, u: Parser)
    requires Knows(s, hs, u)
    ensures Between(u) && u.flags.contentLength == SomeLength(hs) && u.nread == s.nread + |Lines(hs)|
  {
    hide Between, SomeKeepAlive, SomeClose, SomeUpgrade, SomeChunked, SomeLength, SomeTransfer, Pending, Decimal, GivesLength;
  }

  lemma LineKeepsInv(t: Parser, data: Bytes)
    requires Inv(t) && t.errno == OK && Run(t, data).errno == OK
    ensures Inv(Run(t, data))
  {
    hide Inv, RunTo;
    ReachableOk(t, data, 0, |data|);
  }

  /** A line behind the others. */
  lemma Joined(s: Parser, front: seq<Header>, h: Header)
    requires Inv(s) && s.errno == OK && RegularHeaders(front) && Regular(h)
    ensures Run(s, Lines(front) + Line(h)) == Run(Run(s, Lines(front)), Line(h))
  {
    hide Inv, Regular, Line, Run, HazardAt;
    LineLength(h);
    if front == [] {
      NothingRun(s);
      assert Lines(front) + Line(h) == Line(h);
    } else {
      NoHazard(s, front, Line(h));
      CutInvariant(s, Lines(front), Line(h));
    }
  }

  lemma NothingRun(s: Parser)
    ensures Run(s, []) == s
  {
  }

  lemma NoHazard(s: Parser, front: seq<Header>, b: Bytes)
    requires front != [] && b != [] && RegularHeaders(front)
    ensures |Lines(front)| > 0 && !HazardAt(s, Lines(front) + b, |Lines(front)|)
  {
    hide Regular, Line, RunTo;
    RegularFront(front);
    LineLength(front[|front| - 1]);
  }

  lemma KnowsMore(s: Parser, hs: seq<Header>, u: Parser, v: Parser)
    requires hs != [] && RegularHeaders(hs) && Knows(s, hs[..|hs| - 1], u) && LineDone(u, hs[|hs| - 1], v)
    ensures Knows(s, hs, v)
  {
    hide Line, AsksKeepAlive, AsksClose, AsksUpgrade, SaysChunked, GivesLength, TransferName, Decimal, Regular;
    hide SomeKeepAlive, SomeClose, SomeUpgrade, SomeChunked, SomeTransfer, SomeLength, RegularHeaders;
    OneMore(hs);
    RegularFront(hs);
    ValuedMore(hs, u.sink);
    LengthMore(hs, u.contentLength, v.contentLength);
  }

  lemma ValuedMore(hs: seq<Header>, k: Sink)
    requires hs != [] && Pending(hs[..|hs| - 1], k)
    ensures Pending(hs, SinkWith(k, hs[|hs| - 1]))
  {
    var front := hs[..|hs| - 1];
    if front == [] { assert hs[..|hs| - 1] == []; }
  }

  lemma LengthMore(hs: seq<Header>, n: int, m: int)
    requires hs != [] && RegularHeaders(hs)
    requires var front := hs[..|hs| - 1];
             if SomeLength(front) then forall h <- front :: GivesLength(h) ==> n == Decimal(h.value) else n == ULLONG_MAX
    requires m == if GivesLength(hs[|hs| - 1]) then Decimal(hs[|hs| - 1].value) else n
    ensures if SomeLength(hs) then forall h <- hs :: GivesLength(h) ==> m == Decimal(h.value) else m == ULLONG_MAX
  {
    hide GivesLength, Decimal, Regular, RegularHeaders;
    RegularFront(hs);
    OneMore(hs);
    var front, h := hs[..|hs| - 1], hs[|hs| - 1];
    assert hs == front + [h];
  }

  // ---------------------------------------------------------------- the end of the headers

  const LINE_END: Bytes := [CR, LF]

  /** A length and a transfer encoding at once, unless that is allowed. */
  predicate LengthClash(u: Parser) {
    u.usesTransferEncoding && u.flags.contentLength && if u.flags.chunked then !u.cfg.allowChunkedLength else !u.cfg.lenient
  }

  /** Another protocol follows. */
  predicate GoesOver(u: Parser) { u.flags.upgrade || u.cfg.connect }

  /** The headers collected, and nothing pending. */
  predicate Closed(u: Parser, v: Parser) {
    && v.sink.body == u.sink.body && v.cfg == u.cfg && v.flags == u.flags
    && v.sink.headers == u.sink.headers + if u.sink.field != [] then [(u.sink.field, u.sink.value)] else []
  }

  /** The empty line behind the headers: how the message goes on. */
  lemma EndOfHeaders(u: Parser, data: Bytes)
    requires Between(u) && u.nread + 2 <= MAX_HEADER_SIZE && !u.flags.trailing && u.completions == 0 && !u.upgrade
    requires |data| >= 2 && data[0] == CR && data[1] == LF
    ensures RunTo(u, data, 0, 1).completions == 0 && RunTo(u, data, 0, 0).completions == 0
    ensures var v := RunTo(u, data, 0, 2);
            if LengthClash(u) then v.errno == UnexpectedContentLength && v.completions == 0
            else
              && Closed(u, v) && v.usesTransferEncoding == u.usesTransferEncoding
              && if GoesOver(u) then v.errno == OK && v.upgrade && v.completions == 1
                 else
                   && !v.upgrade
                   && if u.flags.chunked then Ready(v) && v.completions == 0
                      else if u.usesTransferEncoding then
                        if u.cfg.lenient then Fine(v) && v.state == BodyIdentityEof && v.completions == 0
                        else v.errno == InvalidTransferEncoding && v.completions == 0
                      else if u.contentLength == 0 || u.contentLength == ULLONG_MAX then v.errno == OK && v.completions == 1
                      else Fine(v) && v.state == BodyIdentity && v.contentLength == u.contentLength && v.completions == 0
  {
    assert RunTo(u, data, 0, 0) == u;
    assert RunTo(u, data, 0, 1) == u.(state := HeadersAlmostDone, nread := u.nread + 1);
  }

  /** The empty line behind the trailer: the message completes, and what the trailer said is not collected any more. */
  lemma EndOfTrailer(u: Parser, data: Bytes)
    requires Between(u) && u.nread + 2 <= MAX_HEADER_SIZE && u.flags.trailing
    requires |data| >= 2 && data[0] == CR && data[1] == LF
    ensures RunTo(u, data, 0, 1).completions == u.completions
    ensures var v := RunTo(u, data, 0, 2); v.errno == OK && v.completions == u.completions + 1 && v.sink == u.sink
  {
    assert RunTo(u, data, 0, 0) == u;
    assert RunTo(u, data, 0, 1) == u.(state := HeadersAlmostDone, nread := u.nread + 1);
  }

  /** A body of known length. */
  lemma BodyRead(v: Parser, data: Bytes, p: nat)
    requires Fine(v) && v.state == BodyIdentity && v.contentLength > 0 && v.completions == 0 && p + v.contentLength <= |data|
    ensures var n := p + v.contentLength;
            && (forall j :: p <= j < n ==> RunTo(v, data, p, j).completions == 0)
            && var w := RunTo(v, data, p, n);
               w.errno == OK && w.completions == 1 && w.sink == v.sink.(body := v.sink.body + data[p..n]) && w.flags == v.flags && w.upgrade == v.upgrade
  {
    hide Step;
    forall j | p <= j < p + v.contentLength ensures RunTo(v, data, p, j).completions == 0 { BodyBlock(v, data, p, j - p); }
    LastBodyByte(v, data, p);
  }

  /** A body that lasts until the connection closes: every byte is handed over, and the message never completes. */
  lemma {:induction false} EndlessBody(v: Parser, data: Bytes, p: nat, j: nat)
    requires Fine(v) && v.state == BodyIdentityEof && p <= j <= |data|
    ensures RunTo(v, data, p, j) == v.(sink := v.sink.(body := v.sink.body + data[p..j]))
    decreases j
  {
    hide Step;
    if j == p {
      assert v.sink.body + data[p..p] == v.sink.body;
    } else {
      EndlessBody(v, data, p, j - 1);
      InsideBody(RunTo(v, data, p, j - 1), data[j - 1], Next(data, j - 1));
      assert data[p..j] == data[p..j - 1] + [data[j - 1]];
      assert (v.sink.body + data[p..j - 1]) + [data[j - 1]] == v.sink.body + data[p..j];
    }
  }

  // ---------------------------------------------------------------- whole requests

  lemma InitialIsFresh(cfg: Config, nread: nat)
    requires nread <= MAX_HEADER_SIZE
    ensures Fresh(Initial(cfg, nread)) && Inv(Initial(cfg, nread))
  {
    InitialOk(cfg, nread);
  }

  /** Behind the header lines the rest is read as from the settled state. */
  lemma BehindLines(s: Parser, hs: seq<Header>, rest: Bytes, k: nat)
    requires Fresh(s) && Inv(s) && RegularHeaders(hs) && s.nread + |Lines(hs)| + 1 <= MAX_HEADER_SIZE
    requires 0 < k <= |rest| && !Blank(rest[0])
    ensures Knows(s, hs, Settled(Run(s, Lines(hs))))
    ensures RunTo(s, Lines(hs) + rest, 0, |Lines(hs)| + k) == RunTo(Settled(Run(s, Lines(hs))), rest, 0, k)
  {
    hide *;
    HeadersRead(s, hs);
    FreshOk(s);
    var lines := Lines(hs);
    var t := Run(s, lines);
    SettledReads(t, rest, k);
    if hs == [] {
      NoHeaders(s);
      assert lines + rest == rest;
    } else {
      NoHazard(s, hs, rest);
      CutInvariant(s, lines, rest);
      RunJoins(s, lines + rest, 0, |lines|, |lines| + k);
      SuffixReadsAlike(t, lines, rest, k);
    }
  }

  /** Nothing completes before the last byte if the byte before it does not. */
  lemma CompletesAtEnd(s: Parser, data: Bytes)
    requires data != [] && RunTo(s, data, 0, |data| - 1).completions == 0
    ensures OneMessage(s, data)
  {
    hide RunTo;
    forall j | 0 <= j < |data| ensures RunTo(s, data, 0, j).completions == 0 { CompletionsGrow(s, data, j, |data| - 1); }
  }

  lemma NoTransferNoChunks(hs: seq<Header>)
    requires !SomeTransfer(hs)
    ensures !SomeChunked(hs)
  {
    hide Spells, CodingAt, Says;
    forall h <- hs ensures !SaysChunked(h) {
      assert !TransferName(h.name);
      if Spells(h.name, TRANSFER_ENCODING) { WholeName(h.name); }
    }
  }

  lemma WholeName(name: Bytes)
    requires Spells(name, TRANSFER_ENCODING)
    ensures TransferName(name)
  {
    assert name[..|TRANSFER_ENCODING|] == name;
  }

  /** The flags, headers and body of a request that has been read. */
  predicate Answered(s: Parser, hs: seq<Header>, body: Bytes, t: Parser) {
    && t.errno == OK && t.completions == 1 && t.sink.headers == Collected(hs) && t.sink.body == s.sink.body + body
    && t.flags.keepAlive == SomeKeepAlive(hs) && t.flags.close == SomeClose(hs)
  }

  /** The length that the headers give. */
  predicate LengthIs(hs: seq<Header>, n: nat) {
    if SomeLength(hs) then forall h <- hs :: GivesLength(h) ==> Decimal(h.value) == n else n == 0
  }

  /** What the parser knows at the end of the headers. */
  lemma KnowsEnd(s: Parser, hs: seq<Header>, u: Parser)
    requires Fresh(s) && Knows(s, hs, u)
    ensures Between(u) && !u.flags.trailing && u.completions == 0 && !u.upgrade && u.nread == s.nread + |Lines(hs)| && u.cfg == s.cfg
    ensures u.usesTransferEncoding == SomeTransfer(hs) && u.flags.chunked == SomeChunked(hs) && u.flags.contentLength == SomeLength(hs)
    ensures u.flags.upgrade == SomeUpgrade(hs) && u.flags.keepAlive == SomeKeepAlive(hs) && u.flags.close == SomeClose(hs)
    ensures u.sink.body == s.sink.body
    ensures forall n: nat :: LengthIs(hs, n) ==> u.contentLength == if SomeLength(hs) then n else ULLONG_MAX
  {
    hide Between, SomeKeepAlive, SomeClose, SomeUpgrade, SomeChunked, SomeTransfer, Pending, Decimal, GivesLength;
    if SomeLength(hs) { var h :| h in hs && GivesLength(h); }
  }

  /** The pending header joins the others at the end. */
  lemma AllCollected(s: Parser, hs: seq<Header>, u: Parser, v: Parser)
    requires Knows(s, hs, u) && RegularHeaders(hs) && Closed(u, v)
    ensures v.sink.headers == Collected(hs)
  {
    hide Between, SomeKeepAlive, SomeClose, SomeUpgrade, SomeChunked, SomeTransfer, SomeLength, Regular, GivesLength, Decimal, RegularHeaders;
    if hs != [] {
      RegularFront(hs);
      NameThere(hs[|hs| - 1]);
    }
  }

  lemma NameThere(h: Header)
    requires Regular(h)
    ensures h.name != []
  {
  }

  /** The end of the headers, and the bytes behind it. */
  lemma RestParts(body: Bytes)
    ensures var rest := LINE_END + body; |rest| == 2 + |body| && rest[0] == CR && rest[1] == LF && rest[2..] == body && !Blank(rest[0])
  {
  }

  /** A request with a body of known length, or with none: the message completes on the last byte of the body, or where
      there is none on the line feed that ends the headers, and not before; the headers and exactly that body have been
      handed over. */
  lemma IdentityRequest(s: Parser, hs: seq<Header>, body: Bytes)
    requires Fresh(s) && Inv(s) && RegularHeaders(hs) && s.nread + |Lines(hs)| + 2 <= MAX_HEADER_SIZE
    requires !SomeTransfer(hs) && !SomeUpgrade(hs) && !s.cfg.connect && LengthIs(hs, |body|) && |body| <= MAX_CONTENT_LENGTH
    ensures var data := Lines(hs) + (LINE_END + body);
            OneMessage(s, data) && Answered(s, hs, body, Run(s, data)) && !Run(s, data).upgrade
  {
    hide Step, RunTo, Lines, Fresh, Inv, RegularHeaders, Knows, Between, Closed, Answered, OneMessage, LengthIs, LengthClash, Settled,
      Collected, Fine, SomeKeepAlive, SomeClose, SomeUpgrade, SomeChunked, SomeTransfer, SomeLength, Blank, Ready;
    var rest := LINE_END + body;
    RestParts(body);
    NoTransferNoChunks(hs);
    var u, data := Settled(Run(s, Lines(hs))), Lines(hs) + rest;
    BehindLines(s, hs, rest, 2);
    KnowsEnd(s, hs, u);
    LengthFits(hs, |body|);
    NoClash(u);
    EndOfHeaders(u, rest);
    var v := RunTo(u, rest, 0, 2);
    AllCollected(s, hs, u, v);
    KeptFlags(u, v);
    if body == [] {
      BehindLines(s, hs, rest, 1);
      NothingMore(s.sink.body);
      assert |data| == |Lines(hs)| + 2;
    } else {
      BodyRead(v, rest, 2);
      RunJoins(u, rest, 0, 2, |rest|);
      RunJoins(u, rest, 0, 2, |rest| - 1);
      BehindLines(s, hs, rest, |rest| - 1);
      BehindLines(s, hs, rest, |rest|);
    }
    RunIs(s, data);
    CompletesAtEnd(s, data);
    AnsweredIs(s, hs, body, Run(s, data));
  }

  lemma LengthFits(hs: seq<Header>, n: nat)
    requires LengthIs(hs, n) && n <= MAX_CONTENT_LENGTH
    ensures n < ULLONG_MAX && (!SomeLength(hs) ==> n == 0)
  {
    hide SomeLength, Decimal, GivesLength;
  }

  lemma NothingMore(body: Bytes)
    ensures body + [] == body
  {
  }

  lemma NoClash(u: Parser)
    requires !u.usesTransferEncoding
    ensures !LengthClash(u)
  {
  }

  lemma KeptFlags(u: Parser, v: Parser)
    requires Closed(u, v)
    ensures v.flags == u.flags && v.sink.body == u.sink.body && v.cfg == u.cfg
  {
  }

  lemma AnsweredIs(s: Parser, hs: seq<Header>, body: Bytes, t: Parser)
    requires t.errno == OK && t.completions == 1 && t.sink.headers == Collected(hs) && t.sink.body == s.sink.body + body
    requires t.flags.keepAlive == SomeKeepAlive(hs) && t.flags.close == SomeClose(hs)
    ensures Answered(s, hs, body, t)
  {
  }

  /** Behind the headers: the chunks, read from the empty line on. */
  lemma ChunksBehind(u: Parser, rest: Bytes, chunks: seq<Chunk>, last: Chunk)
    requires Between(u) && u.nread + 2 <= MAX_HEADER_SIZE && !u.flags.trailing && u.completions == 0 && !u.upgrade
    requires u.flags.chunked && !GoesOver(u) && !LengthClash(u)
    requires (forall k :: 0 <= k < |chunks| ==> ValidChunk(chunks[k])) && ValidLine(last.size, last.extension) && Hexadecimal(last.size) == 0
    requires rest == LINE_END + Encode(chunks, last)
    ensures |rest| > 2 && rest[0] == CR && !Blank(rest[0])
    ensures RunTo(u, rest, 0, |rest| - 1).completions == 0
    ensures Closed(u, RunTo(u, rest, 0, 2))
    ensures var v, w := RunTo(u, rest, 0, 2), RunTo(u, rest, 0, |rest|);
            && w.errno == OK && w.completions == 1 && !w.upgrade && w.flags == v.flags.(trailing := true)
            && w.sink.headers == v.sink.headers && w.sink.body == v.sink.body + Payload(chunks)
  {
    hide At, RunTo, Step, Between, Encode, Fine, Blank, Ready, ValidChunk, ValidLine, Hexadecimal, Payload, GoesOver, LengthClash, Closed;
    var code := Encode(chunks, last);
    RestParts(code);
    EndOfHeaders(u, rest);
    TailThere(rest, 2, code);
    ChunksRead(RunTo(u, rest, 0, 2), rest, chunks, last);
    RunJoins(u, rest, 0, 2, |rest|);
    RunJoins(u, rest, 0, 2, |rest| - 1);
  }

  lemma ChunksRead(v: Parser, rest: Bytes, chunks: seq<Chunk>, last: Chunk)
    requires Ready(v) && (forall k :: 0 <= k < |chunks| ==> ValidChunk(chunks[k]))
    requires ValidLine(last.size, last.extension) && Hexadecimal(last.size) == 0
    requires At(rest, 2, Encode(chunks, last)) && |rest| == 2 + |Encode(chunks, last)|
    ensures |rest| > 2 && RunTo(v, rest, 2, |rest| - 1).completions == v.completions
    ensures var w := RunTo(v, rest, 2, |rest|);
            && w.errno == OK && w.completions == v.completions + 1 && w.upgrade == v.upgrade && w.flags == v.flags.(trailing := true)
            && w.sink.headers == v.sink.headers && w.sink.body == v.sink.body + Payload(chunks)
  {
    hide At, RunTo, Step, Encode, ValidChunk, ValidLine, Hexadecimal, Payload;
    ChunkedInverts(v, rest, 2, chunks, last);
  }

  /** A request with a chunked body, whatever its chunks: the data of the chunks is the body. */
  lemma ChunkedRequest(s: Parser, hs: seq<Header>, chunks: seq<Chunk>, last: Chunk)
    requires Fresh(s) && Inv(s) && RegularHeaders(hs) && s.nread + |Lines(hs)| + 2 <= MAX_HEADER_SIZE
    requires SomeChunked(hs) && !SomeUpgrade(hs) && !s.cfg.connect && (SomeLength(hs) ==> s.cfg.allowChunkedLength)
    requires (forall k :: 0 <= k < |chunks| ==> ValidChunk(chunks[k])) && ValidLine(last.size, last.extension) && Hexadecimal(last.size) == 0
    ensures var data := Lines(hs) + (LINE_END + Encode(chunks, last));
            OneMessage(s, data) && Answered(s, hs, Payload(chunks), Run(s, data)) && !Run(s, data).upgrade
  {
    hide RunTo, Run, Lines, Fresh, Inv, RegularHeaders, Knows, Between, Closed, Answered, OneMessage, LengthIs, Settled, Encode,
      Collected, Fine, SomeKeepAlive, SomeClose, SomeUpgrade, SomeChunked, SomeTransfer, SomeLength, Blank, ValidChunk, ValidLine,
      Hexadecimal, Payload;
    var rest := LINE_END + Encode(chunks, last);
    RestParts(Encode(chunks, last));
    var u, data := Settled(Run(s, Lines(hs))), Lines(hs) + rest;
    BehindLines(s, hs, rest, 2);
    KnowsEnd(s, hs, u);
    ChunksBehind(u, rest, chunks, last);
    var v := RunTo(u, rest, 0, 2);
    AllCollected(s, hs, u, v);
    KeptFlags(u, v);
    BehindLines(s, hs, rest, |rest| - 1);
    BehindLines(s, hs, rest, |rest|);
    RunIs(s, data);
    CompletesAtEnd(s, data);
    AnsweredIs(s, hs, Payload(chunks), Run(s, data));
  }

  lemma TailThere(rest: Bytes, i: nat, tail: Bytes)
    requires i <= |rest| && rest[i..] == tail
    ensures At(rest, i, tail) && |rest| == i + |tail|
  {
    assert rest[i..i + |tail|] == rest[i..];
  }

  /** A request for another protocol: the message completes where the headers end, and the parser leaves the rest of the
      buffer alone. */
  lemma OtherProtocol(s: Parser, hs: seq<Header>, rest: Bytes)
    requires Fresh(s) && Inv(s) && RegularHeaders(hs) && s.nread + |Lines(hs)| + 2 <= MAX_HEADER_SIZE
    requires (SomeUpgrade(hs) || s.cfg.connect) && !(SomeTransfer(hs) && SomeLength(hs))
    ensures var data := Lines(hs) + (LINE_END + rest);
            && OneMessage(s, Lines(hs) + LINE_END) && Answered(s, hs, [], Run(s, data)) && Run(s, data).upgrade
            && Run(s, data) == RunTo(s, data, 0, |Lines(hs)| + 2)
  {
    hide Step, RunTo, Lines, Fresh, Inv, RegularHeaders, Knows, Between, Closed, Answered, OneMessage, LengthIs, Settled,
      Collected, Fine, SomeKeepAlive, SomeClose, SomeUpgrade, SomeChunked, SomeTransfer, SomeLength, Blank, Ready;
    RestParts([]);
    RestParts(rest);
    var u, all, end := Settled(Run(s, Lines(hs))), LINE_END + rest, LINE_END + [];
    var data := Lines(hs) + all;
    BehindLines(s, hs, all, 2);
    BehindLines(s, hs, end, 1);
    KnowsEnd(s, hs, u);
    EndOfHeaders(u, all);
    EndOfHeaders(u, end);
    var v := RunTo(u, all, 0, 2);
    AllCollected(s, hs, u, v);
    KeptFlags(u, v);
    NothingMore(s.sink.body);
    ItExits(v);
    StickyFrom(s, data, 0, |Lines(hs)| + 2, |data|);
    RunIs(s, data);
    AnsweredIs(s, hs, [], Run(s, data));
    assert end == LINE_END;
    CompletesAtEnd(s, Lines(hs) + end);
  }

  lemma ItExits(v: Parser)
    requires v.upgrade && v.completions == 1
    ensures Exited(v)
  {
  }

  /** Requests that are refused where the headers end: a length beside a transfer encoding, and a transfer encoding whose
      last coding is not chunked. */
  lemma RefusedRequest(s: Parser, hs: seq<Header>, rest: Bytes)
    requires Fresh(s) && Inv(s) && RegularHeaders(hs) && s.nread + |Lines(hs)| + 2 <= MAX_HEADER_SIZE
    requires SomeTransfer(hs)
    ensures var t := Run(s, Lines(hs) + (LINE_END + rest));
            && (SomeLength(hs) && (if SomeChunked(hs) then !s.cfg.allowChunkedLength else !s.cfg.lenient) ==>
                  t.errno == UnexpectedContentLength && t.completions == 0)
            && (!SomeLength(hs) && !SomeChunked(hs) && !s.cfg.lenient && !SomeUpgrade(hs) && !s.cfg.connect ==>
                  t.errno == InvalidTransferEncoding && t.completions == 0)
  {
    hide Step, RunTo, Lines, Fresh, Inv, RegularHeaders, Knows, Between, Closed, Answered, OneMessage, LengthIs, Settled,
      Collected, Fine, SomeKeepAlive, SomeClose, SomeUpgrade, SomeChunked, SomeTransfer, SomeLength, Blank, Ready;
    var u, all := Settled(Run(s, Lines(hs))), LINE_END + rest;
    RestParts(rest);
    BehindLines(s, hs, all, 2);
    KnowsEnd(s, hs, u);
    EndOfHeaders(u, all);
    var data := Lines(hs) + all;
    RunIs(s, data);
    if RunTo(u, all, 0, 2).errno != OK { StickyFrom(s, data, 0, |Lines(hs)| + 2, |data|); }
  }

  // ---------------------------------------------------------------- bytes that are refused

  /** In every state, the bytes that a request may not have there. */
  lemma RefusedBytes(s: Parser, c: Byte, next: Option<Byte>)
    requires Fine(s) && s.nread < MAX_HEADER_SIZE
    ensures var e := Step(s, c, next).errno;
            match s.state
            case HeaderFieldStart => c != CR && c != LF && !TokenChar(c) ==> e == InvalidHeaderToken
            case HeaderField => !TokenChar(c) && c != COLON ==> e == InvalidHeaderToken
            case HeaderValue => !s.cfg.lenient && !ValueChar(c) && c != CR && c != LF ==> e == InvalidHeaderToken
            case HeaderValueDiscardWs => s.hs.ContentLength? && !Blank(c) && c != CR && c != LF && !IsNum(c) ==> e == InvalidContentLength
            case HeaderAlmostDone => c != LF <==> e == LfExpected
            case HeaderValueDiscardWsAlmostDone => c != LF <==> e == Strict
            case HeadersAlmostDone => c != LF ==> e == Strict
            case ChunkSizeStart => c < 128 && !HexDigit(c) ==> e == InvalidChunkSize
            case ChunkSize => c < 128 && !HexDigit(c) && c != CR && c != SEMICOLON && c != SPACE ==> e == InvalidChunkSize
            case ChunkSizeAlmostDone => c != LF <==> e == Strict
            case ChunkDataAlmostDone => c != CR <==> e == Strict
            case ChunkDataDone => c != LF <==> e == Strict
            case _ => true
  {
    hide OnField, OnValue, OnBody, OnHeadersComplete, MatchField, MatchValue, HeadersDoneStep, Token, Unhex, FirstMatch, Lower;
    TokenIs(c);
    NoDigit(c);
  }

  /** The table counts bytes from 128 on as zeros. */
  lemma NoDigit(c: Byte)
    ensures Unhex(c) == -1 <==> c < 128 && !HexDigit(c)
  {
  }

  predicate TokenChar(c: Byte) { IsLetter(c) || 48 <= c <= 57 || c in TOKEN_MARKS }

  predicate HexDigit(c: Byte) { 48 <= c <= 57 || 65 <= c <= 70 || 97 <= c <= 102 }

  /** A second Content-Length is refused. */
  lemma SecondLength(s: Parser, c: Byte, next: Option<Byte>)
    requires Fine(s) && s.nread < MAX_HEADER_SIZE && s.state.HeaderValueDiscardWs? && s.hs.ContentLength? && s.flags.contentLength && IsNum(c)
    ensures Step(s, c, next).errno == UnexpectedContentLength
  {
  }

  /** Header bytes beyond the limit are refused. */
  lemma TooManyBytes(s: Parser, c: Byte, next: Option<Byte>)
    requires Fine(s) && ParsingHeader(s.state)
    ensures s.nread >= 81920 ==> Step(s, c, next).errno == HeaderOverflow
  {
  }

  /** The hexadecimal digits. */
  lemma HexIs(c: Byte)
    ensures IsHex(c) <==> HexDigit(c)
    ensures IsHex(c) ==> Unhex(c) == if c <= 57 then c - 48 else if c <= 70 then c - 55 else c - 87
  {
  }
}
