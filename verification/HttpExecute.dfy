/**
 `http_parser_execute` and `feed` as the source runs them: blocks of header and body bytes are scanned inside
 the buffer, marks remember where a piece of data began, and the callbacks get whole pieces. Every method is
 proved to leave the parser where the byte machine of HttpMachine.dfy goes.
 */
module HttpExecute {
  import opened Wrappers
  import opened HttpMachine
  import opened HttpInvariant
  import opened HttpRuns

  // ---------------------------------------------------------------- errors met behind the size limit

  predicate LineEnd(ch: Byte) { ch == CR || ch == LF }

  predicate Illegal(lenient: bool, ch: Byte) { !lenient && !IsHeaderChar(ch) }

  /** The first line end or refused byte among `p..pe`, or `pe`. */
  function Inspect(lenient: bool, data: Bytes, p: nat, pe: nat): (q: nat)
    requires p <= pe <= |data|
    ensures p <= q <= pe && (q < pe ==> LineEnd(data[q]) || Illegal(lenient, data[q]))
    ensures forall r :: p <= r < q ==> !LineEnd(data[r]) && !Illegal(lenient, data[r])
    decreases pe - p
  {
    if p == pe || LineEnd(data[p]) || Illegal(lenient, data[p]) then p else Inspect(lenient, data, p + 1, pe)
  }

  /** Where the loop of s_header_value stops in this buffer, and the error it stops with: it looks for the end of the
      line before it adds up the bytes, and in h_general steps over one byte after each MAX_HEADER_SIZE. */
  function Scan(lenient: bool, hs: HeaderState, index: nat, length: nat, data: Bytes, p: nat): (r: (nat, Errno))
    requires p <= |data|
    ensures p <= r.0 <= |data| && (r.1 != OK ==> r.0 < |data|) && r.1 != HeaderOverflow
    decreases |data| - p
  {
    if p == |data| || LineEnd(data[p]) then (p, OK)
    else if hs == General then
      var pe := p + Min(|data| - p, MAX_HEADER_SIZE);
      var q := Inspect(lenient, data, p, pe);
      if q < pe then (q, if LineEnd(data[q]) then OK else InvalidHeaderToken)
      else if pe == |data| then (pe, OK)
      else Scan(lenient, hs, index, length, data, pe + 1)
    else if Illegal(lenient, data[p]) then (p, InvalidHeaderToken)
    else
      var m := MatchValue(hs, index, length, data[p]);
      if m.errno != OK then (p, m.errno) else Scan(lenient, m.hs, m.index, m.contentLength, data, p + 1)
  }

  function ScanOf(s: Parser, data: Bytes, p: nat): (nat, Errno)
    requires p <= |data|
  {
    Scan(s.cfg.lenient, s.hs, s.index, s.contentLength, data, p)
  }

  /** The scan that begins at `b` in state `s` meets a byte it refuses, and only behind the byte at which the size
      limit is passed. */
  predicate LateRefusal(s: Parser, data: Bytes, b: nat)
    requires b <= |data|
  {
    && s.state.HeaderValue? && s.errno == OK && !Exited(s) && s.nread < MAX_HEADER_SIZE
    && ScanOf(s, data, b).1 != OK && b + (MAX_HEADER_SIZE - s.nread) <= ScanOf(s, data, b).0
  }

  predicate AnyRefused(s: Parser, data: Bytes) {
    exists b :: 0 <= b <= |data| && RefusedBehindLimit(s, data, b)
  }

  /** In this buffer the block of a value begins at `b`, the size limit is passed inside it, and before its end there
      is a byte that the scan refuses. */
  predicate RefusedBehindLimit(s: Parser, data: Bytes, b: nat)
    requires b <= |data|
  {
    && LateRefusal(RunTo(s, data, 0, b), data, b)
    && (b > 0 ==> !RunTo(s, data, 0, b - 1).state.HeaderValue?)
  }

  predicate Body(state: State) {
    state.BodyIdentity? || state.BodyIdentityEof? || state.ChunkData? || state.ChunkDataAlmostDone?
  }

  /** The callbacks' data is on the right side: inside a name a name is being built, inside a value a value. */
  predicate SinkOk(s: Parser) {
    (s.state.HeaderField? ==> s.sink.inField) && (s.state.HeaderValue? ==> !s.sink.inField)
  }

  // ---------------------------------------------------------------- pieces of data

  lemma FieldPieces(k: Sink, data: Bytes, m: nat, p: nat)
    requires m <= p < |data|
    ensures OnField(OnField(k, data[m..p]), [data[p]]) == OnField(k, data[m..p + 1])
  {
    assert data[m..p + 1] == data[m..p] + [data[p]];
    assert (k.field + data[m..p]) + [data[p]] == k.field + (data[m..p] + [data[p]]);
  }

  lemma ValuePieces(k: Sink, data: Bytes, m: nat, p: nat)
    requires m <= p < |data|
    ensures OnValue(OnValue(k, data[m..p]), [data[p]]) == OnValue(k, data[m..p + 1])
  {
    assert data[m..p + 1] == data[m..p] + [data[p]];
    assert (k.value + data[m..p]) + [data[p]] == k.value + (data[m..p] + [data[p]]);
  }

  lemma BodyPieces(k: Sink, data: Bytes, m: nat, p: nat, q: nat)
    requires m <= p <= q <= |data|
    ensures OnBody(OnBody(k, data[m..p]), data[p..q]) == OnBody(k, data[m..q])
  {
    assert data[m..q] == data[m..p] + data[p..q];
    assert (k.body + data[m..p]) + data[p..q] == k.body + (data[m..p] + data[p..q]);
  }

  /** The data between the set mark and `p`, handed to its callback. */
  function Deliver(s: Parser, fieldMark: int, valueMark: int, bodyMark: int, data: Bytes, p: nat): Parser
    requires -1 <= fieldMark <= p && -1 <= valueMark <= p && -1 <= bodyMark <= p <= |data|
  {
    if fieldMark >= 0 then s.(sink := OnField(s.sink, data[fieldMark..p]))
    else if valueMark >= 0 then s.(sink := OnValue(s.sink, data[valueMark..p]))
    else if bodyMark >= 0 then s.(sink := OnBody(s.sink, data[bodyMark..p]))
    else s
  }

  // ---------------------------------------------------------------- steps inside a block

  /** The machine, having read `n` bytes of a block that started in `s`, is at `t`, or past the size limit. */
  predicate Progress(s: Parser, data: Bytes, start: nat, p: nat, t: Parser)
    requires start <= p <= |data|
  {
    var r := RunTo(s, data, start, p);
    if s.nread + (p - start) <= MAX_HEADER_SIZE then r == t.(nread := s.nread + (p - start))
    else r.errno == HeaderOverflow
  }

  lemma FieldByteStep(x: Parser, ch: Byte, next: Option<Byte>)
    requires x.state.HeaderField? && x.errno == OK && !Exited(x) && Token(ch) != 0
    ensures Step(x, ch, next) ==
              if x.nread + 1 > MAX_HEADER_SIZE then Fail(x.(nread := x.nread + 1), HeaderOverflow)
              else FieldByte(x.(nread := x.nread + 1), ch)
  {
    hide FieldByte;
  }

  lemma ValueByteStep(x: Parser, ch: Byte, next: Option<Byte>)
    requires x.state.HeaderValue? && x.errno == OK && !Exited(x) && ch != CR && ch != LF
    ensures Step(x, ch, next) ==
              if x.nread + 1 > MAX_HEADER_SIZE then Fail(x.(nread := x.nread + 1), HeaderOverflow)
              else ValueByte(x.(nread := x.nread + 1), ch)
  {
    hide ValueByte;
  }

  /** One more name byte. */
  lemma FieldProgress(s: Parser, data: Bytes, start: nat, p: nat, t: Parser)
    requires start <= p < |data| && Token(data[p]) != 0
    requires t.state.HeaderField? && t.errno == OK && !Exited(t)
    requires Progress(s, data, start, p, t)
    ensures Progress(s, data, start, p + 1, FieldByte(t, data[p]))
  {
    hide Step, Token, MatchField, OnField;
    if s.nread + (p - start) <= MAX_HEADER_SIZE {
      FieldByteStep(t.(nread := s.nread + (p - start)), data[p], Next(data, p));
    } else {
      StickyFrom(s, data, start, p, p + 1);
    }
  }

  /** One more value byte, valid or not. */
  lemma ValueProgress(s: Parser, data: Bytes, start: nat, p: nat, t: Parser)
    requires start <= p < |data| && data[p] != CR && data[p] != LF
    requires t.state.HeaderValue? && t.errno == OK && !Exited(t)
    requires Progress(s, data, start, p, t)
    ensures Progress(s, data, start, p + 1, ValueByte(t, data[p]))
  {
    hide Step, MatchValue, OnValue, IsHeaderChar;
    if s.nread + (p - start) <= MAX_HEADER_SIZE {
      ValueByteStep(t.(nread := s.nread + (p - start)), data[p], Next(data, p));
    } else {
      StickyFrom(s, data, start, p, p + 1);
    }
  }

  lemma InsideBody(x: Parser, ch: Byte, next: Option<Byte>)
    requires x.errno == OK && !Exited(x)
    ensures (x.state.BodyIdentity? || x.state.ChunkData?) && x.contentLength > 1 ==> Step(x, ch, next) == BodyByte(x, ch)
    ensures x.state.BodyIdentityEof? ==> Step(x, ch, next) == x.(sink := OnBody(x.sink, [ch]))
  {
    hide OnBody;
  }

  /** A block of body bytes that does not use up the length. */
  lemma {:induction false} BodyBlock(s: Parser, data: Bytes, p: nat, k: nat)
    requires p + k <= |data| && s.errno == OK && !Exited(s)
    requires (s.state.BodyIdentity? || s.state.ChunkData?) && k < s.contentLength
    ensures RunTo(s, data, p, p + k) ==
              s.(contentLength := s.contentLength - k, sink := OnBody(s.sink, data[p..p + k]))
  {
    hide Step;
    if k == 0 {
      assert s.sink.body + data[p..p] == s.sink.body;
    } else {
      BodyBlock(s, data, p, k - 1);
      InsideBody(RunTo(s, data, p, p + k - 1), data[p + k - 1], Next(data, p + k - 1));
      BodyPieces(s.sink, data, p, p + k - 1, p + k);
      assert data[p + k - 1..p + k] == [data[p + k - 1]];
    }
  }

  lemma {:induction false} EofBlock(s: Parser, data: Bytes, p: nat, k: nat)
    requires p + k <= |data| && s.errno == OK && !Exited(s) && s.state.BodyIdentityEof?
    ensures RunTo(s, data, p, p + k) == s.(sink := OnBody(s.sink, data[p..p + k]))
  {
    hide Step;
    if k == 0 {
      assert s.sink.body + data[p..p] == s.sink.body;
    } else {
      EofBlock(s, data, p, k - 1);
      InsideBody(RunTo(s, data, p, p + k - 1), data[p + k - 1], Next(data, p + k - 1));
      BodyPieces(s.sink, data, p, p + k - 1, p + k);
      assert data[p + k - 1..p + k] == [data[p + k - 1]];
    }
  }

  // ---------------------------------------------------------------- the parser object

  function Min(a: nat, b: nat): nat { if a < b then a else b }

  class HttpParser {
    var parser: Parser
    // the local pointers header_field_mark, header_value_mark and body_mark; -1 for null
    var fieldMark: int
    var valueMark: int
    var bodyMark: int

    constructor (cfg: Config, nread: nat)
      ensures parser == Initial(cfg, nread)
      ensures nread <= MAX_HEADER_SIZE ==> Inv(parser) && SinkOk(parser)
    {
      parser := Initial(cfg, nread);
      fieldMark, valueMark, bodyMark := -1, -1, -1;
      if nread <= MAX_HEADER_SIZE { InitialOk(cfg, nread); }
    }

    /** At most one mark is set, and only where data of its kind is being read. */
    ghost predicate MarksOk(p: nat)
      reads this
    {
      && -1 <= fieldMark <= p && (fieldMark >= 0 <==> parser.state.HeaderField?)
      && -1 <= valueMark <= p && (valueMark >= 0 <==> parser.state.HeaderValue?)
      && -1 <= bodyMark <= p && (bodyMark >= 0 ==> Body(parser.state))
    }

    /** What the byte machine would be at: the struct, with the marked data handed over. */
    ghost function At(data: Bytes, p: nat): Parser
      reads this
      requires MarksOk(p) && p <= |data|
    {
      Deliver(parser, fieldMark, valueMark, bodyMark, data, p)
    }

    /** The round that began in `s` at `start` met an error at `q`: the machine's own, or that of the scan if it refused
        a byte behind the size limit. */
    ghost predicate Stopped(s: Parser, data: Bytes, start: nat, q: nat)
      reads this`parser
      requires start <= |data|
    {
      var e := RunTo(s, data, start, |data|).errno;
      && parser.errno != OK && e != OK && SameState(s, data, start)
      && (if LateRefusal(s, data, start) then e == HeaderOverflow && parser.errno == ScanOf(s, data, start).1 else parser.errno == e)
      && start <= q < |data| && RunTo(s, data, start, q + 1).errno != OK
      && (e != HeaderOverflow ==> RunTo(s, data, start, q).errno == OK)
    }

    /** The parser left for another protocol behind byte `q - 1`. */
    ghost predicate Left(s: Parser, data: Bytes, start: nat, q: nat)
      reads this`parser
      requires start <= |data|
    {
      && parser.errno == OK && Exited(parser) && parser == RunTo(s, data, start, |data|)
      && start < q <= |data| && parser == RunTo(s, data, start, q) && !Exited(RunTo(s, data, start, q - 1))
    }

    /** After a round of the loop that began in `s` at `start`: either the loop goes on at `q` and the machine is
        where the parser is, or the parser stopped with an error, or it left. */
    ghost predicate Outcome(s: Parser, data: Bytes, start: nat, q: nat, stop: bool)
      reads this
      requires start <= |data|
    {
      if !stop then
        && start < q <= |data| && parser.errno == OK && !Exited(parser) && MarksOk(q)
        && At(data, q) == RunTo(s, data, start, q)
        && (q < |data| && parser.state.HeaderValue? ==> q == start + 1 && !s.state.HeaderValue?)
      else Stopped(s, data, start, q) || Left(s, data, start, q)
    }

    /** The loop of s_header_field: scans the rest of a name. `s` is the machine before the first byte was counted. */
    method NameBytes(data: Bytes, start: nat, ghost s: Parser) returns (p: nat)
      requires start < |data| && MarksOk(start) && parser.state.HeaderField?
      requires s.errno == OK && !Exited(s) && s.nread + 1 <= MAX_HEADER_SIZE
      requires At(data, start) == s.(nread := s.nread + 1)
      modifies this
      ensures start <= p <= |data| && (p < |data| ==> Token(data[p]) == 0) && Tokens(data, start, p)
      ensures MarksOk(p) && parser.state.HeaderField? && parser.errno == OK && !Exited(parser)
      ensures parser.nread == s.nread + 1 && Progress(s, data, start, p, At(data, p))
    {
      hide Step, MatchField, Token, OnField, RunTo, Tokens;
      p := start;
      NoTokens(data, start);
      assert Progress(s, data, start, p, At(data, p)) by { NoBytes(s, data, start); }
      while p != |data| && Token(data[p]) != 0
        invariant start <= p <= |data| && MarksOk(p) && parser.state.HeaderField? && Tokens(data, start, p)
        invariant parser.errno == OK && !Exited(parser) && parser.nread == s.nread + 1
        invariant Progress(s, data, start, p, At(data, p))
      {
        if parser.hs == General {
          p := GeneralNameBytes(data, start, p, s);
        } else {
          FieldProgress(s, data, start, p, At(data, p));
          FieldPieces(parser.sink, data, fieldMark, p);
          var (hs, index) := MatchField(parser.hs, parser.index, Token(data[p]));
          parser := parser.(hs := hs, index := index, usesTransferEncoding :=
                              parser.usesTransferEncoding || (parser.hs == MatchingTransferEncoding && hs == TransferEncoding));
        }
        TokensNext(data, start, p);
        p := p + 1;
      }
    }

    /** In h_general the scan runs ahead to the last byte of the name, or of MAX_HEADER_SIZE bytes. */
    method GeneralNameBytes(data: Bytes, start: nat, from: nat, ghost s: Parser) returns (p: nat)
      requires start <= from < |data| && MarksOk(from) && Token(data[from]) != 0 && Tokens(data, start, from)
      requires parser.state.HeaderField? && parser.hs == General && parser.errno == OK && !Exited(parser)
      requires Progress(s, data, start, from, At(data, from))
      ensures from <= p < |data| && Token(data[p]) != 0 && MarksOk(p) && Tokens(data, start, p)
      ensures Progress(s, data, start, p + 1, At(data, p + 1))
    {
      hide Step, MatchField, Token, OnField, RunTo, Tokens;
      p := from;
      var pe := p + Min(|data| - p, MAX_HEADER_SIZE);
      while p + 1 < pe && Token(data[p + 1]) != 0
        invariant from <= p < |data| && MarksOk(p) && Token(data[p]) != 0 && Tokens(data, start, p)
        invariant Progress(s, data, start, p, At(data, p))
      {
        GeneralName(s, data, start, p);
        TokensNext(data, start, p);
        p := p + 1;
      }
      GeneralName(s, data, start, p);
    }

    /** s_header_field. */
    method ScanField(data: Bytes, start: nat, ghost s: Parser) returns (q: nat, stop: bool)
      requires start < |data| && MarksOk(start) && parser.state.HeaderField?
      requires s.errno == OK && !Exited(s) && s.nread + 1 <= MAX_HEADER_SIZE
      requires At(data, start) == s.(nread := s.nread + 1)
      modifies this
      ensures Outcome(s, data, start, q, stop)
    {
      hide Step, Token, OnField, RunTo, Tokens, Scan, SameState;
      assert s.state.HeaderField?;
      var p := NameBytes(data, start, s);
      if p == |data| {
        parser := parser.(nread := parser.nread + (p - 1 - start));
        if parser.nread > MAX_HEADER_SIZE {
          NameStopped(s, data, start, p - 1, p);
          parser := Fail(parser, HeaderOverflow);
          return p - 1, true;
        }
        return p, false;
      }
      parser := parser.(nread := parser.nread + (p - start));
      if parser.nread > MAX_HEADER_SIZE {
        EndOfBlockOverflows(s, data, start, p, At(data, p));
        NameStopped(s, data, start, p, p);
        parser := Fail(parser, HeaderOverflow);
        return p, true;
      }
      EndOfName(s, data, start, p, At(data, p));
      if data[p] == COLON {
        parser := parser.(state := HeaderValueDiscardWs, sink := OnField(parser.sink, data[fieldMark..p]));
        fieldMark := -1;
        return p + 1, false;
      }
      NameStopped(s, data, start, p, p);
      parser := Fail(parser, InvalidHeaderToken);
      return p, true;
    }

    /** The inner loop of s_header_value in h_general. After a full MAX_HEADER_SIZE bytes without a line end the
        source steps over one byte unread; the size limit stops such a header anyway. */
    method GeneralValueBytes(data: Bytes, start: nat, from: nat, ghost s: Parser) returns (p: nat, failed: bool)
      requires start <= from < |data| && !LineEnd(data[from])
      requires MarksOk(from) && parser.state.HeaderValue? && parser.hs == General && parser.errno == OK && !Exited(parser)
      requires Progress(s, data, start, from, At(data, from)) && NoLineEnd(s.nread, data, start, from)
      modifies this
      ensures from <= p <= |data| && NoLineEnd(s.nread, data, start, p)
      ensures !failed ==> from < p && parser == old(parser) && MarksOk(p) && fieldMark == old(fieldMark) && valueMark == old(valueMark)
                          && bodyMark == old(bodyMark) && Progress(s, data, start, p, At(data, p))
                          && ScanOf(parser, data, from) == ScanOf(parser, data, p)
      ensures failed ==> ScanOf(old(parser), data, from) == (p, parser.errno) && p < |data| && RefusedAt(s, data, start, p, parser.errno)
    {
      hide Step, RunTo, OnValue, IsHeaderChar, Inspect, NoLineEnd, Scan;
      var pe := from + Min(|data| - from, MAX_HEADER_SIZE);
      p := GeneralLoop(data, start, from, pe, s);
      ScanGeneral(parser, data, from);
      if p != pe && !LineEnd(data[p]) {
        parser := Fail(parser, InvalidHeaderToken);
        return p, true;
      }
      if p != pe {
        ScanGeneral(parser, data, p);
        p := p - 1;
      } else if p == |data| {
        ScanEnds(parser, data, p);
        p := p - 1;
      } else {
        NoLineEndNext(s.nread, data, start, p);
        Skipped(s, data, start, p, At(data, p), At(data, p + 1));
      }
      return p + 1, false;
    }

    method GeneralLoop(data: Bytes, start: nat, from: nat, pe: nat, ghost s: Parser) returns (p: nat)
      requires start <= from < pe <= |data| && !LineEnd(data[from])
      requires MarksOk(from) && parser.state.HeaderValue? && parser.hs == General && parser.errno == OK && !Exited(parser)
      requires Progress(s, data, start, from, At(data, from)) && NoLineEnd(s.nread, data, start, from)
      ensures from <= p <= pe && MarksOk(p) && p == Inspect(parser.cfg.lenient, data, from, pe) && NoLineEnd(s.nread, data, start, p)
      ensures Progress(s, data, start, p, At(data, p))
      ensures p < pe && !LineEnd(data[p]) ==> RefusedAt(s, data, start, p, InvalidHeaderToken)
    {
      hide Step, RunTo, OnValue, IsHeaderChar, Inspect, NoLineEnd, Scan;
      p := from;
      while p != pe && !LineEnd(data[p])
        invariant from <= p <= pe && (p == from ==> p != pe) && MarksOk(p) && NoLineEnd(s.nread, data, start, p)
        invariant Progress(s, data, start, p, At(data, p))
        invariant Inspect(parser.cfg.lenient, data, from, pe) == Inspect(parser.cfg.lenient, data, p, pe)
      {
        InspectNext(parser.cfg.lenient, data, p, pe);
        if Illegal(parser.cfg.lenient, data[p]) {
          Refused(s, data, start, p, At(data, p));
          return;
        }
        ValueProgress(s, data, start, p, At(data, p));
        NoLineEndNext(s.nread, data, start, p);
        ValuePieces(parser.sink, data, valueMark, p);
        p := p + 1;
      }
      InspectStops(parser.cfg.lenient, data, p, pe);
    }

    /** The loop of s_header_value up to the end of the line or of the buffer. */
    method ValueBytes(data: Bytes, start: nat, ghost s: Parser) returns (p: nat, failed: bool)
      requires start < |data| && MarksOk(start) && parser.state.HeaderValue?
      requires s.errno == OK && !Exited(s) && s.nread + 1 <= MAX_HEADER_SIZE
      requires At(data, start) == s.(nread := s.nread + 1)
      modifies this
      ensures start <= p <= |data| && NoLineEnd(s.nread, data, start, p)
      ensures ScanOf(s, data, start) == (p, if failed then parser.errno else OK)
      ensures failed ==> p < |data| && RefusedAt(s, data, start, p, parser.errno)
      ensures !failed ==>
                && (p < |data| ==> LineEnd(data[p]))
                && MarksOk(p) && parser.state.HeaderValue? && parser.errno == OK && !Exited(parser)
                && parser.nread == s.nread + 1 && Progress(s, data, start, p, At(data, p))
    {
      hide Step, RunTo, OnValue, MatchValue, IsHeaderChar, Scan, NoLineEnd;
      p, failed := start, false;
      assert Progress(s, data, start, p, At(data, p)) by { NoBytes(s, data, start); }
      assert NoLineEnd(s.nread, data, start, p) by { NoneSoFar(s.nread, data, start); }
      while p != |data| && !LineEnd(data[p])
        invariant start <= p <= |data| && MarksOk(p) && parser.state.HeaderValue?
        invariant parser.errno == OK && !Exited(parser) && parser.nread == s.nread + 1
        invariant Progress(s, data, start, p, At(data, p)) && NoLineEnd(s.nread, data, start, p)
        invariant ScanOf(s, data, start) == ScanOf(parser, data, p)
      {
        if parser.hs == General {
          p, failed := GeneralValueBytes(data, start, p, s);
          if failed { return; }
        } else {
          ValueProgress(s, data, start, p, At(data, p));
          ValuePieces(parser.sink, data, valueMark, p);
          NoLineEndNext(s.nread, data, start, p);
          ScanMatcher(parser, data, p);
          if Illegal(parser.cfg.lenient, data[p]) {
            Refused(s, data, start, p, At(data, p));
            parser := Fail(parser, InvalidHeaderToken);
            return p, true;
          }
          var m := MatchValue(parser.hs, parser.index, parser.contentLength, data[p]);
          if m.errno != OK { Refused(s, data, start, p, At(data, p)); }
          parser := parser.(hs := m.hs, index := m.index, contentLength := m.contentLength, errno := m.errno);
          if m.errno != OK { return p, true; }
          p := p + 1;
        }
      }
      ScanEnds(parser, data, p);
    }

    /** s_header_value. */
    method ScanValue(data: Bytes, start: nat, ghost s: Parser) returns (q: nat, stop: bool)
      requires start < |data| && MarksOk(start) && parser.state.HeaderValue?
      requires s.errno == OK && !Exited(s) && s.nread + 1 <= MAX_HEADER_SIZE
      requires At(data, start) == s.(nread := s.nread + 1)
      modifies this
      ensures Outcome(s, data, start, q, stop)
    {
      hide Step, OnValue, RunTo, Scan, SameState, NoLineEnd;
      assert s.state.HeaderValue?;
      var p, failed := ValueBytes(data, start, s);
      if failed {
        ValueStopped(s, data, start, p, p);
        return p, true;
      }
      if p == |data| {
        parser := parser.(nread := parser.nread + (p - 1 - start));
        if parser.nread > MAX_HEADER_SIZE {
          ValueStopped(s, data, start, p - 1, p);
          parser := Fail(parser, HeaderOverflow);
          return p - 1, true;
        }
        return p, false;
      }
      parser := parser.(nread := parser.nread + (p - start));
      if parser.nread > MAX_HEADER_SIZE {
        EndOfBlockOverflows(s, data, start, p, At(data, p));
        ValueStopped(s, data, start, p, p);
        parser := Fail(parser, HeaderOverflow);
        return p, true;
      }
      EndOfValue(s, data, start, p, At(data, p));
      parser := parser.(state := if data[p] == CR then HeaderAlmostDone else HeaderValueLws,
                        sink := OnValue(parser.sink, data[valueMark..p]));
      valueMark := -1;
      return p + 1, false;
    }

    /** s_header_field_start, also when re-executed on the byte after a header line: the first byte of a name is marked. */
    method StartName(data: Bytes, p: nat, ghost s: Parser) returns (q: nat, stop: bool)
      requires p < |data| && MarksOk(p) && parser.state.HeaderFieldStart? && parser.errno == OK && !Exited(parser)
      requires RunTo(s, data, p, p + 1) == FieldStart(parser, data[p]) && !s.state.HeaderValue? && s.errno == OK && !Exited(s)
      modifies this
      ensures Outcome(s, data, p, q, stop)
    {
      hide Step, RunTo, OnField, HeadersAlmostDoneStep, Token, Scan, SameState;
      var t := FieldStart(parser, data[p]);
      FieldStartShape(parser, data[p]);
      if t.errno != OK || Exited(t) {
        OneByteStops(s, data, p);
        parser := t;
        return if t.errno == OK then p + 1 else p, true;
      }
      if t.state.HeaderField? {
        assert data[p..p + 1] == [data[p]];
        parser := t.(sink := parser.sink);
        fieldMark := p;
      } else {
        parser := t;
      }
      return p + 1, false;
    }

    /** s_header_value_start: the first byte of a value is marked. */
    method StartValue(data: Bytes, p: nat, ghost s: Parser) returns (q: nat, stop: bool)
      requires p < |data| && -1 == fieldMark == valueMark == bodyMark && parser.errno == OK && !Exited(parser)
      requires RunTo(s, data, p, p + 1) == ValueStart(parser, data[p], Next(data, p)) && !s.state.HeaderValue? && s.errno == OK && !Exited(s)
      modifies this
      ensures Outcome(s, data, p, q, stop)
    {
      hide Step, RunTo, OnValue, Scan, SameState;
      var t := ValueStart(parser, data[p], Next(data, p));
      ValueStartShape(parser, data[p], Next(data, p));
      if t.errno != OK {
        OneByteStops(s, data, p);
        parser := t;
        return p, true;
      }
      assert data[p..p + 1] == [data[p]];
      parser := t.(sink := parser.sink);
      valueMark := p;
      return p + 1, false;
    }

    /** s_body_identity: takes as much of the body as the buffer holds. */
    method ScanBody(data: Bytes, p: nat) returns (q: nat, stop: bool)
      requires p < |data| && MarksOk(p) && parser.state.BodyIdentity? && parser.errno == OK && !Exited(parser)
      requires parser.contentLength > 0
      modifies this
      ensures Outcome(old(At(data, p)), data, p, q, stop)
    {
      hide Step, RunTo, OnBody;
      ghost var s := At(data, p);
      var toRead := Min(parser.contentLength, |data| - p);
      if bodyMark < 0 {
        bodyMark := p;
        NoPiece(parser.sink, data, p);
      }
      BodyPieces(parser.sink, data, bodyMark, p, p + toRead);
      if toRead < parser.contentLength {
        BodyBlock(s, data, p, toRead);
        parser := parser.(contentLength := parser.contentLength - toRead);
        return p + toRead, false;
      }
      LastBodyByte(s, data, p);
      parser := Complete(parser.(contentLength := 0, state := MessageDone,
                                 sink := OnBody(parser.sink, data[bodyMark..p + toRead])));
      bodyMark := -1;
      if Exited(parser) {
        StickyFrom(s, data, p, p + toRead, |data|);
        BodyBlock(s, data, p, toRead - 1);
        return p + toRead, true;
      }
      return p + toRead, false;
    }

    /** s_chunk_data: likewise, but the data is handed over only when the chunk or the buffer ends. */
    method ScanChunk(data: Bytes, p: nat) returns (q: nat, stop: bool)
      requires p < |data| && MarksOk(p) && parser.state.ChunkData? && parser.errno == OK && !Exited(parser)
      requires parser.contentLength > 0
      modifies this
      ensures Outcome(old(At(data, p)), data, p, q, stop)
    {
      hide Step, RunTo, OnBody;
      ghost var s := At(data, p);
      var toRead := Min(parser.contentLength, |data| - p);
      if bodyMark < 0 {
        bodyMark := p;
        NoPiece(parser.sink, data, p);
      }
      BodyPieces(parser.sink, data, bodyMark, p, p + toRead);
      if toRead < parser.contentLength {
        BodyBlock(s, data, p, toRead);
      } else {
        LastBodyByte(s, data, p);
      }
      parser := parser.(contentLength := parser.contentLength - toRead);
      if parser.contentLength == 0 {
        parser := parser.(state := ChunkDataAlmostDone);
      }
      return p + toRead, false;
    }

    /** s_body_identity_eof: the rest of the buffer is body. */
    method ScanToEof(data: Bytes, p: nat) returns (q: nat, stop: bool)
      requires p < |data| && MarksOk(p) && parser.state.BodyIdentityEof? && parser.errno == OK && !Exited(parser)
      modifies this
      ensures Outcome(old(At(data, p)), data, p, q, stop)
    {
      hide Step, RunTo, OnBody;
      ghost var s := At(data, p);
      if bodyMark < 0 {
        bodyMark := p;
        NoPiece(parser.sink, data, p);
      }
      BodyPieces(parser.sink, data, bodyMark, p, |data|);
      EofBlock(s, data, p, |data| - p);
      return |data|, false;
    }

    /** s_chunk_data_almost_done: the chunk's data, if still marked, goes to on_body. */
    method EndChunk(data: Bytes, p: nat) returns (q: nat, stop: bool)
      requires p < |data| && MarksOk(p) && parser.state.ChunkDataAlmostDone? && parser.errno == OK && !Exited(parser)
      modifies this
      ensures Outcome(old(At(data, p)), data, p, q, stop)
    {
      hide OnBody, Scan, SameState;
      ghost var s := At(data, p);
      OneByte(s, data, p);
      if data[p] != CR {
        parser := Fail(parser, Strict);
        OneByteStops(s, data, p);
        return p, true;
      }
      parser := parser.(state := ChunkDataDone);
      if bodyMark >= 0 {
        parser := parser.(sink := OnBody(parser.sink, data[bodyMark..p]));
        bodyMark := -1;
      }
      return p + 1, false;
    }

    /** The states whose byte neither starts, ends nor belongs to a piece of data. */
    method Control(data: Bytes, p: nat, ghost s: Parser) returns (q: nat, stop: bool)
      requires p < |data| && -1 == fieldMark == valueMark == bodyMark && parser.errno == OK && !Exited(parser)
      requires PlainState(parser.state)
      requires RunTo(s, data, p, p + 1) == Dispatch(parser, data[p], Next(data, p)) && !s.state.HeaderValue? && s.errno == OK && !Exited(s)
      modifies this
      ensures Outcome(s, data, p, q, stop)
    {
      hide Step, RunTo, Scan, SameState;
      PlainShape(parser, data[p], Next(data, p));
      parser := Dispatch(parser, data[p], Next(data, p));
      if parser.errno != OK || Exited(parser) {
        OneByteStops(s, data, p);
        return if parser.errno == OK then p + 1 else p, true;
      }
      return p + 1, false;
    }

    /** The header states in which a byte may start a piece of data, after the byte has been counted. */
    method HeaderByte(data: Bytes, p: nat, ghost s: Parser) returns (q: nat, stop: bool)
      requires p < |data| && -1 == fieldMark == valueMark == bodyMark && parser.errno == OK && !Exited(parser)
      requires parser.state.HeaderFieldStart? || parser.state.HeaderValueDiscardWs?
               || parser.state.HeaderValueDiscardLws? || parser.state.HeaderValueLws?
      requires RunTo(s, data, p, p + 1) == Dispatch(parser, data[p], Next(data, p)) && !s.state.HeaderValue? && s.errno == OK && !Exited(s)
      modifies this
      ensures Outcome(s, data, p, q, stop)
    {
      hide Step, RunTo, OnValue, FieldStart, ValueStart, HeadersAlmostDoneStep, HeadersDoneStep, ValueByte, FieldByte,
        BodyByte, ChunkSizeStep, ChunkSizeStartStep, ChunkSizeAlmostDoneStep;
      var ch := data[p];
      match parser.state {
        case HeaderFieldStart =>
          q, stop := StartName(data, p, s);
        case HeaderValueDiscardWs =>
          if ch == SPACE || ch == TAB { return p + 1, false; }
          if ch == CR { parser := parser.(state := HeaderValueDiscardWsAlmostDone); return p + 1, false; }
          if ch == LF { parser := parser.(state := HeaderValueDiscardLws); return p + 1, false; }
          q, stop := StartValue(data, p, s);
        case HeaderValueDiscardLws =>
          if ch == SPACE || ch == TAB { parser := parser.(state := HeaderValueDiscardWs); return p + 1, false; }
          parser := parser.(state := HeaderFieldStart, sink := OnValue(parser.sink, data[p..p]));
          assert data[p..p] == [];
          q, stop := StartName(data, p, s);
        case HeaderValueLws =>
          if ch == SPACE || ch == TAB {
            parser := parser.(state := HeaderValueStart,
                              hs := if parser.hs == ContentLengthNum then ContentLengthWs else parser.hs);
            q, stop := StartValue(data, p, s);
          } else {
            parser := FinishHeader(parser);
            q, stop := StartName(data, p, s);
          }
      }
    }

    /** One round of the loop over the buffer. */
    method Round(data: Bytes, p: nat) returns (q: nat, stop: bool)
      requires p < |data| && MarksOk(p) && parser.errno == OK && !Exited(parser) && Inv(parser)
      modifies this
      ensures Outcome(old(At(data, p)), data, p, q, stop)
    {
      hide Step, RunTo, Dispatch, OnField, OnValue, OnBody, MatcherOk, LengthsOk, Scan, SameState;
      ghost var s := At(data, p);
      OneByte(s, data, p);
      CountedStep(s, data[p], Next(data, p));
      BodyLength(parser);
      if ParsingHeader(parser.state) {
        parser := parser.(nread := parser.nread + 1);
        if parser.nread > MAX_HEADER_SIZE {
          parser := Fail(parser, HeaderOverflow);
          OneByteStops(s, data, p);
          return p, true;
        }
      }
      if parser.state.HeaderField? {
        q, stop := ScanField(data, p, s);
      } else if parser.state.HeaderValue? {
        q, stop := ScanValue(data, p, s);
      } else if parser.state.BodyIdentity? {
        q, stop := ScanBody(data, p);
      } else if parser.state.ChunkData? {
        q, stop := ScanChunk(data, p);
      } else if parser.state.BodyIdentityEof? {
        q, stop := ScanToEof(data, p);
      } else if parser.state.ChunkDataAlmostDone? {
        q, stop := EndChunk(data, p);
      } else if PlainState(parser.state) {
        q, stop := Control(data, p, s);
      } else {
        q, stop := HeaderByte(data, p, s);
      }
    }

    /** `http_parser_execute` on a non-empty buffer leaves the parser, the marks flushed, exactly where the byte
        machine goes. If the machine stops with an error so does the parser, with the same error unless the block of a
        value in which the size limit is passed holds, behind that place, a byte that the scan refuses. `n` counts the
        bytes read. The buffer's length fits the `int` that `feed` takes. */
    method Execute(data: Bytes) returns (n: nat)
      requires |data| < 0x8000_0000
      requires parser.errno == OK && !Exited(parser) ==> Inv(parser) && SinkOk(parser)
      requires !Exited(parser)
      modifies this
      ensures old(parser.errno) != OK ==> parser == old(parser) && n == 0
      ensures old(parser.errno) == OK && data != [] ==> Executed(old(parser), data, parser, n)
      ensures old(parser.errno) == OK && data == [] ==>
                if old(parser).state.BodyIdentityEof? then parser == Complete(old(parser)) && n == 0
                else parser == Fail(old(parser), InvalidEofState) && n == 1
    {
      hide Step, RunTo, Inv, OnField, OnValue, OnBody, At, Stopped, Left, Executed;
      if parser.errno != OK { return 0; }
      if data == [] {
        if parser.state.BodyIdentityEof? {
          parser := Complete(parser);
          return 0;
        }
        parser := Fail(parser, InvalidEofState);
        return 1;
      }
      fieldMark := if parser.state.HeaderField? then 0 else -1;
      valueMark := if parser.state.HeaderValue? then 0 else -1;
      bodyMark := -1;
      ghost var s0 := parser;
      Begin(data);
      var p := 0;
      while p != |data|
        invariant 0 <= p <= |data| && MarksOk(p) && parser.errno == OK && !Exited(parser) && Inv(parser)
        invariant At(data, p) == RunTo(s0, data, 0, p) && FreshBlock(s0, data, p)
        decreases |data| - p
      {
        ghost var s := At(data, p);
        SameInv(data, p);
        var q, stop := Round(data, p);
        if stop {
          Ended(s0, data, p, q);
          return q;
        }
        RunJoins(s0, data, 0, p, q);
        InvAlong(s0, data, q);
        SameInv(data, q);
        StartsFresh(s0, data, p, q);
        p := q;
      }
      SameInv(data, p);
      Flush(data);
      Finished(s0, data);
      return |data|;
    }

    lemma Finished(s0: Parser, data: Bytes)
      requires parser == RunTo(s0, data, 0, |data|) && parser.errno == OK && !Exited(parser)
      ensures Executed(s0, data, parser, |data|)
    {
      hide RunTo;
      NoneRefused(s0, data);
    }

    lemma StartsFresh(s0: Parser, data: Bytes, p: nat, q: nat)
      requires p < q <= |data| && MarksOk(q) && At(data, q) == RunTo(s0, data, 0, q)
      requires q < |data| && parser.state.HeaderValue? ==> q == p + 1 && !RunTo(s0, data, 0, p).state.HeaderValue?
      ensures FreshBlock(s0, data, q)
    {
    }

    lemma Ended(s0: Parser, data: Bytes, p: nat, q: nat)
      requires p < |data| && FreshBlock(s0, data, p)
      requires var s := RunTo(s0, data, 0, p);
               s.errno == OK && !Exited(s) && (Stopped(s, data, p, q) || Left(s, data, p, q))
      ensures Executed(s0, data, parser, q)
    {
      hide Step, RunTo, Scan, SameState, LateRefusal;
      var s := RunTo(s0, data, 0, p);
      RunJoins(s0, data, 0, p, |data|);
      if Left(s, data, p, q) {
        RunJoins(s0, data, 0, p, q);
        RunJoins(s0, data, 0, p, q - 1);
        NoneRefused(s0, data);
      } else {
        RunJoins(s0, data, 0, p, q);
        RunJoins(s0, data, 0, p, q + 1);
        OnlyHere(s0, data, p);
      }
    }

    lemma Begin(data: Bytes)
      requires MarksOk(0) && SinkOk(parser) && bodyMark == -1
      ensures At(data, 0) == parser && RunTo(parser, data, 0, 0) == parser
    {
      assert data[0..0] == [];
      assert parser.sink.field + [] == parser.sink.field && parser.sink.value + [] == parser.sink.value;
    }

    lemma SameInv(data: Bytes, p: nat)
      requires MarksOk(p) && p <= |data|
      ensures Inv(At(data, p)) == Inv(parser)
      ensures Exited(At(data, p)) == Exited(parser) && At(data, p).errno == parser.errno
    {
      hide FieldMatcherOk, ValueMatcherOk;
    }

    /** The callbacks for marks left over at the end of the buffer. */
    method Flush(data: Bytes)
      requires MarksOk(|data|)
      modifies this
      ensures parser == old(At(data, |data|))
    {
      var p := |data|;
      if fieldMark >= 0 { parser := parser.(sink := OnField(parser.sink, data[fieldMark..p])); }
      if valueMark >= 0 { parser := parser.(sink := OnValue(parser.sink, data[valueMark..p])); }
      if bodyMark >= 0 { parser := parser.(sink := OnBody(parser.sink, data[bodyMark..p])); }
    }

    /** `feed`: after on_message_complete nothing more is looked at; true if the whole buffer was taken. */
    method Feed(data: Bytes) returns (ok: bool)
      requires |data| < 0x8000_0000 && data != []
      requires parser.errno == OK && parser.completions == 0 ==> Inv(parser) && SinkOk(parser)
      modifies this
      ensures old(parser.completions > 0 || parser.errno != OK) ==> parser == old(parser)
      ensures old(parser.completions == 0 && parser.errno == OK) ==> Refines(old(parser), data, parser)
      ensures ok <==> old(parser.completions > 0) ||
                      (parser.errno == OK && (Exited(parser) ==> !Exited(RunTo(old(parser), data, 0, |data| - 1))))
    {
      hide Step, RunTo, Inv, LateRefusal;
      if parser.completions > 0 { return true; }
      ghost var s0 := parser;
      var n := Execute(data);
      if parser.errno != OK { return false; }
      if n < |data| && Exited(parser) { StickyFrom(s0, data, 0, n, |data| - 1); }
      return n == |data|;
    }

    /** A connection that feeds a message buffer by buffer, cut anywhere but at the Upgrade hazard, ends up where the
        byte machine ends on the message in one piece. */
    method FeedAll(pieces: seq<Bytes>)
      requires forall i :: 0 <= i < |pieces| ==> 0 < |pieces[i]| < 0x8000_0000
      requires parser.errno == OK && Inv(parser) && SinkOk(parser) && parser.completions == 0
      requires HarmlessCuts(parser, pieces) && OneMessage(parser, Concat(pieces))
      modifies this
      ensures var expected := Run(old(parser), Concat(pieces));
              && (expected.errno == OK ==> parser == expected)
              && (expected.errno != OK ==> parser.errno != OK)
              && (parser.errno == expected.errno <==> !AnyRefusedInPieces(old(parser), pieces))
    {
      hide Step, RunTo, Run, Inv, HarmlessCuts, OneMessage, Concat, Refines, FedSame, FeedRun, AnyRefusedInPieces;
      ghost var s0 := parser;
      var i := 0;
      FedNothing(s0);
      assert pieces[..0] == [];
      while i < |pieces|
        invariant i <= |pieces|
        invariant FedSame(s0, pieces[..i], parser)
        invariant parser.errno == OK && parser.completions == 0 ==> Inv(parser) && SinkOk(parser)
      {
        assert pieces[..i + 1] == pieces[..i] + [pieces[i]];
        ghost var before := parser;
        var ok := Feed(pieces[i]);
        FedNext(s0, pieces[..i], pieces[i], before, parser);
        if parser.errno == OK && parser.completions == 0 { GoodNext(s0, pieces[..i], pieces[i], before, parser); }
        i := i + 1;
      }
      assert pieces[..i] == pieces;
      SplitInvariance(s0, pieces);
      FedIs(s0, pieces, parser);
    }

    /** In h_general a name byte changes nothing but the length of the marked data. */
    lemma GeneralName(s: Parser, data: Bytes, start: nat, p: nat)
      requires start <= p < |data| && MarksOk(p) && Token(data[p]) != 0
      requires parser.state.HeaderField? && parser.hs == General && parser.errno == OK && !Exited(parser)
      requires Progress(s, data, start, p, At(data, p))
      ensures Progress(s, data, start, p + 1, At(data, p + 1))
    {
      hide Step, OnField, RunTo;
      FieldProgress(s, data, start, p, At(data, p));
      FieldPieces(parser.sink, data, fieldMark, p);
    }
  }

  // ---------------------------------------------------------------- buffer by buffer

  /** Some buffer holds a byte that is refused behind the limit, as long as buffers are looked at. */
  predicate AnyRefusedInPieces(s: Parser, pieces: seq<Bytes>) {
    pieces != [] &&
    (var front, t := pieces[..|pieces| - 1], FeedRun(s, pieces[..|pieces| - 1]);
     AnyRefusedInPieces(s, front) || (t.completions == 0 && AnyRefused(t, pieces[|pieces| - 1])))
  }

  /** The parser after some buffers, against the machine. */
  predicate FedSame(s: Parser, pieces: seq<Bytes>, actual: Parser) {
    var expected := FeedRun(s, pieces);
    && (expected.errno == OK ==> actual == expected)
    && (expected.errno != OK ==> actual.errno != OK)
    && (actual.errno == expected.errno <==> !AnyRefusedInPieces(s, pieces))
  }

  lemma FedNothing(s: Parser)
    ensures FedSame(s, [], s)
  {
  }

  lemma FedIs(s: Parser, pieces: seq<Bytes>, actual: Parser)
    requires FedSame(s, pieces, actual)
    ensures var expected := FeedRun(s, pieces);
            && (expected.errno == OK ==> actual == expected)
            && (expected.errno != OK ==> actual.errno != OK)
            && (actual.errno == expected.errno <==> !AnyRefusedInPieces(s, pieces))
  {
  }

  lemma FedNext(s: Parser, front: seq<Bytes>, piece: Bytes, before: Parser, after: Parser)
    requires FedSame(s, front, before)
    requires before.completions > 0 || before.errno != OK ==> after == before
    requires before.completions == 0 && before.errno == OK ==> Refines(before, piece, after)
    ensures FedSame(s, front + [piece], after)
  {
    var t := FeedRun(s, front);
    if t.errno != OK {
      StuckRun(t, piece);
      NothingRefused(t, piece);
    }
    FedMore(s, front, piece);
    hide Run, AnyRefused, FeedRun, AnyRefusedInPieces;
  }

  lemma FedMore(s: Parser, front: seq<Bytes>, piece: Bytes)
    ensures FeedRun(s, front + [piece]) == if FeedRun(s, front).completions > 0 then FeedRun(s, front) else Run(FeedRun(s, front), piece)
    ensures AnyRefusedInPieces(s, front + [piece]) <==>
              AnyRefusedInPieces(s, front) || (FeedRun(s, front).completions == 0 && AnyRefused(FeedRun(s, front), piece))
  {
    hide Run, AnyRefused;
    var more := front + [piece];
    assert more[..|more| - 1] == front && more[|more| - 1] == piece;
  }

  lemma NothingRefused(t: Parser, piece: Bytes)
    requires t.errno != OK
    ensures !AnyRefused(t, piece)
  {
    hide RunTo, Scan;
    forall b | 0 <= b <= |piece| ensures !RefusedBehindLimit(t, piece, b) { Sticky(t, piece, 0, b); }
  }

  lemma GoodNext(s: Parser, front: seq<Bytes>, piece: Bytes, before: Parser, after: Parser)
    requires before.errno == OK && before.completions == 0 ==> Inv(before) && SinkOk(before) && Refines(before, piece, after)
    requires before.completions > 0 || before.errno != OK ==> after == before
    requires after.errno == OK && after.completions == 0
    ensures Inv(after) && SinkOk(after)
  {
    hide Run, AnyRefused, Inv, SinkOk;
    if before.errno == OK && before.completions == 0 { GoodAfter(before, piece); }
  }

  // ---------------------------------------------------------------- refusals behind the limit

  /** Up to the byte that passes the limit the machine goes with the scan. */
  lemma {:induction false} ScanRuns(s: Parser, data: Bytes, b: nat, k: nat) returns (from: nat)
    requires b <= k <= |data| && LateRefusal(s, data, b) && k <= b + (MAX_HEADER_SIZE - s.nread)
    ensures b <= from <= k
    ensures var t := RunTo(s, data, b, k);
            && t.errno == OK && t.state.HeaderValue? && !Exited(t) && t.nread == s.nread + (k - b)
            && ScanOf(t, data, from) == ScanOf(s, data, b) && (t.hs != General ==> from == k)
    decreases k
  {
    hide Step, MatchValue, OnValue, IsHeaderChar, Scan;
    if k == b { return b; }
    from := ScanRuns(s, data, b, k - 1);
    var t := RunTo(s, data, b, k - 1);
    if t.hs == General {
      ScanGeneral(t, data, from);
      InsideGeneral(t, data, k - 1);
    } else {
      if LineEnd(data[k - 1]) { ScanEnds(t, data, k - 1); }
      ScanMatcher(t, data, k - 1);
      from := k;
    }
    ValueByteStep(t, data[k - 1], Next(data, k - 1));
  }

  lemma InsideGeneral(t: Parser, data: Bytes, k: nat)
    requires k < |data| && t.hs == General && t.errno == OK && !LineEnd(data[k]) && !Illegal(t.cfg.lenient, data[k])
    ensures var u := ValueByte(t, data[k]); u == t.(sink := u.sink)
  {
    hide OnValue, IsHeaderChar;
  }

  lemma LateOverflows(s: Parser, data: Bytes, b: nat)
    requires b <= |data| && LateRefusal(s, data, b)
    ensures b < |data| && RunTo(s, data, b, |data|).errno == HeaderOverflow
    ensures var o := b + (MAX_HEADER_SIZE - s.nread); o < |data| && RunTo(s, data, b, o + 1).errno == HeaderOverflow
  {
    hide RunTo, Step, Scan;
    var o := b + (MAX_HEADER_SIZE - s.nread);
    var from := ScanRuns(s, data, b, o);
    OneMoreByte(s, data, b, o);
    PastLimit(RunTo(s, data, b, o), data[o], Next(data, o));
    StickyFrom(s, data, b, o + 1, |data|);
  }

  lemma OneMoreByte(s: Parser, data: Bytes, b: nat, o: nat)
    requires b <= o < |data|
    ensures RunTo(s, data, b, o + 1) == Step(RunTo(s, data, b, o), data[o], Next(data, o))
  {
    hide Step;
  }

  /** Without a size limit passed there is no late refusal. */
  lemma NoneRefused(s: Parser, data: Bytes)
    requires Run(s, data).errno != HeaderOverflow
    ensures !AnyRefused(s, data)
  {
    hide RunTo, LateRefusal;
    forall b | 0 <= b <= |data| ensures !RefusedBehindLimit(s, data, b) {
      if RefusedBehindLimit(s, data, b) {
        LateOverflows(RunTo(s, data, 0, b), data, b);
        RunJoins(s, data, 0, b, |data|);
      }
    }
  }

  /** Where the parser stopped is the only place of a late refusal. */
  lemma OnlyHere(s0: Parser, data: Bytes, p: nat)
    requires p < |data| && FreshBlock(s0, data, p)
    requires var s := RunTo(s0, data, 0, p); s.errno == OK && SameState(s, data, p)
    ensures forall b :: 0 <= b <= |data| && RefusedBehindLimit(s0, data, b) ==> b == p
    ensures RefusedBehindLimit(s0, data, p) <==> LateRefusal(RunTo(s0, data, 0, p), data, p)
  {
    hide RunTo, LateRefusal, SameState;
    forall b | 0 <= b <= |data| && RefusedBehindLimit(s0, data, b) ensures b == p {
      if b < p { NotBefore(s0, data, p, b); }
      if b > p { NotBehind(s0, data, p, b); }
    }
    if LateRefusal(RunTo(s0, data, 0, p), data, p) { IsValue(RunTo(s0, data, 0, p), data, p); }
  }

  lemma IsValue(s: Parser, data: Bytes, b: nat)
    requires b <= |data| && LateRefusal(s, data, b)
    ensures s.errno == OK && s.state.HeaderValue? && b < |data|
  {
  }

  lemma NotBefore(s0: Parser, data: Bytes, p: nat, b: nat)
    requires b < p < |data| && FreshBlock(s0, data, p) && RunTo(s0, data, 0, p).errno == OK
    ensures !RefusedBehindLimit(s0, data, b)
  {
    hide RunTo, Step, Scan;
    if RefusedBehindLimit(s0, data, b) {
      var v := RunTo(s0, data, 0, b);
      var o := b + (MAX_HEADER_SIZE - v.nread);
      RunJoins(s0, data, 0, b, p);
      RunJoins(s0, data, 0, b, p - 1);
      LateOverflows(v, data, b);
      if p > o { StickyFrom(v, data, b, o + 1, p); } else {
        var x := ScanRuns(v, data, b, p);
        var y := ScanRuns(v, data, b, p - 1);
      }
    }
  }

  lemma NotBehind(s0: Parser, data: Bytes, p: nat, b: nat)
    requires p < b <= |data| && RunTo(s0, data, 0, p).errno == OK && SameState(RunTo(s0, data, 0, p), data, p)
    ensures !RefusedBehindLimit(s0, data, b)
  {
    hide RunTo, LateRefusal;
    var s := RunTo(s0, data, 0, p);
    if RefusedBehindLimit(s0, data, b) { IsValue(RunTo(s0, data, 0, b), data, b); }
    RunJoins(s0, data, 0, p, b);
    RunJoins(s0, data, 0, p, b - 1);
    if RunTo(s, data, p, b - 1).errno != OK { StickyFrom(s, data, p, b - 1, b); }
    if b - 1 == p { NoBytes(s, data, p); }
  }

  /** A buffer on which the errors differ: behind the limit, but inside the value, stands a NUL. */
  lemma LateRefusalReached(cfg: Config)
    requires !cfg.lenient
    ensures AnyRefused(Initial(cfg, MAX_HEADER_SIZE - 4), [65, COLON, 98, 99, 100, 0])
  {
    var data: Bytes := [65, COLON, 98, 99, 100, 0];
    var s := Initial(cfg, MAX_HEADER_SIZE - 4);
    hide RunTo, Step, Scan;
    NulMet(data);
    ValueBegun(s, data);
    ScanGeneral(RunTo(s, data, 0, 3), data, 3);
    assert RefusedBehindLimit(s, data, 3);
  }

  lemma ValueBegun(s: Parser, data: Bytes)
    requires s == Initial(s.cfg, MAX_HEADER_SIZE - 4) && |data| > 3 && data[0] == 65 && data[1] == COLON && data[2] == 98
    ensures var t := RunTo(s, data, 0, 3);
            t.state.HeaderValue? && t.hs.General? && t.nread == MAX_HEADER_SIZE - 1 && t.errno == OK && !Exited(t) && t.cfg == s.cfg
    ensures !RunTo(s, data, 0, 2).state.HeaderValue?
  {
    hide RunTo, Step;
    NoBytes(s, data, 0);
    OneMoreByte(s, data, 0, 0);
    OneMoreByte(s, data, 0, 1);
    OneMoreByte(s, data, 0, 2);
    NamedA(s, Next(data, 0));
    ColonStep(RunTo(s, data, 0, 1), Next(data, 1));
    ValueB(RunTo(s, data, 0, 2), Next(data, 2));
  }

  lemma NamedA(s: Parser, next: Option<Byte>)
    requires s == Initial(s.cfg, MAX_HEADER_SIZE - 4)
    ensures var t := Step(s, 65, next);
            t.state.HeaderField? && t.hs.General? && t.nread == MAX_HEADER_SIZE - 3 && t.errno == OK && !Exited(t) && t.cfg == s.cfg
  {
    hide OnField;
  }

  lemma ColonStep(t: Parser, next: Option<Byte>)
    requires t.state.HeaderField? && t.errno == OK && !Exited(t) && t.nread + 1 <= MAX_HEADER_SIZE
    ensures Step(t, COLON, next) == t.(nread := t.nread + 1, state := HeaderValueDiscardWs)
  {
  }

  lemma ValueB(t: Parser, next: Option<Byte>)
    requires t.state.HeaderValueDiscardWs? && t.hs.General? && t.errno == OK && !Exited(t) && t.nread + 1 <= MAX_HEADER_SIZE
    ensures var u := Step(t, 98, next);
            u.state.HeaderValue? && u.hs.General? && u.nread == t.nread + 1 && u.errno == OK && !Exited(u) && u.cfg == t.cfg
  {
    hide OnValue;
  }

  lemma NulMet(data: Bytes)
    requires data == [65, COLON, 98, 99, 100, 0]
    ensures Inspect(false, data, 3, 6) == 5 && Illegal(false, data[5])
  {
    assert Inspect(false, data, 5, 6) == 5;
    assert Inspect(false, data, 4, 6) == 5;
  }

  // ---------------------------------------------------------------- where a round may stop

  /** Nothing but the state of `s` is seen before an error. */
  ghost predicate SameState(s: Parser, data: Bytes, start: nat)
    requires start <= |data|
  {
    forall k :: start < k <= |data| && RunTo(s, data, start, k).errno == OK ==> RunTo(s, data, start, k).state == s.state
  }

  predicate Tokens(data: Bytes, i: nat, j: nat)
    requires i <= j <= |data|
  {
    forall r :: i <= r < j ==> Token(data[r]) != 0
  }

  lemma NoTokens(data: Bytes, i: nat)
    requires i <= |data|
    ensures Tokens(data, i, i)
  {
  }

  lemma TokensNext(data: Bytes, i: nat, j: nat)
    requires i <= j < |data| && Tokens(data, i, j) && Token(data[j]) != 0
    ensures Tokens(data, i, j + 1)
  {
    hide Token;
  }

  /** No line ends among the bytes `start..p` that are within the limit. */
  predicate NoLineEnd(nread: nat, data: Bytes, start: nat, p: nat)
    requires start <= p <= |data|
  {
    forall r :: start <= r < p && nread + (r - start) < MAX_HEADER_SIZE ==> !LineEnd(data[r])
  }

  lemma NoneSoFar(nread: nat, data: Bytes, start: nat)
    requires start <= |data|
    ensures NoLineEnd(nread, data, start, start)
  {
  }

  lemma NoLineEndNext(nread: nat, data: Bytes, start: nat, p: nat)
    requires start <= p < |data| && NoLineEnd(nread, data, start, p)
    requires !LineEnd(data[p]) || nread + (p - start) >= MAX_HEADER_SIZE
    ensures NoLineEnd(nread, data, start, p + 1)
  {
  }

  lemma InspectNext(lenient: bool, data: Bytes, p: nat, pe: nat)
    requires p < pe <= |data| && !LineEnd(data[p])
    ensures Inspect(lenient, data, p, pe) == if Illegal(lenient, data[p]) then p else Inspect(lenient, data, p + 1, pe)
  {
  }

  lemma InspectStops(lenient: bool, data: Bytes, p: nat, pe: nat)
    requires p <= pe <= |data| && (p < pe ==> LineEnd(data[p]))
    ensures Inspect(lenient, data, p, pe) == p
  {
  }

  lemma ScanGeneral(s: Parser, data: Bytes, p: nat)
    requires p < |data| && s.hs == General
    ensures var pe := p + Min(|data| - p, MAX_HEADER_SIZE);
            var q := Inspect(s.cfg.lenient, data, p, pe);
            ScanOf(s, data, p) ==
              if LineEnd(data[p]) then (p, OK)
              else if q < pe then (q, if LineEnd(data[q]) then OK else InvalidHeaderToken)
              else if pe == |data| then (pe, OK) else ScanOf(s, data, pe + 1)
  {
    hide Inspect;
  }

  lemma ScanMatcher(s: Parser, data: Bytes, p: nat)
    requires p < |data| && s.hs != General && !LineEnd(data[p])
    ensures ScanOf(s, data, p) ==
              if Illegal(s.cfg.lenient, data[p]) then (p, InvalidHeaderToken)
              else
                var m := MatchValue(s.hs, s.index, s.contentLength, data[p]);
                if m.errno != OK then (p, m.errno) else Scan(s.cfg.lenient, m.hs, m.index, m.contentLength, data, p + 1)
  {
    hide MatchValue, IsHeaderChar;
  }

  lemma ScanEnds(s: Parser, data: Bytes, p: nat)
    requires p <= |data| && (p < |data| ==> LineEnd(data[p]))
    ensures ScanOf(s, data, p) == (p, OK)
  {
  }

  /** The machine at `p`, where the scan meets an error: the same one, or the limit's if that was passed before. */
  predicate RefusedAt(s: Parser, data: Bytes, start: nat, p: nat, e: Errno)
    requires start <= p < |data|
  {
    && e != OK && RunTo(s, data, start, p + 1).errno == (if s.nread + (p - start) < MAX_HEADER_SIZE then e else HeaderOverflow)
    && (s.nread + (p - start) < MAX_HEADER_SIZE ==> RunTo(s, data, start, p).errno == OK)
  }

  lemma Refused(s: Parser, data: Bytes, start: nat, p: nat, t: Parser)
    requires start <= p < |data| && Progress(s, data, start, p, t) && !LineEnd(data[p])
    requires t.state.HeaderValue? && t.errno == OK && !Exited(t) && ValueByte(t, data[p]).errno != OK
    ensures RefusedAt(s, data, start, p, ValueByte(t, data[p]).errno)
  {
    hide Step, MatchValue, OnValue, IsHeaderChar;
    if s.nread + (p - start) <= MAX_HEADER_SIZE {
      ValueByteStep(t.(nread := s.nread + (p - start)), data[p], Next(data, p));
    } else {
      StickyFrom(s, data, start, p, p + 1);
    }
  }

  /** After an error at byte `p` and one state up to there. */
  lemma StopsThere(s: Parser, data: Bytes, start: nat, p: nat)
    requires start <= p < |data| && RunTo(s, data, start, p + 1).errno != OK
    requires forall k :: start < k <= p && RunTo(s, data, start, k).errno == OK ==> RunTo(s, data, start, k).state == s.state
    ensures SameState(s, data, start) && RunTo(s, data, start, |data|) == RunTo(s, data, start, p + 1)
  {
    hide RunTo;
    StickyFrom(s, data, start, p + 1, |data|);
    forall k | p < k <= |data| ensures RunTo(s, data, start, k).errno != OK { StickyFrom(s, data, start, p + 1, k); }
  }

  lemma OneByteStops(s: Parser, data: Bytes, p: nat)
    requires p < |data| && !Exited(s) && s.errno == OK
    requires RunTo(s, data, p, p + 1).errno != OK || Exited(RunTo(s, data, p, p + 1))
    ensures RunTo(s, data, p, |data|) == RunTo(s, data, p, p + 1) && RunTo(s, data, p, p) == s
    ensures RunTo(s, data, p, p + 1).errno != OK ==> SameState(s, data, p)
  {
    hide Step;
    StickyFrom(s, data, p, p + 1, |data|);
    if RunTo(s, data, p, p + 1).errno != OK { StopsThere(s, data, p, p); }
  }

  lemma {:induction false} NameStays(s: Parser, data: Bytes, start: nat, m: nat, k: nat)
    requires start <= k <= m <= |data| && Tokens(data, start, m) && s.state.HeaderField? && s.errno == OK && !Exited(s)
    ensures var t := RunTo(s, data, start, k); t.errno == OK ==> t.state.HeaderField? && !Exited(t)
    decreases k
  {
    hide Step, Token, MatchField, OnField;
    if start < k {
      NameStays(s, data, start, m, k - 1);
      var t := RunTo(s, data, start, k - 1);
      if t.errno == OK {
        FieldByteStep(t, data[k - 1], Next(data, k - 1));
      } else {
        StickyFrom(s, data, start, k - 1, k);
      }
    }
  }

  lemma NameStopped(s: Parser, data: Bytes, start: nat, p: nat, m: nat)
    requires start <= p < |data| && p <= m <= |data| && Tokens(data, start, m) && s.state.HeaderField? && s.errno == OK && !Exited(s)
    requires RunTo(s, data, start, p + 1).errno != OK
    ensures SameState(s, data, start) && RunTo(s, data, start, |data|) == RunTo(s, data, start, p + 1)
  {
    hide RunTo, SameState, Token;
    forall k | start < k <= p ensures RunTo(s, data, start, k).errno == OK ==> RunTo(s, data, start, k).state == s.state {
      NameStays(s, data, start, m, k);
    }
    StopsThere(s, data, start, p);
  }

  lemma {:induction false} ValueStays(s: Parser, data: Bytes, start: nat, p: nat, k: nat)
    requires start <= k <= p <= |data| && NoLineEnd(s.nread, data, start, p) && s.state.HeaderValue? && s.errno == OK && !Exited(s)
    ensures var t := RunTo(s, data, start, k); t.errno == OK ==> t.state.HeaderValue? && !Exited(t) && t.nread == s.nread + (k - start)
    decreases k
  {
    hide Step, MatchValue, OnValue, IsHeaderChar;
    if start < k {
      ValueStays(s, data, start, p, k - 1);
      var t := RunTo(s, data, start, k - 1);
      if t.errno != OK {
        StickyFrom(s, data, start, k - 1, k);
      } else if t.nread < MAX_HEADER_SIZE {
        ValueByteStep(t, data[k - 1], Next(data, k - 1));
      } else {
        PastLimit(t, data[k - 1], Next(data, k - 1));
      }
    }
  }

  lemma PastLimit(t: Parser, ch: Byte, next: Option<Byte>)
    requires t.errno == OK && !Exited(t) && ParsingHeader(t.state) && t.nread >= MAX_HEADER_SIZE
    ensures Step(t, ch, next).errno == HeaderOverflow
  {
    hide Dispatch;
  }

  lemma ValueStopped(s: Parser, data: Bytes, start: nat, p: nat, m: nat)
    requires start <= p < |data| && p <= m <= |data| && NoLineEnd(s.nread, data, start, m) && s.state.HeaderValue? && s.errno == OK && !Exited(s)
    requires RunTo(s, data, start, p + 1).errno != OK
    ensures SameState(s, data, start) && RunTo(s, data, start, |data|) == RunTo(s, data, start, p + 1)
  {
    hide RunTo, SameState, NoLineEnd;
    forall k | start < k <= p ensures RunTo(s, data, start, k).errno == OK ==> RunTo(s, data, start, k).state == s.state {
      ValueStays(s, data, start, m, k);
    }
    StopsThere(s, data, start, p);
  }

  /** No block of a value stretches across `p`. */
  predicate FreshBlock(s: Parser, data: Bytes, p: nat)
    requires p <= |data|
  {
    0 < p < |data| && RunTo(s, data, 0, p).state.HeaderValue? ==> !RunTo(s, data, 0, p - 1).state.HeaderValue?
  }

  lemma NoBytes(s: Parser, data: Bytes, start: nat)
    requires start <= |data|
    ensures RunTo(s, data, start, start) == s
  {
  }

  lemma EndOfBlockOverflows(s: Parser, data: Bytes, start: nat, p: nat, t: Parser)
    requires start <= p < |data| && Progress(s, data, start, p, t) && s.nread + 1 + (p - start) > MAX_HEADER_SIZE
    requires t.errno == OK && !Exited(t) && ParsingHeader(t.state)
    ensures RunTo(s, data, start, p + 1).errno == HeaderOverflow
  {
    hide Dispatch;
    if s.nread + (p - start) > MAX_HEADER_SIZE { StickyFrom(s, data, start, p, p + 1); }
  }

  lemma EndOfName(s: Parser, data: Bytes, start: nat, p: nat, t: Parser)
    requires start <= p < |data| && Progress(s, data, start, p, t) && s.nread + 1 + (p - start) <= MAX_HEADER_SIZE
    requires t.errno == OK && !Exited(t) && t.state.HeaderField? && Token(data[p]) == 0
    ensures RunTo(s, data, start, p + 1) ==
              var u := t.(nread := s.nread + 1 + (p - start));
              if data[p] == COLON then u.(state := HeaderValueDiscardWs) else Fail(u, InvalidHeaderToken)
  {
  }

  lemma EndOfValue(s: Parser, data: Bytes, start: nat, p: nat, t: Parser)
    requires start <= p < |data| && Progress(s, data, start, p, t) && s.nread + 1 + (p - start) <= MAX_HEADER_SIZE
    requires t.errno == OK && !Exited(t) && t.state.HeaderValue? && (data[p] == CR || data[p] == LF)
    ensures RunTo(s, data, start, p + 1) ==
              t.(nread := s.nread + 1 + (p - start), state := if data[p] == CR then HeaderAlmostDone else HeaderValueLws)
  {
  }

  lemma Skipped(s: Parser, data: Bytes, start: nat, p: nat, t: Parser, u: Parser)
    requires start + MAX_HEADER_SIZE <= p < |data| && Progress(s, data, start, p, t)
    requires t.errno == OK && !Exited(t) && t.state.HeaderValue?
    ensures Progress(s, data, start, p + 1, u)
  {
    hide Dispatch;
    if s.nread + (p - start) > MAX_HEADER_SIZE { StickyFrom(s, data, start, p, p + 1); }
  }

  lemma OneByte(s: Parser, data: Bytes, p: nat)
    requires p < |data|
    ensures RunTo(s, data, p, p + 1) == Step(s, data[p], Next(data, p))
  {
  }

  lemma NoPiece(k: Sink, data: Bytes, p: nat)
    requires p <= |data|
    ensures OnBody(k, data[p..p]) == k
  {
    assert k.body + data[p..p] == k.body;
  }

  /** What the first byte after a header line may lead to. */
  lemma FieldStartShape(s: Parser, ch: Byte)
    ensures var t := FieldStart(s, ch);
            t.errno == OK && s.state.HeaderFieldStart? ==>
              && !t.state.HeaderValue?
              && (t.state.HeaderField? ==> t.sink == OnField(s.sink, [ch]) && Exited(t) == Exited(s))
  {
    hide OnField, Token, OnHeadersComplete;
  }

  lemma ValueStartShape(s: Parser, ch: Byte, next: Option<Byte>)
    ensures var t := ValueStart(s, ch, next);
            && t.state.HeaderValue? && t.sink == OnValue(s.sink, [ch]) && Exited(t) == Exited(s)
  {
    hide OnValue;
  }

  predicate PlainState(state: State) {
    || state.HeaderValueDiscardWsAlmostDone? || state.HeaderAlmostDone? || state.HeadersAlmostDone? || state.HeadersDone?
    || state.MessageDone? || state.ChunkSizeStart? || state.ChunkSize? || state.ChunkParameters?
    || state.ChunkSizeAlmostDone? || state.ChunkDataDone?
  }

  lemma PlainShape(s: Parser, ch: Byte, next: Option<Byte>)
    requires PlainState(s.state)
    ensures var t := Dispatch(s, ch, next); !t.state.HeaderField? && !t.state.HeaderValue?
  {
    hide OnHeadersComplete, Unhex;
  }

  /** The byte that uses up the length. */
  lemma LastBodyByte(s: Parser, data: Bytes, p: nat)
    requires s.errno == OK && !Exited(s) && (s.state.BodyIdentity? || s.state.ChunkData?)
    requires 0 < s.contentLength && p + s.contentLength <= |data|
    ensures var q := p + s.contentLength;
            var t := s.(contentLength := 0, sink := OnBody(s.sink, data[p..q]));
            RunTo(s, data, p, q) ==
              if s.state.BodyIdentity? then Complete(t.(state := MessageDone)) else t.(state := ChunkDataAlmostDone)
  {
    hide OnBody, Step;
    var q := p + s.contentLength;
    BodyBlock(s, data, p, s.contentLength - 1);
    BodyPieces(s.sink, data, p, q - 1, q);
    assert data[q - 1..q] == [data[q - 1]];
    FinalByte(RunTo(s, data, p, q - 1), data[q - 1], Next(data, q - 1));
  }

  lemma FinalByte(x: Parser, ch: Byte, next: Option<Byte>)
    requires x.errno == OK && !Exited(x) && (x.state.BodyIdentity? || x.state.ChunkData?) && x.contentLength == 1
    ensures var t := x.(contentLength := 0, sink := OnBody(x.sink, [ch]));
            Step(x, ch, next) ==
              if x.state.BodyIdentity? then Complete(t.(state := MessageDone)) else t.(state := ChunkDataAlmostDone)
  {
    hide OnBody;
  }

  /** The parser after one buffer, against the machine. */
  predicate Refines(s: Parser, data: Bytes, actual: Parser) {
    var expected := Run(s, data);
    && (expected.errno == OK ==> actual == expected)
    && (expected.errno != OK ==> actual.errno != OK)
    && (actual.errno == expected.errno <==> !AnyRefused(s, data))
    && (forall b :: 0 <= b <= |data| && RefusedBehindLimit(s, data, b) ==>
          expected.errno == HeaderOverflow && actual.errno == ScanOf(RunTo(s, data, 0, b), data, b).1)
  }

  /** The same with the number of bytes read: all of them, or up to the byte with which the parser leaves, or up to the
      one it refuses, or, past the size limit, at least up to that. */
  predicate Executed(s: Parser, data: Bytes, actual: Parser, n: nat) {
    && Refines(s, data, actual) && n <= |data|
    && (actual.errno == OK && !Exited(actual) ==> n == |data|)
    && (actual.errno == OK && Exited(actual) ==> 0 < n && actual == RunTo(s, data, 0, n) && !Exited(RunTo(s, data, 0, n - 1)))
    && (actual.errno != OK ==> n < |data| && RunTo(s, data, 0, n + 1).errno != OK)
    && (actual.errno != OK && Run(s, data).errno != HeaderOverflow ==> RunTo(s, data, 0, n).errno == OK)
  }

  lemma CountedStep(s: Parser, ch: Byte, next: Option<Byte>)
    requires s.errno == OK && !Exited(s)
    ensures Step(s, ch, next) ==
              if !ParsingHeader(s.state) then Dispatch(s, ch, next)
              else if s.nread + 1 > MAX_HEADER_SIZE then Fail(s.(nread := s.nread + 1), HeaderOverflow)
              else Dispatch(s.(nread := s.nread + 1), ch, next)
  {
    hide Dispatch;
  }

  lemma BodyLength(s: Parser)
    requires Inv(s)
    ensures s.state.BodyIdentity? || s.state.ChunkData? ==> s.contentLength > 0
    ensures !s.state.HeaderValueStart? && s.nread <= MAX_HEADER_SIZE
  {
  }

  lemma InvAlong(s: Parser, data: Bytes, q: nat)
    requires s.errno == OK && Inv(s) && q <= |data|
    ensures RunTo(s, data, 0, q).errno == OK ==> Inv(RunTo(s, data, 0, q))
  {
    hide Step, Inv;
    ReachableOk(s, data, 0, q);
  }

  lemma SinkDispatch(s: Parser, ch: Byte, next: Option<Byte>)
    requires s.errno == OK && SinkOk(s)
    ensures Dispatch(s, ch, next).errno == OK ==> SinkOk(Dispatch(s, ch, next))
  {
    hide Token, IsHeaderChar, MatchValue, MatchField, FieldStart, ValueStart, HeadersAlmostDoneStep, HeadersDoneStep,
      ChunkSizeStartStep, ChunkSizeStep, ChunkSizeAlmostDoneStep;
    match s.state
    case HeaderFieldStart => FieldStartShape(s, ch);
    case HeaderValueDiscardLws => FieldStartShape(s.(state := HeaderFieldStart, sink := OnValue(s.sink, [])), ch);
    case HeaderValueDiscardWs => ValueStartShape(s, ch, next);
    case HeaderValueStart => ValueStartShape(s, ch, next);
    case HeaderValueLws =>
      FieldStartShape(FinishHeader(s), ch);
      ValueStartShape(s.(state := HeaderValueStart, hs := if s.hs == ContentLengthNum then ContentLengthWs else s.hs), ch, next);
    case _ => if PlainState(s.state) { PlainShape(s, ch, next); }
  }

  lemma SinkStep(s: Parser, ch: Byte, next: Option<Byte>)
    requires s.errno == OK && SinkOk(s)
    ensures Step(s, ch, next).errno == OK ==> SinkOk(Step(s, ch, next))
  {
    hide Dispatch;
    if !Exited(s) {
      CountedStep(s, ch, next);
      SinkDispatch(if ParsingHeader(s.state) then s.(nread := s.nread + 1) else s, ch, next);
    }
  }

  lemma {:induction false} SinkAlong(s: Parser, data: Bytes, q: nat)
    requires s.errno == OK && SinkOk(s) && q <= |data|
    ensures RunTo(s, data, 0, q).errno == OK ==> SinkOk(RunTo(s, data, 0, q))
    decreases q
  {
    hide Step, SinkOk;
    if q > 0 {
      SinkAlong(s, data, q - 1);
      var t := RunTo(s, data, 0, q - 1);
      if t.errno == OK {
        SinkStep(t, data[q - 1], Next(data, q - 1));
      } else {
        StickyFrom(s, data, 0, q - 1, q);
      }
    }
  }

  lemma GoodAfter(s: Parser, data: Bytes)
    requires s.errno == OK && Inv(s) && SinkOk(s)
    ensures Run(s, data).errno == OK ==> Inv(Run(s, data)) && SinkOk(Run(s, data))
  {
    hide Step, Inv, SinkOk;
    ReachableOk(s, data, 0, |data|);
    SinkAlong(s, data, |data|);
  }

  lemma StuckRun(s: Parser, data: Bytes)
    requires s.errno != OK
    ensures Run(s, data) == s
  {
    Sticky(s, data, 0, |data|);
  }
}
