/**
 The request parser of `http_parser_merged.h` from the first header byte onward, as a machine
 that reads one byte at a time. The state of the C struct and of the C++ wrapper that collects
 the callbacks (`parser.h`) is one value; `Step` is what one byte does to it, `Run` what a whole
 buffer does. The class in HttpExecute.dfy, which scans blocks of bytes as the source does, is
 proved against this machine.
 */
module HttpMachine {
  import opened Wrappers

  type Byte = x: int | 0 <= x < 256
  type Bytes = seq<Byte>

  const TAB: Byte := 9
  const LF: Byte := 10
  const CR: Byte := 13
  const SPACE: Byte := 32
  const COMMA: Byte := 44
  const ZERO: Byte := 48
  const TWO: Byte := 50
  const NINE: Byte := 57
  const COLON: Byte := 58
  const SEMICOLON: Byte := 59
  const LOWER_C: Byte := 99
  const LOWER_H: Byte := 104
  const LOWER_K: Byte := 107
  const LOWER_N: Byte := 110
  const LOWER_O: Byte := 111
  const LOWER_P: Byte := 112
  const LOWER_T: Byte := 116
  const LOWER_U: Byte := 117

  const MAX_HEADER_SIZE := 81920
  const ULLONG_MAX := 0xFFFF_FFFF_FFFF_FFFF
  const TWO_TO_THE_64 := 0x1_0000_0000_0000_0000

  /** connection */
  const CONNECTION: Bytes := [99, 111, 110, 110, 101, 99, 116, 105, 111, 110]
  /** proxy-connection */
  const PROXY_CONNECTION: Bytes := [112, 114, 111, 120, 121, 45, 99, 111, 110, 110, 101, 99, 116, 105, 111, 110]
  /** content-length */
  const CONTENT_LENGTH: Bytes := [99, 111, 110, 116, 101, 110, 116, 45, 108, 101, 110, 103, 116, 104]
  /** transfer-encoding */
  const TRANSFER_ENCODING: Bytes := [116, 114, 97, 110, 115, 102, 101, 114, 45, 101, 110, 99, 111, 100, 105, 110, 103]
  /** upgrade */
  const UPGRADE: Bytes := [117, 112, 103, 114, 97, 100, 101]
  /** chunked */
  const CHUNKED: Bytes := [99, 104, 117, 110, 107, 101, 100]
  /** keep-alive */
  const KEEP_ALIVE: Bytes := [107, 101, 101, 112, 45, 97, 108, 105, 118, 101]
  /** close */
  const CLOSE: Bytes := [99, 108, 111, 115, 101]

  datatype State =
    | HeaderFieldStart | HeaderField
    | HeaderValueDiscardWs | HeaderValueDiscardWsAlmostDone | HeaderValueDiscardLws
    | HeaderValueStart | HeaderValue | HeaderValueLws | HeaderAlmostDone
    | ChunkSizeStart | ChunkSize | ChunkParameters | ChunkSizeAlmostDone
    | HeadersAlmostDone | HeadersDone
    | ChunkData | ChunkDataAlmostDone | ChunkDataDone
    | BodyIdentity | BodyIdentityEof
    | MessageDone

  datatype HeaderState =
    | General | C | CO | CON
    | MatchingConnection | MatchingProxyConnection | MatchingContentLength
    | MatchingTransferEncoding | MatchingUpgrade
    | Connection | ContentLength | ContentLengthNum | ContentLengthWs
    | TransferEncoding | Upgrade
    | TransferEncodingTokenStart | MatchingChunked | TransferEncodingToken
    | MatchingKeepAlive | MatchingClose
    | TransferEncodingChunked | ConnectionKeepAlive | ConnectionClose

  datatype Errno =
    | OK | InvalidEofState | HeaderOverflow | LfExpected | InvalidHeaderToken
    | InvalidContentLength | UnexpectedContentLength | InvalidChunkSize | Strict
    | InvalidTransferEncoding

  datatype Flags = Flags(chunked: bool, keepAlive: bool, close: bool, trailing: bool,
                         upgrade: bool, contentLength: bool)

  /** Settings that no byte changes: the two leniency bits and whether the method is CONNECT. */
  datatype Config = Config(lenient: bool, allowChunkedLength: bool, connect: bool)

  /** What the callbacks of `parser.h` collect; `inField` is `header_building_state`. */
  datatype Sink = Sink(inField: bool, field: Bytes, value: Bytes,
                       headers: seq<(Bytes, Bytes)>, body: Bytes)

  /** `completions` counts the calls of on_message_complete. */
  datatype Parser = Parser(cfg: Config, state: State, hs: HeaderState, index: nat, nread: nat,
                           contentLength: nat, flags: Flags, usesTransferEncoding: bool,
                           upgrade: bool, errno: Errno, completions: nat, sink: Sink)

  // ---------------------------------------------------------------- callbacks

  /** on_header_field: the first piece of a name pushes the header before it, unless that header's
      value is empty; later pieces are appended. */
  function OnField(k: Sink, piece: Bytes): Sink {
    if k.inField then k.(field := k.field + piece)
    else k.(inField := true, field := piece, value := [],
            headers := if k.value != [] then k.headers + [(k.field, k.value)] else k.headers)
  }

  function OnValue(k: Sink, piece: Bytes): Sink {
    if k.inField then k.(inField := false, value := piece)
    else k.(value := k.value + piece)
  }

  function OnBody(k: Sink, piece: Bytes): Sink {
    k.(body := k.body + piece)
  }

  function OnHeadersComplete(k: Sink): Sink {
    if k.field != [] then k.(headers := k.headers + [(k.field, k.value)], field := [], value := [])
    else k
  }

  // ---------------------------------------------------------------- character tables

  /** CROW_LOWER: sets bit 5. */
  function Lower(ch: Byte): Byte {
    if (ch / 32) % 2 == 0 then ch + 32 else ch
  }

  predicate IsNum(ch: Byte) { ZERO <= ch <= NINE }

  predicate IsUpperLetter(ch: Byte) { 65 <= ch <= 90 }

  /** The `tokens` table: the lower-cased byte, or 0 if the byte may not stand in a token. */
  function Token(ch: Byte): Byte {
    if IsUpperLetter(ch) then ch + 32
    else if 97 <= ch <= 122 || IsNum(ch) || 94 <= ch <= 96 || 35 <= ch <= 39 then ch
    else if ch == 33 || ch == 42 || ch == 43 || ch == 45 || ch == 46 || ch == 124 || ch == 126 then ch
    else 0
  }

  predicate IsHeaderChar(ch: Byte) {
    ch == CR || ch == LF || ch == TAB || (ch > 31 && ch != 127)
  }

  /** The `unhex` table: only 128 entries are written out, the rest of the 256 are zero. */
  function Unhex(ch: Byte): (v: int)
    ensures -1 <= v < 16
  {
    if IsNum(ch) then ch - ZERO
    else if 65 <= ch <= 70 then ch - 55
    else if 97 <= ch <= 102 then ch - 87
    else if ch >= 128 then 0
    else -1
  }

  // ---------------------------------------------------------------- the nested header matcher

  function FirstMatch(c: Byte): HeaderState {
    if c == LOWER_C then C
    else if c == LOWER_P then MatchingProxyConnection
    else if c == LOWER_T then MatchingTransferEncoding
    else if c == LOWER_U then MatchingUpgrade
    else General
  }

  /** One more byte of `word`: `again` while inside, `full` at its last letter, `other` on a miss. */
  function MatchWord(word: Bytes, index: nat, c: Byte, again: HeaderState, full: HeaderState,
                     other: HeaderState): HeaderState
  {
    if index >= |word| || c != word[index] then other
    else if index == |word| - 1 then full
    else again
  }

  /** The switch inside s_header_field: the matcher's next state on token `c`. */
  function MatchField(hs: HeaderState, index: nat, c: Byte): (HeaderState, nat) {
    match hs
    case C => (if c == LOWER_O then CO else General, index + 1)
    case CO => (if c == LOWER_N then CON else General, index + 1)
    case CON =>
      (if c == LOWER_N then MatchingConnection
       else if c == LOWER_T then MatchingContentLength
       else General, index + 1)
    case MatchingConnection => (MatchWord(CONNECTION, index + 1, c, hs, Connection, General), index + 1)
    case MatchingProxyConnection => (MatchWord(PROXY_CONNECTION, index + 1, c, hs, Connection, General), index + 1)
    case MatchingContentLength => (MatchWord(CONTENT_LENGTH, index + 1, c, hs, ContentLength, General), index + 1)
    case MatchingTransferEncoding => (MatchWord(TRANSFER_ENCODING, index + 1, c, hs, TransferEncoding, General), index + 1)
    case MatchingUpgrade => (MatchWord(UPGRADE, index + 1, c, hs, Upgrade, General), index + 1)
    case Connection => (General, index)
    case ContentLength => (General, index)
    case TransferEncoding => (General, index)
    case Upgrade => (General, index)
    case _ => (hs, index)
  }

  datatype ValueMatch = ValueMatch(hs: HeaderState, index: nat, contentLength: nat, errno: Errno)

  /** A further digit of Content-Length: 64-bit wrap-around written out, then the overflow test. */
  function ContentLengthDigit(contentLength: nat, ch: Byte): (r: (nat, Errno)) {
    if !IsNum(ch) then (contentLength, InvalidContentLength)
    else if (ULLONG_MAX - 10) / 10 < contentLength then (contentLength, InvalidContentLength)
    else ((contentLength * 10 + (ch - ZERO)) % TWO_TO_THE_64, OK)
  }

  /** The switch inside s_header_value: the matcher's next state on a value byte. */
  function MatchValue(hs: HeaderState, index: nat, contentLength: nat, ch: Byte): ValueMatch {
    var c := Lower(ch);
    match hs
    case ContentLength =>
      if ch == SPACE then ValueMatch(hs, index, contentLength, OK)
      else
        var (n, e) := ContentLengthDigit(contentLength, ch);
        ValueMatch(ContentLengthNum, index, n, e)
    case ContentLengthNum =>
      if ch == SPACE then ValueMatch(ContentLengthWs, index, contentLength, OK)
      else
        var (n, e) := ContentLengthDigit(contentLength, ch);
        ValueMatch(hs, index, n, e)
    case ContentLengthWs =>
      ValueMatch(hs, index, contentLength, if ch == SPACE then OK else InvalidContentLength)
    case TransferEncodingTokenStart =>
      ValueMatch(if c == LOWER_C then MatchingChunked
                 else if Token(c) != 0 then TransferEncodingToken
                 else if c == SPACE || c == TAB then hs
                 else General, index, contentLength, OK)
    case MatchingChunked =>
      ValueMatch(MatchWord(CHUNKED, index + 1, c, hs, TransferEncodingChunked, TransferEncodingToken),
                 index + 1, contentLength, OK)
    case TransferEncodingToken =>
      if ch == COMMA then ValueMatch(TransferEncodingTokenStart, 0, contentLength, OK)
      else ValueMatch(hs, index, contentLength, OK)
    case MatchingKeepAlive =>
      ValueMatch(MatchWord(KEEP_ALIVE, index + 1, c, hs, ConnectionKeepAlive, General), index + 1, contentLength, OK)
    case MatchingClose =>
      ValueMatch(MatchWord(CLOSE, index + 1, c, hs, ConnectionClose, General), index + 1, contentLength, OK)
    case TransferEncodingChunked =>
      ValueMatch(if ch != SPACE then TransferEncodingToken else hs, index, contentLength, OK)
    case ConnectionKeepAlive => ValueMatch(if ch != SPACE then General else hs, index, contentLength, OK)
    case ConnectionClose => ValueMatch(if ch != SPACE then General else hs, index, contentLength, OK)
    case Connection => ValueMatch(hs, index, contentLength, OK)       // the source asserts it never comes here
    case TransferEncoding => ValueMatch(hs, index, contentLength, OK) // likewise
    case _ => ValueMatch(General, index, contentLength, OK)
  }

  // ---------------------------------------------------------------- one byte

  predicate ParsingHeader(state: State) {
    !(state.ChunkData? || state.ChunkDataAlmostDone? || state.ChunkDataDone?
      || state.BodyIdentity? || state.BodyIdentityEof? || state.MessageDone?)
  }

  function Fail(s: Parser, e: Errno): Parser { s.(errno := e) }

  function Complete(s: Parser): Parser { s.(completions := s.completions + 1) }

  /** The rest of the connection speaks another protocol: the parser has left the buffer. */
  predicate Exited(s: Parser) { s.upgrade && s.completions > 0 }

  function FinishHeader(s: Parser): Parser {
    s.(state := HeaderFieldStart,
       flags := if s.hs == ConnectionKeepAlive then s.flags.(keepAlive := true)
                else if s.hs == ConnectionClose then s.flags.(close := true)
                else if s.hs == TransferEncodingChunked then s.flags.(chunked := true)
                else s.flags)
  }

  function HeadersDoneStep(s: Parser, ch: Byte): Parser {
    if ch != LF then Fail(s, Strict)
    else
      var s := s.(nread := 0);
      if s.upgrade then Complete(s)
      else if s.flags.chunked then s.(state := ChunkSizeStart)
      else if s.usesTransferEncoding then
        if !s.cfg.lenient then Fail(s, InvalidTransferEncoding) else s.(state := BodyIdentityEof)
      else if s.contentLength == 0 then Complete(s)
      else if s.contentLength != ULLONG_MAX then s.(state := BodyIdentity)
      else Complete(s)
  }

  function HeadersAlmostDoneStep(s: Parser, ch: Byte): Parser {
    if ch != LF then Fail(s, Strict)
    else if s.flags.trailing then Complete(s)
    else if s.usesTransferEncoding && s.flags.contentLength
            && (if s.flags.chunked then !s.cfg.allowChunkedLength else !s.cfg.lenient) then
      Fail(s, UnexpectedContentLength)
    else
      HeadersDoneStep(s.(state := HeadersDone, upgrade := s.flags.upgrade || s.cfg.connect,
                         sink := OnHeadersComplete(s.sink)), ch)
  }

  function FieldStart(s: Parser, ch: Byte): Parser {
    if ch == CR then s.(state := HeadersAlmostDone)
    else if ch == LF then HeadersAlmostDoneStep(s.(state := HeadersAlmostDone), ch)
    else
      var c := Token(ch);
      if c == 0 then Fail(s, InvalidHeaderToken)
      else s.(index := 0, state := HeaderField, hs := FirstMatch(c), sink := OnField(s.sink, [ch]))
  }

  /** A token byte inside a header name. */
  function FieldByte(s: Parser, ch: Byte): Parser {
    var (hs, index) := MatchField(s.hs, s.index, Token(ch));
    s.(hs := hs, index := index,
       usesTransferEncoding := s.usesTransferEncoding || (s.hs == MatchingTransferEncoding && hs == TransferEncoding),
       sink := OnField(s.sink, [ch]))
  }

  function Field(s: Parser, ch: Byte): Parser {
    if Token(ch) != 0 then FieldByte(s, ch)
    else if ch == COLON then s.(state := HeaderValueDiscardWs)
    else Fail(s, InvalidHeaderToken)
  }

  /** The first byte of a value. The upgrade case looks at the byte after it, if the buffer has one. */
  function ValueStart(s: Parser, ch: Byte, next: Option<Byte>): Parser {
    var c := Lower(ch);
    var v := s.(state := HeaderValue, index := 0, sink := OnValue(s.sink, [ch]));
    match s.hs
    case Upgrade =>
      v.(hs := General, flags := if ch != LOWER_H || next != Some(TWO) then s.flags.(upgrade := true) else s.flags)
    case TransferEncoding => v.(hs := if c == LOWER_C then MatchingChunked else TransferEncodingToken)
    case TransferEncodingTokenStart => v
    case ContentLength =>
      if !IsNum(ch) then Fail(v, InvalidContentLength)
      else if s.flags.contentLength then Fail(v, UnexpectedContentLength)
      else v.(flags := s.flags.(contentLength := true), contentLength := ch - ZERO, hs := ContentLengthNum)
    case ContentLengthWs => v
    case Connection =>
      v.(hs := if c == LOWER_K then MatchingKeepAlive
               else if c == LOWER_C then MatchingClose
               else if c == SPACE || c == TAB then Connection
               else General)
    case _ => v.(hs := General)
  }

  /** A byte inside a value that ends neither the value nor the line. */
  function ValueByte(s: Parser, ch: Byte): Parser {
    if !s.cfg.lenient && !IsHeaderChar(ch) then Fail(s, InvalidHeaderToken)
    else
      var m := MatchValue(s.hs, s.index, s.contentLength, ch);
      s.(hs := m.hs, index := m.index, contentLength := m.contentLength, errno := m.errno,
         sink := OnValue(s.sink, [ch]))
  }

  function Value(s: Parser, ch: Byte): Parser {
    if ch == CR then s.(state := HeaderAlmostDone)
    else if ch == LF then s.(state := HeaderValueLws)
    else ValueByte(s, ch)
  }

  function DiscardWs(s: Parser, ch: Byte, next: Option<Byte>): Parser {
    if ch == SPACE || ch == TAB then s
    else if ch == CR then s.(state := HeaderValueDiscardWsAlmostDone)
    else if ch == LF then s.(state := HeaderValueDiscardLws)
    else ValueStart(s, ch, next)
  }

  function DiscardLws(s: Parser, ch: Byte): Parser {
    if ch == SPACE || ch == TAB then s.(state := HeaderValueDiscardWs)
    else FieldStart(s.(state := HeaderFieldStart, sink := OnValue(s.sink, [])), ch)
  }

  function ValueLws(s: Parser, ch: Byte, next: Option<Byte>): Parser {
    if ch == SPACE || ch == TAB then
      ValueStart(s.(state := HeaderValueStart, hs := if s.hs == ContentLengthNum then ContentLengthWs else s.hs), ch, next)
    else FieldStart(FinishHeader(s), ch)
  }

  function ChunkSizeStartStep(s: Parser, ch: Byte): Parser {
    if Unhex(ch) == -1 then Fail(s, InvalidChunkSize)
    else s.(contentLength := Unhex(ch), state := ChunkSize)
  }

  function ChunkSizeStep(s: Parser, ch: Byte): Parser {
    if ch == CR then s.(state := ChunkSizeAlmostDone)
    else if Unhex(ch) == -1 then
      if ch == SEMICOLON || ch == SPACE then s.(state := ChunkParameters) else Fail(s, InvalidChunkSize)
    else if (ULLONG_MAX - 16) / 16 < s.contentLength then Fail(s, InvalidContentLength)
    else s.(contentLength := (s.contentLength * 16 + Unhex(ch)) % TWO_TO_THE_64)
  }

  function ChunkSizeAlmostDoneStep(s: Parser, ch: Byte): Parser {
    if ch != LF then Fail(s, Strict)
    else if s.contentLength == 0 then s.(nread := 0, flags := s.flags.(trailing := true), state := HeaderFieldStart)
    else s.(nread := 0, state := ChunkData)
  }

  /** One byte of an identity body or of a chunk; `done` is what the last one leads to. */
  function BodyByte(s: Parser, ch: Byte): Parser {
    s.(sink := OnBody(s.sink, [ch]), contentLength := if s.contentLength == 0 then 0 else s.contentLength - 1)
  }

  function BodyIdentityStep(s: Parser, ch: Byte): Parser {
    var b := BodyByte(s, ch);
    if b.contentLength == 0 then Complete(b.(state := MessageDone)) else b
  }

  function ChunkDataStep(s: Parser, ch: Byte): Parser {
    var b := BodyByte(s, ch);
    if b.contentLength == 0 then b.(state := ChunkDataAlmostDone) else b
  }

  function Dispatch(s: Parser, ch: Byte, next: Option<Byte>): Parser {
    match s.state
    case HeaderFieldStart => FieldStart(s, ch)
    case HeaderField => Field(s, ch)
    case HeaderValueDiscardWs => DiscardWs(s, ch, next)
    case HeaderValueDiscardWsAlmostDone =>
      if ch != LF then Fail(s, Strict) else s.(state := HeaderValueDiscardLws)
    case HeaderValueDiscardLws => DiscardLws(s, ch)
    case HeaderValueStart => ValueStart(s, ch, next)
    case HeaderValue => Value(s, ch)
    case HeaderAlmostDone => if ch != LF then Fail(s, LfExpected) else s.(state := HeaderValueLws)
    case HeaderValueLws => ValueLws(s, ch, next)
    case HeadersAlmostDone => HeadersAlmostDoneStep(s, ch)
    case HeadersDone => HeadersDoneStep(s, ch)
    case BodyIdentity => BodyIdentityStep(s, ch)
    case BodyIdentityEof => s.(sink := OnBody(s.sink, [ch]))
    case MessageDone => Complete(s)
    case ChunkSizeStart => ChunkSizeStartStep(s, ch)
    case ChunkSize => ChunkSizeStep(s, ch)
    case ChunkParameters => if ch == CR then s.(state := ChunkSizeAlmostDone) else s
    case ChunkSizeAlmostDone => ChunkSizeAlmostDoneStep(s, ch)
    case ChunkData => ChunkDataStep(s, ch)
    case ChunkDataAlmostDone => if ch != CR then Fail(s, Strict) else s.(state := ChunkDataDone)
    case ChunkDataDone => if ch != LF then Fail(s, Strict) else s.(nread := 0, state := ChunkSizeStart)
  }

  /** CROW_COUNT_HEADER_SIZE(1): every byte read in a header state counts towards the limit. */
  function Counted(s: Parser): Parser {
    if !ParsingHeader(s.state) then s
    else if s.nread + 1 > MAX_HEADER_SIZE then Fail(s.(nread := s.nread + 1), HeaderOverflow)
    else s.(nread := s.nread + 1)
  }

  function Step(s: Parser, ch: Byte, next: Option<Byte>): Parser {
    if s.errno != OK || Exited(s) then s
    else
      var c := Counted(s);
      if c.errno != OK then c else Dispatch(c, ch, next)
  }

  /** The byte after position `i`, if this buffer holds it. */
  function Next(data: Bytes, i: nat): Option<Byte> {
    if i + 1 < |data| then Some(data[i + 1]) else None
  }

  /** Bytes `i..j` of one buffer, read one at a time. */
  function RunTo(s: Parser, data: Bytes, i: nat, j: nat): Parser
    requires i <= j <= |data|
    decreases j
  {
    if i == j then s else Step(RunTo(s, data, i, j - 1), data[j - 1], Next(data, j - 1))
  }

  /** One whole buffer. */
  function Run(s: Parser, data: Bytes): Parser {
    RunTo(s, data, 0, |data|)
  }

  /** After `http_parser_init` and a request line of `nread` bytes: no length, no flags, nothing collected. */
  function Initial(cfg: Config, nread: nat): Parser {
    Parser(cfg, HeaderFieldStart, General, 0, nread, ULLONG_MAX, Flags(false, false, false, false, false, false),
           false, false, OK, 0, Sink(false, [], [], [], []))
  }
}
