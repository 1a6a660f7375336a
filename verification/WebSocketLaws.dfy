/** What frames, keys and answers are, said with the numbers and bytes of RFC 6455. */
module WebSocketLaws {
  import opened WebSocketFrames
  import opened WebSocketMessages
  import opened WebSocketConnection

  // ---------------------------------------------------------------- masking

  /** The bits from place `k` on. */
  function Shift(x: nat, k: nat): nat {
    if k == 0 then x else Shift(x / 2, k - 1)
  }

  lemma {:induction false} XorBitAt(a: nat, b: nat, n: nat, k: nat)
    requires k < n
    ensures Shift(XorBits(a, b, n), k) % 2 == (Shift(a, k) + Shift(b, k)) % 2
    decreases n
  {
    XorHead(a, b, n);
    hide XorBits;
    if k > 0 { XorBitAt(a / 2, b / 2, n - 1, k - 1); }
  }

  lemma XorHead(a: nat, b: nat, n: nat)
    requires n > 0
    ensures XorBits(a, b, n) / 2 == XorBits(a / 2, b / 2, n - 1) && XorBits(a, b, n) % 2 == (a + b) % 2
  {
  }

  lemma Shifts(x: nat)
    ensures Shift(x, 0) == x && Shift(x, 1) == x / 2 && Shift(x, 2) == x / 4 && Shift(x, 3) == x / 8
    ensures Shift(x, 4) == x / 16 && Shift(x, 5) == x / 32 && Shift(x, 6) == x / 64 && Shift(x, 7) == x / 128
  {
    assert Shift(x / 2 / 2 / 2, 0) == x / 8;
    assert Shift(x, 3) == x / 8;
    assert Shift(x / 8 / 2 / 2 / 2, 0) == x / 64 && Shift(x / 8, 3) == x / 64;
  }

  /** Bit by bit the exclusive or. */
  lemma XorIsExclusive(a: byte, b: byte)
    ensures Xor(a, b) % 2 == (a + b) % 2 && Xor(a, b) / 2 % 2 == (a / 2 + b / 2) % 2
    ensures Xor(a, b) / 4 % 2 == (a / 4 + b / 4) % 2 && Xor(a, b) / 8 % 2 == (a / 8 + b / 8) % 2
    ensures Xor(a, b) / 16 % 2 == (a / 16 + b / 16) % 2 && Xor(a, b) / 32 % 2 == (a / 32 + b / 32) % 2
    ensures Xor(a, b) / 64 % 2 == (a / 64 + b / 64) % 2 && Xor(a, b) / 128 % 2 == (a / 128 + b / 128) % 2
  {
    XorIs(a, b);
    hide *;
    Shifts(a);
    Shifts(b);
    Shifts(Xor(a, b));
    forall k | 0 <= k < 8 ensures Shift(Xor(a, b), k) % 2 == (Shift(a, k) + Shift(b, k)) % 2 { XorBitAt(a, b, 8, k); }
  }

  lemma XorIs(a: byte, b: byte)
    ensures Xor(a, b) == XorBits(a, b, 8)
  {
  }

  /** Octet i of the payload is combined with octet i mod 4 of the key. */
  lemma MaskedAt(payload: seq<byte>, key: seq<byte>, i: nat)
    requires |key| == 4 && i < |payload|
    ensures Masked(payload, key)[i] == Xor(payload[i], key[i % 4])
  {
  }

  lemma {:induction false} XorZero(a: nat, n: nat)
    requires a < Power2(n)
    ensures XorBits(a, 0, n) == a
  {
    if n > 0 { XorZero(a / 2, n - 1); }
  }

  /** The key of zeros leaves a payload as it is. */
  lemma ZeroKey(payload: seq<byte>)
    ensures Masked(payload, [0, 0, 0, 0]) == payload
  {
    Power2Of8();
    forall i | 0 <= i < |payload| ensures Masked(payload, [0, 0, 0, 0])[i] == payload[i] {
      XorZero(payload[i], 8);
    }
  }

  // ---------------------------------------------------------------- numbers and headers as bytes

  /** Network order: the first byte counts most. */
  lemma EightBytes(a: byte, b: byte, c: byte, d: byte, e: byte, f: byte, g: byte, h: byte)
    ensures BigEndian([a, b, c, d, e, f, g, h]) ==
              ((((((a as int * 256 + b) * 256 + c) * 256 + d) * 256 + e) * 256 + f) * 256 + g) * 256 + h
    ensures BigEndian([g, h]) == g as int * 256 + h
  {
    TwoBytes(a, b);
    TwoBytes(g, h);
    OneByteMore([a, b], c);
    OneByteMore([a, b, c], d);
    OneByteMore([a, b, c, d], e);
    OneByteMore([a, b, c, d, e], f);
    OneByteMore([a, b, c, d, e, f], g);
    OneByteMore([a, b, c, d, e, f, g], h);
    assert [a, b] + [c] == [a, b, c] && [a, b, c] + [d] == [a, b, c, d] && [a, b, c, d] + [e] == [a, b, c, d, e];
    assert [a, b, c, d, e] + [f] == [a, b, c, d, e, f] && [a, b, c, d, e, f] + [g] == [a, b, c, d, e, f, g];
    assert [a, b, c, d, e, f, g] + [h] == [a, b, c, d, e, f, g, h];
    hide BigEndian;
  }

  lemma OneByteMore(bs: seq<byte>, x: byte)
    ensures BigEndian(bs + [x]) == BigEndian(bs) * 256 + x
  {
    assert (bs + [x])[..|bs|] == bs;
  }

  lemma TwoOf(n: nat)
    ensures ToBytes(n, 2) == [n / 256 % 256, n % 256]
  {
    assert ToBytes(n / 256, 1) == ToBytes(n / 256 / 256, 0) + [n / 256 % 256];
  }

  /** The header of every frame that is sent: FIN and the opcode, no mask, and the length in one of its three forms. */
  lemma HeaderBytes(little: bool, opcode: nat, size: nat)
    requires opcode < 16 && size < 0x1_0000_0000_0000_0000
    ensures var h := BuildHeader(little, opcode, size);
            && h[0] == 128 + opcode
            && (size < 126 ==> h == [128 + opcode, size])
            && (126 <= size < 65536 ==> h == [128 + opcode, 126, size / 256, size % 256])
            && (65536 <= size ==> |h| == 10 && h[1] == 127 && BigEndian(h[2..]) == size)
  {
    PowersKnown();
    hide Power256;
    if 126 <= size < 65536 {
      StoredSwapped(little, size, 2);
      TwoOf(size);
    } else if 65536 <= size {
      StoredSwapped64(little, size);
      BytesReadBack(size, 8);
      assert BuildHeader(little, opcode, size)[2..] == ToBytes(size, 8);
    }
  }

  /** A short frame as it comes from a peer. */
  lemma WireBytes(f: Frame)
    requires ValidFrame(f) && f.form.Seven?
    ensures Wire(f) == [(if f.fin then 128 else 0) + f.opcode, (if f.masked then 128 else 0) + |f.payload|] + f.key
                       + (if f.masked then Masked(f.payload, f.key) else f.payload)
  {
  }

  // ---------------------------------------------------------------- what frames do

  /** What each kind of frame does to the message under construction, the messages handed over and the answers. */
  lemma FrameEffects(s: Inbox, payload: seq<byte>)
    ensures Handle(s, true, 1, payload) == s.(message := [], binary := false, handled := s.handled + [Message(false, s.message + payload)])
    ensures Handle(s, true, 2, payload) == s.(message := [], binary := true, handled := s.handled + [Message(true, s.message + payload)])
    ensures Handle(s, true, 0, payload) == s.(message := [], handled := s.handled + [Message(s.binary, s.message + payload)])
    ensures Handle(s, false, 1, payload) == s.(message := s.message + payload, binary := false)
    ensures Handle(s, false, 2, payload) == s.(message := s.message + payload, binary := true)
    ensures Handle(s, false, 0, payload) == s.(message := s.message + payload)
    ensures forall fin :: Handle(s, fin, 9, payload) == s.(posted := s.posted + [Post(10, payload)])
    ensures forall fin :: Handle(s, fin, 10, payload) == s.(pongReceived := true)
    ensures forall fin, opcode: nat :: (3 <= opcode <= 8 || opcode > 10) ==> Handle(s, fin, opcode, payload) == s
  {
  }

  /** The answers of a run of frames: a pong for each ping, with its payload, in the same order. */
  lemma {:induction false} PongForPing(frames: seq<Frame>, i: nat)
    requires i < |frames|
    ensures Answers(frames[..i + 1]) == Answers(frames[..i]) + (if frames[i].opcode == 9 then [Post(10, frames[i].payload)] else [])
    decreases i
  {
    if i == 0 {
      assert frames[..1][1..] == [] && frames[..0] == [];
    } else {
      PongForPing(frames[1..], i - 1);
      assert frames[..i + 1][1..] == frames[1..][..i] && frames[..i][1..] == frames[1..][..i - 1];
    }
  }

  /** A message that was cut up is the parts put together. */
  lemma {:induction false} MessageOfParts(sent: seq<Sent>, i: nat)
    requires i < |sent|
    ensures |Messages(sent)| == |sent| && Messages(sent)[i] == Message(sent[i].binary, Concat(sent[i].parts))
    decreases i
  {
    if i > 0 { MessageOfParts(sent[1..], i - 1); } else { MessagesLength(sent); }
  }

  lemma {:induction false} MessagesLength(sent: seq<Sent>)
    ensures |Messages(sent)| == |sent|
  {
    if sent != [] { MessagesLength(sent[1..]); }
  }

  /** A Close frame is answered with the code and the reason that it brought; without a code, with 1005. */
  lemma CloseEchoes(payload: seq<byte>)
    ensures |payload| >= 2 ==> CloseReply(payload) == payload
                               && CloseReason(payload) == (payload[2..], payload[0] as int * 256 + payload[1])
    ensures |payload| < 2 ==> CloseReply(payload) == [3, 237] + payload && CloseReason(payload) == (payload, 1005)
  {
    TwoOf(1005);
  }
}
