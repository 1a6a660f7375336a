/** WebSocket frames (section 5.2 of RFC 6455) as bytes, and the byte arithmetic of `websocket.h`. */
module WebSocketFrames {

  type byte = x: int | 0 <= x < 256

  // ---------------------------------------------------------------- integers and the bytes that hold them

  function Power256(n: nat): (r: nat)
    ensures r > 0
  {
    if n == 0 then 1 else 256 * Power256(n - 1)
  }

  function BigEndian(bs: seq<byte>): nat {
    if bs == [] then 0 else BigEndian(bs[..|bs| - 1]) * 256 + bs[|bs| - 1]
  }

  function ToBytes(x: nat, n: nat): (r: seq<byte>)
    ensures |r| == n
  {
    if n == 0 then [] else ToBytes(x / 256, n - 1) + [x % 256]
  }

  function Reverse(bs: seq<byte>): (r: seq<byte>)
    ensures |r| == |bs|
  {
    if bs == [] then [] else [bs[|bs| - 1]] + Reverse(bs[..|bs| - 1])
  }

  /** The integer that lies in memory as `bs`. */
  function Load(little: bool, bs: seq<byte>): nat {
    BigEndian(if little then Reverse(bs) else bs)
  }

  /** The bytes in which an integer of `n` bytes lies in memory. */
  function Store(little: bool, x: nat, n: nat): (r: seq<byte>)
    ensures |r| == n
  {
    if little then Reverse(ToBytes(x, n)) else ToBytes(x, n)
  }

  /** ntohs, ntohl, htons and htonl on `n` bytes. */
  function Swap(little: bool, x: nat, n: nat): nat {
    if little then BigEndian(Reverse(ToBytes(x, n))) else x
  }

  /** The exchange of the halves of 64 bits with each half swapped, left out where ntohl does nothing. */
  function Swap64(little: bool, x: nat): nat {
    if Swap(little, 1, 4) == 1 then x
    else Swap(little, x % 0x1_0000_0000, 4) * 0x1_0000_0000 + Swap(little, x / 0x1_0000_0000, 4)
  }

  lemma {:induction false} BigEndianBound(bs: seq<byte>)
    ensures BigEndian(bs) < Power256(|bs|)
  {
    if bs != [] { BigEndianBound(bs[..|bs| - 1]); }
  }

  lemma {:induction false} BytesReadBack(x: nat, n: nat)
    requires x < Power256(n)
    ensures BigEndian(ToBytes(x, n)) == x
  {
    if n > 0 {
      BytesReadBack(x / 256, n - 1);
      assert ToBytes(x, n)[..n - 1] == ToBytes(x / 256, n - 1);
    }
  }

  lemma {:induction false} ReadBackBytes(bs: seq<byte>)
    ensures ToBytes(BigEndian(bs), |bs|) == bs
  {
    if bs != [] {
      ReadBackBytes(bs[..|bs| - 1]);
      assert bs == bs[..|bs| - 1] + [bs[|bs| - 1]];
    }
  }

  lemma LastByte(bs: seq<byte>)
    requires bs != []
    ensures BigEndian(bs) == BigEndian(bs[..|bs| - 1]) * 256 + bs[|bs| - 1] as int
  {
  }

  lemma {:induction false} BigEndianOf(a: seq<byte>, b: seq<byte>)
    ensures BigEndian(a + b) == BigEndian(a) * Power256(|b|) + BigEndian(b)
    decreases |b|
  {
    if b == [] {
      assert a + b == a;
    } else {
      var c := b[..|b| - 1];
      assert (a + b)[..|a + b| - 1] == a + c;
      BigEndianOf(a, c);
      LastByte(a + b);
      LastByte(b);
      assert Power256(|b|) == 256 * Power256(|c|);
      hide BigEndian, Power256;
      Spread(BigEndian(a), Power256(|c|));
    }
  }

  lemma Spread(a: nat, p: nat)
    ensures a * p * 256 == a * (256 * p)
  {
  }

  lemma {:induction false} ReverseOf(a: seq<byte>, b: seq<byte>)
    ensures Reverse(a + b) == Reverse(b) + Reverse(a)
    decreases |b|
  {
    if b == [] {
      assert a + b == a;
    } else {
      assert (a + b)[..|a + b| - 1] == a + b[..|b| - 1];
      ReverseOf(a, b[..|b| - 1]);
    }
  }

  lemma {:induction false} ReverseTwice(bs: seq<byte>)
    ensures Reverse(Reverse(bs)) == bs
  {
    if bs != [] {
      var last := [bs[|bs| - 1]];
      ReverseOf(last, Reverse(bs[..|bs| - 1]));
      ReverseTwice(bs[..|bs| - 1]);
      assert Reverse(last) == last;
      assert bs == bs[..|bs| - 1] + last;
    }
  }

  lemma PowersKnown()
    ensures Power256(2) == 0x1_0000 && Power256(4) == 0x1_0000_0000 && Power256(8) == 0x1_0000_0000_0000_0000
  {
    assert Power256(1) == 256;
    assert Power256(3) == 0x100_0000;
    assert Power256(5) == 0x100_0000_0000;
    assert Power256(6) == 0x1_0000_0000_0000;
    assert Power256(7) == 0x100_0000_0000_0000;
  }

  lemma SwapsOne(little: bool)
    ensures Swap(little, 1, 4) == 1 <==> !little
  {
    if little {
      var front := Reverse(ToBytes(0, 3));
      ReversedOne();
      assert BigEndian([1]) == 1 && Power256(1) == 256 && Power256(3) == 0x100_0000;
      hide ToBytes, Reverse;
      BigEndianOf([1], front);
    }
  }

  lemma ReversedOne()
    ensures Reverse(ToBytes(1, 4)) == [1] + Reverse(ToBytes(0, 3)) && |Reverse(ToBytes(0, 3))| == 3
  {
    var bs := ToBytes(1, 4);
    assert bs == ToBytes(0, 3) + [1];
    hide ToBytes;
    assert bs[..3] == ToBytes(0, 3);
  }

  /** What ntohs makes of two bytes in memory, and ntohl of four, is their value in network order. */
  lemma NetworkOrder(little: bool, bs: seq<byte>)
    ensures Swap(little, Load(little, bs), |bs|) == BigEndian(bs)
  {
    if little {
      ReadBackBytes(Reverse(bs));
      ReverseTwice(bs);
    }
  }

  lemma InHalves(hi: seq<byte>, lo: seq<byte>)
    requires |hi| == 4 && |lo| == 4
    ensures BigEndian(hi + lo) == BigEndian(hi) * 0x1_0000_0000 + BigEndian(lo)
    ensures BigEndian(lo) < 0x1_0000_0000
  {
    hide *;
    BigEndianOf(hi, lo);
    BigEndianBound(lo);
    PowersKnown();
  }

  /** The 64-bit exchange does the same for eight bytes, on hosts of both byte orders. */
  lemma NetworkOrder64(little: bool, bs: seq<byte>)
    requires |bs| == 8
    ensures Swap64(little, Load(little, bs)) == BigEndian(bs)
  {
    hide BigEndian, Reverse, ToBytes, Power256, Swap;
    SwapsOne(little);
    if little {
      var hi, lo := bs[..4], bs[4..];
      assert bs == hi + lo;
      ReverseOf(hi, lo);
      InHalves(Reverse(lo), Reverse(hi));
      InHalves(hi, lo);
      NetworkOrder(little, hi);
      NetworkOrder(little, lo);
      Halves(BigEndian(Reverse(lo)), BigEndian(Reverse(hi)));
    }
  }

  lemma Halves(a: nat, b: nat)
    requires b < 0x1_0000_0000
    ensures (a * 0x1_0000_0000 + b) / 0x1_0000_0000 == a && (a * 0x1_0000_0000 + b) % 0x1_0000_0000 == b
  {
  }

  /** Storing a swapped integer leaves its bytes in network order. */
  lemma StoredSwapped(little: bool, x: nat, n: nat)
    requires x < Power256(n)
    ensures Store(little, Swap(little, x, n), n) == ToBytes(x, n)
  {
    if little {
      ReadBackBytes(Reverse(ToBytes(x, n)));
      ReverseTwice(ToBytes(x, n));
    }
  }

  lemma StoredSwapped64(little: bool, x: nat)
    requires x < Power256(8)
    ensures Store(little, Swap64(little, x), 8) == ToBytes(x, 8)
  {
    SwapsOne(little);
    if little {
      var bs := ToBytes(x, 8);
      BytesReadBack(x, 8);
      // the exchange is its own inverse, and x is what lies in memory as Reverse(bs)
      ReverseTwice(bs);
      NetworkOrder64(little, Reverse(bs));
      ReadBackBytes(Reverse(bs));
      ReverseTwice(Reverse(bs));
    }
  }

  // ---------------------------------------------------------------- masking

  /** The exclusive or of the lowest `n` bits. */
  function XorBits(a: nat, b: nat, n: nat): nat {
    if n == 0 then 0 else 2 * XorBits(a / 2, b / 2, n - 1) + (a + b) % 2
  }

  function Power2(n: nat): (r: nat) {
    if n == 0 then 1 else 2 * Power2(n - 1)
  }

  lemma {:induction false} XorBound(a: nat, b: nat, n: nat)
    ensures XorBits(a, b, n) < Power2(n)
  {
    if n > 0 { XorBound(a / 2, b / 2, n - 1); }
  }

  lemma {:induction false} XorBitsTwice(a: nat, b: nat, n: nat)
    requires a < Power2(n)
    ensures XorBits(XorBits(a, b, n), b, n) == a
  {
    if n > 0 {
      XorBitsTwice(a / 2, b / 2, n - 1);
      LowBits(XorBits(a / 2, b / 2, n - 1), a, b);
    }
  }

  lemma LowBits(q: nat, a: nat, b: nat)
    ensures var x := 2 * q + (a + b) % 2; x / 2 == q && (x + b) % 2 == a % 2
  {
  }

  lemma Power2Of8()
    ensures Power2(8) == 256
  {
    assert Power2(3) == 8;
    assert Power2(6) == 64;
  }

  function Xor(a: byte, b: byte): byte {
    XorBound(a, b, 8);
    Power2Of8();
    XorBits(a, b, 8)
  }

  lemma XorTwice(a: byte, b: byte)
    ensures Xor(Xor(a, b), b) == a
  {
    Power2Of8();
    XorBitsTwice(a, b, 8);
  }

  /** Octet i of the payload combined with octet i mod 4 of the key (section 5.3 of RFC 6455). */
  function Masked(payload: seq<byte>, key: seq<byte>): (r: seq<byte>)
    requires |key| == 4
    ensures |r| == |payload|
  {
    seq(|payload|, i requires 0 <= i < |payload| => Xor(payload[i], key[i % 4]))
  }

  lemma MaskedTwice(payload: seq<byte>, key: seq<byte>)
    requires |key| == 4
    ensures Masked(Masked(payload, key), key) == payload
  {
    forall i | 0 <= i < |payload| ensures Masked(Masked(payload, key), key)[i] == payload[i] {
      XorTwice(payload[i], key[i % 4]);
    }
  }

  // ---------------------------------------------------------------- frames on the wire

  datatype LengthForm = Seven | Sixteen | SixtyFour

  /** A frame, with the length form in which it is written and the key if it is masked. */
  datatype Frame = Frame(fin: bool, opcode: nat, form: LengthForm, masked: bool, key: seq<byte>, payload: seq<byte>)

  predicate Fits(form: LengthForm, size: nat) {
    match form
    case Seven => size < 126
    case Sixteen => size < 0x1_0000
    case SixtyFour => size < 0x1_0000_0000_0000_0000
  }

  predicate ValidFrame(f: Frame) {
    f.opcode < 16 && Fits(f.form, |f.payload|) && |f.key| == if f.masked then 4 else 0
  }

  /** The seven bits that hold the length or say how it is written. */
  function Length7(form: LengthForm, size: nat): nat {
    match form
    case Seven => size
    case Sixteen => 126
    case SixtyFour => 127
  }

  function LengthBytes(form: LengthForm, size: nat): seq<byte> {
    match form
    case Seven => []
    case Sixteen => ToBytes(size, 2)
    case SixtyFour => ToBytes(size, 8)
  }

  function Byte0(f: Frame): byte
    requires ValidFrame(f)
  {
    (if f.fin then 128 else 0) + f.opcode
  }

  function Byte1(f: Frame): byte
    requires ValidFrame(f)
  {
    (if f.masked then 128 else 0) + Length7(f.form, |f.payload|)
  }

  function Body(f: Frame): (r: seq<byte>)
    requires ValidFrame(f)
    ensures |r| == |f.payload|
  {
    if f.masked then Masked(f.payload, f.key) else f.payload
  }

  function Wire(f: Frame): seq<byte>
    requires ValidFrame(f)
  {
    [Byte0(f), Byte1(f)] + (LengthBytes(f.form, |f.payload|) + (f.key + Body(f)))
  }

  // ---------------------------------------------------------------- the header the server writes

  function Shortest(size: nat): LengthForm {
    if size < 126 then Seven else if size < 0x1_0000 then Sixteen else SixtyFour
  }

  /** build_header, on a host of either byte order. */
  function BuildHeader(little: bool, opcode: nat, size: nat): seq<byte>
    requires opcode < 16
  {
    if size < 126 then [0x80 + opcode, size]
    else if size < 0x1_0000 then [0x80 + opcode, 126] + Store(little, Swap(little, size, 2), 2)
    else [0x80 + opcode, 127] + Store(little, Swap64(little, size), 8)
  }

  /** The header for a payload is that of an unmasked final frame in the shortest length form. */
  lemma HeaderIsShortest(little: bool, opcode: nat, payload: seq<byte>)
    requires opcode < 16 && |payload| < 0x1_0000_0000_0000_0000
    ensures var f := Frame(true, opcode, Shortest(|payload|), false, [], payload);
            ValidFrame(f) && BuildHeader(little, opcode, |payload|) + payload == Wire(f)
    ensures forall form :: Fits(form, |payload|) ==> |LengthBytes(Shortest(|payload|), |payload|)| <= |LengthBytes(form, |payload|)|
  {
    PowersKnown();
    if 126 <= |payload| < 0x1_0000 {
      StoredSwapped(little, |payload|, 2);
    } else if |payload| >= 0x1_0000 {
      StoredSwapped64(little, |payload|);
    }
  }
}
