/** base64encode and base64decode of `utility.h`. */
module Base64 {
  import opened Wrappers
  import opened Sequences

  const UPPER := "ABCDEFGHIJKLMNOPQRSTUVWXYZ"
  const LOWER := "abcdefghijklmnopqrstuvwxyz"
  const NUMERALS := "0123456789"

  /** The alphabets of sections 4 and 5 of RFC 4648. */
  const STANDARD := UPPER + LOWER + NUMERALS + "+/"
  const URL_SAFE := UPPER + LOWER + NUMERALS + "-_"

  /** What a character stands for in either alphabet. */
  function Sextet(c: char): (r: int)
    ensures 0 <= r < 64
  {
    if 'A' <= c <= 'Z' then c as int - 'A' as int
    else if 'a' <= c <= 'z' then c as int - 'a' as int + 26
    else if '0' <= c <= '9' then c as int - '0' as int + 52
    else if c == '+' || c == '-' then 62
    else if c == '/' || c == '_' then 63
    else 0
  }

  function KeyOf(c: char): bv8 {
    Sextet(c) as bv8
  }

  lemma UpperAt(i: nat)
    requires i < 26
    ensures UPPER[i] == 'A' + i as char
  {
    assert i == 0 || i == 1 || i == 2 || i == 3 || i == 4 || i == 5 || i == 6 || i == 7 || i == 8 || i == 9 || i == 10 || i == 11 || i == 12 || i == 13 || i == 14 || i == 15 || i == 16 || i == 17 || i == 18 || i == 19 || i == 20 || i == 21 || i == 22 || i == 23 || i == 24 || i == 25;
  }

  lemma LowerAt(i: nat)
    requires i < 26
    ensures LOWER[i] == 'a' + i as char
  {
    assert i == 0 || i == 1 || i == 2 || i == 3 || i == 4 || i == 5 || i == 6 || i == 7 || i == 8 || i == 9 || i == 10 || i == 11 || i == 12 || i == 13 || i == 14 || i == 15 || i == 16 || i == 17 || i == 18 || i == 19 || i == 20 || i == 21 || i == 22 || i == 23 || i == 24 || i == 25;
  }

  lemma NumeralAt(i: nat)
    requires i < 10
    ensures NUMERALS[i] == '0' + i as char
  {
    assert i == 0 || i == 1 || i == 2 || i == 3 || i == 4 || i == 5 || i == 6 || i == 7 || i == 8 || i == 9;
  }

  /** An alphabet in which every character stands for its place, and which leaves the padding out. */
  ghost predicate Alphabet(key: string) {
    |key| == 64 && forall i :: 0 <= i < 64 ==> Sextet(key[i]) == i && key[i] != '='
  }

  lemma BothAlphabets()
    ensures Alphabet(STANDARD) && Alphabet(URL_SAFE)
  {
    forall i | 0 <= i < 64 ensures Sextet(STANDARD[i]) == i && STANDARD[i] != '=' { StandardAt(i); }
    forall i | 0 <= i < 64 ensures Sextet(URL_SAFE[i]) == i && URL_SAFE[i] != '=' { UrlSafeAt(i); }
  }

  lemma FrontAt(key: string, tail: string, i: nat)
    requires key == UPPER + LOWER + NUMERALS + tail && i < 62
    ensures Sextet(key[i]) == i && key[i] != '='
  {
    if i < 26 {
      UpperAt(i);
      assert key[i] == UPPER[i];
    } else if i < 52 {
      LowerAt(i - 26);
      assert key[i] == LOWER[i - 26];
    } else {
      NumeralAt(i - 52);
      assert key[i] == NUMERALS[i - 52];
    }
  }

  lemma StandardAt(i: nat)
    requires i < 64
    ensures Sextet(STANDARD[i]) == i && STANDARD[i] != '='
  {
    if i < 62 { FrontAt(STANDARD, "+/", i); } else { assert STANDARD[i] == "+/"[i - 62]; }
  }

  lemma UrlSafeAt(i: nat)
    requires i < 64
    ensures Sextet(URL_SAFE[i]) == i && URL_SAFE[i] != '='
  {
    if i < 62 { FrontAt(URL_SAFE, "-_", i); } else { assert URL_SAFE[i] == "-_"[i - 62]; }
  }

  lemma KeyFound(key: string, x: bv8)
    requires Alphabet(key) && x < 64
    ensures KeyOf(key[x as int]) == x && key[x as int] != '='
  {
  }

  // ---------------------------------------------------------------- three bytes and four characters

  function First(a: bv8): bv8 { (a & 0xFC) >> 2 }

  function Second(a: bv8, b: bv8): bv8 { ((a & 0x03) << 4) | ((b & 0xF0) >> 4) }

  function Third(b: bv8, c: bv8): bv8 { ((b & 0x0F) << 2) | ((c & 0xC0) >> 6) }

  function Fourth(c: bv8): bv8 { c & 0x3F }

  /** The four sextets are the 24 bits of the three bytes, in order. */
  lemma SameBits(a: bv8, b: bv8, c: bv8)
    ensures First(a) < 64 && Second(a, b) < 64 && Third(b, c) < 64 && Fourth(c) < 64
    ensures ((First(a) as bv24) << 18) | ((Second(a, b) as bv24) << 12) | ((Third(b, c) as bv24) << 6) | (Fourth(c) as bv24)
         == ((a as bv24) << 16) | ((b as bv24) << 8) | (c as bv24)
  {
  }

  function DecodeFirst(odd: bv8, even: bv8): bv8 { (odd << 2) | ((even & 0x30) >> 4) }

  function DecodeSecond(even: bv8, odd: bv8): bv8 { ((even & 0x0F) << 4) | ((odd & 0x3C) >> 2) }

  function DecodeThird(odd: bv8, even: bv8): bv8 { ((odd & 0x03) << 6) | even }

  lemma BytesBack(a: bv8, b: bv8, c: bv8)
    ensures DecodeFirst(First(a), Second(a, b)) == a
    ensures DecodeSecond(Second(a, b), Third(b, c)) == b
    ensures DecodeThird(Third(b, c), Fourth(c)) == c
    ensures First(a) < 64 && Second(a, b) < 64 && Third(b, c) < 64 && Fourth(c) < 64
  {
  }

  // ---------------------------------------------------------------- encoding

  function Letter(key: string, x: bv8): char
    requires |key| == 64
  {
    if x < 64 then key[x as int] else '='
  }

  function Quad(key: string, a: bv8, b: bv8, c: bv8): (r: string)
    requires |key| == 64
    ensures |r| == 4
  {
    [Letter(key, First(a)), Letter(key, Second(a, b)), Letter(key, Third(b, c)), Letter(key, Fourth(c))]
  }

  function Encoded(key: string, data: seq<bv8>): (r: string)
    requires |key| == 64
    ensures |r| == (|data| + 2) / 3 * 4
  {
    if |data| >= 3 then Quad(key, data[0], data[1], data[2]) + Encoded(key, data[3..])
    else if |data| == 2 then Quad(key, data[0], data[1], 0)[..3] + "="
    else if |data| == 1 then Quad(key, data[0], 0, 0)[..2] + "=="
    else ""
  }

  /** Writes the four characters of three bytes. */
  method PutQuad(ret: array<char>, it: nat, key: string, a: bv8, b: bv8, c: bv8)
    requires |key| == 64 && it + 4 <= ret.Length
    modifies ret
    ensures ret[it..it + 4] == Quad(key, a, b, c) && ret[..it] == old(ret[..it])
  {
    SameBits(a, b, c);
    ret[it] := key[First(a) as int];
    ret[it + 1] := key[Second(a, b) as int];
    ret[it + 2] := key[Third(b, c) as int];
    ret[it + 3] := key[Fourth(c) as int];
  }

  /** Writes what one or two bytes are encoded to. */
  method PutLast(ret: array<char>, it: nat, key: string, data: seq<bv8>)
    requires |key| == 64 && it + 4 == ret.Length && 1 <= |data| <= 2
    modifies ret
    ensures ret[it..] == Encoded(key, data) && ret[..it] == old(ret[..it])
  {
    if |data| == 1 {
      SameBits(data[0], 0, 0);
      ret[it], ret[it + 1] := key[First(data[0]) as int], key[Second(data[0], 0) as int];
      ret[it + 2], ret[it + 3] := '=', '=';
    } else {
      SameBits(data[0], data[1], 0);
      ret[it], ret[it + 1] := key[First(data[0]) as int], key[Second(data[0], data[1]) as int];
      ret[it + 2], ret[it + 3] := key[Third(data[1], 0) as int], '=';
    }
  }

  method Encode(data: seq<bv8>, key: string) returns (text: string)
    requires Alphabet(key)
    ensures text == Encoded(key, data)
  {
    hide Alphabet, Quad, Encoded;
    KeyLength(key);
    assert data[0..] == data;
    var size: nat, d: nat, it: nat := |data|, 0, 0;
    var ret := new char[(|data| + 2) / 3 * 4];
    while size >= 3
      invariant d + size == |data| && it + (size + 2) / 3 * 4 == ret.Length
      invariant ret[..it] + Encoded(key, data[d..]) == Encoded(key, data)
    {
      ghost var done := ret[..it];
      PutQuad(ret, it, key, data[d], data[d + 1], data[d + 2]);
      assert ret[..it + 4] == done + ret[it..it + 4];
      EncodedStep(key, data, d);
      Regrouped(done, ret[it..it + 4], Encoded(key, data[d + 3..]));
      it, d, size := it + 4, d + 3, size - 3;
    }
    if size > 0 { PutLast(ret, it, key, data[d..]); }
    text := ret[..];
    assert text == ret[..it] + ret[it..];
  }

  lemma EncodedStep(key: string, data: seq<bv8>, d: nat)
    requires |key| == 64 && d + 3 <= |data|
    ensures Encoded(key, data[d..]) == Quad(key, data[d], data[d + 1], data[d + 2]) + Encoded(key, data[d + 3..])
  {
    hide Quad;
    assert data[d..][3..] == data[d + 3..];
  }

  lemma KeyLength(key: string)
    requires Alphabet(key)
    ensures |key| == 64
  {
  }

  // ---------------------------------------------------------------- decoding

  /** How many characters `n` bytes are read from. */
  function Needed(n: nat): nat {
    n / 3 * 4 + if n % 3 == 0 then 0 else n % 3 + 1
  }

  lemma NeededStep(n: nat)
    requires n >= 3
    ensures Needed(n) == Needed(n - 3) + 4
  {
  }

  /** How many bytes are decoded; nothing where the number would be negative, and the source asks for 2^64 - 1. */
  function OutputSize(text: string): (r: Option<nat>)
    ensures r.None? <==> text == "="
    ensures r.Some? ==> Needed(r.value) <= |text|
  {
    var size := |text|;
    if size % 4 == 2 then Some(size / 4 * 3 + 1)
    else if size % 4 == 3 then Some(size / 4 * 3 + 2)
    else if size >= 2 && text[size - 2] == '=' then Some(size / 4 * 3 - 2)
    else if size >= 1 && text[size - 1] == '=' then if size < 4 then None else Some(size / 4 * 3 - 1)
    else Some(size / 4 * 3)
  }

  function DecodedBytes(text: string, n: nat): (r: seq<bv8>)
    requires Needed(n) <= |text|
    ensures |r| == n
  {
    if n == 0 then []
    else
      var k0, k1 := KeyOf(text[0]), KeyOf(text[1]);
      if n == 1 then [DecodeFirst(k0, k1)]
      else
        var k2 := KeyOf(text[2]);
        if n == 2 then [DecodeFirst(k0, k1), DecodeSecond(k1, k2)]
        else [DecodeFirst(k0, k1), DecodeSecond(k1, k2), DecodeThird(k2, KeyOf(text[3]))] + DecodedBytes(text[4..], n - 3)
  }

  function Decoded(text: string): Option<seq<bv8>> {
    var n := OutputSize(text);
    if n.None? then None else Some(DecodedBytes(text, n.value))
  }

  /** Reads three bytes from four characters. */
  method TakeQuad(text: string, d: nat, ret: array<bv8>, it: nat)
    requires d + 4 <= |text| && it + 3 <= ret.Length
    modifies ret
    ensures ret[..it] == old(ret[..it])
    ensures ret[it..it + 3] == [DecodeFirst(KeyOf(text[d]), KeyOf(text[d + 1])), DecodeSecond(KeyOf(text[d + 1]), KeyOf(text[d + 2])),
                                DecodeThird(KeyOf(text[d + 2]), KeyOf(text[d + 3]))]
  {
    hide KeyOf, DecodeFirst, DecodeSecond, DecodeThird;
    var odd := KeyOf(text[d]);
    var even := KeyOf(text[d + 1]);
    ret[it] := DecodeFirst(odd, even);
    odd := KeyOf(text[d + 2]);
    ret[it + 1] := DecodeSecond(even, odd);
    even := KeyOf(text[d + 3]);
    ret[it + 2] := DecodeThird(odd, even);
  }

  /** Reads the last byte or two. */
  method TakeLast(text: string, d: nat, ret: array<bv8>, it: nat)
    requires 1 <= ret.Length - it <= 2 && d + Needed(ret.Length - it) <= |text|
    modifies ret
    ensures ret[..it] == old(ret[..it]) && ret[it..] == DecodedBytes(text[d..], ret.Length - it)
  {
    hide KeyOf, DecodeFirst, DecodeSecond, DecodeThird;
    var odd := KeyOf(text[d]);
    var even := KeyOf(text[d + 1]);
    ret[it] := DecodeFirst(odd, even);
    if ret.Length - it == 2 {
      odd := KeyOf(text[d + 2]);
      ret[it + 1] := DecodeSecond(even, odd);
    }
  }

  lemma NothingDecoded(text: string)
    ensures Needed(0) == 0 && DecodedBytes(text, 0) == []
  {
  }

  lemma DecodedStep(text: string, d: nat, size: nat)
    requires size >= 3 && d <= |text| && Needed(size) <= |text| - d
    ensures d + 4 <= |text| && Needed(size - 3) <= |text| - (d + 4)
    ensures DecodedBytes(text[d..], size)
         == [DecodeFirst(KeyOf(text[d]), KeyOf(text[d + 1])), DecodeSecond(KeyOf(text[d + 1]), KeyOf(text[d + 2])),
             DecodeThird(KeyOf(text[d + 2]), KeyOf(text[d + 3]))] + DecodedBytes(text[d + 4..], size - 3)
  {
    hide KeyOf, DecodeFirst, DecodeSecond, DecodeThird;
    assert text[d..][4..] == text[d + 4..];
  }

  /** Fails only for the text "=". */
  method Decode(text: string) returns (r: Option<seq<bv8>>)
    ensures r == Decoded(text) && (r.None? <==> text == "=")
  {
    hide KeyOf, DecodeFirst, DecodeSecond, DecodeThird, OutputSize, Needed, DecodedBytes;
    var n := OutputSize(text);
    if n.None? { return None; }
    var size: nat, d: nat, it: nat := n.value, 0, 0;
    var ret := new bv8[size];
    assert text[0..] == text;
    while size >= 3
      invariant it + size == ret.Length && d <= |text| && Needed(size) <= |text| - d
      invariant ret[..it] + DecodedBytes(text[d..], size) == DecodedBytes(text, n.value)
    {
      ghost var done := ret[..it];
      NeededStep(size);
      DecodedStep(text, d, size);
      TakeQuad(text, d, ret, it);
      assert ret[..it + 3] == done + ret[it..it + 3];
      Regrouped(done, ret[it..it + 3], DecodedBytes(text[d + 4..], size - 3));
      d, it, size := d + 4, it + 3, size - 3;
    }
    NothingDecoded(text[d..]);
    if size > 0 { TakeLast(text, d, ret, it); }
    assert ret[..] == ret[..it] + ret[it..];
    r := Some(ret[..]);
  }

  // ---------------------------------------------------------------- the round trip

  /** The encoded text without its padding. */
  function Unpadded(key: string, data: seq<bv8>): (r: string)
    requires |key| == 64
    ensures |r| == Needed(|data|)
  {
    Encoded(key, data)[..Needed(|data|)]
  }

  /** The characters of the alphabet come first, the padding last. */
  lemma {:induction false} PaddingLast(key: string, data: seq<bv8>)
    requires Alphabet(key)
    ensures |key| == 64 && Padded(Encoded(key, data), Needed(|data|))
  {
    hide *;
    KeyLength(key);
    if |data| >= 3 {
      PaddingLast(key, data[3..]);
      QuadPlain(key, data[0], data[1], data[2]);
      EncodedFirst(key, data);
      PaddedBehind(Quad(key, data[0], data[1], data[2]), Encoded(key, data[3..]), Needed(|data[3..]|));
      NeededStep(|data|);
    } else {
      FewPadded(key, data);
    }
  }

  /** Padding signs stand from place `n` on, and there only. */
  predicate Padded(text: string, n: nat) {
    forall i :: 0 <= i < |text| ==> (text[i] == '=' <==> i >= n)
  }

  lemma PaddedBehind(front: string, text: string, n: nat)
    requires |front| == 4 && Padded(front, 4) && Padded(text, n)
    ensures Padded(front + text, 4 + n)
  {
    forall i | 0 <= i < |front + text| ensures (front + text)[i] == '=' <==> i >= 4 + n {
      if i >= 4 { assert (front + text)[i] == text[i - 4]; } else { assert (front + text)[i] == front[i]; }
    }
  }

  lemma QuadPlain(key: string, a: bv8, b: bv8, c: bv8)
    requires Alphabet(key) && |key| == 64
    ensures Padded(Quad(key, a, b, c), 4)
  {
    BytesBack(a, b, c);
    hide First, Second, Third, Fourth;
    KeyFound(key, First(a));
    KeyFound(key, Second(a, b));
    KeyFound(key, Third(b, c));
    KeyFound(key, Fourth(c));
  }

  lemma EncodedFirst(key: string, data: seq<bv8>)
    requires |key| == 64 && |data| >= 3
    ensures Encoded(key, data) == Quad(key, data[0], data[1], data[2]) + Encoded(key, data[3..])
  {
    hide Quad;
  }

  lemma FewPadded(key: string, data: seq<bv8>)
    requires Alphabet(key) && |key| == 64 && |data| < 3
    ensures Padded(Encoded(key, data), Needed(|data|))
  {
    hide Quad;
    if |data| == 2 {
      QuadPlain(key, data[0], data[1], 0);
    } else if |data| == 1 {
      QuadPlain(key, data[0], 0, 0);
    }
  }

  lemma {:induction false} BytesRead(key: string, data: seq<bv8>, text: string)
    requires Alphabet(key) && Needed(|data|) <= |text|
    requires forall i :: 0 <= i < Needed(|data|) ==> text[i] == Encoded(key, data)[i]
    ensures DecodedBytes(text, |data|) == data
    decreases |data|
  {
    hide *;
    KeyLength(key);
    if |data| >= 3 {
      BytesLeft(key, data, text);
      BytesRead(key, data[3..], text[4..]);
      assert data == [data[0], data[1], data[2]] + data[3..];
    } else {
      FewRead(key, data, text);
    }
  }

  /** Four characters give three bytes, and leave the others. */
  lemma BytesLeft(key: string, data: seq<bv8>, text: string)
    requires Alphabet(key) && |key| == 64 && |data| >= 3 && Needed(|data|) <= |text|
    requires forall i :: 0 <= i < Needed(|data|) ==> text[i] == Encoded(key, data)[i]
    ensures |text| >= 4 && Needed(|data| - 3) <= |text[4..]|
    ensures forall i :: 0 <= i < Needed(|data[3..]|) ==> text[4..][i] == Encoded(key, data[3..])[i]
    ensures DecodedBytes(text, |data|) == [data[0], data[1], data[2]] + DecodedBytes(text[4..], |data| - 3)
  {
    hide KeyOf, DecodeFirst, DecodeSecond, DecodeThird, First, Second, Third, Fourth, Letter, Alphabet;
    QuadRead(key, data[0], data[1], data[2]);
    forall i | 0 <= i < Needed(|data| - 3) ensures text[4..][i] == Encoded(key, data[3..])[i] {
      assert text[4 + i] == Encoded(key, data)[4 + i];
    }
  }

  lemma FewRead(key: string, data: seq<bv8>, text: string)
    requires Alphabet(key) && |key| == 64 && |data| < 3 && Needed(|data|) <= |text|
    requires forall i :: 0 <= i < Needed(|data|) ==> text[i] == Encoded(key, data)[i]
    ensures DecodedBytes(text, |data|) == data
  {
    hide KeyOf, DecodeFirst, DecodeSecond, DecodeThird, First, Second, Third, Fourth, Letter, Alphabet;
    if |data| == 2 {
      QuadRead(key, data[0], data[1], 0);
    } else if |data| == 1 {
      QuadRead(key, data[0], 0, 0);
    }
  }

  lemma QuadRead(key: string, a: bv8, b: bv8, c: bv8)
    requires Alphabet(key)
    ensures |key| == 64
    ensures var q := Quad(key, a, b, c);
            && DecodeFirst(KeyOf(q[0]), KeyOf(q[1])) == a && DecodeSecond(KeyOf(q[1]), KeyOf(q[2])) == b
            && DecodeThird(KeyOf(q[2]), KeyOf(q[3])) == c
  {
    hide KeyOf, Alphabet, DecodeFirst, DecodeSecond, DecodeThird, First, Second, Third, Fourth;
    KeyLength(key);
    BytesBack(a, b, c);
    KeyFound(key, First(a));
    KeyFound(key, Second(a, b));
    KeyFound(key, Third(b, c));
    KeyFound(key, Fourth(c));
  }

  lemma PaddedSize(text: string, n: nat)
    requires |text| == (n + 2) / 3 * 4 && forall i :: 0 <= i < |text| ==> (text[i] == '=' <==> i >= Needed(n))
    ensures OutputSize(text) == Some(n)
  {
    var q := n / 3;
    if n % 3 == 0 {
      assert |text| == 4 * q == Needed(n);
      if q > 0 { assert text[4 * q - 2] != '=' && text[4 * q - 1] != '='; }
    } else if n % 3 == 1 {
      assert |text| == 4 * q + 4 && Needed(n) == 4 * q + 2;
      assert text[4 * q + 2] == '=';
    } else {
      assert |text| == 4 * q + 4 && Needed(n) == 4 * q + 3;
      assert text[4 * q + 2] != '=' && text[4 * q + 3] == '=';
    }
  }

  lemma UnpaddedSize(text: string, n: nat)
    requires |text| == Needed(n) && forall i :: 0 <= i < |text| ==> text[i] != '='
    ensures OutputSize(text) == Some(n)
  {
    NeededRests(n);
    hide Needed;
    if |text| >= 2 { assert text[|text| - 2] != '='; }
    if |text| >= 1 { assert text[|text| - 1] != '='; }
  }

  lemma NeededRests(n: nat)
    ensures var s, q := Needed(n), n / 3;
            s / 4 == q && n == 3 * q + (if s % 4 == 0 then 0 else s % 4 - 1) && s % 4 != 1
  {
  }

  /** Decoding undoes encoding, whether the padding is kept or left out. */
  lemma RoundTrip(key: string, data: seq<bv8>)
    requires Alphabet(key)
    ensures Decoded(Encoded(key, data)) == Some(data) && Decoded(Unpadded(key, data)) == Some(data)
  {
    PaddingLast(key, data);
    hide Alphabet, Encoded, DecodedBytes, OutputSize;
    KeyLength(key);
    PaddedSize(Encoded(key, data), |data|);
    UnpaddedSize(Unpadded(key, data), |data|);
    BytesRead(key, data, Encoded(key, data));
    BytesRead(key, data, Unpadded(key, data));
  }

  /** Both alphabets of RFC 4648. */
  lemma RoundTrips(data: seq<bv8>)
    ensures Decoded(Encoded(STANDARD, data)) == Some(data) == Decoded(Unpadded(STANDARD, data))
    ensures Decoded(Encoded(URL_SAFE, data)) == Some(data) == Decoded(Unpadded(URL_SAFE, data))
  {
    BothAlphabets();
    RoundTrip(STANDARD, data);
    RoundTrip(URL_SAFE, data);
  }

  // ---------------------------------------------------------------- the bits

  /** Four sextets, or three bytes, in one number. */
  function Sextets(w: bv8, x: bv8, y: bv8, z: bv8): bv24 {
    ((w as bv24) << 18) | ((x as bv24) << 12) | ((y as bv24) << 6) | (z as bv24)
  }

  function Bytes(a: bv8, b: bv8, c: bv8): bv24 {
    ((a as bv24) << 16) | ((b as bv24) << 8) | (c as bv24)
  }

  /** The alphabets are those of RFC 4648, its tables 1 and 2: the letters, the digits, and two signs. */
  lemma AlphabetsAre(i: nat)
    requires i < 64
    ensures |STANDARD| == 64 == |URL_SAFE|
    ensures i < 26 ==> STANDARD[i] == URL_SAFE[i] == 'A' + i as char
    ensures 26 <= i < 52 ==> STANDARD[i] == URL_SAFE[i] == 'a' + (i - 26) as char
    ensures 52 <= i < 62 ==> STANDARD[i] == URL_SAFE[i] == '0' + (i - 52) as char
    ensures STANDARD[62..] == "+/" && URL_SAFE[62..] == "-_"
  {
    if i < 26 { UpperAt(i); } else if i < 52 { LowerAt(i - 26); } else if i < 62 { NumeralAt(i - 52); }
  }

  lemma InOrder(a: bv8, b: bv8, c: bv8)
    ensures First(a) < 64 && Second(a, b) < 64 && Third(b, c) < 64 && Fourth(c) < 64
    ensures Sextets(First(a), Second(a, b), Third(b, c), Fourth(c)) == Bytes(a, b, c)
  {
    SameBits(a, b, c);
  }

  lemma QuadBits(key: string, a: bv8, b: bv8, c: bv8)
    requires Alphabet(key)
    ensures |key| == 64
    ensures var q := Quad(key, a, b, c); Sextets(KeyOf(q[0]), KeyOf(q[1]), KeyOf(q[2]), KeyOf(q[3])) == Bytes(a, b, c)
  {
    hide KeyOf, Alphabet, First, Second, Third, Fourth, Sextets, Bytes;
    KeyLength(key);
    InOrder(a, b, c);
    KeyFound(key, First(a));
    KeyFound(key, Second(a, b));
    KeyFound(key, Third(b, c));
    KeyFound(key, Fourth(c));
  }

  /** The characters from `i` on hold the bits of the bytes from `j` on: four of them those of three bytes, and at the end as
      many as are needed, with zeros behind them. */
  predicate Holds(t: string, i: nat, data: seq<bv8>, j: nat) {
    && j < |data| && i + 4 <= |t|
    && if |data| - j >= 3 then Sextets(KeyOf(t[i]), KeyOf(t[i + 1]), KeyOf(t[i + 2]), KeyOf(t[i + 3])) == Bytes(data[j], data[j + 1], data[j + 2])
       else if |data| - j == 2 then Sextets(KeyOf(t[i]), KeyOf(t[i + 1]), KeyOf(t[i + 2]), 0) == Bytes(data[j], data[j + 1], 0) && t[i + 3] == '='
       else Sextets(KeyOf(t[i]), KeyOf(t[i + 1]), 0, 0) == Bytes(data[j], 0, 0) && t[i + 2] == '=' && t[i + 3] == '='
  }

  lemma HoldsBehind(front: string, t: string, i: nat, three: seq<bv8>, data: seq<bv8>, j: nat)
    requires |front| == 4 && |three| == 3 && Holds(t, i, data, j)
    ensures Holds(front + t, i + 4, three + data, j + 3)
  {
    hide KeyOf, Sextets, Bytes;
  }

  /** The places of the characters in the alphabet hold the bits of the bytes in their order. */
  lemma {:induction false} EncodedBits(key: string, data: seq<bv8>, g: nat)
    requires Alphabet(key) && 3 * g < |data|
    ensures |key| == 64 && Holds(Encoded(key, data), 4 * g, data, 3 * g)
    decreases g
  {
    hide *;
    KeyLength(key);
    if g > 0 {
      EncodedFirst(key, data);
      EncodedBits(key, data[3..], g - 1);
      HoldsBehind(Quad(key, data[0], data[1], data[2]), Encoded(key, data[3..]), 4 * (g - 1), data[..3], data[3..], 3 * (g - 1));
      assert data[..3] + data[3..] == data;
    } else if |data| >= 3 {
      FullBits(key, data);
    } else {
      LastBits(key, data);
    }
  }

  lemma FullBits(key: string, data: seq<bv8>)
    requires Alphabet(key) && |data| >= 3
    ensures |key| == 64 && Holds(Encoded(key, data), 0, data, 0)
  {
    hide KeyOf, Sextets, Bytes, Quad, Alphabet;
    KeyLength(key);
    EncodedFirst(key, data);
    QuadBits(key, data[0], data[1], data[2]);
  }

  lemma LastBits(key: string, data: seq<bv8>)
    requires Alphabet(key) && 1 <= |data| <= 2
    ensures |key| == 64 && Holds(Encoded(key, data), 0, data, 0)
  {
    hide KeyOf, Alphabet, Sextets, Bytes, Letter, First, Second, Third, Fourth;
    var a, b := data[0], if |data| == 2 then data[1] else 0;
    QuadBits(key, a, b, 0);
    ZeroBits(key, a, b);
  }

  /** What is left out is zero. */
  lemma ZeroBits(key: string, a: bv8, b: bv8)
    requires Alphabet(key)
    ensures |key| == 64 && KeyOf(Quad(key, a, b, 0)[3]) == 0 && (b == 0 ==> KeyOf(Quad(key, a, b, 0)[2]) == 0)
  {
    hide KeyOf, Alphabet;
    KeyLength(key);
    KeyFound(key, Fourth(0));
    KeyFound(key, 0);
    assert Fourth(0) == 0 && Third(0, 0) == 0;
  }

  lemma BytesOf(w: bv8, x: bv8, y: bv8, z: bv8)
    requires w < 64 && x < 64 && y < 64 && z < 64
    ensures Bytes(DecodeFirst(w, x), DecodeSecond(x, y), DecodeThird(y, z)) == Sextets(w, x, y, z)
    ensures Bytes(DecodeFirst(w, x), DecodeSecond(x, y), 0) == Sextets(w, x, y, 0) & 0xFFFF00
    ensures Bytes(DecodeFirst(w, x), 0, 0) == Sextets(w, x, 0, 0) & 0xFF0000
  {
  }

  lemma KeySmall(c: char)
    ensures KeyOf(c) < 64
  {
  }

  /** The bytes from `j` on hold the bits of the characters from `i` on; what is beyond the last byte is dropped. */
  predicate Gives(t: string, i: nat, r: seq<bv8>, j: nat) {
    && j < |r| && i + (if |r| - j >= 3 then 4 else |r| - j + 1) <= |t|
    && if |r| - j >= 3 then Bytes(r[j], r[j + 1], r[j + 2]) == Sextets(KeyOf(t[i]), KeyOf(t[i + 1]), KeyOf(t[i + 2]), KeyOf(t[i + 3]))
       else if |r| - j == 2 then Bytes(r[j], r[j + 1], 0) == Sextets(KeyOf(t[i]), KeyOf(t[i + 1]), KeyOf(t[i + 2]), 0) & 0xFFFF00
       else Bytes(r[j], 0, 0) == Sextets(KeyOf(t[i]), KeyOf(t[i + 1]), 0, 0) & 0xFF0000
  }

  lemma GivesBehind(t: string, i: nat, three: seq<bv8>, r: seq<bv8>, j: nat)
    requires |t| >= 4 && |three| == 3 && Gives(t[4..], i, r, j)
    ensures Gives(t, i + 4, three + r, j + 3)
  {
    hide KeyOf, Sextets, Bytes;
  }

  /** The decoded bytes hold the bits of the characters' places in their order, whatever the text. */
  lemma {:induction false} DecodedBits(text: string, n: nat, g: nat)
    requires Needed(n) <= |text| && 3 * g < n
    ensures Gives(text, 4 * g, DecodedBytes(text, n), 3 * g)
    decreases g
  {
    hide *;
    if g == 0 {
      FirstBits(text, n);
    } else {
      ThreeMore(text, n);
      DecodedBits(text[4..], n - 3, g - 1);
      GivesBehind(text, 4 * (g - 1), DecodedBytes(text, n)[..3], DecodedBytes(text[4..], n - 3), 3 * (g - 1));
    }
  }

  lemma ThreeMore(text: string, n: nat)
    requires Needed(n) <= |text| && n >= 3
    ensures |text| >= 4 && Needed(n - 3) <= |text[4..]| && |DecodedBytes(text, n)| == n
    ensures DecodedBytes(text, n) == DecodedBytes(text, n)[..3] + DecodedBytes(text[4..], n - 3)
  {
    hide KeyOf, DecodeFirst, DecodeSecond, DecodeThird;
    NeededStep(n);
  }

  lemma FirstBits(text: string, n: nat)
    requires Needed(n) <= |text| && n > 0
    ensures Gives(text, 0, DecodedBytes(text, n), 0)
  {
    hide KeyOf, Sextets, Bytes, DecodeFirst, DecodeSecond, DecodeThird;
    KeySmall(text[0]);
    KeySmall(text[1]);
    if n >= 2 { KeySmall(text[2]); }
    if n >= 3 { KeySmall(text[3]); }
    BytesOf(KeyOf(text[0]), KeyOf(text[1]), if n >= 2 then KeyOf(text[2]) else 0, if n >= 3 then KeyOf(text[3]) else 0);
  }

  predicate Standing(c: char) {
    'A' <= c <= 'Z' || 'a' <= c <= 'z' || '0' <= c <= '9' || c == '+' || c == '/' || c == '-' || c == '_'
  }

  lemma StandsInOne(c: char)
    requires Standing(c)
    ensures c in STANDARD || c in URL_SAFE
  {
    hide STANDARD, URL_SAFE;
    var n := Sextet(c);
    AlphabetsAre(n);
    if n < 62 {
      assert STANDARD[n] == c;
    } else if c == '+' || c == '/' {
      assert STANDARD[62..][n - 62] == c;
    } else {
      assert URL_SAFE[62..][n - 62] == c;
    }
  }

  /** Characters of neither alphabet, the padding among them, stand for zero. */
  lemma OtherCharacters(c: char)
    requires c !in STANDARD && c !in URL_SAFE
    ensures KeyOf(c) == 0
  {
    if Standing(c) { StandsInOne(c); }
  }
}
