/**
 The texts that the parser of `json.h` accepts, as a grammar of their own after RFC 8259, with the value of each: strings
 of plain characters and escapes, numbers, lists and objects with white space anywhere between their parts.
 */
module JsonStandard {
  import opened Wrappers
  import opened Sequences
  import opened JsonText
  import opened JsonGrammar
  import opened JsonRoundTrip

  // ---------------------------------------------------------------- strings

  /** A character that stands for itself, an escape of two characters, or one of a code in four hexadecimal digits. */
  datatype Piece = Plain(c: char) | Short(letter: char) | Code(a: char, b: char, c3: char, d: char)

  /** Section 7 of RFC 8259. */
  const SHORT_ESCAPES := map['"' := 0x22, '\\' := 0x5C, '/' := 0x2F, 'b' := 0x08, 'f' := 0x0C, 'n' := 0x0A, 'r' := 0x0D, 't' := 0x09]

  /** `c` is the hexadecimal digit of the value `n`, in either case. */
  predicate HexDigit(c: char, n: nat) {
    n < 16 && ("0123456789abcdef"[n] == c || "0123456789ABCDEF"[n] == c)
  }

  lemma HexIs(c: char)
    ensures IsHex(c) <==> exists n: nat :: HexDigit(c, n)
    ensures IsHex(c) ==> 0 <= FromHex(c) < 16 && HexDigit(c, FromHex(c))
  {
    LettersInOrder();
    if IsHex(c) { assert 0 <= FromHex(c) < 16 && HexDigit(c, FromHex(c)); }
  }

  lemma LettersInOrder()
    ensures forall n :: 0 <= n < 10 ==> "0123456789abcdef"[n] == '0' + n as char && "0123456789ABCDEF"[n] == '0' + n as char
    ensures forall n :: 10 <= n < 16 ==> "0123456789abcdef"[n] == 'a' + (n - 10) as char && "0123456789ABCDEF"[n] == 'A' + (n - 10) as char
  {
  }

  /** The bytes are the UTF-8 form of the code, as section 3 of RFC 3629 has it: the shortest of its three lengths. */
  predicate IsUtf8(bytes: string, code: int) {
    || (code < 0x80 && |bytes| == 1 && bytes[0] as int == code)
    || (0x80 <= code < 0x800 && |bytes| == 2 && 0xC2 <= bytes[0] as int <= 0xDF && Continues(bytes[1])
        && (bytes[0] as int - 0xC0) * 64 + (bytes[1] as int - 0x80) == code)
    || (0x800 <= code < 0x10000 && |bytes| == 3 && 0xE0 <= bytes[0] as int <= 0xEF && Continues(bytes[1]) && Continues(bytes[2])
        && ((bytes[0] as int - 0xE0) * 64 + (bytes[1] as int - 0x80)) * 64 + (bytes[2] as int - 0x80) == code)
  }

  predicate Continues(c: char) { 0x80 <= c as int <= 0xBF }

  lemma Utf8Is(code: int)
    requires 0 <= code < 0x10000
    ensures IsUtf8(Utf8(code), code)
  {
  }

  predicate ValidPiece(p: Piece) {
    match p
    case Plain(c) => c != '"' && c != '\\' && c != '\0'
    case Short(letter) => letter in SHORT_ESCAPES
    case Code(a, b, c, d) => IsHex(a) && IsHex(b) && IsHex(c) && IsHex(d)
  }

  function PieceText(p: Piece): string {
    match p
    case Plain(c) => [c]
    case Short(letter) => ['\\', letter]
    case Code(a, b, c, d) => ['\\', 'u', a, b, c, d]
  }

  /** What a piece stands for. */
  function PieceValue(p: Piece): string
    requires ValidPiece(p)
  {
    match p
    case Plain(c) => [c]
    case Short(letter) => [SHORT_ESCAPES[letter] as char]
    case Code(a, b, c, d) => Utf8(CodeOf(a, b, c, d))
  }

  /** The code of four digits goes by their places. */
  lemma CodeIs(a: char, b: char, c: char, d: char, w: nat, x: nat, y: nat, z: nat)
    requires HexDigit(a, w) && HexDigit(b, x) && HexDigit(c, y) && HexDigit(d, z)
    ensures ValidPiece(Code(a, b, c, d)) && IsUtf8(PieceValue(Code(a, b, c, d)), ((w * 16 + x) * 16 + y) * 16 + z)
  {
    hide Utf8, IsUtf8, IsHex;
    OneDigit(a, w);
    OneDigit(b, x);
    OneDigit(c, y);
    OneDigit(d, z);
    Utf8Is(CodeOf(a, b, c, d));
  }

  lemma OneDigit(c: char, n: nat)
    requires HexDigit(c, n)
    ensures IsHex(c) && FromHex(c) == n
  {
    LettersInOrder();
  }

  predicate ValidPieces(ps: seq<Piece>) {
    forall i :: 0 <= i < |ps| ==> ValidPiece(ps[i])
  }

  function PiecesText(ps: seq<Piece>): string {
    if ps == [] then "" else PieceText(ps[0]) + PiecesText(ps[1..])
  }

  function PiecesValue(ps: seq<Piece>): string
    requires ValidPieces(ps)
  {
    if ps == [] then "" else PieceValue(ps[0]) + PiecesValue(ps[1..])
  }

  lemma ShortIs(letter: char)
    ensures letter in SHORT_ESCAPES <==> Escapable(letter)
    ensures letter in SHORT_ESCAPES ==> SHORT_ESCAPES[letter] as char == UnescapeChar(letter)
  {
  }

  lemma PieceReads(p: Piece, tail: string)
    requires ValidPiece(p) && Escaped(tail)
    ensures Escaped(PieceText(p) + tail) && Unescaped(PieceText(p) + tail) == PieceValue(p) + Unescaped(tail)
  {
    var s := PieceText(p) + tail;
    if p.Short? { ShortIs(p.letter); }
    assert s[|PieceText(p)|..] == tail;
    hide CodeOf, Utf8, IsHex, UnescapeChar;
    if p.Code? { assert FourHex(s, 2); }
  }

  lemma {:induction false} PiecesRead(ps: seq<Piece>)
    requires ValidPieces(ps)
    ensures Escaped(PiecesText(ps)) && Unescaped(PiecesText(ps)) == PiecesValue(ps)
  {
    hide PieceText, PieceValue, Escaped, Unescaped, ValidPiece;
    if ps == [] {
      NothingEscaped();
    } else {
      PiecesRead(ps[1..]);
      PieceReads(ps[0], PiecesText(ps[1..]));
    }
  }

  lemma NothingEscaped()
    ensures Escaped("") && Unescaped("") == ""
  {
  }

  lemma PieceSkipped(text: string, i: nat, p: Piece)
    requires At(text, i, PieceText(p)) && ValidPiece(p)
    ensures StringEnd(text, i) == StringEnd(text, i + |PieceText(p)|)
  {
    var here := text[i..i + |PieceText(p)|];
    assert here[0] == text[i];
    if p.Code? {
      assert here[1] == text[i + 1] && here[2] == text[i + 2] && here[3] == text[i + 3] && here[4] == text[i + 4] && here[5] == text[i + 5];
      assert FourHex(text, i + 2);
    } else if p.Short? {
      ShortIs(p.letter);
      assert here[1] == text[i + 1];
    }
  }

  /** The place of the closing quote. */
  predicate EndsAt(text: string, i: nat, e: nat) {
    StringEnd(text, i).Some? && StringEnd(text, i).value == e
  }

  lemma QuoteThere(text: string, i: nat)
    requires At(text, i, "\"")
    ensures EndsAt(text, i, i)
  {
    AtFirst(text, i, "\"");
  }

  /** Up to its closing quote a string is read piece by piece. */
  lemma {:induction false} PiecesEnd(text: string, i: nat, ps: seq<Piece>)
    requires ValidPieces(ps) && At(text, i, PiecesText(ps)) && At(text, i + |PiecesText(ps)|, "\"")
    ensures EndsAt(text, i, i + |PiecesText(ps)|)
    decreases |ps|
  {
    hide PieceText, At, StringEnd, ValidPiece;
    if ps == [] {
      QuoteThere(text, i);
    } else {
      AtParts(text, i, PieceText(ps[0]), PiecesText(ps[1..]));
      PieceSkipped(text, i, ps[0]);
      PiecesEnd(text, i + |PieceText(ps[0])|, ps[1..]);
    }
  }

  lemma PiecesParse(text: string, i: nat, ps: seq<Piece>)
    requires ValidPieces(ps) && At(text, i, PiecesText(ps)) && At(text, i + |PiecesText(ps)|, "\"")
    ensures EndsAt(text, i, i + |PiecesText(ps)|) && StringAt(text, i) == PiecesValue(ps)
  {
    hide PiecesText, PiecesValue, StringEnd, Unescaped, Escaped;
    PiecesEnd(text, i, ps);
    PiecesRead(ps);
  }

  lemma OnePiece(text: string, i: nat) returns (p: Piece)
    requires StringEnd(text, i).Some? && text[i] != '"'
    ensures ValidPiece(p) && At(text, i, PieceText(p)) && EndsAt(text, i + |PieceText(p)|, StringEnd(text, i).value)
    ensures i + |PieceText(p)| <= StringEnd(text, i).value
  {
    if text[i] != '\\' {
      p := Plain(text[i]);
    } else if text[i + 1] == 'u' {
      p := Code(text[i + 2], text[i + 3], text[i + 4], text[i + 5]);
    } else {
      p := Short(text[i + 1]);
      ShortIs(text[i + 1]);
    }
  }

  /** Whatever the parser takes for a string is made of such pieces. */
  lemma {:induction false} PiecesFound(text: string, i: nat) returns (ps: seq<Piece>)
    requires StringEnd(text, i).Some?
    ensures ValidPieces(ps) && text[i..StringEnd(text, i).value] == PiecesText(ps)
    decreases |text| - i
  {
    hide StringEnd, PieceText, ValidPiece;
    var e := StringEnd(text, i).value;
    if text[i] == '"' {
      ps := [];
      QuoteHere(text, i);
    } else {
      var p := OnePiece(text, i);
      PieceLong(p);
      var n := i + |PieceText(p)|;
      var more := PiecesFound(text, n);
      ps := [p] + more;
      assert ps[1..] == more;
      assert text[i..e] == text[i..n] + text[n..e];
    }
  }

  lemma QuoteHere(text: string, i: nat)
    requires i < |text| && text[i] == '"'
    ensures EndsAt(text, i, i)
  {
  }

  lemma PieceLong(p: Piece)
    ensures |PieceText(p)| > 0
  {
  }

  // ---------------------------------------------------------------- numbers

  /** A sign, an integer, a fraction and an exponent; the last two may be empty. */
  datatype Num = Num(sign: string, integer: string, fraction: string, exponent: string)

  function NumText(n: Num): string {
    n.sign + (n.integer + (n.fraction + n.exponent))
  }

  /** The numbers that are read. Beyond RFC 8259 the digits behind a point, and those behind the sign of an exponent, may be
      missing; and a bare zero may not have an exponent, which the standard would allow. */
  predicate ValidNum(n: Num) {
    && (n.sign == "" || n.sign == "-")
    && n.integer != "" && AllDigits(n.integer) && (n.integer[0] == '0' ==> |n.integer| == 1)
    && PointAndDigits(n.fraction) && ExponentText(n.exponent)
    && (n.integer[0] == '0' && n.exponent != "" ==> n.fraction != "")
  }

  predicate PointAndDigits(s: string) { s == "" || (s[0] == '.' && AllDigits(s[1..])) }

  predicate ExponentText(s: string) {
    s == "" || (|s| >= 2 && (s[0] == 'e' || s[0] == 'E') && (s[1] == '+' || s[1] == '-' || '0' <= s[1] <= '9') && AllDigits(s[2..]))
  }

  /** The number ends at `e`. */
  predicate NumberEndsAt(text: string, i: nat, state: NumberState, e: nat) {
    NumberEnd(text, i, state).Some? && NumberEnd(text, i, state).value == e
  }

  predicate Behind(text: string, e: nat) { !NumberChar(CharAt(text, e)) }

  lemma ExponentEnds(text: string, i: nat, s: string, state: NumberState)
    requires At(text, i, s) && ExponentText(s) && Behind(text, i + |s|)
    requires state.IntegerDigits? || state.DigitsAfterPoints? || (state.ZeroFirst? && s == "")
    ensures NumberEndsAt(text, i, state, i + |s|)
  {
    if s != "" {
      AtFirst(text, i, s);
      AtFirst(text, i + 1, s[1..]);
      assert s[1..][1..] == s[2..];
      hide At, AllDigits;
      DigitsSkipped(text, i + 2, s[2..], DigitsAfterE);
      assert NumberEnd(text, i + 1, E) == NumberEnd(text, i + 2, DigitsAfterE);
    }
  }

  lemma FractionEnds(text: string, i: nat, s: string, state: NumberState)
    requires At(text, i, s) && PointAndDigits(s) && (state.ZeroFirst? || state.IntegerDigits?)
    ensures NumberEnd(text, i, state) == NumberEnd(text, i + |s|, if s == "" then state else DigitsAfterPoints)
  {
    if s != "" {
      AtFirst(text, i, s);
      hide AllDigits;
      DigitsSkipped(text, i + 1, s[1..], DigitsAfterPoints);
    }
  }

  lemma IntegerEnds(text: string, i: nat, s: string, state: NumberState)
    requires At(text, i, s) && s != "" && AllDigits(s) && (s[0] == '0' ==> |s| == 1) && (state.Minus? || state.AfterMinus?)
    ensures NumberEnd(text, i, state) == NumberEnd(text, i + |s|, if s[0] == '0' then ZeroFirst else IntegerDigits)
  {
    AtFirst(text, i, s);
    if s[0] != '0' { DigitsSkipped(text, i + 1, s[1..], IntegerDigits); }
  }

  /** A number is read to its end. */
  lemma NumEnds(text: string, i: nat, n: Num)
    requires ValidNum(n) && At(text, i, NumText(n)) && Behind(text, i + |NumText(n)|)
    ensures NumberEndsAt(text, i, Minus, i + |NumText(n)|)
  {
    hide At, PointAndDigits, ExponentText, AllDigits, NumberEnd, Behind;
    AtParts(text, i, n.sign, n.integer + (n.fraction + n.exponent));
    AtParts(text, i + |n.sign|, n.integer, n.fraction + n.exponent);
    AtParts(text, i + |n.sign| + |n.integer|, n.fraction, n.exponent);
    if n.sign == "-" { MinusReads(text, i); }
    IntegerEnds(text, i + |n.sign|, n.integer, if n.sign == "-" then AfterMinus else Minus);
    var state := if n.integer[0] == '0' then ZeroFirst else IntegerDigits;
    FractionEnds(text, i + |n.sign| + |n.integer|, n.fraction, state);
    ExponentEnds(text, i + |n.sign| + |n.integer| + |n.fraction|, n.exponent, if n.fraction == "" then state else DigitsAfterPoints);
  }

  // ---------------------------------------------------------------- what is accepted as a number

  /** Only digits up to the end. */
  lemma {:induction false} DigitsFound(text: string, i: nat, e: nat)
    requires NumberEndsAt(text, i, DigitsAfterE, e)
    ensures i <= e && Behind(text, e) && (i <= |text| ==> e <= |text|) && (e > i ==> i < |text|)
    ensures e <= |text| ==> AllDigits(text[i..e])
    decreases |text| - i
  {
    if i < e {
      InvalidStays(text, i + 1, e);
      DigitsFound(text, i + 1, e);
      if e <= |text| { assert text[i..e] == [text[i]] + text[i + 1..e]; }
    }
  }

  lemma InvalidStays(text: string, i: nat, e: nat)
    ensures !NumberEndsAt(text, i, Invalid, e)
  {
  }

  lemma ExponentFound(text: string, i: nat, e: nat)
    requires NumberEndsAt(text, i, E, e) && 0 < i <= |text| && (text[i - 1] == 'e' || text[i - 1] == 'E')
    ensures i < e <= |text| && Behind(text, e) && ExponentText(text[i - 1..e])
  {
    InvalidStays(text, i + 1, e);
    hide AllDigits;
    DigitsFound(text, i + 1, e);
    assert text[i - 1..e][2..] == text[i + 1..e];
  }

  /** Digits behind the point, and an exponent. */
  lemma {:induction false} PointsFound(text: string, i: nat, e: nat) returns (k: nat)
    requires NumberEndsAt(text, i, DigitsAfterPoints, e) && i <= |text|
    ensures i <= k <= e <= |text| && Behind(text, e) && AllDigits(text[i..k]) && ExponentText(text[k..e])
    decreases |text| - i
  {
    InvalidStays(text, i + 1, e);
    k := i;
    if NumberChar(CharAt(text, i)) {
      if text[i] == 'e' || text[i] == 'E' {
        ExponentFound(text, i + 1, e);
      } else {
        k := PointsFound(text, i + 1, e);
        assert text[i..k] == [text[i]] + text[i + 1..k];
      }
    }
  }

  /** Digits, a fraction and an exponent. */
  lemma {:induction false} IntegerFound(text: string, i: nat, e: nat) returns (k: nat, m: nat)
    requires NumberEndsAt(text, i, IntegerDigits, e) && i <= |text|
    ensures i <= k <= m <= e <= |text| && Behind(text, e) && AllDigits(text[i..k]) && PointAndDigits(text[k..m]) && ExponentText(text[m..e])
    decreases |text| - i
  {
    InvalidStays(text, i + 1, e);
    k, m := i, i;
    if NumberChar(CharAt(text, i)) {
      if text[i] == 'e' || text[i] == 'E' {
        ExponentFound(text, i + 1, e);
      } else if text[i] == '.' {
        m := PointsFound(text, i + 1, e);
        assert text[i..m][1..] == text[i + 1..m];
      } else {
        k, m := IntegerFound(text, i + 1, e);
        assert text[i..k] == [text[i]] + text[i + 1..k];
      }
    }
  }

  /** A zero can only have a fraction. */
  lemma ZeroFound(text: string, i: nat, e: nat) returns (m: nat)
    requires NumberEndsAt(text, i, ZeroFirst, e) && i <= |text|
    ensures i <= m <= e <= |text| && Behind(text, e) && PointAndDigits(text[i..m]) && ExponentText(text[m..e]) && (m == i ==> e == i)
  {
    InvalidStays(text, i + 1, e);
    m := i;
    if NumberChar(CharAt(text, i)) {
      m := PointsFound(text, i + 1, e);
      assert text[i..m][1..] == text[i + 1..m];
    }
  }

  lemma UnsignedFound(text: string, i: nat, e: nat, state: NumberState) returns (k: nat, m: nat)
    requires NumberEndsAt(text, i, state, e) && i <= |text| && (state.AfterMinus? || (state.Minus? && CharAt(text, i) != '-'))
    ensures i < k <= m <= e <= |text| && Behind(text, e)
    ensures ValidNum(Num("", text[i..k], text[k..m], text[m..e]))
  {
    InvalidStays(text, i + 1, e);
    if text[i] == '0' {
      k := i + 1;
      m := ZeroFound(text, i + 1, e);
    } else {
      k, m := IntegerFound(text, i + 1, e);
      assert text[i..k] == [text[i]] + text[i + 1..k];
    }
  }

  lemma InThree(text: string, a: nat, b: nat, c: nat, d: nat)
    requires a <= b <= c <= d <= |text|
    ensures text[a..d] == text[a..b] + (text[b..c] + text[c..d])
  {
  }

  /** Whatever the parser takes for a number is one of these. */
  lemma NumFound(text: string, i: nat, e: nat) returns (n: Num)
    requires NumberEndsAt(text, i, Minus, e) && i <= |text|
    ensures i < e <= |text| && Behind(text, e) && ValidNum(n) && NumText(n) == text[i..e]
  {
    hide AllDigits, PointAndDigits, ExponentText;
    var k, m;
    if CharAt(text, i) == '-' {
      assert NumberEndsAt(text, i + 1, AfterMinus, e);
      hide NumberEnd;
      k, m := UnsignedFound(text, i + 1, e, AfterMinus);
      n := Num("-", text[i + 1..k], text[k..m], text[m..e]);
      InThree(text, i + 1, k, m, e);
      assert text[i..e] == "-" + text[i + 1..e];
    } else {
      k, m := UnsignedFound(text, i, e, Minus);
      n := Num("", text[i..k], text[k..m], text[m..e]);
      InThree(text, i, k, m, e);
      assert text[i..e] == "" + text[i..e];
    }
  }
}
