/** What patterns say and what urls they match, in plain words: tags, numbers, segments and the captured values. */
module RoutingLaws {
  import opened Wrappers
  import opened Sequences
  import opened RoutingRules
  import opened RoutingTrie
  import opened Routing

  // ---------------------------------------------------------------- numbers

  function Power10(n: nat): nat { if n == 0 then 1 else 10 * Power10(n - 1) }

  predicate AllDigits(s: string) { forall i :: 0 <= i < |s| ==> IsDigit(s[i]) }

  /** The value of digits goes by their places: of one digit it is the digit, and digits in front count a power of ten. */
  lemma {:induction false} PlaceValue(a: string, b: string)
    requires AllDigits(a + b)
    ensures AllDigits(a) && AllDigits(b) && DecimalOf(a + b) == DecimalOf(a) * Power10(|b|) + DecimalOf(b)
    ensures |b| == 1 ==> DecimalOf(b) == b[0] as int - '0' as int && 0 <= DecimalOf(b) <= 9
    decreases |b|
  {
    hide IsDigit, Power10, DecimalOf;
    DigitsParts(a, b);
    if b == [] {
      assert a + b == a;
      NoPlaces();
    } else {
      var n := |b| - 1;
      assert (a + b)[..|a + b| - 1] == a + b[..n] && (a + b)[|a + b| - 1] == b[n];
      DigitsParts(a + b[..n], [b[n]]);
      assert a + b[..n] + [b[n]] == a + b;
      PlaceValue(a, b[..n]);
      LastDigit(a + b);
      LastDigit(b);
      OnePlace(DecimalOf(a), n);
      if n == 0 { assert b[..0] == []; }
    }
  }

  lemma DigitsParts(a: string, b: string)
    ensures AllDigits(a + b) <==> AllDigits(a) && AllDigits(b)
  {
    var s := a + b;
    if AllDigits(s) {
      forall i | 0 <= i < |a| ensures IsDigit(a[i]) { assert a[i] == s[i]; }
      forall i | 0 <= i < |b| ensures IsDigit(b[i]) { assert b[i] == s[|a| + i]; }
    }
  }

  lemma NoPlaces()
    ensures AllDigits([]) && DecimalOf([]) == 0 && Power10(0) == 1
  {
  }

  lemma LastDigit(s: string)
    requires s != [] && AllDigits(s)
    ensures AllDigits(s[..|s| - 1]) && DecimalOf(s) == DecimalOf(s[..|s| - 1]) * 10 + (s[|s| - 1] as int - '0' as int)
    ensures 0 <= s[|s| - 1] as int - '0' as int <= 9 && (|s| == 1 ==> DecimalOf(s) == s[0] as int - '0' as int)
  {
    assert IsDigit(s[|s| - 1]);
    if |s| == 1 { assert s[..0] == []; }
  }

  lemma OnePlace(x: int, n: nat)
    ensures x * Power10(n) * 10 == x * Power10(n + 1)
  {
  }

  /** A sign and digits. */
  predicate IntegerText(s: string) {
    var from := if s != "" && (s[0] == '+' || s[0] == '-') then 1 else 0;
    from < |s| && AllDigits(s[from..])
  }

  function NumberIn(s: string): int
    requires IntegerText(s)
  {
    if s[0] == '-' then -DecimalOf(s[1..]) else if s[0] == '+' then DecimalOf(s[1..]) else DecimalOf(s)
  }

  /** The text `pos..e` of the url is an integer that ends there. */
  predicate IntegerAt(url: string, pos: nat, e: nat)
    requires pos <= e <= |url|
  {
    IntegerText(url[pos..e]) && (e == |url| || !IsDigit(url[e]))
  }

  lemma {:induction false} DigitsEndIs(url: string, pos: nat, e: nat)
    requires pos <= e <= |url| && (forall i :: pos <= i < e ==> IsDigit(url[i])) && (e == |url| || !IsDigit(url[e]))
    ensures DigitsEnd(url, pos) == e
    decreases e - pos
  {
    if pos < e { DigitsEndIs(url, pos + 1, e); }
  }

  /** Where a number is looked for, the longest run of digits behind a sign is taken, and nothing if there is none or the
      number is out of range. */
  lemma ScanIntegerIs(url: string, pos: nat, low: int, high: int, v: int, e: nat)
    requires pos < |url|
    ensures (ScanInteger(url, pos, low, high).Some? && ScanInteger(url, pos, low, high).value == (v, e))
       <==> pos < e <= |url| && IntegerAt(url, pos, e) && v == NumberIn(url[pos..e]) && low <= v <= high
  {
    hide DecimalOf;
    var from := if url[pos] == '+' || url[pos] == '-' then pos + 1 else pos;
    var end := DigitsEnd(url, from);
    if pos < e <= |url| && IntegerAt(url, pos, e) {
      var s := url[pos..e];
      assert s[0] == url[pos] && s[from - pos..] == url[from..e];
      forall i | from <= i < e ensures IsDigit(url[i]) { assert url[i] == s[from - pos..][i - from]; }
      DigitsEndIs(url, from, e);
      SignedText(url, pos, from, e);
    }
    if end > from {
      EndsThere(url, pos, from, end);
      SignedText(url, pos, from, end);
    }
  }

  lemma EndsThere(url: string, pos: nat, from: nat, end: nat)
    requires pos < |url| && from == (if url[pos] == '+' || url[pos] == '-' then pos + 1 else pos) && end == DigitsEnd(url, from) > from
    ensures end <= |url| && IntegerAt(url, pos, end)
  {
    hide DigitsEnd;
    assert url[pos..end][0] == url[pos] && url[pos..end][from - pos..] == url[from..end];
  }

  lemma SignedText(url: string, pos: nat, from: nat, e: nat)
    requires pos < e <= |url| && from == (if url[pos] == '+' || url[pos] == '-' then pos + 1 else pos) && IntegerText(url[pos..e])
    ensures from < e && AllDigits(url[from..e])
    ensures NumberIn(url[pos..e]) == if url[pos] == '-' then -DecimalOf(url[from..e]) else DecimalOf(url[from..e])
  {
    hide DecimalOf, IsDigit;
    var s := url[pos..e];
    assert s[0] == url[pos];
    if from == pos {
      assert s[0..] == s;
    } else {
      assert s[1..] == url[from..e];
    }
  }

  // ---------------------------------------------------------------- parameters

  /** A parameter of the kind takes the text `pos..e` of the url for the value `v`. */
  predicate Takes(kind: ParamKind, strtod: Strtod, url: string, pos: nat, e: nat, v: Value)
    requires pos < e <= |url|
  {
    match kind
    case Int => IntegerAt(url, pos, e) && v == IntValue(NumberIn(url[pos..e])) && -0x8000_0000_0000_0000 <= v.i <= 0x7FFF_FFFF_FFFF_FFFF
    case Uint => IntegerAt(url, pos, e) && url[pos] != '-' && v == UintValue(NumberIn(url[pos..e])) && 0 <= v.u <= 0xFFFF_FFFF_FFFF_FFFF
    case Double =>
      && (IsDigit(url[pos]) || url[pos] == '+' || url[pos] == '-' || url[pos] == '.')
      && strtod(url, pos).Some? && strtod(url, pos).value.1 == e && v == DoubleValue(strtod(url, pos).value.0)
    case Str => '/' !in url[pos..e] && (e == |url| || url[e] == '/') && v == StringValue(url[pos..e])
    case Path => e == |url| && v == StringValue(url[pos..e])
  }

  /** What a parameter takes: an integer up to the first character that is no digit, a number as `strtod` reads it, a
      segment up to the next slash, or the rest of the url. */
  lemma ScanIs(kind: ParamKind, strtod: Strtod, url: string, pos: nat, e: nat, v: Value)
    requires pos < |url|
    ensures (Scan(kind, strtod, url, pos).Some? && Scan(kind, strtod, url, pos).value == (v, e))
       <==> pos < e <= |url| && Takes(kind, strtod, url, pos, e, v)
  {
    hide ScanInteger, NumberIn, SegmentEnd;
    match kind
    case Int =>
      IntegerStarts(url, pos, e);
      ScannedNumber(url, pos, -0x8000_0000_0000_0000, 0x7FFF_FFFF_FFFF_FFFF, e);
    case Uint =>
      IntegerStarts(url, pos, e);
      ScannedNumber(url, pos, 0, 0xFFFF_FFFF_FFFF_FFFF, e);
    case Double =>
    case Str => if pos < e <= |url| { SegmentIs(url, pos, e); }
    case Path => assert url[pos..] == url[pos..|url|];
  }

  lemma ScannedNumber(url: string, pos: nat, low: int, high: int, e: nat)
    requires pos < |url|
    ensures var r := ScanInteger(url, pos, low, high);
            && (r.Some? ==> pos < r.value.1 <= |url| && IntegerAt(url, pos, r.value.1) && r.value.0 == NumberIn(url[pos..r.value.1]) && low <= r.value.0 <= high)
            && (pos < e <= |url| && IntegerAt(url, pos, e) && low <= NumberIn(url[pos..e]) <= high ==> r.Some? && r.value == (NumberIn(url[pos..e]), e))
  {
    hide ScanInteger, NumberIn, IntegerAt;
    var r := ScanInteger(url, pos, low, high);
    if r.Some? { ScanIntegerIs(url, pos, low, high, r.value.0, r.value.1); }
    if pos < e <= |url| && IntegerAt(url, pos, e) {
      IntegerIs(url, pos, e);
      ScanIntegerIs(url, pos, low, high, NumberIn(url[pos..e]), e);
    }
  }

  lemma IntegerIs(url: string, pos: nat, e: nat)
    requires pos <= e <= |url| && IntegerAt(url, pos, e)
    ensures IntegerText(url[pos..e])
  {
  }

  lemma IntegerStarts(url: string, pos: nat, e: nat)
    requires pos < |url|
    ensures pos < e <= |url| && IntegerAt(url, pos, e) ==> IsDigit(url[pos]) || url[pos] == '+' || url[pos] == '-'
  {
    if pos < e <= |url| && IntegerAt(url, pos, e) {
      assert url[pos..e][0] == url[pos];
      if url[pos] != '+' && url[pos] != '-' { assert url[pos..e][0..][0] == url[pos]; }
    }
  }

  lemma {:induction false} SegmentEndIs(url: string, pos: nat, e: nat)
    requires pos <= e <= |url| && (forall i :: pos <= i < e ==> url[i] != '/') && (e == |url| || url[e] == '/')
    ensures SegmentEnd(url, pos) == e
    decreases e - pos
  {
    if pos < e { SegmentEndIs(url, pos + 1, e); }
  }

  lemma SegmentIs(url: string, pos: nat, e: nat)
    requires pos < e <= |url|
    ensures SegmentEnd(url, pos) == e <==> '/' !in url[pos..e] && (e == |url| || url[e] == '/')
  {
    hide SegmentEnd;
    if '/' !in url[pos..e] && (e == |url| || url[e] == '/') {
      forall i | pos <= i < e ensures url[i] != '/' { assert url[i] == url[pos..e][i - pos]; }
      SegmentEndIs(url, pos, e);
    }
  }

  // ---------------------------------------------------------------- whole patterns

  /** Token `t` takes the text `from..to` of the url. */
  ghost predicate TakesPiece(t: Token, strtod: Strtod, url: string, from: nat, to: nat) {
    && from < to <= |url|
    && match t
       case Lit(c) => to == from + 1 && url[from] == c
       case Param(kind) => exists v :: Takes(kind, strtod, url, from, to, v)
  }

  /** The url is cut into one piece for each token. */
  ghost predicate CutAt(tokens: seq<Token>, strtod: Strtod, url: string, cuts: seq<nat>) {
    && |cuts| == |tokens| + 1 && cuts[|tokens|] == |url|
    && forall i :: 0 <= i < |tokens| ==> TakesPiece(tokens[i], strtod, url, cuts[i], cuts[i + 1])
  }

  /** The values that the parameters take, in their order. */
  ghost predicate Captures(tokens: seq<Token>, strtod: Strtod, url: string, cuts: seq<nat>, vs: seq<Value>)
    requires CutAt(tokens, strtod, url, cuts)
    decreases |tokens|
  {
    if tokens == [] then vs == []
    else if tokens[0].Lit? then Captures(tokens[1..], strtod, url, cuts[1..], vs)
    else vs != [] && Takes(tokens[0].kind, strtod, url, cuts[0], cuts[1], vs[0]) && Captures(tokens[1..], strtod, url, cuts[1..], vs[1..])
  }

  /** A pattern matches a url with certain values exactly if the url can be cut so that every token takes its piece. */
  lemma {:induction false} MatchIs(tokens: seq<Token>, strtod: Strtod, url: string, pos: nat, vs: seq<Value>)
    requires pos <= |url|
    ensures (Match(tokens, strtod, url, pos).Some? && Match(tokens, strtod, url, pos).value == vs)
       <==> exists cuts :: CutAt(tokens, strtod, url, cuts) && cuts[0] == pos && Captures(tokens, strtod, url, cuts, vs)
    decreases |tokens|
  {
    hide Scan, Takes, TakesPiece;
    if tokens == [] {
      assert CutAt([], strtod, url, [|url|]);
    } else {
      if Match(tokens, strtod, url, pos).Some? && Match(tokens, strtod, url, pos).value == vs { Forward(tokens, strtod, url, pos, vs); }
      forall cuts | CutAt(tokens, strtod, url, cuts) && cuts[0] == pos && Captures(tokens, strtod, url, cuts, vs)
        ensures Match(tokens, strtod, url, pos).Some? && Match(tokens, strtod, url, pos).value == vs
      {
        Backward(tokens, strtod, url, pos, vs, cuts);
      }
    }
  }

  lemma {:induction false} Forward(tokens: seq<Token>, strtod: Strtod, url: string, pos: nat, vs: seq<Value>)
    requires pos <= |url| && tokens != [] && Match(tokens, strtod, url, pos).Some? && Match(tokens, strtod, url, pos).value == vs
    ensures exists cuts :: CutAt(tokens, strtod, url, cuts) && cuts[0] == pos && Captures(tokens, strtod, url, cuts, vs)
    decreases |tokens|, 0
  {
    hide Scan, Takes;
    var rest := tokens[1..];
    if tokens[0].Lit? {
      MatchIs(rest, strtod, url, pos + 1, vs);
      var more :| CutAt(rest, strtod, url, more) && more[0] == pos + 1 && Captures(rest, strtod, url, more, vs);
      MoreCuts(tokens, strtod, url, pos, more);
    } else {
      var v := Scan(tokens[0].kind, strtod, url, pos).value;
      ScanIs(tokens[0].kind, strtod, url, pos, v.1, v.0);
      MatchIs(rest, strtod, url, v.1, vs[1..]);
      var more :| CutAt(rest, strtod, url, more) && more[0] == v.1 && Captures(rest, strtod, url, more, vs[1..]);
      MoreCuts(tokens, strtod, url, pos, more);
    }
  }

  lemma MoreCuts(tokens: seq<Token>, strtod: Strtod, url: string, pos: nat, more: seq<nat>)
    requires tokens != [] && CutAt(tokens[1..], strtod, url, more) && TakesPiece(tokens[0], strtod, url, pos, more[0])
    ensures CutAt(tokens, strtod, url, [pos] + more) && ([pos] + more)[0] == pos && ([pos] + more)[1..] == more
  {
    hide TakesPiece;
    var cuts := [pos] + more;
    forall i | 0 <= i < |tokens| ensures TakesPiece(tokens[i], strtod, url, cuts[i], cuts[i + 1]) {
      if i > 0 { assert tokens[1..][i - 1] == tokens[i]; }
    }
  }

  lemma FewerCuts(tokens: seq<Token>, strtod: Strtod, url: string, cuts: seq<nat>)
    requires tokens != [] && CutAt(tokens, strtod, url, cuts)
    ensures |cuts| == |tokens| + 1 && CutAt(tokens[1..], strtod, url, cuts[1..]) && TakesPiece(tokens[0], strtod, url, cuts[0], cuts[1])
  {
    hide TakesPiece;
    forall i | 0 <= i < |tokens| - 1 ensures TakesPiece(tokens[1..][i], strtod, url, cuts[1..][i], cuts[1..][i + 1]) {
      assert tokens[1..][i] == tokens[i + 1];
    }
  }

  lemma {:induction false} Backward(tokens: seq<Token>, strtod: Strtod, url: string, pos: nat, vs: seq<Value>, cuts: seq<nat>)
    requires pos <= |url| && tokens != [] && CutAt(tokens, strtod, url, cuts) && cuts[0] == pos && Captures(tokens, strtod, url, cuts, vs)
    ensures Match(tokens, strtod, url, pos).Some? && Match(tokens, strtod, url, pos).value == vs
    decreases |tokens|, 0
  {
    hide Scan, Takes, CutAt;
    FewerCuts(tokens, strtod, url, cuts);
    var rest := tokens[1..];
    if tokens[0].Lit? {
      MatchIs(rest, strtod, url, pos + 1, vs);
    } else {
      ScanIs(tokens[0].kind, strtod, url, pos, cuts[1], vs[0]);
      MatchIs(rest, strtod, url, cuts[1], vs[1..]);
      assert [vs[0]] + vs[1..] == vs;
    }
  }

  // ---------------------------------------------------------------- patterns

  /** The tags of each kind of parameter. */
  predicate Names(kind: ParamKind, tag: string) {
    match kind
    case Int => tag == "<int>"
    case Uint => tag == "<uint>"
    case Double => tag == "<float>" || tag == "<double>"
    case Str => tag == "<str>" || tag == "<string>"
    case Path => tag == "<path>"
  }

  /** The way a token may be written in a pattern. */
  predicate WrittenAs(t: Token, s: string) {
    match t
    case Lit(c) => c != '<' && s == [c]
    case Param(kind) => Names(kind, s)
  }

  lemma TagChars(url: string, i: nat, tag: string)
    ensures HasTag(url, i, tag) <==> i + |tag| <= |url| && forall k :: 0 <= k < |tag| ==> url[i + k] == tag[k]
  {
    if i + |tag| <= |url| && (forall k :: 0 <= k < |tag| ==> url[i + k] == tag[k]) { assert url[i..i + |tag|] == tag; }
    if HasTag(url, i, tag) {
      forall k | 0 <= k < |tag| ensures url[i + k] == tag[k] { assert url[i..i + |tag|][k] == url[i + k]; }
    }
  }

  /** The place of a character tells the tags apart. */
  lemma Differ(url: string, i: nat, tag: string, other: string, k: nat)
    requires HasTag(url, i, tag) && k < |tag| && k < |other| && tag[k] != other[k]
    ensures !HasTag(url, i, other)
  {
    TagChars(url, i, tag);
    TagChars(url, i, other);
  }

  /** A known tag is recognised for its kind and its whole length. */
  lemma TagIs(url: string, i: nat, kind: ParamKind, tag: string)
    requires HasTag(url, i, tag) && Names(kind, tag)
    ensures TagAt(url, i).Some? && TagAt(url, i).value == (kind, |tag|)
  {
    hide HasTag;
    var names := ["<int>", "<uint>", "<float>", "<double>", "<str>", "<string>", "<path>"];
    assert tag in names;
    forall other <- names | other != tag ensures !HasTag(url, i, other) {
      Apart(tag, other);
      if tag[1] != other[1] { Differ(url, i, tag, other, 1); } else { Differ(url, i, tag, other, 4); }
    }
  }

  lemma Apart(tag: string, other: string)
    requires tag != other
    requires tag in {"<int>", "<uint>", "<float>", "<double>", "<str>", "<string>", "<path>"}
    requires other in {"<int>", "<uint>", "<float>", "<double>", "<str>", "<string>", "<path>"}
    ensures |tag| > 4 && |other| > 4 && (tag[1] != other[1] || tag[4] != other[4])
  {
  }

  /** Behind a `<` that begins no known tag nothing is recognised. */
  lemma NoTag(url: string, i: nat)
    requires forall kind, tag :: Names(kind, tag) ==> !HasTag(url, i, tag)
    ensures TagAt(url, i).None?
  {
    hide HasTag;
    assert Names(Int, "<int>") && Names(Uint, "<uint>") && Names(Double, "<float>") && Names(Double, "<double>");
    assert Names(Str, "<str>") && Names(Str, "<string>") && Names(Path, "<path>");
  }

  function PatternText(ps: seq<(Token, string)>): string {
    if ps == [] then "" else ps[0].1 + PatternText(ps[1..])
  }

  function TokensOf(ps: seq<(Token, string)>): (r: seq<Token>)
    ensures |r| == |ps| && forall i :: 0 <= i < |r| ==> r[i] == ps[i].0
  {
    seq(|ps|, i requires 0 <= i < |ps| => ps[i].0)
  }

  /** A pattern is read token by token, and what is behind a well-written front is read as it stands there. */
  lemma {:induction false} PatternReads(url: string, i: nat, ps: seq<(Token, string)>)
    requires forall p <- ps :: WrittenAs(p.0, p.1)
    requires At(url, i, PatternText(ps))
    ensures var j := i + |PatternText(ps)|;
            && j <= |url| && (Tokens(url, i).Some? <==> Tokens(url, j).Some?)
            && (Tokens(url, j).Some? ==> Tokens(url, i).value == TokensOf(ps) + Tokens(url, j).value)
    decreases |ps|
  {
    hide TagAt, WrittenAs, At, Tokens, TokensOf, PatternText;
    PatternParts(ps);
    if ps == [] {
      AtInside(url, i, PatternText(ps));
      if Tokens(url, i).Some? { assert TokensOf(ps) + Tokens(url, i).value == Tokens(url, i).value; }
    } else {
      var p := ps[0];
      AtParts(url, i, p.1, PatternText(ps[1..]));
      PatternReads(url, i + |p.1|, ps[1..]);
      AtInside(url, i, p.1);
      TokenReads(url, i, p.0, p.1);
      var j := i + |PatternText(ps)|;
      if Tokens(url, j).Some? {
        assert [p.0] + (TokensOf(ps[1..]) + Tokens(url, j).value) == TokensOf(ps) + Tokens(url, j).value;
      }
    }
  }

  lemma PatternParts(ps: seq<(Token, string)>)
    ensures ps == [] ==> PatternText(ps) == "" && TokensOf(ps) == []
    ensures ps != [] ==> PatternText(ps) == ps[0].1 + PatternText(ps[1..]) && TokensOf(ps) == [ps[0].0] + TokensOf(ps[1..])
  {
  }

  lemma AtInside(url: string, i: nat, piece: string)
    requires At(url, i, piece)
    ensures i + |piece| <= |url|
  {
  }

  lemma TokenReads(url: string, i: nat, t: Token, s: string)
    requires WrittenAs(t, s) && At(url, i, s)
    ensures i + |s| <= |url| && i < |url| && (Tokens(url, i).Some? <==> Tokens(url, i + |s|).Some?)
    ensures Tokens(url, i).Some? ==> Tokens(url, i).value == [t] + Tokens(url, i + |s|).value
  {
    hide TagAt;
    assert url[i] == url[i..i + |s|][0];
    if t.Param? {
      assert s[0] == '<';
      TagIs(url, i, t.kind, s);
    }
  }

  /** A whole pattern, and one with an unknown tag behind a well-written front. */
  lemma PatternIs(url: string, ps: seq<(Token, string)>)
    requires (forall p <- ps :: WrittenAs(p.0, p.1)) && At(url, 0, PatternText(ps))
    ensures |PatternText(ps)| == |url| ==> Tokens(url, 0).Some? && Tokens(url, 0).value == TokensOf(ps)
    ensures var j := |PatternText(ps)|;
            j < |url| && url[j] == '<' && (forall kind, tag :: Names(kind, tag) ==> !HasTag(url, j, tag)) ==> Tokens(url, 0).None?
  {
    hide TagAt, WrittenAs, HasTag, Names;
    PatternReads(url, 0, ps);
    var j := |PatternText(ps)|;
    if j == |url| { assert TokensOf(ps) + [] == TokensOf(ps); }
    if j < |url| && url[j] == '<' && (forall kind, tag :: Names(kind, tag) ==> !HasTag(url, j, tag)) { NoTag(url, j); }
  }

  // ---------------------------------------------------------------- captured values

  function Ints(vs: seq<Value>): seq<int> {
    if vs == [] then [] else Ints(vs[..|vs| - 1]) + if vs[|vs| - 1].IntValue? then [vs[|vs| - 1].i] else []
  }

  function Uints(vs: seq<Value>): seq<int> {
    if vs == [] then [] else Uints(vs[..|vs| - 1]) + if vs[|vs| - 1].UintValue? then [vs[|vs| - 1].u] else []
  }

  function Doubles(vs: seq<Value>): seq<real> {
    if vs == [] then [] else Doubles(vs[..|vs| - 1]) + if vs[|vs| - 1].DoubleValue? then [vs[|vs| - 1].d] else []
  }

  function Strings(vs: seq<Value>): seq<string> {
    if vs == [] then [] else Strings(vs[..|vs| - 1]) + if vs[|vs| - 1].StringValue? then [vs[|vs| - 1].s] else []
  }

  lemma {:induction false} PushLast(p: Params, vs: seq<Value>, v: Value)
    ensures PushAll(p, vs + [v]) == Push(PushAll(p, vs), v)
    decreases |vs|
  {
    hide Push;
    if vs == [] {
      assert [v][1..] == [];
    } else {
      PushLast(Push(p, vs[0]), vs[1..], v);
      assert (vs + [v])[1..] == vs[1..] + [v];
    }
  }

  /** The handler gets the captured values of each type in the order in which the pattern names them. */
  lemma {:induction false} HandedOver(vs: seq<Value>)
    ensures PushAll(NO_PARAMS, vs) == Params(Ints(vs), Uints(vs), Doubles(vs), Strings(vs))
    decreases |vs|
  {
    if vs != [] {
      var n := |vs| - 1;
      HandedOver(vs[..n]);
      PushLast(NO_PARAMS, vs[..n], vs[n]);
      assert vs[..n] + [vs[n]] == vs;
    }
  }
}
