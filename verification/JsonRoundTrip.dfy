/** Reading back what `dump` writes. */
module JsonRoundTrip {
  import opened Wrappers
  import opened Sequences
  import opened JsonText
  import opened JsonGrammar

  // ---------------------------------------------------------------- texts inside a text

  lemma AtEnds(text: string, i: nat, s: string)
    requires At(text, i, s)
    ensures i + |s| <= |text|
  {
  }

  lemma AtFirst(text: string, i: nat, s: string)
    requires At(text, i, s) && s != ""
    ensures i < |text| && text[i] == s[0] && At(text, i + 1, s[1..])
  {
    assert s == [s[0]] + s[1..];
    AtParts(text, i, [s[0]], s[1..]);
    assert text[i..i + 1][0] == text[i];
  }

  // ---------------------------------------------------------------- strings

  lemma {:induction false} EscapeReadsBack(s: string)
    ensures Escaped(Escape(s)) && Unescaped(Escape(s)) == s
  {
    if s != "" {
      hide EscapeChar, Unescaped, Escaped;
      EscapeReadsBack(s[1..]);
      OneReadsBack(s[0], Escape(s[1..]));
      assert s == [s[0]] + s[1..];
    }
  }

  lemma OneReadsBack(c: char, tail: string)
    requires Escaped(tail)
    ensures var s := EscapeChar(c) + tail; Escaped(s) && Unescaped(s) == [c] + Unescaped(tail)
  {
    var head := EscapeChar(c);
    var s := head + tail;
    if |head| == 6 {
      HexReadsBack(c as int);
      hide CodeOf, Utf8, EscapeChar, ToHex;
      assert s[6..] == tail;
      assert s[0] == head[0] && s[1] == head[1] && s[2] == head[2] && s[3] == head[3] && s[4] == head[4] && s[5] == head[5];
      assert Escaped(s);
      LowCode(c);
    } else if |head| == 2 {
      assert s[2..] == tail;
    } else {
      assert s[1..] == tail;
    }
  }

  lemma LowCode(c: char)
    requires c as int < 0x20
    ensures Utf8(c as int) == [c]
  {
  }

  lemma HexReadsBack(c: nat)
    requires c < 0x20
    ensures var hi, lo := ToHex(c / 16), ToHex(c % 16);
            IsHex(hi) && IsHex(lo) && CodeOf('0', '0', hi, lo) == c
  {
  }

  lemma EscapeSkipped(text: string, i: nat, c: char)
    requires At(text, i, EscapeChar(c))
    ensures StringEnd(text, i) == StringEnd(text, i + |EscapeChar(c)|)
  {
    var here := text[i..i + |EscapeChar(c)|];
    assert here[0] == text[i];
    if |here| == 6 {
      assert here[1] == text[i + 1] && here[2] == text[i + 2] && here[3] == text[i + 3];
      assert here[4] == text[i + 4] && here[5] == text[i + 5];
      assert FourHex(text, i + 2);
    } else if |here| == 2 {
      assert here[1] == text[i + 1];
    }
  }

  lemma QuoteEnds(text: string, i: nat)
    requires At(text, i, Escape("") + "\"")
    ensures StringEnd(text, i) == Some(i)
  {
    AtFirst(text, i, "\"");
  }

  /** The quote that ends a written string is the first that its reader takes for one. */
  lemma {:induction false} EscapeEnds(text: string, i: nat, s: string)
    requires At(text, i, Escape(s) + "\"")
    ensures StringEnd(text, i) == Some(i + |Escape(s)|)
    decreases |s|
  {
    hide EscapeChar, At, StringEnd;
    if s == "" {
      QuoteEnds(text, i);
    } else {
      var head, tail := EscapeChar(s[0]), Escape(s[1..]) + "\"";
      assert Escape(s) + "\"" == head + tail by { Regrouped(head, Escape(s[1..]), "\""); }
      assert |Escape(s)| == |head| + |Escape(s[1..])|;
      hide Escape;
      AtParts(text, i, head, tail);
      EscapeEnds(text, i + |head|, s[1..]);
      EscapeSkipped(text, i, s[0]);
    }
  }

  lemma StringIs(text: string, i: nat, s: string)
    requires At(text, i, s) && Escaped(s) && StringEnd(text, i) == Some(i + |s|)
    ensures StringAt(text, i) == Unescaped(s)
  {
  }

  lemma QuotedText(text: string, i: nat, s: string)
    requires At(text, i, Quoted(s))
    ensures i < |text| && text[i] == '"' && |Quoted(s)| == |Escape(s)| + 2
    ensures At(text, i + 1, Escape(s) + "\"") && At(text, i + 1, Escape(s))
  {
    hide Escape;
    var rest := Escape(s) + "\"";
    assert Quoted(s) == "\"" + rest;
    AtParts(text, i, "\"", rest);
    AtFirst(text, i, "\"");
    AtParts(text, i + 1, Escape(s), "\"");
  }

  lemma StringParses(text: string, i: nat, s: string)
    requires At(text, i, Quoted(s))
    ensures i < |text| && text[i] == '"'
    ensures StringEnd(text, i + 1) == Some(i + |Quoted(s)| - 1) && StringAt(text, i + 1) == s
  {
    hide *;
    QuotedText(text, i, s);
    EscapeEnds(text, i + 1, s);
    EscapeReadsBack(s);
    StringIs(text, i + 1, Escape(s));
  }

  // ---------------------------------------------------------------- integers

  lemma {:induction false} DigitsAreDigits(n: nat)
    ensures forall k :: 0 <= k < |Digits(n)| ==> '0' <= Digits(n)[k] <= '9'
    ensures |Digits(n)| > 0 && (n < 10 ==> |Digits(n)| == 1) && (n > 0 ==> Digits(n)[0] != '0')
  {
    if n >= 10 { DigitsAreDigits(n / 10); }
  }

  lemma NumberParses(text: string, i: nat, n: int, depth: nat)
    requires At(text, i, Decimal(n)) && !NumberChar(CharAt(text, i + |Decimal(n)|))
    ensures ParseValue(text, i, depth) == Some(Parsed(Number(Decimal(n)), i + |Decimal(n)|))
  {
    if n < 0 {
      AtParts(text, i, "-", Digits(-n));
      AtFirst(text, i, "-");
      IntegerReads(text, i + 1, -n, AfterMinus);
    } else {
      IntegerReads(text, i, n, Minus);
    }
    DigitsAreDigits(if n < 0 then -n else n);
    AtFirst(text, i, Decimal(n));
  }

  predicate AllDigits(s: string) {
    forall k :: 0 <= k < |s| ==> '0' <= s[k] <= '9'
  }

  /** The fraction and the exponent of a number, as section 6 of RFC 8259 has them; either may be missing. */
  predicate Fraction(s: string) {
    s == "" || (|s| >= 2 && s[0] == '.' && AllDigits(s[1..]))
  }

  predicate Exponent(s: string) {
    s == "" || (|s| >= 2 && (s[0] == 'e' || s[0] == 'E') && (AllDigits(s[1..]) || (|s| >= 3 && (s[1] == '+' || s[1] == '-') && AllDigits(s[2..]))))
  }

  lemma {:induction false} DigitsSkipped(text: string, i: nat, s: string, state: NumberState)
    requires At(text, i, s) && AllDigits(s) && (state.IntegerDigits? || state.DigitsAfterPoints? || state.DigitsAfterE?)
    ensures NumberEnd(text, i, state) == NumberEnd(text, i + |s|, state)
    decreases |s|
  {
    if s != "" {
      AtFirst(text, i, s);
      DigitsSkipped(text, i + 1, s[1..], state);
    }
  }

  lemma ExponentReads(text: string, i: nat, s: string, state: NumberState)
    requires At(text, i, s) && Exponent(s) && !NumberChar(CharAt(text, i + |s|)) && Accepting(state) && !state.DigitsAfterE?
    ensures NumberEnd(text, i, state) == if s == "" || !state.ZeroFirst? then Some(i + |s|) else None
  {
    if s != "" && !state.ZeroFirst? {
      AtFirst(text, i, s);
      AtFirst(text, i + 1, s[1..]);
      assert s[1..][1..] == s[2..];
      hide At;
      DigitsSkipped(text, i + 2, s[2..], DigitsAfterE);
      assert NumberEnd(text, i + 1, E) == NumberEnd(text, i + 2, DigitsAfterE);
    } else if s != "" {
      AtFirst(text, i, s);
    }
  }

  lemma FractionReads(text: string, i: nat, s: string, state: NumberState)
    requires At(text, i, s) && Fraction(s) && (state.ZeroFirst? || state.IntegerDigits?)
    ensures NumberEnd(text, i, state) == NumberEnd(text, i + |s|, if s == "" then state else DigitsAfterPoints)
  {
    if s != "" {
      AtFirst(text, i, s);
      DigitsSkipped(text, i + 1, s[1..], DigitsAfterPoints);
    }
  }

  lemma MinusReads(text: string, i: nat)
    requires At(text, i, "-")
    ensures NumberEnd(text, i, Minus) == NumberEnd(text, i + 1, AfterMinus)
  {
    AtFirst(text, i, "-");
  }

  lemma IntegerReads(text: string, i: nat, n: nat, state: NumberState)
    requires At(text, i, Digits(n)) && (state.Minus? || state.AfterMinus?)
    ensures NumberEnd(text, i, state) == NumberEnd(text, i + |Digits(n)|, if n == 0 then ZeroFirst else IntegerDigits)
  {
    var ds := Digits(n);
    DigitsAreDigits(n);
    AtFirst(text, i, ds);
    if n > 0 { DigitsSkipped(text, i + 1, ds[1..], IntegerDigits); }
  }

  /** Of the numbers of RFC 8259 the state tables read all but a zero with an exponent and no fraction. */
  lemma StandardNumberReads(text: string, i: nat, negative: bool, n: nat, fraction: string, exponent: string)
    requires Fraction(fraction) && Exponent(exponent)
    requires At(text, i, (if negative then "-" else "") + (Digits(n) + (fraction + exponent)))
    requires !NumberChar(CharAt(text, i + (if negative then 1 else 0) + |Digits(n)| + |fraction| + |exponent|))
    ensures NumberEnd(text, i, Minus)
         == if n == 0 && fraction == "" && exponent != "" then None
            else Some(i + (if negative then 1 else 0) + |Digits(n)| + |fraction| + |exponent|)
  {
    hide At, Fraction, Exponent, Digits, NumberEnd;
    var sign := if negative then "-" else "";
    AtParts(text, i, sign, Digits(n) + (fraction + exponent));
    AtParts(text, i + |sign|, Digits(n), fraction + exponent);
    AtParts(text, i + |sign| + |Digits(n)|, fraction, exponent);
    var state := if n == 0 then ZeroFirst else IntegerDigits;
    if negative { MinusReads(text, i); }
    IntegerReads(text, i + |sign|, n, if negative then AfterMinus else Minus);
    FractionReads(text, i + |sign| + |Digits(n)|, fraction, state);
    ExponentReads(text, i + |sign| + |Digits(n)| + |fraction|, exponent, if fraction == "" then state else DigitsAfterPoints);
  }

  /** The integer that a decimal text stands for, as std::to_string's inverse reads it. */
  function IntegerOf(text: string): int {
    if text != "" && text[0] == '-' then -DigitsValue(text[1..]) else DigitsValue(text)
  }

  function DigitsValue(s: string): int {
    if s == "" then 0 else DigitsValue(s[..|s| - 1]) * 10 + (s[|s| - 1] as int - '0' as int)
  }

  lemma {:induction false} DigitsReadBack(n: nat)
    ensures DigitsValue(Digits(n)) == n
  {
    if n >= 10 {
      DigitsReadBack(n / 10);
      assert Digits(n)[..|Digits(n)| - 1] == Digits(n / 10);
    } else {
      assert Digits(n)[..0] == "";
    }
  }

  /** An integer survives as a number's text. */
  lemma IntegerReadsBack(n: int)
    ensures IntegerOf(Decimal(n)) == n
  {
    DigitsReadBack(if n < 0 then -n else n);
    DigitsAreDigits(if n < 0 then -n else n);
    if n < 0 { assert Decimal(n)[1..] == Digits(-n); }
  }

  // ---------------------------------------------------------------- white space

  /** What `dump` puts between values is white space. */
  predicate Whitespace(style: Style) {
    style.indent > 0 ==> Blank(style.separator)
  }

  lemma {:induction false} RepeatSkipped(text: string, i: nat, c: char, n: int)
    requires At(text, i, Repeat(c, n)) && (n > 0 ==> Blank(c))
    ensures SkipBlanks(text, i) == SkipBlanks(text, i + |Repeat(c, n)|)
    decreases n
  {
    if n > 0 {
      AtFirst(text, i, Repeat(c, n));
      RepeatSkipped(text, i + 1, c, n - 1);
    }
  }

  lemma IndentationSkipped(text: string, i: nat, style: Style, level: nat)
    requires At(text, i, Indentation(style, level)) && Whitespace(style)
    ensures SkipBlanks(text, i) == SkipBlanks(text, i + |Indentation(style, level)|)
  {
    if style.indent >= 0 {
      var n := level * style.indent;
      assert n > 0 ==> style.indent > 0;
      AtParts(text, i, "\n", Repeat(style.separator, n));
      AtFirst(text, i, "\n");
      RepeatSkipped(text, i + 1, style.separator, n);
    }
  }

  /** White space and then the character `c`. */
  lemma Punctuation(text: string, i: nat, style: Style, level: nat, c: char)
    requires At(text, i, Indentation(style, level) + [c]) && Whitespace(style) && !Blank(c)
    ensures SkipBlanks(text, i) == i + |Indentation(style, level)| < |text|
    ensures text[SkipBlanks(text, i)] == c
    ensures NumberChar(CharAt(text, i)) ==> NumberChar(c)
  {
    AtParts(text, i, Indentation(style, level), [c]);
    AtFirst(text, i + |Indentation(style, level)|, [c]);
    IndentationSkipped(text, i, style, level);
    AtFirst(text, i, Indentation(style, level) + [c]);
  }

  // ---------------------------------------------------------------- values

  /** How deep a value may be nested where the parser has come to `depth`: it counts two for each level. */
  predicate Fits(nesting: nat, depth: nat) {
    nesting == 0 || depth + 2 * nesting - 1 <= MAX_DEPTH
  }

  lemma FitsBoth(a: nat, b: nat, depth: nat)
    ensures Fits(Max(a, b), depth) <==> Fits(a, depth) && Fits(b, depth)
    ensures Fits(0, depth)
  {
  }

  /** The text of a value starts with a character that is no white space and no punctuation. */
  lemma DumpStarts(v: Value, style: Style, level: nat)
    requires Integral(v)
    ensures var d := Dump(v, style, level); d != "" && !Blank(d[0]) && d[0] != ']' && d[0] != '}' && d[0] != ','
  {
    if v.Number? {
      var n :| Storable(n) && v.text == Decimal(n);
      DigitsAreDigits(if n < 0 then -n else n);
    }
  }

  /** What the parser gives for a text that holds a written value: that value, or an error if it is nested too deep. */
  function Expected<T>(v: T, fits: bool, end: nat): Option<Parsed<T>> {
    if fits then Some(Parsed(v, end)) else None
  }

  lemma WordParses(v: Value, text: string, i: nat, depth: nat, style: Style, level: nat)
    requires (v.Null? || v.True? || v.False?) && At(text, i, Dump(v, style, level)) && i <= |text|
    ensures ParseValue(text, i, depth) == Some(Parsed(v, i + |Dump(v, style, level)|))
  {
    AtFirst(text, i, Dump(v, style, level));
    hide ParseList, ParseObject, NumberEnd, StringEnd, StringAt;
  }

  /** Which way the parser goes. */
  lemma NestedParses(text: string, i: nat, depth: nat)
    requires i < |text|
    ensures text[i] == '[' ==> ParseValue(text, i, depth) == ParseList(text, i, depth + 1)
    ensures text[i] == '{' ==> ParseValue(text, i, depth) == ParseObject(text, i, depth + 1)
    ensures text[i] == '"' && StringEnd(text, i + 1).Some? ==>
              ParseValue(text, i, depth) == Some(Parsed(String(StringAt(text, i + 1)), StringEnd(text, i + 1).value + 1))
  {
    hide ParseList, ParseObject, NumberEnd, StringEnd, StringAt;
  }

  lemma {:induction false} DumpParses(v: Value, text: string, i: nat, depth: nat, style: Style, level: nat)
    requires Integral(v) && Whitespace(style) && i <= |text| && At(text, i, Dump(v, style, level))
    requires !NumberChar(CharAt(text, i + |Dump(v, style, level)|))
    ensures ParseValue(text, i, depth) == Expected(v, Fits(Nesting(v), depth), i + |Dump(v, style, level)|)
    decreases v, 1
  {
    hide ParseList, ParseObject, ParseValue, StringEnd, StringAt, DumpItems, DumpEntries, Quoted, Indentation, At;
    hide NestingOfItems, NestingOfEntries;
    if v.Number? {
      var n :| Storable(n) && v.text == Decimal(n);
      assert Dump(v, style, level) == Decimal(n);
      hide Dump, Decimal;
      NumberParses(text, i, n, depth);
    } else if v.String? {
      StringParses(text, i, v.s);
      NestedParses(text, i, depth);
    } else if v.List? {
      ListParses(v.items, text, i, depth + 1, style, level);
      NestedParses(text, i, depth);
    } else if v.Object? {
      ObjectParses(v.entries, text, i, depth + 1, style, level);
      NestedParses(text, i, depth);
    } else {
      WordParses(v, text, i, depth, style, level);
    }
  }

  /** A character, white space, and a text that starts with none. */
  lemma Opening(text: string, i: nat, c: char, style: Style, level: nat, rest: string)
    requires At(text, i, [c] + (Indentation(style, level) + rest)) && Whitespace(style) && !Blank(c)
    requires rest != "" && !Blank(rest[0])
    ensures i < |text| && text[i] == c && SkipBlanks(text, i) == i
    ensures var j := i + 1 + |Indentation(style, level)|;
            j < |text| && SkipBlanks(text, i + 1) == j && text[j] == rest[0] && At(text, j, rest)
  {
    var space := Indentation(style, level);
    AtParts(text, i, [c], space + rest);
    AtFirst(text, i, [c]);
    AtParts(text, i + 1, space, rest);
    AtFirst(text, i + 1 + |space|, rest);
    IndentationSkipped(text, i + 1, style, level);
  }

  /** An opening bracket, and a closing one with only white space between. */
  lemma Empty(text: string, i: nat, c: char, style: Style, level: nat, d: char)
    requires At(text, i, [c] + (Indentation(style, level + 1) + (Indentation(style, level) + [d])))
    requires Whitespace(style) && !Blank(d)
    ensures i < |text| && text[i] == c
    ensures var j := i + 1 + |Indentation(style, level + 1)| + |Indentation(style, level)|;
            SkipBlanks(text, i + 1) == j < |text| && text[j] == d
  {
    hide *;
    var space, close := Indentation(style, level + 1), Indentation(style, level) + [d];
    AtParts(text, i, [c], space + close);
    AtFirst(text, i, [c]);
    AtParts(text, i + 1, space, close);
    IndentationSkipped(text, i + 1, style, level + 1);
    Punctuation(text, i + 1 + |space|, style, level, d);
  }

  lemma NestingOfNested(items: seq<Value>, entries: seq<Entry>)
    ensures Nesting(List(items)) == 1 + NestingOfItems(items) && NestingOfItems([]) == 0
    ensures Nesting(Object(entries)) == 1 + NestingOfEntries(entries) && NestingOfEntries([]) == 0
  {
  }

  // ---------------------------------------------------------------- lists

  lemma ListText(items: seq<Value>, text: string, i: nat, style: Style, level: nat)
    requires Integral(List(items)) && Whitespace(style) && At(text, i, Dump(List(items), style, level))
    ensures var j, end := SkipBlanks(text, i + 1), i + |Dump(List(items), style, level)|;
            && i < |text| && text[i] == '[' && j < |text|
            && (if items == [] then text[j] == ']' && j + 1 == end
                else text[j] != ']' && At(text, j, DumpItems(items, style, level)) && j + |DumpItems(items, style, level)| == end)
  {
    hide MoreItems;
    var body := DumpItems(items, style, level);
    assert Dump(List(items), style, level) == "[" + (Indentation(style, level + 1) + body);
    if items == [] {
      Empty(text, i, '[', style, level, ']');
    } else {
      DumpStarts(items[0], style, level + 1);
      assert body[0] == Dump(items[0], style, level + 1)[0];
      hide *;
      Opening(text, i, '[', style, level + 1, body);
    }
  }

  lemma {:induction false} ListParses(items: seq<Value>, text: string, i: nat, depth: nat, style: Style, level: nat)
    requires Integral(List(items)) && Whitespace(style) && At(text, i, Dump(List(items), style, level)) && depth > 0
    ensures i < |text| && text[i] == '['
    ensures ParseList(text, i, depth)
         == Expected(List(items), Fits(Nesting(List(items)), depth - 1), i + |Dump(List(items), style, level)|)
    decreases items, 3
  {
    hide ParseItems, Dump, DumpItems, At, SkipBlanks, Integral, Indentation, Nesting;
    ListText(items, text, i, style, level);
    NestingOfNested(items, []);
    if items != [] { ItemsParse(items, text, SkipBlanks(text, i + 1), depth, style, level); }
  }

  /** What stands behind an item of a list. */
  lemma MoreItemsText(items: seq<Value>, text: string, j: nat, style: Style, level: nat)
    requires Integral(List(items)) && Whitespace(style) && At(text, j, MoreItems(items, style, level))
    ensures !NumberChar(CharAt(text, j)) && SkipBlanks(text, j) < |text|
    ensures if items == [] then
              CharAt(text, SkipBlanks(text, j)) == ']' && SkipBlanks(text, j) + 1 == j + |MoreItems(items, style, level)|
            else
              var k := SkipBlanks(text, j + 1);
              && SkipBlanks(text, j) == j && CharAt(text, j) == ',' && j < |text| && k <= |text|
              && At(text, k, DumpItems(items, style, level))
              && k + |DumpItems(items, style, level)| == j + |MoreItems(items, style, level)|
  {
    if items == [] {
      Punctuation(text, j, style, level, ']');
    } else {
      DumpStarts(items[0], style, level + 1);
      var rest := DumpItems(items, style, level);
      assert rest[0] == Dump(items[0], style, level + 1)[0];
      assert MoreItems(items, style, level) == "," + (Indentation(style, level + 1) + rest);
      hide Dump, DumpItems, MoreItems, At, SkipBlanks, Integral, Indentation;
      Opening(text, j, ',', style, level + 1, rest);
    }
  }

  lemma ItemsStep(one: Value, rest: seq<Value>, text: string, i: nat, depth: nat, j: nat, fits: bool, restFits: bool, end: nat)
    requires i <= |text| && j <= |text| && ParseValue(text, i, depth + 1) == Expected(one, fits, j)
    requires rest == [] ==> restFits && CharAt(text, SkipBlanks(text, j)) == ']' && end == SkipBlanks(text, j) + 1
    requires rest != [] ==>
               && CharAt(text, SkipBlanks(text, j)) == ',' && SkipBlanks(text, j) == j && j < |text|
               && ParseItems(text, SkipBlanks(text, j + 1), depth) == Expected(rest, restFits, end)
    ensures ParseItems(text, i, depth) == Expected([one] + rest, fits && restFits, end)
  {
    hide ParseValue, SkipBlanks, NumberChar;
    if rest == [] { assert [one] + rest == [one]; }
  }

  lemma ItemsFacts(items: seq<Value>)
    requires Integral(List(items)) && items != []
    ensures var one, rest := items[0], items[1..];
            && Integral(one) && Integral(List(rest)) && (rest == [] ==> NestingOfItems(rest) == 0)
            && NestingOfItems(items) == Max(Nesting(one), NestingOfItems(rest))
  {
    hide Nesting;
  }

  lemma MoreItemsNonempty(items: seq<Value>, style: Style, level: nat)
    ensures MoreItems(items, style, level) != ""
  {
    hide Dump, Indentation;
  }

  lemma ItemsSplit(items: seq<Value>, text: string, i: nat, style: Style, level: nat)
    requires Integral(List(items)) && items != [] && At(text, i, DumpItems(items, style, level))
    ensures var one, rest := items[0], items[1..];
            && items == [one] + rest && Integral(one) && Integral(List(rest))
            && At(text, i, Dump(one, style, level + 1)) && i + |Dump(one, style, level + 1)| <= |text|
            && At(text, i + |Dump(one, style, level + 1)|, MoreItems(rest, style, level))
            && |Dump(one, style, level + 1)| + |MoreItems(rest, style, level)| == |DumpItems(items, style, level)|
            && |DumpItems(items, style, level)| > 0
            && NestingOfItems(items) == Max(Nesting(one), NestingOfItems(rest))
            && |rest| < |items| && (rest == [] ==> NestingOfItems(rest) == 0)
  {
    hide Integral, Nesting, NestingOfItems, Max, Dump, MoreItems, Indentation;
    var one, rest := items[0], items[1..];
    ItemsFacts(items);
    AtParts(text, i, Dump(one, style, level + 1), MoreItems(rest, style, level));
    MoreItemsNonempty(rest, style, level);
  }

  lemma {:induction false} ItemsParse(items: seq<Value>, text: string, i: nat, depth: nat, style: Style, level: nat)
    requires Integral(List(items)) && Whitespace(style) && items != []
    requires i <= |text| && At(text, i, DumpItems(items, style, level))
    ensures ParseItems(text, i, depth)
         == Expected(items, Fits(NestingOfItems(items), depth + 1), i + |DumpItems(items, style, level)|)
    decreases items, 2
  {
    hide *;
    ItemsSplit(items, text, i, style, level);
    var one, rest := items[0], items[1..];
    var j := i + |Dump(one, style, level + 1)|;
    var a, b := Nesting(one), NestingOfItems(rest);
    FitsBoth(a, b, depth + 1);
    MoreItemsText(rest, text, j, style, level);
    DumpParses(one, text, i, depth + 1, style, level + 1);
    if rest != [] { ItemsParse(rest, text, SkipBlanks(text, j + 1), depth, style, level); }
    ItemsStep(one, rest, text, i, depth, j, Fits(a, depth + 1), Fits(b, depth + 1), i + |DumpItems(items, style, level)|);
  }

  // ---------------------------------------------------------------- objects

  lemma EntriesStart(entries: seq<Entry>, style: Style, level: nat)
    requires entries != []
    ensures var d := DumpEntries(entries, style, level); d != "" && d[0] == '"'
  {
    assert Quoted(entries[0].key)[0] == '"';
    hide Quoted, Dump;
    assert DumpEntry(entries[0], style, level)[0] == '"';
    hide DumpEntry;
  }

  lemma ObjectText(entries: seq<Entry>, text: string, i: nat, style: Style, level: nat)
    requires Integral(Object(entries)) && Whitespace(style) && At(text, i, Dump(Object(entries), style, level))
    ensures var j, end := SkipBlanks(text, i + 1), i + |Dump(Object(entries), style, level)|;
            && i < |text| && text[i] == '{' && j < |text|
            && (if entries == [] then text[j] == '}' && j + 1 == end
                else text[j] != '}' && At(text, j, DumpEntries(entries, style, level)) && j + |DumpEntries(entries, style, level)| == end)
  {
    hide MoreEntries, Integral, DumpEntry, Quoted;
    var body := DumpEntries(entries, style, level);
    assert Dump(Object(entries), style, level) == "{" + (Indentation(style, level + 1) + body);
    if entries == [] {
      Empty(text, i, '{', style, level, '}');
    } else {
      EntriesStart(entries, style, level);
      hide *;
      Opening(text, i, '{', style, level + 1, body);
    }
  }

  lemma {:induction false} ObjectParses(entries: seq<Entry>, text: string, i: nat, depth: nat, style: Style, level: nat)
    requires Integral(Object(entries)) && Whitespace(style) && At(text, i, Dump(Object(entries), style, level)) && depth > 0
    ensures i < |text| && text[i] == '{'
    ensures ParseObject(text, i, depth)
         == Expected(Object(entries), Fits(Nesting(Object(entries)), depth - 1), i + |Dump(Object(entries), style, level)|)
    decreases entries, 3
  {
    hide ParseEntries, Dump, DumpEntries, At, SkipBlanks, Integral, Indentation, Nesting;
    ObjectText(entries, text, i, style, level);
    NestingOfNested([], entries);
    if entries != [] { EntriesParse(entries, text, SkipBlanks(text, i + 1), depth, style, level); }
  }

  lemma NotBlank(text: string, j: nat)
    requires j < |text| && !Blank(text[j])
    ensures SkipBlanks(text, j) == j
  {
  }

  /** A colon and what `dump` puts behind it. */
  lemma ColonSkipped(text: string, j: nat, style: Style, rest: string)
    requires At(text, j, Colon(style) + rest) && rest != "" && !Blank(rest[0])
    ensures var k := j + |Colon(style)|;
            j < k < |text| && text[j] == ':' && SkipBlanks(text, j) == j && SkipBlanks(text, j + 1) == k && At(text, k, rest)
  {
    hide SkipBlanks, At;
    AtParts(text, j, Colon(style), rest);
    AtFirst(text, j, Colon(style));
    AtFirst(text, j + |Colon(style)|, rest);
    NotBlank(text, j);
    NotBlank(text, j + |Colon(style)|);
    if style.indent >= 0 {
      AtFirst(text, j + 1, " ");
      BlankSkipped(text, j + 1);
    }
  }

  lemma BlankSkipped(text: string, j: nat)
    requires j < |text| && Blank(text[j])
    ensures SkipBlanks(text, j) == SkipBlanks(text, j + 1)
  {
  }

  lemma EntryText(x: Entry, text: string, i: nat, style: Style, level: nat)
    requires Integral(x.value) && Whitespace(style) && At(text, i, DumpEntry(x, style, level))
    ensures At(text, i, Quoted(x.key))
    ensures var j := i + |Quoted(x.key)|;
            && j < |text| && text[j] == ':' && SkipBlanks(text, j) == j && SkipBlanks(text, j + 1) == j + |Colon(style)|
            && At(text, j + |Colon(style)|, Dump(x.value, style, level + 1))
            && j + |Colon(style)| + |Dump(x.value, style, level + 1)| == i + |DumpEntry(x, style, level)| <= |text|
  {
    hide Dump, Quoted, Integral, At, SkipBlanks, Blank, Colon;
    var rest := Colon(style) + Dump(x.value, style, level + 1);
    DumpStarts(x.value, style, level + 1);
    assert DumpEntry(x, style, level) == Quoted(x.key) + rest;
    hide DumpEntry;
    AtParts(text, i, Quoted(x.key), rest);
    ColonSkipped(text, i + |Quoted(x.key)|, style, Dump(x.value, style, level + 1));
    AtEnds(text, i, DumpEntry(x, style, level));
  }

  lemma EntryStep(x: Entry, text: string, i: nat, depth: nat, colon: nat, j: nat, fits: bool, end: nat)
    requires i < |text| && j <= |text| && text[i] == '"' && StringEnd(text, i + 1) == Some(colon - 1) && StringAt(text, i + 1) == x.key
    requires colon < |text| && text[colon] == ':' && SkipBlanks(text, colon) == colon && SkipBlanks(text, colon + 1) == j
    requires ParseValue(text, j, depth + 1) == Expected(x.value, fits, end)
    ensures ParseEntry(text, i, depth) == Expected(x, fits, end)
  {
    hide ParseValue, SkipBlanks, StringEnd, StringAt;
  }

  lemma {:induction false} EntryParses(x: Entry, text: string, i: nat, depth: nat, style: Style, level: nat)
    requires Integral(x.value) && Whitespace(style) && i <= |text| && At(text, i, DumpEntry(x, style, level))
    requires !NumberChar(CharAt(text, i + |DumpEntry(x, style, level)|))
    ensures ParseEntry(text, i, depth)
         == Expected(x, Fits(Nesting(x.value), depth + 1), i + |DumpEntry(x, style, level)|)
    decreases x, 2
  {
    hide *;
    EntryText(x, text, i, style, level);
    StringParses(text, i, x.key);
    var j := i + |Quoted(x.key)| + |Colon(style)|;
    DumpParses(x.value, text, j, depth + 1, style, level + 1);
    EntryStep(x, text, i, depth, i + |Quoted(x.key)|, j, Fits(Nesting(x.value), depth + 1), i + |DumpEntry(x, style, level)|);
  }

  /** What stands behind an entry of an object. */
  lemma MoreAre(entries: seq<Entry>, style: Style, level: nat)
    requires entries != []
    ensures MoreEntries(entries, style, level) == "," + (Indentation(style, level + 1) + DumpEntries(entries, style, level))
  {
    hide Indentation, DumpEntry;
  }

  lemma MoreEntriesText(entries: seq<Entry>, text: string, j: nat, style: Style, level: nat)
    requires Integral(Object(entries)) && Whitespace(style) && At(text, j, MoreEntries(entries, style, level))
    ensures !NumberChar(CharAt(text, j)) && SkipBlanks(text, j) < |text|
    ensures if entries == [] then
              CharAt(text, SkipBlanks(text, j)) == '}' && SkipBlanks(text, j) + 1 == j + |MoreEntries(entries, style, level)|
            else
              var k := SkipBlanks(text, j + 1);
              && SkipBlanks(text, j) == j && CharAt(text, j) == ',' && j < |text| && k <= |text|
              && At(text, k, DumpEntries(entries, style, level))
              && k + |DumpEntries(entries, style, level)| == j + |MoreEntries(entries, style, level)|
  {
    if entries == [] {
      Punctuation(text, j, style, level, '}');
    } else {
      var rest := DumpEntries(entries, style, level);
      EntriesStart(entries, style, level);
      MoreAre(entries, style, level);
      hide Dump, DumpEntries, MoreEntries, DumpEntry, At, SkipBlanks, Integral, Indentation;
      Opening(text, j, ',', style, level + 1, rest);
    }
  }

  lemma EntriesStep(one: Entry, rest: seq<Entry>, text: string, i: nat, depth: nat, j: nat, fits: bool, restFits: bool, end: nat)
    requires i <= |text| && j <= |text| && ParseEntry(text, i, depth) == Expected(one, fits, j)
    requires rest == [] ==> restFits && CharAt(text, SkipBlanks(text, j)) == '}' && end == SkipBlanks(text, j) + 1
    requires rest != [] ==>
               && CharAt(text, SkipBlanks(text, j)) == ',' && SkipBlanks(text, j) == j && j < |text|
               && ParseEntries(text, SkipBlanks(text, j + 1), depth) == Expected(rest, restFits, end)
    ensures ParseEntries(text, i, depth) == Expected([one] + rest, fits && restFits, end)
  {
    hide ParseEntry, SkipBlanks, NumberChar;
    if rest == [] { assert [one] + rest == [one]; }
  }

  lemma EntriesFacts(entries: seq<Entry>)
    requires Integral(Object(entries)) && entries != []
    ensures var one, rest := entries[0], entries[1..];
            && Integral(one.value) && Integral(Object(rest)) && (rest == [] ==> NestingOfEntries(rest) == 0)
            && NestingOfEntries(entries) == Max(Nesting(one.value), NestingOfEntries(rest))
  {
    hide Nesting;
  }

  lemma MoreEntriesNonempty(entries: seq<Entry>, style: Style, level: nat)
    ensures MoreEntries(entries, style, level) != ""
  {
    hide Dump, Indentation, DumpEntry;
  }

  lemma EntriesSplit(entries: seq<Entry>, text: string, i: nat, style: Style, level: nat)
    requires Integral(Object(entries)) && entries != [] && At(text, i, DumpEntries(entries, style, level))
    ensures var one, rest := entries[0], entries[1..];
            && entries == [one] + rest && Integral(one.value) && Integral(Object(rest))
            && At(text, i, DumpEntry(one, style, level)) && i + |DumpEntry(one, style, level)| <= |text|
            && At(text, i + |DumpEntry(one, style, level)|, MoreEntries(rest, style, level))
            && |DumpEntry(one, style, level)| + |MoreEntries(rest, style, level)| == |DumpEntries(entries, style, level)|
            && |DumpEntries(entries, style, level)| > 0
            && NestingOfEntries(entries) == Max(Nesting(one.value), NestingOfEntries(rest))
            && |rest| < |entries| && (rest == [] ==> NestingOfEntries(rest) == 0)
  {
    hide Integral, Nesting, NestingOfEntries, Max, DumpEntry, Dump, Quoted, MoreEntries, Indentation;
    var one, rest := entries[0], entries[1..];
    EntriesFacts(entries);
    AtParts(text, i, DumpEntry(one, style, level), MoreEntries(rest, style, level));
    MoreEntriesNonempty(rest, style, level);
  }

  lemma {:induction false} EntriesParse(entries: seq<Entry>, text: string, i: nat, depth: nat, style: Style, level: nat)
    requires Integral(Object(entries)) && Whitespace(style) && entries != []
    requires i <= |text| && At(text, i, DumpEntries(entries, style, level))
    ensures ParseEntries(text, i, depth)
         == Expected(entries, Fits(NestingOfEntries(entries), depth + 1), i + |DumpEntries(entries, style, level)|)
    decreases entries, 2
  {
    hide *;
    EntriesSplit(entries, text, i, style, level);
    var one, rest := entries[0], entries[1..];
    var j := i + |DumpEntry(one, style, level)|;
    var a, b := Nesting(one.value), NestingOfEntries(rest);
    FitsBoth(a, b, depth + 1);
    MoreEntriesText(rest, text, j, style, level);
    EntryParses(one, text, i, depth, style, level);
    if rest != [] { EntriesParse(rest, text, SkipBlanks(text, j + 1), depth, style, level); }
    EntriesStep(one, rest, text, i, depth, j, Fits(a, depth + 1), Fits(b, depth + 1), i + |DumpEntries(entries, style, level)|);
  }

  // ---------------------------------------------------------------- the round trip

  /** What `dump` writes at any indentation is read back exactly when at most 5000 lists and objects are nested. */
  lemma RoundTrip(v: Value, style: Style)
    requires Integral(v) && Whitespace(style)
    ensures Parse(Dump(v, style, 0)) == if Nesting(v) <= 5000 then Some(v) else None
  {
    var d := Dump(v, style, 0);
    DumpStarts(v, style, 0);
    assert d[0..|d|] == d;
    DumpParses(v, d, 0, 0, style, 0);
  }
}
