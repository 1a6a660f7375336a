/** Whole JSON texts as trees with their white space: the parser of `json.h` accepts exactly these, up to its depth. */
module JsonDocuments {
  import opened Wrappers
  import opened Sequences
  import opened JsonText
  import opened JsonGrammar
  import opened JsonRoundTrip
  import opened JsonStandard

  // ---------------------------------------------------------------- documents

  datatype Doc =
    | Word(word: Value)
    | Numeral(n: Num)
    | Text(pieces: seq<Piece>)
    | Array(blanks: string, slots: seq<Slot>)
    | Record(blanks: string, pairs: seq<Pair>)

  /** A value between white space. */
  datatype Slot = Slot(before: string, doc: Doc, after: string)

  /** An entry of an object: its key between white space, and its value. */
  datatype Pair = Pair(before: string, key: seq<Piece>, middle: string, slot: Slot)

  predicate AllBlank(s: string) { forall i :: 0 <= i < |s| ==> Blank(s[i]) }

  function WordText(v: Value): string {
    if v.True? then "true" else if v.False? then "false" else "null"
  }

  function KeyText(ps: seq<Piece>): string { "\"" + (PiecesText(ps) + "\"") }

  function DocText(doc: Doc): string
    decreases doc, 1
  {
    match doc
    case Word(v) => WordText(v)
    case Numeral(n) => NumText(n)
    case Text(ps) => KeyText(ps)
    case Array(blanks, slots) => "[" + if slots == [] then blanks + "]" else SlotsText(slots)
    case Record(blanks, pairs) => "{" + if pairs == [] then blanks + "}" else PairsText(pairs)
  }

  function SlotText(x: Slot): string
    decreases x, 0
  {
    x.before + (DocText(x.doc) + x.after)
  }

  /** The items of a list, commas between them, and its closing bracket. */
  function SlotsText(slots: seq<Slot>): string
    decreases slots, 2
  {
    if slots == [] then "" else SlotText(slots[0]) + MoreSlots(slots[1..])
  }

  function MoreSlots(slots: seq<Slot>): string
    decreases slots, 3
  {
    if slots == [] then "]" else "," + SlotsText(slots)
  }

  function PairText(x: Pair): string
    decreases x, 0
  {
    x.before + (KeyText(x.key) + (x.middle + (":" + SlotText(x.slot))))
  }

  function PairsText(pairs: seq<Pair>): string
    decreases pairs, 2
  {
    if pairs == [] then "" else PairText(pairs[0]) + MorePairs(pairs[1..])
  }

  function MorePairs(pairs: seq<Pair>): string
    decreases pairs, 3
  {
    if pairs == [] then "}" else "," + PairsText(pairs)
  }

  predicate Right(doc: Doc)
    decreases doc, 1
  {
    match doc
    case Word(v) => v.Null? || v.True? || v.False?
    case Numeral(n) => ValidNum(n)
    case Text(ps) => ValidPieces(ps)
    case Array(blanks, slots) => AllBlank(blanks) && RightSlots(slots)
    case Record(blanks, pairs) => AllBlank(blanks) && RightPairs(pairs)
  }

  predicate RightSlot(x: Slot)
    decreases x, 0
  {
    AllBlank(x.before) && Right(x.doc) && AllBlank(x.after)
  }

  predicate RightSlots(slots: seq<Slot>)
    decreases slots, 2
  {
    slots == [] || (RightSlot(slots[0]) && RightSlots(slots[1..]))
  }

  predicate RightPair(x: Pair)
    decreases x, 0
  {
    AllBlank(x.before) && ValidPieces(x.key) && AllBlank(x.middle) && RightSlot(x.slot)
  }

  predicate RightPairs(pairs: seq<Pair>)
    decreases pairs, 2
  {
    pairs == [] || (RightPair(pairs[0]) && RightPairs(pairs[1..]))
  }

  /** The value of a document. */
  function ValueOf(doc: Doc): Value
    requires Right(doc)
    decreases doc, 1
  {
    match doc
    case Word(v) => v
    case Numeral(n) => Number(NumText(n))
    case Text(ps) => String(PiecesValue(ps))
    case Array(_, slots) => List(ValuesOf(slots))
    case Record(_, pairs) => Object(EntriesOf(pairs))
  }

  function ValuesOf(slots: seq<Slot>): (r: seq<Value>)
    requires RightSlots(slots)
    ensures |r| == |slots|
    decreases slots, 2
  {
    if slots == [] then []
    else
      assert RightSlot(slots[0]);
      [ValueOf(slots[0].doc)] + ValuesOf(slots[1..])
  }

  function EntryOf(x: Pair): Entry
    requires RightPair(x)
    decreases x, 0
  {
    assert RightSlot(x.slot);
    Entry(PiecesValue(x.key), ValueOf(x.slot.doc))
  }

  function EntriesOf(pairs: seq<Pair>): (r: seq<Entry>)
    requires RightPairs(pairs)
    ensures |r| == |pairs|
    decreases pairs, 2
  {
    if pairs == [] then [] else [EntryOf(pairs[0])] + EntriesOf(pairs[1..])
  }

  // ---------------------------------------------------------------- white space and first characters

  lemma {:induction false} BlanksSkipped(text: string, i: nat, s: string)
    requires At(text, i, s) && AllBlank(s)
    ensures SkipBlanks(text, i) == SkipBlanks(text, i + |s|)
    decreases |s|
  {
    if s != "" {
      AtFirst(text, i, s);
      BlanksSkipped(text, i + 1, s[1..]);
    }
  }

  /** Neither white space nor punctuation. */
  predicate Starts(c: char) { !Blank(c) && c != ']' && c != '}' && c != ',' && c != ':' }

  lemma DocStarts(doc: Doc)
    requires Right(doc)
    ensures DocText(doc) != "" && Starts(DocText(doc)[0])
  {
    hide SlotsText, PairsText, PiecesText;
    if doc.Numeral? { NumStarts(doc.n); }
  }

  lemma NumStarts(n: Num)
    requires ValidNum(n)
    ensures NumText(n) != "" && (NumText(n)[0] == '-' || '0' <= NumText(n)[0] <= '9')
  {
    if n.sign == "" { assert NumText(n)[0] == n.integer[0]; }
  }

  /** White space, and then a character that is none. */
  lemma BlanksThen(text: string, i: nat, s: string, rest: string)
    requires At(text, i, s + rest) && AllBlank(s) && rest != "" && !Blank(rest[0])
    ensures var j := i + |s|; SkipBlanks(text, i) == j < |text| && text[j] == rest[0] && At(text, j, rest)
    ensures Behind(text, i) || NumberChar(rest[0])
  {
    hide At, SkipBlanks;
    AtParts(text, i, s, rest);
    AtFirst(text, i + |s|, rest);
    BlanksSkipped(text, i, s);
    NotBlank(text, i + |s|);
    if s != "" { AtFirst(text, i, s); }
  }

  // ---------------------------------------------------------------- every document is read

  /** How deep a document is nested. */
  function DepthOf(doc: Doc): nat
    requires Right(doc)
  {
    Nesting(ValueOf(doc))
  }

  lemma LeafParses(doc: Doc, text: string, i: nat, depth: nat)
    requires Right(doc) && !doc.Array? && !doc.Record? && i <= |text| && At(text, i, DocText(doc)) && Behind(text, i + |DocText(doc)|)
    ensures ParseValue(text, i, depth) == Some(Parsed(ValueOf(doc), i + |DocText(doc)|))
  {
    match doc
    case Word(v) => WordReads(v, text, i, depth);
    case Numeral(n) => NumeralReads(n, text, i, depth);
    case Text(ps) => TextReads(ps, text, i, depth);
  }

  lemma WordReads(v: Value, text: string, i: nat, depth: nat)
    requires (v.Null? || v.True? || v.False?) && At(text, i, WordText(v)) && i <= |text|
    ensures ParseValue(text, i, depth) == Some(Parsed(v, i + |WordText(v)|))
  {
    hide ParseList, ParseObject, NumberEnd, StringEnd, StringAt;
    AtFirst(text, i, WordText(v));
  }

  lemma NumeralReads(n: Num, text: string, i: nat, depth: nat)
    requires ValidNum(n) && At(text, i, NumText(n)) && i <= |text| && Behind(text, i + |NumText(n)|)
    ensures ParseValue(text, i, depth) == Some(Parsed(Number(NumText(n)), i + |NumText(n)|))
  {
    hide ParseList, ParseObject, NumberEnd, StringEnd, StringAt, NumText, ValidNum;
    NumEnds(text, i, n);
    NumStarts(n);
    AtFirst(text, i, NumText(n));
  }

  lemma KeyReads(ps: seq<Piece>, text: string, i: nat)
    requires ValidPieces(ps) && At(text, i, KeyText(ps))
    ensures i < |text| && text[i] == '"' && EndsAt(text, i + 1, i + |KeyText(ps)| - 1) && StringAt(text, i + 1) == PiecesValue(ps)
    ensures i + |KeyText(ps)| <= |text|
  {
    hide StringEnd, StringAt, PiecesText, PiecesValue, At;
    AtEnds(text, i, KeyText(ps));
    AtParts(text, i, "\"", PiecesText(ps) + "\"");
    AtFirst(text, i, "\"");
    AtParts(text, i + 1, PiecesText(ps), "\"");
    PiecesParse(text, i + 1, ps);
  }

  lemma TextReads(ps: seq<Piece>, text: string, i: nat, depth: nat)
    requires ValidPieces(ps) && At(text, i, KeyText(ps)) && i <= |text|
    ensures ParseValue(text, i, depth) == Some(Parsed(String(PiecesValue(ps)), i + |KeyText(ps)|))
  {
    hide StringEnd, StringAt, PiecesValue, At, KeyText, ParseValue;
    KeyReads(ps, text, i);
    NestedParses(text, i, depth);
  }

  lemma {:induction false} DocParses(doc: Doc, text: string, i: nat, depth: nat)
    requires Right(doc) && i <= |text| && At(text, i, DocText(doc)) && Behind(text, i + |DocText(doc)|)
    ensures ParseValue(text, i, depth) == Expected(ValueOf(doc), Fits(DepthOf(doc), depth), i + |DocText(doc)|)
    decreases doc, 1
  {
    hide ParseList, ParseObject, ParseValue, StringEnd, StringAt, At, SlotsText, PairsText, ValuesOf, EntriesOf, DocText, ValueOf, RightSlots, RightPairs;
    match doc
    case Array(blanks, slots) =>
      ArrayParses(blanks, slots, text, i, depth + 1);
      NestedParses(text, i, depth);
    case Record(blanks, pairs) =>
      RecordParses(blanks, pairs, text, i, depth + 1);
      NestedParses(text, i, depth);
    case _ =>
      LeafParses(doc, text, i, depth);
      LeafDepth(doc);
  }

  lemma LeafDepth(doc: Doc)
    requires Right(doc) && !doc.Array? && !doc.Record?
    ensures DepthOf(doc) == 0
  {
  }

  lemma ArrayValue(blanks: string, slots: seq<Slot>)
    requires Right(Array(blanks, slots))
    ensures AllBlank(blanks) && RightSlots(slots) && ValueOf(Array(blanks, slots)) == List(ValuesOf(slots))
    ensures DepthOf(Array(blanks, slots)) == 1 + NestingOfItems(ValuesOf(slots))
    ensures DocText(Array(blanks, slots)) == "[" + if slots == [] then blanks + "]" else SlotsText(slots)
    ensures slots == [] ==> ValuesOf(slots) == []
  {
    hide SlotsText, NestingOfItems;
  }

  lemma {:induction false} ArrayParses(blanks: string, slots: seq<Slot>, text: string, i: nat, depth: nat)
    requires Right(Array(blanks, slots)) && At(text, i, DocText(Array(blanks, slots))) && depth > 0
    ensures i < |text| && text[i] == '['
    ensures var doc := Array(blanks, slots);
            ParseList(text, i, depth) == Expected(ValueOf(doc), Fits(DepthOf(doc), depth - 1), i + |DocText(doc)|)
    decreases slots, 3
  {
    hide ParseItems, At, SkipBlanks, DocText, SlotsText, ValueOf, DepthOf, Right, RightSlots, AllBlank, Nesting;
    ArrayValue(blanks, slots);
    NestingOfNested([], []);
    AtFirst(text, i, DocText(Array(blanks, slots)));
    if slots == [] {
      assert (blanks + "]") == DocText(Array(blanks, slots))[1..];
      BlanksThen(text, i + 1, blanks, "]");
    } else {
      assert SlotsText(slots) == DocText(Array(blanks, slots))[1..];
      SlotsParse(slots, text, i + 1, depth);
    }
  }

  /** The first item of a list, and what is behind it. */
  lemma SlotsSplit(slots: seq<Slot>, text: string, i: nat)
    requires RightSlots(slots) && slots != [] && At(text, i, SlotsText(slots))
    ensures var x, rest := slots[0], slots[1..];
            var j := i + |x.before|;
            var k := j + |DocText(x.doc)|;
            var m := k + |x.after|;
            && Right(x.doc) && RightSlots(rest) && SkipBlanks(text, i) == j <= |text| && At(text, j, DocText(x.doc))
            && CharAt(text, j) != ']' && Behind(text, k) && k <= |text|
            && SkipBlanks(text, k) == m < |text| && At(text, m, MoreSlots(rest)) && text[m] == MoreSlots(rest)[0]
            && m + |MoreSlots(rest)| == i + |SlotsText(slots)|
            && ValuesOf(slots) == [ValueOf(x.doc)] + ValuesOf(rest)
  {
    hide *;
    var x, rest := slots[0], slots[1..];
    SlotFacts(slots);
    SlotParts(x);
    StartsFacts();
    SlotsRegroup(x.before, DocText(x.doc), x.after, MoreSlots(rest));
    ValuePart(text, i, x.before, x.doc, x.after, MoreSlots(rest));
    CharThere(text, i + |x.before|);
  }

  lemma SlotParts(x: Slot)
    requires RightSlot(x)
    ensures AllBlank(x.before) && Right(x.doc) && AllBlank(x.after)
  {
  }

  lemma StartsFacts()
    ensures forall c :: Starts(c) ==> c != ']' && c != '}'
  {
  }

  lemma SlotsRegroup(a: string, b: string, c: string, tail: string)
    ensures (a + (b + c)) + tail == a + (b + (c + tail))
  {
  }

  lemma SlotFacts(slots: seq<Slot>)
    requires RightSlots(slots) && slots != []
    ensures var x, rest := slots[0], slots[1..];
            && RightSlot(x) && RightSlots(rest) && SlotsText(slots) == (x.before + (DocText(x.doc) + x.after)) + MoreSlots(rest)
            && ValuesOf(slots) == [ValueOf(x.doc)] + ValuesOf(rest)
            && MoreSlots(rest) != "" && (MoreSlots(rest)[0] == if rest == [] then ']' else ',') && (rest == [] ==> MoreSlots(rest) == "]" && ValuesOf(rest) == [])
            && (rest != [] ==> MoreSlots(rest) == "," + SlotsText(rest))
  {
    hide DocText, Right;
  }

  lemma ItemsGoOn(one: Value, rest: seq<Value>, text: string, i: nat, depth: nat, k: nat, fits: bool, restFits: bool, end: nat)
    requires i <= |text| && k <= |text| && ParseValue(text, i, depth + 1) == Expected(one, fits, k)
    requires var m := SkipBlanks(text, k);
             if rest == [] then restFits && CharAt(text, m) == ']' && end == m + 1
             else CharAt(text, m) == ',' && m < |text| && ParseItems(text, SkipBlanks(text, m + 1), depth) == Expected(rest, restFits, end)
    ensures ParseItems(text, i, depth) == Expected([one] + rest, fits && restFits, end)
  {
    hide ParseValue, SkipBlanks, NumberChar;
    if rest == [] { assert [one] + rest == [one]; }
  }

  lemma NestingJoins(one: Value, rest: seq<Value>)
    ensures NestingOfItems([one] + rest) == Max(Nesting(one), NestingOfItems(rest))
  {
    hide Nesting;
    assert ([one] + rest)[1..] == rest;
  }

  lemma {:induction false} SlotsParse(slots: seq<Slot>, text: string, i: nat, depth: nat)
    requires RightSlots(slots) && slots != [] && At(text, i, SlotsText(slots))
    ensures var j := SkipBlanks(text, i);
            && j <= |text| && CharAt(text, j) != ']'
            && ParseItems(text, j, depth) == Expected(ValuesOf(slots), Fits(NestingOfItems(ValuesOf(slots)), depth + 1), i + |SlotsText(slots)|)
    decreases slots, 2
  {
    hide *;
    var x, rest := slots[0], slots[1..];
    SlotsSplit(slots, text, i);
    SlotFacts(slots);
    var j := i + |x.before|;
    var k := j + |DocText(x.doc)|;
    var m := k + |x.after|;
    DocParses(x.doc, text, j, depth + 1);
    DepthIs(x.doc);
    NestingJoins(ValueOf(x.doc), ValuesOf(rest));
    FitsBoth(Nesting(ValueOf(x.doc)), NestingOfItems(ValuesOf(rest)), depth + 1);
    if rest != [] {
      AtParts(text, m, ",", SlotsText(rest));
      SlotsParse(rest, text, m + 1, depth);
    } else {
      NoItems();
    }
    CharThere(text, m);
    ItemsGoOn(ValueOf(x.doc), ValuesOf(rest), text, j, depth, k, Fits(Nesting(ValueOf(x.doc)), depth + 1),
              Fits(NestingOfItems(ValuesOf(rest)), depth + 1), i + |SlotsText(slots)|);
  }

  lemma NoItems()
    ensures NestingOfItems([]) == 0 && NestingOfEntries([]) == 0
  {
  }

  lemma DepthIs(doc: Doc)
    requires Right(doc)
    ensures DepthOf(doc) == Nesting(ValueOf(doc))
  {
  }

  lemma CharThere(text: string, m: nat)
    requires m < |text|
    ensures CharAt(text, m) == text[m]
  {
  }

  // ---------------------------------------------------------------- objects

  lemma RecordValue(blanks: string, pairs: seq<Pair>)
    requires Right(Record(blanks, pairs))
    ensures AllBlank(blanks) && RightPairs(pairs) && ValueOf(Record(blanks, pairs)) == Object(EntriesOf(pairs))
    ensures DepthOf(Record(blanks, pairs)) == 1 + NestingOfEntries(EntriesOf(pairs))
    ensures DocText(Record(blanks, pairs)) == "{" + if pairs == [] then blanks + "}" else PairsText(pairs)
    ensures pairs == [] ==> EntriesOf(pairs) == []
  {
    hide PairsText, NestingOfEntries;
  }

  lemma {:induction false} RecordParses(blanks: string, pairs: seq<Pair>, text: string, i: nat, depth: nat)
    requires Right(Record(blanks, pairs)) && At(text, i, DocText(Record(blanks, pairs))) && depth > 0
    ensures i < |text| && text[i] == '{'
    ensures var doc := Record(blanks, pairs);
            ParseObject(text, i, depth) == Expected(ValueOf(doc), Fits(DepthOf(doc), depth - 1), i + |DocText(doc)|)
    decreases pairs, 3
  {
    hide ParseEntries, At, SkipBlanks, DocText, PairsText, ValueOf, DepthOf, Right, RightPairs, AllBlank, Nesting;
    RecordValue(blanks, pairs);
    NestingOfNested([], []);
    AtFirst(text, i, DocText(Record(blanks, pairs)));
    if pairs == [] {
      assert (blanks + "}") == DocText(Record(blanks, pairs))[1..];
      BlanksThen(text, i + 1, blanks, "}");
    } else {
      assert PairsText(pairs) == DocText(Record(blanks, pairs))[1..];
      PairsParse(pairs, text, i + 1, depth);
    }
  }

  lemma PairFacts(pairs: seq<Pair>)
    requires RightPairs(pairs) && pairs != []
    ensures var x, rest := pairs[0], pairs[1..];
            && RightPair(x) && RightPairs(rest) && PairsText(pairs) == PairText(x) + MorePairs(rest)
            && EntriesOf(pairs) == [EntryOf(x)] + EntriesOf(rest)
            && MorePairs(rest) != "" && (MorePairs(rest)[0] == if rest == [] then '}' else ',') && (rest == [] ==> MorePairs(rest) == "}" && EntriesOf(rest) == [])
            && (rest != [] ==> MorePairs(rest) == "," + PairsText(rest))
  {
    hide PairText, RightPair, EntryOf;
  }

  lemma OnePair(x: Pair)
    requires RightPair(x)
    ensures AllBlank(x.before) && ValidPieces(x.key) && AllBlank(x.middle) && AllBlank(x.slot.before) && Right(x.slot.doc) && AllBlank(x.slot.after)
    ensures EntryOf(x) == Entry(PiecesValue(x.key), ValueOf(x.slot.doc))
    ensures PairText(x) == x.before + (KeyText(x.key) + (x.middle + (":" + (x.slot.before + (DocText(x.slot.doc) + x.slot.after)))))
  {
    assert RightSlot(x.slot);
    hide AllBlank, Right, KeyText, DocText;
  }

  lemma KeyStarts(ps: seq<Piece>)
    ensures KeyText(ps) != "" && KeyText(ps)[0] == '"'
  {
    hide PiecesText;
  }

  /** A key between white space, a colon, and what is behind it. */
  lemma KeyPart(text: string, i: nat, before: string, key: string, middle: string, rest: string)
    requires At(text, i, before + (key + (middle + (":" + rest)))) && AllBlank(before) && AllBlank(middle) && key != "" && key[0] == '"'
    ensures var j := i + |before|;
            var c := j + |key| + |middle|;
            && SkipBlanks(text, i) == j < |text| && text[j] == '"' && At(text, j, key)
            && SkipBlanks(text, j + |key|) == c < |text| && text[c] == ':' && At(text, c + 1, rest)
  {
    hide *;
    FirstsAre();
    BlanksThen(text, i, before, key + (middle + (":" + rest)));
    AtParts(text, i + |before|, key, middle + (":" + rest));
    BlanksThen(text, i + |before| + |key|, middle, ":" + rest);
    AtParts(text, i + |before| + |key| + |middle|, ":", rest);
  }

  /** A value between white space, and what is behind it. */
  lemma ValuePart(text: string, i: nat, before: string, doc: Doc, after: string, tail: string)
    requires At(text, i, before + (DocText(doc) + (after + tail))) && AllBlank(before) && Right(doc) && AllBlank(after)
    requires tail != "" && (tail[0] == '}' || tail[0] == ',' || tail[0] == ']')
    ensures var v := i + |before|;
            var k := v + |DocText(doc)|;
            var m := k + |after|;
            && SkipBlanks(text, i) == v < |text| && text[v] == DocText(doc)[0] && Starts(text[v]) && At(text, v, DocText(doc)) && Behind(text, k) && k <= |text|
            && SkipBlanks(text, k) == m < |text| && At(text, m, tail) && text[m] == tail[0]
  {
    hide *;
    FirstsAre();
    DocStarts(doc);
    BlanksThen(text, i, before, DocText(doc) + (after + tail));
    AtParts(text, i + |before|, DocText(doc), after + tail);
    BlanksThen(text, i + |before| + |DocText(doc)|, after, tail);
    PunctuationBehind(text, i + |before| + |DocText(doc)|, tail[0]);
  }

  /** The first entry of an object, and what is behind it. */
  lemma PairsSplit(pairs: seq<Pair>, text: string, i: nat)
    requires RightPairs(pairs) && pairs != [] && At(text, i, PairsText(pairs))
    ensures var x, rest := pairs[0], pairs[1..];
            var j := i + |x.before|;
            var c := j + |KeyText(x.key)| + |x.middle|;
            var v := c + 1 + |x.slot.before|;
            var k := v + |DocText(x.slot.doc)|;
            var m := k + |x.slot.after|;
            && RightPair(x) && SkipBlanks(text, i) == j < |text| && text[j] == '"' && At(text, j, KeyText(x.key))
            && SkipBlanks(text, j + |KeyText(x.key)|) == c < |text| && text[c] == ':'
            && SkipBlanks(text, c + 1) == v <= |text| && At(text, v, DocText(x.slot.doc)) && Behind(text, k) && k <= |text|
            && SkipBlanks(text, k) == m < |text| && At(text, m, MorePairs(rest)) && text[m] == MorePairs(rest)[0]
            && m + |MorePairs(rest)| == i + |PairsText(pairs)|
  {
    hide *;
    var x, rest := pairs[0], pairs[1..];
    PairFacts(pairs);
    OnePair(x);
    KeyStarts(x.key);
    var tail := MorePairs(rest);
    PairsRegroup(x.before, KeyText(x.key), x.middle, x.slot.before, DocText(x.slot.doc), x.slot.after, tail);
    KeyPart(text, i, x.before, KeyText(x.key), x.middle, x.slot.before + (DocText(x.slot.doc) + (x.slot.after + tail)));
    ValuePart(text, i + |x.before| + |KeyText(x.key)| + |x.middle| + 1, x.slot.before, x.slot.doc, x.slot.after, tail);
  }

  lemma FirstsAre()
    ensures !Blank('"') && !Blank(':') && !Blank(',') && !Blank('}') && !Blank(']')
    ensures !NumberChar(',') && !NumberChar('}') && !NumberChar(']')
    ensures forall c :: Starts(c) ==> !Blank(c)
  {
  }

  lemma PunctuationBehind(text: string, k: nat, c: char)
    requires Behind(text, k) || NumberChar(c)
    requires c == '}' || c == ',' || c == ']'
    ensures Behind(text, k)
  {
  }

  lemma PairsRegroup(a: string, b: string, c: string, d: string, e: string, f: string, tail: string)
    ensures (a + (b + (c + (":" + (d + (e + f)))))) + tail == a + (b + (c + (":" + (d + (e + (f + tail))))))
  {
  }

  lemma EntryGoesOn(x: Entry, text: string, i: nat, depth: nat, e: nat, c: nat, v: nat, fits: bool, end: nat)
    requires i < |text| && text[i] == '"' && EndsAt(text, i + 1, e) && StringAt(text, i + 1) == x.key
    requires SkipBlanks(text, e + 1) == c < |text| && text[c] == ':' && SkipBlanks(text, c + 1) == v <= |text|
    requires ParseValue(text, v, depth + 1) == Expected(x.value, fits, end)
    ensures ParseEntry(text, i, depth) == Expected(x, fits, end)
  {
    hide ParseValue, SkipBlanks, StringEnd, StringAt;
  }

  lemma EntriesGoOn(one: Entry, rest: seq<Entry>, text: string, i: nat, depth: nat, k: nat, fits: bool, restFits: bool, end: nat)
    requires i <= |text| && k <= |text| && ParseEntry(text, i, depth) == Expected(one, fits, k)
    requires var m := SkipBlanks(text, k);
             if rest == [] then restFits && CharAt(text, m) == '}' && end == m + 1
             else CharAt(text, m) == ',' && m < |text| && ParseEntries(text, SkipBlanks(text, m + 1), depth) == Expected(rest, restFits, end)
    ensures ParseEntries(text, i, depth) == Expected([one] + rest, fits && restFits, end)
  {
    hide ParseEntry, SkipBlanks, NumberChar;
    if rest == [] { assert [one] + rest == [one]; }
  }

  lemma EntryNestingJoins(one: Entry, rest: seq<Entry>)
    ensures NestingOfEntries([one] + rest) == Max(Nesting(one.value), NestingOfEntries(rest))
  {
    hide Nesting;
    assert ([one] + rest)[1..] == rest;
  }

  lemma {:induction false} PairsParse(pairs: seq<Pair>, text: string, i: nat, depth: nat)
    requires RightPairs(pairs) && pairs != [] && At(text, i, PairsText(pairs))
    ensures var j := SkipBlanks(text, i);
            && j <= |text| && CharAt(text, j) != '}'
            && ParseEntries(text, j, depth) == Expected(EntriesOf(pairs), Fits(NestingOfEntries(EntriesOf(pairs)), depth + 1), i + |PairsText(pairs)|)
    decreases pairs, 2
  {
    hide *;
    var x, rest := pairs[0], pairs[1..];
    PairsSplit(pairs, text, i);
    PairFacts(pairs);
    OnePair(x);
    var j := i + |x.before|;
    var e := j + |KeyText(x.key)|;
    var c := e + |x.middle|;
    var v := c + 1 + |x.slot.before|;
    var k := v + |DocText(x.slot.doc)|;
    var m := k + |x.slot.after|;
    KeyReads(x.key, text, j);
    DocParses(x.slot.doc, text, v, depth + 1);
    DepthIs(x.slot.doc);
    EntryGoesOn(EntryOf(x), text, j, depth, e - 1, c, v, Fits(Nesting(ValueOf(x.slot.doc)), depth + 1), k);
    EntryNestingJoins(EntryOf(x), EntriesOf(rest));
    FitsBoth(Nesting(ValueOf(x.slot.doc)), NestingOfEntries(EntriesOf(rest)), depth + 1);
    if rest != [] {
      AtParts(text, m, ",", PairsText(rest));
      PairsParse(rest, text, m + 1, depth);
    } else {
      NoItems();
    }
    CharThere(text, m);
    CharThere(text, j);
    EntriesGoOn(EntryOf(x), EntriesOf(rest), text, j, depth, k, Fits(Nesting(ValueOf(x.slot.doc)), depth + 1),
                Fits(NestingOfEntries(EntriesOf(rest)), depth + 1), i + |PairsText(pairs)|);
  }

  // ---------------------------------------------------------------- nothing else is read

  lemma BlanksAre(text: string, i: nat)
    requires i <= |text|
    ensures var j := SkipBlanks(text, i); i <= j <= |text| && AllBlank(text[i..j])
  {
    hide Blank;
    var j := SkipBlanks(text, i);
    forall k | 0 <= k < j - i ensures Blank(text[i..j][k]) { assert Blank(CharAt(text, i + k)); }
  }

  /** The document `doc` stands at `i` and ends where the value `v` does. */
  predicate Spelled(text: string, i: nat, end: nat, v: Value, doc: Doc) {
    && Right(doc) && i <= end <= |text| && text[i..end] == DocText(doc) && ValueOf(doc) == v
    && (doc.Numeral? ==> Behind(text, end))
  }

  /** Every value that the parser reads is spelled by a document. */
  lemma {:induction false} DocFound(text: string, i: nat, depth: nat) returns (doc: Doc)
    requires i <= |text| && ParseValue(text, i, depth).Some?
    ensures Spelled(text, i, ParseValue(text, i, depth).value.end, ParseValue(text, i, depth).value.v, doc)
    decreases |text| - i, 2
  {
    hide Spelled, ParseList, ParseObject, StringEnd, NumberEnd, StringAt;
    var c := CharAt(text, i);
    if c == '[' {
      doc := ArrayFound(text, i, depth + 1);
    } else if c == '{' {
      doc := RecordFound(text, i, depth + 1);
    } else if c == '"' {
      doc := TextFound(text, i);
    } else if c == 't' || c == 'f' || c == 'n' {
      doc := WordFound(text, i, depth);
    } else {
      doc := NumeralFound(text, i, NumberEnd(text, i, Minus).value);
    }
  }

  lemma WordFound(text: string, i: nat, depth: nat) returns (doc: Doc)
    requires i < |text| && (text[i] == 't' || text[i] == 'f' || text[i] == 'n') && ParseValue(text, i, depth).Some?
    ensures Spelled(text, i, ParseValue(text, i, depth).value.end, ParseValue(text, i, depth).value.v, doc)
  {
    hide ParseList, ParseObject, StringEnd, NumberEnd, StringAt;
    doc := Word(ParseValue(text, i, depth).value.v);
  }

  lemma NumeralFound(text: string, i: nat, e: nat) returns (doc: Doc)
    requires i <= |text| && NumberEndsAt(text, i, Minus, e)
    ensures i <= e <= |text| && Spelled(text, i, e, Number(text[i..e]), doc)
  {
    hide NumText, ValidNum, NumberEnd;
    var n := NumFound(text, i, e);
    doc := Numeral(n);
  }

  lemma KeyFound(text: string, i: nat) returns (ps: seq<Piece>)
    requires i < |text| && text[i] == '"' && StringEnd(text, i + 1).Some?
    ensures ValidPieces(ps) && text[i..StringEnd(text, i + 1).value + 1] == KeyText(ps) && StringAt(text, i + 1) == PiecesValue(ps)
  {
    hide StringEnd, PiecesText, PiecesValue, Unescaped, Escaped, ValidPieces;
    var e := StringEnd(text, i + 1).value;
    ps := PiecesFound(text, i + 1);
    PiecesRead(ps);
    assert text[i..e + 1] == "\"" + (text[i + 1..e] + "\"");
  }

  lemma TextFound(text: string, i: nat) returns (doc: Doc)
    requires i < |text| && text[i] == '"' && StringEnd(text, i + 1).Some?
    ensures Spelled(text, i, StringEnd(text, i + 1).value + 1, String(StringAt(text, i + 1)), doc)
  {
    hide StringEnd, PiecesValue, StringAt, KeyText;
    var ps := KeyFound(text, i);
    doc := Text(ps);
  }

  lemma {:induction false} ArrayFound(text: string, i: nat, depth: nat) returns (doc: Doc)
    requires i < |text| && text[i] == '[' && ParseList(text, i, depth).Some?
    ensures Spelled(text, i, ParseList(text, i, depth).value.end, ParseList(text, i, depth).value.v, doc)
    decreases |text| - i, 1
  {
    hide SkipBlanks, ParseItems, SlotsText, AllBlank, RightSlots, ValuesOf;
    BlanksAre(text, i + 1);
    var j, end := SkipBlanks(text, i + 1), ParseList(text, i, depth).value.end;
    if CharAt(text, j) == ']' {
      doc := Array(text[i + 1..j], []);
      NoSlots();
      assert text[i..end] == "[" + (text[i + 1..j] + "]");
    } else {
      var slots := SlotsFound(text, i + 1, j, depth);
      doc := Array("", slots);
      NoBlanks();
      assert text[i..end] == "[" + text[i + 1..end];
    }
  }

  lemma NoSlots()
    ensures RightSlots([]) && ValuesOf([]) == [] && RightPairs([]) && EntriesOf([]) == []
  {
  }

  lemma NoBlanks()
    ensures AllBlank("")
  {
  }

  lemma {:induction false} SlotsFound(text: string, i: nat, j: nat, depth: nat) returns (slots: seq<Slot>)
    requires i <= j <= |text| && AllBlank(text[i..j]) && ParseItems(text, j, depth).Some?
    ensures slots != [] && RightSlots(slots)
    ensures var p := ParseItems(text, j, depth).value; text[i..p.end] == SlotsText(slots) && ValuesOf(slots) == p.v
    decreases |text| - j, 3
  {
    hide *;
    ItemsParts(text, j, depth);
    var x := ParseValue(text, j, depth + 1).value;
    var doc := DocFound(text, j, depth + 1);
    BlanksAre(text, x.end);
    var m := SkipBlanks(text, x.end);
    var slot := Slot(text[i..j], doc, text[x.end..m]);
    var more := [];
    if CharAt(text, m) != ']' {
      BlanksAre(text, m + 1);
      more := SlotsFound(text, m + 1, SkipBlanks(text, m + 1), depth);
    }
    NoSlots();
    slots := [slot] + more;
    OneSlot(text, i, j, x.end, m, x.v, doc, more, ParseItems(text, j, depth).value.end);
  }

  /** What reading items has found. */
  lemma ItemsParts(text: string, j: nat, depth: nat)
    requires j <= |text| && ParseItems(text, j, depth).Some?
    ensures ParseValue(text, j, depth + 1).Some?
    ensures var p, x := ParseItems(text, j, depth).value, ParseValue(text, j, depth + 1).value;
            var m := SkipBlanks(text, x.end);
            && j < x.end <= m < p.end <= |text| && CharAt(text, m) == text[m]
            && if text[m] == ']' then p.end == m + 1 && p.v == [x.v]
               else
                 && text[m] == ',' && SkipBlanks(text, m + 1) <= |text|
                 && var rest := ParseItems(text, SkipBlanks(text, m + 1), depth);
                    rest.Some? && p.end == rest.value.end && p.v == [x.v] + rest.value.v
  {
    hide ParseValue, SkipBlanks;
    var x := ParseValue(text, j, depth + 1).value;
    BlanksAre(text, x.end);
    var m := SkipBlanks(text, x.end);
    if m < |text| { BlanksAre(text, m + 1); }
  }

  /** A slot and what follows it. */
  lemma OneSlot(text: string, i: nat, j: nat, k: nat, m: nat, v: Value, doc: Doc, more: seq<Slot>, end: nat)
    requires i <= j <= k <= m < end <= |text| && AllBlank(text[i..j]) && AllBlank(text[k..m]) && Spelled(text, j, k, v, doc)
    requires RightSlots(more) && if more == [] then text[m] == ']' && end == m + 1 else text[m] == ',' && text[m + 1..end] == SlotsText(more)
    ensures var slots := [Slot(text[i..j], doc, text[k..m])] + more;
            RightSlots(slots) && SlotsText(slots) == text[i..end] && ValuesOf(slots) == [v] + ValuesOf(more)
  {
    hide AllBlank, Right, DocText, ValueOf;
    var slot := Slot(text[i..j], doc, text[k..m]);
    var slots := [slot] + more;
    assert slots[1..] == more && RightSlot(slot);
    SlotFacts(slots);
    hide SlotsText, MoreSlots, RightSlots, ValuesOf;
    assert text[m..end] == [text[m]] + text[m + 1..end];
    Cut(text, j, k, m);
    Cut(text, i, j, m);
    Cut(text, i, m, end);
  }

  lemma {:induction false} RecordFound(text: string, i: nat, depth: nat) returns (doc: Doc)
    requires i < |text| && text[i] == '{' && ParseObject(text, i, depth).Some?
    ensures Spelled(text, i, ParseObject(text, i, depth).value.end, ParseObject(text, i, depth).value.v, doc)
    decreases |text| - i, 1
  {
    hide SkipBlanks, ParseEntries, PairsText, AllBlank, RightPairs, EntriesOf;
    BlanksAre(text, i + 1);
    var j, end := SkipBlanks(text, i + 1), ParseObject(text, i, depth).value.end;
    if CharAt(text, j) == '}' {
      doc := Record(text[i + 1..j], []);
      NoSlots();
      assert text[i..end] == "{" + (text[i + 1..j] + "}");
    } else {
      var pairs := PairsFound(text, i + 1, j, depth);
      doc := Record("", pairs);
      NoBlanks();
      assert text[i..end] == "{" + text[i + 1..end];
    }
  }

  lemma {:induction false} PairsFound(text: string, i: nat, j: nat, depth: nat) returns (pairs: seq<Pair>)
    requires i <= j <= |text| && AllBlank(text[i..j]) && ParseEntries(text, j, depth).Some?
    ensures pairs != [] && RightPairs(pairs)
    ensures var p := ParseEntries(text, j, depth).value; text[i..p.end] == PairsText(pairs) && EntriesOf(pairs) == p.v
    decreases |text| - j, 4
  {
    hide *;
    EntriesParts(text, j, depth);
    var x := ParseEntry(text, j, depth).value;
    BlanksAre(text, x.end);
    var m := SkipBlanks(text, x.end);
    var pair := PairFound(text, i, j, depth, m);
    var more := [];
    if CharAt(text, m) != '}' {
      BlanksAre(text, m + 1);
      more := PairsFound(text, m + 1, SkipBlanks(text, m + 1), depth);
    }
    NoSlots();
    pairs := [pair] + more;
    OneMorePair(text, i, m, pair, more, ParseEntries(text, j, depth).value.end);
  }

  lemma EntriesParts(text: string, j: nat, depth: nat)
    requires j <= |text| && ParseEntries(text, j, depth).Some?
    ensures ParseEntry(text, j, depth).Some?
    ensures var p, x := ParseEntries(text, j, depth).value, ParseEntry(text, j, depth).value;
            var m := SkipBlanks(text, x.end);
            && j < x.end <= m < p.end <= |text| && CharAt(text, m) == text[m]
            && if text[m] == '}' then p.end == m + 1 && p.v == [x.v]
               else
                 && text[m] == ',' && SkipBlanks(text, m + 1) <= |text|
                 && var rest := ParseEntries(text, SkipBlanks(text, m + 1), depth);
                    rest.Some? && p.end == rest.value.end && p.v == [x.v] + rest.value.v
  {
    hide ParseEntry, SkipBlanks;
    var x := ParseEntry(text, j, depth).value;
    BlanksAre(text, x.end);
    var m := SkipBlanks(text, x.end);
    if m < |text| { BlanksAre(text, m + 1); }
  }

  lemma OneMorePair(text: string, i: nat, m: nat, pair: Pair, more: seq<Pair>, end: nat)
    requires i <= m < end <= |text| && RightPair(pair) && PairText(pair) == text[i..m]
    requires RightPairs(more) && if more == [] then text[m] == '}' && end == m + 1 else text[m] == ',' && text[m + 1..end] == PairsText(more)
    ensures var pairs := [pair] + more;
            RightPairs(pairs) && PairsText(pairs) == text[i..end] && EntriesOf(pairs) == [EntryOf(pair)] + EntriesOf(more)
  {
    hide RightPair, PairText, EntryOf;
    var pairs := [pair] + more;
    assert pairs[1..] == more;
    PairFacts(pairs);
    hide PairsText, MorePairs, RightPairs, EntriesOf;
    assert text[m..end] == [text[m]] + text[m + 1..end];
    Cut(text, i, m, end);
  }

  lemma {:induction false} PairFound(text: string, i: nat, j: nat, depth: nat, m: nat) returns (pair: Pair)
    requires i <= j <= |text| && AllBlank(text[i..j]) && ParseEntry(text, j, depth).Some?
    requires ParseEntry(text, j, depth).value.end <= m <= |text| && AllBlank(text[ParseEntry(text, j, depth).value.end..m])
    ensures RightPair(pair) && PairText(pair) == text[i..m] && EntryOf(pair) == ParseEntry(text, j, depth).value.v
    decreases |text| - j, 3
  {
    hide ParseValue, SkipBlanks, AllBlank, Spelled, DocText, StringEnd, StringAt, RightPair, PairText, EntryOf, KeyText, PiecesValue;
    var key := KeyFound(text, j);
    var e := StringEnd(text, j + 1).value + 1;
    BlanksAre(text, e);
    var c := SkipBlanks(text, e);
    BlanksAre(text, c + 1);
    var v := SkipBlanks(text, c + 1);
    var doc := DocFound(text, v, depth + 1);
    var k := ParseEntry(text, j, depth).value.end;
    pair := Pair(text[i..j], key, text[e..c], Slot(text[c + 1..v], doc, text[k..m]));
    BuiltPair(text, i, j, e, c, v, k, m, key, doc, ParseEntry(text, j, depth).value.v);
  }

  lemma BuiltPair(text: string, i: nat, j: nat, e: nat, c: nat, v: nat, k: nat, m: nat, key: seq<Piece>, doc: Doc, x: Entry)
    requires i <= j <= e <= c < v <= k <= m <= |text| && AllBlank(text[i..j]) && AllBlank(text[e..c]) && AllBlank(text[c + 1..v]) && AllBlank(text[k..m])
    requires text[c] == ':' && ValidPieces(key) && text[j..e] == KeyText(key) && PiecesValue(key) == x.key && Spelled(text, v, k, x.value, doc)
    ensures var pair := Pair(text[i..j], key, text[e..c], Slot(text[c + 1..v], doc, text[k..m]));
            RightPair(pair) && PairText(pair) == text[i..m] && EntryOf(pair) == x
  {
    hide AllBlank, Right, DocText, ValueOf, KeyText, PiecesValue, ValidPieces;
    var pair := Pair(text[i..j], key, text[e..c], Slot(text[c + 1..v], doc, text[k..m]));
    assert RightSlot(pair.slot) && RightPair(pair);
    OnePair(pair);
    hide PairText;
    Cut(text, v, k, m);
    Cut(text, c + 1, v, m);
    assert text[c..m] == [text[c]] + text[c + 1..m];
    Cut(text, e, c, m);
    Cut(text, j, e, m);
    Cut(text, i, j, m);
  }

  lemma Cut(text: string, a: nat, b: nat, c: nat)
    requires a <= b <= c <= |text|
    ensures text[a..c] == text[a..b] + text[b..c]
  {
  }

  // ---------------------------------------------------------------- whole texts

  /** The text is a document between white space, and a NUL or nothing follows. */
  predicate Whole(text: string, before: string, doc: Doc, after: string) {
    && AllBlank(before) && Right(doc) && AllBlank(after)
    && At(text, 0, before + (DocText(doc) + after)) && CharAt(text, |before| + |DocText(doc)| + |after|) == '\0'
  }

  /** The parser accepts a text exactly if it is such a document, nested at most 5000 deep, and then reads its value. */
  lemma ParseIff(text: string, v: Value)
    ensures (Parse(text).Some? && Parse(text).value == v)
       <==> exists before, doc, after :: Whole(text, before, doc, after) && ValueOf(doc) == v && Nesting(v) <= 5000
  {
    hide Parse, AllBlank, Right, At, DocText, ValueOf, Nesting;
    forall before, doc, after | Whole(text, before, doc, after) && ValueOf(doc) == v && Nesting(v) <= 5000
      ensures Parse(text).Some? && Parse(text).value == v
    {
      WholeReads(text, before, doc, after);
    }
    if Parse(text).Some? && Parse(text).value == v {
      var before, doc, after := WholeFound(text);
    }
  }

  lemma WholeReads(text: string, before: string, doc: Doc, after: string)
    requires Whole(text, before, doc, after)
    ensures Parse(text) == if Nesting(ValueOf(doc)) <= 5000 then Some(ValueOf(doc)) else None
  {
    hide AllBlank, At, Right, DocText, ValueOf, Nesting, SkipBlanks, ParseValue;
    var i, k := |before|, |before| + |DocText(doc)|;
    DocStarts(doc);
    BlanksThen(text, 0, before, DocText(doc) + after);
    AtParts(text, i, DocText(doc), after);
    BlanksEnd(text, k, after);
    DocParses(doc, text, i, 0);
    DepthIs(doc);
  }

  /** White space up to a NUL or the end. */
  lemma BlanksEnd(text: string, k: nat, after: string)
    requires At(text, k, after) && AllBlank(after) && CharAt(text, k + |after|) == '\0'
    ensures SkipBlanks(text, k) == k + |after| && Behind(text, k) && k <= |text|
  {
    hide SkipBlanks;
    BlanksSkipped(text, k, after);
    NulEnds(text, k + |after|);
    if after != "" { AtFirst(text, k, after); }
  }

  lemma NulEnds(text: string, k: nat)
    requires CharAt(text, k) == '\0'
    ensures SkipBlanks(text, k) == k
  {
  }

  lemma WholeFound(text: string) returns (before: string, doc: Doc, after: string)
    requires Parse(text).Some?
    ensures Whole(text, before, doc, after) && ValueOf(doc) == Parse(text).value && Nesting(Parse(text).value) <= 5000
  {
    hide AllBlank, Right, DocText, ValueOf, Nesting, SkipBlanks, ParseValue, Spelled;
    BlanksAre(text, 0);
    var i := SkipBlanks(text, 0);
    doc := DocFound(text, i, 0);
    var x := ParseValue(text, i, 0).value;
    BlanksAre(text, x.end);
    var m := SkipBlanks(text, x.end);
    before, after := text[0..i], text[x.end..m];
    SpelledFacts(text, i, x.end, x.v, doc);
    assert text[0..m] == before + (text[i..x.end] + after);
    WholeReads(text, before, doc, after);
  }

  lemma SpelledFacts(text: string, i: nat, end: nat, v: Value, doc: Doc)
    requires Spelled(text, i, end, v, doc)
    ensures Right(doc) && i <= end <= |text| && text[i..end] == DocText(doc) && ValueOf(doc) == v
  {
  }

  // ---------------------------------------------------------------- what dump writes

  /** A new line indented for a level; nothing in the compact style. */
  function NewLine(style: Style, level: nat): string {
    if style.indent < 0 then "" else "\n" + seq(level * style.indent, _ => style.separator)
  }

  /** Texts with a separator between each two. */
  function Joined(texts: seq<string>, separator: string): string {
    if texts == [] then "" else if |texts| == 1 then texts[0] else texts[0] + separator + Joined(texts[1..], separator)
  }

  lemma {:induction false} RepeatIs(c: char, n: nat)
    ensures Repeat(c, n) == seq(n, _ => c)
  {
    if n > 0 { RepeatIs(c, n - 1); }
  }

  lemma IndentationIs(style: Style, level: nat)
    ensures Indentation(style, level) == NewLine(style, level)
  {
    if style.indent >= 0 {
      assert level * style.indent >= 0;
      RepeatIs(style.separator, level * style.indent);
    }
  }

  lemma {:induction false} MoreItemsAre(items: seq<Value>, texts: seq<string>, style: Style, level: nat)
    requires |texts| == |items| && forall i :: 0 <= i < |items| ==> texts[i] == Dump(items[i], style, level + 1)
    ensures MoreItems(items, style, level)
         == (if items == [] then "" else "," + NewLine(style, level + 1) + Joined(texts, "," + NewLine(style, level + 1))) + (NewLine(style, level) + "]")
  {
    hide Dump, NewLine, Indentation;
    IndentationIs(style, level);
    IndentationIs(style, level + 1);
    if items != [] { MoreItemsAre(items[1..], texts[1..], style, level); }
  }

  /** A list is its items, each on a line of its own one level deeper, commas between them. */
  lemma ListLayout(items: seq<Value>, texts: seq<string>, style: Style, level: nat)
    requires |texts| == |items| && forall i :: 0 <= i < |items| ==> texts[i] == Dump(items[i], style, level + 1)
    ensures Dump(List(items), style, level)
         == "[" + NewLine(style, level + 1) + Joined(texts, "," + NewLine(style, level + 1)) + (NewLine(style, level) + "]")
  {
    hide NewLine, Indentation, MoreItems;
    IndentationIs(style, level);
    IndentationIs(style, level + 1);
    if items != [] { MoreItemsAre(items[1..], texts[1..], style, level); }
  }

  lemma {:induction false} MoreEntriesAre(entries: seq<Entry>, texts: seq<string>, style: Style, level: nat)
    requires |texts| == |entries| && forall i :: 0 <= i < |entries| ==> texts[i] == DumpEntry(entries[i], style, level)
    ensures MoreEntries(entries, style, level)
         == (if entries == [] then "" else "," + NewLine(style, level + 1) + Joined(texts, "," + NewLine(style, level + 1))) + (NewLine(style, level) + "}")
  {
    hide DumpEntry, NewLine, Indentation;
    IndentationIs(style, level);
    IndentationIs(style, level + 1);
    if entries != [] { MoreEntriesAre(entries[1..], texts[1..], style, level); }
  }

  /** An entry: a key in quotes, a colon, in the indented styles a space, and the value. */
  function EntryLine(x: Entry, style: Style, level: nat): string {
    "\"" + Escape(x.key) + "\"" + (if style.indent < 0 then ":" else ": ") + Dump(x.value, style, level + 1)
  }

  lemma EntryIs(x: Entry, style: Style, level: nat)
    ensures DumpEntry(x, style, level) == EntryLine(x, style, level)
  {
    hide Escape, Dump;
  }

  /** An object is its entries likewise. */
  lemma ObjectLayout(entries: seq<Entry>, texts: seq<string>, style: Style, level: nat)
    requires |texts| == |entries| && forall i :: 0 <= i < |entries| ==> texts[i] == EntryLine(entries[i], style, level)
    ensures Dump(Object(entries), style, level)
         == "{" + NewLine(style, level + 1) + Joined(texts, "," + NewLine(style, level + 1)) + (NewLine(style, level) + "}")
  {
    hide NewLine, Indentation, MoreEntries, DumpEntry, EntryLine;
    forall i | 0 <= i < |entries| ensures texts[i] == DumpEntry(entries[i], style, level) { EntryIs(entries[i], style, level); }
    IndentationIs(style, level);
    IndentationIs(style, level + 1);
    if entries != [] { MoreEntriesAre(entries[1..], texts[1..], style, level); }
  }

  /** Of the characters only quotes, backslashes and control characters are escaped, in two characters where RFC 8259 has
      such an escape. */
  lemma EscapesAre(c: char)
    ensures c as int >= 0x20 && c != '"' && c != '\\' ==> EscapeChar(c) == [c]
    ensures c == '"' || c == '\\' || c as int in {8, 9, 10, 12, 13} ==>
              |EscapeChar(c)| == 2 && EscapeChar(c)[0] == '\\' && EscapeChar(c)[1] in SHORT_ESCAPES && SHORT_ESCAPES[EscapeChar(c)[1]] == c as int
    ensures c as int < 0x20 && c as int !in {8, 9, 10, 12, 13} ==>
              |EscapeChar(c)| == 6 && EscapeChar(c)[..4] == "\\u00" && HexDigit(EscapeChar(c)[4], c as int / 16) && HexDigit(EscapeChar(c)[5], c as int % 16)
  {
    LettersInOrder();
  }
}
