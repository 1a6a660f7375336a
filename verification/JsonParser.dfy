/** The parser of `json.h` at work on its own copy of the text, and the read values that point into that copy. */
module JsonParser {
  import opened Wrappers
  import opened JsonText
  import opened JsonGrammar

  datatype Kind = KNull | KFalse | KTrue | KNumber | KString | KList | KObject

  /** An rvalue: the characters `start..end` of the parser's buffer, and its key's characters if it is in an object. */
  datatype RValue = RValue(kind: Kind, start: nat, end: nat, keyStart: nat, keyEnd: nat, items: seq<RValue>, error: bool)

  const FAILED := RValue(KNull, 0, 0, 0, 0, [], true)

  function Simple(kind: Kind, start: nat, end: nat): RValue {
    RValue(kind, start, end, 0, 0, [], false)
  }

  // ---------------------------------------------------------------- what a read value stands for

  function Slice(buf: seq<char>, a: nat, b: nat): string {
    if a <= b <= |buf| then buf[a..b] else ""
  }

  /** The text of a string value: still escaped while the character before it, the place of its quote, is not NUL. */
  function TextOf(buf: seq<char>, start: nat, end: nat): string {
    var raw := Slice(buf, start, end);
    if 0 < start <= |buf| && buf[start - 1] != '\0' && Escaped(raw) then Unescaped(raw) else raw
  }

  function Meaning(buf: seq<char>, v: RValue): Value
    decreases v, 1
  {
    match v.kind
    case KNull => Null
    case KFalse => False
    case KTrue => True
    case KNumber => Number(Slice(buf, v.start, v.end))
    case KString => String(TextOf(buf, v.start, v.end))
    case KList => List(ItemMeanings(buf, v.items))
    case KObject => Object(EntryMeanings(buf, v.items))
  }

  function ItemMeanings(buf: seq<char>, items: seq<RValue>): (r: seq<Value>)
    decreases items, 0
  {
    if items == [] then []
    else ItemMeanings(buf, items[..|items| - 1]) + [Meaning(buf, items[|items| - 1])]
  }

  function EntryMeanings(buf: seq<char>, items: seq<RValue>): (r: seq<Entry>)
    decreases items, 0
  {
    if items == [] then []
    else EntryMeanings(buf, items[..|items| - 1]) + [EntryMeaning(buf, items[|items| - 1])]
  }

  function EntryMeaning(buf: seq<char>, v: RValue): Entry
    decreases v, 2
  {
    Entry(Slice(buf, v.keyStart, v.keyEnd), Meaning(buf, v))
  }

  /** All that a value points to lies in `lo..hi`. */
  ghost predicate Inside(v: RValue, lo: nat, hi: nat)
    decreases v
  {
    && (v.kind.KNumber? ==> lo <= v.start <= v.end <= hi)
    && (v.kind.KString? ==> lo < v.start <= v.end < hi)
    && forall x <- v.items :: Inside(x, lo, hi) && (v.kind.KObject? ==> lo <= x.keyStart <= x.keyEnd <= hi)
  }

  /** Writing elsewhere does not change a value. */
  lemma {:induction false} Undisturbed(a: seq<char>, b: seq<char>, v: RValue, lo: nat, hi: nat)
    requires Inside(v, lo, hi) && hi <= |a| == |b| && forall k :: lo <= k < hi ==> a[k] == b[k]
    ensures Meaning(a, v) == Meaning(b, v)
    decreases v
  {
    assert forall i, j :: lo <= i <= j <= hi ==> a[i..j] == b[i..j];
    if v.kind.KList? || v.kind.KObject? { ItemsUndisturbed(a, b, v.items, v.kind.KObject?, lo, hi); }
  }

  ghost predicate AllInside(items: seq<RValue>, keyed: bool, lo: nat, hi: nat) {
    forall x <- items :: Inside(x, lo, hi) && (keyed ==> lo <= x.keyStart <= x.keyEnd <= hi)
  }

  lemma {:induction false} ItemsUndisturbed(a: seq<char>, b: seq<char>, items: seq<RValue>, keyed: bool, lo: nat, hi: nat)
    requires AllInside(items, keyed, lo, hi) && hi <= |a| == |b| && forall k :: lo <= k < hi ==> a[k] == b[k]
    ensures ItemMeanings(a, items) == ItemMeanings(b, items)
    ensures keyed ==> EntryMeanings(a, items) == EntryMeanings(b, items)
    decreases items
  {
    if items != [] {
      var last := items[|items| - 1];
      assert last in items;
      ItemsUndisturbed(a, b, items[..|items| - 1], keyed, lo, hi);
      Undisturbed(a, b, last, lo, hi);
      if keyed { assert a[last.keyStart..last.keyEnd] == b[last.keyStart..last.keyEnd]; }
    }
  }

  lemma {:induction false} InsideMore(v: RValue, lo: nat, hi: nat, lo': nat, hi': nat)
    requires Inside(v, lo, hi) && lo' <= lo && hi <= hi'
    ensures Inside(v, lo', hi')
    decreases v
  {
    forall x <- v.items ensures Inside(x, lo', hi') { InsideMore(x, lo, hi, lo', hi'); }
  }

  lemma NestedInside(v: RValue, lo: nat, hi: nat)
    requires (v.kind.KList? || v.kind.KObject?) && AllInside(v.items, v.kind.KObject?, lo, hi)
    ensures Inside(v, lo, hi)
  {
  }

  lemma AllInsideMore(items: seq<RValue>, keyed: bool, lo: nat, hi: nat, lo': nat, hi': nat)
    requires AllInside(items, keyed, lo, hi) && lo' <= lo && hi <= hi'
    ensures AllInside(items, keyed, lo', hi')
  {
    forall x <- items ensures Inside(x, lo', hi') { InsideMore(x, lo, hi, lo', hi'); }
  }

  /** A value read behind others: the others stand for what they stood for. */
  lemma Appended(a: seq<char>, b: seq<char>, items: seq<RValue>, x: RValue, keyed: bool, lo: nat, at: nat, hi: nat)
    requires AllInside(items, keyed, lo, at) && Inside(x, at, hi) && lo <= at <= hi <= |a| == |b|
    requires keyed ==> lo <= x.keyStart <= x.keyEnd <= hi
    requires forall k :: 0 <= k < at ==> a[k] == b[k]
    ensures AllInside(items + [x], keyed, lo, hi)
    ensures !keyed ==> ItemMeanings(b, items + [x]) == ItemMeanings(a, items) + [Meaning(b, x)]
    ensures keyed ==> EntryMeanings(b, items + [x]) == EntryMeanings(a, items) + [EntryMeaning(b, x)]
  {
    hide Inside, Meaning;
    ItemsUndisturbed(a, b, items, keyed, lo, at);
    assert (items + [x])[..|items|] == items;
    forall y <- items + [x] ensures Inside(y, lo, hi) && (keyed ==> lo <= y.keyStart <= y.keyEnd <= hi) {
      if y in items { InsideMore(y, lo, at, lo, hi); } else { InsideMore(x, at, hi, lo, hi); }
    }
  }

  // ---------------------------------------------------------------- strings without escapes

  /** Unescaping shortens exactly the strings that hold an escape, and leaves the others as they are. */
  lemma {:induction false} UnescapeShortens(s: string)
    requires Escaped(s)
    ensures '\\' in s ==> |Unescaped(s)| < |s|
    ensures '\\' !in s ==> Unescaped(s) == s
  {
    if s != "" && s[0] != '\\' { UnescapeShortens(s[1..]); }
  }

  /** The first escape or character of an escaped string. */
  lemma EscapeHead(s: string)
    requires Escaped(s) && s != ""
    ensures s[0] != '\\' ==> Escaped(s[1..]) && Unescaped(s) == [s[0]] + Unescaped(s[1..])
    ensures s[0] == '\\' ==> |s| >= 2
    ensures s[0] == '\\' && s[1] != 'u' ==> Escaped(s[2..]) && Unescaped(s) == [UnescapeChar(s[1])] + Unescaped(s[2..])
    ensures s[0] == '\\' && s[1] == 'u' ==>
              && |s| >= 6 && IsHex(s[2]) && IsHex(s[3]) && IsHex(s[4]) && IsHex(s[5])
              && Escaped(s[6..]) && Unescaped(s) == Utf8(CodeOf(s[2], s[3], s[4], s[5])) + Unescaped(s[6..])
  {
    hide CodeOf, Utf8;
  }

  lemma NothingUnescaped()
    ensures Unescaped("") == ""
  {
  }

  // ---------------------------------------------------------------- growing lists of results

  /** What has been read before the rest of a list. */
  function Behind<T>(before: seq<T>, rest: Option<Parsed<seq<T>>>): Option<Parsed<seq<T>>> {
    if rest.None? then None else Some(Parsed(before + rest.value.v, rest.value.end))
  }

  lemma BehindBoth<T>(a: seq<T>, b: seq<T>, rest: Option<Parsed<seq<T>>>)
    ensures Behind(a, Behind(b, rest)) == Behind(a + b, rest)
    ensures Behind([], rest) == rest
  {
    if rest.Some? {
      assert a + (b + rest.value.v) == (a + b) + rest.value.v;
      assert [] + rest.value.v == rest.value.v;
    }
  }

  /** One item, and what the character behind it makes of the list. */
  lemma ItemsFrom(text: string, i: nat, depth: nat)
    requires i <= |text|
    ensures var x := ParseValue(text, i, depth + 1);
            if x.None? then ParseItems(text, i, depth).None?
            else
              var j := SkipBlanks(text, x.value.end);
              j <= |text| &&
              if CharAt(text, j) == ']' then ParseItems(text, i, depth) == Behind([x.value.v], Some(Parsed([], j + 1)))
              else if CharAt(text, j) != ',' then ParseItems(text, i, depth).None?
              else
                && SkipBlanks(text, j + 1) <= |text|
                && ParseItems(text, i, depth) == Behind([x.value.v], ParseItems(text, SkipBlanks(text, j + 1), depth))
  {
    hide ParseValue, SkipBlanks;
    var x := ParseValue(text, i, depth + 1);
    if x.Some? { assert [x.value.v] + [] == [x.value.v]; }
  }

  lemma EntriesFrom(text: string, i: nat, depth: nat)
    requires i <= |text|
    ensures var x := ParseEntry(text, i, depth);
            if x.None? then ParseEntries(text, i, depth).None?
            else
              var j := SkipBlanks(text, x.value.end);
              j <= |text| &&
              if CharAt(text, j) == '}' then ParseEntries(text, i, depth) == Behind([x.value.v], Some(Parsed([], j + 1)))
              else if CharAt(text, j) != ',' then ParseEntries(text, i, depth).None?
              else
                && SkipBlanks(text, j + 1) <= |text|
                && ParseEntries(text, i, depth) == Behind([x.value.v], ParseEntries(text, SkipBlanks(text, j + 1), depth))
  {
    hide ParseEntry, SkipBlanks;
    var x := ParseEntry(text, i, depth);
    if x.Some? { assert [x.value.v] + [] == [x.value.v]; }
  }

  lemma SpelledAt(text: string, i: nat, word: string, n: nat)
    ensures Spells(text, i, word) && n < |word| ==> i + n < |text| && text[i + n] == word[n]
  {
  }

  lemma Keyed(buf: seq<char>, v: RValue, keyStart: nat, keyEnd: nat, lo: nat, hi: nat)
    ensures Meaning(buf, v.(keyStart := keyStart, keyEnd := keyEnd)) == Meaning(buf, v)
    ensures Inside(v, lo, hi) ==> Inside(v.(keyStart := keyStart, keyEnd := keyEnd), lo, hi)
  {
  }

  lemma NothingMeant(buf: seq<char>)
    ensures ItemMeanings(buf, []) == [] && EntryMeanings(buf, []) == []
  {
  }

  /** A string value whose characters can be unescaped where they are. */
  ghost predicate Live(buf: seq<char>, v: RValue) {
    v.kind.KString? && 0 < v.start <= v.end < |buf| && (buf[v.start - 1] != '\0' ==> Escaped(buf[v.start..v.end]))
  }

  lemma NextLetter(text: string, i: nat, word: string, n: nat)
    requires n < |word| && i + n < |text| && text[i..i + n] == word[..n] && text[i + n] == word[n]
    ensures text[i..i + (n + 1)] == word[..n + 1]
  {
    assert text[i..i + (n + 1)] == text[i..i + n] + [text[i + n]];
    assert word[..n + 1] == word[..n] + [word[n]];
  }

  /** The items of a list or an object in an array that grows by doubling, by at most 60000 places at a time. */
  class Elements {
    var cells: array<RValue>
    var lsize: nat
    var lremain: nat

    ghost predicate Valid()
      reads this
    {
      lsize + lremain == cells.Length && lremain <= 60000
    }

    ghost function Contents(): seq<RValue>
      requires Valid()
      reads this, cells
    {
      cells[..lsize]
    }

    function Items(): (r: seq<RValue>)
      requires Valid()
      reads this, cells
      ensures r == Contents()
    {
      cells[..lsize]
    }

    constructor ()
      ensures Valid() && Contents() == [] && fresh(cells)
    {
      cells := new RValue[0];
      lsize, lremain := 0, 0;
    }

    /** How many places there are after growing from `lsize`. */
    function NewSize(): (r: nat)
      reads this
      ensures lsize < r <= lsize + 60000
      ensures r == if lsize < 2 then 4 else if lsize <= 60000 then 2 * lsize else lsize + 60000
    {
      var doubled := if lsize > 60000 then lsize + 60000 else lsize + lsize;
      if doubled < 4 then 4 else doubled
    }

    /** Puts `v` behind the items; the room that is left always fits the 16 bits it is kept in. */
    method EmplaceBack(v: RValue)
      requires Valid()
      modifies this, cells
      ensures Valid() && (cells == old(cells) || fresh(cells))
      ensures Contents() == old(Contents()) + [v]
    {
      if lremain == 0 {
        var newSize := NewSize();
        var p := new RValue[newSize](_ => v);
        var i := 0;
        while i < lsize
          invariant 0 <= i <= lsize && p[..i] == cells[..i]
          modifies p
        {
          p[i] := cells[i];
          i := i + 1;
        }
        cells := p;
        lremain := newSize - lsize;
      }
      cells[lsize] := v;
      lsize := lsize + 1;
      lremain := lremain - 1;
    }
  }

  class Parser {
    /** The text that is parsed; `buf` is a copy of it with a NUL behind, overwritten as far as it has been read. */
    ghost const text: string
    const buf: array<char>
    var data: nat

    ghost predicate Ready()
      reads this, buf
    {
      && buf.Length == |text| + 1 && data <= |text|
      && forall k :: data <= k <= |text| ==> buf[k] == CharAt(text, k)
    }

    constructor (s: string)
      ensures text == s && data == 0 && Ready() && fresh(buf)
    {
      text := s;
      buf := new char[|s| + 1](i => if 0 <= i < |s| then s[i] else '\0');
      data := 0;
    }

    method Consume(c: char) returns (ok: bool)
      requires Ready() && c != '\0'
      modifies this`data
      ensures Ready() && ok == (CharAt(text, old(data)) == c) && data == if ok then old(data) + 1 else old(data)
    {
      if buf[data] != c { return false; }
      data := data + 1;
      return true;
    }

    method SkipWs()
      requires Ready()
      modifies this`data
      ensures Ready() && data == SkipBlanks(text, old(data))
    {
      while buf[data] == ' ' || buf[data] == '\t' || buf[data] == '\r' || buf[data] == '\n'
        invariant Ready() && SkipBlanks(text, data) == SkipBlanks(text, old(data))
        decreases |text| - data
      {
        data := data + 1;
      }
    }

    // -------------------------------------------------------------- strings

    /** Steps over one escape. */
    method SkipEscape() returns (ok: bool)
      requires Ready() && CharAt(text, data) == '\\'
      modifies this`data
      ensures Ready() && StringEnd(text, old(data)) == if ok then StringEnd(text, data) else None
      ensures old(data) < data && (ok ==> '\\' in text[old(data)..data])
    {
      ghost var at := data;
      data := data + 1;
      var c := buf[data];
      if c == 'u' {
        if !(IsHex(buf[data + 1]) && IsHex(buf[data + 2]) && IsHex(buf[data + 3]) && IsHex(buf[data + 4])) { return false; }
        data := data + 5;
      } else if Escapable(c) {
        data := data + 1;
      } else {
        return false;
      }
      assert text[at..data][0] == '\\';
      return true;
    }

    /** Looks for the closing quote. */
    method ScanString() returns (ok: bool, hasEscaping: bool)
      requires Ready()
      modifies this`data
      ensures Ready() && StringEnd(text, old(data)) == if ok then Some(data) else None
      ensures old(data) <= data && (ok ==> (hasEscaping <==> '\\' in text[old(data)..data]))
    {
      hasEscaping := false;
      ghost var start := data;
      while buf[data] != '"'
        invariant Ready() && start <= data && StringEnd(text, data) == StringEnd(text, start)
        invariant hasEscaping <==> '\\' in text[start..data]
        decreases |text| - data
      {
        ghost var at := data;
        if buf[data] == '\0' {
          return false, hasEscaping;
        } else if buf[data] != '\\' {
          data := data + 1;
        } else {
          hasEscaping := true;
          var valid := SkipEscape();
          if !valid { return false, hasEscaping; }
        }
        assert text[start..data] == text[start..at] + text[at..data];
      }
      return true, hasEscaping;
    }

    /** Reads a string, leaving a NUL for its closing quote and, for the opening one, whether it holds escapes. */
    method DecodeString() returns (v: RValue)
      requires Ready()
      modifies this`data, buf
      ensures v.error <==> CharAt(text, old(data)) != '"' || StringEnd(text, old(data) + 1).None?
      ensures !v.error ==> Ready() && v == Simple(KString, old(data) + 1, StringEnd(text, old(data) + 1).value)
      ensures !v.error ==> data == v.end + 1 && Live(buf[..], v)
      ensures !v.error ==> TextOf(buf[..], v.start, v.end) == StringAt(text, old(data) + 1)
      ensures forall k :: 0 <= k < old(data) ==> buf[k] == old(buf[k])
    {
      hide StringEnd, StringAt, TextOf, Escaped;
      var quoted := Consume('"');
      if !quoted { return FAILED; }
      var start := data;
      var closed, hasEscaping := ScanString();
      if !closed { return FAILED; }
      MarkString(start, hasEscaping);
      return Simple(KString, start, data - 1);
    }

    method MarkString(start: nat, hasEscaping: bool)
      requires Ready() && 0 < start <= data && StringEnd(text, start) == Some(data)
      requires hasEscaping <==> '\\' in text[start..data]
      requires forall k :: start <= k < data ==> buf[k] == CharAt(text, k)
      modifies this`data, buf
      ensures Ready() && data == old(data) + 1 && Live(buf[..], Simple(KString, start, old(data)))
      ensures TextOf(buf[..], start, old(data)) == StringAt(text, start)
      ensures forall k :: 0 <= k < start - 1 ==> buf[k] == old(buf[k])
    {
      ghost var raw := text[start..data];
      StringEndEscaped(text, start);
      UnescapeShortens(raw);
      hide Escaped, Unescaped, StringEnd;
      assert buf[start..data] == raw;
      buf[data] := '\0';
      buf[start - 1] := if hasEscaping then '\U{1}' else '\0';
      assert buf[..][start..data] == raw;
      data := data + 1;
    }

    method PutUtf8(tail: nat, code: int) returns (after: nat)
      requires 0 <= code < 0x10000 && tail + 3 <= buf.Length
      modifies buf
      ensures tail < after <= tail + 3 && buf[tail..after] == Utf8(code)
      ensures forall k :: 0 <= k < buf.Length && !(tail <= k < after) ==> buf[k] == old(buf[k])
    {
      if code >= 0x800 {
        buf[tail] := (0xE0 + code / 0x1000) as char;
        buf[tail + 1] := (0x80 + code / 0x40 % 0x40) as char;
        buf[tail + 2] := (0x80 + code % 0x40) as char;
        after := tail + 3;
      } else if code >= 0x80 {
        buf[tail] := (0xC0 + code / 0x40) as char;
        buf[tail + 1] := (0x80 + code % 0x40) as char;
        after := tail + 2;
      } else {
        buf[tail] := code as char;
        after := tail + 1;
      }
    }

    /** Undoes the escape or copies the character at `head`. */
    method UnescapeOne(head: nat, tail: nat, end: nat) returns (head': nat, tail': nat)
      requires tail <= head < end < buf.Length && Escaped(buf[head..end])
      modifies buf
      ensures head < head' <= end && tail < tail' <= head' && Escaped(old(buf[head'..end]))
      ensures buf[tail..tail'] + Unescaped(old(buf[head'..end])) == Unescaped(old(buf[head..end]))
      ensures forall k :: 0 <= k < buf.Length && !(tail <= k < tail') ==> buf[k] == old(buf[k])
    {
      hide Escaped, Unescaped, Utf8;
      ghost var rest := buf[head..end];
      EscapeHead(rest);
      if buf[head] == '\\' {
        head' := head + 1;
        if buf[head'] == 'u' {
          assert rest[6..] == buf[head + 6..end];
          var code := CodeOf(buf[head' + 1], buf[head' + 2], buf[head' + 3], buf[head' + 4]);
          tail' := PutUtf8(tail, code);
          head' := head' + 4;
        } else {
          assert rest[2..] == buf[head + 2..end];
          buf[tail] := UnescapeChar(buf[head']);
          tail' := tail + 1;
        }
        head' := head' + 1;
      } else {
        assert rest[1..] == buf[head + 1..end];
        buf[tail] := buf[head];
        tail' := tail + 1;
        head' := head + 1;
      }
    }

    /** Undoes the escapes between `start` and `end`: what is written stays behind what is still to be read. */
    method UnescapeAll(start: nat, end: nat) returns (tail: nat)
      requires start <= end < buf.Length && Escaped(buf[start..end])
      modifies buf
      ensures start <= tail <= end && buf[start..tail] == Unescaped(old(buf[start..end]))
      ensures forall k :: 0 <= k < buf.Length && !(start <= k < tail) ==> buf[k] == old(buf[k])
    {
      hide Escaped, Unescaped;
      var head := start;
      tail := start;
      while head != end
        invariant start <= tail <= head <= end && Escaped(old(buf[..])[head..end])
        invariant buf[start..tail] + Unescaped(old(buf[..])[head..end]) == Unescaped(old(buf[start..end]))
        invariant forall k :: 0 <= k < buf.Length && !(start <= k < tail) ==> buf[k] == old(buf[k])
        decreases end - head
      {
        ghost var done, from, before := buf[start..tail], tail, buf[..];
        assert buf[head..end] == old(buf[..])[head..end];
        head, tail := UnescapeOne(head, tail, end);
        assert before[head..end] == old(buf[..])[head..end];
        assert buf[start..tail] == done + buf[from..tail];
      }
      assert Unescaped(old(buf[..])[head..end]) == "" by { NothingUnescaped(); }
    }

    /** The text of a string value, its escapes undone in place. Reading a value again that was copied before its escapes
        were undone gives the same text exactly if there were none. */
    method Unescape(v: RValue) returns (w: RValue)
      requires Live(buf[..], v)
      modifies buf
      ensures w == v.(end := w.end) && w.start <= w.end <= v.end && Live(buf[..], w)
      ensures buf[v.start - 1] == '\0' && buf[w.start..w.end] == old(TextOf(buf[..], v.start, v.end))
      ensures forall k :: 0 <= k < buf.Length && !(v.start - 1 <= k <= v.end) ==> buf[k] == old(buf[k])
      ensures TextOf(buf[..], v.start, v.end) == old(TextOf(buf[..], v.start, v.end))
         <==> old(buf[v.start - 1]) == '\0' || '\\' !in old(buf[v.start..v.end])
    {
      hide Escaped, Unescaped;
      if buf[v.start - 1] == '\0' { return v; }
      ghost var raw := buf[v.start..v.end];
      assert buf[..][v.start..v.end] == raw;
      var tail := UnescapeAll(v.start, v.end);
      UnescapeShortens(raw);
      buf[tail] := '\0';
      buf[v.start - 1] := '\0';
      assert buf[v.start..tail] == Unescaped(raw);
      if tail == v.end { assert buf[..][v.start..v.end] == Unescaped(raw); }
      w := v.(end := tail);
    }

    // -------------------------------------------------------------- values

    /** `v` is what the grammar gives for the characters from `lo` to where the parser now stands. */
    ghost predicate Read(v: RValue, lo: nat, expected: Option<Parsed<Value>>)
      reads this, buf
    {
      if expected.None? then v.error
      else !v.error && Ready() && data == expected.value.end && Inside(v, lo, data) && Meaning(buf[..], v) == expected.value.v
    }

    method DecodeNumber() returns (v: RValue)
      requires Ready()
      modifies this`data
      ensures var e := NumberEnd(text, old(data), Minus);
              if e.None? then v.error else Ready() && data == e.value && v == Simple(KNumber, old(data), e.value)
    {
      var start, state := data, Minus;
      while !state.Invalid?
        invariant Ready() && start <= data && NumberEnd(text, data, state) == NumberEnd(text, start, Minus)
        decreases |text| - data
      {
        var c := buf[data];
        if !NumberChar(c) {
          return if Accepting(state) then Simple(KNumber, start, data) else FAILED;
        }
        state := NumberStep(state, c);
        if '1' <= c <= '9' {
          while '0' <= buf[data + 1] <= '9'
            invariant Ready() && start <= data < |text| && NumberEnd(text, data + 1, state) == NumberEnd(text, start, Minus)
            decreases |text| - data
          {
            data := data + 1;
          }
        }
        data := data + 1;
      }
      return FAILED;
    }

    method DecodeWord(word: string, kind: Kind) returns (v: RValue)
      requires Ready() && |word| > 0 && forall c <- word :: c != '\0'
      modifies this`data
      ensures Ready() && v == if Spells(text, old(data), word) then Simple(kind, 0, 0) else FAILED
      ensures data == if Spells(text, old(data), word) then old(data) + |word| else old(data)
    {
      var n := 0;
      while n < |word| && buf[data + n] == word[n]
        invariant 0 <= n <= |word| && data + n <= |text| && text[data..data + n] == word[..n]
        modifies {}
      {
        assert word[n] in word;
        NextLetter(text, data, word, n);
        n := n + 1;
      }
      if n < |word| {
        SpelledAt(text, data, word, n);
        return FAILED;
      }
      data := data + n;
      return Simple(kind, 0, 0);
    }

    method DecodeValue(depth: nat) returns (v: RValue)
      requires Ready()
      modifies this`data, buf
      ensures Read(v, old(data), ParseValue(text, old(data), depth))
      ensures forall k :: 0 <= k < old(data) ==> buf[k] == old(buf[k])
      decreases |text| - data, 1
    {
      hide ParseList, ParseObject, StringEnd, NumberEnd;
      var c := buf[data];
      if c == '[' {
        v := DecodeList(depth + 1);
      } else if c == '{' {
        v := DecodeObject(depth + 1);
      } else if c == '"' {
        v := DecodeString();
      } else if c == 't' {
        v := DecodeWord("true", KTrue);
      } else if c == 'f' {
        v := DecodeWord("false", KFalse);
      } else if c == 'n' {
        v := DecodeWord("null", KNull);
      } else {
        v := DecodeNumber();
        assert !v.error ==> buf[..][v.start..v.end] == text[v.start..v.end];
      }
    }

    method DecodeList(depth: nat) returns (v: RValue)
      requires Ready() && CharAt(text, data) == '['
      modifies this`data, buf
      ensures Read(v, old(data), ParseList(text, old(data), depth))
      ensures forall k :: 0 <= k < old(data) ==> buf[k] == old(buf[k])
      decreases |text| - data, 0
    {
      var bracket := Consume('[');
      if !bracket || depth > MAX_DEPTH { return FAILED; }
      SkipWs();
      if buf[data] == ']' {
        data := data + 1;
        return RValue(KList, 0, 0, 0, 0, [], false);
      }
      hide ParseItems, ItemMeanings, SkipBlanks, Inside;
      ghost var first := data;
      var ok, items := DecodeItems(depth);
      if !ok { return FAILED; }
      v := RValue(KList, 0, 0, 0, 0, items, false);
      AllInsideMore(items, false, first, data, old(data), data);
      NestedInside(v, old(data), data);
    }

    lemma Within()
      requires Ready()
      ensures data <= |text| < buf.Length && buf[data] == CharAt(text, data)
    {
    }

    /** One character is taken. */
    method Advance()
      requires Ready() && buf[data] != '\0'
      modifies this`data
      ensures Ready() && data == old(data) + 1
    {
      data := data + 1;
    }

    /** The items of a list and its closing bracket: the loop of `decode_list`. */
    method DecodeItems(depth: nat) returns (ok: bool, items: seq<RValue>)
      requires Ready()
      modifies this`data, buf
      ensures ok == ParseItems(text, old(data), depth).Some?
      ensures ok ==> Ready() && data == ParseItems(text, old(data), depth).value.end && AllInside(items, false, old(data), data)
      ensures ok ==> ItemMeanings(buf[..], items) == ParseItems(text, old(data), depth).value.v
      ensures forall k :: 0 <= k < old(data) ==> buf[k] == old(buf[k])
      decreases |text| - data, 2
    {
      hide SkipBlanks, ParseValue, ParseItems, ItemMeanings, Inside, Meaning, Elements.Valid, Elements.Contents, Ready;
      Within();
      items := [];
      var l := new Elements();
      ghost var xs: seq<RValue>, hi: nat := [], data;
      NothingMeant(buf[..]);
      BehindBoth([], [], ParseItems(text, data, depth));
      while true
        invariant Ready() && data <= |text| < buf.Length && old(data) <= hi <= data && AllInside(xs, false, old(data), hi)
        invariant ParseItems(text, old(data), depth) == Behind(ItemMeanings(buf[..], xs), ParseItems(text, data, depth))
        invariant fresh(l) && fresh(l.cells) && l.Valid() && l.Contents() == xs
        invariant forall k :: 0 <= k < old(data) ==> buf[k] == old(buf[k])
        decreases |text| - data
      {
        ghost var at, before := data, buf[..];
        ItemsFrom(text, data, depth);
        var x := DecodeValue(depth + 1);
        if x.error { return false, items; }
        Within();
        AllInsideMore(xs, false, old(data), hi, old(data), at);
        hi := data;
        Appended(before, buf[..], xs, x, false, old(data), at, hi);
        ghost var values := ItemMeanings(before, xs);
        l.EmplaceBack(x);
        xs := xs + [x];
        SkipWs();
        Within();
        if buf[data] == ']' {
          BehindBoth(values, [Meaning(buf[..], x)], Some(Parsed([], data + 1)));
          Advance();
          AllInsideMore(xs, false, old(data), hi, old(data), data);
          return true, l.Items();
        }
        var comma := Consume(',');
        if !comma { return false, items; }
        Within();
        SkipWs();
        Within();
        BehindBoth(values, [Meaning(buf[..], x)], ParseItems(text, data, depth));
      }
    }

    method DecodeObject(depth: nat) returns (v: RValue)
      requires Ready() && CharAt(text, data) == '{'
      modifies this`data, buf
      ensures Read(v, old(data), ParseObject(text, old(data), depth))
      ensures forall k :: 0 <= k < old(data) ==> buf[k] == old(buf[k])
      decreases |text| - data, 0
    {
      var brace := Consume('{');
      if !brace || depth > MAX_DEPTH { return FAILED; }
      SkipWs();
      if buf[data] == '}' {
        data := data + 1;
        return RValue(KObject, 0, 0, 0, 0, [], false);
      }
      hide ParseEntries, EntryMeanings, SkipBlanks, Inside;
      ghost var first := data;
      var ok, items := DecodeEntries(depth);
      if !ok { return FAILED; }
      v := RValue(KObject, 0, 0, 0, 0, items, false);
      AllInsideMore(items, true, first, data, old(data), data);
      NestedInside(v, old(data), data);
    }

    /** One entry of an object. The key is unescaped at once, the value behind it only when it is asked for. */
    method DecodeEntry(depth: nat) returns (v: RValue)
      requires Ready()
      modifies this`data, buf
      ensures v.error == ParseEntry(text, old(data), depth).None?
      ensures !v.error ==> Ready() && data == ParseEntry(text, old(data), depth).value.end && Inside(v, old(data), data)
      ensures !v.error ==> old(data) <= v.keyStart <= v.keyEnd <= data
      ensures !v.error ==> EntryMeaning(buf[..], v) == ParseEntry(text, old(data), depth).value.v
      ensures forall k :: 0 <= k < old(data) ==> buf[k] == old(buf[k])
      decreases |text| - data, 2
    {
      hide SkipBlanks, ParseValue, StringEnd, StringAt, Inside, Meaning;
      var ok, keyStart, keyEnd := DecodeKey();
      if !ok { return FAILED; }
      ghost var at, name := data, buf[keyStart..keyEnd];
      v := DecodeValue(depth + 1);
      if v.error { return v; }
      InsideMore(v, at, data, old(data), data);
      Keyed(buf[..], v, keyStart, keyEnd, old(data), data);
      v := v.(keyStart := keyStart, keyEnd := keyEnd);
      assert buf[..][keyStart..keyEnd] == name;
    }

    /** A key and its colon: the characters of the key are unescaped where they are. */
    method DecodeKey() returns (ok: bool, keyStart: nat, keyEnd: nat)
      requires Ready()
      modifies this`data, buf
      ensures var e := StringEnd(text, old(data) + 1);
              ok <==> CharAt(text, old(data)) == '"' && e.Some? && CharAt(text, SkipBlanks(text, e.value + 1)) == ':'
      ensures ok ==>
                && Ready() && data == SkipBlanks(text, SkipBlanks(text, StringEnd(text, old(data) + 1).value + 1) + 1)
                && old(data) <= keyStart <= keyEnd < data && buf[keyStart..keyEnd] == StringAt(text, old(data) + 1)
      ensures forall k :: 0 <= k < old(data) ==> buf[k] == old(buf[k])
    {
      hide SkipBlanks, StringEnd, StringAt, TextOf;
      ok, keyStart, keyEnd := false, 0, 0;
      var t := DecodeString();
      if t.error { return; }
      SkipWs();
      var colon := Consume(':');
      if !colon { return; }
      var key := Unescape(t);
      SkipWs();
      return true, key.start, key.end;
    }

    /** The entries of an object and its closing brace: the loop of `decode_object`. */
    method DecodeEntries(depth: nat) returns (ok: bool, items: seq<RValue>)
      requires Ready()
      modifies this`data, buf
      ensures ok == ParseEntries(text, old(data), depth).Some?
      ensures ok ==> Ready() && data == ParseEntries(text, old(data), depth).value.end && AllInside(items, true, old(data), data)
      ensures ok ==> EntryMeanings(buf[..], items) == ParseEntries(text, old(data), depth).value.v
      ensures forall k :: 0 <= k < old(data) ==> buf[k] == old(buf[k])
      decreases |text| - data, 3
    {
      hide SkipBlanks, ParseEntry, ParseEntries, EntryMeanings, Inside, Meaning, EntryMeaning, Elements.Valid, Elements.Contents, Ready;
      Within();
      items := [];
      var l := new Elements();
      ghost var xs: seq<RValue>, hi: nat := [], data;
      NothingMeant(buf[..]);
      BehindBoth([], [], ParseEntries(text, data, depth));
      while true
        invariant Ready() && data <= |text| < buf.Length && old(data) <= hi <= data && AllInside(xs, true, old(data), hi)
        invariant ParseEntries(text, old(data), depth) == Behind(EntryMeanings(buf[..], xs), ParseEntries(text, data, depth))
        invariant fresh(l) && fresh(l.cells) && l.Valid() && l.Contents() == xs
        invariant forall k :: 0 <= k < old(data) ==> buf[k] == old(buf[k])
        decreases |text| - data
      {
        ghost var at, before := data, buf[..];
        EntriesFrom(text, data, depth);
        var x := DecodeEntry(depth);
        if x.error { return false, items; }
        Within();
        AllInsideMore(xs, true, old(data), hi, old(data), at);
        hi := data;
        Appended(before, buf[..], xs, x, true, old(data), at, hi);
        ghost var values := EntryMeanings(before, xs);
        l.EmplaceBack(x);
        xs := xs + [x];
        SkipWs();
        Within();
        if buf[data] == '}' {
          BehindBoth(values, [EntryMeaning(buf[..], x)], Some(Parsed([], data + 1)));
          Advance();
          AllInsideMore(xs, true, old(data), hi, old(data), data);
          return true, l.Items();
        }
        var comma := Consume(',');
        if !comma { return false, items; }
        Within();
        SkipWs();
        Within();
        BehindBoth(values, [EntryMeaning(buf[..], x)], ParseEntries(text, data, depth));
      }
    }

    /** Reads the whole text. */
    method Parse() returns (v: RValue)
      requires Ready() && data == 0
      modifies this`data, buf
      ensures var expected := JsonGrammar.Parse(text);
              if expected.None? then v.error else !v.error && Inside(v, 0, |text|) && Meaning(buf[..], v) == expected.value
    {
      SkipWs();
      ghost var at := data;
      v := DecodeValue(0);
      if v.error { return; }
      InsideMore(v, at, data, 0, |text|);
      SkipWs();
      if buf[data] != '\0' { v := v.(error := true); }
    }
  }

  /** load: the value read from a copy of `s`, which `parser` keeps. */
  method Load(s: string) returns (v: RValue, parser: Parser)
    ensures fresh(parser) && fresh(parser.buf) && parser.text == s
    ensures var expected := Parse(s);
            if expected.None? then v.error
            else !v.error && Inside(v, 0, |s|) && |s| < parser.buf.Length && Meaning(parser.buf[..], v) == expected.value
  {
    parser := new Parser(s);
    v := parser.Parse();
  }
}
