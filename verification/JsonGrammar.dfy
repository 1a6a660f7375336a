/** What the parser of `json.h` makes of a text that a NUL ends: the value it reads, or nothing where it reports an error. */
module JsonGrammar {
  import opened Wrappers
  import opened JsonText

  /** A value and where the text behind it starts. */
  datatype Parsed<+T> = Parsed(v: T, end: nat)

  const MAX_DEPTH := 10000

  function CharAt(text: string, i: nat): char {
    if i < |text| then text[i] else '\0'
  }

  predicate Blank(c: char) {
    c == ' ' || c == '\t' || c == '\r' || c == '\n'
  }

  function SkipBlanks(text: string, i: nat): (r: nat)
    ensures i <= r && !Blank(CharAt(text, r)) && (i <= |text| ==> r <= |text|)
    ensures forall k :: i <= k < r ==> Blank(CharAt(text, k))
    decreases |text| - i
  {
    if Blank(CharAt(text, i)) then SkipBlanks(text, i + 1) else i
  }

  // ---------------------------------------------------------------- strings

  predicate IsHex(c: char) {
    '0' <= c <= '9' || 'a' <= c <= 'f' || 'A' <= c <= 'F'
  }

  predicate FourHex(text: string, i: nat) {
    IsHex(CharAt(text, i)) && IsHex(CharAt(text, i + 1)) && IsHex(CharAt(text, i + 2)) && IsHex(CharAt(text, i + 3))
  }

  predicate Escapable(c: char) {
    c == '"' || c == '\\' || c == '/' || c == 'b' || c == 'f' || c == 'n' || c == 'r' || c == 't'
  }

  /** Where the string whose characters start at `i` has its closing quote. */
  function StringEnd(text: string, i: nat): (r: Option<nat>)
    ensures r.Some? ==> i <= r.value < |text| && text[r.value] == '"'
    decreases |text| - i
  {
    var c := CharAt(text, i);
    if c == '"' then Some(i)
    else if c == '\0' then None
    else if c != '\\' then StringEnd(text, i + 1)
    else
      var e := CharAt(text, i + 1);
      if e == 'u' then if FourHex(text, i + 2) then StringEnd(text, i + 6) else None
      else if Escapable(e) then StringEnd(text, i + 2)
      else None
  }

  function FromHex(c: char): int {
    if c >= 'a' then c as int - 'a' as int + 10
    else if c >= 'A' then c as int - 'A' as int + 10
    else c as int - '0' as int
  }

  /** The UTF-8 bytes of a code below 2^16. */
  function Utf8(code: int): (r: string)
    requires 0 <= code < 0x10000
  {
    if code >= 0x800 then
      [(0xE0 + code / 0x1000) as char, (0x80 + code / 0x40 % 0x40) as char, (0x80 + code % 0x40) as char]
    else if code >= 0x80 then [(0xC0 + code / 0x40) as char, (0x80 + code % 0x40) as char]
    else [code as char]
  }

  function CodeOf(a: char, b: char, c: char, d: char): (r: int)
    requires IsHex(a) && IsHex(b) && IsHex(c) && IsHex(d)
    ensures 0 <= r < 0x10000
  {
    FromHex(a) * 0x1000 + FromHex(b) * 0x100 + FromHex(c) * 0x10 + FromHex(d)
  }

  function UnescapeChar(c: char): char {
    match c
    case 'b' => '\U{8}'
    case 'f' => '\U{C}'
    case 'n' => '\n'
    case 'r' => '\r'
    case 't' => '\t'
    case _ => c
  }

  /** A string all of whose escapes are complete. */
  predicate Escaped(s: string) {
    if s == "" then true
    else if s[0] != '\\' then Escaped(s[1..])
    else if |s| == 1 then false
    else if s[1] == 'u' then |s| >= 6 && FourHex(s, 2) && Escaped(s[6..])
    else Escapable(s[1]) && Escaped(s[2..])
  }

  /** What an escaped string stands for. */
  function Unescaped(s: string): (r: string)
    requires Escaped(s)
    ensures |r| <= |s|
  {
    if s == "" then ""
    else if s[0] != '\\' then [s[0]] + Unescaped(s[1..])
    else if s[1] == 'u' then Utf8(CodeOf(s[2], s[3], s[4], s[5])) + Unescaped(s[6..])
    else [UnescapeChar(s[1])] + Unescaped(s[2..])
  }

  lemma {:induction false} StringEndEscaped(text: string, i: nat)
    requires StringEnd(text, i).Some?
    ensures Escaped(text[i..StringEnd(text, i).value])
    decreases |text| - i
  {
    var e := StringEnd(text, i).value;
    var s := text[i..e];
    if text[i] == '"' {
    } else if text[i] != '\\' {
      StringEndEscaped(text, i + 1);
      assert s[1..] == text[i + 1..e];
    } else if text[i + 1] == 'u' {
      StringEndEscaped(text, i + 6);
      assert s[6..] == text[i + 6..e];
    } else {
      StringEndEscaped(text, i + 2);
      assert s[2..] == text[i + 2..e];
    }
  }

  // ---------------------------------------------------------------- numbers

  datatype NumberState = Minus | AfterMinus | ZeroFirst | IntegerDigits | DigitsAfterPoints | E | DigitsAfterE | Invalid

  predicate NumberChar(c: char) {
    '0' <= c <= '9' || c == '.' || c == '-' || c == '+' || c == 'e' || c == 'E'
  }

  /** The state tables of `decode_number`, one string of the source for each arm. */
  function NumberStep(s: NumberState, c: char): NumberState
    requires NumberChar(c)
  {
    if s.Invalid? then Invalid
    else if c == '0' then
      match s
      case Minus => ZeroFirst
      case AfterMinus => ZeroFirst
      case ZeroFirst => Invalid
      case E => DigitsAfterE
      case _ => s
    else if '1' <= c <= '9' then
      match s
      case Minus => IntegerDigits
      case AfterMinus => IntegerDigits
      case ZeroFirst => Invalid
      case E => DigitsAfterE
      case _ => s
    else if c == '.' then if s.ZeroFirst? then DigitsAfterPoints else if s.IntegerDigits? then DigitsAfterPoints else Invalid
    else if c == '-' then if s.Minus? then AfterMinus else if s.E? then DigitsAfterE else Invalid
    else if c == '+' then if s.E? then DigitsAfterE else Invalid
    else if s.IntegerDigits? || s.DigitsAfterPoints? then E else Invalid
  }

  predicate Accepting(s: NumberState) {
    s.ZeroFirst? || s.IntegerDigits? || s.DigitsAfterPoints? || s.DigitsAfterE?
  }

  /** Where the number that is being read ends. */
  function NumberEnd(text: string, i: nat, s: NumberState): (r: Option<nat>)
    ensures r.Some? ==> i <= r.value && (s.Minus? ==> i < r.value) && (i <= |text| ==> r.value <= |text|)
    decreases |text| - i
  {
    var c := CharAt(text, i);
    if s.Invalid? then None
    else if NumberChar(c) then NumberEnd(text, i + 1, NumberStep(s, c))
    else if Accepting(s) then Some(i)
    else None
  }

  // ---------------------------------------------------------------- values

  predicate Spells(text: string, i: nat, word: string) {
    i + |word| <= |text| && text[i..i + |word|] == word
  }

  function ParseValue(text: string, i: nat, depth: nat): (r: Option<Parsed<Value>>)
    requires i <= |text|
    ensures r.Some? ==> i < r.value.end <= |text|
    decreases |text| - i, 2
  {
    var c := CharAt(text, i);
    if c == '[' then ParseList(text, i, depth + 1)
    else if c == '{' then ParseObject(text, i, depth + 1)
    else if c == '"' then
      var e := StringEnd(text, i + 1);
      if e.None? then None else Some(Parsed(String(StringAt(text, i + 1)), e.value + 1))
    else if c == 't' then if Spells(text, i, "true") then Some(Parsed(True, i + 4)) else None
    else if c == 'f' then if Spells(text, i, "false") then Some(Parsed(False, i + 5)) else None
    else if c == 'n' then if Spells(text, i, "null") then Some(Parsed(Null, i + 4)) else None
    else
      var e := NumberEnd(text, i, Minus);
      if e.None? then None else Some(Parsed(Number(text[i..e.value]), e.value))
  }

  /** The string whose characters start at `i`. */
  function StringAt(text: string, i: nat): string
    requires StringEnd(text, i).Some?
  {
    StringEndEscaped(text, i);
    Unescaped(text[i..StringEnd(text, i).value])
  }

  function ParseList(text: string, i: nat, depth: nat): (r: Option<Parsed<Value>>)
    requires i < |text| && text[i] == '['
    ensures r.Some? ==> i < r.value.end <= |text|
    decreases |text| - i, 1
  {
    if depth > MAX_DEPTH then None
    else
      var j := SkipBlanks(text, i + 1);
      if CharAt(text, j) == ']' then Some(Parsed(List([]), j + 1))
      else
        var items := ParseItems(text, j, depth);
        if items.None? then None else Some(Parsed(List(items.value.v), items.value.end))
  }

  /** The items of a list up to and with its closing bracket. */
  function ParseItems(text: string, i: nat, depth: nat): (r: Option<Parsed<seq<Value>>>)
    requires i <= |text|
    ensures r.Some? ==> i < r.value.end <= |text|
    decreases |text| - i, 3
  {
    var x := ParseValue(text, i, depth + 1);
    if x.None? then None
    else
      var j := SkipBlanks(text, x.value.end);
      if CharAt(text, j) == ']' then Some(Parsed([x.value.v], j + 1))
      else if CharAt(text, j) != ',' then None
      else
        var rest := ParseItems(text, SkipBlanks(text, j + 1), depth);
        if rest.None? then None else Some(Parsed([x.value.v] + rest.value.v, rest.value.end))
  }

  function ParseObject(text: string, i: nat, depth: nat): (r: Option<Parsed<Value>>)
    requires i < |text| && text[i] == '{'
    ensures r.Some? ==> i < r.value.end <= |text|
    decreases |text| - i, 1
  {
    if depth > MAX_DEPTH then None
    else
      var j := SkipBlanks(text, i + 1);
      if CharAt(text, j) == '}' then Some(Parsed(Object([]), j + 1))
      else
        var entries := ParseEntries(text, j, depth);
        if entries.None? then None else Some(Parsed(Object(entries.value.v), entries.value.end))
  }

  /** One entry of an object. */
  function ParseEntry(text: string, i: nat, depth: nat): (r: Option<Parsed<Entry>>)
    requires i <= |text|
    ensures r.Some? ==> i < r.value.end <= |text|
    decreases |text| - i, 3
  {
    if CharAt(text, i) != '"' || StringEnd(text, i + 1).None? then None
    else
      var k := SkipBlanks(text, StringEnd(text, i + 1).value + 1);
      if CharAt(text, k) != ':' then None
      else
        var x := ParseValue(text, SkipBlanks(text, k + 1), depth + 1);
        if x.None? then None else Some(Parsed(Entry(StringAt(text, i + 1), x.value.v), x.value.end))
  }

  /** The entries of an object up to and with its closing brace. */
  function ParseEntries(text: string, i: nat, depth: nat): (r: Option<Parsed<seq<Entry>>>)
    requires i <= |text|
    ensures r.Some? ==> i < r.value.end <= |text|
    decreases |text| - i, 4
  {
    var x := ParseEntry(text, i, depth);
    if x.None? then None
    else
      var j := SkipBlanks(text, x.value.end);
      if CharAt(text, j) == '}' then Some(Parsed([x.value.v], j + 1))
      else if CharAt(text, j) != ',' then None
      else
        var rest := ParseEntries(text, SkipBlanks(text, j + 1), depth);
        if rest.None? then None else Some(Parsed([x.value.v] + rest.value.v, rest.value.end))
  }

  /** The whole text: one value, blanks around it, and the end of the text or a NUL behind it. */
  function Parse(text: string): Option<Value> {
    var x := ParseValue(text, SkipBlanks(text, 0), 0);
    if x.Some? && CharAt(text, SkipBlanks(text, x.value.end)) == '\0' then Some(x.value.v) else None
  }
}
