/** JSON values and the text that `wvalue::dump` of `json.h` writes for them. */
module JsonText {

  /** A value; a number is kept as its text, an object as its entries in the order in which they are written. */
  datatype Value =
    | Null | False | True
    | Number(text: string)
    | String(s: string)
    | List(items: seq<Value>)
    | Object(entries: seq<Entry>)

  datatype Entry = Entry(key: string, value: Value)

  /** How `dump` lays its text out: nothing is inserted when `indent` is negative. */
  datatype Style = Style(indent: int, separator: char)

  // ---------------------------------------------------------------- integers

  function Digit(d: nat): char
    requires d < 10
  {
    '0' + d as char
  }

  /** std::to_string of an integer. */
  function Digits(n: nat): string {
    if n < 10 then [Digit(n)] else Digits(n / 10) + [Digit(n % 10)]
  }

  function Decimal(n: int): string {
    if n < 0 then "-" + Digits(-n) else Digits(n)
  }

  /** The integers that a wvalue can hold. */
  predicate Storable(n: int) {
    -0x8000_0000_0000_0000 <= n < 0x1_0000_0000_0000_0000
  }

  /** All numbers in a value are integers that a wvalue can hold. */
  ghost predicate Integral(v: Value)
    decreases v
  {
    match v
    case Number(text) => exists n :: Storable(n) && text == Decimal(n)
    case List(items) => forall x <- items :: Integral(x)
    case Object(entries) => forall x <- entries :: Integral(x.value)
    case _ => true
  }

  // ---------------------------------------------------------------- strings

  function ToHex(d: nat): char
    requires d < 16
  {
    if d < 10 then '0' + d as char else 'a' + (d - 10) as char
  }

  function EscapeChar(c: char): string {
    match c
    case '"' => "\\\""
    case '\\' => "\\\\"
    case '\n' => "\\n"
    case '\U{8}' => "\\b"
    case '\U{C}' => "\\f"
    case '\r' => "\\r"
    case '\t' => "\\t"
    case _ =>
      if c as int < 0x20 then "\\u00" + [ToHex(c as int / 16), ToHex(c as int % 16)] else [c]
  }

  function Escape(s: string): string {
    if s == "" then "" else EscapeChar(s[0]) + Escape(s[1..])
  }

  function Quoted(s: string): string {
    "\"" + Escape(s) + "\""
  }

  // ---------------------------------------------------------------- values

  function Repeat(c: char, n: int): string {
    if n <= 0 then "" else [c] + Repeat(c, n - 1)
  }

  function Indentation(style: Style, level: nat): string {
    if style.indent >= 0 then "\n" + Repeat(style.separator, level * style.indent) else ""
  }

  function Dump(v: Value, style: Style, level: nat): string
    decreases v, 1
  {
    match v
    case Null => "null"
    case False => "false"
    case True => "true"
    case Number(text) => text
    case String(s) => Quoted(s)
    case List(items) => "[" + (Indentation(style, level + 1) + DumpItems(items, style, level))
    case Object(entries) => "{" + (Indentation(style, level + 1) + DumpEntries(entries, style, level))
  }

  /** The items of a list at `level` and its closing bracket. */
  function DumpItems(items: seq<Value>, style: Style, level: nat): string
    decreases items, 3
  {
    if items == [] then Indentation(style, level) + "]"
    else Dump(items[0], style, level + 1) + MoreItems(items[1..], style, level)
  }

  /** The same behind an item. */
  function MoreItems(items: seq<Value>, style: Style, level: nat): string
    decreases items, 2
  {
    if items == [] then Indentation(style, level) + "]"
    else "," + (Indentation(style, level + 1) + (Dump(items[0], style, level + 1) + MoreItems(items[1..], style, level)))
  }

  function Colon(style: Style): string {
    if style.indent >= 0 then ": " else ":"
  }

  function DumpEntry(x: Entry, style: Style, level: nat): string
    decreases x, 2
  {
    Quoted(x.key) + (Colon(style) + Dump(x.value, style, level + 1))
  }

  /** The entries of an object at `level` and its closing brace. */
  function DumpEntries(entries: seq<Entry>, style: Style, level: nat): string
    decreases entries, 3
  {
    if entries == [] then Indentation(style, level) + "}"
    else DumpEntry(entries[0], style, level) + MoreEntries(entries[1..], style, level)
  }

  /** The same behind an entry. */
  function MoreEntries(entries: seq<Entry>, style: Style, level: nat): string
    decreases entries, 2
  {
    if entries == [] then Indentation(style, level) + "}"
    else "," + (Indentation(style, level + 1) + (DumpEntry(entries[0], style, level) + MoreEntries(entries[1..], style, level)))
  }

  /** How many lists and objects are nested in each other. */
  function Nesting(v: Value): nat
    decreases v, 1
  {
    match v
    case List(items) => 1 + NestingOfItems(items)
    case Object(entries) => 1 + NestingOfEntries(entries)
    case _ => 0
  }

  function NestingOfItems(items: seq<Value>): (r: nat)
    decreases items, 0
  {
    if items == [] then 0 else Max(Nesting(items[0]), NestingOfItems(items[1..]))
  }

  function NestingOfEntries(entries: seq<Entry>): (r: nat)
    decreases entries, 0
  {
    if entries == [] then 0 else Max(Nesting(entries[0].value), NestingOfEntries(entries[1..]))
  }

  function Max(a: nat, b: nat): nat {
    if a < b then b else a
  }
}
