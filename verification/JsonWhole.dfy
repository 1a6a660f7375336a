/** Writing a value and reading it back, with the writer and the parser as the source has them. */
module JsonWhole {
  import opened JsonText
  import opened JsonGrammar
  import opened JsonRoundTrip
  import opened JsonParser
  import opened JsonWriter

  /** load(dump(v)) gives back v exactly if v is nested at most 5000 deep, at any indentation. */
  method DumpAndLoad(v: Value, style: Style) returns (text: string, r: RValue, parser: Parser)
    requires Integral(v) && Whitespace(style)
    ensures fresh(parser) && fresh(parser.buf) && text == Dump(v, style, 0)
    ensures !r.error <==> Nesting(v) <= 5000
    ensures !r.error ==> Inside(r, 0, |text|) && |text| < parser.buf.Length && Meaning(parser.buf[..], r) == v
  {
    hide Dump, Meaning, Nesting, Inside;
    text := DumpToString(v, style);
    r, parser := Load(text);
    RoundTrip(v, style);
  }
}
