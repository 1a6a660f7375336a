/** `dump_internal` of `json.h`, appending to its output string. */
module JsonWriter {
  import opened Sequences
  import opened JsonText

  class Output {
    var text: string

    constructor ()
      ensures text == ""
    {
      text := "";
    }

    method Append(s: string)
      modifies this
      ensures text == old(text) + s
    {
      text := text + s;
    }

    method EscapeOne(c: char)
      modifies this
      ensures text == old(text) + EscapeChar(c)
    {
      if c == '"' { Append("\\\""); }
      else if c == '\\' { Append("\\\\"); }
      else if c == '\n' { Append("\\n"); }
      else if c == '\U{8}' { Append("\\b"); }
      else if c == '\U{C}' { Append("\\f"); }
      else if c == '\r' { Append("\\r"); }
      else if c == '\t' { Append("\\t"); }
      else if c as int < 0x20 { Append("\\u00" + [ToHex(c as int / 16), ToHex(c as int % 16)]); }
      else { Append([c]); }
    }

    method Escape(str: string)
      modifies this
      ensures text == old(text) + JsonText.Escape(str)
    {
      hide EscapeChar;
      var i := 0;
      while i < |str|
        invariant 0 <= i <= |str| && text + JsonText.Escape(str[i..]) == old(text) + JsonText.Escape(str)
      {
        ghost var done := text;
        EscapeOne(str[i]);
        assert str[i..][1..] == str[i + 1..];
        Regrouped(done, EscapeChar(str[i]), JsonText.Escape(str[i + 1..]));
        i := i + 1;
      }
      assert str[i..] == "";
    }

    method DumpString(str: string)
      modifies this
      ensures text == old(text) + Quoted(str)
    {
      text := text + "\"";
      Escape(str);
      text := text + "\"";
    }

    method DumpIndentationPart(style: Style, level: nat)
      requires style.indent >= 0
      modifies this
      ensures text == old(text) + Indentation(style, level)
    {
      text := text + "\n" + Repeat(style.separator, level * style.indent);
    }

    /** Appends the text of a value. */
    method DumpInternal(v: Value, style: Style, level: nat)
      modifies this
      ensures text == old(text) + Dump(v, style, level)
      decreases v, 1
    {
      hide Quoted, DumpItems, DumpEntries, Indentation, ListRest, ObjectRest;
      match v
      case Null => Append("null");
      case False => Append("false");
      case True => Append("true");
      case Number(number) => Append(number);
      case String(s) => DumpString(s);
      case List(items) =>
        Append("[");
        DumpList(items, style, level);
      case Object(entries) =>
        Append("{");
        DumpObject(entries, style, level);
    }

    method DumpList(items: seq<Value>, style: Style, level: nat)
      modifies this
      ensures text == old(text) + (Indentation(style, level + 1) + DumpItems(items, style, level))
      decreases items, 0
    {
      hide *;
      NoLead(style, level);
      NoIndentation(style, level + 1);
      NoIndentation(style, level);
      if style.indent >= 0 { DumpIndentationPart(style, level + 1); }
      assert text == old(text) + Indentation(style, level + 1);
      ghost var start, body := text, DumpItems(items, style, level);
      Regrouped(old(text), Indentation(style, level + 1), body);
      ItemsLeft(items, 0, style, level);
      var i, first := 0, true;
      while i < |items|
        invariant 0 <= i <= |items| && first == (i == 0)
        invariant text + ListRest(items, i, style, level) == start + body
      {
        ItemsLeft(items, i, style, level);
        ghost var done, rest := text, ListRest(items, i + 1, style, level);
        if !first { DumpComma(style, level); }
        first := false;
        DumpInternal(items[i], style, level + 1);
        OneMore(done, Lead(i == 0, style, level), Dump(items[i], style, level + 1), rest);
        i := i + 1;
      }
      ItemsLeft(items, i, style, level);
      ghost var written := text;
      if style.indent >= 0 { DumpIndentationPart(style, level); }
      assert text == written + Indentation(style, level);
      Append("]");
      Regrouped(written, Indentation(style, level), "]");
    }

    method DumpObject(entries: seq<Entry>, style: Style, level: nat)
      modifies this
      ensures text == old(text) + (Indentation(style, level + 1) + DumpEntries(entries, style, level))
      decreases entries, 0
    {
      hide *;
      NoLead(style, level);
      NoIndentation(style, level + 1);
      NoIndentation(style, level);
      if style.indent >= 0 { DumpIndentationPart(style, level + 1); }
      assert text == old(text) + Indentation(style, level + 1);
      ghost var start, body := text, DumpEntries(entries, style, level);
      Regrouped(old(text), Indentation(style, level + 1), body);
      EntriesLeft(entries, 0, style, level);
      var i, first := 0, true;
      while i < |entries|
        invariant 0 <= i <= |entries| && first == (i == 0)
        invariant text + ObjectRest(entries, i, style, level) == start + body
      {
        EntriesLeft(entries, i, style, level);
        ghost var done, rest := text, ObjectRest(entries, i + 1, style, level);
        if !first { DumpComma(style, level); }
        first := false;
        DumpOne(entries[i], style, level);
        OneMore(done, Lead(i == 0, style, level), DumpEntry(entries[i], style, level), rest);
        i := i + 1;
      }
      EntriesLeft(entries, i, style, level);
      ghost var written := text;
      if style.indent >= 0 { DumpIndentationPart(style, level); }
      assert text == written + Indentation(style, level);
      Append("}");
      Regrouped(written, Indentation(style, level), "}");
    }

    method DumpComma(style: Style, level: nat)
      modifies this
      ensures text == old(text) + Lead(false, style, level)
    {
      NoIndentation(style, level + 1);
      Append(",");
      if style.indent >= 0 { DumpIndentationPart(style, level + 1); }
    }

    method DumpOne(x: Entry, style: Style, level: nat)
      modifies this
      ensures text == old(text) + DumpEntry(x, style, level)
      decreases x, 2
    {
      hide Quoted, Dump;
      DumpString(x.key);
      Append(":");
      if style.indent >= 0 { Append(" "); }
      DumpInternal(x.value, style, level + 1);
    }
  }

  /** dump: the text of a value. */
  method DumpToString(v: Value, style: Style) returns (text: string)
    ensures text == Dump(v, style, 0)
  {
    var out := new Output();
    out.DumpInternal(v, style, 0);
    text := out.text;
  }

  // ---------------------------------------------------------------- what is still to be written

  function Lead(first: bool, style: Style, level: nat): string {
    if first then "" else "," + Indentation(style, level + 1)
  }

  ghost function ListRest(items: seq<Value>, i: nat, style: Style, level: nat): string
    requires i <= |items|
  {
    if i == 0 then DumpItems(items, style, level) else MoreItems(items[i..], style, level)
  }

  ghost function ObjectRest(entries: seq<Entry>, i: nat, style: Style, level: nat): string
    requires i <= |entries|
  {
    if i == 0 then DumpEntries(entries, style, level) else MoreEntries(entries[i..], style, level)
  }

  lemma ItemsLeft(items: seq<Value>, i: nat, style: Style, level: nat)
    requires i <= |items|
    ensures i == 0 ==> ListRest(items, i, style, level) == DumpItems(items, style, level)
    ensures ListRest(items, i, style, level)
         == if i == |items| then Indentation(style, level) + "]"
            else Lead(i == 0, style, level) + (Dump(items[i], style, level + 1) + ListRest(items, i + 1, style, level))
  {
    hide Dump, Indentation;
    if i < |items| { assert items[i..][1..] == items[i + 1..]; }
  }

  lemma EntriesLeft(entries: seq<Entry>, i: nat, style: Style, level: nat)
    requires i <= |entries|
    ensures i == 0 ==> ObjectRest(entries, i, style, level) == DumpEntries(entries, style, level)
    ensures ObjectRest(entries, i, style, level)
         == if i == |entries| then Indentation(style, level) + "}"
            else Lead(i == 0, style, level) + (DumpEntry(entries[i], style, level) + ObjectRest(entries, i + 1, style, level))
  {
    hide DumpEntry, Indentation;
    if i < |entries| { assert entries[i..][1..] == entries[i + 1..]; }
  }

  lemma OneMore(done: string, lead: string, one: string, rest: string)
    ensures ((done + lead) + one) + rest == done + (lead + (one + rest)) && done + "" == done
  {
  }

  lemma NoLead(style: Style, level: nat)
    ensures Lead(true, style, level) == ""
  {
  }

  lemma NoIndentation(style: Style, level: nat)
    ensures style.indent < 0 ==> Indentation(style, level) == ""
  {
  }
}
