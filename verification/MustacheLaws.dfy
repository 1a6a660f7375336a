/** What templates print, law by law: names, escapes, variables, sections, and the lines on which a tag stands alone. */
module MustacheLaws {
  import opened Wrappers
  import opened Sequences
  import opened MustacheMeaning
  import opened MustacheText
  import opened MustacheLines
  import opened MustacheTemplate
  import opened MustacheSource

  // ---------------------------------------------------------------- names

  /** Context `i` of the stack is an object that has the name. */
  predicate Has(stack: seq<Json>, i: nat, name: string)
    requires i < |stack|
  {
    stack[i].Object? && name in stack[i].fields
  }

  /** The innermost context that has the name gives it the value `v`; "." is the innermost context itself. */
  ghost predicate Answers(name: string, stack: seq<Json>, v: Json)
    requires stack != []
  {
    if name == "." then v == stack[|stack| - 1]
    else exists i :: 0 <= i < |stack| && Has(stack, i, name) && stack[i].fields[name] == v && forall j :: i < j < |stack| ==> !Has(stack, j, name)
  }

  /** No context has the name. */
  predicate Absent(name: string, stack: seq<Json>) {
    name != "." && forall i :: 0 <= i < |stack| ==> !Has(stack, i, name)
  }

  lemma {:induction false} FindKeyIs(name: string, stack: seq<Json>)
    ensures match FindKey(name, stack)
            case Some(v) =>
              exists i :: 0 <= i < |stack| && Has(stack, i, name) && stack[i].fields[name] == v && forall j :: i < j < |stack| ==> !Has(stack, j, name)
            case None => forall i :: 0 <= i < |stack| ==> !Has(stack, i, name)
  {
    if stack != [] {
      var n := |stack| - 1;
      FindKeyIs(name, stack[..n]);
      forall i | 0 <= i < n ensures Has(stack[..n], i, name) <==> Has(stack, i, name) { }
      if !Has(stack, n, name) && FindKey(name, stack).Some? {
        var v := FindKey(name, stack).value;
        var i :| 0 <= i < n && Has(stack[..n], i, name) && stack[..n][i].fields[name] == v && forall j :: i < j < n ==> !Has(stack[..n], j, name);
        assert Has(stack, i, name) && forall j :: i < j < |stack| ==> !Has(stack, j, name);
      }
    }
  }

  /** A name is looked up in the innermost object that has it. */
  lemma LookUpIs(name: string, stack: seq<Json>, v: Json)
    requires stack != []
    ensures Answers(name, stack, v) <==> FindContext(name, stack) == Some(v)
    ensures Absent(name, stack) <==> FindContext(name, stack) == None
  {
    if name != "." {
      FindKeyIs(name, stack);
      hide FindKey;
      var found := FindKey(name, stack);
      if found.Some? {
        var i :| 0 <= i < |stack| && Has(stack, i, name) && stack[i].fields[name] == found.value && forall j :: i < j < |stack| ==> !Has(stack, j, name);
        if Answers(name, stack, v) {
          var k :| 0 <= k < |stack| && Has(stack, k, name) && stack[k].fields[name] == v && forall j :: k < j < |stack| ==> !Has(stack, j, name);
          assert k == i;
        }
      }
    }
  }

  // ---------------------------------------------------------------- pieces of a template

  /** The template that holds one tag and nothing else. */
  function Only(tag: Tag): Template {
    Template([Item("", tag)], "")
  }

  lemma JustText(last: string, stack: seq<Json>)
    requires stack != []
    ensures Render(Template([], last), stack) == Some(last)
  {
    assert "" + last == last;
  }

  lemma OnlyTag(tag: Tag, stack: seq<Json>)
    requires stack != []
    ensures Render(Only(tag), stack) == RenderTag(tag, stack)
  {
    hide RenderTag;
    var r, items := RenderTag(tag, stack), [Item("", tag)];
    assert items[1..] == [];
    assert RenderItems(items, stack) == Cat(Cat(Some(""), r), Some(""));
    if r.Some? { assert ((("" + r.value) + "") + "") == r.value; }
  }

  /** A template prints its pieces in their order, and throws exactly if one of them throws. */
  lemma {:induction false} InOrder(item: Item, rest: Template, stack: seq<Json>)
    requires stack != []
    ensures var whole := Render(Template([item] + rest.items, rest.last), stack);
            var tag, tail := Render(Only(item.tag), stack), Render(rest, stack);
            && (whole.Some? <==> tag.Some? && tail.Some?)
            && (whole.Some? ==> whole.value == item.text + tag.value + tail.value)
  {
    OnlyTag(item.tag, stack);
    hide RenderTag;
    assert ([item] + rest.items)[1..] == rest.items;
    var tag, more := RenderTag(item.tag, stack), RenderItems(rest.items, stack);
    if tag.Some? && more.Some? {
      assert ((item.text + tag.value) + more.value) + rest.last == item.text + tag.value + (more.value + rest.last);
    }
  }

  // ---------------------------------------------------------------- variables

  lemma VariablePrints(name: string, stack: seq<Json>, v: Json, escaped: bool)
    requires stack != []
    ensures var r := Render(Only(Variable(name, escaped)), stack);
            && (Absent(name, stack) ==> r == Some(""))
            && (Answers(name, stack, v) ==>
                  match v
                  case True => r == Some("true")
                  case False => r == Some("false")
                  case Number(text) => r == Some(text)
                  case String(s) => if escaped then r.Some? && HtmlText(r.value) == s && Harmless(r.value) else r == Some(s)
                  case _ => r == None)
    ensures Render(Only(Comment), stack) == Some("")
  {
    OnlyTag(Variable(name, escaped), stack);
    OnlyTag(Comment, stack);
    LookUpIs(name, stack, v);
    if v.String? { EscapeReadsBack(v.s); }
  }

  // ---------------------------------------------------------------- escapes

  /** The digits of a numeric character reference. */
  function Digit(c: char): int {
    if '0' <= c <= '9' then c as int - '0' as int
    else if 'A' <= c <= 'F' then c as int - 'A' as int + 10
    else if 'a' <= c <= 'f' then c as int - 'a' as int + 10
    else -1
  }

  /** The character that an HTML character reference `&name;` stands for. */
  function Referred(name: string): Option<char> {
    if name == "amp" then Some('&')
    else if name == "lt" then Some('<')
    else if name == "gt" then Some('>')
    else if name == "quot" then Some('"')
    else if |name| == 3 && name[0] == '#' && 0 <= Digit(name[1]) < 10 && 0 <= Digit(name[2]) < 10 then
      Some((10 * Digit(name[1]) + Digit(name[2])) as char)
    else if |name| == 4 && name[0] == '#' && name[1] == 'x' && 0 <= Digit(name[2]) && 0 <= Digit(name[3]) then
      Some((16 * Digit(name[2]) + Digit(name[3])) as char)
    else None
  }

  /** The place of the semicolon that ends a character reference. */
  function Semicolon(s: string, i: nat): (r: nat)
    requires i <= |s|
    ensures i <= r <= |s|
    decreases |s| - i
  {
    if i == |s| || s[i] == ';' then i else Semicolon(s, i + 1)
  }

  /** What HTML text says: character references are replaced by their characters. */
  function HtmlText(s: string): string {
    if s == "" then ""
    else if s[0] != '&' then [s[0]] + HtmlText(s[1..])
    else
      var e := Semicolon(s, 1);
      if e == |s| || Referred(s[1..e]).None? then [s[0]] + HtmlText(s[1..])
      else [Referred(s[1..e]).value] + HtmlText(s[e + 1..])
  }

  /** No character that could begin or end a tag or an attribute value. */
  predicate Harmless(s: string) {
    forall c <- s :: c != '<' && c != '>' && c != '"' && c != '\'' && c != '/' && c != '`' && c != '='
  }

  /** An escaped character reads back as itself. */
  lemma EscapedChar(c: char, rest: string)
    ensures HtmlText(EscapeChar(c) + rest) == [c] + HtmlText(rest) && Harmless(EscapeChar(c))
  {
    hide HtmlText, Referred, Semicolon;
    ReferenceTable();
    match c
    case '&' => EntityRead("amp", c, rest);
    case '<' => EntityRead("lt", c, rest);
    case '>' => EntityRead("gt", c, rest);
    case '"' => EntityRead("quot", c, rest);
    case '\'' => EntityRead("#39", c, rest);
    case '/' => EntityRead("#x2F", c, rest);
    case '`' => EntityRead("#x60", c, rest);
    case '=' => EntityRead("#x3D", c, rest);
    case _ => PlainChar(c, rest);
  }

  lemma EntityRead(name: string, c: char, rest: string)
    requires Referred(name) == Some(c) && ';' !in name && EscapeChar(c) == "&" + name + ";"
    ensures HtmlText(EscapeChar(c) + rest) == [c] + HtmlText(rest)
  {
    hide HtmlText, Referred, Semicolon, EscapeChar;
    var s := EscapeChar(c) + rest;
    SemicolonIs(s, 1, |name| + 1);
    assert s[1..|name| + 1] == name && s[|name| + 2..] == rest;
    ReferenceRead(s, |name| + 1, c, rest);
  }

  lemma PlainChar(c: char, rest: string)
    requires c != '&'
    ensures HtmlText([c] + rest) == [c] + HtmlText(rest)
  {
    assert ([c] + rest)[1..] == rest;
  }

  lemma ReferenceRead(s: string, e: nat, c: char, rest: string)
    requires 1 <= e < |s| && s[0] == '&' && Semicolon(s, 1) == e && Referred(s[1..e]) == Some(c) && s[e + 1..] == rest
    ensures HtmlText(s) == [c] + HtmlText(rest)
  {
  }

  lemma ReferenceTable()
    ensures Referred("amp") == Some('&') && Referred("lt") == Some('<') && Referred("gt") == Some('>') && Referred("quot") == Some('"')
    ensures Referred("#39") == Some('\'') && Referred("#x2F") == Some('/') && Referred("#x60") == Some('`') && Referred("#x3D") == Some('=')
  {
  }

  lemma {:induction false} SemicolonIs(s: string, i: nat, e: nat)
    requires i <= e < |s| && s[e] == ';' && forall k :: i <= k < e ==> s[k] != ';'
    ensures Semicolon(s, i) == e
    decreases e - i
  {
    if i < e { SemicolonIs(s, i + 1, e); }
  }

  /** Escaped text is harmless in HTML and says what the text said. */
  lemma {:induction false} EscapeReadsBack(s: string)
    ensures HtmlText(Escape(s)) == s && Harmless(Escape(s))
  {
    hide HtmlText, EscapeChar;
    if s == "" {
      NothingSaid();
    } else {
      EscapedChar(s[0], Escape(s[1..]));
      EscapeReadsBack(s[1..]);
      assert [s[0]] + s[1..] == s;
    }
  }

  lemma NothingSaid()
    ensures HtmlText("") == ""
  {
  }

  // ---------------------------------------------------------------- sections

  /** The value shows a section once, with itself on top. */
  predicate ShowsOnce(v: Json) {
    v.True? || v.Number? || v.String? || v.Object?
  }

  predicate Hides(v: Json) {
    v.False? || v.Null? || (v.List? && |v.items| == 0)
  }

  /** A section and an inverted section of one name are complementary: under every stack exactly one of the two shows its
      body, the inverted one exactly if no context has the name or its value is false, null or an empty list. */
  lemma Complementary(name: string, body: Template, stack: seq<Json>, v: Json)
    requires stack != [] && (Absent(name, stack) || Answers(name, stack, v))
    ensures var section, inverted := Render(Only(Section(name, body)), stack), Render(Only(Inverted(name, body)), stack);
            if Absent(name, stack) || Hides(v) then section == Some("") && inverted == Render(body, stack + [Null])
            else
              && inverted == Some("")
              && (ShowsOnce(v) ==> section == Render(body, stack + [v]))
              && (v.List? ==> ShowsEach(section, body, v.items, stack))
  {
    hide Render, RenderEach, ShowsEach, FindContext, Only, Absent, Answers;
    OnlyTag(Section(name, body), stack);
    OnlyTag(Inverted(name, body), stack);
    LookUpIs(name, stack, v);
    if Absent(name, stack) || Hides(v) {
      NoContext(body, stack);
    } else if v.List? {
      EachShown(body, v.items, stack);
    } else {
      EachOne(body, v, stack);
    }
  }

  function Concatenated(texts: seq<string>): string {
    if texts == [] then "" else Concatenated(texts[..|texts| - 1]) + texts[|texts| - 1]
  }

  /** A section over a list is the concatenation over its elements, each on top in its turn. */
  ghost predicate ShowsEach(section: Option<string>, body: Template, items: seq<Json>, stack: seq<Json>) {
    && (section.None? <==> exists i :: 0 <= i < |items| && Render(body, stack + [items[i]]).None?)
    && forall texts: seq<string> ::
         |texts| == |items| && (forall i :: 0 <= i < |items| ==> Render(body, stack + [items[i]]) == Some(texts[i]))
         ==> section == Some(Concatenated(texts))
  }

  lemma {:induction false} EachShown(body: Template, items: seq<Json>, stack: seq<Json>)
    requires stack != []
    ensures ShowsEach(RenderEach(body, items, stack), body, items, stack)
    decreases |items|
  {
    hide Render, RenderEach;
    if items == [] {
      NoContext(body, stack);
    } else {
      var n := |items| - 1;
      var front, last := items[..n], items[n];
      EachShown(body, front, stack);
      OneMoreEach(body, items, n, stack);
      assert items[..n + 1] == items;
      var x, y := RenderEach(body, front, stack), Render(body, stack + [last]);
      assert RenderEach(body, items, stack) == Cat(x, y);
      if x.None? {
        var i :| 0 <= i < n && Render(body, stack + [front[i]]).None?;
        assert items[i] == front[i];
      }
      forall texts: seq<string> | |texts| == |items| && (forall i :: 0 <= i < |items| ==> Render(body, stack + [items[i]]) == Some(texts[i]))
        ensures Cat(x, y) == Some(Concatenated(texts))
      {
        assert forall i :: 0 <= i < n ==> front[i] == items[i] && texts[..n][i] == texts[i];
        assert x == Some(Concatenated(texts[..n]));
        assert y == Some(texts[n]);
      }
      forall i | 0 <= i < |items| && Render(body, stack + [items[i]]).None? ensures Cat(x, y).None? {
        if i < n { assert front[i] == items[i]; }
      }
    }
  }

  // ---------------------------------------------------------------- lines

  /** Nothing but spaces in `i..j`. */
  predicate AllSpaces(body: string, i: nat, j: nat)
    requires i <= j <= |body|
  {
    forall k :: i <= k < j ==> body[k] == ' '
  }

  /** A line begins at `e` in the text `from..to`, which is the first one or not, and only spaces follow. */
  predicate BeginsLine(body: string, from: nat, e: nat, to: nat, first: bool)
    requires from <= e <= to <= |body|
  {
    AllSpaces(body, e, to) && if e == from then first else body[e - 1] == '\n'
  }

  /** Only spaces stand before `k` in the text `from..to`, and there a line ends or the whole text does. */
  predicate EndsLine(body: string, from: nat, k: nat, to: nat, last: bool)
    requires from <= k <= to <= |body|
  {
    AllSpaces(body, from, k)
    && if k == to then last else body[k] == '\n' || (body[k] == '\r' && k + 1 < |body| && body[k + 1] == '\n')
  }

  ghost predicate SomeLineBegins(body: string, from: nat, to: nat, first: bool)
    requires from <= to <= |body|
  {
    exists e :: from <= e <= to && BeginsLine(body, from, e, to, first)
  }

  ghost predicate SomeLineEnds(body: string, from: nat, to: nat, last: bool)
    requires from <= to <= |body|
  {
    exists k :: from <= k <= to && EndsLine(body, from, k, to, last)
  }

  /** Tag `i`, between the texts `f[i]` and `f[i + 1]`, has a line to itself and prints nothing there. */
  ghost predicate OwnLine(body: string, f: seq<(nat, nat)>, kinds: seq<ActionType>, i: nat)
    requires Texts(body, f) && |f| == |kinds| && i + 1 < |f|
  {
    && kinds[i] in {Ignore, OpenBlock, CloseBlock, ElseBlock, PartialAction}
    && SomeLineBegins(body, f[i].0, f[i].1, i == 0) && SomeLineEnds(body, f[i + 1].0, f[i + 1].1, i + 2 == |f|)
  }

  lemma {:induction false} BackToIs(body: string, from: nat, e: nat, end: nat)
    requires from <= e <= end <= |body| && AllSpaces(body, e, end) && (e > from ==> body[e - 1] != ' ')
    ensures BackTo(body, from, end) == e
    decreases end
  {
    if e < end { BackToIs(body, from, e, end - 1); }
  }

  lemma {:induction false} ForwardToIs(body: string, from: nat, k: nat, to: nat)
    requires from <= k <= to <= |body| && AllSpaces(body, from, k) && (k < to ==> body[k] != ' ')
    ensures ForwardTo(body, from, to) == k
    decreases k - from
  {
    if from < k { ForwardToIs(body, from + 1, k, to); }
  }

  lemma LineBeginsIff(body: string, from: nat, to: nat, first: bool)
    requires from <= to <= |body|
    ensures LineBegins(body, from, to, first) <==> SomeLineBegins(body, from, to, first)
  {
    var b := BackTo(body, from, to);
    if LineBegins(body, from, to, first) { assert BeginsLine(body, from, b, to, first); }
    if SomeLineBegins(body, from, to, first) {
      var e :| from <= e <= to && BeginsLine(body, from, e, to, first);
      BackToIs(body, from, e, to);
    }
  }

  lemma LineEndsIff(body: string, from: nat, to: nat, last: bool)
    requires from <= to <= |body|
    ensures LineEnds(body, from, to, last) <==> SomeLineEnds(body, from, to, last)
  {
    var f := ForwardTo(body, from, to);
    if LineEnds(body, from, to, last) { assert EndsLine(body, from, f, to, last); }
    if SomeLineEnds(body, from, to, last) {
      var k :| from <= k <= to && EndsLine(body, from, k, to, last);
      ForwardToIs(body, from, k, to);
    }
  }

  /** Which tags stand alone, in plain words. */
  lemma AloneIff(body: string, f: seq<(nat, nat)>, kinds: seq<ActionType>, i: nat)
    requires Texts(body, f) && |f| == |kinds| && i + 1 < |f|
    ensures Alone(body, f, kinds, i) <==> OwnLine(body, f, kinds, i)
  {
    hide LineBegins, LineEnds, SomeLineBegins, SomeLineEnds;
    TextAt(body, f, i);
    TextAt(body, f, i + 1);
    LineBeginsIff(body, f[i].0, f[i].1, i == 0);
    LineEndsIff(body, f[i + 1].0, f[i + 1].1, i + 2 == |f|);
  }

  /** The spaces at the end of the text `from..to` are cut. */
  predicate EndCut(body: string, from: nat, to: nat, cut: nat) {
    from <= cut <= to <= |body| && AllSpaces(body, cut, to) && (cut > from ==> body[cut - 1] != ' ')
  }

  /** The spaces at the beginning of the text `from..to` are cut with the line end behind them, but nothing if the text is
      all spaces. */
  ghost predicate StartCut(body: string, from: nat, to: nat, cut: nat)
    requires from <= to <= |body|
  {
    if AllSpaces(body, from, to) then cut == from
    else exists k :: from <= k < to && AllSpaces(body, from, k) && EndsAt(body, k, cut)
  }

  /** A line end stands at `k`, and `cut` is behind it. */
  predicate EndsAt(body: string, k: nat, cut: nat)
    requires k < |body|
  {
    (body[k] == '\n' && cut == k + 1) || (body[k] == '\r' && k + 1 < |body| && body[k + 1] == '\n' && cut == k + 2)
  }

  /** What is cut beside a tag: on a line of its own the spaces before it, and the spaces and the line end behind it; and
      beside other tags nothing at all. */
  lemma WhatIsCut(body: string, f: seq<(nat, nat)>, kinds: seq<ActionType>, g: seq<(nat, nat)>, i: nat)
    requires Texts(body, f) && |f| == |kinds| && i + 1 < |f| && CutFrom(body, f, kinds, 0, g)
    ensures |g| == |f| && g[0].0 == f[0].0 && g[|f| - 1].1 == f[|f| - 1].1
    ensures f[i + 1].0 <= f[i + 1].1 <= |body|
    ensures if OwnLine(body, f, kinds, i) then EndCut(body, f[i].0, f[i].1, g[i].1) && StartCut(body, f[i + 1].0, f[i + 1].1, g[i + 1].0)
            else g[i].1 == f[i].1 && g[i + 1].0 == f[i + 1].0
  {
    hide OwnLine, EndCut, StartCut, Alone, BackTo, ForwardTo, Texts, StartOf, EndOf;
    TextAt(body, f, i);
    TextAt(body, f, i + 1);
    AloneIff(body, f, kinds, i);
    CutSides(body, f, kinds, i);
    FirstStart(body, f, kinds);
    assert g[i].1 == EndOf(body, f, kinds, i) && g[i + 1].0 == StartOf(body, f, kinds, i + 1);
  }

  lemma FirstStart(body: string, f: seq<(nat, nat)>, kinds: seq<ActionType>)
    requires Texts(body, f) && |f| == |kinds| > 0
    ensures EndOf(body, f, kinds, |f| - 1) == f[|f| - 1].1
  {
  }

  lemma CutSides(body: string, f: seq<(nat, nat)>, kinds: seq<ActionType>, i: nat)
    requires Texts(body, f) && |f| == |kinds| && i + 1 < |f|
    ensures f[i + 1].0 <= f[i + 1].1 <= |body|
    ensures !Alone(body, f, kinds, i) ==> EndOf(body, f, kinds, i) == f[i].1 && StartOf(body, f, kinds, i + 1) == f[i + 1].0
    ensures Alone(body, f, kinds, i) ==> EndCut(body, f[i].0, f[i].1, EndOf(body, f, kinds, i))
    ensures Alone(body, f, kinds, i) ==> StartCut(body, f[i + 1].0, f[i + 1].1, StartOf(body, f, kinds, i + 1))
  {
    hide Texts, BackTo, ForwardTo, LineBegins;
    TextAt(body, f, i);
    TextAt(body, f, i + 1);
    var from, to := f[i + 1].0, f[i + 1].1;
    var k := ForwardTo(body, from, to);
    if Alone(body, f, kinds, i) && k < to { assert EndsAt(body, k, StartOf(body, f, kinds, i + 1)); }
  }

  // ---------------------------------------------------------------- from text to text

  /** No partial, and no name with a dot but "." itself. */
  predicate Undotted(t: Template) {
    forall x <- Flatten(t.items, 0) :: !x.op.Include? && (x.op.Skip? || x.op.Close? || x.op.name == "." || '.' !in x.op.name)
  }

  /** No tag of the text has a line to itself. */
  ghost predicate Inline(body: string) {
    var l := Lex(body, 0, "{{", "}}");
    && l.Some? && Texts(body, TextsOf(l.value))
    && forall i :: 0 <= i < |l.value| - 1 ==> !OwnLine(body, TextsOf(l.value), KindsOf(l.value), i)
  }

  /** The texts are what the pieces `g` of the body hold. */
  predicate TextsShown(body: string, code: seq<Instr>, last: string, g: seq<(nat, nat)>) {
    && |g| == |code| + 1
    && forall i :: 0 <= i < |g| ==>
         && g[i].0 <= |body| && g[i].1 <= |body|
         && (if i < |code| then code[i].text else last) == Substr(body, g[i].0, g[i].1)
  }

  /** `shown` has the tags of `t`, and its texts but for what the tags that have a line to themselves take with them. */
  ghost predicate ShownOf(body: string, t: Template, shown: Template, f: seq<(nat, nat)>, kinds: seq<ActionType>, g: seq<(nat, nat)>) {
    var flat, code := Flatten(t.items, 0), Flatten(shown.items, 0);
    && |code| == |flat| && (forall i :: 0 <= i < |flat| ==> code[i].op == flat[i].op)
    && TextsAre(body, flat, t.last, f, kinds) && Texts(body, f) && |f| == |kinds| && CutFrom(body, f, kinds, 0, g)
    && TextsShown(body, code, shown.last, g)
  }

  /** The same for the texts and tags that are read in the body. */
  ghost predicate AsShown(body: string, t: Template, shown: Template) {
    var l := Lex(body, 0, "{{", "}}");
    l.Some? && exists g :: ShownOf(body, t, shown, TextsOf(l.value), KindsOf(l.value), g)
  }

  /** A template written out, parsed and rendered is the meaning of that template, but for the lines on which a tag stands
      alone: exactly what WhatIsCut says is missing of its texts. */
  method RenderWritten(t: Template, ghost forms: seq<Form>, body: string, ctx: Json) returns (r: Option<string>)
    requires |forms| == Size(t.items) && WellFormed(t, forms) && body == TextOf(t, forms) && Undotted(t)
    ensures exists shown :: AsShown(body, t, shown)
    ensures forall shown :: AsShown(body, t, shown) ==> r == Render(shown, [ctx])
    ensures Inline(body) ==> r == Render(t, [ctx])
  {
    hide WellFormed, TextOf, Undotted, Inline, Render, TextsAre, CutFrom, Texts, Lex, Flatten, WellNested, TreeItems, CodeOf, Bounded;
    hide ShownOf, AsShown;
    var parsed := ParseWritten(t, forms, body);
    LexesThere(body);
    ghost var flat := Flatten(t.items, 0);
    ghost var xs := Lex(body, 0, "{{", "}}").value;
    assert |parsed.Code()| == |flat| + 1;
    ghost var shown := Tree(parsed.Code(), 0, |parsed.actions| - 1);
    TextsFit(body, flat, t.last, TextsOf(xs), KindsOf(xs));
    WrittenShown(t, parsed, xs, flat, shown);
    if Inline(body) { InlineShown(body, t, shown, xs, parsed.fragments); }
    OnlyShown(body, t, shown, xs, parsed.fragments);
    r := parsed.RenderString(ctx);
  }

  /** There is one template only that is shown. */
  lemma OnlyShown(body: string, t: Template, shown: Template, xs: seq<Lexeme>, g: seq<(nat, nat)>)
    requires LexesTo(body, 0, "{{", "}}", xs) && ShownOf(body, t, shown, TextsOf(xs), KindsOf(xs), g)
    ensures AsShown(body, t, shown)
    ensures forall x :: AsShown(body, t, x) ==> x == shown
  {
    hide Lex, ShownOf;
    forall x | AsShown(body, t, x) ensures x == shown {
      var h :| ShownOf(body, t, x, TextsOf(xs), KindsOf(xs), h);
      ShownOnce(body, t, x, shown, TextsOf(xs), KindsOf(xs), h, g);
    }
  }

  lemma ShownOnce(body: string, t: Template, x: Template, y: Template, f: seq<(nat, nat)>, kinds: seq<ActionType>,
                  g: seq<(nat, nat)>, h: seq<(nat, nat)>)
    requires ShownOf(body, t, x, f, kinds, g) && ShownOf(body, t, y, f, kinds, h)
    ensures x == y
  {
    hide Flatten, TextsAre, CutFrom, Texts, Substr;
    CutOnce(body, f, kinds, g, h);
    var code, flat := Flatten(x.items, 0), Flatten(y.items, 0);
    forall i | 0 <= i < |code| ensures code[i] == flat[i] { assert code[i].text == Substr(body, g[i].0, g[i].1); }
    var n := |code|;
    assert x.last == Substr(body, g[n].0, g[n].1) == y.last;
    SameFlat(flat, x.items, y.items);
  }

  lemma CutOnce(body: string, f: seq<(nat, nat)>, kinds: seq<ActionType>, g: seq<(nat, nat)>, h: seq<(nat, nat)>)
    requires Texts(body, f) && |f| == |kinds| && CutFrom(body, f, kinds, 0, g) && CutFrom(body, f, kinds, 0, h)
    ensures g == h
  {
    hide Texts, StartOf, EndOf;
  }

  /** The operations of the flat code, and one action more. */
  predicate OpsAre(code: seq<Instr>, flat: seq<Instr>) {
    |code| == |flat| + 1 && forall i :: 0 <= i < |flat| ==> code[i].op == flat[i].op
  }

  /** The texts are those of the lexemes, but for what is cut, and the tags between them are those of the flat code. */
  ghost predicate ReadFrom(body: string, xs: seq<Lexeme>, flat: seq<Instr>, last: string, fragments: seq<(nat, nat)>) {
    && TextsAre(body, flat, last, TextsOf(xs), KindsOf(xs)) && Texts(body, TextsOf(xs))
    && CutFrom(body, TextsOf(xs), KindsOf(xs), 0, fragments)
  }

  lemma LexesThere(body: string)
    requires Lex(body, 0, "{{", "}}").Some?
    ensures LexesTo(body, 0, "{{", "}}", Lex(body, 0, "{{", "}}").value)
  {
    hide Lex;
  }

  /** What was parsed has the tags of the template that was written, and its texts as far as they are not cut. */
  lemma WrittenShown(t: Template, parsed: TemplateT, xs: seq<Lexeme>, flat: seq<Instr>, shown: Template)
    requires flat == Flatten(t.items, 0) && parsed.Compiled() && |parsed.actions| == |flat| + 1 && parsed.actions[|flat|].t.Ignore?
    requires OpsAre(parsed.Code(), flat) && Undotted(t) && ReadFrom(parsed.body, xs, flat, t.last, parsed.fragments)
    requires shown == Tree(parsed.Code(), 0, |parsed.actions| - 1)
    ensures parsed.Renderable() && ShownOf(parsed.body, t, shown, TextsOf(xs), KindsOf(xs), parsed.fragments)
  {
    hide *;
    CompiledFacts(parsed);
    OpsThere(parsed, flat);
    TreeFlattens(parsed.Code(), 0, |flat|);
    ShownTexts(parsed, flat, shown);
    TextCount(parsed.body, flat, t.last, xs, parsed.fragments);
    NamesFine(parsed, flat, t);
    ShownIs(parsed, t, shown, xs);
  }

  lemma OpsThere(parsed: TemplateT, flat: seq<Instr>)
    requires Bounded(parsed.body, parsed.fragments, parsed.actions) && OpsAre(parsed.Code(), flat)
    ensures |parsed.Code()| == |flat| + 1
  {
    hide CodeOf, Bounded;
  }

  lemma ShownTexts(parsed: TemplateT, flat: seq<Instr>, shown: Template)
    requires Bounded(parsed.body, parsed.fragments, parsed.actions) && |parsed.fragments| == |parsed.actions| == |flat| + 1
    requires OpsAre(parsed.Code(), flat) && WellNested(parsed.Code(), 0, |flat|) && shown == Tree(parsed.Code(), 0, |flat|)
    requires Flatten(TreeItems(parsed.Code(), 0, |flat|), 0) == parsed.Code()[0..|flat|]
    ensures Flatten(shown.items, 0) == parsed.Code()[..|flat|]
    ensures TextsShown(parsed.body, Flatten(shown.items, 0), shown.last, parsed.fragments)
  {
    hide Flatten, TreeItems, CodeOf, WellNested, Bounded, Substr, TextsShown;
    var code := parsed.Code();
    assert code[0..|flat|] == code[..|flat|];
    CodeTexts(parsed);
    PiecesShown(parsed.body, code, |flat|, parsed.fragments);
  }

  lemma CodeTexts(parsed: TemplateT)
    requires Bounded(parsed.body, parsed.fragments, parsed.actions) && |parsed.fragments| == |parsed.actions|
    ensures |parsed.Code()| == |parsed.actions|
    ensures Pieces(parsed.body, parsed.Code(), parsed.fragments)
  {
    hide OpOf, Substr;
  }

  /** The texts of the code are the pieces `g` of the body. */
  predicate Pieces(body: string, code: seq<Instr>, g: seq<(nat, nat)>) {
    |g| == |code| && forall i :: 0 <= i < |g| ==> g[i].0 <= |body| && g[i].1 <= |body| && code[i].text == Substr(body, g[i].0, g[i].1)
  }

  lemma PiecesShown(body: string, code: seq<Instr>, n: nat, g: seq<(nat, nat)>)
    requires |code| == n + 1 && Pieces(body, code, g)
    ensures TextsShown(body, code[..n], code[n].text, g)
  {
    hide Substr;
  }

  lemma ShownIs(parsed: TemplateT, t: Template, shown: Template, xs: seq<Lexeme>)
    requires ReadFrom(parsed.body, xs, Flatten(t.items, 0), t.last, parsed.fragments)
    requires Bounded(parsed.body, parsed.fragments, parsed.actions) && OpsAre(parsed.Code(), Flatten(t.items, 0))
    requires Flatten(shown.items, 0) == parsed.Code()[..|Flatten(t.items, 0)|]
    requires TextsShown(parsed.body, Flatten(shown.items, 0), shown.last, parsed.fragments)
    ensures ShownOf(parsed.body, t, shown, TextsOf(xs), KindsOf(xs), parsed.fragments)
  {
    hide Flatten, CodeOf, Bounded, TextsAre, CutFrom, Texts, TextsShown;
  }

  /** Where no tag has a line to itself the template shows as it is written. */
  lemma InlineShown(body: string, t: Template, shown: Template, xs: seq<Lexeme>, g: seq<(nat, nat)>)
    requires Inline(body) && LexesTo(body, 0, "{{", "}}", xs) && ShownOf(body, t, shown, TextsOf(xs), KindsOf(xs), g)
    ensures shown == t
  {
    hide Inline, CutFrom, Texts, Flatten, TextsAre, TextsShown, LexesTo;
    var flat, code := Flatten(t.items, 0), Flatten(shown.items, 0);
    TextsFit(body, flat, t.last, TextsOf(xs), KindsOf(xs));
    NothingIsCut(body, xs, g);
    SameTexts(body, flat, code, t.last, shown.last, TextsOf(xs), KindsOf(xs));
    SameFlat(flat, t.items, shown.items);
  }

  lemma SameTexts(body: string, flat: seq<Instr>, code: seq<Instr>, last: string, last': string, f: seq<(nat, nat)>, kinds: seq<ActionType>)
    requires TextsAre(body, flat, last, f, kinds) && TextsShown(body, code, last', f)
    requires |code| == |flat| && forall i :: 0 <= i < |flat| ==> code[i].op == flat[i].op
    ensures code == flat && last' == last
  {
    hide KindOf, Texts;
    forall i | 0 <= i < |f| ensures f[i].0 <= f[i].1 <= |body| && Substr(body, f[i].0, f[i].1) == body[f[i].0..f[i].1] { TextAt(body, f, i); }
    forall i | 0 <= i < |flat| ensures code[i] == flat[i] { assert f[i].0 <= |body|; }
  }

  lemma SameFlat(flat: seq<Instr>, a: seq<Item>, b: seq<Item>)
    requires flat == Flatten(a, 0) == Flatten(b, 0)
    ensures a == b
  {
    hide Flatten, WellNested, TreeItems;
    assert flat[0..0 + |flat|] == flat;
    FlattenReadsBack(flat, 0, a);
    FlattenReadsBack(flat, 0, b);
  }

  lemma TextCount(body: string, flat: seq<Instr>, last: string, xs: seq<Lexeme>, fragments: seq<(nat, nat)>)
    requires ReadFrom(body, xs, flat, last, fragments)
    ensures |xs| > 0 && Texts(body, TextsOf(xs)) && CutFrom(body, TextsOf(xs), KindsOf(xs), 0, fragments)
  {
  }

  lemma CompiledFacts(parsed: TemplateT)
    requires parsed.Compiled()
    ensures Bounded(parsed.body, parsed.fragments, parsed.actions) && |parsed.actions| == |parsed.fragments| > 0
    ensures WellNested(parsed.Code(), 0, |parsed.actions| - 1)
    ensures |parsed.Code()| == |parsed.actions|
  {
  }

  lemma NothingIsCut(body: string, xs: seq<Lexeme>, g: seq<(nat, nat)>)
    requires Inline(body) && LexesTo(body, 0, "{{", "}}", xs) && |xs| > 0
    requires Texts(body, TextsOf(xs)) && CutFrom(body, TextsOf(xs), KindsOf(xs), 0, g)
    ensures g == TextsOf(xs)
  {
    hide OwnLine, CutFrom, Texts, Lex;
    var f, kinds := TextsOf(xs), KindsOf(xs);
    if |xs| == 1 {
      OneText(body, f, kinds, g);
    } else {
      WhatIsCut(body, f, kinds, g, 0);
      forall m | 0 <= m < |f| ensures g[m] == f[m] {
        if m + 1 < |f| { WhatIsCut(body, f, kinds, g, m); }
        if m > 0 { WhatIsCut(body, f, kinds, g, m - 1); }
      }
    }
  }

  lemma OneText(body: string, f: seq<(nat, nat)>, kinds: seq<ActionType>, g: seq<(nat, nat)>)
    requires Texts(body, f) && |f| == |kinds| == 1 && CutFrom(body, f, kinds, 0, g)
    ensures g == f
  {
    hide Texts, BackTo, ForwardTo;
  }

  lemma TextsFit(body: string, flat: seq<Instr>, last: string, f: seq<(nat, nat)>, kinds: seq<ActionType>)
    requires TextsAre(body, flat, last, f, kinds)
    ensures Texts(body, f) && |f| == |flat| + 1
  {
  }

  lemma NamesFine(parsed: TemplateT, flat: seq<Instr>, t: Template)
    requires Bounded(parsed.body, parsed.fragments, parsed.actions) && |parsed.actions| == |parsed.fragments| == |flat| + 1
    requires parsed.actions[|flat|].t.Ignore? && OpsAre(parsed.Code(), flat) && flat == Flatten(t.items, 0) && Undotted(t)
    ensures parsed.Renderable()
  {
    hide Flatten, Substr;
    forall a <- parsed.actions
      ensures !a.t.PartialAction?
      ensures a.start <= |parsed.body| && a.end <= |parsed.body|
      ensures a.t.Ignore? || a.t.CloseBlock? || (var name := Substr(parsed.body, a.start, a.end); name == "." || '.' !in name)
    {
      var i :| 0 <= i < |parsed.actions| && parsed.actions[i] == a;
      if i < |flat| { assert flat[i] in flat && parsed.Code()[i].op == flat[i].op; }
    }
  }

  // ---------------------------------------------------------------- texts that are refused

  /** The text is `code`, written in the given forms, and then `rest`, which the delimiters `open` and `close` apply to. */
  predicate Begun(body: string, pos: nat, code: seq<Instr>, forms: seq<Form>, rest: nat, open: string, close: string, open': string, close': string)
    requires |forms| == |code|
    decreases |code|
  {
    && pos <= rest <= |body| && Delimiter(open) && Delimiter(close)
    && if code == [] then pos == rest && open' == open && close' == close
       else
         && Writes(code[0], forms[0], open, close) && At(body, pos, Written(code[0], forms[0], open, close))
         && Begun(body, pos + |Written(code[0], forms[0], open, close)|, code[1..], forms[1..], rest,
                  OpenBy(forms[0], open), CloseBy(forms[0], close), open', close')
  }

  /** The first place from `from` on at which `d` stands. */
  predicate FirstAt(body: string, d: string, from: nat, at: nat) {
    from <= at && Stands(body, d, at) && forall k :: from <= k < at ==> !Stands(body, d, k)
  }

  ghost predicate Nowhere(body: string, d: string, from: nat) {
    forall k :: from <= k ==> !Stands(body, d, k)
  }

  /** Triple braces without the third one, or with other delimiters. */
  predicate BadTriple(body: string, idx: nat, e: nat, open: string, close: string)
    requires idx < |body|
  {
    body[idx] == '{' && !(open == "{{" && close == "}}" && e + 2 < |body| && body[e + 2] == '}')
  }

  /** A change of delimiters that is not an equals sign, two delimiters with spaces between, and another equals sign. */
  ghost predicate BadChange(body: string, idx: nat, e: nat)
    requires idx < e <= |body|
  {
    body[idx] == '=' && forall form :: Changes(form) ==> body[idx..e] != Inside(Skip, form)
  }

  predicate Changes(form: Form) {
    form.Change? && Delimiter(form.open) && Delimiter(form.close) && form.between > 0
  }

  ghost predicate BadTag(body: string, idx: nat, e: nat, open: string, close: string)
    requires idx < e < |body|
  {
    BadTriple(body, idx, e, open, close) || BadChange(body, idx, e)
  }

  /** A tag at `at` that is closed nowhere, or empty, or one of those. */
  ghost predicate Broken(body: string, pos: nat, at: nat, open: string, close: string) {
    var idx := at + |open|;
    && FirstAt(body, open, pos, at)
    && (Nowhere(body, close, idx) || Stands(body, close, idx)
        || exists e :: idx < e < |body| && FirstAt(body, close, idx, e) && BadTag(body, idx, e, open, close))
  }

  /** No other tag is refused for itself. */
  lemma TagRefusedIff(body: string, idx: nat, e: nat, open: string, close: string)
    requires 0 < idx < e && Delimiter(open) && Delimiter(close) && Stands(body, close, e)
    ensures e < |body| && e + |close| <= |body|
    ensures ReadTag(body, idx, e, open, close).None? <==> BadTag(body, idx, e, open, close)
  {
    hide SkipTo, TrimTo, NewDelimiters, BadChange;
    if body[idx] == '=' {
      var refused := NewDelimiters(body, idx, e).None?;
      if !BadChange(body, idx, e) {
        ChangeTaken(body, idx, e, open, close);
      } else if !refused {
        var form := ChangeFound(body, idx, e);
        NotTaken(body, idx, e, form);
      }
    } else {
      NoChangeThere(body, idx, e);
    }
  }

  lemma NoChangeThere(body: string, idx: nat, e: nat)
    requires idx < e <= |body| && body[idx] != '='
    ensures !BadChange(body, idx, e)
  {
  }

  lemma NotTaken(body: string, idx: nat, e: nat, form: Form)
    requires idx < e <= |body| && Changes(form) && body[idx..e] == Inside(Skip, form)
    ensures !BadChange(body, idx, e)
  {
  }

  lemma ChangeTaken(body: string, idx: nat, e: nat, open: string, close: string)
    requires 0 < idx < e && Delimiter(open) && Delimiter(close) && Stands(body, close, e) && body[idx] == '='
    requires !BadChange(body, idx, e)
    ensures NewDelimiters(body, idx, e).Some?
  {
    hide NewDelimiters, SkipTo, TrimTo, Inside, Delimiter;
    var form :| Changes(form) && body[idx..e] == Inside(Skip, form);
    assert body[idx..e + |close|] == body[idx..e] + close;
    ChangeReads(body, idx, Skip, form, open, close);
    assert e == idx + |Inside(Skip, form)|;
  }

  /** The delimiters that are read stand there with spaces between. */
  lemma ChangeFound(body: string, idx: nat, e: nat) returns (form: Form)
    requires 0 < idx < e <= |body| && body[idx] == '=' && NewDelimiters(body, idx, e).Some?
    ensures Changes(form) && body[idx..e] == Inside(Skip, form)
  {
    hide Spaces, Delimiter, Inside, NewDelimiters;
    var s, i, k, t := DelimitersAt(body, idx, e);
    form := Change(body[s..i], body[k..t], s - (idx + 1), k - i, e - 1 - t);
    SpacesAre(body, idx + 1, s);
    SpacesAre(body, i, k);
    SpacesAre(body, t, e - 1);
    ChangeSpelled(body, idx, s, i, k, t, e, form);
  }

  /** Where they stand. */
  lemma DelimitersAt(body: string, idx: nat, e: nat) returns (s: nat, i: nat, k: nat, t: nat)
    requires 0 < idx < e <= |body| && NewDelimiters(body, idx, e).Some?
    ensures idx + 1 <= s < i < k < t < e && body[e - 1] == '=' && Delimiter(body[s..i]) && Delimiter(body[k..t])
    ensures (forall x :: idx + 1 <= x < s ==> body[x] == ' ') && (forall x :: i <= x < k ==> body[x] == ' ')
    ensures forall x :: t <= x < e - 1 ==> body[x] == ' '
  {
    s := SkipTo(body, idx + 1);
    t := TrimTo(body, e - 1);
    i := FirstSpace(body, s, t).value;
    k := SkipTo(body, i);
    hide SkipTo, TrimTo, FirstSpace;
    assert body[t - 1] != ' ';
    assert k < t;
  }

  lemma SpacesAre(body: string, a: nat, b: nat)
    requires a <= b <= |body| && forall x :: a <= x < b ==> body[x] == ' '
    ensures body[a..b] == Spaces(b - a)
  {
  }

  lemma ChangeSpelled(body: string, idx: nat, s: nat, i: nat, k: nat, t: nat, e: nat, form: Form)
    requires idx + 1 <= s < i < k < t < e <= |body| && body[idx] == '=' == body[e - 1]
    requires form == Change(body[s..i], body[k..t], s - (idx + 1), k - i, e - 1 - t)
    requires body[idx + 1..s] == Spaces(form.before) && body[i..k] == Spaces(form.between) && body[t..e - 1] == Spaces(form.after)
    ensures body[idx..e] == Inside(Skip, form)
  {
    hide Spaces;
    assert "=" == body[idx..idx + 1] == body[e - 1..e];
    Glued(body, idx, idx + 1, s);
    Glued(body, idx, s, i);
    Glued(body, idx, i, k);
    Glued(body, idx, k, t);
    Glued(body, idx, t, e - 1);
    Glued(body, idx, e - 1, e);
  }

  lemma Glued(body: string, a: nat, b: nat, c: nat)
    requires a <= b <= c <= |body|
    ensures body[a..c] == body[a..b] + body[b..c]
  {
  }

  lemma BrokenIsRefused(body: string, pos: nat, at: nat, open: string, close: string)
    requires pos <= |body| && Delimiter(open) && Delimiter(close) && Broken(body, pos, at, open, close)
    ensures Lex(body, pos, open, close).None?
  {
    hide ReadTag, Delimiter, Stands, Find, BadTag;
    DelimiterLong(open);
    DelimiterLong(close);
    var idx := at + |open|;
    FindsAt(body, open, pos, at);
    if Nowhere(body, close, idx) {
      FindsNowhere(body, close, idx);
    } else if Stands(body, close, idx) {
      FindsAt(body, close, idx, idx);
    } else {
      var e :| idx < e < |body| && FirstAt(body, close, idx, e) && BadTag(body, idx, e, open, close);
      FindsAt(body, close, idx, e);
      StandsInside(body, close, e);
      TagRefusedIff(body, idx, e, open, close);
    }
  }

  lemma StandsInside(body: string, d: string, i: nat)
    requires Stands(body, d, i)
    ensures i + |d| <= |body|
  {
  }

  lemma DelimiterLong(d: string)
    requires Delimiter(d)
    ensures |d| > 0
  {
  }

  /** The text of the tag, and what is behind it. */
  lemma {:induction false} BegunRead(body: string, pos: nat, x: Instr, form: Form, open: string, close: string)
    requires pos <= |body| && Delimiter(open) && Delimiter(close) && Writes(x, form, open, close)
    requires At(body, pos, Written(x, form, open, close))
    ensures var next := pos + |Written(x, form, open, close)|;
            && next <= |body| && Delimiter(OpenBy(form, open)) && Delimiter(CloseBy(form, close))
            && (Lex(body, pos, open, close).Some? <==> Lex(body, next, OpenBy(form, open), CloseBy(form, close)).Some?)
  {
    hide *;
    Tail(body, pos, Written(x, form, open, close));
    WrittenRead(body, pos, x, form, open, close, body[pos + |Written(x, form, open, close)|..]);
    NextDelimiters(x, form, open, close);
    LexAlike(body, pos, x, form, open, close);
  }

  lemma Tail(body: string, pos: nat, piece: string)
    requires At(body, pos, piece)
    ensures pos + |piece| <= |body| && body[pos..] == piece + body[pos + |piece|..]
  {
  }

  lemma NextDelimiters(x: Instr, form: Form, open: string, close: string)
    requires Writes(x, form, open, close) && Delimiter(open) && Delimiter(close)
    ensures Delimiter(OpenBy(form, open)) && Delimiter(CloseBy(form, close))
  {
    hide Clear, Inside;
  }

  lemma LexAlike(body: string, pos: nat, x: Instr, form: Form, open: string, close: string)
    requires Delimiter(open) && Delimiter(close) && FirstRead(body, pos, x, form, open, close)
    requires Delimiter(OpenBy(form, open)) && Delimiter(CloseBy(form, close))
    requires pos + |Written(x, form, open, close)| <= |body|
    ensures Lex(body, pos, open, close).Some?
       <==> Lex(body, pos + |Written(x, form, open, close)|, OpenBy(form, open), CloseBy(form, close)).Some?
  {
    hide ReadTag, Find, Stands, KindOf, OpName, Substr, Inside, Delimiter, Ending, OpenBy, CloseBy, At, Written;
    WrittenLength(x, form, open, close);
    var idx := pos + |x.text| + |open|;
    var tag := ReadTag(body, idx, idx + |Inside(x.op, form)|, open, close).value;
    assert tag.current == pos + |Written(x, form, open, close)|;
  }

  /** A text that is well written up to a broken tag is refused. */
  lemma {:induction false} RefusedBehind(body: string, pos: nat, code: seq<Instr>, forms: seq<Form>, rest: nat, at: nat,
                                         open: string, close: string, open': string, close': string)
    requires |forms| == |code| && Begun(body, pos, code, forms, rest, open, close, open', close')
    requires Delimiter(open') && Delimiter(close') && Broken(body, rest, at, open', close')
    ensures pos <= |body| && Delimiter(open) && Delimiter(close) && Lex(body, pos, open, close).None?
    decreases |code|
  {
    hide Broken, Lex, Written, Writes, Delimiter, OpenBy, CloseBy, At;
    if code == [] {
      BrokenIsRefused(body, rest, at, open', close');
    } else {
      BegunRead(body, pos, code[0], forms[0], open, close);
      RefusedBehind(body, pos + |Written(code[0], forms[0], open, close)|, code[1..], forms[1..], rest, at,
                    OpenBy(forms[0], open), CloseBy(forms[0], close), open', close');
    }
  }

  /** In particular parse refuses it. */
  lemma BrokenText(body: string, code: seq<Instr>, forms: seq<Form>, rest: nat, at: nat, open: string, close: string)
    requires |forms| == |code| && Begun(body, 0, code, forms, rest, "{{", "}}", open, close)
    requires Delimiter(open) && Delimiter(close) && Broken(body, rest, at, open, close)
    ensures !Accepted(body)
  {
    hide Broken, Begun, Lex;
    RefusedBehind(body, 0, code, forms, rest, at, "{{", "}}", open, close);
  }

  /** Written code that is not well nested, or leaves a block open, is refused, whatever its tags. */
  lemma UnbalancedText(body: string, code: seq<Instr>, forms: seq<Form>, last: string)
    requires |forms| == |code| && WellWritten(code, forms, last, "{{", "}}") && body == Source(code, forms, last, "{{", "}}")
    ensures Accepted(body) <==> OpenBehind(code) == Some([])
  {
    hide *;
    assert body[0..] == body;
    Braces();
    LexReads(body, 0, code, forms, last, "{{", "}}");
    var xs :| LexesTo(body, 0, "{{", "}}", xs) && AllRead(body, xs, code, last);
    LexInBody(body, 0, "{{", "}}");
    Balanced(body, xs, code, last);
  }

  lemma Braces()
    ensures Delimiter("{{") && Delimiter("}}")
  {
  }

  lemma Balanced(body: string, xs: seq<Lexeme>, code: seq<Instr>, last: string)
    requires LexesTo(body, 0, "{{", "}}", xs) && AllRead(body, xs, code, last)
    requires Lex(body, 0, "{{", "}}").Some? ==> InBody(body, Lex(body, 0, "{{", "}}").value)
    ensures Accepted(body) <==> OpenBehind(code) == Some([])
  {
    hide StillOpen, OpenBehind, Reads, InBody, Lex;
    var all := code + [Instr(last, Skip)];
    StillOpenReads(body, xs, all);
    SkipKeepsOpen(code, last);
  }

  lemma SkipKeepsOpen(code: seq<Instr>, last: string)
    ensures OpenBehind(code + [Instr(last, Skip)]) == OpenBehind(code)
  {
    var all := code + [Instr(last, Skip)];
    assert all[..|all| - 1] == code;
  }
}
