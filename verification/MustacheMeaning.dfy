/**
 Templates of `mustache.h` as nested trees and as the flat list of actions that `parse` compiles to, and what it
 means to render a tree. Names are undotted, there are no partials and no lambdas, and the indentation is zero.
 */
module MustacheMeaning {
  import opened Wrappers

  /** The context values of json::wvalue; a number is kept as the text that `dump` gives for it. */
  datatype Json =
    | Null | False | True
    | Number(text: string)
    | String(s: string)
    | List(items: seq<Json>)
    | Object(fields: map<string, Json>)

  // ---------------------------------------------------------------- nested templates

  /** A piece of text and the tag behind it. */
  datatype Item = Item(text: string, tag: Tag)

  datatype Tag =
    | Comment
    | Variable(name: string, escaped: bool)
    | Partial(name: string)
    | Section(name: string, body: Template)
    | Inverted(name: string, body: Template)

  datatype Template = Template(items: seq<Item>, last: string)

  // ---------------------------------------------------------------- looking names up

  /** find_context for "." and for undotted names: the innermost object that has the key. */
  function FindContext(name: string, stack: seq<Json>): Option<Json>
    requires stack != []
  {
    if name == "." then Some(stack[|stack| - 1]) else FindKey(name, stack)
  }

  function FindKey(name: string, stack: seq<Json>): Option<Json> {
    if stack == [] then None
    else
      var top := stack[|stack| - 1];
      if top.Object? && name in top.fields then Some(top.fields[name]) else FindKey(name, stack[..|stack| - 1])
  }

  function EscapeChar(c: char): string {
    match c
    case '&' => "&amp;"
    case '<' => "&lt;"
    case '>' => "&gt;"
    case '"' => "&quot;"
    case '\'' => "&#39;"
    case '/' => "&#x2F;"
    case '`' => "&#x60;"
    case '=' => "&#x3D;"
    case _ => [c]
  }

  function Escape(s: string): string {
    if s == "" then "" else EscapeChar(s[0]) + Escape(s[1..])
  }

  /** What a variable tag prints; nothing (an exception) for null, lists and objects. */
  function PrintValue(found: Option<Json>, escaped: bool): Option<string> {
    if found.None? then Some("")
    else
      match found.value
      case False => Some("false")
      case True => Some("true")
      case Number(text) => Some(text)
      case String(s) => Some(if escaped then Escape(s) else s)
      case _ => None
  }

  /** The contexts a section's body is rendered in, one after the other. */
  function SectionContexts(found: Option<Json>): seq<Json> {
    if found.None? then []
    else
      match found.value
      case List(items) => items
      case False => []
      case Null => []
      case v => [v]
  }

  predicate InvertedShows(found: Option<Json>) {
    found.None? || found.value.False? || found.value.Null? || found.value == List([])
  }

  // ---------------------------------------------------------------- the meaning of a template

  function Cat(a: Option<string>, b: Option<string>): Option<string> {
    if a.None? || b.None? then None else Some(a.value + b.value)
  }

  /** The text a template renders to under a stack of contexts; nothing if rendering throws. */
  function Render(t: Template, stack: seq<Json>): Option<string>
    requires stack != []
    decreases t, 0
  {
    Cat(RenderItems(t.items, stack), Some(t.last))
  }

  function RenderItems(items: seq<Item>, stack: seq<Json>): Option<string>
    requires stack != []
    decreases items, 0
  {
    if items == [] then Some("")
    else Cat(Cat(Some(items[0].text), RenderTag(items[0].tag, stack)), RenderItems(items[1..], stack))
  }

  function RenderTag(tag: Tag, stack: seq<Json>): Option<string>
    requires stack != []
    decreases tag, 0
  {
    match tag
    case Comment => Some("")
    case Variable(name, escaped) => PrintValue(FindContext(name, stack), escaped)
    case Partial(_) => None // not rendered in this model: see NoPartials in MustacheTemplate.dfy
    case Section(name, body) => RenderEach(body, SectionContexts(FindContext(name, stack)), stack)
    case Inverted(name, body) => if InvertedShows(FindContext(name, stack)) then Render(body, stack + [Null]) else Some("")
  }

  /** A body once for each context, with that context on top. */
  function RenderEach(body: Template, contexts: seq<Json>, stack: seq<Json>): Option<string>
    requires stack != []
    decreases body, 1, |contexts|
  {
    if contexts == [] then Some("")
    else Cat(Render(body, stack + [contexts[0]]), RenderEach(body, contexts[1..], stack))
  }

  // ---------------------------------------------------------------- flat code

  /** What an action does; `pos` is where the matching close tag's action stands. */
  datatype Op =
    | Skip
    | Print(name: string, escaped: bool)
    | Open(name: string, pos: int)
    | Else(name: string, pos: int)
    | Close(name: string)
    | Include(name: string)

  /** A fragment of text and the action behind it. */
  datatype Instr = Instr(text: string, op: Op)

  /** Actions `b..e` are well nested: every opening tag's `pos` is a close tag of the same name inside, and what stands
      between the two is well nested, as is what follows. */
  predicate WellNested(code: seq<Instr>, b: nat, e: nat)
    requires b <= e <= |code|
    decreases e - b
  {
    b == e ||
    (match code[b].op
     case Open(name, pos) => Block(code, b, e, name, pos) && WellNested(code, b + 1, pos) && WellNested(code, pos + 1, e)
     case Else(name, pos) => Block(code, b, e, name, pos) && WellNested(code, b + 1, pos) && WellNested(code, pos + 1, e)
     case Skip => WellNested(code, b + 1, e)
     case Print(_, _) => WellNested(code, b + 1, e)
     case Include(_) => WellNested(code, b + 1, e)
     case Close(_) => false)
  }

  predicate Block(code: seq<Instr>, b: nat, e: nat, name: string, pos: int)
    requires b < e <= |code|
  {
    b < pos < e && code[pos].op == Close(name)
  }

  /** The nested template that actions `b..e` stand for. */
  function TreeItems(code: seq<Instr>, b: nat, e: nat): seq<Item>
    requires b <= e <= |code| && WellNested(code, b, e)
    decreases e - b, 0
  {
    if b == e then []
    else
      var text := code[b].text;
      match code[b].op
      case Open(name, pos) => [Item(text, Section(name, Tree(code, b + 1, pos)))] + TreeItems(code, pos + 1, e)
      case Else(name, pos) => [Item(text, Inverted(name, Tree(code, b + 1, pos)))] + TreeItems(code, pos + 1, e)
      case Print(name, escaped) => [Item(text, Variable(name, escaped))] + TreeItems(code, b + 1, e)
      case Include(name) => [Item(text, Partial(name))] + TreeItems(code, b + 1, e)
      case Skip => [Item(text, Comment)] + TreeItems(code, b + 1, e)
  }

  function Tree(code: seq<Instr>, b: nat, e: nat): Template
    requires b <= e < |code| && WellNested(code, b, e)
    decreases e - b, 1
  {
    Template(TreeItems(code, b, e), code[e].text)
  }

  // ---------------------------------------------------------------- flattening, and back

  function Size(items: seq<Item>): nat
    decreases items, 1
  {
    if items == [] then 0 else TagSize(items[0].tag) + Size(items[1..])
  }

  function TagSize(tag: Tag): nat
    decreases tag, 1
  {
    match tag
    case Section(_, body) => 2 + Size(body.items)
    case Inverted(_, body) => 2 + Size(body.items)
    case _ => 1
  }

  /** The code of a template whose first action stands at `base`, without its last text. */
  function Flatten(items: seq<Item>, base: nat): (r: seq<Instr>)
    ensures |r| == Size(items)
    decreases items, 1
  {
    if items == [] then [] else FlattenItem(items[0], base) + Flatten(items[1..], base + TagSize(items[0].tag))
  }

  function FlattenItem(item: Item, base: nat): (r: seq<Instr>)
    ensures |r| == TagSize(item.tag)
    decreases item, 0
  {
    match item.tag
    case Comment => [Instr(item.text, Skip)]
    case Variable(name, escaped) => [Instr(item.text, Print(name, escaped))]
    case Partial(name) => [Instr(item.text, Include(name))]
    case Section(name, body) =>
      [Instr(item.text, Open(name, base + 1 + Size(body.items)))] + Flatten(body.items, base + 1) + [Instr(body.last, Close(name))]
    case Inverted(name, body) =>
      [Instr(item.text, Else(name, base + 1 + Size(body.items)))] + Flatten(body.items, base + 1) + [Instr(body.last, Close(name))]
  }

  lemma FlattenCons(item: Item, rest: seq<Item>, base: nat)
    ensures Flatten([item] + rest, base) == FlattenItem(item, base) + Flatten(rest, base + TagSize(item.tag))
  {
    assert ([item] + rest)[1..] == rest;
  }

  /** The tree read off well-nested code flattens to that very code: no action, jump or text is lost or made up. */
  lemma {:induction false} TreeFlattens(code: seq<Instr>, b: nat, e: nat)
    requires b <= e <= |code| && WellNested(code, b, e)
    ensures Flatten(TreeItems(code, b, e), b) == code[b..e]
    decreases e - b
  {
    if b < e {
      hide Flatten, TreeItems;
      FirstNested(code, b, e);
      hide WellNested;
      if code[b].op.Open? || code[b].op.Else? {
        var pos := code[b].op.pos;
        TreeFlattens(code, b + 1, pos);
        TreeFlattens(code, pos + 1, e);
        BlockFlattens(code, b, pos, e);
      } else {
        TreeFlattens(code, b + 1, e);
        PlainItem(code, b, e);
      }
    }
  }

  lemma FirstNested(code: seq<Instr>, b: nat, e: nat)
    requires b < e <= |code| && WellNested(code, b, e)
    ensures if code[b].op.Open? || code[b].op.Else? then
              b < code[b].op.pos < e && WellNested(code, b + 1, code[b].op.pos) && WellNested(code, code[b].op.pos + 1, e)
            else WellNested(code, b + 1, e)
  {
  }

  /** The item of an action that opens no block. */
  function PlainTag(x: Instr): Item
    requires !x.op.Open? && !x.op.Else? && !x.op.Close?
  {
    Item(x.text, if x.op.Skip? then Comment
                 else if x.op.Include? then Partial(x.op.name)
                 else Variable(x.op.name, x.op.escaped))
  }

  lemma PlainFirst(code: seq<Instr>, b: nat, e: nat)
    requires b < e <= |code| && WellNested(code, b, e) && !code[b].op.Open? && !code[b].op.Else?
    ensures WellNested(code, b + 1, e) && !code[b].op.Close?
    ensures TreeItems(code, b, e) == [PlainTag(code[b])] + TreeItems(code, b + 1, e)
  {
  }

  lemma PlainFlattens(x: Instr, b: nat)
    requires !x.op.Open? && !x.op.Else? && !x.op.Close?
    ensures FlattenItem(PlainTag(x), b) == [x] && TagSize(PlainTag(x).tag) == 1
  {
  }

  lemma PlainItem(code: seq<Instr>, b: nat, e: nat)
    requires b < e <= |code| && WellNested(code, b, e) && !code[b].op.Open? && !code[b].op.Else?
    requires Flatten(TreeItems(code, b + 1, e), b + 1) == code[b + 1..e]
    ensures Flatten(TreeItems(code, b, e), b) == code[b..e]
  {
    hide Flatten, FlattenItem, TreeItems, WellNested, PlainTag, TagSize;
    PlainFirst(code, b, e);
    PlainFlattens(code[b], b);
    FlattenCons(PlainTag(code[b]), TreeItems(code, b + 1, e), b);
    assert code[b..e] == [code[b]] + code[b + 1..e];
  }

  lemma BlockFlattens(code: seq<Instr>, b: nat, pos: nat, e: nat)
    requires b < e <= |code| && WellNested(code, b, e)
    requires (code[b].op.Open? || code[b].op.Else?) && code[b].op.pos == pos
    requires Flatten(TreeItems(code, b + 1, pos), b + 1) == code[b + 1..pos]
    requires Flatten(TreeItems(code, pos + 1, e), pos + 1) == code[pos + 1..e]
    ensures Flatten(TreeItems(code, b, e), b) == code[b..e]
  {
    hide TreeItems, FlattenItem, Flatten, BlockTag, TagSize;
    BlockItem(code, b, pos, e);
    FlattenCons(BlockTag(code, b, pos), TreeItems(code, pos + 1, e), b);
    assert code[b..e] == ([code[b]] + code[b + 1..pos] + [code[pos]]) + code[pos + 1..e];
  }

  /** The section or inverted section whose block stands at `b..pos`. */
  function BlockTag(code: seq<Instr>, b: nat, pos: nat): Item
    requires b < pos < |code| && (code[b].op.Open? || code[b].op.Else?) && WellNested(code, b + 1, pos)
  {
    var body := Tree(code, b + 1, pos);
    Item(code[b].text, if code[b].op.Open? then Section(code[b].op.name, body) else Inverted(code[b].op.name, body))
  }

  lemma BlockItem(code: seq<Instr>, b: nat, pos: nat, e: nat)
    requires b < e <= |code| && WellNested(code, b, e)
    requires (code[b].op.Open? || code[b].op.Else?) && code[b].op.pos == pos
    requires Flatten(TreeItems(code, b + 1, pos), b + 1) == code[b + 1..pos]
    ensures TreeItems(code, b, e) == [BlockTag(code, b, pos)] + TreeItems(code, pos + 1, e)
    ensures TagSize(BlockTag(code, b, pos).tag) == pos + 1 - b
    ensures FlattenItem(BlockTag(code, b, pos), b) == [code[b]] + code[b + 1..pos] + [code[pos]]
  {
    FirstNested(code, b, e);
    TreeItemsFirst(code, b, e);
    hide WellNested, TreeItems, Flatten;
    var items := TreeItems(code, b + 1, pos);
    assert |Flatten(items, b + 1)| == Size(items);
    assert Size(items) == pos - (b + 1);
    FlattenBlock(code, b, pos);
  }

  lemma TreeItemsFirst(code: seq<Instr>, b: nat, e: nat)
    requires b < e <= |code| && WellNested(code, b, e) && (code[b].op.Open? || code[b].op.Else?)
    ensures var pos := code[b].op.pos;
            && b < pos < e && code[pos].op == Close(code[b].op.name) && WellNested(code, b + 1, pos) && WellNested(code, pos + 1, e)
            && TreeItems(code, b, e) == [BlockTag(code, b, pos)] + TreeItems(code, pos + 1, e)
  {
  }

  lemma FlattenBlock(code: seq<Instr>, b: nat, pos: nat)
    requires b < pos < |code| && (code[b].op.Open? || code[b].op.Else?) && WellNested(code, b + 1, pos) && code[b].op.pos == pos
    requires code[pos].op == Close(code[b].op.name) && Size(TreeItems(code, b + 1, pos)) == pos - (b + 1)
    requires Flatten(TreeItems(code, b + 1, pos), b + 1) == code[b + 1..pos]
    ensures TagSize(BlockTag(code, b, pos).tag) == pos + 1 - b
    ensures FlattenItem(BlockTag(code, b, pos), b) == [code[b]] + code[b + 1..pos] + [code[pos]]
  {
    hide WellNested, TreeItems, Flatten;
  }

  // ---------------------------------------------------------------- every template has such code

  /** The code at `b` is the flattening of `items`. */
  predicate Holds(code: seq<Instr>, b: nat, items: seq<Item>) {
    b + Size(items) <= |code| && code[b..b + Size(items)] == Flatten(items, b)
  }

  /** The flat code of any template is well nested and reads back as that template. */
  lemma {:induction false} FlattenReadsBack(code: seq<Instr>, b: nat, items: seq<Item>)
    requires Holds(code, b, items)
    ensures WellNested(code, b, b + Size(items)) && TreeItems(code, b, b + Size(items)) == items
    decreases items, 1
  {
    if items != [] {
      hide Flatten, FlattenItem, TreeItems, WellNested, TagSize, Holds;
      HoldsParts(code, b, items);
      FlattenReadsBack(code, b + TagSize(items[0].tag), items[1..]);
      assert Size(items) == TagSize(items[0].tag) + Size(items[1..]);
      TagReadsBack(code, b, items[0], items[1..]);
      assert items == [items[0]] + items[1..];
    }
  }

  lemma HoldsParts(code: seq<Instr>, b: nat, items: seq<Item>)
    requires items != [] && Holds(code, b, items)
    ensures b + TagSize(items[0].tag) <= |code|
    ensures code[b..b + TagSize(items[0].tag)] == FlattenItem(items[0], b)
    ensures Holds(code, b + TagSize(items[0].tag), items[1..])
  {
    var m, n := b + TagSize(items[0].tag), b + Size(items);
    assert n == m + Size(items[1..]);
    FlattenCons(items[0], items[1..], b);
    assert items == [items[0]] + items[1..];
    hide FlattenItem, Flatten, TagSize, Size;
    var x, y := FlattenItem(items[0], b), Flatten(items[1..], m);
    SliceParts(code, b, m, n, x, y);
  }

  lemma SliceParts<T>(s: seq<T>, b: nat, m: nat, n: nat, x: seq<T>, y: seq<T>)
    requires b <= m <= n <= |s| && s[b..n] == x + y && |x| == m - b
    ensures s[b..m] == x && s[m..n] == y
  {
    assert s[b..m] == s[b..n][..m - b];
    assert s[m..n] == s[b..n][m - b..];
  }

  lemma {:induction false} TagReadsBack(code: seq<Instr>, b: nat, item: Item, rest: seq<Item>)
    requires b + TagSize(item.tag) <= |code| && code[b..b + TagSize(item.tag)] == FlattenItem(item, b)
    requires var m := b + TagSize(item.tag);
             m + Size(rest) <= |code| && WellNested(code, m, m + Size(rest)) && TreeItems(code, m, m + Size(rest)) == rest
    ensures var e := b + TagSize(item.tag) + Size(rest);
            WellNested(code, b, e) && TreeItems(code, b, e) == [item] + rest
    decreases item, 0
  {
    if item.tag.Section? || item.tag.Inverted? {
      hide Flatten, FlattenItem, TreeItems, WellNested, Holds;
      BlockParts(code, b, item);
      FlattenReadsBack(code, b + 1, item.tag.body.items);
      ReadBlock(code, b, item, rest);
    } else {
      hide Flatten;
      assert code[b] == code[b..b + TagSize(item.tag)][0];
    }
  }

  lemma ReadBlock(code: seq<Instr>, b: nat, item: Item, rest: seq<Item>)
    requires item.tag.Section? || item.tag.Inverted?
    requires b + TagSize(item.tag) + Size(rest) <= |code|
    requires var pos := b + 1 + Size(item.tag.body.items);
             && code[b] == Instr(item.text, if item.tag.Section? then Open(item.tag.name, pos) else Else(item.tag.name, pos))
             && code[pos] == Instr(item.tag.body.last, Close(item.tag.name))
             && WellNested(code, b + 1, pos) && TreeItems(code, b + 1, pos) == item.tag.body.items
    requires var m := b + TagSize(item.tag);
             WellNested(code, m, m + Size(rest)) && TreeItems(code, m, m + Size(rest)) == rest
    ensures var e := b + TagSize(item.tag) + Size(rest);
            WellNested(code, b, e) && TreeItems(code, b, e) == [item] + rest
  {
    hide Flatten, FlattenItem;
    var pos := b + 1 + Size(item.tag.body.items);
    var e := pos + 1 + Size(rest);
    assert Tree(code, b + 1, pos) == item.tag.body;
    assert WellNested(code, b, e);
  }

  lemma BlockParts(code: seq<Instr>, b: nat, item: Item)
    requires item.tag.Section? || item.tag.Inverted?
    requires b + TagSize(item.tag) <= |code| && code[b..b + TagSize(item.tag)] == FlattenItem(item, b)
    ensures var pos := b + 1 + Size(item.tag.body.items);
            && pos + 1 == b + TagSize(item.tag)
            && code[b] == Instr(item.text, if item.tag.Section? then Open(item.tag.name, pos) else Else(item.tag.name, pos))
            && code[pos] == Instr(item.tag.body.last, Close(item.tag.name))
            && Holds(code, b + 1, item.tag.body.items)
  {
    var m := b + TagSize(item.tag);
    var pos := b + 1 + Size(item.tag.body.items);
    var inner := Flatten(item.tag.body.items, b + 1);
    var x := Instr(item.text, if item.tag.Section? then Open(item.tag.name, pos) else Else(item.tag.name, pos));
    var y := Instr(item.tag.body.last, Close(item.tag.name));
    assert code[b..m] == [x] + inner + [y] && m == pos + 1 && |inner| == pos - b - 1;
    hide Flatten, FlattenItem, Size, TagSize;
    var block := [x] + inner + [y];
    assert block[0] == code[b] && block[pos - b] == code[pos];
    forall i | 0 <= i < |inner| ensures code[b + 1 + i] == inner[i] {
      assert code[b..m][1 + i] == code[b + 1 + i] && block[1 + i] == inner[i];
    }
    assert block[1..pos - b] == inner;
  }

  // ---------------------------------------------------------------- well-nestedness, piecewise

  predicate SameOps(c: seq<Instr>, d: seq<Instr>, b: nat, e: nat)
    requires b <= e <= |c| && e <= |d|
  {
    forall i :: b <= i < e ==> c[i].op == d[i].op
  }

  lemma {:induction false} NestingNeedsOps(c: seq<Instr>, d: seq<Instr>, b: nat, e: nat)
    requires b <= e <= |c| && e <= |d| && SameOps(c, d, b, e) && WellNested(c, b, e)
    ensures WellNested(d, b, e)
    decreases e - b
  {
    if b < e {
      if c[b].op.Open? || c[b].op.Else? {
        NestingNeedsOps(c, d, b + 1, c[b].op.pos);
        NestingNeedsOps(c, d, c[b].op.pos + 1, e);
      } else {
        NestingNeedsOps(c, d, b + 1, e);
      }
    }
  }

  lemma {:induction false} NestingJoins(code: seq<Instr>, b: nat, m: nat, e: nat)
    requires b <= m <= e <= |code| && WellNested(code, b, m) && WellNested(code, m, e)
    ensures WellNested(code, b, e)
    decreases m - b
  {
    if b < m {
      if code[b].op.Open? || code[b].op.Else? {
        NestingJoins(code, code[b].op.pos + 1, m, e);
      } else {
        NestingJoins(code, b + 1, m, e);
      }
    }
  }
}
