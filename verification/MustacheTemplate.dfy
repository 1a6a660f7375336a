/** `template_t`: `parse` and `render_internal` of `mustache.h`, against the nested templates of MustacheMeaning.dfy. */
module MustacheTemplate {
  import opened Wrappers
  import opened MustacheMeaning
  import opened MustacheText
  import opened MustacheLines

  /** `start` and `end` may cross when a tag holds nothing but spaces. */
  datatype Action = Action(hasEndMatch: bool, start: nat, end: nat, pos: nat, t: ActionType)

  // ---------------------------------------------------------------- actions as code

  function OpOf(body: string, a: Action): Op
    requires a.start <= |body| && a.end <= |body|
  {
    var name := Substr(body, a.start, a.end);
    match a.t
    case Ignore => Skip
    case TagAction => Print(name, true)
    case UnescapeTag => Print(name, false)
    case OpenBlock => Open(name, a.pos)
    case ElseBlock => Else(name, a.pos)
    case CloseBlock => Close(name)
    case PartialAction => Include(name)
  }

  predicate Bounded(body: string, fragments: seq<(nat, nat)>, actions: seq<Action>) {
    && (forall a <- actions :: a.start <= |body| && a.end <= |body|)
    && (forall f <- fragments :: f.0 <= |body| && f.1 <= |body|)
    && |actions| <= |fragments|
  }

  function CodeOf(body: string, fragments: seq<(nat, nat)>, actions: seq<Action>): (code: seq<Instr>)
    requires Bounded(body, fragments, actions)
    ensures |code| == |actions|
  {
    seq(|actions|, i requires 0 <= i < |actions| =>
      Instr(Substr(body, fragments[i].0, fragments[i].1), OpOf(body, actions[i])))
  }

  /** Behind the last open block. */
  function From(blocks: seq<nat>): nat {
    if blocks == [] then 0 else blocks[|blocks| - 1] + 1
  }

  /** `blocks` are the positions of the blocks still open at `e`; what stands between them is well nested. */
  predicate Chain(code: seq<Instr>, blocks: seq<nat>, e: nat)
    requires e <= |code|
    decreases |blocks|
  {
    && From(blocks) <= e
    && WellNested(code, From(blocks), e)
    && (blocks != [] ==>
          var p := blocks[|blocks| - 1];
          && (code[p].op.Open? || code[p].op.Else?)
          && Chain(code, blocks[..|blocks| - 1], p))
  }

  lemma {:induction false} ChainNeedsOps(c: seq<Instr>, d: seq<Instr>, blocks: seq<nat>, e: nat)
    requires e <= |c| && e <= |d| && SameOps(c, d, 0, e) && Chain(c, blocks, e)
    ensures Chain(d, blocks, e)
    decreases |blocks|
  {
    NestingNeedsOps(c, d, From(blocks), e);
    if blocks != [] { ChainNeedsOps(c, d, blocks[..|blocks| - 1], blocks[|blocks| - 1]); }
  }

  lemma ChainGrows(code: seq<Instr>, blocks: seq<nat>, x: Instr)
    requires Chain(code, blocks, |code|) && (x.op.Skip? || x.op.Print? || x.op.Include?)
    ensures Chain(code + [x], blocks, |code| + 1)
  {
    var d := code + [x];
    ChainNeedsOps(code, d, blocks, |code|);
    assert WellNested(d, |code|, |code| + 1);
    NestingJoins(d, From(blocks), |code|, |code| + 1);
  }

  lemma ChainOpens(code: seq<Instr>, blocks: seq<nat>, x: Instr)
    requires Chain(code, blocks, |code|) && (x.op.Open? || x.op.Else?)
    ensures Chain(code + [x], blocks + [|code|], |code| + 1)
  {
    ChainNeedsOps(code, code + [x], blocks, |code|);
    assert (blocks + [|code|])[..|blocks|] == blocks;
  }

  /** The opening tag at `p` once its closing tag has been found at `n`. */
  function Matched(x: Instr, n: nat): Instr {
    match x.op
    case Open(name, _) => x.(op := Open(name, n))
    case Else(name, _) => x.(op := Else(name, n))
    case _ => x
  }

  lemma BlockNests(d: seq<Instr>, p: nat, n: nat)
    requires p < n < |d| && (d[p].op.Open? || d[p].op.Else?) && d[p].op.pos == n
    requires d[n].op == Close(d[p].op.name) && WellNested(d, p + 1, n)
    ensures WellNested(d, p, n + 1)
  {
    assert WellNested(d, n + 1, n + 1);
  }

  lemma ChainCloses(code: seq<Instr>, blocks: seq<nat>, x: Instr)
    requires Chain(code, blocks, |code|) && blocks != []
    requires x.op == Close(code[blocks[|blocks| - 1]].op.name)
    ensures var p := blocks[|blocks| - 1];
            Chain(code[p := Matched(code[p], |code|)] + [x], blocks[..|blocks| - 1], |code| + 1)
  {
    hide WellNested, Chain, From, Matched;
    ChainEnds(code, blocks, |code|);
    var n, p, front := |code|, blocks[|blocks| - 1], blocks[..|blocks| - 1];
    var d := code[p := Matched(code[p], n)] + [x];
    MatchedOps(code, d, p, n);
    ChainNeedsOps(code, d, front, p);
    NestingNeedsOps(code, d, p + 1, n);
    BlockNests(d, p, n);
    ChainWiden(d, front, p, n + 1);
  }

  lemma ChainEnds(code: seq<Instr>, blocks: seq<nat>, n: nat)
    requires n <= |code| && Chain(code, blocks, n) && blocks != []
    ensures var p, front := blocks[|blocks| - 1], blocks[..|blocks| - 1];
            p < n && (code[p].op.Open? || code[p].op.Else?) && Chain(code, front, p) && WellNested(code, p + 1, n)
  {
    hide WellNested;
  }

  lemma MatchedOps(code: seq<Instr>, d: seq<Instr>, p: nat, n: nat)
    requires p < n == |code| && |d| == n + 1 && (code[p].op.Open? || code[p].op.Else?)
    requires d[..n] == code[p := Matched(code[p], n)] && d[n].op == Close(code[p].op.name)
    ensures SameOps(code, d, 0, p) && SameOps(code, d, p + 1, n)
    ensures (d[p].op.Open? || d[p].op.Else?) && d[p].op.pos == n && d[p].op.name == code[p].op.name
  {
    assert forall i :: 0 <= i < n ==> d[i] == d[..n][i];
  }

  lemma ChainWiden(d: seq<Instr>, blocks: seq<nat>, p: nat, e: nat)
    requires p <= e <= |d| && Chain(d, blocks, p) && WellNested(d, p, e)
    ensures Chain(d, blocks, e)
  {
    hide WellNested;
    NestingJoins(d, From(blocks), p, e);
  }

  // ---------------------------------------------------------------- what is left to render

  /** `ends` are the ends of the ranges being rendered, outermost first: that of the call, and those of the sections
      entered without a call, whose close tag pops the context. */
  predicate Levels(code: seq<Instr>, cur: nat, ends: seq<nat>)
    decreases |ends|
  {
    && ends != []
    && var e := ends[|ends| - 1];
       && cur <= e < |code| && WellNested(code, cur, e)
       && (|ends| > 1 ==> code[e].op.Close? && Levels(code, e + 1, ends[..|ends| - 1]))
  }

  /** The output still to come. */
  function Remaining(code: seq<Instr>, cur: nat, ends: seq<nat>, stack: seq<Json>): Option<string>
    requires Levels(code, cur, ends) && |stack| >= |ends|
    decreases |ends|
  {
    var e := ends[|ends| - 1];
    var now := Render(Tree(code, cur, e), stack);
    if |ends| == 1 then now
    else Cat(now, Remaining(code, e + 1, ends[..|ends| - 1], stack[..|stack| - 1]))
  }

  lemma {:induction false} LevelsAscend(code: seq<Instr>, cur: nat, ends: seq<nat>)
    requires Levels(code, cur, ends)
    ensures cur <= ends[|ends| - 1] <= ends[0] && (cur == ends[0] ==> |ends| == 1)
    decreases |ends|
  {
    if |ends| > 1 { LevelsAscend(code, ends[|ends| - 1] + 1, ends[..|ends| - 1]); }
  }

  /** The tag at `cur`, and where the code goes on behind it. */
  function TagAt(code: seq<Instr>, cur: nat, e: nat): Tag
    requires cur < e < |code| && WellNested(code, cur, e)
  {
    TreeItems(code, cur, e)[0].tag
  }

  function Behind(code: seq<Instr>, cur: nat, e: nat): nat
    requires cur < e < |code| && WellNested(code, cur, e)
  {
    if code[cur].op.Open? || code[cur].op.Else? then code[cur].op.pos + 1 else cur + 1
  }

  lemma NextLevels(code: seq<Instr>, cur: nat, ends: seq<nat>)
    requires Levels(code, cur, ends) && cur < ends[|ends| - 1]
    ensures Levels(code, Behind(code, cur, ends[|ends| - 1]), ends)
  {
  }

  /** What the item at `cur` contributes comes first. */
  lemma FirstItem(code: seq<Instr>, cur: nat, e: nat, stack: seq<Json>)
    requires cur < e < |code| && WellNested(code, cur, e) && stack != []
    ensures WellNested(code, Behind(code, cur, e), e)
    ensures Render(Tree(code, cur, e), stack) ==
              Cat(Cat(Some(code[cur].text), RenderTag(TagAt(code, cur, e), stack)), Render(Tree(code, Behind(code, cur, e), e), stack))
  {
    hide RenderTag;
    var items := TreeItems(code, cur, e);
    assert items[0].text == code[cur].text;
    assert items[1..] == TreeItems(code, Behind(code, cur, e), e);
    hide TreeItems;
    CatJoins(Cat(Some(code[cur].text), RenderTag(items[0].tag, stack)), RenderItems(items[1..], stack), Some(code[e].text));
  }

  lemma CatJoins(a: Option<string>, b: Option<string>, c: Option<string>)
    ensures Cat(Cat(a, b), c) == Cat(a, Cat(b, c))
  {
    if a.Some? && b.Some? && c.Some? { assert (a.value + b.value) + c.value == a.value + (b.value + c.value); }
  }

  lemma RemainingStep(code: seq<Instr>, cur: nat, ends: seq<nat>, stack: seq<Json>)
    requires Levels(code, cur, ends) && |stack| >= |ends| && cur < ends[|ends| - 1]
    ensures var e := ends[|ends| - 1];
            && cur < Behind(code, cur, e) <= e && Levels(code, Behind(code, cur, e), ends)
            && Remaining(code, cur, ends, stack) ==
                 Cat(Cat(Some(code[cur].text), RenderTag(TagAt(code, cur, e), stack)), Remaining(code, Behind(code, cur, e), ends, stack))
  {
    hide RenderTag, Render, TreeItems;
    var e := ends[|ends| - 1];
    NextLevels(code, cur, ends);
    FirstItem(code, cur, e, stack);
    if |ends| > 1 {
      CatJoins(Cat(Some(code[cur].text), RenderTag(TagAt(code, cur, e), stack)), Render(Tree(code, Behind(code, cur, e), e), stack),
               Remaining(code, e + 1, ends[..|ends| - 1], stack[..|stack| - 1]));
    }
  }

  /** A close tag reached from inside: its text, then on under the outer context. */
  lemma RemainingClose(code: seq<Instr>, cur: nat, ends: seq<nat>, stack: seq<Json>)
    requires Levels(code, cur, ends) && |stack| >= |ends| > 1 && cur == ends[|ends| - 1]
    ensures Remaining(code, cur, ends, stack) ==
              Cat(Some(code[cur].text), Remaining(code, cur + 1, ends[..|ends| - 1], stack[..|stack| - 1]))
  {
    assert Render(Tree(code, cur, cur), stack) == Some(code[cur].text) by { assert "" + code[cur].text == code[cur].text; }
  }

  lemma RemainingEnd(code: seq<Instr>, cur: nat, ends: seq<nat>, stack: seq<Json>)
    requires Levels(code, cur, ends) && |stack| >= |ends| == 1 && cur == ends[0]
    ensures Remaining(code, cur, ends, stack) == Some(code[cur].text)
  {
    assert Render(Tree(code, cur, cur), stack) == Some(code[cur].text) by { assert "" + code[cur].text == code[cur].text; }
  }

  /** Entering the block at `cur` without a call. */
  lemma RemainingEnter(code: seq<Instr>, cur: nat, ends: seq<nat>, stack: seq<Json>, v: Json)
    requires Levels(code, cur, ends) && |stack| >= |ends| && cur < ends[|ends| - 1]
    requires code[cur].op.Open? || code[cur].op.Else?
    ensures var pos := code[cur].op.pos;
            && Levels(code, pos + 1, ends) && pos >= 0 && Levels(code, cur + 1, ends + [pos])
            && Remaining(code, cur + 1, ends + [pos], stack + [v]) ==
                 Cat(Render(Tree(code, cur + 1, pos), stack + [v]), Remaining(code, pos + 1, ends, stack))
  {
    hide Render, TreeItems;
    var pos := code[cur].op.pos;
    NextLevels(code, cur, ends);
    assert (ends + [pos])[..|ends|] == ends && (stack + [v])[..|stack|] == stack;
  }

  lemma {:induction false} EachJoins(body: Template, a: seq<Json>, b: seq<Json>, stack: seq<Json>)
    requires stack != []
    ensures RenderEach(body, a + b, stack) == Cat(RenderEach(body, a, stack), RenderEach(body, b, stack))
    decreases |a|
  {
    hide Render;
    if a == [] {
      assert a + b == b;
      var r := RenderEach(body, b, stack);
      if r.Some? { assert "" + r.value == r.value; }
    } else {
      EachJoins(body, a[1..], b, stack);
      assert (a + b)[1..] == a[1..] + b;
      CatJoins(Render(body, stack + [a[0]]), RenderEach(body, a[1..], stack), RenderEach(body, b, stack));
    }
  }

  lemma EachOne(body: Template, v: Json, stack: seq<Json>)
    requires stack != []
    ensures RenderEach(body, [v], stack) == Render(body, stack + [v])
  {
    hide Render;
    assert [v][1..] == [];
    var r := Render(body, stack + [v]);
    if r.Some? { assert r.value + "" == r.value; }
  }

  // ---------------------------------------------------------------- the template object

  class RenderState {
    var stack: seq<Json>
    var out: string

    constructor (ctx: Json)
      ensures stack == [ctx] && out == ""
    {
      stack, out := [ctx], "";
    }
  }

  /** What NextLexeme found. */
  datatype Reading = Malformed | LastText(x: Lexeme) | OneTag(x: Lexeme, tag: TagText)

  predicate Unmatched(a: Action) {
    (a.t.OpenBlock? || a.t.ElseBlock?) && !a.hasEndMatch
  }

  predicate Blanks(body: string, i: nat, j: nat) {
    forall k :: i <= k < j && k < |body| ==> body[k] == ' ' || body[k] == '\r' || body[k] == '\n'
  }

  /** The same tags, whatever became of `pos` and `has_end_match`. */
  predicate SameTags(a: seq<Action>, b: seq<Action>) {
    |a| == |b| && forall i :: 0 <= i < |a| ==> a[i].start == b[i].start && a[i].end == b[i].end && a[i].t == b[i].t
  }

  /** One more action, and the others still for the same tags. */
  predicate Regrown(a: seq<Action>, b: seq<Action>, x: Action) {
    |b| == |a| + 1 && SameTags(a, b[..|a|]) && b[|a|] == x
  }

  function NameAt(body: string, actions: seq<Action>, p: nat): string
    requires p < |actions| && forall a <- actions :: a.start <= |body| && a.end <= |body|
  {
    Substr(body, actions[p].start, actions[p].end)
  }

  /** The names of the open blocks. */
  function OpenNames(body: string, xs: seq<Lexeme>, blocks: seq<nat>): (r: seq<string>)
    requires InBody(body, xs) && forall i :: 0 <= i < |blocks| ==> blocks[i] < |xs|
    ensures |r| == |blocks| && forall i :: 0 <= i < |r| ==> r[i] == NameOf(body, xs[blocks[i]])
  {
    seq(|blocks|, i requires 0 <= i < |blocks| => NameOf(body, xs[blocks[i]]))
  }

  predicate SameTag(x: Lexeme, a: Action) {
    x.start == a.start && x.end == a.end && x.kind == a.t
  }

  /** Fragments after the removal of standalone lines: shrunk at both ends, and only by blanks and line ends. */
  predicate Shrunk(body: string, f: seq<(nat, nat)>, g: seq<(nat, nat)>) {
    && |f| == |g|
    && forall i :: 0 <= i < |f| ==>
         && f[i].0 <= g[i].0 <= |body| && Blanks(body, f[i].0, g[i].0)
         && g[i].1 <= f[i].1 && Blanks(body, g[i].1, f[i].1)
  }

  function TextsOf(xs: seq<Lexeme>): seq<(nat, nat)> {
    seq(|xs|, i requires 0 <= i < |xs| => (xs[i].from, xs[i].to))
  }

  function KindsOf(xs: seq<Lexeme>): seq<ActionType> {
    seq(|xs|, i requires 0 <= i < |xs| => xs[i].kind)
  }

  predicate OfKinds(actions: seq<Action>, kinds: seq<ActionType>) {
    |actions| == |kinds| && forall i :: 0 <= i < |actions| ==> actions[i].t == kinds[i]
  }

  lemma KindsLength(actions: seq<Action>, kinds: seq<ActionType>)
    requires OfKinds(actions, kinds)
    ensures |actions| == |kinds|
  {
  }

  lemma SameKind(was: seq<Action>, actions: seq<Action>, kinds: seq<ActionType>, i: nat)
    requires SameTags(was, actions) && OfKinds(was, kinds) && i < |was|
    ensures i < |actions| && i < |kinds| && actions[i].t == kinds[i]
  {
  }

  /** From `p` on, the partials that stand alone know how many spaces stood before them; nothing else has changed. */
  ghost predicate Indented(body: string, f: seq<(nat, nat)>, kinds: seq<ActionType>, p: nat, was: seq<Action>, actions: seq<Action>)
    requires Texts(body, f) && |f| == |kinds|
  {
    && |actions| == |was| == |f|
    && forall m :: 0 <= m < |f| ==>
         actions[m] == if m >= p && kinds[m].PartialAction? && Alone(body, f, kinds, m)
                       then was[m].(pos := f[m].1 - BackTo(body, f[m].0, f[m].1)) else was[m]
  }

  lemma NothingIndented(body: string, f: seq<(nat, nat)>, kinds: seq<ActionType>, was: seq<Action>)
    requires Texts(body, f) && |f| == |kinds| == |was| > 0
    ensures Indented(body, f, kinds, |f| - 1, was, was)
  {
    hide BackTo, LineBegins, LineEnds;
  }

  lemma MoreIndented(body: string, f: seq<(nat, nat)>, kinds: seq<ActionType>, i: nat, was: seq<Action>, a: seq<Action>, b: seq<Action>)
    requires Texts(body, f) && |f| == |kinds| == |a| && i + 1 < |f| && a[i].t == kinds[i] && Indented(body, f, kinds, i + 1, was, a)
    requires b == if a[i].t.PartialAction? && Alone(body, f, kinds, i)
                  then a[i := a[i].(pos := f[i].1 - BackTo(body, f[i].0, f[i].1))] else a
    ensures Indented(body, f, kinds, i, was, b)
    ensures |b| == |a| && forall k :: 0 <= k < |a| ==> b[k] == a[k] || (a[k].t.PartialAction? && b[k] == a[k].(pos := b[k].pos))
    ensures SameTags(a, b)
  {
    hide BackTo, Alone;
  }

  lemma TextAt(body: string, f: seq<(nat, nat)>, m: nat)
    requires Texts(body, f) && m < |f|
    ensures f[m].0 <= f[m].1 <= |body|
  {
  }

  /** Where the texts beside tag `i` end and begin, as the loops find it. */
  lemma EndsAre(body: string, f: seq<(nat, nat)>, kinds: seq<ActionType>, i: nat, end: nat)
    requires Texts(body, f) && |f| == |kinds| && i + 1 < |f|
    requires f[i + 1].0 <= end <= f[i + 1].1 && SameEnd(body, f[i + 1].0, end, f[i + 1].1)
    ensures f[i + 1].1 <= |body| && f[i].0 <= f[i].1 <= |body|
    ensures EndOf(body, f, kinds, i) == if Alone(body, f, kinds, i) then BackTo(body, f[i].0, f[i].1) else f[i].1
    ensures var k := ForwardTo(body, f[i + 1].0, end);
            StartOf(body, f, kinds, i + 1) ==
              if Alone(body, f, kinds, i) && k < end then if body[k] == '\n' then k + 1 else k + 2 else f[i + 1].0
  {
    TextAt(body, f, i);
    TextAt(body, f, i + 1);
    hide BackTo, ForwardTo, Alone;
  }

  lemma CutIsShrunk(body: string, f: seq<(nat, nat)>, kinds: seq<ActionType>, p: nat, g: seq<(nat, nat)>)
    requires Texts(body, f) && |f| == |kinds| && CutFrom(body, f, kinds, p, g)
    ensures |g| == |f| && Shrunk(body, f, g) && forall x <- g :: x.0 <= |body| && x.1 <= |body|
  {
    hide CutFrom, Texts;
    CutLength(body, f, kinds, p, g);
    forall m | 0 <= m < |f| ensures f[m].0 <= g[m].0 <= |body| && Blanks(body, f[m].0, g[m].0) && g[m].1 <= f[m].1 <= |body| && Blanks(body, g[m].1, f[m].1) {
      CutAt(body, f, kinds, p, g, m);
    }
  }

  lemma CutLength(body: string, f: seq<(nat, nat)>, kinds: seq<ActionType>, p: nat, g: seq<(nat, nat)>)
    requires Texts(body, f) && |f| == |kinds| && CutFrom(body, f, kinds, p, g)
    ensures |g| == |f|
  {
  }

  lemma CutAt(body: string, f: seq<(nat, nat)>, kinds: seq<ActionType>, p: nat, g: seq<(nat, nat)>, m: nat)
    requires Texts(body, f) && |f| == |kinds| && CutFrom(body, f, kinds, p, g) && m < |f|
    ensures |g| == |f| && f[m].0 <= g[m].0 <= |body| && Blanks(body, f[m].0, g[m].0)
    ensures g[m].1 <= f[m].1 <= |body| && Blanks(body, g[m].1, f[m].1)
  {
    CutStart(body, f, kinds, m);
    CutEnd(body, f, kinds, m);
    hide StartOf, EndOf;
  }

  lemma CutStart(body: string, f: seq<(nat, nat)>, kinds: seq<ActionType>, m: nat)
    requires Texts(body, f) && |f| == |kinds| && m < |f|
    ensures f[m].0 <= StartOf(body, f, kinds, m) <= |body| && Blanks(body, f[m].0, StartOf(body, f, kinds, m))
  {
    hide BackTo, ForwardTo, LineBegins;
    TextAt(body, f, m);
    var k := ForwardTo(body, f[m].0, f[m].1);
    assert Blanks(body, f[m].0, k);
  }

  lemma CutEnd(body: string, f: seq<(nat, nat)>, kinds: seq<ActionType>, m: nat)
    requires Texts(body, f) && |f| == |kinds| && m < |f|
    ensures EndOf(body, f, kinds, m) <= f[m].1 <= |body| && Blanks(body, EndOf(body, f, kinds, m), f[m].1)
  {
    hide BackTo, Alone;
    TextAt(body, f, m);
  }

  lemma NothingCut(body: string, f: seq<(nat, nat)>, code: seq<Instr>, actions: seq<Action>)
    requires Bounded(body, f, actions)
    ensures Shrunk(body, f, f) && SameOps(code, code, 0, |code|) && SameTags(actions, actions)
  {
  }

  lemma SameTagsTwice(a: seq<Action>, b: seq<Action>, c: seq<Action>)
    requires SameTags(a, b) && SameTags(b, c)
    ensures SameTags(a, c)
  {
  }

  lemma SameOpsBut(c: seq<Instr>, d: seq<Instr>)
    requires 1 <= |c| == |d| && SameOps(c, d, 0, |c|)
    ensures SameOps(c, d, 0, |c| - 1)
  {
  }

  class TemplateT {
    const body: string
    var fragments: seq<(nat, nat)>
    var actions: seq<Action>

    constructor (body: string)
      ensures this.body == body && fragments == [] && actions == []
    {
      this.body := body;
      fragments, actions := [], [];
    }

    function Code(): seq<Instr>
      reads this
      requires Bounded(body, fragments, actions)
    {
      CodeOf(body, fragments, actions)
    }

    /** While parsing, with `blocks` still open. */
    ghost predicate Partly(blocks: seq<nat>)
      reads this
    {
      && Bounded(body, fragments, actions)
      && Chain(Code(), blocks, |actions|)
      && forall i :: 0 <= i < |actions| ==> (Unmatched(actions[i]) <==> i in blocks)
    }

    /** A template that parsed: one action behind each fragment, all but the last well nested. */
    ghost predicate Compiled()
      reads this
    {
      && Bounded(body, fragments, actions) && |fragments| == |actions| >= 1
      && WellNested(Code(), 0, |actions| - 1)
    }

    // -------------------------------------------------------------- parse

    method SkipSpaces(from: nat) returns (i: nat)
      requires from <= |body|
      ensures i == SkipTo(body, from)
    {
      i := from;
      while CharAt(body, i) == ' '
        invariant from <= i <= |body| && SkipTo(body, i) == SkipTo(body, from)
        decreases |body| - i
      {
        i := i + 1;
      }
    }

    /** Steps `end` back over spaces; `stop` is a character that is not one. */
    method TrimSpaces(end: nat, ghost stop: nat) returns (e: nat)
      requires stop < end <= |body| && body[stop] != ' '
      ensures e == TrimTo(body, end)
    {
      e := end;
      while body[e - 1] == ' '
        invariant stop < e <= end && TrimTo(body, e) == TrimTo(body, end)
        decreases e
      {
        e := e - 1;
      }
    }

    method Append(a: Action, ghost blocks: seq<nat>)
      requires Partly(blocks) && |fragments| == |actions| + 1 && a.start <= |body| && a.end <= |body|
      requires a.t.Ignore? || a.t.TagAction? || a.t.UnescapeTag? || a.t.PartialAction?
      modifies this`actions
      ensures Partly(blocks) && Regrown(old(actions), actions, a)
    {
      hide Chain, WellNested;
      ghost var code := Code();
      ghost var n := |actions|;
      actions := actions + [a];
      var x := Code()[n];
      assert Code() == code + [x];
      ChainGrows(code, blocks, x);
      BlocksInside(code, blocks, n);
    }

    method AppendOpen(a: Action, blocks: seq<nat>) returns (more: seq<nat>)
      requires Partly(blocks) && |fragments| == |actions| + 1 && a.start <= |body| && a.end <= |body|
      requires (a.t.OpenBlock? || a.t.ElseBlock?) && !a.hasEndMatch
      modifies this`actions
      ensures Partly(more) && more == blocks + [old(|actions|)] && Regrown(old(actions), actions, a)
    {
      hide Chain, WellNested;
      ghost var code := Code();
      ghost var n := |actions|;
      more := blocks + [|actions|];
      actions := actions + [a];
      var x := Code()[n];
      assert Code() == code + [x];
      ChainOpens(code, blocks, x);
      BlocksInside(code, blocks, n);
    }

    /** A closing tag: refused when nothing is open or the innermost open block has another name. */
    method AppendClose(idx: nat, endIdx: nat, blocks: seq<nat>) returns (ok: bool, fewer: seq<nat>)
      requires Partly(blocks) && |fragments| == |actions| + 1 && idx <= |body| && endIdx <= |body|
      modifies this`actions
      ensures ok <==> blocks != [] && blocks[|blocks| - 1] < old(|actions|) && Bounded(body, fragments, old(actions))
                      && Substr(body, idx, endIdx) == NameAt(body, old(actions), blocks[|blocks| - 1])
      ensures ok ==> Partly(fewer) && fewer == blocks[..|blocks| - 1]
      ensures ok ==> Regrown(old(actions), actions, Action(false, idx, endIdx, blocks[|blocks| - 1], CloseBlock))
    {
      hide WellNested, Chain, From, Matched;
      if blocks == [] { return false, blocks; }
      var p, n := blocks[|blocks| - 1], |actions|;
      LastOpen(Code(), blocks, n);
      var matched := actions[p];
      if Substr(body, idx, endIdx) != Substr(body, matched.start, matched.end) { return false, blocks; }
      ClosedCode(body, fragments, actions, p, idx, endIdx);
      ClosedMatch(actions, blocks, idx, endIdx);
      hide OpOf, CodeOf, Unmatched, Bounded;
      ghost var code := Code();
      actions := actions[p := matched.(pos := n, hasEndMatch := true)] + [Action(false, idx, endIdx, p, CloseBlock)];
      fewer := blocks[..|blocks| - 1];
      ok := true;
      ChainCloses(code, blocks, Code()[n]);
    }

    /** `{{=open close=}}`. */
    method ChangeDelimiters(idx: nat, endIdx: nat) returns (r: Option<(string, string)>)
      requires 0 < idx < endIdx <= |body| && body[idx - 1] != ' '
      ensures r == NewDelimiters(body, idx, endIdx)
    {
      hide SkipTo;
      if body[endIdx - 1] != '=' { return None; }
      var s := SkipSpaces(idx + 1);
      var e := LastNonSpace(idx, endIdx);
      hide TrimTo;
      var i := s;
      while i < e
        invariant s <= i && FirstSpace(body, i, e) == FirstSpace(body, s, e)
      {
        if body[i] == ' ' {
          var tagOpen := body[s..i];
          var j := SkipSpaces(i);
          var tagClose := Substr(body, j, e);
          if tagOpen == "" || tagClose == "" || ' ' in tagClose { return None; }
          return Some((tagOpen, tagClose));
        }
        i := i + 1;
      }
      return None;
    }

    /** Steps back from the `=` before `endIdx`. */
    method LastNonSpace(idx: nat, endIdx: nat) returns (e: nat)
      requires 0 < idx < endIdx <= |body| && body[idx - 1] != ' '
      ensures e == TrimTo(body, endIdx - 1)
    {
      var k := endIdx - 2;
      while CharAt(body, k) == ' '
        invariant idx - 1 <= k < endIdx && TrimTo(body, k + 1) == TrimTo(body, endIdx - 1)
        decreases k
      {
        k := k - 1;
      }
      return k + 1;
    }

    /** One tag, its first character at `idx` and its closing delimiter at `endIdx`. */
    method TagFrom(idx: nat, endIdx: nat, open: string, close: string) returns (r: Option<TagText>)
      requires 0 < idx < endIdx && endIdx + |close| <= |body| && body[idx - 1] != ' '
      requires Delimiter(open) && Delimiter(close)
      ensures r == ReadTag(body, idx, endIdx, open, close)
    {
      hide SkipTo, TrimTo, NewDelimiters, Delimiter;
      var c := body[idx];
      var after := endIdx + |close|;
      if c == '!' {
        return Some(TagText(idx + 1, endIdx, Ignore, after, open, close));
      } else if c == '=' {
        var d := ChangeDelimiters(idx, endIdx);
        if d.None? { return None; }
        return Some(TagText(idx + 1, endIdx, Ignore, after, d.value.0, d.value.1));
      } else if c == '#' || c == '^' || c == '/' || c == '>' || c == '&' {
        var s := SkipSpaces(idx + 1);
        var e := TrimSpaces(endIdx, idx);
        var kind := if c == '#' then OpenBlock else if c == '^' then ElseBlock else if c == '/' then CloseBlock
                    else if c == '>' then PartialAction else UnescapeTag;
        return Some(TagText(s, e, kind, after, open, close));
      } else if c == '{' {
        if open != "{{" || close != "}}" || CharAt(body, endIdx + 2) != '}' { return None; }
        var s := SkipSpaces(idx + 1);
        var e := TrimSpaces(endIdx, idx);
        return Some(TagText(s, e, UnescapeTag, after + 1, open, close));
      } else {
        var s := SkipSpaces(idx);
        var e := TrimSpaces(endIdx, idx - 1);
        return Some(TagText(s, e, TagAction, after, open, close));
      }
    }

    /** The fragments and actions are those of the lexemes `xs`, and the open blocks those still open behind them. */
    ghost predicate Follows(xs: seq<Lexeme>, blocks: seq<nat>)
      reads this
    {
      && Partly(blocks) && |fragments| == |actions| == |xs| && InBody(body, xs)
      && (forall i :: 0 <= i < |xs| ==> fragments[i] == (xs[i].from, xs[i].to) && SameTag(xs[i], actions[i]))
      && (forall i :: 0 <= i < |blocks| ==> blocks[i] < |xs|)
      && StillOpen(body, xs) == Some(OpenNames(body, xs, blocks))
    }

    /** One tag's fragment and action. */
    method AddLexeme(x: Lexeme, blocks: seq<nat>, ghost xs: seq<Lexeme>) returns (ok: bool, now: seq<nat>)
      requires Follows(xs, blocks) && x.start <= |body| && x.end <= |body| && x.from <= x.to <= |body|
      modifies this
      ensures ok ==> Follows(xs + [x], now)
      ensures InBody(body, xs + [x]) && (!ok ==> StillOpen(body, xs + [x]).None?)
    {
      hide Partly, SameTag, OpenNames, Unmatched, StillOpen, Regrown;
      NextOpen(body, xs, x, blocks);
      KnownTags(xs, actions);
      AddFragment(blocks, x.from, x.to);
      ok, now := true, blocks;
      if x.kind.OpenBlock? || x.kind.ElseBlock? {
        var a := Action(false, x.start, x.end, 0, x.kind);
        now := AppendOpen(a, blocks);
        TagsKept(xs, x, old(actions), actions, a);
      } else if x.kind.CloseBlock? {
        ok, now := AppendClose(x.start, x.end, blocks);
        if ok { TagsKept(xs, x, old(actions), actions, Action(false, x.start, x.end, blocks[|blocks| - 1], CloseBlock)); }
      } else {
        var a := Action(false, x.start, x.end, 0, x.kind);
        Append(a, blocks);
        TagsKept(xs, x, old(actions), actions, a);
      }
    }

    /** The text up to the next tag, and that tag. */
    method NextLexeme(current: nat, open: string, close: string) returns (r: Reading)
      requires current <= |body| && Delimiter(open) && Delimiter(close)
      ensures var lex := Lex(body, current, open, close);
              match r
              case Malformed => lex == None
              case LastText(x) => lex == Some([x]) && x.kind.Ignore? && x.start == x.end == 0 && x.from <= x.to == |body|
              case OneTag(x, tag) =>
                && current < tag.current <= |body| && Delimiter(tag.open) && Delimiter(tag.close)
                && lex == Before([x], Lex(body, tag.current, tag.open, tag.close))
                && x.start <= |body| && x.end <= |body| && x.from <= x.to <= |body|
    {
      hide ReadTag, Stands, Delimiter;
      var at := Find(body, open, current);
      if at.None? { return LastText(Lexeme(current, |body|, 0, 0, Ignore)); }
      var i := at.value + |open|;
      DelimiterThere(body, open, at.value);
      var endIdx := Find(body, close, i);
      if endIdx == Some(i) || endIdx == None { return Malformed; }
      DelimiterThere(body, close, endIdx.value);
      var tag := TagFrom(i, endIdx.value, open, close);
      if tag.None? { return Malformed; }
      return OneTag(Lexeme(current, at.value, tag.value.start, tag.value.end, tag.value.kind), tag.value);
    }

    /** The loop of parse over the tags. */
    method ReadTags() returns (ok: bool, blocks: seq<nat>)
      requires fragments == [] && actions == []
      modifies this
      ensures var lex := Lex(body, 0, "{{", "}}");
              && (ok <==> lex.Some? && InBody(body, lex.value) && StillOpen(body, lex.value).Some?)
              && (ok ==> Follows(lex.value, blocks) && |actions| >= 1 && actions[|actions| - 1].t.Ignore?)
    {
      var tagOpen, tagClose := "{{", "}}";
      blocks := [];
      var current := 0;
      ghost var xs: seq<Lexeme> := [];
      hide Follows, Lex, StillOpen, InBody, Delimiter;
      StartFollows();
      BeforeNothing(Lex(body, 0, "{{", "}}"));
      while true
        invariant current <= |body| && Delimiter(tagOpen) && Delimiter(tagClose) && Follows(xs, blocks)
        invariant Lex(body, 0, "{{", "}}") == Before(xs, Lex(body, current, tagOpen, tagClose))
        decreases |body| - current
      {
        var next := NextLexeme(current, tagOpen, tagClose);
        if next.Malformed? { return false, blocks; }
        ok, blocks := AddLexeme(next.x, blocks, xs);
        if next.LastText? {
          FollowsLast(xs + [next.x], blocks, ok);
          return;
        }
        ghost var rest := Lex(body, next.tag.current, next.tag.open, next.tag.close);
        AppendedBefore(xs, next.x, rest);
        if !ok {
          if rest.Some? { Doomed(body, xs + [next.x], rest.value); }
          return;
        }
        xs := xs + [next.x];
        current, tagOpen, tagClose := next.tag.current, next.tag.open, next.tag.close;
      }
    }

    lemma StartFollows()
      requires fragments == [] && actions == []
      ensures Follows([], []) && Delimiter("{{") && Delimiter("}}")
    {
      NothingParsed(Code());
    }

    lemma FollowsLast(xs: seq<Lexeme>, blocks: seq<nat>, ok: bool)
      requires xs != [] && xs[|xs| - 1].kind.Ignore? && (ok ==> Follows(xs, blocks))
      requires InBody(body, xs) && (!ok ==> StillOpen(body, xs).None?)
      ensures ok <==> StillOpen(body, xs).Some?
      ensures ok ==> |actions| >= 1 && actions[|actions| - 1].t.Ignore?
    {
    }

    method AddFragment(ghost blocks: seq<nat>, from: nat, to: nat)
      requires Partly(blocks) && |fragments| == |actions| && from <= |body| && to <= |body|
      modifies this`fragments
      ensures Partly(blocks) && fragments == old(fragments) + [(from, to)]
    {
      ghost var code := Code();
      fragments := fragments + [(from, to)];
      assert Code() == code;
    }

    /** parse: it succeeds exactly when the text is well formed; then there is one action for each tag, as the text has
        it, the actions are well nested, every block's `pos` is its own closing tag's place, and the fragments are the
        texts between the tags, but for the lines on which a tag stands alone. */
    method Parse() returns (ok: bool)
      requires fragments == [] && actions == []
      modifies this
      ensures ok <==> Accepted(body)
      ensures ok ==>
                var xs := Lex(body, 0, "{{", "}}").value;
                && Compiled() && |actions| == |xs|
                && (forall i :: 0 <= i < |xs| ==> SameTag(xs[i], actions[i]))
                && Shrunk(body, TextsOf(xs), fragments)
                && Texts(body, TextsOf(xs)) && CutFrom(body, TextsOf(xs), KindsOf(xs), 0, fragments)
    {
      hide WellNested, Chain, StillOpen, SameTag, Shrunk, Lex, InBody, OpenNames, CodeOf, Texts, CutFrom;
      var blocks;
      ok, blocks := ReadTags();
      if !ok { return; }
      ghost var xs := Lex(body, 0, "{{", "}}").value;
      ok := AllMatched(blocks);
      assert OpenNames(body, xs, blocks) == [] <==> blocks == [];
      if !ok { return; }
      ParsedTexts(body, xs, fragments, actions);
      LastSkips(body, fragments, actions);
      WholeNested(Code(), blocks, |actions|);
      ghost var was := actions;
      RemoveStandalones(KindsOf(xs));
      KindsKept(xs, was, actions);
    }

    /** The check that no block is left open. */
    method AllMatched(ghost blocks: seq<nat>) returns (ok: bool)
      requires forall i :: 0 <= i < |actions| ==> (Unmatched(actions[i]) <==> i in blocks)
      requires forall i :: 0 <= i < |blocks| ==> blocks[i] < |actions|
      ensures ok <==> blocks == []
    {
      OpenIsUnmatched(actions, blocks);
      for i := 0 to |actions|
        invariant forall j :: 0 <= j < i ==> !Unmatched(actions[j])
      {
        if Unmatched(actions[i]) { return false; }
      }
      return true;
    }

    /** The pass that removes standalone lines: each tag that stands alone on its line takes the spaces before it and the
        end of the line with it; every action keeps its meaning, and a partial learns how far it was indented. */
    method RemoveStandalones(ghost kinds: seq<ActionType>)
      requires Compiled() && OfKinds(actions, kinds) && Texts(body, fragments)
      modifies this
      ensures Compiled() && Shrunk(body, old(fragments), fragments) && CutFrom(body, old(fragments), kinds, 0, fragments)
      ensures |actions| == old(|actions|) && SameOps(old(Code()), Code(), 0, |actions|)
      ensures SameTags(old(actions), actions) && Indented(body, old(fragments), kinds, 0, old(actions), actions)
    {
      hide WellNested, Shrunk, SameOps, SameTags, CodeOf, Bounded, CutFrom, Texts, OfKinds, Indented;
      ghost var f, code, was := fragments, Code(), actions;
      NothingCut(body, f, code, was);
      KindsLength(was, kinds);
      CutNothing(body, f, kinds);
      NothingIndented(body, f, kinds, was);
      var i := |actions| - 2;
      while i >= 0
        invariant -1 <= i <= |actions| - 2
        invariant Bounded(body, fragments, actions) && |fragments| == |actions| == |f| == |code| == |was|
        invariant Shrunk(body, f, fragments) && SameOps(code, Code(), 0, |code|) && SameTags(was, actions)
        invariant CutFrom(body, f, kinds, i + 1, fragments) && Indented(body, f, kinds, i + 1, was, actions)
      {
        Standalone(i, f, code, kinds, was);
        i := i - 1;
      }
      SameOpsBut(code, Code());
      NestingNeedsOps(code, Code(), 0, |code| - 1);
    }

    /** Steps back over the spaces before `end`, no further than `from`. */
    method BackOverSpaces(from: nat, end: nat) returns (j: int)
      requires from <= end <= |body|
      ensures j == BackTo(body, from, end) - 1
    {
      j := end - 1;
      while j >= from && body[j] == ' '
        invariant from - 1 <= j < end && BackTo(body, from, j + 1) == BackTo(body, from, end)
      {
        j := j - 1;
      }
    }

    method ForwardOverSpaces(from: nat, end: nat) returns (k: nat)
      requires from <= end <= |body|
      ensures k == ForwardTo(body, from, end)
    {
      k := from;
      while k < |body| && k < end && body[k] == ' '
        invariant from <= k <= end && ForwardTo(body, k, end) == ForwardTo(body, from, end)
      {
        k := k + 1;
      }
    }

    /** Whether action `i` stands alone on its line; then the spaces before it begin at `start`, and those behind it end
        at `end`. */
    method StandsAlone(i: nat, ghost f: seq<(nat, nat)>, ghost kinds: seq<ActionType>) returns (alone: bool, start: nat, end: nat)
      requires |fragments| == |actions| == |f| == |kinds| && i + 1 < |actions| && Texts(body, f) && actions[i].t == kinds[i]
      requires fragments[i] == f[i] && f[i + 1].0 == fragments[i + 1].0 <= fragments[i + 1].1 <= f[i + 1].1
      requires SameEnd(body, f[i + 1].0, fragments[i + 1].1, f[i + 1].1)
      ensures alone <==> Alone(body, f, kinds, i)
      ensures alone ==> start == BackTo(body, f[i].0, f[i].1) && end == ForwardTo(body, f[i + 1].0, fragments[i + 1].1)
      ensures alone ==> (end < fragments[i + 1].1 ==> end < |body|)
    {
      TextAt(body, f, i);
      TextAt(body, f, i + 1);
      hide BackTo, ForwardTo, Texts;
      alone, start, end := false, 0, 0;
      if actions[i].t.TagAction? || actions[i].t.UnescapeTag? { return; }
      var before, after := fragments[i], fragments[i + 1];
      var isLast := i == |actions| - 2;
      var j := BackOverSpaces(before.0, before.1);
      var allSpaceBefore := j < before.0;
      if allSpaceBefore && i > 0 { return; }
      if !allSpaceBefore && body[j] != '\n' { return; }
      var k := ForwardOverSpaces(after.0, after.1);
      var allSpaceAfter := !(k < |body| && k < after.1);
      if allSpaceAfter && !isLast { return; }
      if !allSpaceAfter && !(body[k] == '\n' || (body[k] == '\r' && k + 1 < |body| && body[k + 1] == '\n')) { return; }
      return true, j + 1, k;
    }

    /** One action: if it stands alone on its line, the line's spaces and its end are cut from the fragments beside it,
        and a partial is told how far it was indented. */
    method Cuts(i: nat, ghost f: seq<(nat, nat)>, ghost kinds: seq<ActionType>) returns (cut: seq<(nat, nat)>, indented: seq<Action>)
      requires |fragments| == |actions| == |f| == |kinds| && i + 1 < |actions| && Texts(body, f)
      requires CutFrom(body, f, kinds, i + 1, fragments) && actions[i].t == kinds[i]
      ensures CutFrom(body, f, kinds, i, cut)
      ensures indented == if actions[i].t.PartialAction? && Alone(body, f, kinds, i)
                          then actions[i := actions[i].(pos := f[i].1 - BackTo(body, f[i].0, f[i].1))] else actions
    {
      hide CutFrom, Texts, BackTo, ForwardTo, Alone, SameEnd, StartOf, EndOf;
      CutFacts(body, f, kinds, i, fragments);
      EndsAre(body, f, kinds, i, fragments[i + 1].1);
      cut, indented := fragments, actions;
      var alone, start, end := StandsAlone(i, f, kinds);
      if !alone {
        CutOne(body, f, kinds, i, fragments, cut);
        return;
      }
      if actions[i].t.PartialAction? {
        indented := actions[i := actions[i].(pos := fragments[i].1 - start)];
      }
      cut := fragments[i := (fragments[i].0, start)];
      if end < fragments[i + 1].1 {
        var next := if body[end] == '\n' then end + 1 else end + 2;
        cut := cut[i + 1 := (next, fragments[i + 1].1)];
      }
      CutOne(body, f, kinds, i, fragments, cut);
    }

    method Standalone(i: nat, ghost f: seq<(nat, nat)>, ghost code: seq<Instr>, ghost kinds: seq<ActionType>, ghost was: seq<Action>)
      requires Bounded(body, fragments, actions) && |fragments| == |actions| == |f| == |code| == |was| && i + 1 < |actions|
      requires SameOps(code, Code(), 0, |code|) && SameTags(was, actions)
      requires Texts(body, f) && OfKinds(was, kinds) && |kinds| == |f|
      requires CutFrom(body, f, kinds, i + 1, fragments) && Indented(body, f, kinds, i + 1, was, actions)
      modifies this
      ensures Bounded(body, fragments, actions) && |fragments| == |actions| == |f|
      ensures Shrunk(body, f, fragments) && SameOps(code, Code(), 0, |code|) && SameTags(was, actions)
      ensures CutFrom(body, f, kinds, i, fragments) && Indented(body, f, kinds, i, was, actions)
    {
      hide Shrunk, Blanks, SameOps, CodeOf, Bounded, CutFrom, Indented, SameTags, OfKinds, Texts;
      SameKind(was, actions, kinds, i);
      var cut, indented := Cuts(i, f, kinds);
      ghost var before, wasCode := actions, Code();
      CutIsShrunk(body, f, kinds, i, cut);
      MoreIndented(body, f, kinds, i, was, actions, indented);
      Reworded(body, fragments, actions, cut, indented);
      fragments, actions := cut, indented;
      SameTagsTwice(was, before, actions);
      SameOpsTwice(code, wasCode, Code());
    }

    // -------------------------------------------------------------- render

    /** The domain of the model: no partials, and no name with a dot but "." itself. */
    ghost predicate Renderable()
      reads this
    {
      && Bounded(body, fragments, actions) && |fragments| == |actions|
      && forall a <- actions ::
           && !a.t.PartialAction?
           && (a.t.Ignore? || a.t.CloseBlock? || (var name := Substr(body, a.start, a.end); name == "." || '.' !in name))
    }

    /** render_fragment at indentation zero. */
    method RenderFragment(i: nat, st: RenderState)
      requires Bounded(body, fragments, actions) && i < |actions|
      modifies st`out
      ensures st.out == old(st.out) + Code()[i].text
    {
      st.out := st.out + Substr(body, fragments[i].0, fragments[i].1);
    }

    /** find_context, searching the stack from the top. */
    method LookUp(name: string, stack: seq<Json>) returns (r: Option<Json>)
      requires stack != []
      ensures r == FindContext(name, stack)
    {
      if name == "." { return Some(stack[|stack| - 1]); }
      var i: nat := |stack|;
      while i > 0
        invariant i <= |stack| && FindKey(name, stack[..i]) == FindKey(name, stack[..|stack|])
      {
        var top := stack[i - 1];
        assert stack[..i][..i - 1] == stack[..i - 1];
        if top.Object? && name in top.fields {
          assert stack[..|stack|] == stack;
          return Some(top.fields[name]);
        }
        i := i - 1;
      }
      assert stack[..|stack|] == stack && stack[..0] == [];
      return None;
    }

    /** escape. */
    method AppendEscaped(text: string, st: RenderState)
      modifies st`out
      ensures st.out == old(st.out) + Escape(text)
    {
      hide EscapeChar;
      assert text[0..] == text;
      for i := 0 to |text|
        invariant st.out + Escape(text[i..]) == old(st.out) + Escape(text)
      {
        assert text[i..][0] == text[i] && text[i..][1..] == text[i + 1..];
        ghost var before := st.out;
        st.out := st.out + EscapeChar(text[i]);
        assert before + (EscapeChar(text[i]) + Escape(text[i + 1..])) == st.out + Escape(text[i + 1..]);
      }
      assert text[|text|..] == "" && st.out + "" == st.out;
    }

    /** A tag's value: printed, or an exception. */
    method PrintTag(name: string, escaped: bool, st: RenderState) returns (ok: bool)
      requires st.stack != []
      modifies st`out
      ensures var v := PrintValue(FindContext(name, st.stack), escaped);
              && (ok <==> v.Some?) && (ok ==> st.out == old(st.out) + v.value)
    {
      var found := LookUp(name, st.stack);
      if found.None? { return true; }
      match found.value {
        case False => st.out := st.out + "false";
        case True => st.out := st.out + "true";
        case Number(text) => st.out := st.out + text;
        case String(text) =>
          if escaped { AppendEscaped(text, st); } else { st.out := st.out + text; }
        case _ => return false;
      }
      return true;
    }

    /** The loop of an open block over a list: the body once for each element, that element on top of the stack. */
    method RenderList(items: seq<Json>, from: nat, pos: nat, st: RenderState) returns (ok: bool)
      requires Renderable() && from <= pos < |actions| && WellNested(Code(), from, pos) && st.stack != []
      modifies st
      ensures var r := RenderEach(Tree(Code(), from, pos), items, old(st.stack));
              && (ok <==> r.Some?)
              && (ok ==> st.out == old(st.out) + r.value && st.stack == old(st.stack))
      decreases pos - from, 2
    {
      hide WellNested, Render, TreeItems, CodeOf, RenderEach;
      ghost var t, stack0, out0, done: string := Tree(Code(), from, pos), st.stack, st.out, "";
      EachNone(t, stack0);
      for i := 0 to |items|
        invariant st.stack == stack0 && st.out == out0 + done
        invariant RenderEach(t, items[..i], stack0) == Some(done)
      {
        OneMoreEach(t, items, i, stack0);
        st.stack := st.stack + [items[i]];
        ok := RenderInternal(from, pos, st);
        if !ok {
          RestOfEach(t, items, i + 1, stack0);
          return false;
        }
        done := done + Render(t, stack0 + [items[i]]).value;
        st.stack := st.stack[..|st.stack| - 1];
      }
      assert items[..|items|] == items;
      return true;
    }

    /** One action that is no close tag. */
    method RunAction(current: nat, ghost e: nat, st: RenderState) returns (r: Flow)
      requires Renderable() && current < e < |actions| && WellNested(Code(), current, e) && st.stack != []
      modifies st
      ensures Ran(r, Code(), current, e, old(st.stack), old(st.out), st.stack, st.out)
      decreases e - current, 0
    {
      hide Render, TreeItems, CodeOf, RenderEach, FindContext, Substr, PrintValue, RenderItems;
      var action := actions[current];
      var name := Substr(body, action.start, action.end);
      TagHere(body, fragments, actions, current, e);
      match action.t {
        case Ignore => return Goto(current + 1);
        case TagAction =>
          var ok := PrintTag(name, true, st);
          return if ok then Goto(current + 1) else Threw;
        case UnescapeTag =>
          var ok := PrintTag(name, false, st);
          return if ok then Goto(current + 1) else Threw;
        case ElseBlock =>
          var found := LookUp(name, st.stack);
          if found.Some? && !found.value.False? && !found.value.Null? && !(found.value.List? && found.value.items == []) {
            return Goto(action.pos + 1);
          }
          st.stack := st.stack + [Null];
          return Enter(Null);
        case OpenBlock =>
          var found := LookUp(name, st.stack);
          if found.None? || found.value.False? || found.value.Null? {
            NoContext(Tree(Code(), current + 1, action.pos), st.stack);
            return Goto(action.pos + 1);
          }
          if found.value.List? {
            var ok := RenderList(found.value.items, current + 1, action.pos, st);
            return if ok then Goto(action.pos + 1) else Threw;
          }
          EachOne(Tree(Code(), current + 1, action.pos), found.value, st.stack);
          st.stack := st.stack + [found.value];
          return Enter(found.value);
      }
    }

    /** render_internal on the actions `begin..end`: appends to the output exactly what the nested template they stand
        for means, and leaves the context stack as it was; it throws exactly when that template's meaning is to throw. */
    method RenderInternal(begin: nat, end: nat, st: RenderState) returns (ok: bool)
      requires Renderable() && begin <= end < |actions| && WellNested(Code(), begin, end) && st.stack != []
      modifies st
      ensures var r := Render(Tree(Code(), begin, end), old(st.stack));
              && (ok <==> r.Some?)
              && (ok ==> st.out == old(st.out) + r.value && st.stack == old(st.stack))
      decreases end - begin, 1
    {
      hide WellNested, Levels, Remaining, Render, TreeItems, RenderTag, CodeOf, TagAt, Ran, Bounded;
      ghost var code, stack0, out0 := Code(), st.stack, st.out;
      ghost var whole := Render(Tree(code, begin, end), stack0);
      var current := begin;
      ghost var ends, done: string := [end], "";
      EnterRange(code, begin, end, stack0);
      while current < end
        invariant ends != [] && Levels(code, current, ends) && ends[0] == end && begin <= current <= end
        invariant |stack0| <= |st.stack| && |st.stack| + 1 == |stack0| + |ends| && st.stack[..|stack0|] == stack0
        invariant st.out == out0 + done && whole == Cat(Some(done), Remaining(code, current, ends, st.stack))
        decreases end - current
      {
        LevelsAscend(code, current, ends);
        ghost var stack, text, e := st.stack, code[current].text, ends[|ends| - 1];
        RenderFragment(current, st);
        assert (out0 + done) + text == out0 + (done + text);
        done := done + text;
        ClosesAtEnd(body, fragments, actions, current, ends);
        if actions[current].t.CloseBlock? {
          RemainingClose(code, current, ends, stack);
          CatClose(done[..|done| - |text|], text, Remaining(code, current + 1, ends[..|ends| - 1], stack[..|stack| - 1]));
          st.stack := st.stack[..|st.stack| - 1];
          ends := ends[..|ends| - 1];
          current := current + 1;
        } else {
          RemainingStep(code, current, ends, stack);
          ghost var tagged := RenderTag(TagAt(code, current, e), stack);
          CatStep(done[..|done| - |text|], text, tagged, Remaining(code, Behind(code, current, e), ends, stack));
          var flow := RunAction(current, e, st);
          RanMeans(flow, code, current, ends, stack, out0 + done, st.stack, st.out);
          match flow {
            case Threw => return false;
            case Goto(next) =>
              assert (out0 + done) + tagged.value == out0 + (done + tagged.value);
              done := done + tagged.value;
              current := next;
            case Enter(_) =>
              ends := ends + [code[current].op.pos];
              current := current + 1;
          }
        }
        LevelsAscend(code, current, ends);
      }
      LevelsAscend(code, current, ends);
      RemainingEnd(code, current, ends, st.stack);
      RenderFragment(end, st);
      return true;
    }

    /** render_string: the text of a compiled template under one context. */
    method RenderString(ctx: Json) returns (r: Option<string>)
      requires Compiled() && Renderable()
      ensures r == Render(Tree(Code(), 0, |actions| - 1), [ctx])
    {
      hide WellNested, Render;
      var st := new RenderState(ctx);
      var ok := RenderInternal(0, |fragments| - 1, st);
      assert ok ==> "" + Render(Tree(Code(), 0, |actions| - 1), [ctx]).value == Render(Tree(Code(), 0, |actions| - 1), [ctx]).value;
      return if ok then Some(st.out) else None;
    }
  }

  /** What is open behind one more lexeme. */
  lemma NextOpen(body: string, xs: seq<Lexeme>, x: Lexeme, blocks: seq<nat>)
    requires InBody(body, xs) && x.start <= |body| && x.end <= |body| && x.from <= x.to <= |body|
    requires forall i :: 0 <= i < |blocks| ==> blocks[i] < |xs|
    requires StillOpen(body, xs) == Some(OpenNames(body, xs, blocks))
    ensures InBody(body, xs + [x])
    ensures var open := StillOpen(body, xs + [x]);
            if x.kind.OpenBlock? || x.kind.ElseBlock? then open == Some(OpenNames(body, xs + [x], blocks + [|xs|]))
            else if x.kind.CloseBlock? then
              if blocks == [] || NameOf(body, xs[blocks[|blocks| - 1]]) != NameOf(body, x) then open == None
              else open == Some(OpenNames(body, xs + [x], blocks[..|blocks| - 1]))
            else open == Some(OpenNames(body, xs + [x], blocks))
  {
    InBodyNext(body, xs, x);
    hide NameOf, InBody, StillOpen, OpenNames;
    OpenStep(body, xs, x);
    NamesStay(body, xs, x, blocks);
    NamesGrow(body, xs, x, blocks);
    if blocks != [] { NamesShrink(body, xs, x, blocks); }
  }

  lemma InBodyNext(body: string, xs: seq<Lexeme>, x: Lexeme)
    requires InBody(body, xs) && x.start <= |body| && x.end <= |body| && x.from <= x.to <= |body|
    ensures InBody(body, xs + [x])
  {
  }

  lemma NamesGrow(body: string, xs: seq<Lexeme>, x: Lexeme, blocks: seq<nat>)
    requires InBody(body, xs) && InBody(body, xs + [x]) && forall i :: 0 <= i < |blocks| ==> blocks[i] < |xs|
    requires x.start <= |body| && x.end <= |body|
    ensures OpenNames(body, xs + [x], blocks + [|xs|]) == OpenNames(body, xs, blocks) + [NameOf(body, x)]
  {
    hide NameOf, InBody;
  }

  lemma NamesShrink(body: string, xs: seq<Lexeme>, x: Lexeme, blocks: seq<nat>)
    requires InBody(body, xs) && InBody(body, xs + [x]) && blocks != [] && forall i :: 0 <= i < |blocks| ==> blocks[i] < |xs|
    ensures var names := OpenNames(body, xs, blocks);
            && |names| == |blocks| && OpenNames(body, xs + [x], blocks[..|blocks| - 1]) == names[..|names| - 1]
            && names[|names| - 1] == NameOf(body, xs[blocks[|blocks| - 1]])
  {
    hide NameOf, InBody;
  }

  lemma NamesStay(body: string, xs: seq<Lexeme>, x: Lexeme, blocks: seq<nat>)
    requires InBody(body, xs) && InBody(body, xs + [x]) && forall i :: 0 <= i < |blocks| ==> blocks[i] < |xs|
    ensures OpenNames(body, xs + [x], blocks) == OpenNames(body, xs, blocks)
  {
    hide NameOf, InBody;
  }

  lemma OpenStep(body: string, xs: seq<Lexeme>, x: Lexeme)
    requires InBody(body, xs) && InBody(body, xs + [x]) && StillOpen(body, xs).Some? && x.start <= |body| && x.end <= |body|
    ensures var open, r := StillOpen(body, xs).value, StillOpen(body, xs + [x]);
            if x.kind.OpenBlock? || x.kind.ElseBlock? then r == Some(open + [NameOf(body, x)])
            else if x.kind.CloseBlock? then
              if open == [] || open[|open| - 1] != NameOf(body, x) then r == None else r == Some(open[..|open| - 1])
            else r == Some(open)
  {
    hide NameOf;
    assert (xs + [x])[..|xs + [x]| - 1] == xs;
  }

  lemma KnownTags(xs: seq<Lexeme>, actions: seq<Action>)
    requires |xs| == |actions| && forall i :: 0 <= i < |xs| ==> SameTag(xs[i], actions[i])
    ensures forall i :: 0 <= i < |xs| ==> xs[i].start == actions[i].start && xs[i].end == actions[i].end
  {
  }

  lemma TagsKept(xs: seq<Lexeme>, x: Lexeme, a: seq<Action>, b: seq<Action>, z: Action)
    requires |xs| == |a| && (forall i :: 0 <= i < |xs| ==> SameTag(xs[i], a[i]))
    requires Regrown(a, b, z) && z.start == x.start && z.end == x.end && z.t == x.kind
    ensures |b| == |xs + [x]|
    ensures forall i :: 0 <= i < |xs + [x]| ==> SameTag((xs + [x])[i], b[i])
  {
    forall i | 0 <= i < |xs| ensures SameTag(xs[i], b[i]) { assert b[i] == b[..|a|][i]; }
  }

  lemma DelimiterThere(body: string, d: string, at: nat)
    requires Delimiter(d) && Stands(body, d, at)
    ensures 0 < |d| && at + |d| <= |body| && body[at + |d| - 1] != ' '
  {
    assert body[at..at + |d|][|d| - 1] == d[|d| - 1];
    assert d[|d| - 1] in d;
  }

  lemma LastSkips(body: string, fragments: seq<(nat, nat)>, actions: seq<Action>)
    requires Bounded(body, fragments, actions) && |actions| >= 1 && actions[|actions| - 1].t.Ignore?
    ensures CodeOf(body, fragments, actions)[|actions| - 1].op.Skip?
  {
  }

  lemma BeforeNothing(rest: Option<seq<Lexeme>>)
    ensures Before([], rest) == rest
  {
    if rest.Some? { assert [] + rest.value == rest.value; }
  }

  lemma AppendedBefore(xs: seq<Lexeme>, x: Lexeme, rest: Option<seq<Lexeme>>)
    ensures Before(xs, Before([x], rest)) == Before(xs + [x], rest)
  {
    if rest.Some? { assert xs + ([x] + rest.value) == (xs + [x]) + rest.value; }
  }

  lemma Doomed(body: string, a: seq<Lexeme>, b: seq<Lexeme>)
    requires InBody(body, a) && StillOpen(body, a).None?
    ensures InBody(body, a + b) ==> StillOpen(body, a + b).None?
  {
    if InBody(body, a + b) { MismatchStays(body, a, b); }
  }

  lemma ParsedTexts(body: string, xs: seq<Lexeme>, f: seq<(nat, nat)>, actions: seq<Action>)
    requires |xs| == |f| == |actions| && InBody(body, xs)
    requires forall i :: 0 <= i < |xs| ==> f[i] == (xs[i].from, xs[i].to) && SameTag(xs[i], actions[i])
    ensures f == TextsOf(xs) && Texts(body, f) && OfKinds(actions, KindsOf(xs))
  {
    forall m | 0 <= m < |f| ensures f[m].0 <= f[m].1 <= |body| { assert xs[m] in xs; }
  }

  lemma KindsKept(xs: seq<Lexeme>, a: seq<Action>, b: seq<Action>)
    requires |xs| == |a| && (forall i :: 0 <= i < |xs| ==> SameTag(xs[i], a[i])) && SameTags(a, b)
    ensures |b| == |xs| && forall i :: 0 <= i < |xs| ==> SameTag(xs[i], b[i])
  {
  }

  // ---------------------------------------------------------------- steps of render_internal

  /** How an action hands on: an exception, a place to go on at, or a block entered with a context pushed. */
  datatype Flow = Threw | Goto(next: nat) | Enter(context: Json)

  /** What one action does, against the meaning of its tag. */
  predicate Ran(r: Flow, code: seq<Instr>, cur: nat, e: nat, stack: seq<Json>, out: string, stack': seq<Json>, out': string)
    requires cur < e < |code| && WellNested(code, cur, e) && stack != []
  {
    var tagged := RenderTag(TagAt(code, cur, e), stack);
    match r
    case Threw => tagged == None
    case Goto(next) => next == Behind(code, cur, e) && stack' == stack && tagged.Some? && out' == out + tagged.value
    case Enter(v) =>
      && (code[cur].op.Open? || code[cur].op.Else?) && stack' == stack + [v] && out' == out
      && tagged == Render(Tree(code, cur + 1, code[cur].op.pos), stack + [v])
  }

  /** Which tag an action stands for. */
  lemma TagHere(body: string, fragments: seq<(nat, nat)>, actions: seq<Action>, cur: nat, e: nat)
    requires Bounded(body, fragments, actions) && cur < e < |actions|
    requires WellNested(CodeOf(body, fragments, actions), cur, e)
    ensures var code, a := CodeOf(body, fragments, actions), actions[cur];
            var name := Substr(body, a.start, a.end);
            && !a.t.CloseBlock?
            && code[cur].op == OpOf(body, a)
            && (a.t.OpenBlock? || a.t.ElseBlock? ==>
                  && cur < a.pos < e && WellNested(code, cur + 1, a.pos) && Behind(code, cur, e) == a.pos + 1)
            && TagAt(code, cur, e) ==
                 match a.t
                 case Ignore => Comment
                 case TagAction => Variable(name, true)
                 case UnescapeTag => Variable(name, false)
                 case PartialAction => Partial(name)
                 case OpenBlock => Section(name, Tree(code, cur + 1, a.pos))
                 case ElseBlock => Inverted(name, Tree(code, cur + 1, a.pos))
                 case CloseBlock => Comment
  {
  }

  /** Well-nested code has close tags only where a block ends. */
  lemma ClosesAtEnd(body: string, fragments: seq<(nat, nat)>, actions: seq<Action>, cur: nat, ends: seq<nat>)
    requires Bounded(body, fragments, actions) && cur < |actions|
    requires Levels(CodeOf(body, fragments, actions), cur, ends) && cur < ends[0]
    ensures if actions[cur].t.CloseBlock? then |ends| > 1 && cur == ends[|ends| - 1]
            else cur < ends[|ends| - 1] < |actions| && WellNested(CodeOf(body, fragments, actions), cur, ends[|ends| - 1])
    ensures actions[cur].t.CloseBlock? ==> Levels(CodeOf(body, fragments, actions), cur + 1, ends[..|ends| - 1])
  {
  }

  lemma EnterRange(code: seq<Instr>, begin: nat, end: nat, stack: seq<Json>)
    requires begin <= end < |code| && WellNested(code, begin, end) && stack != []
    ensures Levels(code, begin, [end])
    ensures Render(Tree(code, begin, end), stack) == Cat(Some(""), Remaining(code, begin, [end], stack))
  {
    hide Render, TreeItems, WellNested;
    var r := Render(Tree(code, begin, end), stack);
    if r.Some? { assert "" + r.value == r.value; }
  }

  lemma RanMeans(r: Flow, code: seq<Instr>, cur: nat, ends: seq<nat>, stack: seq<Json>, out: string, stack': seq<Json>, out': string)
    requires Levels(code, cur, ends) && |stack| >= |ends| && cur < ends[|ends| - 1]
    requires Ran(r, code, cur, ends[|ends| - 1], stack, out, stack', out')
    ensures var tagged := RenderTag(TagAt(code, cur, ends[|ends| - 1]), stack);
            match r
            case Threw => tagged == None
            case Goto(next) => next == Behind(code, cur, ends[|ends| - 1]) && stack' == stack && tagged.Some? && out' == out + tagged.value
            case Enter(v) =>
              && (code[cur].op.Open? || code[cur].op.Else?) && stack' == stack + [v] && out' == out
              && code[cur].op.pos >= 0
              && Behind(code, cur, ends[|ends| - 1]) == code[cur].op.pos + 1
              && Levels(code, cur + 1, ends + [code[cur].op.pos])
              && Levels(code, code[cur].op.pos + 1, ends)
              && Remaining(code, cur + 1, ends + [code[cur].op.pos], stack') ==
                   Cat(tagged, Remaining(code, code[cur].op.pos + 1, ends, stack))
  {
    hide Render, RenderTag, Remaining, TreeItems;
    if r.Enter? { RemainingEnter(code, cur, ends, stack, r.context); }
  }

  lemma CatClose(done: string, text: string, rest: Option<string>)
    ensures Cat(Some(done), Cat(Some(text), rest)) == Cat(Some(done + text), rest)
  {
    CatJoins(Some(done), Some(text), rest);
  }

  lemma CatStep(done: string, text: string, tagged: Option<string>, rest: Option<string>)
    ensures Cat(Some(done), Cat(Cat(Some(text), tagged), rest)) == Cat(Some(done + text), Cat(tagged, rest))
    ensures tagged.Some? ==> Cat(Some(done + text), Cat(tagged, rest)) == Cat(Some(done + text + tagged.value), rest)
  {
    CatJoins(Some(text), tagged, rest);
    CatJoins(Some(done), Some(text), Cat(tagged, rest));
    CatJoins(Some(done + text), tagged, rest);
  }

  lemma NoContext(body: Template, stack: seq<Json>)
    requires stack != []
    ensures RenderEach(body, [], stack) == Some("")
  {
  }

  lemma EachNone(body: Template, stack: seq<Json>)
    requires stack != []
    ensures RenderEach(body, [][..0], stack) == Some("")
  {
  }

  lemma OneMoreEach(body: Template, items: seq<Json>, i: nat, stack: seq<Json>)
    requires stack != [] && i < |items|
    ensures RenderEach(body, items[..i + 1], stack) == Cat(RenderEach(body, items[..i], stack), Render(body, stack + [items[i]]))
  {
    hide Render, RenderEach;
    assert items[..i + 1] == items[..i] + [items[i]];
    EachJoins(body, items[..i], [items[i]], stack);
    EachOne(body, items[i], stack);
  }

  lemma RestOfEach(body: Template, items: seq<Json>, i: nat, stack: seq<Json>)
    requires stack != [] && i <= |items| && RenderEach(body, items[..i], stack) == None
    ensures RenderEach(body, items, stack) == None
  {
    hide Render, RenderEach;
    assert items == items[..i] + items[i..];
    EachJoins(body, items[..i], items[i..], stack);
  }

  lemma OpenIsUnmatched(actions: seq<Action>, blocks: seq<nat>)
    requires forall i :: 0 <= i < |actions| ==> (Unmatched(actions[i]) <==> i in blocks)
    requires forall i :: 0 <= i < |blocks| ==> blocks[i] < |actions|
    ensures blocks != [] ==> exists i :: 0 <= i < |actions| && Unmatched(actions[i])
  {
    if blocks != [] { assert blocks[0] in blocks && Unmatched(actions[blocks[0]]); }
  }

  /** Other texts, and another indentation for a partial, mean the same operations. */
  lemma Reworded(body: string, f: seq<(nat, nat)>, a: seq<Action>, g: seq<(nat, nat)>, b: seq<Action>)
    requires Bounded(body, f, a) && |f| == |g| && |a| == |b|
    requires forall x <- g :: x.0 <= |body| && x.1 <= |body|
    requires forall i :: 0 <= i < |a| ==> b[i] == a[i] || (a[i].t.PartialAction? && b[i] == a[i].(pos := b[i].pos))
    ensures Bounded(body, g, b) && SameOps(CodeOf(body, f, a), CodeOf(body, g, b), 0, |a|)
  {
    forall x <- b ensures x.start <= |body| && x.end <= |body| {
      var i :| 0 <= i < |b| && b[i] == x;
      assert a[i] in a;
    }
  }

  lemma SameOpsTwice(c: seq<Instr>, d: seq<Instr>, e: seq<Instr>)
    requires |c| == |d| == |e| && SameOps(c, d, 0, |c|) && SameOps(d, e, 0, |c|)
    ensures SameOps(c, e, 0, |c|)
  {
  }

  lemma LastOpen(code: seq<Instr>, blocks: seq<nat>, e: nat)
    requires e <= |code| && Chain(code, blocks, e) && blocks != []
    ensures var p := blocks[|blocks| - 1];
            && p < e && (code[p].op.Open? || code[p].op.Else?)
            && (forall i :: 0 <= i < |blocks| - 1 ==> blocks[i] < p)
            && forall i :: 0 <= i < |blocks| ==> blocks[i] < e
  {
    BlocksInside(code, blocks, e);
  }

  lemma ClosedMatch(actions: seq<Action>, blocks: seq<nat>, idx: nat, endIdx: nat)
    requires blocks != [] && (forall i :: 0 <= i < |blocks| ==> blocks[i] < |actions|)
    requires forall i :: 0 <= i < |blocks| - 1 ==> blocks[i] < blocks[|blocks| - 1]
    requires forall i :: 0 <= i < |actions| ==> (Unmatched(actions[i]) <==> i in blocks)
    ensures var p, n := blocks[|blocks| - 1], |actions|;
            var more := actions[p := actions[p].(pos := n, hasEndMatch := true)] + [Action(false, idx, endIdx, p, CloseBlock)];
            forall i :: 0 <= i < |more| ==> (Unmatched(more[i]) <==> i in blocks[..|blocks| - 1])
  {
    var p, front := blocks[|blocks| - 1], blocks[..|blocks| - 1];
    assert blocks == front + [p];
  }

  /** What AppendClose does to the code. */
  lemma ClosedCode(body: string, fragments: seq<(nat, nat)>, actions: seq<Action>, p: nat, idx: nat, endIdx: nat)
    requires Bounded(body, fragments, actions) && |fragments| > |actions| > p && idx <= |body| && endIdx <= |body|
    requires var op := OpOf(body, actions[p]); op.Open? || op.Else?
    ensures var n := |actions|;
            var more := actions[p := actions[p].(pos := n, hasEndMatch := true)] + [Action(false, idx, endIdx, p, CloseBlock)];
            var code := CodeOf(body, fragments, actions);
            && Bounded(body, fragments, more)
            && CodeOf(body, fragments, more) == code[p := Matched(code[p], n)] + [CodeOf(body, fragments, more)[n]]
            && CodeOf(body, fragments, more)[n].op == Close(Substr(body, idx, endIdx))
            && code[p].op.name == Substr(body, actions[p].start, actions[p].end)
  {
    var n := |actions|;
    var more := actions[p := actions[p].(pos := n, hasEndMatch := true)] + [Action(false, idx, endIdx, p, CloseBlock)];
    assert forall a <- more :: a.start <= |body| && a.end <= |body|;
  }

  lemma {:induction false} BlocksInside(code: seq<Instr>, blocks: seq<nat>, e: nat)
    requires e <= |code| && Chain(code, blocks, e)
    ensures forall i :: 0 <= i < |blocks| ==> blocks[i] < e
    ensures forall i, j :: 0 <= i < j < |blocks| ==> blocks[i] < blocks[j]
    decreases |blocks|
  {
    if blocks != [] {
      var front := blocks[..|blocks| - 1];
      BlocksInside(code, front, blocks[|blocks| - 1]);
      assert blocks == front + [blocks[|blocks| - 1]];
    }
  }

  lemma NothingParsed(code: seq<Instr>)
    requires code == []
    ensures Chain(code, [], 0)
  {
  }

  lemma WholeNested(code: seq<Instr>, blocks: seq<nat>, n: nat)
    requires n == |code| >= 1 && Chain(code, blocks, n) && blocks == [] && code[n - 1].op.Skip?
    ensures WellNested(code, 0, n - 1)
  {
    DropLast(code, 0, n);
  }

  lemma {:induction false} DropLast(code: seq<Instr>, b: nat, n: nat)
    requires b < n == |code| && WellNested(code, b, n) && code[n - 1].op.Skip?
    ensures WellNested(code, b, n - 1)
    decreases n - b
  {
    if b < n - 1 {
      if code[b].op.Open? || code[b].op.Else? {
        DropLast(code, code[b].op.pos + 1, n);
      } else {
        DropLast(code, b + 1, n);
      }
    }
  }
}
