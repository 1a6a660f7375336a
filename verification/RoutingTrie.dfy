/** The search tree of `routing.h`: its nodes, the rules they stand for, insertion and path compression. */
module RoutingTrie {
  import opened Wrappers
  import opened RoutingRules

  /** `param == None` is ParamType::MAX, a literal node. */
  datatype Node = Node(ruleIndex: nat, key: string, param: Option<ParamKind>, children: seq<Node>)

  const EMPTY_NODE := Node(0, "", None, [])

  // ---------------------------------------------------------------- the rules of a tree

  function Label(n: Node): seq<Token> {
    if n.param.Some? then [Param(n.param.value)] else Lits(n.key)
  }

  function Own(n: Node): seq<Rule> {
    if n.ruleIndex != 0 then [Rule([], n.ruleIndex)] else []
  }

  /** The rules reachable from a node, in the order in which `find` meets them. */
  function Rules(n: Node): seq<Rule>
    decreases n, 1
  {
    Own(n) + ChildRules(n.children)
  }

  function ChildRules(cs: seq<Node>): seq<Rule>
    decreases cs, 0
  {
    if cs == [] then [] else Prefixed(Label(cs[0]), Rules(cs[0])) + ChildRules(cs[1..])
  }

  /** Literal nodes below the head consume at least one character. */
  predicate Consuming(n: Node) {
    forall c <- n.children :: (c.param.Some? || c.key != "") && Consuming(c)
  }

  lemma {:induction false} ChildRulesConsume(cs: seq<Node>)
    requires forall c <- cs :: c.param.Some? || c.key != ""
    ensures forall i :: 0 <= i < |ChildRules(cs)| ==> ChildRules(cs)[i].tokens != []
    decreases |cs|
  {
    if cs != [] { ChildRulesConsume(cs[1..]); }
  }

  lemma {:induction false} ChildRulesJoin(a: seq<Node>, b: seq<Node>)
    ensures ChildRules(a + b) == ChildRules(a) + ChildRules(b)
    decreases |a|
  {
    hide Prefixed, Label;
    if a == [] {
      assert a + b == b;
    } else {
      ChildRulesJoin(a[1..], b);
      assert (a + b)[1..] == a[1..] + b && (a + b)[0] == a[0];
      var first := Prefixed(Label(a[0]), Rules(a[0]));
      assert first + (ChildRules(a[1..]) + ChildRules(b)) == (first + ChildRules(a[1..])) + ChildRules(b);
    }
  }

  // ---------------------------------------------------------------- path compression

  /** Node::IsSimpleNode. */
  predicate IsSimpleNode(n: Node) {
    n.ruleIndex == 0 && |n.children| < 2 && n.param.None? && forall c <- n.children :: c.param.None?
  }

  function NodeCount(n: Node): (r: nat)
    ensures r >= 1
    decreases n, 1
  {
    1 + ForestCount(n.children)
  }

  function ForestCount(cs: seq<Node>): nat
    decreases cs, 0
  {
    if cs == [] then 0 else NodeCount(cs[0]) + ForestCount(cs[1..])
  }

  /** A simple node after taking over its only child. */
  function Merged(n: Node): Node
    requires IsSimpleNode(n) && n.children != []
  {
    var c := n.children[0];
    Node(c.ruleIndex, n.key + c.key, None, c.children)
  }

  lemma MergedCount(n: Node)
    requires IsSimpleNode(n) && n.children != []
    ensures NodeCount(Merged(n)) < NodeCount(n)
  {
    var c := n.children[0];
    assert n.children[1..] == [] && ForestCount([]) == 0;
    assert NodeCount(Merged(n)) == 1 + ForestCount(c.children) == NodeCount(c);
    assert ForestCount(n.children) == NodeCount(c) + ForestCount(n.children[1..]);
  }

  /** Trie::optimizeNode: a simple node takes over its only child, again and again. */
  function Compress(n: Node): Node
    decreases NodeCount(n), 1
  {
    if n.children == [] then n
    else if IsSimpleNode(n) then
      MergedCount(n);
      Compress(Merged(n))
    else n.(children := CompressAll(n.children))
  }

  function CompressAll(cs: seq<Node>): (r: seq<Node>)
    ensures |r| == |cs|
    decreases ForestCount(cs), 2, |cs|
  {
    if cs == [] then [] else [Compress(cs[0])] + CompressAll(cs[1..])
  }

  /** No node of the tree could still take over an only child. */
  predicate Compressed(n: Node) {
    !(n.children != [] && IsSimpleNode(n)) && forall c <- n.children :: Compressed(c)
  }

  lemma MergedRules(n: Node)
    requires IsSimpleNode(n) && n.children != []
    ensures Prefixed(Label(Merged(n)), Rules(Merged(n))) == Prefixed(Label(n), Rules(n))
  {
    var c := n.children[0];
    RulesOfOnlyChild(n);
    RulesOfMerged(n);
    hide *;
    LitsJoin(n.key, c.key);
    PrefixedTwice(Lits(n.key), Lits(c.key), Rules(c));
  }

  lemma RulesOfOnlyChild(n: Node)
    requires IsSimpleNode(n) && n.children != []
    ensures var c := n.children[0]; Rules(n) == Prefixed(Label(c), Rules(c)) && Label(n) == Lits(n.key) && Label(c) == Lits(c.key)
  {
    hide Prefixed, Lits;
    assert n.children[0] in n.children;
    assert n.children[1..] == [] && ChildRules([]) == [];
  }

  lemma RulesOfMerged(n: Node)
    requires IsSimpleNode(n) && n.children != []
    ensures var c := n.children[0]; Rules(Merged(n)) == Rules(c) && Label(Merged(n)) == Lits(n.key + c.key)
  {
    hide Prefixed, Lits;
  }

  /** Path compression keeps the rules of a tree, in their order, and what its root stands for. */
  lemma {:induction false} CompressKeepsRules(n: Node)
    ensures Prefixed(Label(Compress(n)), Rules(Compress(n))) == Prefixed(Label(n), Rules(n))
    ensures n.param.Some? ==> Compress(n).param == n.param
    decreases NodeCount(n), 1
  {
    if n.children != [] {
      if IsSimpleNode(n) {
        MergedCount(n);
        CompressKeepsRules(Merged(n));
        MergedRules(n);
      } else {
        CompressAllKeepsRules(n.children);
      }
    }
  }

  lemma {:induction false} CompressAllKeepsRules(cs: seq<Node>)
    ensures ChildRules(CompressAll(cs)) == ChildRules(cs)
    decreases ForestCount(cs), 2, |cs|
  {
    if cs != [] {
      CompressKeepsRules(cs[0]);
      CompressAllKeepsRules(cs[1..]);
    }
  }

  lemma {:induction false} CompressIsCompressed(n: Node)
    ensures Compressed(Compress(n))
    decreases NodeCount(n), 1
  {
    if n.children != [] {
      if IsSimpleNode(n) {
        MergedCount(n);
        CompressIsCompressed(Merged(n));
      } else {
        CompressAllIsCompressed(n.children);
      }
    }
  }

  lemma {:induction false} CompressAllIsCompressed(cs: seq<Node>)
    ensures forall c <- CompressAll(cs) :: Compressed(c)
    ensures |cs| >= 2 ==> |CompressAll(cs)| >= 2
    ensures forall i :: 0 <= i < |cs| && cs[i].param.Some? ==> CompressAll(cs)[i].param.Some?
    decreases ForestCount(cs), 2, |cs|
  {
    if cs != [] {
      CompressIsCompressed(cs[0]);
      CompressKeepsRules(cs[0]);
      CompressAllIsCompressed(cs[1..]);
    }
  }

  lemma {:induction false} CompressConsumes(n: Node)
    requires Consuming(n)
    ensures Consuming(Compress(n))
    ensures (n.param.Some? || n.key != "") ==> (Compress(n).param.Some? || Compress(n).key != "")
    decreases NodeCount(n), 1
  {
    if n.children != [] {
      if IsSimpleNode(n) {
        MergedCount(n);
        CompressConsumes(Merged(n));
      } else {
        CompressAllConsumes(n.children);
      }
    }
  }

  lemma {:induction false} CompressAllConsumes(cs: seq<Node>)
    requires forall c <- cs :: (c.param.Some? || c.key != "") && Consuming(c)
    ensures forall c <- CompressAll(cs) :: (c.param.Some? || c.key != "") && Consuming(c)
    decreases ForestCount(cs), 2, |cs|
  {
    if cs != [] {
      CompressConsumes(cs[0]);
      CompressAllConsumes(cs[1..]);
    }
  }

  // ---------------------------------------------------------------- insertion

  /** `key[0]` of a std::string, which is NUL for the empty key of a parameter node. */
  function KeyHead(key: string): char {
    if key == "" then '\0' else key[0]
  }

  /** The test by which `add` recognises the child to go down to. */
  predicate Takes(c: Node, t: Token) {
    match t
    case Lit(ch) => KeyHead(c.key) == ch
    case Param(kind) => c.param == Some(kind)
  }

  function NewNode(t: Token): Node {
    match t
    case Lit(ch) => EMPTY_NODE.(key := [ch])
    case Param(kind) => EMPTY_NODE.(param := Some(kind))
  }

  /** The tree that `add` builds and assumes: one token a node, no two siblings for one token. */
  predicate Unoptimized(n: Node) {
    && (forall c <- n.children :: Unoptimized(c) && (if c.param.Some? then c.key == "" else |c.key| == 1))
    && (forall i, j :: 0 <= i < j < |n.children| ==> Label(n.children[i]) != Label(n.children[j]))
  }

  function FirstTaking(cs: seq<Node>, t: Token): (k: nat)
    ensures k <= |cs| && (forall i :: 0 <= i < k ==> !Takes(cs[i], t)) && (k < |cs| ==> Takes(cs[k], t))
  {
    if cs == [] then 0 else if Takes(cs[0], t) then 0 else 1 + FirstTaking(cs[1..], t)
  }

  /** The tree after `add`, or nothing if the very pattern is there already. */
  function Insert(n: Node, tokens: seq<Token>, index: nat): Option<Node>
    decreases |tokens|
  {
    if tokens == [] then if n.ruleIndex != 0 then None else Some(n.(ruleIndex := index))
    else
      var k := FirstTaking(n.children, tokens[0]);
      if k < |n.children| then
        var r := Insert(n.children[k], tokens[1..], index);
        if r.None? then None else Some(n.(children := n.children[k := r.value]))
      else
        var r := Insert(NewNode(tokens[0]), tokens[1..], index);
        if r.None? then None else Some(n.(children := n.children + [r.value]))
  }

  /** The pattern under which `add` files a rule: each token goes to the first child that takes it, and a NUL is taken
      by a parameter child. */
  function Filed(n: Node, tokens: seq<Token>): (r: seq<Token>)
    decreases |tokens|
  {
    if tokens == [] then []
    else
      var k := FirstTaking(n.children, tokens[0]);
      if k < |n.children| then Label(n.children[k]) + Filed(n.children[k], tokens[1..]) else tokens
  }

  /** On its way down the tree a NUL of the pattern meets a parameter child before any child that stands for NUL. */
  predicate GoesAstray(n: Node, tokens: seq<Token>)
    decreases |tokens|
  {
    tokens != [] &&
    (var k := FirstTaking(n.children, tokens[0]);
     && k < |n.children|
     && ((tokens[0] == Lit('\0') && n.children[k].param.Some?) || GoesAstray(n.children[k], tokens[1..])))
  }

  predicate NoNul(tokens: seq<Token>) { forall t <- tokens :: t != Lit('\0') }

  predicate OneToken(c: Node) { if c.param.Some? then c.key == "" else |c.key| == 1 }

  /** The test of a child is whether it stands for the token, except that a parameter child takes NUL as well. */
  lemma TakesLabel(c: Node, t: Token)
    requires OneToken(c)
    ensures Takes(c, t) <==> Label(c) == [t] || (t == Lit('\0') && c.param.Some?)
    ensures |Label(c)| == 1 && Label(c) == [Label(c)[0]] && (c.param.Some? ==> Label(c) != [Lit('\0')])
  {
    if c.param.None? { assert Lits(c.key)[0] == Lit(c.key[0]); }
  }

  /** `add` files a rule under another pattern than its own exactly if one of its NULs goes astray. */
  lemma {:induction false} FiledIff(n: Node, tokens: seq<Token>)
    requires Unoptimized(n)
    ensures Filed(n, tokens) == tokens <==> !GoesAstray(n, tokens)
    ensures |Filed(n, tokens)| == |tokens| && (NoNul(tokens) ==> !GoesAstray(n, tokens))
    decreases |tokens|
  {
    hide Label, Takes;
    if tokens != [] {
      var t := tokens[0];
      var k := FirstTaking(n.children, t);
      assert tokens == [t] + tokens[1..] && t in tokens;
      assert forall u <- tokens[1..] :: u in tokens;
      if k < |n.children| {
        var c := n.children[k];
        TakesLabel(c, t);
        FiledIff(c, tokens[1..]);
        assert (Label(c) + Filed(c, tokens[1..]))[0] == Label(c)[0];
        assert (Label(c) + Filed(c, tokens[1..]))[1..] == Filed(c, tokens[1..]);
      }
    }
  }

  /** A rule goes through one of these children. */
  predicate Through(cs: seq<Node>, r: Rule) {
    r.tokens != [] && exists c <- cs :: Label(c) == [r.tokens[0]] && Rule(r.tokens[1..], r.index) in Rules(c)
  }

  lemma {:induction false} ThroughChildren(cs: seq<Node>, r: Rule)
    requires forall c <- cs :: |Label(c)| == 1
    ensures r in ChildRules(cs) <==> Through(cs, r)
    decreases |cs|
  {
    if cs != [] {
      ThroughChildren(cs[1..], r);
      var front := Prefixed(Label(cs[0]), Rules(cs[0]));
      if r in front {
        var i :| 0 <= i < |front| && front[i] == r;
        assert r.tokens[1..] == Rules(cs[0])[i].tokens;
        assert Rule(r.tokens[1..], r.index) in Rules(cs[0]);
        assert Label(cs[0]) == [r.tokens[0]];
      }
      if r.tokens != [] && Label(cs[0]) == [r.tokens[0]] && Rule(r.tokens[1..], r.index) in Rules(cs[0]) {
        var i :| 0 <= i < |Rules(cs[0])| && Rules(cs[0])[i] == Rule(r.tokens[1..], r.index);
        assert front[i].tokens == r.tokens;
        assert front[i] == r;
      }
      assert forall c :: c in cs <==> c == cs[0] || c in cs[1..];
    }
  }

  lemma RuleIsThere(n: Node, r: Rule)
    requires Unoptimized(n)
    ensures r in Rules(n) <==> (r.tokens == [] && r.index == n.ruleIndex != 0) || Through(n.children, r)
  {
    SingleLabels(n);
    ThroughChildren(n.children, r);
  }

  lemma SingleLabels(n: Node)
    requires Unoptimized(n)
    ensures forall c <- n.children :: |Label(c)| == 1
  {
    forall c <- n.children ensures |Label(c)| == 1 { TakesLabel(c, Lit('a')); }
  }

  predicate GoodChild(c: Node) { Unoptimized(c) && OneToken(c) }

  /** Replacing child `k` changes the rules through its token only. */
  lemma ReplaceChild(n: Node, k: nat, d: Node, t: Token, r: Rule)
    requires Unoptimized(n) && k < |n.children| && Label(n.children[k]) == [t]
    requires GoodChild(d) && Label(d) == [t]
    ensures var m := n.(children := n.children[k := d]);
            && Unoptimized(m)
            && (r in Rules(m) <==>
                  if r.tokens != [] && r.tokens[0] == t then Rule(r.tokens[1..], r.index) in Rules(d) else r in Rules(n))
  {
    hide Rules;
    var m := n.(children := n.children[k := d]);
    forall c <- m.children ensures GoodChild(c) {
      if c != d { assert c in n.children; }
    }
    RuleIsThere(n, r);
    RuleIsThere(m, r);
    if r.tokens != [] && r.tokens[0] == t {
      assert m.children[k] == d && d in m.children;
      OnlyChild(m, k, t, r);
    } else if Through(n.children, r) {
      var i :| 0 <= i < |n.children| && Label(n.children[i]) == [r.tokens[0]] && Rule(r.tokens[1..], r.index) in Rules(n.children[i]);
      assert m.children[i] in m.children;
    }
  }

  /** The rules through one token are those of the child that stands for it. */
  lemma OnlyChild(n: Node, k: nat, t: Token, r: Rule)
    requires Unoptimized(n) && k < |n.children| && Label(n.children[k]) == [t]
    requires r.tokens != [] && r.tokens[0] == t
    ensures r in Rules(n) <==> Rule(r.tokens[1..], r.index) in Rules(n.children[k])
  {
    hide Rules, Label;
    RuleIsThere(n, r);
    assert n.children[k] in n.children;
    forall c <- n.children | Label(c) == [t] ensures c == n.children[k] {
      var i :| 0 <= i < |n.children| && n.children[i] == c;
    }
  }

  /** A new child for a token that no child stands for. */
  lemma AppendChild(n: Node, d: Node, t: Token, r: Rule)
    requires Unoptimized(n) && GoodChild(d) && Label(d) == [t]
    requires forall c <- n.children :: Label(c) != [t]
    ensures var m := n.(children := n.children + [d]);
            && Unoptimized(m)
            && (r in Rules(m) <==>
                  if r.tokens != [] && r.tokens[0] == t then Rule(r.tokens[1..], r.index) in Rules(d) else r in Rules(n))
    ensures r.tokens != [] && r.tokens[0] == t ==> r !in Rules(n)
  {
    hide Rules;
    var m := n.(children := n.children + [d]);
    RuleIsThere(n, r);
    RuleIsThere(m, r);
    assert forall c :: c in m.children <==> c in n.children || c == d;
  }

  lemma NewNodeIsGood(t: Token)
    ensures GoodChild(NewNode(t)) && Unoptimized(NewNode(t)) && Label(NewNode(t)) == [t] && Rules(NewNode(t)) == []
  {
  }

  /** A successful `add` puts exactly one rule into the tree; it fails exactly when its pattern is there. */
  lemma {:induction false} InsertAdds(n: Node, tokens: seq<Token>, index: nat, r: Rule)
    requires Unoptimized(n) && index != 0
    ensures Added(n, Insert(n, tokens, index), Filed(n, tokens), index, r)
    decreases |tokens|
  {
    if tokens == [] {
      var m := Insert(n, tokens, index);
      RuleIsThere(n, r);
      if m.Some? {
        RuleIsThere(m.value, r);
      } else {
        RuleIsThere(n, Rule(tokens, n.ruleIndex));
      }
    } else {
      hide Rules, NewNode, Label, Unoptimized, Takes, GoodChild;
      var t := tokens[0];
      var k := FirstTaking(n.children, t);
      LabelsOfChildren(n, t);
      var rest := Rule(if r.tokens == [] then [] else r.tokens[1..], r.index);
      if k < |n.children| {
        InsertAdds(n.children[k], tokens[1..], index, rest);
        InsertBelow(n, tokens, index, k, r);
      } else {
        NewNodeIsGood(t);
        InsertAdds(NewNode(t), tokens[1..], index, rest);
        NothingFiled(NewNode(t), tokens[1..]);
        InsertBeside(n, tokens, index, r);
      }
    }
  }

  lemma NothingFiled(n: Node, tokens: seq<Token>)
    requires n.children == []
    ensures Filed(n, tokens) == tokens
  {
  }

  /** What `InsertAdds` says of one insertion. */
  ghost predicate Added(n: Node, m: Option<Node>, tokens: seq<Token>, index: nat, r: Rule) {
    && (m.None? ==> exists i :: Rule(tokens, i) in Rules(n))
    && (m.Some? ==>
          && Unoptimized(m.value) && m.value.param == n.param && m.value.key == n.key
          && (r in Rules(m.value) <==> r in Rules(n) || r == Rule(tokens, index))
          && (r.tokens == tokens ==> r !in Rules(n)))
  }

  lemma InsertBelow(n: Node, tokens: seq<Token>, index: nat, k: nat, r: Rule)
    requires Unoptimized(n) && tokens != [] && k < |n.children| && k == FirstTaking(n.children, tokens[0])
    requires var c := n.children[k]; GoodChild(c) && |Label(c)| == 1
    requires Added(n.children[k], Insert(n.children[k], tokens[1..], index), Filed(n.children[k], tokens[1..]), index,
                   Rule(if r.tokens == [] then [] else r.tokens[1..], r.index))
    ensures Added(n, Insert(n, tokens, index), Filed(n, tokens), index, r)
  {
    hide Rules, Label, Unoptimized, Takes, GoodChild;
    var c := n.children[k];
    var t, rest := Label(c)[0], Filed(c, tokens[1..]);
    var d := Insert(c, tokens[1..], index);
    assert Label(c) == [t];
    assert Filed(n, tokens) == [t] + rest;
    assert ([t] + rest)[0] == t && ([t] + rest)[1..] == rest;
    if r.tokens != [] { assert r.tokens == [r.tokens[0]] + r.tokens[1..]; }
    if d.Some? {
      SameLabel(c, d.value);
      ReplaceChild(n, k, d.value, t, r);
      if r.tokens != [] && r.tokens[0] == t { OnlyChild(n, k, t, r); }
    } else {
      var i :| Rule(rest, i) in Rules(c);
      OnlyChild(n, k, t, Rule([t] + rest, i));
    }
  }

  lemma InsertBeside(n: Node, tokens: seq<Token>, index: nat, r: Rule)
    requires Unoptimized(n) && tokens != [] && FirstTaking(n.children, tokens[0]) == |n.children|
    requires GoodChild(NewNode(tokens[0])) && Label(NewNode(tokens[0])) == [tokens[0]] && Rules(NewNode(tokens[0])) == []
    requires forall c <- n.children :: Label(c) != [tokens[0]]
    requires Added(NewNode(tokens[0]), Insert(NewNode(tokens[0]), tokens[1..], index), tokens[1..], index,
                   Rule(if r.tokens == [] then [] else r.tokens[1..], r.index))
    ensures Added(n, Insert(n, tokens, index), Filed(n, tokens), index, r)
  {
    hide Rules, Label, Unoptimized, Takes, GoodChild, NewNode;
    var t := tokens[0];
    var d := Insert(NewNode(t), tokens[1..], index);
    if r.tokens != [] { assert r.tokens == [r.tokens[0]] + r.tokens[1..] && tokens == [t] + tokens[1..]; }
    if d.Some? {
      SameLabel(NewNode(t), d.value);
      AppendChild(n, d.value, t, r);
    }
  }

  lemma SameLabel(c: Node, d: Node)
    requires GoodChild(c) && Unoptimized(d) && d.param == c.param && d.key == c.key
    ensures GoodChild(d) && Label(d) == Label(c) && Unoptimized(c)
  {
  }

  lemma LabelsOfChildren(n: Node, t: Token)
    requires Unoptimized(n)
    ensures var k := FirstTaking(n.children, t);
            && (forall c <- n.children :: GoodChild(c) && Unoptimized(c))
            && (k < |n.children| ==> |Label(n.children[k])| == 1)
            && (k == |n.children| ==> forall c <- n.children :: Label(c) != [t])
  {
    hide Takes, Label;
    forall c <- n.children ensures GoodChild(c) && Unoptimized(c) && |Label(c)| == 1 && (Label(c) == [t] ==> Takes(c, t)) { TakesLabel(c, t); }
  }

  lemma {:induction false} UnoptimizedConsumes(n: Node)
    requires Unoptimized(n)
    ensures Consuming(n)
    decreases n
  {
    forall c <- n.children ensures (c.param.Some? || c.key != "") && Consuming(c) { UnoptimizedConsumes(c); }
  }

  lemma {:induction false} RulesHaveIndices(n: Node)
    ensures forall i :: 0 <= i < |Rules(n)| ==> Rules(n)[i].index != 0
    decreases n, 1
  {
    ChildRulesHaveIndices(n.children);
  }

  lemma {:induction false} ChildRulesHaveIndices(cs: seq<Node>)
    ensures forall i :: 0 <= i < |ChildRules(cs)| ==> ChildRules(cs)[i].index != 0
    decreases cs, 0
  {
    if cs != [] {
      RulesHaveIndices(cs[0]);
      ChildRulesHaveIndices(cs[1..]);
    }
  }

  /** After `<int>` the pattern NUL is taken for the same rule: `key[0]` of a parameter node's empty key is NUL. */
  lemma NulGoesAstray()
    ensures var n := EMPTY_NODE.(children := [NewNode(Param(Int)).(ruleIndex := 5)]);
            Unoptimized(n) && GoesAstray(n, [Lit('\0')]) && Filed(n, [Lit('\0')]) == [Param(Int)]
  {
    var leaf := NewNode(Param(Int)).(ruleIndex := 5);
    assert FirstTaking([leaf], Lit('\0')) == 0;
    assert [Lit('\0')][1..] == [] && [Param(Int)] + [] == [Param(Int)];
  }

  // ---------------------------------------------------------------- places in a tree

  predicate ValidPath(n: Node, path: seq<nat>)
    decreases |path|
  {
    path == [] || (path[0] < |n.children| && ValidPath(n.children[path[0]], path[1..]))
  }

  function NodeAt(n: Node, path: seq<nat>): Node
    requires ValidPath(n, path)
    decreases |path|
  {
    if path == [] then n else NodeAt(n.children[path[0]], path[1..])
  }

  function ReplaceAt(n: Node, path: seq<nat>, m: Node): Node
    requires ValidPath(n, path)
    decreases |path|
  {
    if path == [] then m else n.(children := n.children[path[0] := ReplaceAt(n.children[path[0]], path[1..], m)])
  }

  lemma {:induction false} Replaced(n: Node, path: seq<nat>, m: Node, m': Node)
    requires ValidPath(n, path)
    ensures var r := ReplaceAt(n, path, m);
            ValidPath(r, path) && NodeAt(r, path) == m && ReplaceAt(r, path, m') == ReplaceAt(n, path, m')
    decreases |path|
  {
    if path != [] {
      Replaced(n.children[path[0]], path[1..], m, m');
      var r := ReplaceAt(n, path, m);
      assert n.children[path[0] := r.children[path[0]]] == r.children;
    }
  }

  lemma {:induction false} OneDeeper(n: Node, path: seq<nat>, k: nat, m: Node)
    requires ValidPath(n, path) && k < |NodeAt(n, path).children|
    ensures ValidPath(n, path + [k]) && NodeAt(n, path + [k]) == NodeAt(n, path).children[k]
    ensures ReplaceAt(n, path + [k], m) ==
              ReplaceAt(n, path, NodeAt(n, path).(children := NodeAt(n, path).children[k := m]))
    decreases |path|
  {
    if path == [] {
      assert (path + [k])[1..] == [];
    } else {
      OneDeeper(n.children[path[0]], path[1..], k, m);
      assert (path + [k])[1..] == path[1..] + [k];
    }
  }
}
