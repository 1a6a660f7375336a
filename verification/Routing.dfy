/** `Trie::add`, `Trie::optimize` and `Trie::find` of `routing.h`, against the list of rules. */
module Routing {
  import opened Wrappers
  import opened RoutingRules
  import opened RoutingTrie

  // ---------------------------------------------------------------- patterns

  predicate HasTag(url: string, i: nat, tag: string) {
    i + |tag| <= |url| && url[i..i + |tag|] == tag
  }

  /** The parameter tag at `i` and its length, if `add` knows one. */
  function TagAt(url: string, i: nat): (r: Option<(ParamKind, nat)>)
    ensures r.Some? ==> r.value.1 > 0 && i + r.value.1 <= |url|
  {
    if HasTag(url, i, "<int>") then Some((Int, 5))
    else if HasTag(url, i, "<uint>") then Some((Uint, 6))
    else if HasTag(url, i, "<float>") then Some((Double, 7))
    else if HasTag(url, i, "<double>") then Some((Double, 8))
    else if HasTag(url, i, "<str>") then Some((Str, 5))
    else if HasTag(url, i, "<string>") then Some((Str, 8))
    else if HasTag(url, i, "<path>") then Some((Path, 6))
    else None
  }

  /** The tokens of a pattern from `i` on; nothing if a `<` starts no known tag. */
  function Tokens(url: string, i: nat): (r: Option<seq<Token>>)
    requires i <= |url|
    decreases |url| - i
  {
    if i == |url| then Some([])
    else if url[i] == '<' then
      var tag := TagAt(url, i);
      if tag.None? then None
      else
        var rest := Tokens(url, i + tag.value.1);
        if rest.None? then None else Some([Param(tag.value.0)] + rest.value)
    else
      var rest := Tokens(url, i + 1);
      if rest.None? then None else Some([Lit(url[i])] + rest.value)
  }

  lemma {:induction false} TokensNoNul(url: string, i: nat)
    requires i <= |url| && Tokens(url, i).Some? && forall k :: 0 <= k < |url| ==> url[k] != '\0'
    ensures NoNul(Tokens(url, i).value)
    decreases |url| - i
  {
    if i < |url| {
      if url[i] == '<' { TokensNoNul(url, i + TagAt(url, i).value.1); } else { TokensNoNul(url, i + 1); }
    }
  }

  // ---------------------------------------------------------------- the shared parameter stacks

  class RoutingParams {
    var intParams: seq<int>
    var uintParams: seq<int>
    var doubleParams: seq<real>
    var stringParams: seq<string>

    constructor ()
      ensures View() == NO_PARAMS
    {
      intParams, uintParams, doubleParams, stringParams := [], [], [], [];
    }

    function View(): Params
      reads this
    {
      Params(intParams, uintParams, doubleParams, stringParams)
    }

    method PushBack(v: Value)
      modifies this
      ensures View() == Push(old(View()), v)
    {
      match v {
        case IntValue(i) => intParams := intParams + [i];
        case UintValue(u) => uintParams := uintParams + [u];
        case DoubleValue(d) => doubleParams := doubleParams + [d];
        case StringValue(s) => stringParams := stringParams + [s];
      }
    }

    /** pop_back on the stack that holds values of `v`'s kind. */
    method PopBack(v: Value, ghost before: Params)
      requires View() == Push(before, v)
      modifies this
      ensures View() == before
    {
      match v {
        case IntValue(_) => intParams := intParams[..|intParams| - 1];
        case UintValue(_) => uintParams := uintParams[..|uintParams| - 1];
        case DoubleValue(_) => doubleParams := doubleParams[..|doubleParams| - 1];
        case StringValue(_) => stringParams := stringParams[..|stringParams| - 1];
      }
    }
  }

  /** A search result against the best hit of a rule list, the captures pushed on the stacks as they were. */
  predicate Reports(found: nat, matched: Params, best: Option<Hit>, before: Params) {
    if best.None? then found == 0
    else found == best.value.index != 0 && matched == PushAll(before, best.value.values)
  }

  /** update_found. */
  lemma UpdateFound(found: nat, matched: Params, x: Option<Hit>, r: nat, m: Params, y: Option<Hit>, before: Params)
    requires Reports(found, matched, x, before) && Reports(r, m, y, before)
    ensures var better := r != 0 && (found == 0 || found > r);
            Reports(if better then r else found, if better then m else matched, Better(x, y), before)
  {
  }

  class Trie {
    var head: Node
    const strtod: Strtod
    /** The rules that `add` has filed. */
    ghost var registered: seq<Rule>

    constructor (strtod: Strtod)
      ensures Valid() && Unoptimized(head) && registered == []
    {
      this.strtod := strtod;
      head := EMPTY_NODE;
      registered := [];
    }

    ghost predicate Valid()
      reads this
    {
      Consuming(head) && forall r :: r in Rules(head) <==> r in registered
    }

    // ---------------------------------------------------------------- find

    /** Trie::find: the shared stacks are left as they were found, and the result is the best of the rules below
        the node. */
    method FindFrom(url: string, node: Node, pos: nat, params: RoutingParams) returns (found: nat, matched: Params)
      requires pos <= |url| && Consuming(node)
      modifies params
      ensures params.View() == old(params.View())
      ensures Reports(found, matched, Best(Rules(node), strtod, url, pos), params.View())
      decreases node
    {
      hide Rules, ChildRules, Best, Scan, Push, PushAll;
      if pos == |url| {
        AtEnd(node, strtod, url, params.View());
        return node.ruleIndex, params.View();
      }
      found, matched := 0, NO_PARAMS;
      NotYet(node, strtod, url, pos);
      ghost var before := params.View();
      for i := 0 to |node.children|
        invariant params.View() == before
        invariant Reports(found, matched, Best(ChildRules(node.children[..i]), strtod, url, pos), before)
      {
        var child := node.children[i];
        assert child in node.children;
        var ret, m := 0, NO_PARAMS;
        if child.param.Some? {
          var v := Scan(child.param.value, strtod, url, pos);
          UnderParam(child, strtod, url, pos, before);
          if v.Some? {
            params.PushBack(v.value.0);
            ret, m := FindFrom(url, child, v.value.1, params);
            params.PopBack(v.value.0, before);
          }
        } else {
          BestUnderLits(child.key, Rules(child), strtod, url, pos);
          if KeyAt(child.key, url, pos) {
            ret, m := FindFrom(url, child, pos + |child.key|, params);
          }
        }
        assert Reports(ret, m, Best(Prefixed(Label(child), Rules(child)), strtod, url, pos), before);
        OneMoreChild(node.children, i, strtod, url, pos);
        UpdateFound(found, matched, Best(ChildRules(node.children[..i]), strtod, url, pos),
                    ret, m, Best(Prefixed(Label(child), Rules(child)), strtod, url, pos), before);
        if ret != 0 && (found == 0 || found > ret) {
          found, matched := ret, m;
        }
      }
      assert node.children[..|node.children|] == node.children;
    }

    /** find(url): the smallest index among the registered patterns that match the whole url, with exactly that
        pattern's captures; 0 if none matches. */
    method Find(url: string) returns (found: nat, matched: Params)
      requires Valid()
      ensures Reports(found, matched, Best(Rules(head), strtod, url, 0), NO_PARAMS)
      ensures found == 0 <==> forall r :: r in registered ==> Match(r.tokens, strtod, url, 0).None?
      ensures found != 0 ==>
                && (exists r :: r in registered && r.index == found && Match(r.tokens, strtod, url, 0).Some?
                                && matched == PushAll(NO_PARAMS, Match(r.tokens, strtod, url, 0).value))
                && forall r :: r in registered && Match(r.tokens, strtod, url, 0).Some? ==> found <= r.index
    {
      hide Rules, Best, Match, PushAll;
      var params := new RoutingParams();
      found, matched := FindFrom(url, head, 0, params);
      BestIsBest(Rules(head), strtod, url, 0);
      var b := Best(Rules(head), strtod, url, 0);
      if b.Some? {
        ghost var r :| r in Rules(head) && r.index == b.value.index && Match(r.tokens, strtod, url, 0) == Some(b.value.values);
        assert r in registered;
      }
    }

    // ---------------------------------------------------------------- optimize

    /** Trie::optimize, which compresses below the head: every rule stays, and no node below the head could take
        over an only child any more. */
    method Optimize()
      requires Valid()
      modifies this`head
      ensures Valid() && Rules(head) == old(Rules(head)) && head == old(head).(children := CompressAll(old(head).children))
      ensures forall c <- head.children :: Compressed(c)
    {
      hide Rules, Compress, Compressed, Consuming;
      ghost var h0 := head;
      var done := [];
      for i := 0 to |head.children|
        invariant head == h0 && done == CompressAll(h0.children[..i])
      {
        CompressAllSnoc(h0.children, i);
        done := done + [Compress(head.children[i])];
      }
      assert h0.children[..|h0.children|] == h0.children;
      head := head.(children := done);
      OptimizedHead(h0);
    }

    // ---------------------------------------------------------------- add

    /** One token of a pattern: goes down to the child that takes it, or to a new one. */
    method Descend(path: seq<nat>, t: Token, ghost rest: seq<Token>, ghost index: nat) returns (deeper: seq<nat>)
      requires ValidPath(head, path)
      modifies this`head
      ensures ValidPath(head, deeper)
      ensures old(Lift(head, path, Insert(NodeAt(head, path), [t] + rest, index))) == Lift(head, deeper, Insert(NodeAt(head, deeper), rest, index))
      ensures || (head == old(head) && old(NodeAt(head, path)).children != [])
              || (NodeAt(head, deeper).children == [] && NodeAt(head, deeper).ruleIndex == 0)
    {
      hide *;
      var node := NodeAt(head, path);
      var k := 0;
      while k < |node.children| && !Takes(node.children[k], t)
        invariant k <= |node.children| && forall j :: 0 <= j < k ==> !Takes(node.children[j], t)
      {
        k := k + 1;
      }
      IsFirst(node.children, t, k);
      if k == |node.children| {
        var grown := node.(children := node.children + [NewNode(t)]);
        NewBranch(head, path, t, rest, index);
        head := ReplaceAt(head, path, grown);
      } else {
        OldBranch(head, path, t, rest, index);
      }
      return path + [k];
    }

    /** Trie::add: the rule is registered under its pattern, unless that is there already; then nothing changes. The
        pattern is the url's own exactly if none of its NULs goes astray (see FiledIff), so always if it holds none. */
    method Add(url: string, ruleIndex: nat) returns (ok: bool)
      requires Valid() && Unoptimized(head)
      requires Tokens(url, 0).Some?
      requires 0 < ruleIndex < 0x1_0000
      modifies this
      ensures Valid() && Unoptimized(head)
      ensures var pattern := Filed(old(head), Tokens(url, 0).value);
              && (ok <==> forall r :: r in old(registered) ==> r.tokens != pattern)
              && registered == if ok then old(registered) + [Rule(pattern, ruleIndex)] else old(registered)
      ensures !ok ==> head == old(head)
      ensures Filed(old(head), Tokens(url, 0).value) == Tokens(url, 0).value <==> !GoesAstray(old(head), Tokens(url, 0).value)
      ensures (forall k :: 0 <= k < |url| ==> url[k] != '\0') ==> !GoesAstray(old(head), Tokens(url, 0).value)
    {
      hide Rules, Unoptimized, Consuming, Insert, Label, Takes, NewNode, ReplaceAt, NodeAt, ValidPath, Filed, GoesAstray;
      ghost var h0, tokens := head, Tokens(url, 0).value;
      var path: seq<nat> := [];
      var i := 0;
      Start(head, tokens, ruleIndex);
      while i < |url|
        invariant i <= |url| && Tokens(url, i).Some? && ValidPath(head, path) && registered == old(registered)
        invariant Insert(h0, tokens, ruleIndex) == Lift(head, path, Insert(NodeAt(head, path), Tokens(url, i).value, ruleIndex))
        invariant head == h0 || (NodeAt(head, path).children == [] && NodeAt(head, path).ruleIndex == 0)
        decreases |url| - i
      {
        var t, size := Lit(url[i]), 1;
        if url[i] == '<' {
          var tag := TagAt(url, i).value;
          t, size := Param(tag.0), tag.1;
        }
        assert Tokens(url, i).value == [t] + Tokens(url, i + size).value;
        path := Descend(path, t, Tokens(url, i + size).value, ruleIndex);
        i := i + size;
      }
      FiledWhere(h0, url);
      Ended(head, path, ruleIndex);
      if NodeAt(head, path).ruleIndex != 0 {
        Refused(h0, tokens, ruleIndex);
        return false;
      }
      head := ReplaceAt(head, path, NodeAt(head, path).(ruleIndex := ruleIndex));
      registered := registered + [Rule(Filed(h0, tokens), ruleIndex)];
      Accepted(h0, tokens, ruleIndex);
      return true;
    }
  }

  // ---------------------------------------------------------------- steps of find

  lemma AtEnd(n: Node, strtod: Strtod, url: string, before: Params)
    requires Consuming(n)
    ensures Reports(n.ruleIndex, before, Best(Rules(n), strtod, url, |url|), before)
  {
    ChildRulesConsume(n.children);
    BestAtEnd(ChildRules(n.children), strtod, url);
    BestOfBoth(Own(n), ChildRules(n.children), strtod, url, |url|);
    if n.ruleIndex != 0 { assert Own(n)[1..] == []; }
  }

  /** Before the end of the url the node's own rule does not match yet. */
  lemma NotYet(n: Node, strtod: Strtod, url: string, pos: nat)
    requires pos < |url|
    ensures Best(Rules(n), strtod, url, pos) == Best(ChildRules(n.children), strtod, url, pos)
    ensures Best(ChildRules(n.children[..0]), strtod, url, pos) == None
  {
    BestOfBoth(Own(n), ChildRules(n.children), strtod, url, pos);
    if n.ruleIndex != 0 { assert Own(n)[1..] == []; }
  }

  lemma UnderParam(c: Node, strtod: Strtod, url: string, pos: nat, before: Params)
    requires pos < |url| && c.param.Some?
    ensures var v := Scan(c.param.value, strtod, url, pos);
            var b := Best(Prefixed(Label(c), Rules(c)), strtod, url, pos);
            if v.None? then b == None
            else forall found, matched ::
                   Reports(found, matched, Best(Rules(c), strtod, url, v.value.1), Push(before, v.value.0)) ==>
                     Reports(found, matched, b, before)
  {
    hide Rules, Scan, Best, Push;
    BestUnderParam(c.param.value, Rules(c), strtod, url, pos);
  }

  lemma OneMoreChild(cs: seq<Node>, i: nat, strtod: Strtod, url: string, pos: nat)
    requires i < |cs| && pos <= |url|
    ensures Best(ChildRules(cs[..i + 1]), strtod, url, pos) ==
              Better(Best(ChildRules(cs[..i]), strtod, url, pos), Best(Prefixed(Label(cs[i]), Rules(cs[i])), strtod, url, pos))
  {
    hide Best, Rules, Label, Prefixed;
    assert cs[..i + 1] == cs[..i] + [cs[i]];
    ChildRulesJoin(cs[..i], [cs[i]]);
    assert [cs[i]][1..] == [] && ChildRules([]) == [];
    assert ChildRules([cs[i]]) == Prefixed(Label(cs[i]), Rules(cs[i]));
    BestOfBoth(ChildRules(cs[..i]), Prefixed(Label(cs[i]), Rules(cs[i])), strtod, url, pos);
  }

  // ---------------------------------------------------------------- steps of optimize

  lemma {:induction false} CompressAllSnoc(cs: seq<Node>, i: nat)
    requires i < |cs|
    ensures CompressAll(cs[..i + 1]) == CompressAll(cs[..i]) + [Compress(cs[i])]
    decreases |cs|
  {
    hide Compress;
    if i > 0 {
      CompressAllSnoc(cs[1..], i - 1);
      assert cs[..i + 1][1..] == cs[1..][..i] && cs[..i][1..] == cs[1..][..i - 1];
    } else {
      assert cs[..1][1..] == [];
    }
  }

  lemma OptimizedHead(h: Node)
    requires Consuming(h)
    ensures var m := h.(children := CompressAll(h.children));
            Rules(m) == Rules(h) && Consuming(m) && forall c <- m.children :: Compressed(c)
  {
    CompressAllKeepsRules(h.children);
    CompressAllIsCompressed(h.children);
    CompressAllConsumes(h.children);
  }

  // ---------------------------------------------------------------- steps of add

  function Lift(n: Node, path: seq<nat>, m: Option<Node>): Option<Node>
    requires ValidPath(n, path)
  {
    if m.None? then None else Some(ReplaceAt(n, path, m.value))
  }

  lemma Start(n: Node, tokens: seq<Token>, index: nat)
    ensures ValidPath(n, []) && NodeAt(n, []) == n
    ensures Insert(n, tokens, index) == Lift(n, [], Insert(n, tokens, index))
  {
  }

  lemma IsFirst(cs: seq<Node>, t: Token, k: nat)
    requires k <= |cs| && (forall j :: 0 <= j < k ==> !Takes(cs[j], t)) && (k < |cs| ==> Takes(cs[k], t))
    ensures k == FirstTaking(cs, t)
  {
    hide Takes;
  }

  lemma OldBranch(n: Node, path: seq<nat>, t: Token, rest: seq<Token>, index: nat)
    requires ValidPath(n, path) && FirstTaking(NodeAt(n, path).children, t) < |NodeAt(n, path).children|
    ensures var k := FirstTaking(NodeAt(n, path).children, t);
            && ValidPath(n, path + [k])
            && Lift(n, path, Insert(NodeAt(n, path), [t] + rest, index)) ==
                 Lift(n, path + [k], Insert(NodeAt(n, path + [k]), rest, index))
            && (NodeAt(n, path).children != [])
  {
    hide ReplaceAt, NodeAt, ValidPath, Takes;
    var node := NodeAt(n, path);
    var k := FirstTaking(node.children, t);
    OneDeeper(n, path, k, node);
    assert ([t] + rest)[0] == t && ([t] + rest)[1..] == rest;
    var m := Insert(node.children[k], rest, index);
    if m.Some? { OneDeeper(n, path, k, m.value); }
  }

  lemma NewBranch(n: Node, path: seq<nat>, t: Token, rest: seq<Token>, index: nat)
    requires ValidPath(n, path) && FirstTaking(NodeAt(n, path).children, t) == |NodeAt(n, path).children|
    ensures var node := NodeAt(n, path);
            var grown := node.(children := node.children + [NewNode(t)]);
            var h := ReplaceAt(n, path, grown);
            var deeper := path + [|node.children|];
            && ValidPath(h, path) && NodeAt(h, path) == grown
            && ValidPath(h, deeper) && NodeAt(h, deeper) == NewNode(t)
            && Lift(n, path, Insert(node, [t] + rest, index)) == Lift(h, deeper, Insert(NewNode(t), rest, index))
            && NewNode(t).children == [] && NewNode(t).ruleIndex == 0
  {
    hide ReplaceAt, NodeAt, ValidPath, Takes;
    var node := NodeAt(n, path);
    var k := |node.children|;
    var grown := node.(children := node.children + [NewNode(t)]);
    assert grown.children[k] == NewNode(t);
    var h := ReplaceAt(n, path, grown);
    Replaced(n, path, grown, grown);
    OneDeeper(h, path, k, node);
    assert ([t] + rest)[0] == t && ([t] + rest)[1..] == rest;
    var m := Insert(NewNode(t), rest, index);
    if m.Some? {
      OneDeeper(h, path, k, m.value);
      assert (node.children + [NewNode(t)])[k := m.value] == node.children + [m.value];
      Replaced(n, path, grown, node.(children := node.children + [m.value]));
    }
  }

  lemma Ended(n: Node, path: seq<nat>, index: nat)
    requires ValidPath(n, path)
    ensures Lift(n, path, Insert(NodeAt(n, path), [], index)) ==
              if NodeAt(n, path).ruleIndex != 0 then None
              else Some(ReplaceAt(n, path, NodeAt(n, path).(ruleIndex := index)))
  {
  }

  lemma FiledWhere(n: Node, url: string)
    requires Unoptimized(n) && Tokens(url, 0).Some?
    ensures Filed(n, Tokens(url, 0).value) == Tokens(url, 0).value <==> !GoesAstray(n, Tokens(url, 0).value)
    ensures (forall k :: 0 <= k < |url| ==> url[k] != '\0') ==> !GoesAstray(n, Tokens(url, 0).value)
  {
    hide Unoptimized, Filed, GoesAstray, Tokens;
    FiledIff(n, Tokens(url, 0).value);
    if forall k :: 0 <= k < |url| ==> url[k] != '\0' { TokensNoNul(url, 0); }
  }

  lemma Refused(n: Node, tokens: seq<Token>, index: nat)
    requires Unoptimized(n) && index != 0 && Insert(n, tokens, index).None?
    ensures exists r :: r in Rules(n) && r.tokens == Filed(n, tokens)
  {
    hide Rules, Unoptimized, Insert, Filed;
    var pattern := Filed(n, tokens);
    InsertAdds(n, tokens, index, Rule(pattern, index));
    var i :| Rule(pattern, i) in Rules(n);
    assert Rule(pattern, i).tokens == pattern;
  }

  lemma Accepted(n: Node, tokens: seq<Token>, index: nat)
    requires Unoptimized(n) && index != 0 && Insert(n, tokens, index).Some?
    ensures var m, pattern := Insert(n, tokens, index).value, Filed(n, tokens);
            && Unoptimized(m) && Consuming(m)
            && (forall r :: r in Rules(m) <==> r in Rules(n) || r == Rule(pattern, index))
            && (forall r :: r in Rules(n) ==> r.tokens != pattern)
  {
    hide Rules, Unoptimized, Insert, Consuming, Filed;
    var m, pattern := Insert(n, tokens, index).value, Filed(n, tokens);
    forall r ensures r in Rules(m) <==> r in Rules(n) || r == Rule(pattern, index) { InsertAdds(n, tokens, index, r); }
    forall r | r in Rules(n) ensures r.tokens != pattern { InsertAdds(n, tokens, index, r); }
    InsertAdds(n, tokens, index, Rule(pattern, index));
    UnoptimizedConsumes(m);
  }

  // ---------------------------------------------------------------- find before and after optimize

  /** On every url `find` gives the same index and the same parameters before and after `optimize`. */
  lemma OptimizeKeepsFind(h: Node, strtod: Strtod, url: string, before: (nat, Params), after: (nat, Params))
    requires Consuming(h)
    requires Reports(before.0, before.1, Best(Rules(h), strtod, url, 0), NO_PARAMS)
    requires Reports(after.0, after.1, Best(Rules(h.(children := CompressAll(h.children))), strtod, url, 0), NO_PARAMS)
    ensures before.0 == after.0 && (before.0 != 0 ==> before.1 == after.1)
  {
    hide Rules, Best, PushAll;
    OptimizedHead(h);
  }
}
