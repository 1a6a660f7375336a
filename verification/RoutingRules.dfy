/**
 The meaning of routing rules, without any trie: a rule is a list of tokens, matching is greedy and
 deterministic, and the best rule for a url is the one with the smallest index.
 */
module RoutingRules {
  import opened Wrappers

  datatype ParamKind = Int | Uint | Double | Str | Path

  datatype Token = Lit(c: char) | Param(kind: ParamKind)

  datatype Value = IntValue(i: int) | UintValue(u: int) | DoubleValue(d: real) | StringValue(s: string)

  /** The library's `strtod` on the rest of the url: the value and where it stopped, or nothing on ERANGE. */
  type Strtod = (string, nat) -> Option<(real, nat)>

  datatype Rule = Rule(tokens: seq<Token>, index: nat)

  // ---------------------------------------------------------------- scanners

  predicate IsDigit(c: char) { '0' <= c <= '9' }

  /** The first position from `pos` on that holds no digit. */
  function DigitsEnd(url: string, pos: nat): (e: nat)
    requires pos <= |url|
    ensures pos <= e <= |url|
    ensures forall i :: pos <= i < e ==> IsDigit(url[i])
    ensures e == |url| || !IsDigit(url[e])
    decreases |url| - pos
  {
    if pos < |url| && IsDigit(url[pos]) then DigitsEnd(url, pos + 1) else pos
  }

  function DecimalOf(digits: string): int
    requires forall i :: 0 <= i < |digits| ==> IsDigit(digits[i])
  {
    if digits == [] then 0
    else DecimalOf(digits[..|digits| - 1]) * 10 + (digits[|digits| - 1] as int - '0' as int)
  }

  /** `strtoll`/`strtoull` in base ten: an optional sign, then digits; nothing if there are none or on ERANGE. */
  function ScanInteger(url: string, pos: nat, low: int, high: int): (r: Option<(int, nat)>)
    requires pos < |url|
    ensures r.Some? ==> pos < r.value.1 <= |url| && low <= r.value.0 <= high
  {
    var from := if url[pos] == '+' || url[pos] == '-' then pos + 1 else pos;
    var end := DigitsEnd(url, from);
    if end == from then None
    else
      var n := DecimalOf(url[from..end]);
      var v := if url[pos] == '-' then -n else n;
      if low <= v <= high then Some((v, end)) else None
  }

  function SegmentEnd(url: string, pos: nat): (e: nat)
    requires pos <= |url|
    ensures pos <= e <= |url|
    ensures forall i :: pos <= i < e ==> url[i] != '/'
    ensures e == |url| || url[e] == '/'
    decreases |url| - pos
  {
    if pos < |url| && url[pos] != '/' then SegmentEnd(url, pos + 1) else pos
  }

  /** What a parameter takes from the url at `pos`: one value and the position behind it, or nothing. */
  function Scan(kind: ParamKind, strtod: Strtod, url: string, pos: nat): (r: Option<(Value, nat)>)
    requires pos < |url|
    ensures r.Some? ==> pos < r.value.1 <= |url|
  {
    var c := url[pos];
    match kind
    case Int =>
      if IsDigit(c) || c == '+' || c == '-' then
        var v := ScanInteger(url, pos, -0x8000_0000_0000_0000, 0x7FFF_FFFF_FFFF_FFFF);
        if v.Some? then Some((IntValue(v.value.0), v.value.1)) else None
      else None
    case Uint =>
      if IsDigit(c) || c == '+' then
        var v := ScanInteger(url, pos, 0, 0xFFFF_FFFF_FFFF_FFFF);
        if v.Some? then Some((UintValue(v.value.0), v.value.1)) else None
      else None
    case Double =>
      if IsDigit(c) || c == '+' || c == '-' || c == '.' then
        var v := strtod(url, pos);
        if v.Some? && pos < v.value.1 <= |url| then Some((DoubleValue(v.value.0), v.value.1)) else None
      else None
    case Str =>
      var e := SegmentEnd(url, pos);
      if e != pos then Some((StringValue(url[pos..e]), e)) else None
    case Path => Some((StringValue(url[pos..]), |url|))
  }

  // ---------------------------------------------------------------- matching one rule

  /** The values a pattern captures when it takes exactly the rest of the url, or nothing if it does not match. */
  function Match(tokens: seq<Token>, strtod: Strtod, url: string, pos: nat): Option<seq<Value>>
    requires pos <= |url|
    decreases |tokens|
  {
    if tokens == [] then if pos == |url| then Some([]) else None
    else if pos == |url| then None
    else
      match tokens[0]
      case Lit(c) => if url[pos] == c then Match(tokens[1..], strtod, url, pos + 1) else None
      case Param(kind) =>
        var v := Scan(kind, strtod, url, pos);
        if v.None? then None
        else
          var rest := Match(tokens[1..], strtod, url, v.value.1);
          if rest.None? then None else Some([v.value.0] + rest.value)
  }

  /** The four parameter stacks of `routing_params`. */
  datatype Params = Params(ints: seq<int>, uints: seq<int>, doubles: seq<real>, strings: seq<string>)

  const NO_PARAMS := Params([], [], [], [])

  function Push(p: Params, v: Value): Params {
    match v
    case IntValue(i) => p.(ints := p.ints + [i])
    case UintValue(u) => p.(uints := p.uints + [u])
    case DoubleValue(d) => p.(doubles := p.doubles + [d])
    case StringValue(s) => p.(strings := p.strings + [s])
  }

  function PushAll(p: Params, vs: seq<Value>): Params
    decreases |vs|
  {
    if vs == [] then p else PushAll(Push(p, vs[0]), vs[1..])
  }

  // ---------------------------------------------------------------- the best of many rules

  /** A rule that matches, with what it captured. */
  datatype Hit = Hit(index: nat, values: seq<Value>)

  /** Of two hits the one with the smaller index, the earlier one on a tie. */
  function Better(x: Option<Hit>, y: Option<Hit>): Option<Hit> {
    if y.None? then x else if x.None? then y else if x.value.index > y.value.index then y else x
  }

  function HitOf(r: Rule, strtod: Strtod, url: string, pos: nat): Option<Hit>
    requires pos <= |url|
  {
    var m := Match(r.tokens, strtod, url, pos);
    if m.Some? then Some(Hit(r.index, m.value)) else None
  }

  function Best(rules: seq<Rule>, strtod: Strtod, url: string, pos: nat): Option<Hit>
    requires pos <= |url|
  {
    if rules == [] then None
    else Better(HitOf(rules[0], strtod, url, pos), Best(rules[1..], strtod, url, pos))
  }

  lemma {:induction false} BestOfBoth(a: seq<Rule>, b: seq<Rule>, strtod: Strtod, url: string, pos: nat)
    requires pos <= |url|
    ensures Best(a + b, strtod, url, pos) == Better(Best(a, strtod, url, pos), Best(b, strtod, url, pos))
  {
    if a == [] {
      assert a + b == b;
    } else {
      BestOfBoth(a[1..], b, strtod, url, pos);
      assert (a + b)[1..] == a[1..] + b;
    }
  }

  /** `Best` is what its name says: a rule of the list that matches, with its own captures, and no matching rule
      has a smaller index; nothing exactly when no rule matches. */
  lemma {:induction false} BestIsBest(rules: seq<Rule>, strtod: Strtod, url: string, pos: nat)
    requires pos <= |url|
    ensures var b := Best(rules, strtod, url, pos);
            && (b.None? <==> forall r :: r in rules ==> Match(r.tokens, strtod, url, pos).None?)
            && (b.Some? ==>
                  && (exists r :: r in rules && r.index == b.value.index && Match(r.tokens, strtod, url, pos) == Some(b.value.values))
                  && forall r :: r in rules && Match(r.tokens, strtod, url, pos).Some? ==> b.value.index <= r.index)
  {
    if rules != [] {
      BestIsBest(rules[1..], strtod, url, pos);
      assert forall r :: r in rules <==> r == rules[0] || r in rules[1..];
      var b := Best(rules[1..], strtod, url, pos);
      if b.Some? {
        var r :| r in rules[1..] && r.index == b.value.index && Match(r.tokens, strtod, url, pos) == Some(b.value.values);
        assert r in rules;
      }
    }
  }

  // ---------------------------------------------------------------- rules with a common front

  function Prefixed(front: seq<Token>, rules: seq<Rule>): (r: seq<Rule>)
    ensures |r| == |rules|
    ensures forall i :: 0 <= i < |r| ==> r[i] == Rule(front + rules[i].tokens, rules[i].index)
  {
    if rules == [] then [] else [Rule(front + rules[0].tokens, rules[0].index)] + Prefixed(front, rules[1..])
  }

  function Lits(key: string): (t: seq<Token>)
    ensures |t| == |key| && forall i :: 0 <= i < |t| ==> t[i] == Lit(key[i])
  {
    if key == [] then [] else [Lit(key[0])] + Lits(key[1..])
  }

  lemma {:induction false} PrefixedTwice(a: seq<Token>, b: seq<Token>, rules: seq<Rule>)
    ensures Prefixed(a, Prefixed(b, rules)) == Prefixed(a + b, rules)
  {
    if rules != [] {
      PrefixedTwice(a, b, rules[1..]);
      assert a + (b + rules[0].tokens) == (a + b) + rules[0].tokens;
      assert Prefixed(b, rules)[1..] == Prefixed(b, rules[1..]);
    }
  }

  lemma LitsJoin(a: string, b: string)
    ensures Lits(a + b) == Lits(a) + Lits(b)
  {
  }

  /** std::string::compare(pos, n, key) == 0. */
  predicate KeyAt(key: string, url: string, pos: nat) {
    pos + |key| <= |url| && url[pos..pos + |key|] == key
  }

  lemma KeyStep(key: string, url: string, pos: nat)
    requires key != "" && pos <= |url|
    ensures KeyAt(key, url, pos) <==> pos < |url| && url[pos] == key[0] && KeyAt(key[1..], url, pos + 1)
  {
    assert key == [key[0]] + key[1..];
    if pos + |key| <= |url| {
      assert url[pos..pos + |key|] == [url[pos]] + url[pos + 1..pos + |key|];
    }
  }

  /** A literal front is a comparison of substrings. */
  lemma {:induction false} MatchLits(key: string, tokens: seq<Token>, strtod: Strtod, url: string, pos: nat)
    requires pos <= |url|
    ensures Match(Lits(key) + tokens, strtod, url, pos) ==
              if KeyAt(key, url, pos) then Match(tokens, strtod, url, pos + |key|) else None
    decreases |key|
  {
    if key == [] {
      assert Lits(key) + tokens == tokens;
      assert url[pos..pos] == [];
    } else {
      KeyStep(key, url, pos);
      var all := Lits(key) + tokens;
      assert all[0] == Lit(key[0]) && all[1..] == Lits(key[1..]) + tokens;
      hide KeyAt, Lits, Scan;
      if pos < |url| { MatchLits(key[1..], tokens, strtod, url, pos + 1); }
    }
  }

  lemma {:induction false} BestUnderLits(key: string, rules: seq<Rule>, strtod: Strtod, url: string, pos: nat)
    requires pos <= |url|
    ensures Best(Prefixed(Lits(key), rules), strtod, url, pos) ==
              if KeyAt(key, url, pos) then Best(rules, strtod, url, pos + |key|) else None
    decreases |rules|
  {
    if rules != [] {
      BestUnderLits(key, rules[1..], strtod, url, pos);
      MatchLits(key, rules[0].tokens, strtod, url, pos);
      assert Prefixed(Lits(key), rules)[1..] == Prefixed(Lits(key), rules[1..]);
    }
  }

  function Captured(v: Value, h: Option<Hit>): Option<Hit> {
    if h.None? then None else Some(h.value.(values := [v] + h.value.values))
  }

  lemma {:induction false} BestUnderParam(kind: ParamKind, rules: seq<Rule>, strtod: Strtod, url: string, pos: nat)
    requires pos < |url|
    ensures var v := Scan(kind, strtod, url, pos);
            Best(Prefixed([Param(kind)], rules), strtod, url, pos) ==
              if v.Some? then Captured(v.value.0, Best(rules, strtod, url, v.value.1)) else None
    decreases |rules|
  {
    hide Scan;
    if rules != [] {
      BestUnderParam(kind, rules[1..], strtod, url, pos);
      var all := [Param(kind)] + rules[0].tokens;
      assert all[0] == Param(kind) && all[1..] == rules[0].tokens;
      assert Prefixed([Param(kind)], rules)[1..] == Prefixed([Param(kind)], rules[1..]);
    }
  }

  /** At the end of the url only an empty pattern matches. */
  lemma {:induction false} BestAtEnd(rules: seq<Rule>, strtod: Strtod, url: string)
    requires forall i :: 0 <= i < |rules| ==> rules[i].tokens != []
    ensures Best(rules, strtod, url, |url|) == None
  {
    if rules != [] { BestAtEnd(rules[1..], strtod, url); }
  }
}
