/** Which tags stand alone on their lines, and what is then cut from the texts beside them. */
module MustacheLines {
  import opened MustacheText

  /** Behind the last character of `from..end` that is no space. */
  function BackTo(body: string, from: nat, end: nat): (e: nat)
    requires from <= end <= |body|
    ensures from <= e <= end && (e > from ==> body[e - 1] != ' ') && forall k :: e <= k < end ==> body[k] == ' '
  {
    if end == from || body[end - 1] != ' ' then end else BackTo(body, from, end - 1)
  }

  /** The first character of `from..end` that is no space. */
  function ForwardTo(body: string, from: nat, end: nat): (k: nat)
    requires from <= end <= |body|
    ensures from <= k <= end && (k < end ==> body[k] != ' ') && forall m :: from <= m < k ==> body[m] == ' '
    decreases end - from
  {
    if from == end || body[from] != ' ' then from else ForwardTo(body, from + 1, end)
  }

  predicate LineEnd(body: string, k: nat) {
    k < |body| && (body[k] == '\n' || (body[k] == '\r' && k + 1 < |body| && body[k + 1] == '\n'))
  }

  /** Only spaces separate `to` from a line end within the text `from..to`, or from the very beginning. */
  predicate LineBegins(body: string, from: nat, to: nat, first: bool)
    requires from <= to <= |body|
  {
    var e := BackTo(body, from, to);
    if e == from then first else body[e - 1] == '\n'
  }

  /** Only spaces separate `from` from a line end within the text `from..to`, or from the very end. */
  predicate LineEnds(body: string, from: nat, to: nat, last: bool)
    requires from <= to <= |body|
  {
    var k := ForwardTo(body, from, to);
    if k == to then last else LineEnd(body, k)
  }

  /** The texts between the tags of a template. */
  predicate Texts(body: string, f: seq<(nat, nat)>) {
    forall m :: 0 <= m < |f| ==> f[m].0 <= f[m].1 <= |body|
  }

  /** Tag `i`, between the texts `f[i]` and `f[i + 1]`, prints nothing itself and stands alone on its line. */
  predicate Alone(body: string, f: seq<(nat, nat)>, kinds: seq<ActionType>, i: nat)
    requires Texts(body, f) && |f| == |kinds|
  {
    && i + 1 < |f| && !kinds[i].TagAction? && !kinds[i].UnescapeTag?
    && LineBegins(body, f[i].0, f[i].1, i == 0) && LineEnds(body, f[i + 1].0, f[i + 1].1, i + 2 == |f|)
  }

  /** Where text `m` begins if the tag before it stands alone: behind the end of its line. */
  function StartOf(body: string, f: seq<(nat, nat)>, kinds: seq<ActionType>, m: nat): nat
    requires Texts(body, f) && |f| == |kinds| && m < |f|
  {
    var k := ForwardTo(body, f[m].0, f[m].1);
    if m == 0 || !Alone(body, f, kinds, m - 1) || k == f[m].1 then f[m].0
    else if body[k] == '\n' then k + 1 else k + 2
  }

  /** Where text `m` ends if the tag behind it stands alone: before the spaces of its line. */
  function EndOf(body: string, f: seq<(nat, nat)>, kinds: seq<ActionType>, m: nat): nat
    requires Texts(body, f) && |f| == |kinds| && m < |f|
  {
    if Alone(body, f, kinds, m) then BackTo(body, f[m].0, f[m].1) else f[m].1
  }

  /** `g` is `f` without what the tags from `p` on that stand alone cut away. */
  ghost predicate CutFrom(body: string, f: seq<(nat, nat)>, kinds: seq<ActionType>, p: nat, g: seq<(nat, nat)>)
    requires Texts(body, f) && |f| == |kinds|
  {
    && |g| == |f|
    && forall m :: 0 <= m < |f| ==>
         && g[m].0 == (if m > p then StartOf(body, f, kinds, m) else f[m].0)
         && g[m].1 == (if m >= p then EndOf(body, f, kinds, m) else f[m].1)
  }

  /** The spaces from `from` on end at the same place in the text `from..e` as in `from..to`, or fill both. */
  predicate SameEnd(body: string, from: nat, e: nat, to: nat)
    requires from <= e <= to <= |body|
  {
    var k := ForwardTo(body, from, e);
    && (k == e <==> ForwardTo(body, from, to) == to)
    && (k < e ==> k == ForwardTo(body, from, to))
  }

  lemma CutNothing(body: string, f: seq<(nat, nat)>, kinds: seq<ActionType>)
    requires Texts(body, f) && |f| == |kinds| > 0
    ensures CutFrom(body, f, kinds, |f| - 1, f)
  {
  }

  /** The tags behind tag `i` leave the texts beside it such that the tag stands alone or not as before. */
  lemma CutFacts(body: string, f: seq<(nat, nat)>, kinds: seq<ActionType>, i: nat, g: seq<(nat, nat)>)
    requires Texts(body, f) && |f| == |kinds| && i + 1 < |f| && CutFrom(body, f, kinds, i + 1, g)
    ensures |g| == |f| && g[i] == f[i] && g[i + 1].0 == f[i + 1].0 <= g[i + 1].1 <= f[i + 1].1 <= |body|
    ensures SameEnd(body, f[i + 1].0, g[i + 1].1, f[i + 1].1)
  {
    hide StartOf;
    var from, to, e := f[i + 1].0, f[i + 1].1, g[i + 1].1;
    if Alone(body, f, kinds, i + 1) { SameForward(body, from, e, to); }
  }

  /** Cutting for the tags one after the other, the last one first. */
  lemma CutOne(body: string, f: seq<(nat, nat)>, kinds: seq<ActionType>, i: nat, g: seq<(nat, nat)>, h: seq<(nat, nat)>)
    requires Texts(body, f) && |f| == |kinds| && i + 1 < |f| && CutFrom(body, f, kinds, i + 1, g) && |h| == |f|
    requires h[i] == (f[i].0, EndOf(body, f, kinds, i)) && h[i + 1] == (StartOf(body, f, kinds, i + 1), g[i + 1].1)
    requires forall m :: 0 <= m < |f| && m != i && m != i + 1 ==> h[m] == g[m]
    ensures CutFrom(body, f, kinds, i, h)
  {
    hide StartOf, EndOf, Texts;
  }

  lemma {:induction false} SameForward(body: string, from: nat, e: nat, to: nat)
    requires from < e <= to <= |body| && body[e - 1] != ' '
    ensures ForwardTo(body, from, e) == ForwardTo(body, from, to) < e
    decreases e - from
  {
    if body[from] == ' ' { SameForward(body, from + 1, e, to); }
  }
}
