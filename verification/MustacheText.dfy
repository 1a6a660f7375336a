/** The text of a template read tag by tag: `parse` of `mustache.h` up to the matching of blocks. */
module MustacheText {
  import opened Wrappers
  import opened MustacheMeaning

  datatype ActionType = Ignore | TagAction | UnescapeTag | OpenBlock | CloseBlock | ElseBlock | PartialAction

  // ---------------------------------------------------------------- strings as std::string has them

  /** body_[i], where the position behind the last character holds NUL. */
  function CharAt(body: string, i: nat): char
    requires i <= |body|
  {
    if i < |body| then body[i] else '\0'
  }

  /** body_.substr(start, end - start): a negative count wraps around and means "to the end". */
  function Substr(body: string, start: nat, end: nat): string
    requires start <= |body| && end <= |body|
  {
    if start <= end then body[start..end] else body[start..]
  }

  predicate Stands(body: string, sub: string, i: nat) {
    i + |sub| <= |body| && body[i..i + |sub|] == sub
  }

  /** body_.find(sub, from). */
  function Find(body: string, sub: string, from: nat): (r: Option<nat>)
    ensures r.Some? ==> from <= r.value && Stands(body, sub, r.value)
    decreases |body| - from
  {
    if from + |sub| > |body| then None
    else if Stands(body, sub, from) then Some(from)
    else if from == |body| then None
    else Find(body, sub, from + 1)
  }

  /** The first position from `i` on that holds no space. */
  function SkipTo(body: string, i: nat): (r: nat)
    requires i <= |body|
    ensures i <= r <= |body| && CharAt(body, r) != ' ' && forall k :: i <= k < r ==> body[k] == ' '
    decreases |body| - i
  {
    if CharAt(body, i) == ' ' then SkipTo(body, i + 1) else i
  }

  /** `e` stepped back over the spaces before it. */
  function TrimTo(body: string, e: nat): (r: nat)
    requires e <= |body|
    ensures r <= e && (r > 0 ==> body[r - 1] != ' ') && forall k :: r <= k < e ==> body[k] == ' '
  {
    if e > 0 && body[e - 1] == ' ' then TrimTo(body, e - 1) else e
  }

  /** A delimiter that `{{=` accepts. */
  predicate Delimiter(d: string) {
    d != "" && ' ' !in d
  }

  // ---------------------------------------------------------------- one tag

  /** A fragment of text `from..to` and the tag behind it, its name at `start..end`. */
  datatype Lexeme = Lexeme(from: nat, to: nat, start: nat, end: nat, kind: ActionType)

  /** What one tag says, and how the text behind it is to be read. */
  datatype TagText = TagText(start: nat, end: nat, kind: ActionType, current: nat, open: string, close: string)

  /** The first space in `i..e`. */
  function FirstSpace(body: string, i: nat, e: nat): (r: Option<nat>)
    requires e <= |body|
    ensures r.Some? ==> i <= r.value < e && body[r.value] == ' '
    ensures forall k :: i <= k < (if r.Some? then r.value else e) ==> body[k] != ' '
    decreases e - i
  {
    if i >= e then None else if body[i] == ' ' then Some(i) else FirstSpace(body, i + 1, e)
  }

  /** The delimiters that the tag `=open close=` sets, its first character at `idx`. */
  function NewDelimiters(body: string, idx: nat, endIdx: nat): (r: Option<(string, string)>)
    requires 0 < idx < endIdx <= |body|
    ensures r.Some? ==> Delimiter(r.value.0) && Delimiter(r.value.1)
  {
    if body[endIdx - 1] != '=' then None
    else
      var s := SkipTo(body, idx + 1);
      var e := TrimTo(body, endIdx - 1);
      var i := FirstSpace(body, s, e);
      if i.None? || i.value == s then None
      else
        var close := Substr(body, SkipTo(body, i.value), e);
        if close == "" || ' ' in close then None else Some((body[s..i.value], close))
  }

  function ReadTag(body: string, idx: nat, endIdx: nat, open: string, close: string): (r: Option<TagText>)
    requires 0 < idx < endIdx && endIdx + |close| <= |body| && Delimiter(open) && Delimiter(close)
    ensures r.Some? ==>
              && r.value.start <= |body| && r.value.end <= |body| && endIdx < r.value.current <= |body|
              && Delimiter(r.value.open) && Delimiter(r.value.close)
  {
    var after := endIdx + |close|;
    var c := body[idx];
    var plain := TagText(SkipTo(body, idx + 1), TrimTo(body, endIdx), Ignore, after, open, close);
    if c == '#' then Some(plain.(kind := OpenBlock))
    else if c == '^' then Some(plain.(kind := ElseBlock))
    else if c == '/' then Some(plain.(kind := CloseBlock))
    else if c == '!' then Some(plain.(start := idx + 1, end := endIdx))
    else if c == '>' then Some(plain.(kind := PartialAction))
    else if c == '{' then
      if open != "{{" || close != "}}" || CharAt(body, endIdx + 2) != '}' then None
      else Some(plain.(kind := UnescapeTag, current := after + 1))
    else if c == '&' then Some(plain.(kind := UnescapeTag))
    else if c == '=' then
      var d := NewDelimiters(body, idx, endIdx);
      if d.None? then None else Some(plain.(start := idx + 1, end := endIdx, open := d.value.0, close := d.value.1))
    else Some(plain.(start := SkipTo(body, idx), kind := TagAction))
  }

  // ---------------------------------------------------------------- all tags

  /** The lexemes of the text from `current` on; nothing if a tag is empty, unclosed or malformed. The last one holds
      the text behind the last tag. */
  function Lex(body: string, current: nat, open: string, close: string): Option<seq<Lexeme>>
    requires current <= |body| && Delimiter(open) && Delimiter(close)
    decreases |body| - current
  {
    var at := Find(body, open, current);
    if at.None? then Some([Lexeme(current, |body|, 0, 0, Ignore)])
    else
      var idx := at.value + |open|;
      var endIdx := Find(body, close, idx);
      if endIdx.None? || endIdx.value == idx then None
      else
        var tag := ReadTag(body, idx, endIdx.value, open, close);
        if tag.None? then None
        else
          Before([Lexeme(current, at.value, tag.value.start, tag.value.end, tag.value.kind)],
                 Lex(body, tag.value.current, tag.value.open, tag.value.close))
  }

  function Before(a: seq<Lexeme>, b: Option<seq<Lexeme>>): Option<seq<Lexeme>> {
    if b.None? then None else Some(a + b.value)
  }

  function NameOf(body: string, x: Lexeme): string
    requires x.start <= |body| && x.end <= |body|
  {
    Substr(body, x.start, x.end)
  }

  predicate InBody(body: string, xs: seq<Lexeme>) {
    forall x <- xs :: x.start <= |body| && x.end <= |body| && x.from <= x.to <= |body|
  }

  /** The names of the blocks open behind `xs`, innermost last, if before it `open` were; nothing if some closing tag
      does not close the innermost open block. */
  function StillOpen(body: string, xs: seq<Lexeme>): Option<seq<string>>
    requires InBody(body, xs)
    decreases |xs|
  {
    if xs == [] then Some([])
    else
      var x := xs[|xs| - 1];
      var open := StillOpen(body, xs[..|xs| - 1]);
      if open.None? then None
      else if x.kind.OpenBlock? || x.kind.ElseBlock? then Some(open.value + [NameOf(body, x)])
      else if x.kind.CloseBlock? then
        if open.value == [] || open.value[|open.value| - 1] != NameOf(body, x) then None
        else Some(open.value[..|open.value| - 1])
      else open
  }

  lemma {:induction false} MismatchStays(body: string, a: seq<Lexeme>, b: seq<Lexeme>)
    requires InBody(body, a + b) && InBody(body, a) && StillOpen(body, a).None?
    ensures StillOpen(body, a + b).None?
    decreases |b|
  {
    if b == [] {
      assert a + b == a;
    } else {
      assert (a + b)[..|a + b| - 1] == a + b[..|b| - 1];
      assert forall x <- a + b[..|b| - 1] :: x in a + b;
      MismatchStays(body, a, b[..|b| - 1]);
    }
  }

  lemma InBodyMore(body: string, x: Lexeme, xs: seq<Lexeme>)
    requires x.start <= |body| && x.end <= |body| && x.from <= x.to <= |body| && InBody(body, xs)
    ensures InBody(body, [x] + xs)
  {
  }

  lemma {:induction false} LexInBody(body: string, current: nat, open: string, close: string)
    requires current <= |body| && Delimiter(open) && Delimiter(close)
    ensures Lex(body, current, open, close).Some? ==> InBody(body, Lex(body, current, open, close).value)
    decreases |body| - current
  {
    hide ReadTag, InBody, Stands;
    InBodyMore(body, Lexeme(current, |body|, 0, 0, Ignore), []) by { NoneInBody(body); }
    assert [Lexeme(current, |body|, 0, 0, Ignore)] + [] == [Lexeme(current, |body|, 0, 0, Ignore)];
    var at := Find(body, open, current);
    if at.Some? {
      var endIdx := Find(body, close, at.value + |open|);
      if endIdx.Some? && endIdx.value != at.value + |open| {
        Found(body, close, endIdx.value);
        var tag := ReadTag(body, at.value + |open|, endIdx.value, open, close);
        if tag.Some? {
          LexInBody(body, tag.value.current, tag.value.open, tag.value.close);
          var rest := Lex(body, tag.value.current, tag.value.open, tag.value.close);
          var x := Lexeme(current, at.value, tag.value.start, tag.value.end, tag.value.kind);
          if rest.Some? { InBodyMore(body, x, rest.value); }
        }
      }
    }
  }

  lemma NoneInBody(body: string)
    ensures InBody(body, [])
  {
  }

  lemma Found(body: string, d: string, i: nat)
    requires Stands(body, d, i)
    ensures i + |d| <= |body|
  {
  }

  /** parse accepts a text exactly when every tag is well formed and every block is closed by its own name. */
  predicate Accepted(body: string) {
    var xs := Lex(body, 0, "{{", "}}");
    xs.Some? && InBody(body, xs.value) && StillOpen(body, xs.value) == Some([])
  }
}
