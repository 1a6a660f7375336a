/** Templates written out as text: `parse` reads back the template that was written. */
module MustacheSource {
  import opened Wrappers
  import opened Sequences
  import opened MustacheMeaning
  import opened MustacheText
  import opened MustacheLines
  import opened MustacheTemplate

  // ---------------------------------------------------------------- writing a template

  function Sigil(op: Op): string {
    match op
    case Skip => "!"
    case Print(_, escaped) => if escaped then "" else "&"
    case Include(_) => ">"
    case Open(_, _) => "#"
    case Else(_, _) => "^"
    case Close(_) => "/"
  }

  function OpName(op: Op): string {
    if op.Skip? then "" else op.name
  }

  /** The ways in which a tag may be written: its name between spaces, the same in three braces, a comment, or a change
      of the delimiters. */
  datatype Form =
    | Padded(before: nat, after: nat)
    | Triple(before: nat, after: nat)
    | Note(note: string)
    | Change(open: string, close: string, before: nat, between: nat, after: nat)

  function Spaces(n: nat): (r: string)
    ensures |r| == n && forall k :: 0 <= k < n ==> r[k] == ' '
  {
    seq(n, _ => ' ')
  }

  /** What stands between the delimiters. */
  function Inside(op: Op, form: Form): string {
    match form
    case Padded(before, after) => Sigil(op) + Spaces(before) + OpName(op) + Spaces(after)
    case Triple(before, after) => "{" + Spaces(before) + OpName(op) + Spaces(after)
    case Note(note) => "!" + note
    case Change(open, close, before, between, after) =>
      "=" + Spaces(before) + open + Spaces(between) + close + Spaces(after) + "="
  }

  /** The closing delimiter, with the third brace if there is one. */
  function Ending(form: Form, close: string): string {
    if form.Triple? then close + "}" else close
  }

  function Written(x: Instr, form: Form, open: string, close: string): string {
    x.text + open + Inside(x.op, form) + Ending(form, close)
  }

  /** The delimiters behind a tag. */
  function OpenBy(form: Form, open: string): string {
    if form.Change? then form.open else open
  }

  function CloseBy(form: Form, close: string): string {
    if form.Change? then form.close else close
  }

  /** The text of flat code and of what follows its last tag. */
  function Source(code: seq<Instr>, forms: seq<Form>, last: string, open: string, close: string): string
    requires |forms| == |code|
    decreases |code|
  {
    if code == [] then last
    else
      Written(code[0], forms[0], open, close)
        + Source(code[1..], forms[1..], last, OpenBy(forms[0], open), CloseBy(forms[0], close))
  }

  /** The delimiter does not occur earlier in `s + d` than behind `s`. */
  predicate Clear(s: string, d: string) {
    forall k :: 0 <= k < |s| ==> !Stands(s + d, d, k)
  }

  predicate Special(c: char) {
    c == '#' || c == '^' || c == '/' || c == '!' || c == '>' || c == '{' || c == '&' || c == '='
  }

  /** The name keeps its ends when spaces are trimmed. */
  predicate Trimmed(name: string) {
    name != "" && name[0] != ' ' && name[|name| - 1] != ' '
  }

  /** The form is one for the operation. */
  predicate FormFits(op: Op, form: Form, open: string, close: string) {
    match form
    case Padded(before, _) => !op.Skip? && Trimmed(OpName(op)) && (Sigil(op) == "" && before == 0 ==> !Special(OpName(op)[0]))
    case Triple(_, _) => op.Print? && !op.escaped && Trimmed(OpName(op)) && open == "{{" && close == "}}"
    case Note(_) => op.Skip?
    case Change(open', close', _, between, _) => op.Skip? && Delimiter(open') && Delimiter(close') && between > 0
  }

  predicate Writes(x: Instr, form: Form, open: string, close: string) {
    FormFits(x.op, form, open, close) && Clear(x.text, open) && Clear(Inside(x.op, form), close)
  }

  /** Every tag is written in a form for it, and no delimiter occurs where none is meant. */
  predicate WellWritten(code: seq<Instr>, forms: seq<Form>, last: string, open: string, close: string)
    requires |forms| == |code|
    decreases |code|
  {
    if code == [] then forall k :: 0 <= k <= |last| ==> !Stands(last, open, k)
    else
      && Writes(code[0], forms[0], open, close)
      && WellWritten(code[1..], forms[1..], last, OpenBy(forms[0], open), CloseBy(forms[0], close))
  }

  // ---------------------------------------------------------------- finding delimiters

  /** body_.find: the first place at which the text stands, or nothing. */
  predicate IsAt(found: Option<nat>, at: nat) {
    found.Some? && found.value == at
  }

  lemma {:induction false} FindsAt(body: string, sub: string, from: nat, at: nat)
    requires from <= at && Stands(body, sub, at) && sub != ""
    requires forall k :: from <= k < at ==> !Stands(body, sub, k)
    ensures Find(body, sub, from) == Some(at)
    decreases at - from
  {
    if from < at { FindsAt(body, sub, from + 1, at); }
  }

  lemma Sliced(s: string, a: nat, b: nat, c: nat, d: nat)
    requires a <= b <= |s| && c <= d <= b - a
    ensures s[a + c..a + d] == s[a..b][c..d]
  {
    assert forall i :: 0 <= i < d - c ==> s[a..b][c..d][i] == s[a + c..a + d][i];
  }

  /** What stands in a piece of a text stands in the text. */
  lemma StandsIn(body: string, pos: nat, piece: string, d: string, k: nat)
    requires At(body, pos, piece) && k + |d| <= |piece|
    ensures Stands(body, d, pos + k) <==> Stands(piece, d, k)
  {
    Sliced(body, pos, pos + |piece|, k, k + |d|);
  }

  /** `s` stands at `pos`, and `d` behind it. */
  predicate Follow(body: string, pos: nat, s: string, d: string) {
    At(body, pos, s + d)
  }

  lemma FindsFirst(body: string, pos: nat, s: string, d: string)
    requires Follow(body, pos, s, d) && Clear(s, d) && d != ""
    ensures IsAt(Find(body, d, pos), pos + |s|)
  {
    AtParts(body, pos, s, d);
    forall k | pos <= k < pos + |s| ensures !Stands(body, d, k) { StandsIn(body, pos, s + d, d, k - pos); }
    FindsAt(body, d, pos, pos + |s|);
  }

  lemma {:induction false} FindsNowhere(body: string, sub: string, from: nat)
    requires sub != "" && forall k :: from <= k ==> !Stands(body, sub, k)
    ensures Find(body, sub, from) == None
    decreases |body| - from
  {
    if from + |sub| <= |body| { FindsNowhere(body, sub, from + 1); }
  }

  lemma FindsNone(body: string, pos: nat, last: string, d: string)
    requires pos <= |body| && body[pos..] == last && d != "" && forall k :: 0 <= k <= |last| ==> !Stands(last, d, k)
    ensures Find(body, d, pos) == None
  {
    WholeAt(body, pos, last);
    forall k | pos <= k ensures !Stands(body, d, k) {
      if k + |d| <= |body| { StandsIn(body, pos, last, d, k - pos); }
    }
    FindsNowhere(body, d, pos);
  }

  // ---------------------------------------------------------------- reading one tag

  /** The kind of action that an operation is compiled to. */
  function KindOf(op: Op): ActionType {
    match op
    case Skip => Ignore
    case Print(_, escaped) => if escaped then TagAction else UnescapeTag
    case Include(_) => PartialAction
    case Open(_, _) => OpenBlock
    case Else(_, _) => ElseBlock
    case Close(_) => CloseBlock
  }

  /** A lexeme holds the text and the tag of an instruction. */
  predicate Reads(body: string, x: Lexeme, i: Instr) {
    && x.start <= |body| && x.end <= |body| && x.from <= x.to <= |body|
    && body[x.from..x.to] == i.text && x.kind == KindOf(i.op)
    && (i.op.Skip? || NameOf(body, x) == OpName(i.op))
  }

  /** A tag read at `idx..endIdx`. */
  predicate TagRead(body: string, idx: nat, op: Op, form: Form, open: string, close: string)
    requires Delimiter(open) && Delimiter(close)
  {
    var endIdx := idx + |Inside(op, form)|;
    && 0 < idx < endIdx && endIdx + |Ending(form, close)| <= |body| && |close| <= |Ending(form, close)|
    && var tag := ReadTag(body, idx, endIdx, open, close);
       && tag.Some? && tag.value.kind == KindOf(op) && tag.value.current == endIdx + |Ending(form, close)|
       && tag.value.open == OpenBy(form, open) && tag.value.close == CloseBy(form, close)
       && tag.value.start <= |body| && tag.value.end <= |body|
       && (op.Skip? || Substr(body, tag.value.start, tag.value.end) == OpName(op))
  }

  /** One tag, written and read. */
  lemma TagReads(body: string, idx: nat, op: Op, form: Form, open: string, close: string)
    requires idx > 0 && Follow(body, idx, Inside(op, form), Ending(form, close))
    requires Delimiter(open) && Delimiter(close) && FormFits(op, form, open, close)
    ensures TagRead(body, idx, op, form, open, close)
  {
    match form
    case Padded(before, after) => PaddedReads(body, idx, op, before, after, open, close);
    case Triple(before, after) => TripleReads(body, idx, op, before, after);
    case Note(note) => NoteReads(body, idx, op, note, open, close);
    case Change(open', close', before, between, after) => ChangeReads(body, idx, op, form, open, close);
  }

  lemma {:induction false} SkipIs(body: string, i: nat, n: nat)
    requires i <= n <= |body| && CharAt(body, n) != ' ' && forall k :: i <= k < n ==> body[k] == ' '
    ensures SkipTo(body, i) == n
    decreases n - i
  {
    if i < n { SkipIs(body, i + 1, n); }
  }

  lemma {:induction false} TrimIs(body: string, n: nat, e: nat)
    requires n <= e <= |body| && (n > 0 ==> body[n - 1] != ' ') && forall k :: n <= k < e ==> body[k] == ' '
    ensures TrimTo(body, e) == n
    decreases e - n
  {
    if n < e { TrimIs(body, n, e - 1); }
  }

  lemma {:induction false} FirstSpaceIs(body: string, i: nat, n: nat, e: nat)
    requires i <= n < e <= |body| && body[n] == ' ' && forall k :: i <= k < n ==> body[k] != ' '
    ensures FirstSpace(body, i, e) == Some(n)
    decreases n - i
  {
    if i < n { FirstSpaceIs(body, i + 1, n, e); }
  }

  predicate NameThere(body: string, at: nat, before: nat, name: string, after: nat, rest: string) {
    At(body, at, Spaces(before) + name + Spaces(after) + rest)
  }

  /** Where a name between spaces stands. */
  lemma NamePlaces(body: string, at: nat, before: nat, name: string, after: nat, rest: string)
    requires NameThere(body, at, before, name, after, rest)
    ensures var start, end := at + before, at + before + |name|;
            && At(body, at, Spaces(before)) && At(body, start, name) && At(body, end, Spaces(after)) && At(body, end + after, rest)
  {
    hide At, Spaces;
    SpacesLength(before);
    SpacesLength(after);
    AtParts(body, at, Spaces(before) + name + Spaces(after), rest);
    AtParts(body, at, Spaces(before) + name, Spaces(after));
    AtParts(body, at, Spaces(before), name);
  }

  lemma SpacesLength(n: nat)
    ensures |Spaces(n)| == n
  {
  }

  lemma SpacesThere(body: string, at: nat, n: nat)
    requires At(body, at, Spaces(n))
    ensures at + n <= |body| && forall k :: at <= k < at + n ==> body[k] == ' '
  {
    forall k | at <= k < at + n ensures body[k] == ' ' { assert body[k] == body[at..at + n][k - at]; }
  }

  lemma TrimmedThere(body: string, at: nat, name: string)
    requires At(body, at, name) && Trimmed(name)
    ensures var end := at + |name|;
            at < end <= |body| && body[at..end] == name && body[at] == name[0] != ' ' && body[end - 1] != ' '
  {
    assert body[at..at + |name|][0] == body[at] && body[at..at + |name|][|name| - 1] == body[at + |name| - 1];
  }

  /** A name between spaces, from `at` on. */
  predicate NameStands(body: string, at: nat, before: nat, name: string, after: nat) {
    var start, end := at + before, at + before + |name|;
    && start < end && end + after <= |body| && SkipTo(body, at) == start && TrimTo(body, end + after) == end
    && body[start..end] == name && Substr(body, start, end) == name && body[at] == (if before > 0 then ' ' else name[0])
  }

  lemma NameBetween(body: string, at: nat, before: nat, name: string, after: nat, rest: string)
    requires NameThere(body, at, before, name, after, rest) && Trimmed(name)
    ensures NameStands(body, at, before, name, after) && At(body, at + before + |name| + after, rest)
  {
    NamePlaces(body, at, before, name, after, rest);
    var start, end := at + before, at + before + |name|;
    SpacesThere(body, at, before);
    SpacesThere(body, end, after);
    TrimmedThere(body, start, name);
    SkipIs(body, at, start);
    TrimIs(body, end, end + after);
  }

  lemma SigilThere(body: string, idx: nat, sigil: string)
    requires At(body, idx, sigil) && |sigil| == 1
    ensures idx < |body| && body[idx] == sigil[0]
  {
    assert body[idx] == body[idx..idx + 1][0];
  }

  lemma ReadNamed(body: string, idx: nat, op: Op, before: nat, after: nat, open: string, close: string)
    requires idx > 0 && NameStands(body, idx + |Sigil(op)|, before, OpName(op), after)
    requires idx + |Inside(op, Padded(before, after))| + |close| <= |body|
    requires |Inside(op, Padded(before, after))| == |Sigil(op)| + before + |OpName(op)| + after
    requires Delimiter(open) && Delimiter(close) && !op.Skip?
    requires if |Sigil(op)| == 0 then !Special(body[idx]) else body[idx] == Sigil(op)[0]
    ensures TagRead(body, idx, op, Padded(before, after), open, close)
  {
    hide SkipTo, TrimTo, NewDelimiters, Inside, Substr, Delimiter, OpName;
  }

  lemma PaddedReads(body: string, idx: nat, op: Op, before: nat, after: nat, open: string, close: string)
    requires idx > 0 && Follow(body, idx, Inside(op, Padded(before, after)), close)
    requires Delimiter(open) && Delimiter(close) && FormFits(op, Padded(before, after), open, close)
    ensures TagRead(body, idx, op, Padded(before, after), open, close)
  {
    hide *;
    PaddedFits(op, before, after, open, close);
    PaddedLength(op, before, after);
    PaddedPlaces(body, idx, op, before, after, close);
    NameBetween(body, idx + |Sigil(op)|, before, OpName(op), after, close);
    EndThere(body, idx + |Sigil(op)| + before + |OpName(op)| + after, close);
    PaddedFirst(body, idx, op, before, after, open, close);
    ReadNamed(body, idx, op, before, after, open, close);
  }

  lemma EndThere(body: string, i: nat, piece: string)
    requires At(body, i, piece)
    ensures i + |piece| <= |body|
  {
  }

  /** The first character between the delimiters. */
  lemma PaddedFirst(body: string, idx: nat, op: Op, before: nat, after: nat, open: string, close: string)
    requires FormFits(op, Padded(before, after), open, close) && At(body, idx, Sigil(op))
    requires NameStands(body, idx + |Sigil(op)|, before, OpName(op), after)
    ensures idx < |body| && if |Sigil(op)| == 0 then !Special(body[idx]) else body[idx] == Sigil(op)[0]
  {
    hide SkipTo, TrimTo, Substr, At;
    if Sigil(op) != "" { SigilThere(body, idx, Sigil(op)); }
  }

  lemma PaddedFits(op: Op, before: nat, after: nat, open: string, close: string)
    requires FormFits(op, Padded(before, after), open, close)
    ensures !op.Skip? && Trimmed(OpName(op)) && |OpName(op)| > 0
    ensures |Sigil(op)| == 0 ==> KindOf(op) == TagAction && (before == 0 ==> !Special(OpName(op)[0]))
  {
  }

  lemma SubstrIs(body: string, start: nat, end: nat)
    requires start <= end <= |body|
    ensures Substr(body, start, end) == body[start..end]
  {
  }

  lemma PaddedLength(op: Op, before: nat, after: nat)
    ensures |Inside(op, Padded(before, after))| == |Sigil(op)| + before + |OpName(op)| + after && |Sigil(op)| <= 1
  {
  }

  lemma PaddedPlaces(body: string, idx: nat, op: Op, before: nat, after: nat, close: string)
    requires Follow(body, idx, Inside(op, Padded(before, after)), close)
    ensures At(body, idx, Sigil(op)) && NameThere(body, idx + |Sigil(op)|, before, OpName(op), after, close)
  {
    hide At, Spaces, Sigil, OpName;
    var rest := Spaces(before) + OpName(op) + Spaces(after) + close;
    assert Inside(op, Padded(before, after)) + close == Sigil(op) + rest;
    AtParts(body, idx, Sigil(op), rest);
  }

  lemma TripleReads(body: string, idx: nat, op: Op, before: nat, after: nat)
    requires idx > 0 && Follow(body, idx, Inside(op, Triple(before, after)), "}}}")
    requires FormFits(op, Triple(before, after), "{{", "}}")
    ensures TagRead(body, idx, op, Triple(before, after), "{{", "}}")
  {
    hide *;
    TripleFits(op, before, after);
    TriplePlaces(body, idx, op, before, after);
    NameBetween(body, idx + 1, before, OpName(op), after, "}}}");
    SigilThere(body, idx, "{");
    ThirdBrace(body, idx + 1 + before + |OpName(op)| + after);
    ReadTriple(body, idx, op, before, after);
  }

  lemma TripleFits(op: Op, before: nat, after: nat)
    requires FormFits(op, Triple(before, after), "{{", "}}")
    ensures op.Print? && !op.escaped && Trimmed(OpName(op))
    ensures |Inside(op, Triple(before, after))| == 1 + before + |OpName(op)| + after && Delimiter("{{") && Delimiter("}}")
  {
  }

  lemma ReadTriple(body: string, idx: nat, op: Op, before: nat, after: nat)
    requires idx > 0 && op.Print? && !op.escaped && NameStands(body, idx + 1, before, OpName(op), after)
    requires |Inside(op, Triple(before, after))| == 1 + before + |OpName(op)| + after
    requires idx + |Inside(op, Triple(before, after))| + 3 <= |body| && Delimiter("{{") && Delimiter("}}")
    requires body[idx] == '{' && body[idx + |Inside(op, Triple(before, after))| + 2] == '}'
    ensures TagRead(body, idx, op, Triple(before, after), "{{", "}}")
  {
    hide SkipTo, TrimTo, NewDelimiters, Inside, Substr, Delimiter, OpName;
  }

  lemma TriplePlaces(body: string, idx: nat, op: Op, before: nat, after: nat)
    requires Follow(body, idx, Inside(op, Triple(before, after)), "}}}")
    ensures At(body, idx, "{") && NameThere(body, idx + 1, before, OpName(op), after, "}}}")
  {
    hide At, Spaces, OpName;
    var rest := Spaces(before) + OpName(op) + Spaces(after) + "}}}";
    assert Inside(op, Triple(before, after)) + "}}}" == "{" + rest;
    AtParts(body, idx, "{", rest);
  }

  lemma ThirdBrace(body: string, i: nat)
    requires At(body, i, "}}}")
    ensures i + 3 <= |body| && body[i + 2] == '}'
  {
    assert body[i + 2] == body[i..i + 3][2];
  }

  lemma NoteReads(body: string, idx: nat, op: Op, note: string, open: string, close: string)
    requires idx > 0 && Follow(body, idx, "!" + note, close) && Delimiter(open) && Delimiter(close) && op.Skip?
    ensures TagRead(body, idx, op, Note(note), open, close)
  {
    AtParts(body, idx, "!" + note, close);
    AtParts(body, idx, "!", note);
    SigilThere(body, idx, "!");
  }

  function Pair(form: Form): string
    requires form.Change?
  {
    form.open + Spaces(form.between) + form.close
  }

  /** The new delimiters are read as they were written. */
  lemma ChangeReads(body: string, idx: nat, op: Op, form: Form, open: string, close: string)
    requires idx > 0 && Follow(body, idx, Inside(op, form), close) && form.Change?
    requires Delimiter(open) && Delimiter(close) && FormFits(op, form, open, close)
    ensures TagRead(body, idx, op, form, open, close)
  {
    hide *;
    ChangeFits(op, form, open, close);
    ChangeLength(op, form, close);
    ChangeStands(body, idx, op, form, close);
    var start, end := idx + 1 + form.before, idx + 1 + form.before + |Pair(form)|;
    PairThere(body, idx + 1, form);
    PairRead(body, start, end, form);
    ReadPair(body, idx, end + form.after + 1, start, end, form);
    ReadChange(body, idx, end + form.after + 1, op, form, open, close);
  }

  lemma PairThere(body: string, at: nat, form: Form)
    requires form.Change? && NameStands(body, at, form.before, Pair(form), form.after)
    ensures var start, end := at + form.before, at + form.before + |Pair(form)|;
            && start < end && end + form.after <= |body| && SkipTo(body, at) == start && TrimTo(body, end + form.after) == end
            && body[start..end] == Pair(form)
  {
    hide SkipTo, TrimTo, Pair;
  }

  /** Where the pair and the signs around it stand. */
  lemma ChangeStands(body: string, idx: nat, op: Op, form: Form, close: string)
    requires idx > 0 && Follow(body, idx, Inside(op, form), close) && form.Change? && Delimiter(form.open) && Delimiter(form.close)
    ensures var start, end := idx + 1 + form.before, idx + 1 + form.before + |Pair(form)|;
            && start < end && end + form.after + 1 + |close| <= |body| && body[idx] == '=' && body[end + form.after] == '='
            && NameStands(body, idx + 1, form.before, Pair(form), form.after)
  {
    hide *;
    ChangePlaces(body, idx, op, form, close);
    PairTrimmed(form);
    NameBetween(body, idx + 1, form.before, Pair(form), form.after, "=" + close);
    var last := idx + 1 + form.before + |Pair(form)| + form.after;
    AtParts(body, last, "=", close);
    TextThere(body, last + 1, close);
    SigilThere(body, last, "=");
    SigilThere(body, idx, "=");
  }

  lemma ChangeFits(op: Op, form: Form, open: string, close: string)
    requires form.Change? && FormFits(op, form, open, close)
    ensures op.Skip? && KindOf(op) == Ignore && Delimiter(form.open) && Delimiter(form.close) && form.between > 0
    ensures OpenBy(form, open) == form.open && CloseBy(form, close) == form.close
  {
  }

  lemma ReadChange(body: string, idx: nat, endIdx: nat, op: Op, form: Form, open: string, close: string)
    requires 0 < idx < endIdx == idx + |Inside(op, form)| && endIdx + |close| <= |body| && Delimiter(open) && Delimiter(close)
    requires form.Change? && op.Skip? && body[idx] == '=' && NewDelimiters(body, idx, endIdx) == Some((form.open, form.close))
    ensures TagRead(body, idx, op, form, open, close)
  {
    hide SkipTo, TrimTo, NewDelimiters, Inside, Substr, Delimiter;
  }

  lemma ChangeLength(op: Op, form: Form, close: string)
    requires form.Change?
    ensures Ending(form, close) == close
    ensures |Inside(op, form)| == form.before + |Pair(form)| + form.after + 2
  {
  }

  lemma ChangePlaces(body: string, idx: nat, op: Op, form: Form, close: string)
    requires form.Change? && Follow(body, idx, Inside(op, form), close)
    ensures At(body, idx, "=")
    ensures NameThere(body, idx + 1, form.before, Pair(form), form.after, "=" + close)
  {
    hide At, Spaces;
    var rest := Spaces(form.before) + Pair(form) + Spaces(form.after) + ("=" + close);
    assert Inside(op, form) + close == "=" + rest;
    AtParts(body, idx, "=", rest);
  }

  lemma PairTrimmed(form: Form)
    requires form.Change? && Delimiter(form.open) && Delimiter(form.close)
    ensures Trimmed(Pair(form))
  {
    assert form.open[0] in form.open && form.close[|form.close| - 1] in form.close;
  }

  /** Where the parts of the pair stand. */
  lemma PairRead(body: string, start: nat, end: nat, form: Form)
    requires start <= end <= |body| && form.Change? && body[start..end] == Pair(form)
    requires Delimiter(form.open) && Delimiter(form.close) && form.between > 0
    ensures var m := start + |form.open|;
            && IsAt(FirstSpace(body, start, end), m) && SkipTo(body, m) == m + form.between < end
            && body[start..m] == form.open && body[m + form.between..end] == form.close
  {
    var m, n := start + |form.open|, start + |form.open| + form.between;
    SpacesLength(form.between);
    assert At(body, start, form.open + Spaces(form.between) + form.close);
    AtParts(body, start, form.open + Spaces(form.between), form.close);
    AtParts(body, start, form.open, Spaces(form.between));
    hide SkipTo, FirstSpace;
    SpacesThere(body, m, form.between);
    hide Spaces;
    forall k | start <= k < m ensures body[k] != ' ' {
      assert body[k] == body[start..m][k - start] && form.open[k - start] in form.open;
    }
    assert body[n] == body[n..end][0] && form.close[0] in form.close;
    FirstSpaceIs(body, start, m, end);
    SkipIs(body, m, n);
  }

  lemma ReadPair(body: string, idx: nat, endIdx: nat, start: nat, end: nat, form: Form)
    requires form.Change? && Delimiter(form.open) && Delimiter(form.close) && form.between > 0
    requires 0 < idx && idx + 1 <= start < end < endIdx <= |body| && body[endIdx - 1] == '='
    requires SkipTo(body, idx + 1) == start && TrimTo(body, endIdx - 1) == end
    requires IsAt(FirstSpace(body, start, end), start + |form.open|)
    requires SkipTo(body, start + |form.open|) == start + |form.open| + form.between < end
    requires body[start..start + |form.open|] == form.open && body[start + |form.open| + form.between..end] == form.close
    ensures NewDelimiters(body, idx, endIdx) == Some((form.open, form.close))
  {
    hide SkipTo, TrimTo, FirstSpace;
  }

  // ---------------------------------------------------------------- the whole text

  /** Nothing before the tags, and the tags in their order. */
  predicate AllRead(body: string, xs: seq<Lexeme>, code: seq<Instr>, last: string) {
    && |xs| == |code| + 1 && (forall i :: 0 <= i < |code| ==> Reads(body, xs[i], code[i]))
    && Reads(body, xs[|code|], Instr(last, Skip))
  }

  lemma LexLast(body: string, pos: nat, last: string, open: string, close: string)
    requires pos <= |body| && body[pos..] == last && Delimiter(open) && Delimiter(close)
    requires forall k :: 0 <= k <= |last| ==> !Stands(last, open, k)
    ensures exists xs :: LexesTo(body, pos, open, close, xs) && AllRead(body, xs, [], last)
  {
    FindsNone(body, pos, last, open);
    assert body[pos..|body|] == body[pos..];
    assert LexesTo(body, pos, open, close, [Lexeme(pos, |body|, 0, 0, Ignore)]);
  }

  /** The text and the tag of `x` are read from `pos` on. */
  predicate FirstRead(body: string, pos: nat, x: Instr, form: Form, open: string, close: string)
    requires Delimiter(open) && Delimiter(close)
  {
    var idx := pos + |x.text| + |open|;
    && At(body, pos, x.text) && IsAt(Find(body, open, pos), pos + |x.text|)
    && IsAt(Find(body, close, idx), idx + |Inside(x.op, form)|) && TagRead(body, idx, x.op, form, open, close)
  }

  lemma WrittenRead(body: string, pos: nat, x: Instr, form: Form, open: string, close: string, rest: string)
    requires pos <= |body| && body[pos..] == Written(x, form, open, close) + rest && Writes(x, form, open, close)
    requires Delimiter(open) && Delimiter(close)
    ensures var next := pos + |Written(x, form, open, close)|;
            FirstRead(body, pos, x, form, open, close) && next <= |body| && body[next..] == rest
  {
    hide *;
    WrittenPlaces(body, pos, x, form, open, close, rest);
    WrittenTag(body, pos, x, form, open, close);
  }

  lemma WrittenTag(body: string, pos: nat, x: Instr, form: Form, open: string, close: string)
    requires Follow(body, pos, x.text, open) && Follow(body, pos + |x.text| + |open|, Inside(x.op, form), Ending(form, close))
    requires At(body, pos, x.text) && Writes(x, form, open, close) && Delimiter(open) && Delimiter(close)
    ensures FirstRead(body, pos, x, form, open, close)
  {
    hide At, Follow, Find, Stands, TagRead, Inside, Ending, Delimiter, Writes, FormFits, Clear;
    WritesParts(x, form, open, close);
    var idx := pos + |x.text| + |open|;
    FindsFirst(body, pos, x.text, open);
    TagReads(body, idx, x.op, form, open, close);
    EndingStarts(body, idx, Inside(x.op, form), form, close);
    FindsFirst(body, idx, Inside(x.op, form), close);
  }

  lemma WrittenPlaces(body: string, pos: nat, x: Instr, form: Form, open: string, close: string, rest: string)
    requires pos <= |body| && body[pos..] == Written(x, form, open, close) + rest
    ensures Follow(body, pos, x.text, open) && Follow(body, pos + |x.text| + |open|, Inside(x.op, form), Ending(form, close))
    ensures At(body, pos, x.text)
    ensures var next := pos + |Written(x, form, open, close)|; next <= |body| && body[next..] == rest
  {
    WrittenLength(x, form, open, close);
    hide At, Inside, Ending, Written;
    var head, tag := x.text + open, Inside(x.op, form) + Ending(form, close);
    WholeAt(body, pos, Written(x, form, open, close) + rest);
    AtParts(body, pos, Written(x, form, open, close), rest);
    AtParts(body, pos, head, tag);
    AtParts(body, pos, x.text, open);
    TailIs(body, pos, Written(x, form, open, close), rest);
  }

  lemma WritesParts(x: Instr, form: Form, open: string, close: string)
    requires Writes(x, form, open, close) && Delimiter(open) && Delimiter(close)
    ensures FormFits(x.op, form, open, close) && Clear(x.text, open) && Clear(Inside(x.op, form), close) && |open| > 0 && |close| > 0
  {
  }

  lemma WholeAt(body: string, pos: nat, piece: string)
    requires pos <= |body| && body[pos..] == piece
    ensures At(body, pos, piece)
  {
  }

  lemma TextThere(body: string, pos: nat, text: string)
    requires At(body, pos, text)
    ensures pos + |text| <= |body| && body[pos..pos + |text|] == text
  {
  }

  lemma TailIs(body: string, pos: nat, a: string, b: string)
    requires pos <= |body| && body[pos..] == a + b
    ensures pos + |a| <= |body| && body[pos + |a|..] == b
  {
    assert body[pos + |a|..] == body[pos..][|a|..];
  }

  lemma WrittenLength(x: Instr, form: Form, open: string, close: string)
    ensures |Written(x, form, open, close)| == |x.text| + |open| + |Inside(x.op, form)| + |Ending(form, close)|
    ensures Written(x, form, open, close) == x.text + open + (Inside(x.op, form) + Ending(form, close))
  {
    hide Inside, Ending;
  }

  lemma EndingStarts(body: string, idx: nat, inside: string, form: Form, close: string)
    requires Follow(body, idx, inside, Ending(form, close))
    ensures Follow(body, idx, inside, close)
  {
    if form.Triple? {
      assert inside + (close + "}") == (inside + close) + "}";
      AtParts(body, idx, inside + close, "}");
    }
  }

  lemma SourceFirst(code: seq<Instr>, forms: seq<Form>, last: string, open: string, close: string)
    requires |forms| == |code| > 0 && WellWritten(code, forms, last, open, close) && Delimiter(open) && Delimiter(close)
    ensures var open', close' := OpenBy(forms[0], open), CloseBy(forms[0], close);
            && Source(code, forms, last, open, close)
               == Written(code[0], forms[0], open, close) + Source(code[1..], forms[1..], last, open', close')
            && Writes(code[0], forms[0], open, close) && WellWritten(code[1..], forms[1..], last, open', close')
            && Delimiter(open') && Delimiter(close')
  {
    hide Written, Clear, Delimiter, Inside;
  }

  lemma LastWritten(forms: seq<Form>, last: string, open: string, close: string)
    requires |forms| == 0 && WellWritten([], forms, last, open, close)
    ensures Source([], forms, last, open, close) == last && forall k :: 0 <= k <= |last| ==> !Stands(last, open, k)
  {
  }

  /** Written code is read back tag by tag, in whatever forms it is written. */
  lemma {:induction false} LexReads(body: string, pos: nat, code: seq<Instr>, forms: seq<Form>, last: string, open: string, close: string)
    requires |forms| == |code| && Delimiter(open) && Delimiter(close) && WellWritten(code, forms, last, open, close)
    requires pos <= |body| && body[pos..] == Source(code, forms, last, open, close)
    ensures exists xs :: LexesTo(body, pos, open, close, xs) && AllRead(body, xs, code, last)
    decreases |code|
  {
    hide *;
    if code == [] {
      LastWritten(forms, last, open, close);
      LexLast(body, pos, last, open, close);
    } else {
      var x, form := code[0], forms[0];
      var open', close' := OpenBy(form, open), CloseBy(form, close);
      SourceFirst(code, forms, last, open, close);
      WrittenRead(body, pos, x, form, open, close, Source(code[1..], forms[1..], last, open', close'));
      var next := pos + |Written(x, form, open, close)|;
      LexReads(body, next, code[1..], forms[1..], last, open', close');
      var rest :| LexesTo(body, next, open', close', rest) && AllRead(body, rest, code[1..], last);
      LexStep(body, pos, x, form, open, close, rest, code[1..], last);
      assert code == [x] + code[1..];
    }
  }

  lemma LexStep(body: string, pos: nat, x: Instr, form: Form, open: string, close: string, rest: seq<Lexeme>, code: seq<Instr>, last: string)
    requires Delimiter(open) && Delimiter(close) && FirstRead(body, pos, x, form, open, close)
    requires Delimiter(OpenBy(form, open)) && Delimiter(CloseBy(form, close))
    requires pos + |Written(x, form, open, close)| <= |body|
    requires LexesTo(body, pos + |Written(x, form, open, close)|, OpenBy(form, open), CloseBy(form, close), rest)
    requires AllRead(body, rest, code, last)
    ensures exists xs :: LexesTo(body, pos, open, close, xs) && AllRead(body, xs, [x] + code, last)
  {
    hide *;
    WrittenLength(x, form, open, close);
    FirstReads(body, pos, x, form, open, close);
    var first := FirstLexeme(body, pos, x, form, open, close);
    LexMore(body, pos, x, form, open, close, rest);
    OneMoreRead(body, first, x, rest, code, last);
  }

  predicate LexesTo(body: string, pos: nat, open: string, close: string, xs: seq<Lexeme>)
    requires Delimiter(open) && Delimiter(close) && pos <= |body|
  {
    var l := Lex(body, pos, open, close);
    l.Some? && l.value == xs
  }

  /** What the tag says. */
  function TagOf(body: string, idx: nat, op: Op, form: Form, open: string, close: string): TagText
    requires Delimiter(open) && Delimiter(close) && TagRead(body, idx, op, form, open, close)
  {
    hide ReadTag, Inside, Ending, Substr, Delimiter;
    ReadTag(body, idx, idx + |Inside(op, form)|, open, close).value
  }

  function FirstLexeme(body: string, pos: nat, x: Instr, form: Form, open: string, close: string): Lexeme
    requires Delimiter(open) && Delimiter(close) && FirstRead(body, pos, x, form, open, close)
  {
    hide TagRead, TagOf, At, Find, Inside, Delimiter;
    var tag := TagOf(body, pos + |x.text| + |open|, x.op, form, open, close);
    Lexeme(pos, pos + |x.text|, tag.start, tag.end, tag.kind)
  }

  lemma TagIs(body: string, idx: nat, op: Op, form: Form, open: string, close: string)
    requires Delimiter(open) && Delimiter(close) && TagRead(body, idx, op, form, open, close)
    ensures var tag := TagOf(body, idx, op, form, open, close);
            && tag.kind == KindOf(op) && tag.start <= |body| && tag.end <= |body|
            && (op.Skip? || Substr(body, tag.start, tag.end) == OpName(op))
  {
    hide ReadTag, Inside, Ending, Substr, Delimiter;
  }

  lemma FirstReads(body: string, pos: nat, x: Instr, form: Form, open: string, close: string)
    requires Delimiter(open) && Delimiter(close) && FirstRead(body, pos, x, form, open, close)
    ensures Reads(body, FirstLexeme(body, pos, x, form, open, close), x)
  {
    hide TagRead, TagOf, Find, Stands, KindOf, OpName, Substr, Inside, Delimiter, At;
    TextThere(body, pos, x.text);
    TagIs(body, pos + |x.text| + |open|, x.op, form, open, close);
  }

  lemma LexMore(body: string, pos: nat, x: Instr, form: Form, open: string, close: string, rest: seq<Lexeme>)
    requires Delimiter(open) && Delimiter(close) && FirstRead(body, pos, x, form, open, close)
    requires Delimiter(OpenBy(form, open)) && Delimiter(CloseBy(form, close))
    requires pos + |Written(x, form, open, close)| <= |body|
    requires LexesTo(body, pos + |Written(x, form, open, close)|, OpenBy(form, open), CloseBy(form, close), rest)
    ensures LexesTo(body, pos, open, close, [FirstLexeme(body, pos, x, form, open, close)] + rest)
  {
    hide ReadTag, Find, Stands, KindOf, OpName, Substr, Inside, Delimiter, Ending, OpenBy, CloseBy, At, Written;
    WrittenLength(x, form, open, close);
    var idx := pos + |x.text| + |open|;
    var tag := ReadTag(body, idx, idx + |Inside(x.op, form)|, open, close).value;
    assert tag.current == pos + |Written(x, form, open, close)|;
  }

  lemma OneMoreRead(body: string, first: Lexeme, x: Instr, rest: seq<Lexeme>, code: seq<Instr>, last: string)
    requires Reads(body, first, x) && AllRead(body, rest, code, last)
    ensures AllRead(body, [first] + rest, [x] + code, last)
  {
    hide Reads;
  }

  // ---------------------------------------------------------------- its blocks

  /** The names of the blocks open behind `code`, innermost last. */
  function OpenBehind(code: seq<Instr>): Option<seq<string>>
    decreases |code|
  {
    if code == [] then Some([])
    else
      var op, open := code[|code| - 1].op, OpenBehind(code[..|code| - 1]);
      if open.None? then None
      else if op.Open? || op.Else? then Some(open.value + [op.name])
      else if op.Close? then
        if open.value == [] || open.value[|open.value| - 1] != op.name then None else Some(open.value[..|open.value| - 1])
      else open
  }

  lemma OpenBehindMore(code: seq<Instr>, x: Instr, open: seq<string>)
    requires OpenBehind(code) == Some(open)
    ensures OpenBehind(code + [x])
         == if x.op.Open? || x.op.Else? then Some(open + [x.op.name])
            else if x.op.Close? then
              if open == [] || open[|open| - 1] != x.op.name then None else Some(open[..|open| - 1])
            else Some(open)
  {
    assert (code + [x])[..|code|] == code;
  }

  /** The code of a template closes all that it opens. */
  lemma {:induction false} FlattenCloses(code: seq<Instr>, items: seq<Item>, base: nat, open: seq<string>)
    requires OpenBehind(code) == Some(open)
    ensures OpenBehind(code + Flatten(items, base)) == Some(open)
    decreases items, 1
  {
    if items == [] {
      assert code + Flatten(items, base) == code;
    } else {
      var head, more := FlattenItem(items[0], base), Flatten(items[1..], base + TagSize(items[0].tag));
      assert Flatten(items, base) == head + more;
      hide OpenBehind, FlattenItem, Flatten, TagSize;
      ItemCloses(code, items[0], base, open);
      FlattenCloses(code + head, items[1..], base + TagSize(items[0].tag), open);
      Regrouped(code, head, more);
    }
  }

  lemma {:induction false} ItemCloses(code: seq<Instr>, item: Item, base: nat, open: seq<string>)
    requires OpenBehind(code) == Some(open)
    ensures OpenBehind(code + FlattenItem(item, base)) == Some(open)
    decreases item, 0
  {
    hide OpenBehind, Flatten;
    if item.tag.Section? || item.tag.Inverted? {
      var body, name := item.tag.body, item.tag.name;
      var pos := base + 1 + Size(body.items);
      var first := Instr(item.text, if item.tag.Section? then Open(name, pos) else Else(name, pos));
      var inner, closing := Flatten(body.items, base + 1), Instr(body.last, Close(name));
      OpenBehindMore(code, first, open);
      FlattenCloses(code + [first], body.items, base + 1, open + [name]);
      OpenBehindMore((code + [first]) + inner, closing, open + [name]);
      assert (open + [name])[..|open|] == open;
      assert code + FlattenItem(item, base) == ((code + [first]) + inner) + [closing];
    } else {
      var x := FlattenItem(item, base)[0];
      OpenBehindMore(code, x, open);
      assert FlattenItem(item, base) == [x];
    }
  }

  /** What is open behind lexemes is what is open behind the code that they hold. */
  lemma {:induction false} StillOpenReads(body: string, xs: seq<Lexeme>, code: seq<Instr>)
    requires |xs| == |code| && InBody(body, xs) && forall i :: 0 <= i < |xs| ==> Reads(body, xs[i], code[i])
    ensures StillOpen(body, xs) == OpenBehind(code)
    decreases |xs|
  {
    if xs != [] {
      var n := |xs| - 1;
      assert Reads(body, xs[n], code[n]);
      StillOpenReads(body, xs[..n], code[..n]);
    }
  }

  // ---------------------------------------------------------------- the theorem

  /** A template as text, its tags in the given forms. */
  function TextOf(t: Template, forms: seq<Form>): string
    requires |forms| == Size(t.items)
  {
    Source(Flatten(t.items, 0), forms, t.last, "{{", "}}")
  }

  /** Its tags are written in forms for them, and no delimiter occurs where none is meant. */
  predicate WellFormed(t: Template, forms: seq<Form>)
    requires |forms| == Size(t.items)
  {
    WellWritten(Flatten(t.items, 0), forms, t.last, "{{", "}}")
  }

  /** parse accepts every written template, and its lexemes are the template's flat code. */
  lemma WrittenIsAccepted(t: Template, forms: seq<Form>)
    requires |forms| == Size(t.items) && WellFormed(t, forms)
    ensures Accepted(TextOf(t, forms)) && Lex(TextOf(t, forms), 0, "{{", "}}").Some?
    ensures AllRead(TextOf(t, forms), Lex(TextOf(t, forms), 0, "{{", "}}").value, Flatten(t.items, 0), t.last)
  {
    hide Flatten, Lex, Reads, Source, InBody, StillOpen, OpenBehind, AllRead, WellWritten, Size;
    var body, code := TextOf(t, forms), Flatten(t.items, 0);
    assert body[0..] == body;
    LexReads(body, 0, code, forms, t.last, "{{", "}}");
    var xs :| LexesTo(body, 0, "{{", "}}", xs) && AllRead(body, xs, code, t.last);
    LexInBody(body, 0, "{{", "}}");
    NothingOpen();
    FlattenCloses([], t.items, 0, []);
    assert [] + code == code;
    AllClosed(body, Lex(body, 0, "{{", "}}").value, code, t.last);
  }

  lemma NothingOpen()
    ensures OpenBehind([]) == Some([])
  {
  }

  lemma AllClosed(body: string, xs: seq<Lexeme>, code: seq<Instr>, last: string)
    requires AllRead(body, xs, code, last) && InBody(body, xs) && OpenBehind(code) == Some([])
    ensures StillOpen(body, xs) == Some([])
  {
    hide StillOpen, OpenBehind, Reads, InBody;
    OpenBehindMore(code, Instr(last, Skip), []);
    StillOpenReads(body, xs, code + [Instr(last, Skip)]);
  }

  // ---------------------------------------------------------------- there is one way to match blocks

  /** The same tags, wherever their blocks are taken to end. */
  predicate Alike(c: seq<Instr>, d: seq<Instr>, b: nat, e: nat)
    requires b <= e <= |c| && e <= |d|
  {
    forall i :: b <= i < e ==> KindOf(c[i].op) == KindOf(d[i].op) && OpName(c[i].op) == OpName(d[i].op)
  }

  lemma AlikePart(c: seq<Instr>, d: seq<Instr>, b: nat, e: nat, i: nat, j: nat)
    requires b <= i <= j <= e <= |c| && e <= |d| && Alike(c, d, b, e)
    ensures Alike(c, d, i, j)
  {
    hide KindOf, OpName;
  }

  /** How many blocks more are opened than closed. */
  function Depth(code: seq<Instr>, b: nat, e: nat): int
    requires b <= e <= |code|
    decreases e - b
  {
    if b == e then 0
    else Depth(code, b, e - 1) + if code[e - 1].op.Open? || code[e - 1].op.Else? then 1 else if code[e - 1].op.Close? then -1 else 0
  }

  lemma {:induction false} DepthSplits(code: seq<Instr>, b: nat, k: nat, e: nat)
    requires b <= k <= e <= |code|
    ensures Depth(code, b, e) == Depth(code, b, k) + Depth(code, k, e)
    decreases e - k
  {
    if k < e { DepthSplits(code, b, k, e - 1); }
  }

  lemma {:induction false} DepthAlike(c: seq<Instr>, d: seq<Instr>, b: nat, e: nat)
    requires b <= e <= |c| && e <= |d| && Alike(c, d, b, e)
    ensures Depth(c, b, e) == Depth(d, b, e)
    decreases e - b
  {
    if b < e {
      assert KindOf(c[e - 1].op) == KindOf(d[e - 1].op);
      DepthAlike(c, d, b, e - 1);
    }
  }

  /** Well-nested code closes what it opens, and never more. */
  lemma {:induction false} NestedDepth(code: seq<Instr>, b: nat, k: nat, e: nat)
    requires b <= k <= e <= |code| && WellNested(code, b, e)
    ensures Depth(code, b, k) >= 0 && (k == e ==> Depth(code, b, k) == 0)
    decreases e - b
  {
    if b < k {
      FirstNested(code, b, e);
      DepthSplits(code, b, b + 1, k);
      assert Depth(code, b, b + 1) == Depth(code, b, b) + if code[b].op.Open? || code[b].op.Else? then 1 else 0 by { NoCloseFirst(code, b, e); }
      if code[b].op.Open? || code[b].op.Else? {
        var pos := code[b].op.pos;
        if k <= pos {
          NestedDepth(code, b + 1, k, pos);
        } else {
          NestedDepth(code, b + 1, pos, pos);
          NestedDepth(code, pos + 1, k, e);
          DepthSplits(code, b + 1, pos, k);
          DepthSplits(code, pos, pos + 1, k);
          assert Depth(code, pos, pos + 1) == Depth(code, pos, pos) - 1 by { BlockCloses(code, b, e); }
        }
      } else {
        NestedDepth(code, b + 1, k, e);
      }
    }
  }

  lemma NoCloseFirst(code: seq<Instr>, b: nat, e: nat)
    requires b < e <= |code| && WellNested(code, b, e)
    ensures !code[b].op.Close?
  {
  }

  lemma BlockCloses(code: seq<Instr>, b: nat, e: nat)
    requires b < e <= |code| && WellNested(code, b, e) && (code[b].op.Open? || code[b].op.Else?)
    ensures b < code[b].op.pos < e && code[code[b].op.pos].op == Close(code[b].op.name)
  {
  }

  lemma DepthAtClose(code: seq<Instr>, b: nat, p: nat)
    requires b <= p < |code| && code[p].op.Close?
    ensures Depth(code, b, p + 1) == Depth(code, b, p) - 1
  {
  }

  lemma BlockNested(code: seq<Instr>, b: nat, e: nat)
    requires b < e <= |code| && WellNested(code, b, e) && (code[b].op.Open? || code[b].op.Else?)
    ensures var p := code[b].op.pos; b < p < e && code[p].op.Close? && WellNested(code, b + 1, p)
  {
    FirstNested(code, b, e);
  }

  /** The close tag of the first block is where the depth first falls below zero. */
  lemma NoEarlierClose(c: seq<Instr>, d: seq<Instr>, b: nat, e: nat)
    requires b < e <= |c| && e <= |d| && WellNested(c, b, e) && WellNested(d, b, e) && Alike(c, d, b, e)
    requires (c[b].op.Open? || c[b].op.Else?) && (d[b].op.Open? || d[b].op.Else?)
    ensures c[b].op.pos >= d[b].op.pos
  {
    hide *;
    BlockNested(c, b, e);
    BlockNested(d, b, e);
    var p, q := c[b].op.pos, d[b].op.pos;
    if p < q {
      AlikePart(c, d, b, e, b + 1, p + 1);
      NestedDepth(c, b + 1, p, p);
      DepthAtClose(c, b + 1, p);
      DepthAlike(c, d, b + 1, p + 1);
      NestedDepth(d, b + 1, p + 1, q);
    }
  }

  lemma SameHead(x: Op, y: Op)
    requires KindOf(x) == KindOf(y) && OpName(x) == OpName(y)
    ensures !x.Open? && !x.Else? ==> x == y
    ensures (x.Open? <==> y.Open?) && (x.Else? <==> y.Else?) && (x.Open? || x.Else? ==> x.name == y.name && (x.pos == y.pos ==> x == y))
  {
  }

  /** Code with the same tags that is well nested has the same jumps. */
  lemma {:induction false} OneMatching(c: seq<Instr>, d: seq<Instr>, b: nat, e: nat)
    requires b <= e <= |c| && e <= |d| && WellNested(c, b, e) && WellNested(d, b, e) && Alike(c, d, b, e)
    ensures forall i :: b <= i < e ==> c[i].op == d[i].op
    decreases e - b
  {
    hide *;
    if b < e {
      FirstNested(c, b, e);
      FirstNested(d, b, e);
      FirstAlike(c, d, b, e);
      AlikePart(c, d, b, e, b + 1, e);
      if c[b].op.Open? || c[b].op.Else? {
        NoEarlierClose(c, d, b, e);
        NoEarlierClose(d, c, b, e);
        BlockCloses(c, b, e);
        BlockCloses(d, b, e);
        var p := c[b].op.pos;
        AlikePart(c, d, b, e, b + 1, p);
        AlikePart(c, d, b, e, p + 1, e);
        OneMatching(c, d, b + 1, p);
        OneMatching(c, d, p + 1, e);
      } else {
        OneMatching(c, d, b + 1, e);
      }
    }
  }

  lemma FirstAlike(c: seq<Instr>, d: seq<Instr>, b: nat, e: nat)
    requires b < e <= |c| && e <= |d| && Alike(c, d, b, e)
    ensures Alike(d, c, b, e)
    ensures var x, y := c[b].op, d[b].op;
            && (!x.Open? && !x.Else? ==> x == y)
            && (x.Open? <==> y.Open?) && (x.Else? <==> y.Else?)
            && (x.Open? || x.Else? ==> x.name == y.name && (x.pos == y.pos ==> x == y))
  {
    SameHead(c[b].op, d[b].op);
    hide KindOf, OpName;
  }

  /** A template written as text and parsed: the actions are its flat code, tags and jumps alike, and the texts are its
      own, but for the lines on which a tag stands alone. */
  method ParseWritten(t: Template, ghost forms: seq<Form>, body: string) returns (parsed: TemplateT)
    requires |forms| == Size(t.items) && WellFormed(t, forms) && body == TextOf(t, forms)
    ensures fresh(parsed) && parsed.body == body && parsed.Compiled() && |parsed.actions| == |Flatten(t.items, 0)| + 1
    ensures parsed.actions[|Flatten(t.items, 0)|].t.Ignore?
    ensures forall i :: 0 <= i < |Flatten(t.items, 0)| ==> parsed.Code()[i].op == Flatten(t.items, 0)[i].op
    ensures Lex(parsed.body, 0, "{{", "}}").Some?
    ensures var xs := Lex(parsed.body, 0, "{{", "}}").value;
            && TextsAre(parsed.body, Flatten(t.items, 0), t.last, TextsOf(xs), KindsOf(xs))
            && CutFrom(parsed.body, TextsOf(xs), KindsOf(xs), 0, parsed.fragments)
  {
    hide TextsAre, Texts, CutFrom, Flatten, Lex, AllRead, Reads, Accepted, Shrunk, SameTag, WellNested, WellFormed, TextOf;
    WrittenIsAccepted(t, forms);
    ghost var flat := Flatten(t.items, 0);
    ghost var xs := Lex(body, 0, "{{", "}}").value;
    ReadLength(body, xs, flat, t.last);
    parsed := new TemplateT(body);
    var ok := parsed.Parse();
    LastIsIgnored(body, xs, flat, t.last, parsed.actions[|flat|]);
    forall i | 0 <= i < |flat|
      ensures KindOf(parsed.Code()[i].op) == KindOf(flat[i].op) && OpName(parsed.Code()[i].op) == OpName(flat[i].op)
    {
      ActionReads(body, xs, flat, t.last, i, parsed.actions[i]);
    }
    FlatIsNested(t.items);
    OneMatching(parsed.Code(), flat, 0, |flat|);
    TextsRead(body, xs, flat, t.last);
  }

  /** The texts `f` and the tags `kinds` between them are those of the code. */
  predicate TextsAre(body: string, code: seq<Instr>, last: string, f: seq<(nat, nat)>, kinds: seq<ActionType>) {
    && |f| == |kinds| == |code| + 1 && Texts(body, f)
    && (forall i :: 0 <= i < |code| ==> kinds[i] == KindOf(code[i].op) && body[f[i].0..f[i].1] == code[i].text)
    && body[f[|code|].0..f[|code|].1] == last
  }

  lemma TextsRead(body: string, xs: seq<Lexeme>, code: seq<Instr>, last: string)
    requires AllRead(body, xs, code, last)
    ensures TextsAre(body, code, last, TextsOf(xs), KindsOf(xs))
  {
    hide NameOf, KindOf, OpName;
    forall i | 0 <= i < |code| ensures Reads(body, xs[i], code[i]) {}
  }

  lemma FlatIsNested(items: seq<Item>)
    ensures WellNested(Flatten(items, 0), 0, |Flatten(items, 0)|)
  {
    var flat := Flatten(items, 0);
    assert flat[0..0 + Size(items)] == flat;
    FlattenReadsBack(flat, 0, items);
  }

  lemma ReadLength(body: string, xs: seq<Lexeme>, code: seq<Instr>, last: string)
    requires AllRead(body, xs, code, last)
    ensures |xs| == |code| + 1
  {
  }

  lemma LastIsIgnored(body: string, xs: seq<Lexeme>, code: seq<Instr>, last: string, a: Action)
    requires AllRead(body, xs, code, last) && SameTag(xs[|code|], a)
    ensures a.t.Ignore?
  {
  }

  /** An action that has a lexeme's tag does what the lexeme's instruction does, but for the jump. */
  lemma ActionReads(body: string, xs: seq<Lexeme>, code: seq<Instr>, last: string, i: nat, a: Action)
    requires AllRead(body, xs, code, last) && i < |code| && SameTag(xs[i], a)
    ensures a.start <= |body| && a.end <= |body|
    ensures KindOf(OpOf(body, a)) == KindOf(code[i].op) && OpName(OpOf(body, a)) == OpName(code[i].op)
  {
    assert Reads(body, xs[i], code[i]);
    hide AllRead;
  }
}
