/** mustache's scanner and what it makes of a template: one token per text character and one per
    tag, the check of section nesting, and the errors. */
module Template {
  import opened Wrappers
  import opened Sequences

  /* ---------- the regular expressions, at a position of a text ---------- */

  // The class \s of JavaScript.
  predicate IsSpace(c: char) {
    || '\t' <= c <= '\r' || c == ' ' || c == '\U{00A0}' || c == '\U{1680}' || '\U{2000}' <= c <= '\U{200A}'
    || c == '\U{2028}' || c == '\U{2029}' || c == '\U{202F}' || c == '\U{205F}' || c == '\U{3000}' || c == '\U{FEFF}'
  }

  // The first position from `at` on without a space.
  function SkipSpaces(t: string, at: nat): (e: nat)
    requires at <= |t|
    ensures at <= e <= |t| && (e < |t| ==> !IsSpace(t[e]))
    ensures forall i | at <= i < e :: IsSpace(t[i])
    decreases |t| - at
  {
    if at < |t| && IsSpace(t[at]) then SkipSpaces(t, at + 1) else at
  }

  // The first position from `at` on with a space, or the end.
  function SkipWord(t: string, at: nat): (e: nat)
    requires at <= |t|
    ensures at <= e <= |t| && (e < |t| ==> IsSpace(t[e]))
    ensures forall i | at <= i < e :: !IsSpace(t[i])
    decreases |t| - at
  {
    if at < |t| && !IsSpace(t[at]) then SkipWord(t, at + 1) else at
  }

  predicate LiteralAt(what: string, t: string, at: nat) {
    at + |what| <= |t| && t[at..at + |what|] == what
  }

  // A literal and the spaces after it; the spaces before a literal and the literal; one of the
  // symbols that say what a tag is; spaces.
  datatype Regex = Opening(tag: string) | Spaced(what: string) | TagSymbol | White

  // As many spaces as possible, then the literal: where it ends.
  function SpacesThen(what: string, t: string, at: nat): (e: Option<nat>)
    requires at <= |t|
    ensures e.Some? ==> at + |what| <= e.value <= |t|
    decreases |t| - at
  {
    if at < |t| && IsSpace(t[at]) && SpacesThen(what, t, at + 1).Some? then SpacesThen(what, t, at + 1)
    else if LiteralAt(what, t, at) then Some(at + |what|)
    else None
  }

  // Where the match that starts at `at` ends.
  function MatchAt(re: Regex, t: string, at: nat): (e: Option<nat>)
    requires at <= |t|
    ensures e.Some? ==> at <= e.value <= |t|
  {
    match re
    case Opening(tag) => if LiteralAt(tag, t, at) then Some(SkipSpaces(t, at + |tag|)) else None
    case Spaced(what) => SpacesThen(what, t, at)
    case TagSymbol => if at < |t| && t[at] in "#^/>{&=!" then Some(at + 1) else None
    case White => Some(SkipSpaces(t, at))
  }

  // Where the leftmost match from `at` on starts.
  function Search(re: Regex, t: string, at: nat): (k: Option<nat>)
    requires at <= |t|
    ensures k.Some? ==> at <= k.value <= |t| && MatchAt(re, t, k.value).Some?
    ensures forall i | at <= i < (if k.Some? then k.value else |t| + 1) :: MatchAt(re, t, i).None?
    decreases |t| - at
  {
    if MatchAt(re, t, at).Some? then Some(at)
    else if at == |t| then None
    else Search(re, t, at + 1)
  }

  // Where `scan` and `scanUntil` leave the scanner.
  function Past(re: Regex, t: string, at: nat): (e: nat)
    requires at <= |t|
    ensures at <= e <= |t|
  {
    match MatchAt(re, t, at)
    case None => at
    case Some(e) => e
  }

  function Until(re: Regex, t: string, at: nat): (e: nat)
    requires at <= |t|
    ensures at <= e <= |t|
  {
    match Search(re, t, at)
    case None => |t|
    case Some(k) => k
  }

  /* ---------- Scanner ---------- */

  class Scanner {
    const text: string
    var tail: string
    var pos: nat

    constructor (text: string)
      ensures this.text == text && pos == 0 && Valid()
    {
      this.text := text;
      tail := text;
      pos := 0;
    }

    predicate Valid()
      reads this
    {
      pos <= |text| && tail == text[pos..]
    }

    predicate Eos()
      reads this
    {
      tail == []
    }

    // The expressions only look ahead, so a match in the tail is a match in the text from `pos`
    // on. `match` finds the leftmost one, which counts only at the front.
    method Scan(re: Regex) returns (r: string)
      requires Valid()
      modifies this
      ensures Valid() && pos == Past(re, text, old(pos)) && r == text[old(pos)..pos]
    {
      if Search(re, text, pos) != Some(pos) {
        return "";
      }
      var n := MatchAt(re, text, pos).value - pos;
      r := tail[..n];
      tail := tail[n..];
      pos := pos + |r|;
    }

    method ScanUntil(re: Regex) returns (skipped: string)
      requires Valid()
      modifies this
      ensures Valid() && pos == Until(re, text, old(pos)) && skipped == text[old(pos)..pos]
    {
      match Search(re, text, pos) {
        case None =>
          skipped := tail;
          tail := "";
        case Some(k) =>
          if k == pos {
            skipped := "";
          } else {
            skipped := tail[..k - pos];
            tail := tail[k - pos..];
          }
      }
      pos := pos + |skipped|;
    }
  }

  /* ---------- tags ---------- */

  datatype Kind = Text | Name | Symbol(c: char)

  datatype Token = Token(kind: Kind, value: string, start: nat, end: nat) {
    predicate IsOpen() { kind == Symbol('#') || kind == Symbol('^') }
    predicate IsClose() { kind == Symbol('/') }
  }

  datatype Tags = Tags(open: string, close: string)

  datatype TagsArgument = Pair(parts: seq<string>) | Spelled(text: string)

  // compileTags: a pair as it is, or the first two words of a text.
  function Compile(argument: TagsArgument): Option<Tags> {
    match argument
    case Pair(parts) => if |parts| == 2 then Some(Tags(parts[0], parts[1])) else None
    case Spelled(text) =>
      var e := SkipWord(text, 0);
      var b := SkipSpaces(text, e);
      if e == |text| then None else Some(Tags(text[..e], text[b..SkipWord(text, b)]))
  }

  datatype Error = UnclosedTag(at: nat) | UnopenedSection(name: string, at: nat) | UnclosedSection(name: string, at: nat) | InvalidTags

  function TagKind(t: string, at: nat): Kind
    requires at <= |t|
  {
    if MatchAt(TagSymbol, t, at).Some? then Symbol(t[at]) else Name
  }

  // Where the value of a tag starts, where it ends, and where the closing has to be.
  function ValueStart(t: string, at: nat): (e: nat)
    requires at <= |t|
    ensures at <= e <= |t| && (e < |t| ==> !IsSpace(t[e]))
  {
    Past(White, t, Past(TagSymbol, t, at))
  }

  function ValueEnd(tags: Tags, kind: Kind, t: string, at: nat): (e: nat)
    requires at <= |t|
    ensures at <= e <= |t|
  {
    if kind == Symbol('=') then Until(Spaced("="), t, at)
    else if kind == Symbol('{') then Until(Spaced("}" + tags.close), t, at)
    else Until(Spaced(tags.close), t, at)
  }

  function ClosingStart(tags: Tags, kind: Kind, t: string, at: nat): (e: nat)
    requires at <= |t|
    ensures at <= e <= |t|
  {
    if kind == Symbol('=') then Until(Spaced(tags.close), t, Past(Spaced("="), t, at))
    else if kind == Symbol('{') then Until(Spaced(tags.close), t, Past(Spaced("}"), t, at))
    else at
  }

  datatype Tag = Tag(kind: Kind, value: string, end: nat) | Unclosed(at: nat)

  // The tag whose opening ends at `at`. A closing of no characters is no closing.
  function ReadTag(tags: Tags, t: string, at: nat): (r: Tag)
    requires at <= |t|
    ensures if r.Tag? then at <= r.end <= |t| && r.kind != Text else at <= r.at <= |t|
    ensures r.Tag? && r.kind == Symbol('=') && r.value != [] ==> !IsSpace(r.value[0])
  {
    var kind := TagKind(t, at);
    var a := ValueStart(t, at);
    var b := ValueEnd(tags, kind, t, a);
    var c := ClosingStart(tags, kind, t, b);
    var e := Past(Spaced(tags.close), t, c);
    if e == c then Unclosed(c)
    else Tag(if kind == Symbol('{') then Symbol('&') else kind, t[a..b], e)
  }

  method ScanTag(scanner: Scanner, tags: Tags) returns (tag: Tag)
    requires scanner.Valid()
    modifies scanner
    ensures scanner.Valid()
    ensures tag == ReadTag(tags, scanner.text, old(scanner.pos))
    ensures scanner.pos == if tag.Tag? then tag.end else tag.at
  {
    var kind := ScanKind(scanner);
    var value := ScanValue(scanner, tags, kind);
    if kind == Symbol('{') {
      kind := Symbol('&');
    }
    var closing := scanner.Scan(Spaced(tags.close));
    if closing == "" {
      return Unclosed(scanner.pos);
    }
    return Tag(kind, value, scanner.pos);
  }

  // The symbol if there is one, and spaces.
  method ScanKind(scanner: Scanner) returns (kind: Kind)
    requires scanner.Valid()
    modifies scanner
    ensures scanner.Valid() && scanner.pos == ValueStart(scanner.text, old(scanner.pos))
    ensures kind == TagKind(scanner.text, old(scanner.pos))
  {
    var symbol := scanner.Scan(TagSymbol);
    kind := if symbol != "" then Symbol(symbol[0]) else Name;
    var _ := scanner.Scan(White);
  }

  method ScanValue(scanner: Scanner, tags: Tags, kind: Kind) returns (value: string)
    requires scanner.Valid()
    modifies scanner
    ensures scanner.Valid()
    ensures var e := ValueEnd(tags, kind, scanner.text, old(scanner.pos));
            value == scanner.text[old(scanner.pos)..e] && scanner.pos == ClosingStart(tags, kind, scanner.text, e)
  {
    if kind == Symbol('=') {
      value := scanner.ScanUntil(Spaced("="));
      var _ := scanner.Scan(Spaced("="));
      var _ := scanner.ScanUntil(Spaced(tags.close));
    } else if kind == Symbol('{') {
      value := scanner.ScanUntil(Spaced("}" + tags.close));
      var _ := scanner.Scan(Spaced("}"));
      var _ := scanner.ScanUntil(Spaced(tags.close));
    } else {
      value := scanner.ScanUntil(Spaced(tags.close));
    }
  }

  /* ---------- the whole template ---------- */

  // One token for every character from a to b.
  function Letters(t: string, a: nat, b: nat): seq<Token>
    requires a <= b <= |t|
    decreases b - a
  {
    if a == b then [] else Letters(t, a, b - 1) + [Token(Text, [t[b - 1]], b - 1, b)]
  }

  datatype Checked = Open(sections: seq<Token>) | Failed(error: Error)

  // The check of section nesting: the open sections after a token.
  function Check(sections: seq<Token>, t: Token): Checked {
    if t.IsOpen() then Open(sections + [t])
    else if !t.IsClose() then Open(sections)
    else if sections == [] then Failed(UnopenedSection(t.value, t.start))
    else
      var section := sections[|sections| - 1];
      if section.value != t.value then Failed(UnclosedSection(section.value, t.start))
      else Open(sections[..|sections| - 1])
  }

  datatype Result = Ok(tokens: seq<Token>) | Err(error: Error)

  function After(ts: seq<Token>, r: Result): Result {
    if r.Ok? then Ok(ts + r.tokens) else r
  }

  // At the end of the scan no section may be open.
  function AtEnd(sections: seq<Token>, at: nat): Result {
    if sections == [] then Ok([]) else Err(UnclosedSection(sections[|sections| - 1].value, at))
  }

  // The tags from the next token on.
  function NextTags(tags: Tags, kind: Kind, value: string): Option<Tags> {
    if kind == Symbol('=') then Compile(Spelled(value)) else Some(tags)
  }

  // The tokens of the template `t` from `at` on.
  function Lex(tags: Tags, t: string, at: nat, sections: seq<Token>): Result
    requires at <= |t|
    decreases |t| - at
  {
    var re := Opening(tags.open);
    var k := Until(re, t, at);
    var letters := Letters(t, at, k);
    if Past(re, t, k) == k then After(letters, AtEnd(sections, k))
    else
      match ReadTag(tags, t, Past(re, t, k))
      case Unclosed(p) => Err(UnclosedTag(p))
      case Tag(kind, value, end) =>
        match Check(sections, Token(kind, value, k, end))
        case Failed(error) => Err(error)
        case Open(sections') =>
          match NextTags(tags, kind, value)
          case None => Err(InvalidTags)
          case Some(tags') => After(letters + [Token(kind, value, k, end)], Lex(tags', t, end, sections'))
  }

  function Tokenize(template: string, argument: TagsArgument): Result {
    if template == [] then Ok([])
    else match Compile(argument)
      case None => Err(InvalidTags)
      case Some(tags) => Lex(tags, template, 0, [])
  }

  /* ---------- the tokens tile the template ---------- */

  // Where the part before the i-th token ends, and where the part after it starts.
  function EndBefore(ts: seq<Token>, a: nat, i: nat): nat
    requires i <= |ts|
  {
    if i == 0 then a else ts[i - 1].end
  }

  function StartAt(ts: seq<Token>, b: nat, i: nat): nat
    requires i <= |ts|
  {
    if i == |ts| then b else ts[i].start
  }

  // A token stands for a stretch of the template; a text token for one character.
  ghost predicate Placed(template: string, t: Token) {
    && t.start < t.end <= |template|
    && (t.kind == Text ==> t.end == t.start + 1 && t.value == [template[t.start]])
  }

  // From a to b without gap or overlap.
  ghost predicate Tiles(template: string, ts: seq<Token>, a: nat, b: nat) {
    && (forall i | 0 <= i < |ts| :: Placed(template, ts[i]))
    && (forall i | 0 <= i <= |ts| :: EndBefore(ts, a, i) == StartAt(ts, b, i))
  }

  lemma {:induction false} TilesConcat(template: string, ts: seq<Token>, us: seq<Token>, a: nat, b: nat, c: nat)
    requires Tiles(template, ts, a, b) && Tiles(template, us, b, c)
    ensures Tiles(template, ts + us, a, c)
  {
    var vs := ts + us;
    forall i | 0 <= i <= |vs| ensures EndBefore(vs, a, i) == StartAt(vs, c, i) {
      if i < |ts| {
        assert EndBefore(ts, a, i) == StartAt(ts, b, i);
      } else {
        assert EndBefore(us, b, i - |ts|) == StartAt(us, c, i - |ts|);
        assert EndBefore(ts, a, |ts|) == StartAt(ts, b, |ts|);
      }
    }
  }

  lemma {:induction false} LettersTile(t: string, a: nat, b: nat)
    requires a <= b <= |t|
    ensures Tiles(t, Letters(t, a, b), a, b)
    decreases b - a
  {
    if a < b {
      LettersTile(t, a, b - 1);
      TilesConcat(t, Letters(t, a, b - 1), [Token(Text, [t[b - 1]], b - 1, b)], a, b - 1, b);
    }
  }

  // The delimiters that a set-delimiter tag sets: the first is not empty.
  lemma {:induction false} NextTagsNotEmpty(tags: Tags, t: string, at: nat)
    requires at <= |t| && ReadTag(tags, t, at).Tag? && tags.open != []
    ensures var r := ReadTag(tags, t, at); var c := NextTags(tags, r.kind, r.value); c.Some? ==> c.value.open != []
  {
    WordNotEmpty(ReadTag(tags, t, at).value);
  }

  lemma {:induction false} WordNotEmpty(text: string)
    requires text == [] || !IsSpace(text[0])
    ensures Compile(Spelled(text)).Some? ==> Compile(Spelled(text)).value.open != []
  {
  }

  lemma {:induction false} OpeningTakes(tag: string, t: string, at: nat)
    requires at <= |t| && tag != []
    ensures MatchAt(Opening(tag), t, at).Some? ==> Past(Opening(tag), t, at) > at
  {
  }

  // Without an empty opening the scan breaks off only at the end of the template.
  lemma {:induction false} BreaksAtEnd(tags: Tags, t: string, at: nat)
    requires at <= |t| && tags.open != []
    ensures var k := Until(Opening(tags.open), t, at); Past(Opening(tags.open), t, k) == k ==> k == |t|
  {
    OpeningTakes(tags.open, t, Until(Opening(tags.open), t, at));
  }

  lemma {:induction false} LexTiles(tags: Tags, t: string, at: nat, sections: seq<Token>)
    requires at <= |t| && tags.open != [] && Lex(tags, t, at, sections).Ok?
    ensures Tiles(t, Lex(tags, t, at, sections).tokens, at, |t|)
    decreases |t| - at
  {
    var re := Opening(tags.open);
    var k := Until(re, t, at);
    var letters := Letters(t, at, k);
    BreaksAtEnd(tags, t, at);
    LettersTile(t, at, k);
    if Past(re, t, k) == k {
      assert letters + [] == letters;
    } else {
      var tag := ReadTag(tags, t, Past(re, t, k));
      var token := Token(tag.kind, tag.value, k, tag.end);
      NextTagsNotEmpty(tags, t, Past(re, t, k));
      TilesConcat(t, letters, [token], at, k, tag.end);
      var tags', sections' := NextTags(tags, tag.kind, tag.value).value, Check(sections, token).sections;
      LexTiles(tags', t, tag.end, sections');
      TilesConcat(t, letters + [token], Lex(tags', t, tag.end, sections').tokens, at, tag.end, |t|);
    }
  }

  // Before stripping, the tokens tile the template: no gap, no overlap.
  lemma {:induction false} TokensTile(template: string, argument: TagsArgument)
    requires Tokenize(template, argument).Ok? && (Compile(argument).Some? ==> Compile(argument).value.open != [])
    ensures Tiles(template, Tokenize(template, argument).tokens, 0, |template|)
  {
    if template != [] {
      LexTiles(Compile(argument).value, template, 0, []);
    }
  }

  // With an empty opening, a template that does not start with a space is dropped without an error.
  lemma {:induction false} EmptyOpeningDropsText(template: string, close: string)
    requires template != [] && !IsSpace(template[0])
    ensures Tokenize(template, Pair(["", close])) == Ok([])
    ensures !Tiles(template, [], 0, |template|)
  {
    assert EndBefore([], 0, 0) != StartAt([], |template|, 0);
    assert LiteralAt("", template, 0);
  }

  /* ---------- sections ---------- */

  // The sections open after all of `ts`, if every close tag closes the section of its name.
  function Stack(ts: seq<Token>): Option<seq<Token>> {
    if ts == [] then Some([]) else Advance(Stack(ts[..|ts| - 1]), ts[|ts| - 1])
  }

  function Advance(stack: Option<seq<Token>>, t: Token): Option<seq<Token>> {
    match stack
    case None => None
    case Some(sections) =>
      match Check(sections, t)
      case Failed(_) => None
      case Open(sections') => Some(sections')
  }

  lemma {:induction false} StackSnoc(ts: seq<Token>, t: Token)
    ensures Stack(ts + [t]) == Advance(Stack(ts), t)
  {
    assert (ts + [t])[..|ts|] == ts;
  }

  lemma {:induction false} StackUpTo(ts: seq<Token>, n: nat)
    requires 0 < n <= |ts|
    ensures Stack(ts[..n]) == Advance(Stack(ts[..n - 1]), ts[n - 1])
  {
    assert ts[..n] == ts[..n - 1] + [ts[n - 1]];
    StackSnoc(ts[..n - 1], ts[n - 1]);
  }

  lemma {:induction false} AdvanceText(stack: Option<seq<Token>>, t: Token)
    requires t.kind == Text
    ensures Advance(stack, t) == stack
  {
  }

  lemma {:induction false} StackLetters(ts: seq<Token>, t: string, a: nat, b: nat)
    requires a <= b <= |t|
    ensures Stack(ts + Letters(t, a, b)) == Stack(ts)
    decreases b - a
  {
    if a == b {
      assert ts + [] == ts;
    } else {
      var front, letter := Letters(t, a, b - 1), Token(Text, [t[b - 1]], b - 1, b);
      StackLetters(ts, t, a, b - 1);
      StackText(ts + front, letter);
      Concat3(ts, front, [letter]);
    }
  }

  // Text does not matter for sections.
  lemma {:induction false} StackText(ts: seq<Token>, t: Token)
    requires t.kind == Text
    ensures Stack(ts + [t]) == Stack(ts)
  {
    StackSnoc(ts, t);
    AdvanceText(Stack(ts), t);
  }

  lemma {:induction false} LexBalanced(tags: Tags, t: string, at: nat, sections: seq<Token>, before: seq<Token>)
    requires at <= |t| && Stack(before) == Some(sections) && Lex(tags, t, at, sections).Ok?
    ensures Stack(before + Lex(tags, t, at, sections).tokens) == Some([])
    decreases |t| - at
  {
    var re := Opening(tags.open);
    var k := Until(re, t, at);
    var letters := Letters(t, at, k);
    StackLetters(before, t, at, k);
    if Past(re, t, k) == k {
      assert letters + [] == letters;
    } else {
      var tag := ReadTag(tags, t, Past(re, t, k));
      var token := Token(tag.kind, tag.value, k, tag.end);
      var tags', sections' := NextTags(tags, tag.kind, tag.value).value, Check(sections, token).sections;
      StackSnoc(before + letters, token);
      LexBalanced(tags', t, tag.end, sections', before + letters + [token]);
      Regroup(before, letters, token, Lex(tags', t, tag.end, sections').tokens);
    }
  }

  lemma {:induction false} Regroup<T>(a: seq<T>, b: seq<T>, x: T, c: seq<T>)
    ensures a + b + [x] + c == a + (b + [x] + c)
  {
  }

  // Tokens that pass the check close every section they open, each by its own name.
  lemma {:induction false} TokensBalanced(template: string, argument: TagsArgument)
    requires Tokenize(template, argument).Ok?
    ensures Stack(Tokenize(template, argument).tokens) == Some([])
  {
    var ts := Tokenize(template, argument).tokens;
    if template != [] {
      LexBalanced(Compile(argument).value, template, 0, [], []);
      assert [] + ts == ts;
    }
  }
}
