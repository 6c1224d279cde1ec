/** mustache's parseTemplate: scan, strip, squash and nest. */
module Mustache {
  import opened Wrappers
  import opened Sequences
  import opened Template
  import opened Standalone
  import opened Squashing
  import opened Nesting

  datatype Outcome = Parsed(top: seq<nat>, nodes: seq<Node>) | Thrown(error: Error)

  method PushText(buffer: Buffer, value: string, from: nat, ghost t: string)
    requires buffer.Valid() && from + |value| <= |t| && value == t[from..from + |value|]
    modifies buffer
    ensures buffer.Valid() && buffer.all == old(buffer.all) + Letters(t, from, from + |value|)
  {
    var start := from;
    for i := 0 to |value|
      invariant buffer.Valid() && start == from + i
      invariant buffer.all == old(buffer.all) + Letters(t, from, start)
    {
      var chr := value[i];
      LetterNext(old(buffer.all), t, from, start);
      buffer.PushLetter(chr, start);
      start := start + 1;
    }
  }

  lemma {:induction false} LetterNext(all: seq<Token>, t: string, from: nat, start: nat)
    requires from <= start < |t|
    ensures all + Letters(t, from, start) + [Token(Text, [t[start]], start, start + 1)] == all + Letters(t, from, start + 1)
  {
    Concat3(all, Letters(t, from, start), [Token(Text, [t[start]], start, start + 1)]);
  }

  lemma {:induction false} AfterAfter(a: seq<Token>, b: seq<Token>, r: Result)
    ensures After(a, After(b, r)) == After(a + b, r)
    ensures After([], r) == r && After(a, Ok([])) == Ok(a)
  {
    assert r.Ok? ==> a + (b + r.tokens) == a + b + r.tokens && [] + r.tokens == r.tokens;
    assert a + [] == a;
  }

  datatype Step = Continue(tags: Tags, sections: seq<Token>) | Stop | Fail(error: Error)

  // One round of the loop: text up to the next tag, and the tag.
  method Round(scanner: Scanner, buffer: Buffer, tags: Tags, sections: seq<Token>) returns (step: Step)
    requires scanner.Valid() && buffer.Valid()
    modifies scanner, buffer
    ensures scanner.Valid() && buffer.Valid()
    ensures var before := After(old(buffer.all), Lex(tags, scanner.text, old(scanner.pos), sections));
            match step
            case Fail(error) => before == Err(error)
            case Stop => before == After(buffer.all, AtEnd(sections, scanner.pos))
            case Continue(tags', sections') =>
              old(scanner.pos) < scanner.pos && before == After(buffer.all, Lex(tags', scanner.text, scanner.pos, sections'))
  {
    ghost var all, t, at := buffer.all, scanner.text, scanner.pos;
    var start := ScanText(scanner, buffer, tags);
    LexStops(tags, t, at, sections, all);
    if scanner.pos == start {
      return Stop;
    }
    step := TagRound(scanner, buffer, tags, sections, start);
    LexTag(tags, t, at, sections, all);
  }

  // The rest of a tag whose opening, at `start`, has been read.
  method TagRound(scanner: Scanner, buffer: Buffer, tags: Tags, sections: seq<Token>, start: nat) returns (step: Step)
    requires scanner.Valid() && buffer.Valid()
    modifies scanner, buffer
    ensures scanner.Valid() && buffer.Valid()
    ensures match ReadTag(tags, scanner.text, old(scanner.pos))
            case Unclosed(at) => step == Fail(UnclosedTag(at))
            case Tag(kind, value, end) =>
              && scanner.pos == end && buffer.all == old(buffer.all) + [Token(kind, value, start, end)]
              && step == StepFor(tags, sections, Token(kind, value, start, end))
  {
    var tag := ScanTag(scanner, tags);
    if tag.Unclosed? {
      return Fail(UnclosedTag(scanner.pos));
    }
    var token := Token(tag.kind, tag.value, start, scanner.pos);
    buffer.PushTag(token);
    step := CheckToken(tags, sections, token);
  }

  // The text up to the next opening, and the opening if there is one.
  method ScanText(scanner: Scanner, buffer: Buffer, tags: Tags) returns (start: nat)
    requires scanner.Valid() && buffer.Valid()
    modifies scanner, buffer
    ensures scanner.Valid() && buffer.Valid()
    ensures start == Until(Opening(tags.open), scanner.text, old(scanner.pos))
    ensures scanner.pos == Past(Opening(tags.open), scanner.text, start)
    ensures buffer.all == old(buffer.all) + Letters(scanner.text, old(scanner.pos), start)
  {
    var value := scanner.ScanUntil(Opening(tags.open));
    start := scanner.pos;
    PushText(buffer, value, start - |value|, scanner.text);
    var _ := scanner.Scan(Opening(tags.open));
  }

  // A round that finds no opening, or no closing.
  lemma {:induction false} LexStops(tags: Tags, t: string, at: nat, sections: seq<Token>, all: seq<Token>)
    requires at <= |t|
    ensures var k := Until(Opening(tags.open), t, at);
            var e := Past(Opening(tags.open), t, k);
            var before := After(all, Lex(tags, t, at, sections));
            if e == k then before == After(all + Letters(t, at, k), AtEnd(sections, k))
            else ReadTag(tags, t, e).Unclosed? ==> before == Err(UnclosedTag(ReadTag(tags, t, e).at))
  {
    var k := Until(Opening(tags.open), t, at);
    AfterAfter(all, Letters(t, at, k), AtEnd(sections, k));
  }

  // The section check and new delimiters.
  function StepFor(tags: Tags, sections: seq<Token>, token: Token): Step {
    match Check(sections, token)
    case Failed(error) => Fail(error)
    case Open(sections') =>
      match NextTags(tags, token.kind, token.value)
      case None => Fail(InvalidTags)
      case Some(tags') => Continue(tags', sections')
  }

  method CheckToken(tags: Tags, sections: seq<Token>, token: Token) returns (step: Step)
    ensures step == StepFor(tags, sections, token)
  {
    var stack := sections;
    if token.IsOpen() {
      stack := stack + [token];
    } else if token.IsClose() {
      if |stack| == 0 {
        return Fail(UnopenedSection(token.value, token.start));
      }
      var openSection := stack[|stack| - 1];
      stack := stack[..|stack| - 1];
      if openSection.value != token.value {
        return Fail(UnclosedSection(openSection.value, token.start));
      }
    } else if token.kind == Symbol('=') {
      var next := Compile(Spelled(token.value));
      return if next.None? then Fail(InvalidTags) else Continue(next.value, stack);
    }
    return Continue(tags, stack);
  }

  // A round that finds a tag, after the tokens `all`.
  lemma {:induction false} LexTag(tags: Tags, t: string, at: nat, sections: seq<Token>, all: seq<Token>)
    requires at <= |t|
    ensures var k := Until(Opening(tags.open), t, at);
            var e := Past(Opening(tags.open), t, k);
            var tag := ReadTag(tags, t, e);
            e > k && tag.Tag? ==>
              var token := Token(tag.kind, tag.value, k, tag.end);
              var before := After(all, Lex(tags, t, at, sections));
              match StepFor(tags, sections, token)
              case Fail(error) => before == Err(error)
              case Stop => true
              case Continue(tags', sections') =>
                before == After(all + Letters(t, at, k) + [token], Lex(tags', t, tag.end, sections'))
  {
    var k := Until(Opening(tags.open), t, at);
    var e := Past(Opening(tags.open), t, k);
    var tag := ReadTag(tags, t, e);
    if e > k && tag.Tag? {
      var token := Token(tag.kind, tag.value, k, tag.end);
      var step := StepFor(tags, sections, token);
      if step.Continue? {
        AfterAfter(all, Letters(t, at, k) + [token], Lex(step.tags, t, tag.end, step.sections));
        Concat3(all, Letters(t, at, k), [token]);
      }
    }
  }

  // An error is reported exactly as the tokens of the template say; otherwise the result is the
  // stripped and squashed tokens, each in the section it belongs to.
  method ParseTemplate(template: string, argument: TagsArgument) returns (r: Outcome)
    ensures match Tokenize(template, argument)
            case Err(error) => r == Thrown(error)
            case Ok(all) => r.Parsed? && Nests(r.top, r.nodes, Cleaned(all), |Cleaned(all)|)
  {
    if template == "" {
      return Parsed([], []);
    }
    var compiled := Compile(argument);
    if compiled.None? {
      return Thrown(InvalidTags);
    }
    var tags := compiled.value;
    ghost var goal := Lex(tags, template, 0, []);
    var scanner := new Scanner(template);
    var buffer := new Buffer();
    var sections: seq<Token> := [];
    var open := true;
    AfterAfter([], [], goal);
    while open && !scanner.Eos()
      invariant scanner.Valid() && scanner.text == template && buffer.Valid() && fresh(scanner) && fresh(buffer)
      invariant goal == After(buffer.all, if open then Lex(tags, template, scanner.pos, sections) else AtEnd(sections, scanner.pos))
      decreases open, |template| - scanner.pos
    {
      var step := Round(scanner, buffer, tags, sections);
      match step
      case Fail(error) => return Thrown(error);
      case Stop => open := false;
      case Continue(tags', sections') => tags, sections := tags', sections';
    }
    if open {
      NothingLeft(tags, template, sections);
    }
    AfterAfter(buffer.all, [], Ok([]));
    if |sections| > 0 {
      return Thrown(UnclosedSection(sections[|sections| - 1].value, scanner.pos));
    }
    TokensBalanced(template, argument);
    r := Clean(buffer);
  }

  lemma {:induction false} NothingLeft(tags: Tags, t: string, sections: seq<Token>)
    ensures Lex(tags, t, |t|, sections) == AtEnd(sections, |t|)
  {
    AfterAfter([], [], AtEnd(sections, |t|));
  }

  // nestTokens(squashTokens(tokens))
  method Clean(buffer: Buffer) returns (r: Outcome)
    requires buffer.Valid() && Stack(buffer.all) == Some([])
    ensures r.Parsed? && Nests(r.top, r.nodes, Cleaned(buffer.all), |Cleaned(buffer.all)|)
  {
    forall i: nat | buffer.line <= i < |buffer.all| ensures !Stripped(buffer.all, i) {
      LastLineStays(buffer.all, buffer.line, i);
    }
    PresentIsKept(buffer.all, StrippedOf(buffer.all), buffer.tokens, |buffer.all|);
    assert buffer.tokens[..|buffer.all|] == buffer.tokens;
    CleanedStack(buffer.all);
    var squashed := SquashTokens(buffer.tokens);
    var top, nodes := NestTokens(squashed);
    return Parsed(top, nodes);
  }

  /* ---------- the source is kept ---------- */

  // Every template that parses, with delimiters that are not empty: before stripping the tokens
  // tile it; what is nested covers it up to whitespace, with text exactly as it is there, and no
  // two texts next to each other.
  lemma {:induction false} SourceKept(template: string, argument: TagsArgument)
    requires Tokenize(template, argument).Ok? && (Compile(argument).Some? ==> Compile(argument).value.open != [])
    ensures var all := Tokenize(template, argument).tokens;
            && Tiles(template, all, 0, |template|)
            && Covers(template, Cleaned(all), 0, |template|)
            && NoAdjacentText(Cleaned(all))
            && Units(Cleaned(all)) == Units(Kept(all, StrippedOf(all), |all|))
            && Stack(Cleaned(all)) == Some([])
  {
    var all := Tokenize(template, argument).tokens;
    TokensTile(template, argument);
    CleanedCovers(template, all);
    SquashKeepsUnits(Kept(all, StrippedOf(all), |all|));
    TokensBalanced(template, argument);
    CleanedStack(all);
  }

  // Every section of the result ends where its own close tag starts, and the tokens up to there
  // are exactly those nested in it and cover exactly its source.
  lemma {:induction false} SectionsExact(template: string, argument: TagsArgument, p: nat) returns (q: nat)
    requires Tokenize(template, argument).Ok? && (Compile(argument).Some? ==> Compile(argument).value.open != [])
    requires var ts := Cleaned(Tokenize(template, argument).tokens); p < |ts| && ts[p].IsOpen()
    ensures var ts := Cleaned(Tokenize(template, argument).tokens);
            && Closes(ts, p, q) && ts[q].value == ts[p].value
            && NodeAfter(ts, |ts|, p).close == Some(ts[q].start)
            && (forall j: nat | j <= |ts| :: p in OpenAt(ts, j) <==> p < j <= q)
            && Covers(template, ts[p + 1..q], ts[p].end, ts[q].start)
  {
    SourceKept(template, argument);
    q := SectionSpan(template, Cleaned(Tokenize(template, argument).tokens), p);
  }
}
