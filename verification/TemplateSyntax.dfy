/** What the tokens of a template say: every tag token is spelled out in the template, with the
    delimiters in force there, and every error has its place. */
module TemplateSyntax {
  import opened Wrappers
  import opened Sequences
  import opened Template
  import opened Standalone
  import opened Squashing

  /* ---------- a tag, spelled out ---------- */

  // Where the parts of a tag are: its symbol or value, its value, what follows the value, and the
  // closing; `mark` is the character that ends the value of the two special forms.
  datatype Layout = Layout(symbol: nat, value: nat, after: nat, mark: nat, closing: nat)

  predicate IsSymbol(c: char) {
    c == '#' || c == '^' || c == '/' || c == '>' || c == '{' || c == '&' || c == '=' || c == '!'
  }

  predicate HasSymbol(t: string, at: nat) {
    at < |t| && IsSymbol(t[at])
  }

  ghost predicate NoneBetween(what: string, t: string, a: nat, b: nat) {
    forall i: nat | a <= i < b :: !LiteralAt(what, t, i)
  }

  // Up to the value: the opening, spaces, the symbol if there is one, spaces.
  ghost predicate HeadOk(tags: Tags, t: string, k: Token, p: Layout) {
    && LiteralAt(tags.open, t, k.start)
    && BlankBetween(t, k.start + |tags.open|, p.symbol) && (p.symbol < |t| ==> !IsSpace(t[p.symbol]))
    && BlankBetween(t, if HasSymbol(t, p.symbol) then p.symbol + 1 else p.symbol, p.value)
    && k.kind == (if !HasSymbol(t, p.symbol) then Name
                  else if t[p.symbol] == '{' then Symbol('&') else Symbol(t[p.symbol]))
  }

  // The value has no spaces at its ends.
  ghost predicate ValueOk(t: string, k: Token, p: Layout) {
    && p.value <= p.after <= |t| && k.value == t[p.value..p.after]
    && (k.value != [] ==> !IsSpace(k.value[0]) && !IsSpace(k.value[|k.value| - 1]))
  }

  // Behind the value: spaces and the closing; with '=' an equals sign and anything before the
  // closing; with '{' a brace. The value holds nothing of what ends it.
  ghost predicate TailOk(tags: Tags, t: string, k: Token, p: Layout) {
    && LiteralAt(tags.close, t, p.closing) && k.end == p.closing + |tags.close|
    && if HasSymbol(t, p.symbol) && t[p.symbol] == '=' then
         && NoneBetween("=", t, p.value, p.after)
         && BlankBetween(t, p.after, p.mark) && p.mark < |t| && t[p.mark] == '=' && p.mark + 1 <= p.closing
       else if HasSymbol(t, p.symbol) && t[p.symbol] == '{' then
         && NoneBetween("}" + tags.close, t, p.value, p.after)
         && BlankBetween(t, p.after, p.mark) && p.mark < |t| && t[p.mark] == '}' && BlankBetween(t, p.mark + 1, p.closing)
       else
         NoneBetween(tags.close, t, p.value, p.after) && BlankBetween(t, p.after, p.closing)
  }

  ghost predicate TagSpelled(tags: Tags, t: string, k: Token, p: Layout) {
    HeadOk(tags, t, k, p) && ValueOk(t, k, p) && TailOk(tags, t, k, p)
  }

  /* ---------- what scanning finds ---------- */

  lemma {:induction false} SpacesThenIs(what: string, t: string, at: nat)
    requires at <= |t|
    ensures var e := SpacesThen(what, t, at);
            e.Some? ==> at + |what| <= e.value && BlankBetween(t, at, e.value - |what|) && LiteralAt(what, t, e.value - |what|)
    ensures LiteralAt(what, t, at) ==> SpacesThen(what, t, at).Some?
    decreases |t| - at
  {
    if at < |t| && IsSpace(t[at]) {
      SpacesThenIs(what, t, at + 1);
    }
  }

  // A value that is ended by the leftmost match holds no match, and no space at its end.
  lemma {:induction false} ValueEnds(what: string, t: string, a: nat)
    requires a <= |t|
    ensures var b := Until(Spaced(what), t, a);
            && NoneBetween(what, t, a, b)
            && (MatchAt(Spaced(what), t, b).Some? && a < b ==> !IsSpace(t[b - 1]))
  {
    var b := Until(Spaced(what), t, a);
    forall i: nat | a <= i < b ensures !LiteralAt(what, t, i) {
      SpacesThenIs(what, t, i);
      assert MatchAt(Spaced(what), t, i).None?;
    }
    if MatchAt(Spaced(what), t, b).Some? && a < b {
      assert MatchAt(Spaced(what), t, b - 1).None?;
    }
  }

  lemma {:induction false} SkipIsBlank(t: string, at: nat)
    requires at <= |t|
    ensures BlankBetween(t, at, SkipSpaces(t, at))
  {
  }

  lemma {:induction false} FirstSolid(t: string, a: nat, b: nat, c: nat)
    requires BlankBetween(t, a, b) && BlankBetween(t, a, c) && b < |t| && c < |t| && !IsSpace(t[b]) && !IsSpace(t[c])
    ensures b == c
  {
  }

  // The ordinary form.
  lemma {:induction false} PlainTail(close: string, t: string, a: nat)
    requires a <= |t|
    ensures var b := Until(Spaced(close), t, a);
            var e := Past(Spaced(close), t, b);
            e > b ==>
              && NoneBetween(close, t, a, b) && (a < b ==> !IsSpace(t[b - 1]))
              && e >= |close| && BlankBetween(t, b, e - |close|) && LiteralAt(close, t, e - |close|)
  {
    ValueEnds(close, t, a);
    SpacesThenIs(close, t, Until(Spaced(close), t, a));
  }

  // With an equals sign.
  lemma {:induction false} EqualsTail(close: string, t: string, a: nat)
    requires a <= |t|
    ensures var b := Until(Spaced("="), t, a);
            var c := Until(Spaced(close), t, Past(Spaced("="), t, b));
            var e := Past(Spaced(close), t, c);
            e > c ==>
              && NoneBetween("=", t, a, b) && (a < b ==> !IsSpace(t[b - 1]))
              && Past(Spaced("="), t, b) >= 1
              && (var q := Past(Spaced("="), t, b) - 1; BlankBetween(t, b, q) && q < |t| && t[q] == '=' && q + 1 <= e - |close|)
              && e >= |close| && LiteralAt(close, t, e - |close|)
  {
    var b := Until(Spaced("="), t, a);
    ValueEnds("=", t, a);
    SpacesThenIs("=", t, b);
    SpacesThenIs(close, t, Until(Spaced(close), t, Past(Spaced("="), t, b)));
    if MatchAt(Spaced("="), t, b).Some? {
      assert LiteralAt("=", t, Past(Spaced("="), t, b) - 1);
    }
  }

  // With a brace.
  lemma {:induction false} BraceTail(close: string, t: string, a: nat)
    requires a <= |t|
    ensures var b := Until(Spaced("}" + close), t, a);
            var c := Until(Spaced(close), t, Past(Spaced("}"), t, b));
            var e := Past(Spaced(close), t, c);
            e > c ==>
              && NoneBetween("}" + close, t, a, b) && (a < b ==> !IsSpace(t[b - 1]))
              && Past(Spaced("}"), t, b) >= 1
              && (var q := Past(Spaced("}"), t, b) - 1; BlankBetween(t, b, q) && q < |t| && t[q] == '}' && BlankBetween(t, q + 1, e - |close|))
              && e >= |close| && LiteralAt(close, t, e - |close|)
  {
    var curly := "}" + close;
    var b := Until(Spaced(curly), t, a);
    ValueEnds(curly, t, a);
    SpacesThenIs(curly, t, b);
    SpacesThenIs("}", t, b);
    var d := Past(Spaced("}"), t, b);
    SpacesThenIs(close, t, Until(Spaced(close), t, d));
    if MatchAt(Spaced(curly), t, b).Some? {
      BraceMark(close, t, b);
      SpacesThenIs(close, t, d);
      assert Until(Spaced(close), t, d) == d;
    }
  }

  // The brace before the closing is the first character behind the spaces.
  lemma {:induction false} BraceMark(close: string, t: string, b: nat)
    requires b <= |t| && SpacesThen("}" + close, t, b).Some?
    ensures SpacesThen("}", t, b).Some?
    ensures var q := SpacesThen("}", t, b).value - 1;
            q >= b && BlankBetween(t, b, q) && q < |t| && t[q] == '}' && LiteralAt(close, t, q + 1)
  {
    var curly := "}" + close;
    SpacesThenIs(curly, t, b);
    var p := SpacesThen(curly, t, b).value - |curly|;
    assert t[p..p + |curly|] == curly && curly[0] == '}';
    assert t[p] == t[p..p + |curly|][0];
    assert t[p + 1..p + 1 + |close|] == curly[1..] == close;
    BraceFound(t, b, p);
    SpacesThenIs("}", t, b);
    var q := SpacesThen("}", t, b).value - 1;
    assert t[q] == t[q..q + 1][0];
    FirstSolid(t, b, p, q);
  }

  lemma {:induction false} BraceFound(t: string, b: nat, p: nat)
    requires BlankBetween(t, b, p) && p < |t| && t[p] == '}'
    ensures SpacesThen("}", t, b).Some?
    decreases p - b
  {
    if b < p {
      BraceFound(t, b + 1, p);
    } else {
      assert LiteralAt("}", t, b);
    }
  }

  /* ---------- every tag token ---------- */

  lemma {:induction false} SymbolIs(t: string, at: nat)
    requires at <= |t|
    ensures MatchAt(TagSymbol, t, at).Some? <==> HasSymbol(t, at)
  {
  }

  lemma {:induction false} HeadSpelled(tags: Tags, t: string, token: Token, p: Layout)
    requires token.start <= |t| && Past(Opening(tags.open), t, token.start) > token.start
    requires p.symbol == Past(Opening(tags.open), t, token.start) && p.value == ValueStart(t, p.symbol)
    requires var kind := TagKind(t, p.symbol); token.kind == if kind == Symbol('{') then Symbol('&') else kind
    ensures HeadOk(tags, t, token, p)
  {
    SkipIsBlank(t, token.start + |tags.open|);
    SymbolIs(t, p.symbol);
    SkipIsBlank(t, if HasSymbol(t, p.symbol) then p.symbol + 1 else p.symbol);
  }

  // Where the parts of a tag are.
  function LayoutOf(tags: Tags, t: string, o: nat): Layout
    requires o <= |t|
  {
    var kind, a := TagKind(t, o), ValueStart(t, o);
    var b := ValueEnd(tags, kind, t, a);
    var end := Past(Spaced(tags.close), t, ClosingStart(tags, kind, t, b));
    Layout(o, a, b, MarkOf(kind, t, b), if end >= |tags.close| then end - |tags.close| else 0)
  }

  function MarkOf(kind: Kind, t: string, b: nat): nat
    requires b <= |t|
  {
    var e := if kind == Symbol('=') then Past(Spaced("="), t, b)
             else if kind == Symbol('{') then Past(Spaced("}"), t, b) else 0;
    if e > 0 then e - 1 else 0
  }

  // The value lies between those positions, and there is a closing.
  ghost predicate Parts(tags: Tags, t: string, kind: Kind, token: Token, p: Layout) {
    && p.value <= p.after <= |t| && p.after == ValueEnd(tags, kind, t, p.value)
    && p.mark == MarkOf(kind, t, p.after)
    && token.value == t[p.value..p.after] && (p.value < |t| ==> !IsSpace(t[p.value]))
    && token.end == Past(Spaced(tags.close), t, ClosingStart(tags, kind, t, p.after))
    && token.end > ClosingStart(tags, kind, t, p.after)
    && p.closing == (if token.end >= |tags.close| then token.end - |tags.close| else 0)
  }

  lemma {:induction false} ReadParts(tags: Tags, t: string, o: nat, token: Token)
    requires o <= |t| && ReadTag(tags, t, o).Tag?
    requires token.value == ReadTag(tags, t, o).value && token.end == ReadTag(tags, t, o).end
    ensures Parts(tags, t, TagKind(t, o), token, LayoutOf(tags, t, o))
  {
  }

  lemma {:induction false} ValueSpelled(t: string, token: Token, p: Layout)
    requires p.value <= p.after <= |t| && token.value == t[p.value..p.after]
    requires p.value < p.after ==> !IsSpace(t[p.value]) && !IsSpace(t[p.after - 1])
    ensures ValueOk(t, token, p)
  {
  }

  lemma {:induction false} EqualsParts(tags: Tags, t: string, token: Token, p: Layout)
    requires Parts(tags, t, Symbol('='), token, p)
    ensures NoneBetween("=", t, p.value, p.after) && (p.value < p.after ==> !IsSpace(t[p.after - 1]))
    ensures BlankBetween(t, p.after, p.mark) && p.mark < |t| && t[p.mark] == '=' && p.mark + 1 <= p.closing
    ensures LiteralAt(tags.close, t, p.closing) && token.end == p.closing + |tags.close|
  {
    EqualsTail(tags.close, t, p.value);
  }

  lemma {:induction false} EqualsSpelled(tags: Tags, t: string, token: Token, p: Layout)
    requires Parts(tags, t, Symbol('='), token, p) && HasSymbol(t, p.symbol) && t[p.symbol] == '='
    ensures ValueOk(t, token, p) && TailOk(tags, t, token, p)
  {
    EqualsParts(tags, t, token, p);
    ValueSpelled(t, token, p);
  }

  lemma {:induction false} BraceParts(tags: Tags, t: string, token: Token, p: Layout)
    requires Parts(tags, t, Symbol('{'), token, p)
    ensures NoneBetween("}" + tags.close, t, p.value, p.after) && (p.value < p.after ==> !IsSpace(t[p.after - 1]))
    ensures BlankBetween(t, p.after, p.mark) && p.mark < |t| && t[p.mark] == '}' && BlankBetween(t, p.mark + 1, p.closing)
    ensures LiteralAt(tags.close, t, p.closing) && token.end == p.closing + |tags.close|
  {
    var q := BracePartsAt(tags.close, t, p.value, p.after, token.end);
    assert p.mark == q;
  }

  lemma {:induction false} BracePartsAt(close: string, t: string, a: nat, b: nat, e: nat) returns (q: nat)
    requires a <= |t| && b == Until(Spaced("}" + close), t, a)
    requires var c := Until(Spaced(close), t, Past(Spaced("}"), t, b)); e == Past(Spaced(close), t, c) && e > c
    ensures NoneBetween("}" + close, t, a, b) && (a < b ==> !IsSpace(t[b - 1]))
    ensures q + 1 == Past(Spaced("}"), t, b) && BlankBetween(t, b, q) && q < |t| && t[q] == '}'
    ensures e >= |close| && BlankBetween(t, q + 1, e - |close|) && LiteralAt(close, t, e - |close|)
  {
    BraceTail(close, t, a);
    q := Past(Spaced("}"), t, b) - 1;
  }

  lemma {:induction false} BraceSpelled(tags: Tags, t: string, token: Token, p: Layout)
    requires Parts(tags, t, Symbol('{'), token, p) && HasSymbol(t, p.symbol) && t[p.symbol] == '{'
    ensures ValueOk(t, token, p) && TailOk(tags, t, token, p)
  {
    BraceParts(tags, t, token, p);
    ValueSpelled(t, token, p);
  }

  lemma {:induction false} PlainSpelled(tags: Tags, t: string, kind: Kind, token: Token, p: Layout)
    requires Parts(tags, t, kind, token, p) && kind != Symbol('=') && kind != Symbol('{')
    requires !(HasSymbol(t, p.symbol) && (t[p.symbol] == '=' || t[p.symbol] == '{'))
    ensures ValueOk(t, token, p) && TailOk(tags, t, token, p)
  {
    PlainTail(tags.close, t, p.value);
    ValueSpelled(t, token, p);
  }

  lemma {:induction false} TailSpelled(tags: Tags, t: string, o: nat, token: Token, p: Layout)
    requires o <= |t| && Parts(tags, t, TagKind(t, o), token, p) && p.symbol == o
    ensures ValueOk(t, token, p) && TailOk(tags, t, token, p)
  {
    SymbolIs(t, o);
    if TagKind(t, o) == Symbol('=') {
      EqualsSpelled(tags, t, token, p);
    } else if TagKind(t, o) == Symbol('{') {
      BraceSpelled(tags, t, token, p);
    } else {
      PlainSpelled(tags, t, TagKind(t, o), token, p);
    }
  }

  // A tag that is read is spelled out there.
  lemma {:induction false} ReadIsSpelled(tags: Tags, t: string, k: nat)
    requires k <= |t| && Past(Opening(tags.open), t, k) > k
    requires ReadTag(tags, t, Past(Opening(tags.open), t, k)).Tag?
    ensures var o := Past(Opening(tags.open), t, k);
            var r := ReadTag(tags, t, o);
            TagSpelled(tags, t, Token(r.kind, r.value, k, r.end), LayoutOf(tags, t, o))
  {
    var o := Past(Opening(tags.open), t, k);
    var r := ReadTag(tags, t, o);
    var token := Token(r.kind, r.value, k, r.end);
    HeadSpelled(tags, t, token, LayoutOf(tags, t, o));
    ReadParts(tags, t, o, token);
    TailSpelled(tags, t, o, token, LayoutOf(tags, t, o));
  }

  // The delimiters in force after the first n tokens.
  function Following(tags: Tags, k: Token): Tags {
    var next := NextTags(tags, k.kind, k.value);
    if next.Some? then next.value else tags
  }

  function InForce(tags: Tags, ts: seq<Token>, n: nat): Tags
    requires n <= |ts|
  {
    if n == 0 then tags else Following(InForce(tags, ts, n - 1), ts[n - 1])
  }

  lemma {:induction false} InForceConcat(tags: Tags, a: seq<Token>, b: seq<Token>, n: nat)
    requires n <= |a + b|
    ensures InForce(tags, a + b, n) ==
            if n <= |a| then InForce(tags, a, n) else InForce(InForce(tags, a, |a|), b, n - |a|)
  {
    if n > 0 {
      InForceConcat(tags, a, b, n - 1);
    }
  }

  // A tag is spelled out; a text character starts no tag.
  ghost predicate Says(tags: Tags, t: string, k: Token) {
    if k.kind == Text then !LiteralAt(tags.open, t, k.start) else exists p :: TagSpelled(tags, t, k, p)
  }

  ghost predicate AllSay(tags: Tags, t: string, ts: seq<Token>) {
    forall i: nat | i < |ts| :: Says(InForce(tags, ts, i), t, ts[i])
  }

  lemma {:induction false} AllSayConcat(tags: Tags, t: string, a: seq<Token>, b: seq<Token>)
    requires AllSay(tags, t, a) && AllSay(InForce(tags, a, |a|), t, b)
    ensures AllSay(tags, t, a + b)
  {
    forall i: nat | i < |a + b| ensures Says(InForce(tags, a + b, i), t, (a + b)[i]) {
      InForceConcat(tags, a, b, i);
      if i < |a| {
        assert Says(InForce(tags, a, i), t, a[i]);
      } else {
        assert Says(InForce(InForce(tags, a, |a|), b, i - |a|), t, b[i - |a|]);
      }
    }
  }

  lemma {:induction false} LettersAre(t: string, a: nat, b: nat)
    requires a <= b <= |t|
    ensures |Letters(t, a, b)| == b - a
    ensures forall i | 0 <= i < b - a :: Letters(t, a, b)[i] == Token(Text, [t[a + i]], a + i, a + i + 1)
    decreases b - a
  {
    if a < b {
      LettersAre(t, a, b - 1);
    }
  }

  // Text does not change the delimiters.
  lemma {:induction false} TextKeeps(tags: Tags, ts: seq<Token>, n: nat)
    requires n <= |ts| && forall i | 0 <= i < |ts| :: ts[i].kind == Text
    ensures InForce(tags, ts, n) == tags
  {
    if n > 0 {
      TextKeeps(tags, ts, n - 1);
    }
  }

  lemma {:induction false} LettersSay(tags: Tags, t: string, a: nat, b: nat)
    requires a <= b <= |t| && NoneBetween(tags.open, t, a, b)
    ensures AllSay(tags, t, Letters(t, a, b)) && InForce(tags, Letters(t, a, b), |Letters(t, a, b)|) == tags
  {
    LettersAre(t, a, b);
    var ts := Letters(t, a, b);
    forall i: nat | i < |ts| ensures Says(InForce(tags, ts, i), t, ts[i]) {
      TextKeeps(tags, ts, i);
    }
    TextKeeps(tags, ts, |ts|);
  }

  lemma {:induction false} OneSays(tags: Tags, t: string, k: Token)
    requires Says(tags, t, k)
    ensures AllSay(tags, t, [k]) && InForce(tags, [k], 1) == Following(tags, k)
  {
    assert InForce(tags, [k], 0) == tags;
  }

  lemma {:induction false} NoOpeningBefore(open: string, t: string, at: nat)
    requires at <= |t|
    ensures NoneBetween(open, t, at, Until(Opening(open), t, at))
  {
    forall i: nat | at <= i < Until(Opening(open), t, at) ensures !LiteralAt(open, t, i) {
      assert MatchAt(Opening(open), t, i).None?;
    }
  }

  // One round: the text up to a tag, and the tag.
  lemma {:induction false} TextSays(tags: Tags, t: string, at: nat)
    requires at <= |t|
    ensures var letters := Letters(t, at, Until(Opening(tags.open), t, at));
            AllSay(tags, t, letters) && InForce(tags, letters, |letters|) == tags
  {
    NoOpeningBefore(tags.open, t, at);
    LettersSay(tags, t, at, Until(Opening(tags.open), t, at));
  }

  lemma {:induction false} TagSays(tags: Tags, t: string, k: nat, letters: seq<Token>, token: Token)
    requires k <= |t| && Past(Opening(tags.open), t, k) > k
    requires AllSay(tags, t, letters) && InForce(tags, letters, |letters|) == tags
    requires var r := ReadTag(tags, t, Past(Opening(tags.open), t, k));
             r.Tag? && token == Token(r.kind, r.value, k, r.end)
    ensures AllSay(tags, t, letters + [token])
    ensures InForce(tags, letters + [token], |letters| + 1) == Following(tags, token)
  {
    ReadIsSpelled(tags, t, k);
    assert Says(tags, t, token);
    OneSays(tags, t, token);
    AllSayConcat(tags, t, letters, [token]);
    InForceConcat(tags, letters, [token], |letters| + 1);
  }

  lemma {:induction false} LexSays(tags: Tags, t: string, at: nat, sections: seq<Token>)
    requires at <= |t| && Lex(tags, t, at, sections).Ok?
    ensures AllSay(tags, t, Lex(tags, t, at, sections).tokens)
    decreases |t| - at
  {
    var re := Opening(tags.open);
    var k := Until(re, t, at);
    var letters := Letters(t, at, k);
    TextSays(tags, t, at);
    if Past(re, t, k) == k {
      assert letters + [] == letters;
    } else {
      var tag := ReadTag(tags, t, Past(re, t, k));
      var token := Token(tag.kind, tag.value, k, tag.end);
      TagSays(tags, t, k, letters, token);
      var tags', sections' := NextTags(tags, tag.kind, tag.value).value, Check(sections, token).sections;
      LexSays(tags', t, tag.end, sections');
      AllSayConcat(tags, t, letters + [token], Lex(tags', t, tag.end, sections').tokens);
    }
  }

  // Every tag token of a template stands for a tag that is spelled out there, with the delimiters
  // in force: opening, symbol, value and closing, the kind being the symbol and the value without
  // spaces around it; and no text character starts a tag.
  lemma {:induction false} TokensSay(template: string, argument: TagsArgument)
    requires Tokenize(template, argument).Ok? && Compile(argument).Some?
    ensures AllSay(Compile(argument).value, template, Tokenize(template, argument).tokens)
  {
    if template != [] {
      LexSays(Compile(argument).value, template, 0, []);
    }
  }

  // So a tag is a name or has one of the symbols, '{' having become '&'.
  lemma {:induction false} KindsKnown(tags: Tags, t: string, ts: seq<Token>)
    requires AllSay(tags, t, ts)
    ensures forall i | 0 <= i < |ts| :: Known(ts[i])
  {
    forall i: nat | i < |ts| ensures Known(ts[i]) {
      assert Says(InForce(tags, ts, i), t, ts[i]);
    }
  }

  /* ---------- set-delimiter tags ---------- */

  ghost predicate Solid(s: string) {
    forall i | 0 <= i < |s| :: !IsSpace(s[i])
  }

  ghost predicate Blank(s: string) {
    forall i | 0 <= i < |s| :: IsSpace(s[i])
  }

  lemma {:induction false} WordEnds(t: string, a: nat, b: nat)
    requires a <= b <= |t| && (forall i | a <= i < b :: !IsSpace(t[i])) && (b < |t| ==> IsSpace(t[b]))
    ensures SkipWord(t, a) == b
  {
  }

  lemma {:induction false} BlankEnds(t: string, a: nat, b: nat)
    requires BlankBetween(t, a, b) && (b < |t| ==> !IsSpace(t[b]))
    ensures SkipSpaces(t, a) == b
  {
  }

  // The first two words of the value are the new delimiters, whatever follows them; the second
  // one may be empty, if the text ends in spaces.
  lemma {:induction false} TwoWords(open: string, between: string, close: string, rest: string)
    requires Solid(open) && Blank(between) && between != [] && Solid(close) && (rest == [] || (close != [] && IsSpace(rest[0])))
    ensures Compile(Spelled(open + between + close + rest)) == Some(Tags(open, close))
  {
    var t := open + between + close + rest;
    var a, b, c := |open|, |open| + |between|, |open| + |between| + |close|;
    WordEnds(t, 0, a);
    BlankEnds(t, a, b);
    WordEnds(t, b, c);
    assert t[..a] == open && t[b..c] == close;
  }

  lemma {:induction false} OneWord(open: string)
    requires Solid(open)
    ensures Compile(Spelled(open)).None?
  {
    WordEnds(open, 0, |open|);
  }

  /* ---------- errors ---------- */

  // Why a scan fails with `e` at the position p, with these sections open and delimiters in force:
  // an opening without a closing, a tag that does not fit, or the end with a section open.
  ghost predicate Explains(tags: Tags, t: string, p: nat, sections: seq<Token>, e: Error) {
    match e
    case UnclosedTag(at) =>
      p < |t| && LiteralAt(tags.open, t, p) && (tags.close != [] ==> at == |t| && exists l :: NoTail(tags, t, p, l))
    case UnopenedSection(name, at) =>
      at == p && sections == [] && exists k :: IsTagAt(tags, t, k, p) && k.IsClose() && k.value == name
    case UnclosedSection(name, at) =>
      && at == p && sections != [] && sections[|sections| - 1].value == name
      && (p == |t| || exists k :: IsTagAt(tags, t, k, p) && k.IsClose() && k.value != name)
    case InvalidTags =>
      exists k :: IsTagAt(tags, t, k, p) && k.kind == Symbol('=') && Solid(k.value)
  }

  // There is the opening of a tag at k, but what has to follow its value does not follow.
  ghost predicate NoTail(tags: Tags, t: string, k: nat, p: Layout) {
    && LiteralAt(tags.open, t, k) && BlankBetween(t, k + |tags.open|, p.symbol)
    && BlankBetween(t, if HasSymbol(t, p.symbol) then p.symbol + 1 else p.symbol, p.value)
    && if HasSymbol(t, p.symbol) && t[p.symbol] == '=' then
         || NoneBetween("=", t, p.value, |t|)
         || (p.value <= p.mark < |t| && t[p.mark] == '=' && NoneBetween(tags.close, t, p.mark + 1, |t|))
       else if HasSymbol(t, p.symbol) && t[p.symbol] == '{' then NoneBetween("}" + tags.close, t, p.value, |t|)
       else NoneBetween(tags.close, t, p.value, |t|)
  }

  // Without a match the scanner ends up at the end of the template.
  lemma {:induction false} NoMatchNoLiteral(what: string, t: string, a: nat)
    requires a <= |t| && what != [] && Past(Spaced(what), t, Until(Spaced(what), t, a)) == Until(Spaced(what), t, a)
    ensures Until(Spaced(what), t, a) == |t| && NoneBetween(what, t, a, |t|)
  {
    ValueEnds(what, t, a);
    SpacesThenIs(what, t, Until(Spaced(what), t, a));
  }

  lemma {:induction false} PlainUnclosed(tags: Tags, t: string, p: Layout, kind: Kind)
    requires p.value <= |t| && tags.close != [] && kind != Symbol('=') && kind != Symbol('{')
    requires var c := ClosingStart(tags, kind, t, ValueEnd(tags, kind, t, p.value)); Past(Spaced(tags.close), t, c) == c
    ensures NoneBetween(tags.close, t, p.value, |t|) && ClosingStart(tags, kind, t, ValueEnd(tags, kind, t, p.value)) == |t|
  {
    NoMatchNoLiteral(tags.close, t, p.value);
  }

  lemma {:induction false} EqualsUnclosed(tags: Tags, t: string, p: Layout)
    requires p.value <= |t| && tags.close != []
    requires p.mark == MarkOf(Symbol('='), t, ValueEnd(tags, Symbol('='), t, p.value))
    requires var c := ClosingStart(tags, Symbol('='), t, ValueEnd(tags, Symbol('='), t, p.value)); Past(Spaced(tags.close), t, c) == c
    ensures ClosingStart(tags, Symbol('='), t, ValueEnd(tags, Symbol('='), t, p.value)) == |t|
    ensures NoneBetween("=", t, p.value, |t|) ||
            (p.value <= p.mark < |t| && t[p.mark] == '=' && NoneBetween(tags.close, t, p.mark + 1, |t|))
  {
    var b := Until(Spaced("="), t, p.value);
    NoMatchNoLiteral(tags.close, t, Past(Spaced("="), t, b));
    if Search(Spaced("="), t, p.value).Some? {
      SpacesThenIs("=", t, b);
      assert LiteralAt("=", t, p.mark) && t[p.mark] == t[p.mark..p.mark + 1][0];
    } else {
      ValueEnds("=", t, p.value);
    }
  }

  lemma {:induction false} BraceUnclosed(tags: Tags, t: string, p: Layout)
    requires p.value <= |t| && tags.close != []
    requires var c := ClosingStart(tags, Symbol('{'), t, ValueEnd(tags, Symbol('{'), t, p.value)); Past(Spaced(tags.close), t, c) == c
    ensures ClosingStart(tags, Symbol('{'), t, ValueEnd(tags, Symbol('{'), t, p.value)) == |t|
    ensures NoneBetween("}" + tags.close, t, p.value, |t|)
  {
    var curly := "}" + tags.close;
    var b := Until(Spaced(curly), t, p.value);
    var d := Past(Spaced("}"), t, b);
    NoMatchNoLiteral(tags.close, t, d);
    ValueEnds(curly, t, p.value);
    if Search(Spaced(curly), t, p.value).Some? {
      BraceMark(tags.close, t, b);
      assert false;
    }
  }

  // A tag is unclosed only if what has to follow its value really does not follow.
  lemma {:induction false} UnclosedMeans(tags: Tags, t: string, k: nat)
    requires k <= |t| && Past(Opening(tags.open), t, k) > k && tags.close != []
    requires ReadTag(tags, t, Past(Opening(tags.open), t, k)).Unclosed?
    ensures var o := Past(Opening(tags.open), t, k);
            ReadTag(tags, t, o).at == |t| && NoTail(tags, t, k, LayoutOf(tags, t, o))
  {
    var o := Past(Opening(tags.open), t, k);
    var p := LayoutOf(tags, t, o);
    SkipIsBlank(t, k + |tags.open|);
    SymbolIs(t, o);
    SkipIsBlank(t, if HasSymbol(t, o) then o + 1 else o);
    if TagKind(t, o) == Symbol('=') {
      EqualsUnclosed(tags, t, p);
    } else if TagKind(t, o) == Symbol('{') {
      BraceUnclosed(tags, t, p);
    } else {
      PlainUnclosed(tags, t, p, TagKind(t, o));
    }
  }

  ghost predicate IsTagAt(tags: Tags, t: string, k: Token, p: nat) {
    k.start == p && k.kind != Text && Says(tags, t, k)
  }

  lemma {:induction false} NotTwoWords(value: string)
    requires Compile(Spelled(value)).None?
    ensures Solid(value)
  {
  }

  lemma {:induction false} TagFails(tags: Tags, t: string, k: nat, sections: seq<Token>)
    requires k <= |t| && Past(Opening(tags.open), t, k) > k && tags.open != []
    ensures var r := ReadTag(tags, t, Past(Opening(tags.open), t, k));
            if r.Unclosed? then Explains(tags, t, k, sections, UnclosedTag(r.at))
            else
              var token := Token(r.kind, r.value, k, r.end);
              && IsTagAt(tags, t, token, k)
              && (Check(sections, token).Failed? ==> Explains(tags, t, k, sections, Check(sections, token).error))
              && (NextTags(tags, r.kind, r.value).None? ==> Explains(tags, t, k, sections, InvalidTags))
  {
    var r := ReadTag(tags, t, Past(Opening(tags.open), t, k));
    if r.Unclosed? {
      if tags.close != [] {
        UnclosedMeans(tags, t, k);
      }
    } else {
      var token := Token(r.kind, r.value, k, r.end);
      ReadIsSpelled(tags, t, k);
      assert IsTagAt(tags, t, token, k);
      if NextTags(tags, r.kind, r.value).None? {
        NotTwoWords(r.value);
      }
    }
  }

  // After `before` some tokens have been read, spelled out as above, up to a place that explains
  // the error.
  ghost predicate FailsAt(tags: Tags, t: string, before: seq<Token>, at: nat, ts: seq<Token>, p: nat, left: seq<Token>, e: Error) {
    && Tiles(t, ts, at, p) && p <= |t| && AllSay(tags, t, ts) && Stack(before + ts) == Some(left)
    && Explains(InForce(tags, ts, |ts|), t, p, left, e)
  }

  lemma {:induction false} FailsLater(
    tags: Tags, t: string, before: seq<Token>, a: nat, b: nat, round: seq<Token>,
    more: seq<Token>, p: nat, left: seq<Token>, e: Error)
    requires Tiles(t, round, a, b) && AllSay(tags, t, round)
    requires FailsAt(InForce(tags, round, |round|), t, before + round, b, more, p, left, e)
    ensures FailsAt(tags, t, before, a, round + more, p, left, e)
  {
    TilesConcat(t, round, more, a, b, p);
    AllSayConcat(tags, t, round, more);
    InForceConcat(tags, round, more, |round + more|);
    Concat3(before, round, more);
  }

  // One round that goes on.
  lemma {:induction false} RoundReads(tags: Tags, t: string, at: nat, sections: seq<Token>, before: seq<Token>, token: Token)
    requires at <= |t| && tags.open != [] && Stack(before) == Some(sections)
    requires var k := Until(Opening(tags.open), t, at);
             var o := Past(Opening(tags.open), t, k);
             && o > k && ReadTag(tags, t, o).Tag?
             && token == Token(ReadTag(tags, t, o).kind, ReadTag(tags, t, o).value, k, ReadTag(tags, t, o).end)
    ensures var round := Letters(t, at, Until(Opening(tags.open), t, at)) + [token];
            && Tiles(t, round, at, token.end) && AllSay(tags, t, round) && InForce(tags, round, |round|) == Following(tags, token)
            && Stack(before + round) == Advance(Some(sections), token)
  {
    var k := Until(Opening(tags.open), t, at);
    var letters := Letters(t, at, k);
    LettersTile(t, at, k);
    TextSays(tags, t, at);
    StackLetters(before, t, at, k);
    TagSays(tags, t, k, letters, token);
    TilesConcat(t, letters, [token], at, k, token.end);
    StackSnoc(before + letters, token);
    Concat3(before, letters, [token]);
  }

  // The error of a scan that fails in its first round.
  lemma {:induction false} FailsNow(tags: Tags, t: string, at: nat, sections: seq<Token>, before: seq<Token>, e: Error)
    requires at <= |t| && Stack(before) == Some(sections)
    requires Explains(tags, t, Until(Opening(tags.open), t, at), sections, e)
    ensures var k := Until(Opening(tags.open), t, at); FailsAt(tags, t, before, at, Letters(t, at, k), k, sections, e)
  {
    var k := Until(Opening(tags.open), t, at);
    LettersTile(t, at, k);
    TextSays(tags, t, at);
    StackLetters(before, t, at, k);
  }

  lemma {:induction false} LexFails(tags: Tags, t: string, at: nat, sections: seq<Token>, before: seq<Token>)
      returns (ts: seq<Token>, p: nat, left: seq<Token>)
    requires at <= |t| && tags.open != [] && Stack(before) == Some(sections) && Lex(tags, t, at, sections).Err?
    ensures FailsAt(tags, t, before, at, ts, p, left, Lex(tags, t, at, sections).error)
    decreases |t| - at
  {
    var re := Opening(tags.open);
    var k := Until(re, t, at);
    var o := Past(re, t, k);
    BreaksAtEnd(tags, t, at);
    if o > k {
      TagFails(tags, t, k, sections);
    }
    ts, p, left := Letters(t, at, k), k, sections;
    if o > k && ReadTag(tags, t, o).Tag? {
      var tag := ReadTag(tags, t, o);
      var token := Token(tag.kind, tag.value, k, tag.end);
      var checked, next := Check(sections, token), NextTags(tags, tag.kind, tag.value);
      if checked.Open? && next.Some? {
        RoundReads(tags, t, at, sections, before, token);
        NextTagsNotEmpty(tags, t, o);
        ts, p, left := LexFails(next.value, t, tag.end, checked.sections, before + (Letters(t, at, k) + [token]));
        FailsLater(tags, t, before, at, tag.end, Letters(t, at, k) + [token], ts, p, left, Lex(tags, t, at, sections).error);
        ts := Letters(t, at, k) + [token] + ts;
        return;
      }
    }
    FailsNow(tags, t, at, sections, before, Lex(tags, t, at, sections).error);
  }

  // Every error of a template has its place: up to there its tokens tile it and are spelled out,
  // and there is what the error says.
  lemma {:induction false} ErrorsHavePlaces(template: string, argument: TagsArgument) returns (ts: seq<Token>, p: nat, left: seq<Token>)
    requires Tokenize(template, argument).Err? && Compile(argument).Some? && Compile(argument).value.open != []
    ensures FailsAt(Compile(argument).value, template, [], 0, ts, p, left, Tokenize(template, argument).error)
  {
    ts, p, left := LexFails(Compile(argument).value, template, 0, [], []);
  }
}
