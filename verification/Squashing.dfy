/** mustache's squashTokens: runs of text tokens become one, deleted tokens are skipped. */
module Squashing {
  import opened Wrappers
  import opened Sequences
  import opened Template
  import opened Standalone

  // The tokens that have not been deleted.
  function Present(tokens: seq<Option<Token>>): seq<Token> {
    if tokens == [] then []
    else Present(tokens[..|tokens| - 1]) + (if tokens[|tokens| - 1].None? then [] else [tokens[|tokens| - 1].value])
  }

  predicate EndsInText(ts: seq<Token>) {
    ts != [] && ts[|ts| - 1].kind == Text
  }

  function Joined(a: Token, b: Token): Token {
    a.(value := a.value + b.value, end := b.end)
  }

  function Merge(out: seq<Token>, t: Token): seq<Token> {
    if t.kind == Text && EndsInText(out) then out[..|out| - 1] + [Joined(out[|out| - 1], t)] else out + [t]
  }

  function Squash(ts: seq<Token>): seq<Token> {
    if ts == [] then [] else Merge(Squash(ts[..|ts| - 1]), ts[|ts| - 1])
  }

  lemma {:induction false} SquashSnoc(ts: seq<Token>, t: Token)
    ensures Squash(ts + [t]) == Merge(Squash(ts), t)
  {
    assert (ts + [t])[..|ts|] == ts;
  }

  lemma {:induction false} PresentSnoc(tokens: seq<Option<Token>>, t: Option<Token>)
    ensures Present(tokens + [t]) == if t.None? then Present(tokens) else Present(tokens) + [t.value]
  {
    assert (tokens + [t])[..|tokens|] == tokens;
    assert t.None? ==> Present(tokens) + [] == Present(tokens);
  }

  lemma {:induction false} SquashNext(tokens: seq<Option<Token>>, i: nat)
    requires i < |tokens|
    ensures var out := Squash(Present(tokens[..i]));
            Squash(Present(tokens[..i + 1])) == if tokens[i].None? then out else Merge(out, tokens[i].value)
  {
    assert tokens[..i + 1] == tokens[..i] + [tokens[i]];
    PresentSnoc(tokens[..i], tokens[i]);
    if tokens[i].Some? {
      SquashSnoc(Present(tokens[..i]), tokens[i].value);
    }
  }

  lemma {:induction false} UpdateLast<T>(s: seq<T>, x: T)
    requires s != []
    ensures s[|s| - 1 := x] == s[..|s| - 1] + [x]
  {
  }

  method SquashTokens(tokens: seq<Option<Token>>) returns (squashed: seq<Token>)
    ensures squashed == Squash(Present(tokens))
  {
    squashed := [];
    WholeSlice(tokens);
    for i := 0 to |tokens|
      invariant squashed == Squash(Present(tokens[..i]))
    {
      SquashNext(tokens, i);
      if tokens[i].Some? {
        squashed := MergeToken(squashed, tokens[i].value);
      }
    }
  }

  lemma {:induction false} WholeSlice<T>(s: seq<T>)
    ensures s[..0] == [] && s[..|s|] == s
  {
  }

  // The last token takes in a further text, or the token comes after it.
  method MergeToken(squashed: seq<Token>, token: Token) returns (out: seq<Token>)
    ensures out == Merge(squashed, token)
  {
    if token.kind == Text && squashed != [] && squashed[|squashed| - 1].kind == Text {
      var last := squashed[|squashed| - 1];
      last := last.(value := last.value + token.value, end := token.end);
      UpdateLast(squashed, last);
      out := squashed[|squashed| - 1 := last];
    } else {
      out := squashed + [token];
    }
  }

  /* ---------- what squashing keeps ---------- */

  ghost predicate NoAdjacentText(ts: seq<Token>) {
    forall i | 0 <= i < |ts| - 1 :: ts[i].kind != Text || ts[i + 1].kind != Text
  }

  lemma {:induction false} MergeSeparates(out: seq<Token>, t: Token)
    requires NoAdjacentText(out)
    ensures NoAdjacentText(Merge(out, t))
  {
  }

  lemma {:induction false} SquashSeparates(ts: seq<Token>)
    ensures NoAdjacentText(Squash(ts))
  {
    if ts != [] {
      SquashSeparates(ts[..|ts| - 1]);
      MergeSeparates(Squash(ts[..|ts| - 1]), ts[|ts| - 1]);
    }
  }

  // Text character by character, tags as they are.
  datatype Unit = Char(c: char) | Whole(t: Token)

  function Chars(s: string): seq<Unit> {
    if s == [] then [] else Chars(s[..|s| - 1]) + [Char(s[|s| - 1])]
  }

  function UnitsOf(t: Token): seq<Unit> {
    if t.kind == Text then Chars(t.value) else [Whole(t)]
  }

  function Units(ts: seq<Token>): seq<Unit> {
    if ts == [] then [] else Units(ts[..|ts| - 1]) + UnitsOf(ts[|ts| - 1])
  }

  lemma {:induction false} CharsConcat(a: string, b: string)
    ensures Chars(a + b) == Chars(a) + Chars(b)
  {
    if b == [] {
      assert a + b == a;
    } else {
      var front := b[..|b| - 1];
      assert (a + b)[..|a + b| - 1] == a + front;
      CharsConcat(a, front);
    }
  }

  lemma {:induction false} UnitsSnoc(ts: seq<Token>, t: Token)
    ensures Units(ts + [t]) == Units(ts) + UnitsOf(t)
  {
    assert (ts + [t])[..|ts|] == ts;
  }

  lemma {:induction false} MergeUnits(out: seq<Token>, t: Token)
    ensures Units(Merge(out, t)) == Units(out) + UnitsOf(t)
  {
    if t.kind == Text && EndsInText(out) {
      var front, last := out[..|out| - 1], out[|out| - 1];
      UnitsSnoc(front, Joined(last, t));
      CharsConcat(last.value, t.value);
      Concat3(Units(front), Chars(last.value), Chars(t.value));
    } else {
      UnitsSnoc(out, t);
    }
  }

  // The characters between consecutive tags, and the tags, are what they were.
  lemma {:induction false} SquashKeepsUnits(ts: seq<Token>)
    ensures Units(Squash(ts)) == Units(ts)
  {
    if ts != [] {
      SquashKeepsUnits(ts[..|ts| - 1]);
      MergeUnits(Squash(ts[..|ts| - 1]), ts[|ts| - 1]);
    }
  }

  lemma {:induction false} SquashKeepsStack(ts: seq<Token>)
    ensures Stack(Squash(ts)) == Stack(ts)
  {
    if ts != [] {
      SquashKeepsStack(ts[..|ts| - 1]);
      MergeStack(Squash(ts[..|ts| - 1]), ts[|ts| - 1]);
    }
  }

  lemma {:induction false} MergeStack(out: seq<Token>, t: Token)
    ensures Stack(Merge(out, t)) == Advance(Stack(out), t)
  {
    if t.kind == Text && EndsInText(out) {
      var inner, last := out[..|out| - 1], out[|out| - 1];
      AdvanceText(Stack(inner), last);
      StackText(inner, Joined(last, t));
      AdvanceText(Stack(out), t);
    } else {
      StackSnoc(out, t);
    }
  }

  /* ---------- text is what the template says ---------- */

  ghost predicate IsSource(template: string, t: Token) {
    t.start <= t.end <= |template| && (t.kind == Text ==> t.value == template[t.start..t.end])
  }

  // Neighbouring texts touch.
  ghost predicate TouchesAt(ts: seq<Token>, i: nat)
    requires i < |ts|
  {
    i > 0 && ts[i - 1].kind == Text && ts[i].kind == Text ==> ts[i - 1].end == ts[i].start
  }

  ghost predicate Tight(ts: seq<Token>) {
    forall i: nat | i < |ts| :: TouchesAt(ts, i)
  }

  // Only whitespace between a and b.
  ghost predicate BlankBetween(template: string, a: nat, b: nat) {
    a <= b <= |template| && forall k | a <= k < b :: IsSpace(template[k])
  }

  // The i-th token is a stretch of the template after the one before, or after a.
  ghost predicate FitsAt(template: string, ts: seq<Token>, a: nat, i: nat)
    requires i < |ts|
  {
    IsSource(template, ts[i]) && BlankBetween(template, EndBefore(ts, a, i), ts[i].start)
  }

  // From a on: stretches of the template in order, with only whitespace between them.
  ghost predicate CoversFrom(template: string, ts: seq<Token>, a: nat) {
    forall i: nat | i < |ts| :: FitsAt(template, ts, a, i)
  }

  // From a to b.
  ghost predicate Covers(template: string, ts: seq<Token>, a: nat, b: nat) {
    CoversFrom(template, ts, a) && BlankBetween(template, EndBefore(ts, a, |ts|), b)
  }

  lemma {:induction false} CoversPush(template: string, ts: seq<Token>, a: nat, t: Token)
    requires CoversFrom(template, ts, a) && IsSource(template, t) && BlankBetween(template, EndBefore(ts, a, |ts|), t.start)
    ensures CoversFrom(template, ts + [t], a)
  {
    var us := ts + [t];
    forall i: nat | i < |us| ensures FitsAt(template, us, a, i) {
      if i < |ts| {
        assert FitsAt(template, ts, a, i);
      } else {
        assert us[i] == t && EndBefore(us, a, i) == EndBefore(ts, a, |ts|);
      }
    }
  }

  lemma {:induction false} CoversFront(template: string, front: seq<Token>, t: Token, a: nat)
    requires CoversFrom(template, front + [t], a)
    ensures CoversFrom(template, front, a) && IsSource(template, t)
    ensures BlankBetween(template, EndBefore(front, a, |front|), t.start)
  {
    var us := front + [t];
    forall i: nat | i < |front| ensures FitsAt(template, front, a, i) {
      assert FitsAt(template, us, a, i);
    }
    assert FitsAt(template, us, a, |front|);
  }

  // A text that touches the text at the end becomes part of it.
  lemma {:induction false} MergeCovers(template: string, out: seq<Token>, t: Token, a: nat)
    requires CoversFrom(template, out, a) && IsSource(template, t)
    requires BlankBetween(template, EndBefore(out, a, |out|), t.start)
    requires t.kind == Text && EndsInText(out) ==> out[|out| - 1].end == t.start
    ensures CoversFrom(template, Merge(out, t), a)
  {
    if t.kind == Text && EndsInText(out) {
      var front, last := out[..|out| - 1], out[|out| - 1];
      assert out == front + [last];
      CoversFront(template, front, last, a);
      JoinedIsSource(template, last, t);
      CoversPush(template, front, a, Joined(last, t));
    } else {
      CoversPush(template, out, a, t);
    }
  }

  lemma {:induction false} JoinedIsSource(template: string, a: Token, b: Token)
    requires IsSource(template, a) && IsSource(template, b) && a.kind == b.kind == Text && a.end == b.start
    ensures IsSource(template, Joined(a, b))
  {
    assert a.value + b.value == template[a.start..b.end];
  }

  // Squashing keeps the end, and whether it is text.
  lemma {:induction false} SquashKeepsEnd(ts: seq<Token>)
    ensures Squash(ts) == [] <==> ts == []
    ensures ts != [] ==> Squash(ts)[|Squash(ts)| - 1].kind == ts[|ts| - 1].kind && Squash(ts)[|Squash(ts)| - 1].end == ts[|ts| - 1].end
  {
  }

  lemma {:induction false} TightFront(front: seq<Token>, t: Token)
    requires Tight(front + [t])
    ensures Tight(front) && (t.kind == Text && EndsInText(front) ==> front[|front| - 1].end == t.start)
  {
    forall i: nat | i < |front| ensures TouchesAt(front, i) {
      assert TouchesAt(front + [t], i);
    }
    assert TouchesAt(front + [t], |front|);
  }

  lemma {:induction false} SquashCovers(template: string, ts: seq<Token>, a: nat)
    requires CoversFrom(template, ts, a) && Tight(ts)
    ensures CoversFrom(template, Squash(ts), a)
  {
    if ts != [] {
      var front, t := ts[..|ts| - 1], ts[|ts| - 1];
      assert ts == front + [t];
      CoversFront(template, front, t, a);
      TightFront(front, t);
      SquashCovers(template, front, a);
      SquashKeepsEnd(front);
      MergeCovers(template, Squash(front), t, a);
    }
  }

  /* ---------- what stripping keeps ---------- */

  // The first n tokens without those that are gone.
  ghost function Kept(all: seq<Token>, gone: set<nat>, n: nat): seq<Token>
    requires n <= |all|
  {
    if n == 0 then []
    else if n - 1 in gone then Kept(all, gone, n - 1)
    else Kept(all, gone, n - 1) + [all[n - 1]]
  }

  lemma {:induction false} PresentIsKept(all: seq<Token>, gone: set<nat>, tokens: seq<Option<Token>>, n: nat)
    requires |tokens| == |all| && n <= |all|
    requires forall i: nat | i < |all| :: tokens[i] == if i in gone then None else Some(all[i])
    ensures Present(tokens[..n]) == Kept(all, gone, n)
  {
    if n > 0 {
      PresentIsKept(all, gone, tokens, n - 1);
      assert tokens[..n] == tokens[..n - 1] + [tokens[n - 1]];
      PresentSnoc(tokens[..n - 1], tokens[n - 1]);
    }
  }

  // Only whitespace is gone, and none of it from inside a run of text.
  ghost predicate OnlyBlanks(all: seq<Token>, gone: set<nat>) {
    && (forall i | i in gone :: i < |all| && IsBlank(all[i]))
    && forall i: nat, k: nat, j: nat :: HoleHasTag(all, gone, i, k, j)
  }

  // If k is gone from between i and j, which are not, then there is a tag between these.
  ghost predicate HoleHasTag(all: seq<Token>, gone: set<nat>, i: nat, k: nat, j: nat) {
    i < k < j < |all| && i !in gone && k in gone && j !in gone ==> TagBetween(all, i, j + 1)
  }

  lemma {:induction false} KeptStack(all: seq<Token>, gone: set<nat>, n: nat)
    requires n <= |all| && OnlyBlanks(all, gone)
    ensures Stack(Kept(all, gone, n)) == Stack(all[..n])
  {
    if n > 0 {
      KeptStack(all, gone, n - 1);
      StackUpTo(all, n);
      if n - 1 in gone {
        AdvanceText(Stack(all[..n - 1]), all[n - 1]);
      } else {
        StackSnoc(Kept(all, gone, n - 1), all[n - 1]);
      }
    }
  }

  // The last of the first n tokens that is kept.
  ghost function LastKept(gone: set<nat>, n: nat): (p: Option<nat>)
    ensures p.Some? ==> p.value < n && p.value !in gone
    ensures forall i: nat | i < n && (p.Some? ==> p.value < i) :: i in gone
  {
    if n == 0 then None else if n - 1 !in gone then Some(n - 1) else LastKept(gone, n - 1)
  }

  lemma {:induction false} LastOfKept(all: seq<Token>, gone: set<nat>, n: nat)
    requires n <= |all|
    ensures if LastKept(gone, n).None? then Kept(all, gone, n) == []
            else Kept(all, gone, n) != [] && Kept(all, gone, n)[|Kept(all, gone, n)| - 1] == all[LastKept(gone, n).value]
  {
    if n > 0 && n - 1 in gone {
      LastOfKept(all, gone, n - 1);
    }
  }

  // Of two texts next to each other after stripping, nothing was stripped between them.
  lemma {:induction false} LastIsBefore(all: seq<Token>, gone: set<nat>, n: nat)
    requires n < |all| && n !in gone && all[n].kind == Text && OnlyBlanks(all, gone)
    requires LastKept(gone, n).Some? && all[LastKept(gone, n).value].kind == Text
    ensures LastKept(gone, n) == Some(n - 1)
  {
    var p := LastKept(gone, n).value;
    forall i: nat | p < i < n ensures !IsTag(all[i]) {
      assert i in gone;
    }
    assert !TagBetween(all, p, n + 1);
    assert HoleHasTag(all, gone, p, p + 1, n);
  }

  lemma {:induction false} NeighboursTouch(template: string, all: seq<Token>, gone: set<nat>, n: nat)
    requires n < |all| && Tiles(template, all, 0, |template|) && n !in gone && OnlyBlanks(all, gone)
    ensures var ts := Kept(all, gone, n); all[n].kind == Text && EndsInText(ts) ==> ts[|ts| - 1].end == all[n].start
  {
    LastOfKept(all, gone, n);
    TileAt(template, all, n);
    if all[n].kind == Text && EndsInText(Kept(all, gone, n)) {
      LastIsBefore(all, gone, n);
    }
  }

  lemma {:induction false} TightPush(ts: seq<Token>, t: Token)
    requires Tight(ts) && (t.kind == Text && EndsInText(ts) ==> ts[|ts| - 1].end == t.start)
    ensures Tight(ts + [t])
  {
    forall i: nat | i < |ts + [t]| ensures TouchesAt(ts + [t], i) {
      if i < |ts| {
        assert TouchesAt(ts, i);
      }
    }
  }

  // Neighbouring texts touch; the tokens cover the template from the start to b.
  ghost predicate GoodUpTo(template: string, ts: seq<Token>, b: nat) {
    Tight(ts) && Covers(template, ts, 0, b)
  }

  lemma {:induction false} GapGrows(template: string, ts: seq<Token>, t: Token)
    requires Placed(template, t) && IsBlank(t) && GoodUpTo(template, ts, t.start)
    ensures GoodUpTo(template, ts, t.end)
  {
  }

  lemma {:induction false} CoverGrows(template: string, ts: seq<Token>, t: Token)
    requires Placed(template, t) && GoodUpTo(template, ts, t.start)
    requires t.kind == Text && EndsInText(ts) ==> ts[|ts| - 1].end == t.start
    ensures GoodUpTo(template, ts + [t], t.end)
  {
    PlacedIsSource(template, t);
    TightPush(ts, t);
    CoversPush(template, ts, 0, t);
  }

  // Stripping leaves gaps of whitespace only, and none inside a text.
  lemma {:induction false} KeptCovers(template: string, all: seq<Token>, gone: set<nat>, n: nat)
    requires n <= |all| && Tiles(template, all, 0, |template|) && OnlyBlanks(all, gone)
    ensures GoodUpTo(template, Kept(all, gone, n), EndBefore(all, 0, n))
  {
    if n > 0 {
      KeptCovers(template, all, gone, n - 1);
      TileAt(template, all, n - 1);
      if n - 1 in gone {
        GapGrows(template, Kept(all, gone, n - 1), all[n - 1]);
      } else {
        NeighboursTouch(template, all, gone, n - 1);
        CoverGrows(template, Kept(all, gone, n - 1), all[n - 1]);
      }
    }
  }

  lemma {:induction false} TileAt(template: string, all: seq<Token>, i: nat)
    requires i < |all| && Tiles(template, all, 0, |template|)
    ensures Placed(template, all[i]) && EndBefore(all, 0, i) == all[i].start && EndBefore(all, 0, i + 1) == all[i].end
  {
    assert EndBefore(all, 0, i) == StartAt(all, |template|, i);
  }

  lemma {:induction false} PlacedIsSource(template: string, t: Token)
    requires Placed(template, t)
    ensures IsSource(template, t)
  {
    if t.kind == Text {
      assert template[t.start..t.end] == [template[t.start]];
    }
  }

  /* ---------- stripped and squashed ---------- */

  ghost function StrippedOf(all: seq<Token>): set<nat> {
    set i: nat | i < |all| && Stripped(all, i)
  }

  lemma {:induction false} StrippedIsBlank(all: seq<Token>)
    ensures OnlyBlanks(all, StrippedOf(all))
  {
    forall i: nat, k: nat, j: nat ensures HoleHasTag(all, StrippedOf(all), i, k, j) {
      if i < k < j < |all| && !Stripped(all, i) && !Stripped(all, j) && !TagBetween(all, i, j + 1) {
        SurvivorsContiguous(all, i, k, j);
      }
    }
  }

  // What the parser nests.
  ghost function Cleaned(all: seq<Token>): seq<Token> {
    Squash(Kept(all, StrippedOf(all), |all|))
  }

  // Every text token holds exactly the template's characters from its start to its end, tokens
  // come in the order of the template, and what is missing between them is whitespace.
  lemma {:induction false} CleanedCovers(template: string, all: seq<Token>)
    requires Tiles(template, all, 0, |template|)
    ensures Covers(template, Cleaned(all), 0, |template|) && NoAdjacentText(Cleaned(all))
  {
    StrippedIsBlank(all);
    KeptCovers(template, all, StrippedOf(all), |all|);
    assert EndBefore(all, 0, |all|) == StartAt(all, |template|, |all|);
    SquashGood(template, Kept(all, StrippedOf(all), |all|), |template|);
    SquashSeparates(Kept(all, StrippedOf(all), |all|));
  }

  lemma {:induction false} SquashGood(template: string, ts: seq<Token>, b: nat)
    requires GoodUpTo(template, ts, b)
    ensures Covers(template, Squash(ts), 0, b)
  {
    SquashCovers(template, ts, 0);
    SquashKeepsEnd(ts);
  }

  lemma {:induction false} CleanedStack(all: seq<Token>)
    ensures Stack(Cleaned(all)) == Stack(all)
  {
    StrippedIsBlank(all);
    KeptStack(all, StrippedOf(all), |all|);
    SquashKeepsStack(Kept(all, StrippedOf(all), |all|));
    assert all[..|all|] == all;
  }
}
