/** mustache's standalone lines: the whitespace of a line that holds a tag and otherwise only
    whitespace is deleted once the line's newline has been read. */
module Standalone {
  import opened Wrappers
  import opened Template

  predicate IsNewline(t: Token) { t.kind == Text && t.value == ['\n'] }
  predicate IsBlank(t: Token) { t.kind == Text && |t.value| == 1 && IsSpace(t.value[0]) }
  predicate IsTag(t: Token) { t.kind != Text }

  // What keeps a line from being standalone: other characters and tags that print something.
  predicate IsSolid(t: Token) { if t.kind == Text then !IsBlank(t) else t.kind == Name || t.kind == Symbol('&') }

  ghost predicate NewlineBetween(ts: seq<Token>, a: nat, b: nat)
    requires b <= |ts|
  {
    exists i :: a <= i < b && IsNewline(ts[i])
  }

  ghost predicate TagBetween(ts: seq<Token>, a: nat, b: nat)
    requires b <= |ts|
  {
    exists i :: a <= i < b && IsTag(ts[i])
  }

  ghost predicate SolidBetween(ts: seq<Token>, a: nat, b: nat)
    requires b <= |ts|
  {
    exists i :: a <= i < b && IsSolid(ts[i])
  }

  // A line starts at b: nothing or a newline is before it.
  ghost predicate LineStarts(ts: seq<Token>, b: nat) {
    b <= |ts| && (b == 0 || IsNewline(ts[b - 1]))
  }

  // The tokens from b to e are a line with its newline.
  ghost predicate Line(ts: seq<Token>, b: nat, e: nat) {
    b <= e < |ts| && LineStarts(ts, b) && IsNewline(ts[e]) && !NewlineBetween(ts, b, e)
  }

  // It holds a tag and otherwise only whitespace.
  ghost predicate Alone(ts: seq<Token>, b: nat, e: nat)
    requires e < |ts|
  {
    TagBetween(ts, b, e + 1) && !SolidBetween(ts, b, e + 1)
  }

  predicate Known(t: Token) {
    t.kind in {Text, Name, Symbol('#'), Symbol('^'), Symbol('/'), Symbol('>'), Symbol('&'), Symbol('='), Symbol('!')}
  }

  // A line is standalone if and only if it holds section, partial, delimiter or comment tags and
  // single whitespace characters only, and at least one of those tags.
  lemma {:induction false} AloneIff(ts: seq<Token>, b: nat, e: nat)
    requires e < |ts| && forall i | b <= i <= e :: Known(ts[i])
    ensures Alone(ts, b, e) <==>
            && (exists i :: b <= i <= e && ts[i].kind != Text)
            && (forall i | b <= i <= e ::
                  if ts[i].kind == Text then |ts[i].value| == 1 && IsSpace(ts[i].value[0])
                  else ts[i].kind in {Symbol('#'), Symbol('^'), Symbol('/'), Symbol('>'), Symbol('='), Symbol('!')})
  {
    if Alone(ts, b, e) {
      var i :| b <= i < e + 1 && IsTag(ts[i]);
      assert b <= i <= e && ts[i].kind != Text;
      assert forall i | b <= i < e + 1 :: !IsSolid(ts[i]);
    } else if i :| b <= i <= e && ts[i].kind != Text {
      assert IsTag(ts[i]);
      var j :| b <= j < e + 1 && IsSolid(ts[j]);
    }
  }

  // The i-th token is whitespace on such a line. The last line of a template has no newline, so
  // it is never stripped.
  ghost predicate Stripped(ts: seq<Token>, i: nat) {
    i < |ts| && IsBlank(ts[i]) && exists b: nat, e: nat :: Line(ts, b, e) && b <= i <= e && Alone(ts, b, e)
  }

  lemma {:induction false} OneLine(ts: seq<Token>, b: nat, e: nat, b': nat, e': nat, i: nat)
    requires Line(ts, b, e) && Line(ts, b', e') && b <= i <= e && b' <= i <= e'
    ensures b == b' && e == e'
  {
    assert IsNewline(ts[e]) && IsNewline(ts[e']);
    assert (b > 0 ==> IsNewline(ts[b - 1])) && (b' > 0 ==> IsNewline(ts[b' - 1]));
  }

  // On a line, exactly the whitespace is stripped, if the line is standalone.
  lemma {:induction false} StrippedOnLine(ts: seq<Token>, b: nat, e: nat, i: nat)
    requires Line(ts, b, e) && b <= i <= e
    ensures Stripped(ts, i) <==> IsBlank(ts[i]) && Alone(ts, b, e)
  {
    if Stripped(ts, i) {
      var b': nat, e': nat :| Line(ts, b', e') && b' <= i <= e' && Alone(ts, b', e');
      OneLine(ts, b, e, b', e', i);
    }
  }

  // Surviving text without a tag in between is contiguous.
  lemma {:induction false} SurvivorsContiguous(ts: seq<Token>, i: nat, k: nat, j: nat)
    requires i < k < j < |ts| && !Stripped(ts, i) && !Stripped(ts, j) && !TagBetween(ts, i, j + 1)
    ensures !Stripped(ts, k)
  {
    assert !IsTag(ts[i]) && !IsTag(ts[j]);
    if Stripped(ts, k) {
      var b: nat, e: nat :| Line(ts, b, e) && b <= k <= e && Alone(ts, b, e);
      var x :| b <= x < e + 1 && IsTag(ts[x]);
      if x < i {
        TextOnLine(ts, b, e, i);
        assert false;
      } else if x > j {
        TextOnLine(ts, b, e, j);
        assert false;
      } else {
        assert false;
      }
    }
  }

  // On a standalone line everything but the tags is stripped.
  lemma {:induction false} TextOnLine(ts: seq<Token>, b: nat, e: nat, i: nat)
    requires Line(ts, b, e) && Alone(ts, b, e) && b <= i <= e && !IsTag(ts[i])
    ensures Stripped(ts, i)
  {
    assert !IsSolid(ts[i]);
  }

  /* ---------- the tokens while the template is scanned ---------- */

  // Stripped up to b; everything from b on still there.
  ghost predicate Pending(all: seq<Token>, tokens: seq<Option<Token>>, b: nat) {
    && |tokens| == |all|
    && forall i: nat | i < |all| :: tokens[i] == if i < b && Stripped(all, i) then None else Some(all[i])
  }

  // What is known about the tokens from b on.
  ghost predicate Collected(all: seq<Token>, spaces: seq<nat>, hasTag: bool, nonSpace: bool, b: nat) {
    && (hasTag <==> TagBetween(all, b, |all|))
    && (nonSpace <==> SolidBetween(all, b, |all|))
    && (forall i: nat :: i in spaces <==> b <= i < |all| && IsBlank(all[i]))
  }

  lemma {:induction false} BetweenPush(all: seq<Token>, t: Token, b: nat)
    requires b <= |all|
    ensures TagBetween(all + [t], b, |all| + 1) <==> TagBetween(all, b, |all|) || IsTag(t)
    ensures SolidBetween(all + [t], b, |all| + 1) <==> SolidBetween(all, b, |all|) || IsSolid(t)
  {
    var ts := all + [t];
    assert ts[|all|] == t;
    if i :| b <= i < |all| && IsTag(all[i]) {
      assert IsTag(ts[i]);
    }
    if i :| b <= i < |all| && IsSolid(all[i]) {
      assert IsSolid(ts[i]);
    }
  }

  lemma {:induction false} CollectedPush(all: seq<Token>, t: Token, spaces: seq<nat>, hasTag: bool, nonSpace: bool, b: nat)
    requires b <= |all| && Collected(all, spaces, hasTag, nonSpace, b)
    ensures Collected(all + [t], if IsBlank(t) then spaces + [|all|] else spaces, hasTag || IsTag(t), nonSpace || IsSolid(t), b)
  {
    BetweenPush(all, t, b);
  }

  // A further token changes nothing for the lines before the current one.
  lemma {:induction false} StrippedPush(all: seq<Token>, t: Token, b: nat, i: nat)
    requires LineStarts(all, b) && i < b
    ensures Stripped(all + [t], i) <==> Stripped(all, i)
  {
    var ts := all + [t];
    assert IsNewline(ts[b - 1]);
    if Stripped(ts, i) {
      var x: nat, e: nat :| Line(ts, x, e) && x <= i <= e && Alone(ts, x, e);
      SameLine(all, t, x, e);
    }
    if Stripped(all, i) {
      var x: nat, e: nat :| Line(all, x, e) && x <= i <= e && Alone(all, x, e);
      SameLine(all, t, x, e);
    }
  }

  lemma {:induction false} SameLine(all: seq<Token>, t: Token, x: nat, e: nat)
    requires x <= e < |all|
    ensures Line(all + [t], x, e) <==> Line(all, x, e)
    ensures Alone(all + [t], x, e) <==> Alone(all, x, e)
  {
    SameBetween(all, t, x, e);
    SameBetween(all, t, x, e + 1);
  }

  lemma {:induction false} SameBetween(all: seq<Token>, t: Token, x: nat, e: nat)
    requires e <= |all|
    ensures NewlineBetween(all + [t], x, e) <==> NewlineBetween(all, x, e)
    ensures TagBetween(all + [t], x, e) <==> TagBetween(all, x, e)
    ensures SolidBetween(all + [t], x, e) <==> SolidBetween(all, x, e)
  {
    var ts := all + [t];
    assert forall i | 0 <= i < e :: ts[i] == all[i];
  }

  lemma {:induction false} PendingPush(all: seq<Token>, t: Token, tokens: seq<Option<Token>>, b: nat)
    requires LineStarts(all, b) && Pending(all, tokens, b)
    ensures Pending(all + [t], tokens + [Some(t)], b)
  {
    forall i: nat | i < b ensures Stripped(all + [t], i) <==> Stripped(all, i) {
      StrippedPush(all, t, b, i);
    }
  }

  // At the end of the template nothing from the current line on is stripped.
  lemma {:induction false} LastLineStays(all: seq<Token>, b: nat, i: nat)
    requires LineStarts(all, b) && !NewlineBetween(all, b, |all|) && b <= i
    ensures !Stripped(all, i)
  {
  }

  /** The parser's `tokens`, `spaces`, `hasTag` and `nonSpace`. */
  class Buffer {
    var tokens: seq<Option<Token>>   // None where a token has been deleted
    var spaces: seq<nat>
    var hasTag: bool
    var nonSpace: bool
    ghost var all: seq<Token>        // every token ever pushed
    ghost var line: nat              // where the current line starts

    constructor ()
      ensures Valid() && all == []
    {
      tokens, spaces, hasTag, nonSpace := [], [], false, false;
      all, line := [], 0;
    }

    ghost predicate Valid()
      reads this
    {
      && LineStarts(all, line) && !NewlineBetween(all, line, |all|)
      && Pending(all, tokens, line) && Collected(all, spaces, hasTag, nonSpace, line)
    }

    method PushLetter(chr: char, start: nat)
      requires Valid()
      modifies this
      ensures Valid() && all == old(all) + [Token(Text, [chr], start, start + 1)]
    {
      var token := Token(Text, [chr], start, start + 1);
      CollectedPush(all, token, spaces, hasTag, nonSpace, line);
      PendingPush(all, token, tokens, line);
      LetterEnds(all, token, line);
      if IsSpace(chr) {
        spaces := spaces + [|tokens|];
      } else {
        nonSpace := true;
      }
      tokens := tokens + [Some(token)];
      all := all + [token];
      if chr == '\n' {
        StripSpace();
      }
    }

    method PushTag(token: Token)
      requires Valid() && token.kind != Text
      modifies this
      ensures Valid() && all == old(all) + [token]
    {
      CollectedPush(all, token, spaces, hasTag, nonSpace, line);
      PendingPush(all, token, tokens, line);
      LetterEnds(all, token, line);
      hasTag := true;
      tokens := tokens + [Some(token)];
      if token.kind == Name || token.kind == Symbol('&') {
        nonSpace := true;
      }
      all := all + [token];
    }

    // At the newline of the current line.
    method StripSpace()
      requires all != [] && Line(all, line, |all| - 1)
      requires Pending(all, tokens, line) && Collected(all, spaces, hasTag, nonSpace, line)
      modifies this
      ensures Valid() && all == old(all) && line == |all|
    {
      ghost var before, listed := tokens, spaces;
      SpacesInside(all, spaces, hasTag, nonSpace, line);
      if hasTag && !nonSpace {
        DeleteSpaces();
      } else {
        spaces := [];
      }
      StripDone(all, before, tokens, listed, old(hasTag), old(nonSpace), line);
      hasTag := false;
      nonSpace := false;
      line := |all|;
    }

    method DeleteSpaces()
      requires forall i | i in spaces :: i < |tokens|
      modifies this`tokens, this`spaces
      ensures spaces == [] && |tokens| == |old(tokens)|
      ensures forall i | 0 <= i < |tokens| :: tokens[i] == if i in old(spaces) then None else old(tokens)[i]
    {
      while spaces != []
        invariant |tokens| == |old(tokens)| && forall i | i in spaces :: i in old(spaces)
        invariant forall i | 0 <= i < |tokens| && i !in spaces && i in old(spaces) :: tokens[i] == None
        invariant forall i | 0 <= i < |tokens| && i !in old(spaces) :: tokens[i] == old(tokens)[i]
      {
        ghost var was := spaces;
        var last := spaces[|spaces| - 1];
        assert last in spaces;
        spaces := spaces[..|spaces| - 1];
        PopMember(was);
        tokens := tokens[last := None];
      }
    }
  }

  // What is listed is what is stripped, if the line is standalone.
  lemma {:induction false} StripLine(all: seq<Token>, spaces: seq<nat>, hasTag: bool, nonSpace: bool, b: nat)
    requires all != [] && Line(all, b, |all| - 1) && Collected(all, spaces, hasTag, nonSpace, b)
    ensures forall i: nat | b <= i < |all| :: Stripped(all, i) <==> i in spaces && hasTag && !nonSpace
  {
    forall i: nat | b <= i < |all| ensures Stripped(all, i) <==> i in spaces && hasTag && !nonSpace {
      StrippedOnLine(all, b, |all| - 1, i);
    }
  }

  lemma {:induction false} SpacesInside(all: seq<Token>, spaces: seq<nat>, hasTag: bool, nonSpace: bool, b: nat)
    requires Collected(all, spaces, hasTag, nonSpace, b)
    ensures forall i | i in spaces :: i < |all|
  {
  }

  lemma {:induction false} StripDone(
    all: seq<Token>, before: seq<Option<Token>>, tokens: seq<Option<Token>>,
    spaces: seq<nat>, hasTag: bool, nonSpace: bool, b: nat)
    requires all != [] && Line(all, b, |all| - 1) && Collected(all, spaces, hasTag, nonSpace, b) && Pending(all, before, b)
    requires |tokens| == |before|
    requires forall i | 0 <= i < |tokens| :: tokens[i] == if i in spaces && hasTag && !nonSpace then None else before[i]
    ensures Pending(all, tokens, |all|) && Collected(all, [], false, false, |all|)
    ensures LineStarts(all, |all|) && !NewlineBetween(all, |all|, |all|)
  {
    StripLine(all, spaces, hasTag, nonSpace, b);
    forall i: nat | i < |all| ensures tokens[i] == if Stripped(all, i) then None else Some(all[i]) {
      if i < b {
        assert i !in spaces;
      }
    }
  }

  // After a character: the current line goes on, or ends with it.
  lemma {:induction false} LetterEnds(all: seq<Token>, t: Token, b: nat)
    requires LineStarts(all, b) && !NewlineBetween(all, b, |all|)
    ensures LineStarts(all + [t], b)
    ensures if IsNewline(t) then Line(all + [t], b, |all|) else !NewlineBetween(all + [t], b, |all| + 1)
  {
    SameBetween(all, t, b, |all|);
    assert (all + [t])[|all|] == t;
  }

  lemma {:induction false} PopMember(s: seq<nat>)
    requires s != []
    ensures forall i :: i in s ==> i in s[..|s| - 1] || i == s[|s| - 1]
    ensures forall i :: i in s[..|s| - 1] ==> i in s
  {
    assert s == s[..|s| - 1] + [s[|s| - 1]];
  }
}
