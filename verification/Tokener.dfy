/** `JSONTokener`: a character reader with one character of pushback. */
module Tokener {

  const NUL: char := '\0'

  /* ---------- on the text that is still to come ---------- */

  // Past the end the reader keeps delivering NUL.
  function Head(r: string): char {
    if r == [] then NUL else r[0]
  }

  function Tail(r: string): string {
    if r == [] then [] else r[1..]
  }

  // String.trim: everything up to and including the space goes, at both ends.
  function TrimLeft(s: string): string {
    if s != [] && s[0] <= ' ' then TrimLeft(s[1..]) else s
  }

  function TrimRight(s: string): string {
    if s != [] && s[|s| - 1] <= ' ' then TrimRight(s[..|s| - 1]) else s
  }

  function Trim(s: string): string {
    TrimRight(TrimLeft(s))
  }

  ghost predicate Trimmed(s: string) {
    s == [] || (s[0] > ' ' && s[|s| - 1] > ' ')
  }

  lemma {:induction false} TrimLeftStops(s: string)
    ensures TrimLeft(s) == [] || TrimLeft(s)[0] > ' '
    ensures |TrimLeft(s)| <= |s|
    ensures s != [] ==> TrimLeft(s) == [] || TrimLeft(s)[|TrimLeft(s)| - 1] == s[|s| - 1]
  {
    if s != [] && s[0] <= ' ' {
      TrimLeftStops(s[1..]);
    }
  }

  lemma {:induction false} TrimRightStops(s: string)
    ensures TrimRight(s) == [] || TrimRight(s)[|TrimRight(s)| - 1] > ' '
    ensures |TrimRight(s)| <= |s|
    ensures TrimRight(s) != [] ==> TrimRight(s)[0] == s[0]
  {
    if s != [] && s[|s| - 1] <= ' ' {
      TrimRightStops(s[..|s| - 1]);
    }
  }

  // Trimming gives a trimmed string, and changes exactly the others.
  lemma {:induction false} TrimTrims(s: string)
    ensures Trimmed(Trim(s))
    ensures Trim(s) == s <==> Trimmed(s)
    ensures |Trim(s)| <= |s|
  {
    TrimLeftStops(s);
    TrimRightStops(TrimLeft(s));
  }

  // Trimming takes nothing but characters up to the space, and only from the ends.
  lemma {:induction false} TrimIs(s: string) returns (before: string, after: string)
    ensures s == before + Trim(s) + after
    ensures (forall c | c in before :: c <= ' ') && (forall c | c in after :: c <= ' ')
  {
    before := TrimsLeft(s);
    after := TrimsRight(TrimLeft(s));
    assert before + (Trim(s) + after) == before + Trim(s) + after;
  }

  lemma {:induction false} TrimsLeft(s: string) returns (before: string)
    ensures s == before + TrimLeft(s) && forall c | c in before :: c <= ' '
  {
    before := [];
    if s != [] && s[0] <= ' ' {
      var more := TrimsLeft(s[1..]);
      before := [s[0]] + more;
      assert s == [s[0]] + s[1..];
    }
  }

  lemma {:induction false} TrimsRight(s: string) returns (after: string)
    ensures s == TrimRight(s) + after && forall c | c in after :: c <= ' '
  {
    after := [];
    if s != [] && s[|s| - 1] <= ' ' {
      var more := TrimsRight(s[..|s| - 1]);
      after := more + [s[|s| - 1]];
      assert s == s[..|s| - 1] + [s[|s| - 1]];
    }
  }

  predicate Stops(c: char, delimiter: char) {
    c == delimiter || c == NUL || c == '\n' || c == '\r'
  }

  // The trimmed text up to the delimiter or the end of the line, after `acc`, and what is left.
  // A NUL is consumed, any other stopping character is not.
  function ReadOn(acc: string, r: string, delimiter: char): (string, string)
    decreases |r|
  {
    if r == [] then (Trim(acc), [])
    else if Stops(r[0], delimiter) then (Trim(acc), if r[0] == NUL then r[1..] else r)
    else ReadOn(acc + [r[0]], r[1..], delimiter)
  }

  function NextTo(r: string, delimiter: char): (string, string) {
    ReadOn([], r, delimiter)
  }

  // Does reading stop at a NUL or the end of the text?
  predicate HitsEnd(r: string, delimiter: char) {
    r == [] || r[0] == NUL || (!Stops(r[0], delimiter) && HitsEnd(r[1..], delimiter))
  }

  lemma {:induction false} ReadOnShrinks(acc: string, r: string, delimiter: char)
    ensures |ReadOn(acc, r, delimiter).1| <= |r|
    decreases |r|
  {
    if r != [] && !Stops(r[0], delimiter) {
      ReadOnShrinks(acc + [r[0]], r[1..], delimiter);
    }
  }

  // Reading over text without stopping characters takes all of it.
  lemma {:induction false} ReadAll(acc: string, text: string, rest: string, delimiter: char)
    requires forall c | c in text :: !Stops(c, delimiter)
    requires rest == [] || (Stops(rest[0], delimiter) && rest[0] != NUL)
    ensures ReadOn(acc, text + rest, delimiter) == (Trim(acc + text), rest)
    ensures HitsEnd(text + rest, delimiter) <==> rest == []
    decreases |text|
  {
    if text == [] {
      assert text + rest == rest && acc + text == acc;
    } else {
      assert (text + rest)[1..] == text[1..] + rest;
      assert text[0] in text;
      ReadAll(acc + [text[0]], text[1..], rest, delimiter);
      assert acc + [text[0]] + text[1..] == acc + text;
    }
  }

  lemma {:induction false} NextToAll(text: string, rest: string, delimiter: char)
    requires forall c | c in text :: !Stops(c, delimiter)
    requires rest == [] || (Stops(rest[0], delimiter) && rest[0] != NUL)
    ensures NextTo(text + rest, delimiter) == (Trim(text), rest)
    ensures HitsEnd(text + rest, delimiter) <==> rest == []
  {
    ReadAll([], text, rest, delimiter);
    assert [] + text == text;
  }

  // For every text: it is taken up to the first stopping character, and trimmed; a NUL is taken too.
  lemma {:induction false} NextToIs(r: string, delimiter: char) returns (k: nat)
    ensures k <= |r| && (forall i | 0 <= i < k :: !Stops(r[i], delimiter)) && (k < |r| ==> Stops(r[k], delimiter))
    ensures NextTo(r, delimiter) == (Trim(r[..k]), if k < |r| && r[k] == NUL then r[k + 1..] else r[k..])
    ensures HitsEnd(r, delimiter) <==> k == |r| || r[k] == NUL
  {
    k := ReadOnIs([], r, delimiter);
    assert [] + r[..k] == r[..k];
  }

  lemma {:induction false} ReadOnIs(acc: string, r: string, delimiter: char) returns (k: nat)
    ensures k <= |r| && (forall i | 0 <= i < k :: !Stops(r[i], delimiter)) && (k < |r| ==> Stops(r[k], delimiter))
    ensures ReadOn(acc, r, delimiter) == (Trim(acc + r[..k]), if k < |r| && r[k] == NUL then r[k + 1..] else r[k..])
    ensures HitsEnd(r, delimiter) <==> k == |r| || r[k] == NUL
    decreases |r|
  {
    k := 0;
    assert acc + r[..0] == acc && r[0..] == r;
    if r != [] && !Stops(r[0], delimiter) {
      var j := ReadOnIs(acc + [r[0]], r[1..], delimiter);
      k := j + 1;
      MoveOver(acc, r, j);
    }
  }

  lemma {:induction false} MoveOver(acc: string, r: string, j: nat)
    requires j < |r|
    ensures acc + [r[0]] + r[1..][..j] == acc + r[..j + 1] && r[1..][j..] == r[j + 1..]
    ensures j + 1 < |r| ==> r[1..][j + 1..] == r[j + 2..]
  {
  }

  function Dehexchar(c: char): int {
    if '0' <= c <= '9' then c as int - '0' as int
    else if 'A' <= c <= 'F' then c as int - ('A' as int - 10)
    else if 'a' <= c <= 'f' then c as int - ('a' as int - 10)
    else -1
  }

  // Character.forDigit in base 16.
  function ForDigit(d: nat): char
    requires d < 16
  {
    if d < 10 then ('0' as int + d) as char else ('a' as int + d - 10) as char
  }

  lemma {:induction false} HexDigit(d: nat)
    requires d < 16
    ensures Dehexchar(ForDigit(d)) == d
    ensures ForDigit(d) > ' ' && ForDigit(d) !in {'+', '%', '=', ';'}
  {
  }

  // The digits in either case are worth their place; nothing else is a digit.
  lemma {:induction false} DehexcharIff(c: char)
    ensures forall d | 0 <= d < 16 :: Dehexchar("0123456789abcdef"[d]) == d && Dehexchar("0123456789ABCDEF"[d]) == d
    ensures Dehexchar(c) >= 0 <==> c in "0123456789abcdefABCDEF"
    ensures -1 <= Dehexchar(c) < 16
  {
    var digits := "0123456789abcdefABCDEF";
    if Dehexchar(c) >= 0 {
      var k := if c <= '9' then c as int - '0' as int else if c <= 'F' then c as int - 'A' as int + 16 else c as int - 'a' as int + 10;
      assert digits[k] == c;
    }
  }

  /* ---------- the reader ---------- */

  class JSONTokener {
    const source: string
    var at: nat              // position of the underlying reader
    var eof: bool
    var index: int
    var previous: char
    var usePrevious: bool

    constructor (source: string)
      ensures Valid() && Rest() == source && this.source == source
      ensures Steady() && !eof
    {
      this.source := source;
      at, eof, index, previous, usePrevious := 0, false, 0, NUL, false;
    }

    predicate Valid()
      reads this
    {
      at <= |source| && index >= 0
    }

    // The text still to come, the pushed-back character first.
    ghost function Rest(): string
      requires Valid()
      reads this
    {
      (if usePrevious then [previous] else []) + source[at..]
    }

    // No NUL has been pushed back; stepping back has cleared the end flag.
    predicate Steady()
      reads this
    {
      Valid() && (usePrevious ==> previous != NUL && !eof)
    }

    method Next() returns (c: char)
      requires Valid()
      modifies this
      ensures Valid() && c == Head(old(Rest())) && Rest() == Tail(old(Rest()))
      ensures previous == c && !usePrevious && index == old(index) + 1
      ensures eof == (old(eof) || (!old(usePrevious) && c == NUL))
    {
      if usePrevious {
        usePrevious := false;
        c := previous;
      } else if at < |source| {
        c := source[at];
        at := at + 1;
        if c == NUL {
          eof := true;
        }
      } else {
        eof := true;
        c := NUL;
      }
      index := index + 1;
      previous := c;
    }

    predicate End()
      reads this
    {
      eof && !usePrevious
    }

    // Only one step back is possible, and none before the first character.
    method Back() returns (threw: bool)
      requires Valid()
      modifies this
      ensures Valid() && threw == (old(usePrevious) || old(index) <= 0)
      ensures threw ==> Rest() == old(Rest())
      ensures !threw ==> Rest() == [old(previous)] + old(Rest()) && usePrevious && !eof && previous == old(previous)
    {
      if usePrevious || index <= 0 {
        return true;
      }
      index := index - 1;
      usePrevious := true;
      eof := false;
      return false;
    }

    // Is there anything to come? A NUL counts as the end, and so does everything after a NUL
    // until a step back.
    method More() returns (b: bool)
      requires Steady()
      modifies this
      ensures Steady() && eof == !b && b == (!old(eof) && Head(old(Rest())) != NUL)
      ensures Rest() == if b then old(Rest()) else Tail(old(Rest()))
    {
      var c := Next();
      if End() {
        return false;
      }
      var threw := Back();
      return true;
    }

    method ReadTo(delimiter: char) returns (text: string)
      requires Valid()
      modifies this
      ensures Valid() && (text, Rest()) == NextTo(old(Rest()), delimiter)
      ensures old(Steady()) ==> Steady() && eof == HitsEnd(old(Rest()), delimiter)
    {
      ghost var goal, ends := NextTo(Rest(), delimiter), HitsEnd(Rest(), delimiter);
      var sb := [];
      while true
        invariant Valid() && ReadOn(sb, Rest(), delimiter) == goal
        invariant HitsEnd(Rest(), delimiter) == ends
        invariant old(Steady()) ==> Steady()
        decreases |Rest()|
      {
        ghost var r := Rest();
        var c := Next();
        if Stops(c, delimiter) {
          if c != NUL {
            var threw := Back();
            assert Rest() == r;
          }
          return Trim(sb);
        }
        sb := sb + [c];
      }
    }
  }
}
