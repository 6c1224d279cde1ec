/** `JSONPointer`: reference tokens (RFC 6901) as one line of text, each escaped by four chained
    replacements. */
module Pointer {
  import opened Wrappers
  import opened Sequences

  /* ---------- escaping ---------- */

  // String.replace: every occurrence from left to right, without overlaps.
  function Replace(s: string, what: string, replacement: string): string
    requires what != []
  {
    if |s| < |what| then s
    else if s[..|what|] == what then replacement + Replace(s[|what|..], what, replacement)
    else [s[0]] + Replace(s[1..], what, replacement)
  }

  function Escape(token: string): string {
    Replace(Replace(Replace(Replace(token, "~", "~0"), "/", "~1"), "\\", "\\\\"), "\"", "\\\"")
  }

  function Unescape(token: string): string {
    Replace(Replace(Replace(Replace(token, "~1", "/"), "~0", "~"), "\\\"", "\""), "\\\\", "\\")
  }

  // One character after the first k replacements of `Escape`.
  function Code(k: nat, c: char): string {
    if c == '~' && k >= 1 then "~0"
    else if c == '/' && k >= 2 then "~1"
    else if c == '\\' && k >= 3 then "\\\\"
    else if c == '"' && k >= 4 then "\\\""
    else [c]
  }

  function Coded(k: nat, t: string): string {
    if t == [] then [] else Code(k, t[0]) + Coded(k, t[1..])
  }

  // A character that none of the replacements so far has produced is replaced where it stands.
  lemma {:induction false} ReplaceChar(c: char, rest: string, a: char, code: string)
    ensures Replace([c] + rest, [a], code) == (if c == a then code else [c]) + Replace(rest, [a], code)
  {
    assert ([c] + rest)[..1] == [c] && ([c] + rest)[1..] == rest;
  }

  lemma {:induction false} ReplaceOver(block: string, rest: string, a: char, code: string)
    requires a !in block
    ensures Replace(block + rest, [a], code) == block + Replace(rest, [a], code)
  {
    if block == [] {
      assert block + rest == rest;
    } else {
      assert block[0] in block;
      assert block + rest == [block[0]] + (block[1..] + rest);
      ReplaceChar(block[0], block[1..] + rest, a, code);
      ReplaceOver(block[1..], rest, a, code);
      assert [block[0]] + (block[1..] + Replace(rest, [a], code)) == block + Replace(rest, [a], code);
    }
  }

  ghost function Escaped(k: nat): char
    requires k < 4
  {
    if k == 0 then '~' else if k == 1 then '/' else if k == 2 then '\\' else '"'
  }

  // The k-th replacement takes one stage of the code to the next.
  lemma {:induction false} CodeStep(k: nat, t: string)
    requires k < 4
    ensures Replace(Coded(k, t), [Escaped(k)], Code(4, Escaped(k))) == Coded(k + 1, t)
  {
    if t != [] {
      CodeStep(k, t[1..]);
      var c := t[0];
      if c == Escaped(k) {
        assert Code(k, c) == [c];
        ReplaceChar(c, Coded(k, t[1..]), c, Code(4, c));
      } else {
        assert Code(k + 1, c) == Code(k, c);
        ReplaceOver(Code(k, c), Coded(k, t[1..]), Escaped(k), Code(4, Escaped(k)));
      }
    }
  }

  lemma {:induction false} CodedNothing(t: string)
    ensures Coded(0, t) == t
  {
    if t != [] {
      CodedNothing(t[1..]);
    }
  }

  // The four replacements together code every character by itself.
  lemma {:induction false} EscapeIsCoded(t: string)
    ensures Escape(t) == Coded(4, t)
  {
    CodedNothing(t);
    CodeStep(0, t);
    CodeStep(1, t);
    CodeStep(2, t);
    CodeStep(3, t);
  }

  /* ---------- unescaping ---------- */

  // What the pair at the front stands for after the first k replacements of `Unescape`.
  function Decoded(k: nat, s: string): Option<char> {
    if |s| < 2 then None
    else if k >= 1 && s[0] == '~' && s[1] == '1' then Some('/')
    else if k >= 2 && s[0] == '~' && s[1] == '0' then Some('~')
    else if k >= 3 && s[0] == '\\' && s[1] == '"' then Some('"')
    else if k >= 4 && s[0] == '\\' && s[1] == '\\' then Some('\\')
    else None
  }

  // One pass from left to right over the first k kinds of pairs.
  function OnePass(k: nat, s: string): string {
    if s == [] then []
    else match Decoded(k, s)
      case Some(c) => [c] + OnePass(k, s[2..])
      case None => [s[0]] + OnePass(k, s[1..])
  }

  lemma {:induction false} PassNothing(s: string)
    ensures OnePass(0, s) == s
  {
    if s != [] {
      PassNothing(s[1..]);
    }
  }

  // Replacing a pair, at the front of a text and past its first character.
  lemma {:induction false} ReplacePair(a: char, b: char, rest: string, code: string)
    ensures Replace([a, b] + rest, [a, b], code) == code + Replace(rest, [a, b], code)
  {
    assert ([a, b] + rest)[..2] == [a, b] && ([a, b] + rest)[2..] == rest;
  }

  lemma {:induction false} ReplacePast(c: char, rest: string, a: char, b: char, code: string)
    requires c != a || rest == [] || rest[0] != b
    ensures Replace([c] + rest, [a, b], code) == [c] + Replace(rest, [a, b], code)
  {
    var s := [c] + rest;
    assert s[1..] == rest;
    if |s| >= 2 {
      assert s[..2][0] == c && s[..2][1] == rest[0];
    }
  }

  lemma {:induction false} FirstOfPass(k: nat, s: string)
    requires s != []
    ensures OnePass(k, s) != [] && OnePass(k, s)[0] == (if Decoded(k, s).Some? then Decoded(k, s).value else s[0])
  {
  }

  lemma {:induction false} PairPasses(k: nat, s: string, a: char, b: char)
    requires |s| > 1 && s[0] == a && s[1] == b && Decoded(k, s).None? && Decoded(k, s[1..]).None?
    ensures OnePass(k, s) == [a, b] + OnePass(k, s[2..])
  {
    assert s[1..][1..] == s[2..];
    assert [a] + ([b] + OnePass(k, s[2..])) == [a, b] + OnePass(k, s[2..]);
  }

  // "~1", then "~0", then backslash and quote: none is produced by an earlier replacement.
  lemma {:induction false} PassStep(k: nat, s: string, a: char, b: char, code: char)
    requires (k, a, b, code) in {(0, '~', '1', '/'), (1, '~', '0', '~'), (2, '\\', '"', '"')}
    ensures Replace(OnePass(k, s), [a, b], [code]) == OnePass(k + 1, s)
    decreases |s|
  {
    if s != [] {
      match Decoded(k, s)
      case Some(c) =>
        PassStep(k, s[2..], a, b, code);
        if |s| > 2 { FirstOfPass(k, s[2..]); }
        ReplacePast(c, OnePass(k, s[2..]), a, b, [code]);
      case None =>
        var rest := OnePass(k, s[1..]);
        if |s| > 1 { FirstOfPass(k, s[1..]); }
        if |s| > 1 && s[0] == a && s[1] == b {
          PassStep(k, s[2..], a, b, code);
          PairPasses(k, s, a, b);
          ReplacePair(a, b, OnePass(k, s[2..]), [code]);
        } else {
          PassStep(k, s[1..], a, b, code);
          ReplacePast(s[0], rest, a, b, [code]);
        }
    }
  }

  // Two backslashes last: of the backslashes before a quote, the last one is gone by then.
  lemma {:induction false} LastPassStep(s: string)
    ensures Replace(OnePass(3, s), "\\\\", "\\") == OnePass(4, s)
    decreases |s|
  {
    if s != [] {
      match Decoded(3, s)
      case Some(c) =>
        LastPassStep(s[2..]);
        ReplacePast(c, OnePass(3, s[2..]), '\\', '\\', "\\");
      case None =>
        if |s| > 1 && s[0] == '\\' && s[1] == '\\' {
          TwoBackslashes(s);
        } else {
          if |s| > 1 { FirstOfPass(3, s[1..]); }
          LastPassStep(s[1..]);
          ReplacePast(s[0], OnePass(3, s[1..]), '\\', '\\', "\\");
        }
    }
  }

  lemma {:induction false} TwoBackslashes(s: string)
    requires |s| > 1 && s[0] == '\\' && s[1] == '\\'
    ensures Replace(OnePass(3, s), "\\\\", "\\") == OnePass(4, s)
    decreases |s|, 0
  {
    assert s[1..][1..] == s[2..];
    if |s| > 2 && s[2] == '"' {
      var rest := OnePass(3, s[3..]);
      assert s[2..][1..] == s[3..] && s[1..][2..] == s[3..];
      assert OnePass(3, s[1..]) == ['"'] + rest;
      LastPassStep(s[3..]);
      ReplacePast('\\', ['"'] + rest, '\\', '\\', "\\");
      ReplacePast('"', rest, '\\', '\\', "\\");
    } else {
      var rest := OnePass(3, s[2..]);
      assert OnePass(3, s[1..]) == ['\\'] + rest;
      assert ['\\'] + (['\\'] + rest) == ['\\', '\\'] + rest;
      LastPassStep(s[2..]);
      ReplacePair('\\', '\\', rest, "\\");
    }
  }

  // The four chained replacements decode all pairs in one pass, on every string.
  lemma {:induction false} UnescapeIsOnePass(s: string)
    ensures Unescape(s) == OnePass(4, s)
  {
    PassNothing(s);
    PassStep(0, s, '~', '1', '/');
    PassStep(1, s, '~', '0', '~');
    PassStep(2, s, '\\', '"', '"');
    LastPassStep(s);
  }

  /* ---------- there and back ---------- */

  lemma {:induction false} PassOverCode(c: char, rest: string)
    ensures OnePass(4, Code(4, c) + rest) == [c] + OnePass(4, rest)
  {
    var s := Code(4, c) + rest;
    assert s[|Code(4, c)|..] == rest;
    assert s[0] == Code(4, c)[0];
    if |Code(4, c)| == 2 {
      assert s[1] == Code(4, c)[1];
    }
  }

  lemma {:induction false} PassOverCoded(t: string)
    ensures OnePass(4, Coded(4, t)) == t
  {
    if t != [] {
      PassOverCode(t[0], Coded(4, t[1..]));
      PassOverCoded(t[1..]);
    }
  }

  lemma {:induction false} UnescapeEscape(t: string)
    ensures Unescape(Escape(t)) == t
  {
    EscapeIsCoded(t);
    UnescapeIsOnePass(Coded(4, t));
    PassOverCoded(t);
  }

  predicate Special(c: char) { c == '~' || c == '/' || c == '\\' || c == '"' }

  // Every special character is part of a pair.
  predicate Canonical(s: string) {
    if s == [] then true
    else if Decoded(4, s).Some? then Canonical(s[2..])
    else !Special(s[0]) && Canonical(s[1..])
  }

  // The other way round: exactly the texts in which every special character is escaped come back.
  lemma {:induction false} EscapeUnescapeIff(s: string)
    ensures Escape(Unescape(s)) == s <==> Canonical(s)
  {
    UnescapeIsOnePass(s);
    EscapeIsCoded(OnePass(4, s));
    CodedPassIff(s);
  }

  lemma {:induction false} CodedPassIff(s: string)
    ensures Coded(4, OnePass(4, s)) == s <==> Canonical(s)
    decreases |s|
  {
    if s != [] {
      match Decoded(4, s)
      case Some(c) =>
        CodedPassIff(s[2..]);
        assert s == Code(4, c) + s[2..];
        SameFront(Code(4, c), Coded(4, OnePass(4, s[2..])), s[2..]);
      case None =>
        CodedPassIff(s[1..]);
        var rest := Coded(4, OnePass(4, s[1..]));
        var out := Code(4, s[0]) + rest;
        assert s == [s[0]] + s[1..];
        if Special(s[0]) {
          assert out[0] == Code(4, s[0])[0] && out[1] == Code(4, s[0])[1];
        } else {
          SameFront([s[0]], rest, s[1..]);
        }
    }
  }

  lemma {:induction false} SameFront(front: string, a: string, b: string)
    ensures front + a == front + b <==> a == b
  {
    if front + a == front + b {
      assert (front + a)[|front|..] == a && (front + b)[|front|..] == b;
    }
  }

  lemma {:induction false} NoSlash(t: string)
    ensures '/' !in Coded(4, t)
  {
    if t != [] {
      NoSlash(t[1..]);
    }
  }

  /* ---------- pointers ---------- */

  datatype Result = Ok(tokens: seq<string>) | IllegalArgument

  // The pieces between slashes.
  function Pieces(s: string): (ps: seq<string>)
    ensures ps != []
  {
    if s == [] then [[]]
    else if s[0] == '/' then [[]] + Pieces(s[1..])
    else var ps := Pieces(s[1..]); [[s[0]] + ps[0]] + ps[1..]
  }

  function DropTrailingEmpty(ps: seq<string>): seq<string> {
    if ps != [] && ps[|ps| - 1] == [] then DropTrailingEmpty(ps[..|ps| - 1]) else ps
  }

  // String.split("/"): trailing empty pieces are dropped, unless there is no slash at all.
  function Split(s: string): seq<string> {
    if '/' in s then DropTrailingEmpty(Pieces(s)) else [s]
  }

  function UnescapeEach(ps: seq<string>): seq<string> {
    if ps == [] then [] else UnescapeEach(ps[..|ps| - 1]) + [Unescape(ps[|ps| - 1])]
  }

  // What is split: the text after the slash, or the URL-decoded text after "#/".
  function Body(pointer: string, urlDecode: string -> Option<string>): Option<string> {
    if |pointer| >= 2 && pointer[..2] == "#/" then urlDecode(pointer[2..])
    else if pointer != [] && pointer[0] == '/' then Some(pointer[1..])
    else None
  }

  function Parse(pointer: string, urlDecode: string -> Option<string>): Result {
    if pointer == [] then Ok([])
    else match Body(pointer, urlDecode)
      case None => IllegalArgument
      case Some(body) => Ok(UnescapeEach(Split(body)))
  }

  // Text is refused if and only if it is neither empty nor starts with a slash or with "#/", or if
  // what follows "#/" cannot be decoded; the latter form is the former on the decoded text.
  lemma {:induction false} ParseForms(pointer: string, urlDecode: string -> Option<string>)
    ensures Parse(pointer, urlDecode).IllegalArgument? <==>
            && pointer != [] && pointer[0] != '/'
            && (|pointer| < 2 || pointer[..2] != "#/" || urlDecode(pointer[2..]).None?)
    ensures |pointer| >= 2 && pointer[..2] == "#/" && urlDecode(pointer[2..]).Some? ==>
              Parse(pointer, urlDecode) == Parse("/" + urlDecode(pointer[2..]).value, urlDecode)
    ensures Parse([], urlDecode) == Ok([])
  {
    if |pointer| >= 2 && pointer[..2] == "#/" {
      assert pointer[0] == pointer[..2][0] == '#';
      if urlDecode(pointer[2..]).Some? {
        var p := "/" + urlDecode(pointer[2..]).value;
        assert p[0] == '/' && p[1..] == urlDecode(pointer[2..]).value;
        assert |p| >= 2 ==> p[..2][0] == '/';
      }
    }
  }

  // The constructor from text. `urlDecode` stands for URLDecoder.decode, which may refuse.
  method ParsePointer(pointer: string, urlDecode: string -> Option<string>) returns (r: Result)
    ensures r == Parse(pointer, urlDecode)
  {
    if pointer == [] {
      return Ok([]);
    }
    var rest := pointer;
    if |pointer| >= 2 && pointer[..2] == "#/" {
      var decoded := urlDecode(pointer[2..]);
      if decoded.None? {
        return IllegalArgument;
      }
      rest := decoded.value;
    } else if pointer[0] == '/' {
      rest := pointer[1..];
    } else {
      return IllegalArgument;
    }
    var refTokens := [];
    var ps := Split(rest);
    for i := 0 to |ps|
      invariant refTokens == UnescapeEach(ps[..i])
    {
      assert ps[..i + 1][..i] == ps[..i];
      refTokens := refTokens + [Unescape(ps[i])];
    }
    assert ps[..|ps|] == ps;
    return Ok(refTokens);
  }

  function ToString(ts: seq<string>): string {
    if ts == [] then [] else ToString(ts[..|ts| - 1]) + (['/'] + Escape(ts[|ts| - 1]))
  }

  method PrintPointer(refTokens: seq<string>) returns (rval: string)
    ensures rval == ToString(refTokens)
  {
    rval := [];
    for i := 0 to |refTokens|
      invariant rval == ToString(refTokens[..i])
    {
      assert refTokens[..i + 1][..i] == refTokens[..i];
      rval := rval + ['/'] + Escape(refTokens[i]);
      Concat3(ToString(refTokens[..i]), ['/'], Escape(refTokens[i]));
    }
    assert refTokens[..|refTokens|] == refTokens;
  }

  /* ---------- pointers there and back ---------- */

  function EscapeEach(ts: seq<string>): seq<string> {
    if ts == [] then [] else EscapeEach(ts[..|ts| - 1]) + [Escape(ts[|ts| - 1])]
  }

  // A slash and a slash-free text at the end make one more piece.
  lemma {:induction false} PiecesSnoc(s: string, t: string)
    requires '/' !in t
    ensures Pieces(s + (['/'] + t)) == Pieces(s) + [t]
  {
    if s == [] {
      assert s + (['/'] + t) == ['/'] + t;
      assert (['/'] + t)[1..] == t;
      PiecesOne(t);
    } else {
      assert (s + (['/'] + t))[1..] == s[1..] + (['/'] + t);
      PiecesSnoc(s[1..], t);
      if s[0] != '/' {
        var ps := Pieces(s[1..]);
        FirstOf(ps, [t]);
        FirstOf([[s[0]] + ps[0]] + ps[1..], [t]);
      }
    }
  }

  lemma {:induction false} FirstOf<T>(a: seq<T>, b: seq<T>)
    requires a != []
    ensures (a + b)[0] == a[0] && (a + b)[1..] == a[1..] + b
  {
  }

  lemma {:induction false} PiecesOne(t: string)
    requires '/' !in t
    ensures Pieces(t) == [t]
  {
    if t != [] {
      assert t[0] in t;
      PiecesOne(t[1..]);
      assert [t[0]] + t[1..] == t;
    }
  }

  // The printed text of some tokens starts with a slash; the rest splits into their codes.
  lemma {:induction false} PrintedPieces(ts: seq<string>)
    requires ts != []
    ensures ToString(ts) != [] && ToString(ts)[0] == '/'
    ensures Pieces(ToString(ts)[1..]) == EscapeEach(ts)
    ensures '/' in ToString(ts)[1..] <==> |ts| > 1
  {
    var front, code := ts[..|ts| - 1], Escape(ts[|ts| - 1]);
    EscapeIsCoded(ts[|ts| - 1]);
    NoSlash(ts[|ts| - 1]);
    SlashFirst(code);
    if front == [] {
      assert ToString(ts) == ['/'] + code;
      PiecesOne(code);
      assert EscapeEach(ts) == [code];
    } else {
      PrintedPieces(front);
      var s := ToString(front);
      FirstOf(s, ['/'] + code);
      PiecesSnoc(s[1..], code);
      SlashInside(s[1..], code);
    }
  }

  lemma {:induction false} SlashFirst(code: string)
    ensures [] + (['/'] + code) == ['/'] + code && (['/'] + code)[0] == '/' && (['/'] + code)[1..] == code
  {
  }

  lemma {:induction false} SlashInside(s: string, code: string)
    ensures '/' in s + (['/'] + code)
  {
    assert (s + (['/'] + code))[|s|] == '/';
  }

  lemma {:induction false} EscapeEmpty(t: string)
    ensures Escape(t) == [] <==> t == []
  {
    EscapeIsCoded(t);
  }

  lemma {:induction false} FrontAndLast<T>(front: seq<T>, last: T)
    ensures (front + [last])[..|front|] == front && (front + [last])[|front|] == last
  {
  }

  lemma {:induction false} Whole<T>(s: seq<T>)
    requires s != []
    ensures s == s[..|s| - 1] + [s[|s| - 1]]
  {
  }

  // Dropping empty pieces is dropping empty tokens.
  lemma {:induction false} DropEscaped(ts: seq<string>)
    ensures |EscapeEach(ts)| == |ts|
    ensures DropTrailingEmpty(EscapeEach(ts)) == EscapeEach(DropTrailingEmpty(ts))
  {
    if ts != [] {
      var front, last := ts[..|ts| - 1], ts[|ts| - 1];
      DropEscaped(front);
      EscapeEmpty(last);
      FrontAndLast(EscapeEach(front), Escape(last));
    }
  }

  lemma {:induction false} UnescapeEscapeEach(ts: seq<string>)
    ensures UnescapeEach(EscapeEach(ts)) == ts
  {
    if ts != [] {
      var front, last := ts[..|ts| - 1], ts[|ts| - 1];
      UnescapeEscapeEach(front);
      UnescapeEscape(last);
      FrontAndLast(EscapeEach(front), Escape(last));
      Whole(ts);
    }
  }

  // Parsing a printed pointer: exactly the trailing empty tokens are lost, unless there is only
  // one token.
  lemma {:induction false} PointerReads(ts: seq<string>, urlDecode: string -> Option<string>)
    ensures Parse(ToString(ts), urlDecode) == Ok(if |ts| <= 1 then ts else DropTrailingEmpty(ts))
  {
    if ts != [] {
      PrintedPieces(ts);
      var body := ToString(ts)[1..];
      assert Body(ToString(ts), urlDecode) == Some(body);
      if |ts| == 1 {
        PiecesOne(body);
        UnescapeEscapeEach(ts);
      } else {
        DropEscaped(ts);
        UnescapeEscapeEach(DropTrailingEmpty(ts));
      }
    }
  }

  lemma {:induction false} DropsSomething(ts: seq<string>)
    ensures |DropTrailingEmpty(ts)| <= |ts|
    ensures DropTrailingEmpty(ts) == ts <==> ts == [] || ts[|ts| - 1] != []
  {
    if ts != [] && ts[|ts| - 1] == [] {
      DropsSomething(ts[..|ts| - 1]);
    }
  }

  // The text determines the pointer exactly if it is empty, has one token, or does not end in
  // an empty one.
  lemma {:induction false} PointerRoundTripIff(ts: seq<string>, urlDecode: string -> Option<string>)
    ensures Parse(ToString(ts), urlDecode) == Ok(ts) <==> ts == [] || ts == [[]] || ts[|ts| - 1] != []
  {
    PointerReads(ts, urlDecode);
    DropsSomething(ts);
    assert |ts| == 1 ==> ts == [ts[0]];
  }
}
