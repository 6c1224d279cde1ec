/** `Cookie.escape`, `Cookie.unescape` and `CookieList`: a map of strings as one line of
    `name=value` pairs separated by semicolons. */
module Cookies {
  import opened Wrappers
  import opened Sequences
  import opened Tokener

  /* ---------- escaping ---------- */

  predicate Special(c: char) {
    c < ' ' || c == '+' || c == '%' || c == '=' || c == ';'
  }

  function EscapeChar(c: char): string {
    if Special(c) then ['%', ForDigit(c as int / 16), ForDigit(c as int % 16)] else [c]
  }

  function EscapeAll(s: string): string {
    if s == [] then [] else EscapeChar(s[0]) + EscapeAll(s[1..])
  }

  method Escape(source: string) returns (sb: string)
    ensures sb == EscapeAll(Trim(source))
  {
    var s := Trim(source);
    sb := [];
    var i := 0;
    EscapeEdges(sb, s);
    while i < |s|
      invariant 0 <= i <= |s| && sb + EscapeAll(s[i..]) == EscapeAll(s)
    {
      EscapeOne(sb, s, i);
      var code := EscapeCode(s[i]);
      sb := sb + code;
      i := i + 1;
    }
    EscapeEdges(sb, s);
  }

  // `%` and two lower-case hex digits, the high four bits first.
  method EscapeCode(c: char) returns (code: string)
    ensures code == EscapeChar(c)
  {
    if c < ' ' || c == '+' || c == '%' || c == '=' || c == ';' {
      code := ['%'];
      code := code + [ForDigit(c as int / 16 % 16)];
      code := code + [ForDigit(c as int % 16)];
    } else {
      code := [c];
    }
  }

  lemma {:induction false} EscapeEdges(sb: string, s: string)
    ensures [] + EscapeAll(s[0..]) == EscapeAll(s) && sb + EscapeAll(s[|s|..]) == sb
  {
    assert s[0..] == s && s[|s|..] == [];
  }

  lemma {:induction false} EscapeOne(sb: string, s: string, i: nat)
    requires i < |s|
    ensures sb + EscapeAll(s[i..]) == sb + EscapeChar(s[i]) + EscapeAll(s[i + 1..])
  {
    assert s[i..][1..] == s[i + 1..];
    Concat3(sb, EscapeChar(s[i]), EscapeAll(s[i + 1..]));
  }

  // What the next character or `%hh` group stands for, and how many characters it takes.
  function UnescapeHead(s: string): (char, nat)
    requires s != []
  {
    if s[0] == '+' then (' ', 1)
    else if s[0] == '%' && 2 < |s| && Dehexchar(s[1]) >= 0 && Dehexchar(s[2]) >= 0 then
      ((Dehexchar(s[1]) * 16 + Dehexchar(s[2])) as char, 3)
    else (s[0], 1)
  }

  function UnescapeAll(s: string): string {
    if s == [] then [] else var (c, n) := UnescapeHead(s); [c] + UnescapeAll(s[n..])
  }

  method Unescape(s: string) returns (sb: string)
    ensures sb == UnescapeAll(s)
  {
    sb := [];
    var i := 0;
    UnescapeEdges(sb, s);
    while i < |s|
      invariant 0 <= i <= |s| && sb + UnescapeAll(s[i..]) == UnescapeAll(s)
    {
      UnescapeOne(sb, s, i);
      var c, last := UnescapeAt(s, i);
      sb := sb + [c];
      i := last + 1;
    }
    UnescapeEdges(sb, s);
  }

  // The body of the loop: the character, and where `i` is when it is appended.
  method UnescapeAt(s: string, i: nat) returns (c: char, last: nat)
    requires i < |s|
    ensures (c, last + 1 - i) == UnescapeHead(s[i..]) && i <= last < |s|
  {
    c, last := s[i], i;
    if c == '+' {
      c := ' ';
    } else if c == '%' && i + 2 < |s| {
      var d, e := Dehexchar(s[i + 1]), Dehexchar(s[i + 2]);
      if d >= 0 && e >= 0 {
        c := (d * 16 + e) as char;
        last := i + 2;
      }
    }
  }

  lemma {:induction false} UnescapeEdges(sb: string, s: string)
    ensures [] + UnescapeAll(s[0..]) == UnescapeAll(s) && sb + UnescapeAll(s[|s|..]) == sb
  {
    assert s[0..] == s && s[|s|..] == [];
  }

  lemma {:induction false} UnescapeOne(sb: string, s: string, i: nat)
    requires i < |s|
    ensures var (c, n) := UnescapeHead(s[i..]);
            i + n <= |s| && sb + UnescapeAll(s[i..]) == sb + [c] + UnescapeAll(s[i + n..])
  {
    var (c, n) := UnescapeHead(s[i..]);
    assert s[i..][n..] == s[i + n..];
    Concat3(sb, [c], UnescapeAll(s[i + n..]));
  }

  lemma {:induction false} UnescapeEscapeChar(c: char, rest: string)
    ensures UnescapeHead(EscapeChar(c) + rest) == (c, |EscapeChar(c)|)
    ensures (EscapeChar(c) + rest)[|EscapeChar(c)|..] == rest
  {
    if Special(c) {
      HexDigit(c as int / 16);
      HexDigit(c as int % 16);
      assert c as int / 16 * 16 + c as int % 16 == c as int;
    }
  }

  lemma {:induction false} UnescapeEscapeAll(s: string)
    ensures UnescapeAll(EscapeAll(s)) == s
  {
    if s != [] {
      UnescapeEscapeChar(s[0], EscapeAll(s[1..]));
      UnescapeEscapeAll(s[1..]);
    }
  }

  // Control characters, '+', '%', '=' and ';' become a percent sign and two lower-case digits; every
  // other character stays.
  lemma {:induction false} EscapeCharIs(c: char)
    ensures EscapeChar(c) == if c < ' ' || c in {'+', '%', '=', ';'}
                             then ['%', "0123456789abcdef"[c as int / 16], "0123456789abcdef"[c as int % 16]] else [c]
  {
  }

  // A plus is a space wherever it stands.
  lemma {:induction false} PlusIsSpace(a: string, b: string)
    ensures UnescapeAll(a + "+" + b) == UnescapeAll(a) + " " + UnescapeAll(b)
    decreases |a|
  {
    var s := a + "+" + b;
    if a == [] {
      assert s == ['+'] + b && s[1..] == b;
    } else {
      var (c, n) := UnescapeHead(a);
      PlusEndsGroup(a, b);
      assert s[n..] == a[n..] + "+" + b;
      PlusIsSpace(a[n..], b);
      assert [c] + (UnescapeAll(a[n..]) + " " + UnescapeAll(b)) == [c] + UnescapeAll(a[n..]) + " " + UnescapeAll(b);
    }
  }

  // A plus is no digit, so it belongs to no group.
  lemma {:induction false} PlusEndsGroup(a: string, b: string)
    requires a != []
    ensures UnescapeHead(a + "+" + b) == UnescapeHead(a) && UnescapeHead(a).1 <= |a|
  {
    var s := a + "+" + b;
    assert s[0] == a[0] && (|a| > 1 ==> s[1] == a[1]) && (|a| > 2 ==> s[2] == a[2]);
    assert s[|a|] == '+';
  }

  // A percent sign and two digits, in either case, are one character; without them it stays, and
  // so does everything else but a plus.
  lemma {:induction false} GroupIsOne(h: char, l: char, rest: string)
    requires Dehexchar(h) >= 0 && Dehexchar(l) >= 0
    ensures UnescapeAll(['%', h, l] + rest) == [(Dehexchar(h) * 16 + Dehexchar(l)) as char] + UnescapeAll(rest)
  {
    assert (['%', h, l] + rest)[3..] == rest;
  }

  lemma {:induction false} OthersStay(s: string)
    requires s != [] && s[0] != '+'
    requires s[0] == '%' ==> |s| <= 2 || Dehexchar(s[1]) < 0 || Dehexchar(s[2]) < 0
    ensures UnescapeAll(s) == [s[0]] + UnescapeAll(s[1..])
  {
  }

  // A character that neither separates cookies nor ends a line.
  predicate Safe(c: char) {
    c >= ' ' && c != '=' && c != ';' && c != '+'
  }

  lemma {:induction false} EscapeCharSafe(c: char)
    ensures forall x | x in EscapeChar(c) :: Safe(x)
    ensures c > ' ' || Special(c) ==> EscapeChar(c)[0] > ' ' && EscapeChar(c)[|EscapeChar(c)| - 1] > ' '
  {
    if Special(c) {
      HexDigit(c as int / 16);
      HexDigit(c as int % 16);
    }
  }

  // Escaping leaves no separator, no plus and no control character, and does not introduce
  // blanks at the ends.
  lemma {:induction false} EscapeSafe(s: string)
    ensures forall x | x in EscapeAll(s) :: Safe(x)
    ensures Trimmed(s) ==> Trimmed(EscapeAll(s))
  {
    if s != [] {
      EscapeSafe(s[1..]);
      EscapeCharSafe(s[0]);
      if Trimmed(s) {
        EscapeEnds(s);
      }
    }
  }

  lemma {:induction false} EscapeEnds(s: string)
    requires s != []
    ensures EscapeAll(s) != []
    ensures s[0] > ' ' ==> EscapeAll(s)[0] > ' '
    ensures s[|s| - 1] > ' ' ==> EscapeAll(s)[|EscapeAll(s)| - 1] > ' '
  {
    EscapeCharSafe(s[0]);
    if |s| == 1 {
      assert s[1..] == [];
      assert EscapeChar(s[0]) + [] == EscapeChar(s[0]);
    } else {
      EscapeEnds(s[1..]);
    }
  }

  // unescape(escape(s)) is trim(s) for every string.
  lemma {:induction false} EscapeRoundTrip(s: string)
    ensures UnescapeAll(EscapeAll(Trim(s))) == Trim(s)
    ensures UnescapeAll(EscapeAll(Trim(s))) == s <==> Trimmed(s)
  {
    UnescapeEscapeAll(Trim(s));
    TrimTrims(s);
  }

  /* ---------- the list ---------- */

  // A name and its value, or a name whose value is null.
  datatype Entry = Entry(name: string, value: Option<string>)

  function PairText(e: Entry): string
    requires e.value.Some?
  {
    EscapeAll(Trim(e.name)) + (['='] + EscapeAll(Trim(e.value.value)))
  }

  // The pairs that follow the first one.
  function MoreText(es: seq<Entry>): string {
    if es == [] then []
    else if es[0].value.None? then MoreText(es[1..])
    else [';'] + (PairText(es[0]) + MoreText(es[1..]))
  }

  function ListText(es: seq<Entry>): string {
    if es == [] then []
    else if es[0].value.None? then ListText(es[1..])
    else PairText(es[0]) + MoreText(es[1..])
  }

  ghost function TextFrom(es: seq<Entry>, b: bool): string {
    if b then MoreText(es) else ListText(es)
  }

  // `es` is the object in the order its iterator gives the keys.
  method ToText(es: seq<Entry>) returns (sb: string)
    ensures sb == ListText(es)
  {
    var b := false;
    sb := [];
    var k := 0;
    assert es[0..] == es;
    while k < |es|
      invariant 0 <= k <= |es| && sb + TextFrom(es[k..], b) == ListText(es)
    {
      if es[k].value.Some? {
        TextOne(sb, es, k, b);
        if b {
          sb := sb + [';'];
        }
        var name := Escape(es[k].name);
        sb := sb + name;
        sb := sb + ['='];
        var value := Escape(es[k].value.value);
        sb := sb + value;
        b := true;
      }
      SkipNull(es, k, b);
      k := k + 1;
    }
    assert es[k..] == [];
    assert sb + [] == sb;
  }

  lemma {:induction false} SkipNull(es: seq<Entry>, k: nat, b: bool)
    requires k < |es|
    ensures es[k].value.None? ==> TextFrom(es[k..], b) == TextFrom(es[k + 1..], b)
  {
    assert es[k..][1..] == es[k + 1..];
  }

  lemma {:induction false} TextOne(sb: string, es: seq<Entry>, k: nat, b: bool)
    requires k < |es| && es[k].value.Some?
    ensures sb + TextFrom(es[k..], b) ==
            (if b then sb + [';'] else sb) + EscapeAll(Trim(es[k].name)) + ['='] + EscapeAll(Trim(es[k].value.value))
            + TextFrom(es[k + 1..], true)
  {
    assert es[k..][1..] == es[k + 1..];
    Regroup(sb, EscapeAll(Trim(es[k].name)), EscapeAll(Trim(es[k].value.value)), MoreText(es[k + 1..]));
  }

  lemma {:induction false} Regroup(a: string, x: string, y: string, z: string)
    ensures a + (x + (['='] + y) + z) == a + x + ['='] + y + z
    ensures a + ([';'] + (x + (['='] + y) + z)) == a + [';'] + x + ['='] + y + z
  {
  }

  /* ---------- parsing ---------- */

  datatype Result = Ok(cookies: map<string, string>) | SyntaxError

  // The loop of toJSONObject, adding to what is there. A later pair with the same name replaces
  // the earlier one; once a NUL or the end has been met, nothing more is read.
  function Parse(r: string, eof: bool, jo: map<string, string>): Result
    decreases |r|
  {
    if eof || Head(r) == NUL then Ok(jo)
    else
      var (name, afterName) := NextTo(r, '=');
      if Head(afterName) != '=' then SyntaxError
      else
        var (value, afterValue) := NextTo(Tail(afterName), ';');
        ReadOnShrinks([], r, '=');
        ReadOnShrinks([], Tail(afterName), ';');
        Parse(Tail(afterValue), HitsEnd(Tail(afterName), ';') || Head(afterValue) == NUL,
              jo[UnescapeAll(name) := UnescapeAll(value)])
  }

  function ParseText(text: string): Result {
    Parse(text, false, map[])
  }

  method ToJSONObject(text: string) returns (r: Result)
    ensures r == ParseText(text)
  {
    var jo: map<string, string> := map[];
    var x := new JSONTokener(text);
    while true
      invariant x.Steady() && Parse(x.Rest(), x.eof, jo) == ParseText(text)
      decreases |x.Rest()|
    {
      var more := x.More();
      if !more {
        return Ok(jo);
      }
      ghost var before := x.Rest();
      ReadOnShrinks([], before, '=');
      var text := x.ReadTo('=');
      var name := Unescape(text);
      var c := x.Next();
      if c != '=' {
        return SyntaxError;
      }
      ReadOnShrinks([], x.Rest(), ';');
      text := x.ReadTo(';');
      var value := Unescape(text);
      jo := jo[name := value];
      var _ := x.Next();
    }
  }

  // Text that goes on without an equals sign is an error.
  lemma {:induction false} MissingEquals(r: string, jo: map<string, string>)
    requires '=' !in r && Head(r) != NUL
    ensures Parse(r, false, jo) == SyntaxError
  {
    var k := NextToIs(r, '=');
  }

  /* ---------- there and back ---------- */

  // The entries put one after the other, with names and values trimmed; nulls are dropped.
  function Put(es: seq<Entry>, jo: map<string, string>): map<string, string>
    decreases |es|
  {
    if es == [] then jo
    else if es[0].value.None? then Put(es[1..], jo)
    else Put(es[1..], jo[Trim(es[0].name) := Trim(es[0].value.value)])
  }

  // One printed pair is read as one put; what is left starts after the semicolon.
  lemma {:induction false} PairReads(e: Entry, more: string, jo: map<string, string>)
    requires e.value.Some? && (more == [] || more[0] == ';')
    ensures Parse(PairText(e) + more, false, jo) ==
            Parse(Tail(more), more == [], jo[Trim(e.name) := Trim(e.value.value)])
  {
    var name, value := EscapeAll(Trim(e.name)), EscapeAll(Trim(e.value.value));
    var r := PairText(e) + more;
    TextReads(e.name, ['='] + (value + more), '=');
    TextReads(e.value.value, more, ';');
    Concat4(name, value, more);
    assert r[0] == (if name == [] then '=' else name[0]) && (name != [] ==> name[0] in name);
    EscapeSafe(Trim(e.name));
    assert Tail(['='] + (value + more)) == value + more;
  }

  lemma {:induction false} Concat4(name: string, value: string, more: string)
    ensures name + (['='] + value) + more == name + (['='] + (value + more)) != []
  {
    assert |name + (['='] + value) + more| > 0;
  }

  lemma {:induction false} TextReads(s: string, rest: string, delimiter: char)
    requires delimiter == '=' || delimiter == ';'
    requires rest == [] || rest[0] == delimiter
    ensures NextTo(EscapeAll(Trim(s)) + rest, delimiter) == (EscapeAll(Trim(s)), rest)
    ensures HitsEnd(EscapeAll(Trim(s)) + rest, delimiter) <==> rest == []
    ensures UnescapeAll(EscapeAll(Trim(s))) == Trim(s)
  {
    var text := EscapeAll(Trim(s));
    TrimTrims(s);
    EscapeSafe(Trim(s));
    UnescapeEscapeAll(Trim(s));
    NextToAll(text, rest, delimiter);
    TrimTrims(text);
  }

  lemma {:induction false} MoreReads(es: seq<Entry>, jo: map<string, string>)
    ensures MoreText(es) == [] || MoreText(es)[0] == ';'
    ensures Parse(Tail(MoreText(es)), MoreText(es) == [], jo) == Ok(Put(es, jo))
    decreases |es|
  {
    if es != [] {
      if es[0].value.None? {
        MoreReads(es[1..], jo);
      } else {
        var jo' := jo[Trim(es[0].name) := Trim(es[0].value.value)];
        MoreReads(es[1..], jo');
        PairReads(es[0], MoreText(es[1..]), jo);
        assert Tail(MoreText(es)) == PairText(es[0]) + MoreText(es[1..]);
      }
    }
  }

  // Parsing the printed list is putting its entries one after the other, for every list.
  lemma {:induction false} ListReads(es: seq<Entry>, jo: map<string, string>)
    ensures Parse(ListText(es), false, jo) == Ok(Put(es, jo))
    decreases |es|
  {
    if es != [] {
      if es[0].value.None? {
        ListReads(es[1..], jo);
      } else {
        var jo' := jo[Trim(es[0].name) := Trim(es[0].value.value)];
        MoreReads(es[1..], jo');
        PairReads(es[0], MoreText(es[1..]), jo);
      }
    }
  }

  // `es` enumerates the object `m` whose values are strings or null, each key once.
  ghost predicate Enumerates(es: seq<Entry>, m: map<string, Option<string>>) {
    && (forall e | e in es :: e.name in m && m[e.name] == e.value)
    && (forall k | k in m :: Entry(k, m[k]) in es)
    && (forall i, j | 0 <= i < j < |es| :: es[i].name != es[j].name)
  }

  // Names that become equal by trimming have values that do.
  ghost predicate Consistent(m: map<string, Option<string>>) {
    forall a, b | a in m && b in m && m[a].Some? && m[b].Some? && Trim(a) == Trim(b) ::
      Trim(m[a].value) == Trim(m[b].value)
  }

  // The object without its nulls, names and values trimmed.
  ghost predicate IsTrimmed(m: map<string, Option<string>>, jo: map<string, string>) {
    && (forall k | k in m && m[k].Some? :: Trim(k) in jo && jo[Trim(k)] == Trim(m[k].value))
    && (forall t | t in jo :: exists k :: k in m && m[k].Some? && Trim(k) == t)
  }

  lemma {:induction false} PutKeepsOthers(es: seq<Entry>, jo: map<string, string>, t: string)
    requires forall e | e in es && e.value.Some? :: Trim(e.name) != t
    ensures t in Put(es, jo) <==> t in jo
    ensures t in jo ==> Put(es, jo)[t] == jo[t]
    decreases |es|
  {
    if es != [] {
      assert es[0] in es;
      PutKeepsOthers(es[1..], if es[0].value.None? then jo else jo[Trim(es[0].name) := Trim(es[0].value.value)], t);
    }
  }

  // A name that is put ends up with the value of some entry of that trimmed name.
  lemma {:induction false} PutSome(es: seq<Entry>, jo: map<string, string>, e: Entry)
    requires e in es && e.value.Some?
    ensures Trim(e.name) in Put(es, jo)
    ensures exists f :: f in es && f.value.Some? && Trim(f.name) == Trim(e.name) &&
                        Put(es, jo)[Trim(e.name)] == Trim(f.value.value)
    decreases |es|
  {
    var jo' := if es[0].value.None? then jo else jo[Trim(es[0].name) := Trim(es[0].value.value)];
    if f :| f in es[1..] && f.value.Some? && Trim(f.name) == Trim(e.name) {
      PutSome(es[1..], jo', f);
    } else {
      assert e == es[0];
      PutKeepsOthers(es[1..], jo', Trim(e.name));
    }
  }

  lemma {:induction false} PutOnlyThose(es: seq<Entry>, t: string)
    ensures t in Put(es, map[]) ==> exists e :: e in es && e.value.Some? && Trim(e.name) == t
  {
    if forall e | e in es && e.value.Some? :: Trim(e.name) != t {
      PutKeepsOthers(es, map[], t);
    }
  }

  // Parsing the printed form of an object always succeeds, whatever the order of its keys, and
  // gives the object with names and values trimmed, if and only if names that become equal by
  // trimming have values that do (in particular if the trimmed names are distinct).
  lemma {:induction false} CookieListRoundTrip(m: map<string, Option<string>>, es: seq<Entry>)
    requires Enumerates(es, m)
    ensures ParseText(ListText(es)).Ok?
    ensures IsTrimmed(m, ParseText(ListText(es)).cookies) <==> Consistent(m)
  {
    ListReads(es, map[]);
    var jo := Put(es, map[]);
    if Consistent(m) {
      forall k | k in m && m[k].Some? ensures Trim(k) in jo && jo[Trim(k)] == Trim(m[k].value) {
        PutSome(es, map[], Entry(k, m[k]));
      }
      forall t | t in jo ensures exists k :: k in m && m[k].Some? && Trim(k) == t {
        PutOnlyThose(es, t);
        var e :| e in es && e.value.Some? && Trim(e.name) == t;
        assert e.name in m;
      }
    }
  }

  // There is only one such object, so the order of the keys does not matter.
  lemma {:induction false} OrderDoesNotMatter(m: map<string, Option<string>>, es: seq<Entry>, fs: seq<Entry>)
    requires Enumerates(es, m) && Enumerates(fs, m) && Consistent(m)
    ensures ParseText(ListText(es)) == ParseText(ListText(fs))
  {
    CookieListRoundTrip(m, es);
    CookieListRoundTrip(m, fs);
    TrimmedOnce(m, ParseText(ListText(es)).cookies, ParseText(ListText(fs)).cookies);
  }

  lemma {:induction false} TrimmedOnce(m: map<string, Option<string>>, a: map<string, string>, b: map<string, string>)
    requires IsTrimmed(m, a) && IsTrimmed(m, b)
    ensures a == b
  {
    assert forall t :: t in a <==> t in b;
    forall t | t in a ensures a[t] == b[t] {
      var k :| k in m && m[k].Some? && Trim(k) == t;
    }
  }
}
