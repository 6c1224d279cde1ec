/** The grammar of section 2 of RFC 8259 as a parser of tokens: what `JSONWriter` writes is exactly
    what this parser reads. */
module JsonGrammar {
  import opened Wrappers
  import opened Sequences
  import opened JsonWriter

  // A value at the front of the text, and what is left.
  function ParseValue(ts: seq<Token>): (r: Option<(Value, seq<Token>)>)
    ensures r.Some? ==> |r.value.1| < |ts|
    decreases |ts|, 1
  {
    if ts == [] then None
    else match ts[0]
      case Scalar(text) => Some((Leaf(text), ts[1..]))
      case LBracket =>
        (match ParseItems(ts[1..], true)
         case None => None
         case Some((items, rest)) => Some((Arr(items), rest)))
      case LBrace =>
        (match ParseMembers(ts[1..], true)
         case None => None
         case Some((members, rest)) => Some((Obj(members), rest)))
      case _ => None
  }

  // The items up to the closing bracket: a comma before each but the first, none before the bracket.
  function ParseItems(ts: seq<Token>, first: bool): (r: Option<(seq<Value>, seq<Token>)>)
    ensures r.Some? ==> |r.value.1| < |ts|
    decreases |ts|, 2
  {
    if ts == [] then None
    else if ts[0] == RBracket then Some(([], ts[1..]))
    else if !first && ts[0] != Comma then None
    else
      match ParseValue(if first then ts else ts[1..])
      case None => None
      case Some((v, rest)) =>
        match ParseItems(rest, false)
        case None => None
        case Some((items, rest')) => Some(([v] + items, rest'))
  }

  // The members up to the closing brace: each a key, a colon and a value.
  function ParseMembers(ts: seq<Token>, first: bool): (r: Option<(seq<Member>, seq<Token>)>)
    ensures r.Some? ==> |r.value.1| < |ts|
    decreases |ts|, 2
  {
    if ts == [] then None
    else if ts[0] == RBrace then Some(([], ts[1..]))
    else if !first && ts[0] != Comma then None
    else
      var member := if first then ts else ts[1..];
      if |member| < 2 || !member[0].Key? || member[1] != Colon then None
      else
        match ParseValue(member[2..])
        case None => None
        case Some((v, rest)) =>
          match ParseMembers(rest, false)
          case None => None
          case Some((members, rest')) => Some(([Member(member[0].name, v)] + members, rest'))
  }

  /* ---------- what is printed is read ---------- */

  lemma {:induction false} PrintParses(v: Value, rest: seq<Token>)
    ensures ParseValue(Print(v) + rest) == Some((v, rest))
    decreases v, 1
  {
    var ts := Print(v) + rest;
    match v
    case Leaf(text) =>
      assert ts[1..] == rest;
    case Arr(items) =>
      Bracketed(LBracket, PrintItems(items, false), RBracket, rest);
      ItemsParse(items, false, rest);
    case Obj(members) =>
      Bracketed(LBrace, PrintMembers(members, false), RBrace, rest);
      MembersParse(members, false, rest);
  }

  lemma {:induction false} Bracketed(open: Token, body: seq<Token>, close: Token, rest: seq<Token>)
    ensures var ts := [open] + body + [close] + rest; ts[0] == open && ts[1..] == body + ([close] + rest)
  {
  }

  lemma {:induction false} ItemsParse(items: seq<Value>, comma: bool, rest: seq<Token>)
    ensures ParseItems(PrintItems(items, comma) + ([RBracket] + rest), !comma) == Some((items, rest))
    decreases items, 0
  {
    var ts := PrintItems(items, comma) + ([RBracket] + rest);
    if items == [] {
      assert ts == [RBracket] + rest && ts[1..] == rest;
    } else {
      var v, more := items[0], PrintItems(items[1..], true) + ([RBracket] + rest);
      PrintParses(v, more);
      ItemsParse(items[1..], true, rest);
      ItemFront(Sep(comma), Print(v), PrintItems(items[1..], true), [RBracket] + rest);
      PrintStarts(v);
      assert items == [v] + items[1..];
    }
  }

  // How the text of an item starts: with the comma, if there is one, and then the value.
  lemma {:induction false} ItemFront(sep: seq<Token>, value: seq<Token>, more: seq<Token>, rest: seq<Token>)
    requires value != [] && sep in {[], [Comma]}
    ensures var ts := sep + value + more + rest;
            && (sep == [] ==> ts == value + (more + rest) && ts[0] == value[0])
            && (sep == [Comma] ==> ts[0] == Comma && ts[1..] == value + (more + rest))
  {
  }

  lemma {:induction false} PrintStarts(v: Value)
    ensures Print(v) != [] && Print(v)[0] !in {RBracket, RBrace, Comma, Colon}
  {
  }

  lemma {:induction false} MembersParse(members: seq<Member>, comma: bool, rest: seq<Token>)
    ensures ParseMembers(PrintMembers(members, comma) + ([RBrace] + rest), !comma) == Some((members, rest))
    decreases members, 0
  {
    var ts := PrintMembers(members, comma) + ([RBrace] + rest);
    if members == [] {
      assert ts == [RBrace] + rest && ts[1..] == rest;
    } else {
      var m, more := members[0], PrintMembers(members[1..], true) + ([RBrace] + rest);
      PrintParses(m.value, more);
      MembersParse(members[1..], true, rest);
      MemberFront(Sep(comma), m.key, Print(m.value), PrintMembers(members[1..], true), [RBrace] + rest);
      assert members == [m] + members[1..];
    }
  }

  lemma {:induction false} MemberFront(sep: seq<Token>, key: string, value: seq<Token>, more: seq<Token>, rest: seq<Token>)
    requires sep in {[], [Comma]}
    ensures var ts := sep + [Key(key), Colon] + value + more + rest;
            && (sep == [] ==> |ts| >= 2 && ts[0] == Key(key) && ts[1] == Colon && ts[2..] == value + (more + rest))
            && (sep == [Comma] ==> |ts| >= 3 && ts[0] == Comma && ts[1..][0] == Key(key) && ts[1..][1] == Colon &&
                                   ts[1..][2..] == value + (more + rest))
  {
  }

  /* ---------- what is read was printed ---------- */

  lemma {:induction false} ParsePrints(ts: seq<Token>)
    requires ParseValue(ts).Some?
    ensures ts == Print(ParseValue(ts).value.0) + ParseValue(ts).value.1
    decreases |ts|, 1
  {
    match ts[0]
    case Scalar(text) =>
    case LBracket =>
      ParseItemsPrints(ts[1..], true);
      var (items, rest) := ParseItems(ts[1..], true).value;
      Bracketed(LBracket, PrintItems(items, false), RBracket, rest);
    case LBrace =>
      ParseMembersPrints(ts[1..], true);
      var (members, rest) := ParseMembers(ts[1..], true).value;
      Bracketed(LBrace, PrintMembers(members, false), RBrace, rest);
  }

  lemma {:induction false} ParseItemsPrints(ts: seq<Token>, first: bool)
    requires ParseItems(ts, first).Some?
    ensures ts == PrintItems(ParseItems(ts, first).value.0, !first) + ([RBracket] + ParseItems(ts, first).value.1)
    decreases |ts|, 2
  {
    if ts[0] != RBracket {
      var start := if first then ts else ts[1..];
      ParsePrints(start);
      var (v, rest) := ParseValue(start).value;
      ParseItemsPrints(rest, false);
      var (items, rest') := ParseItems(rest, false).value;
      ConsItems(v, items, !first);
      ItemFront(Sep(!first), Print(v), PrintItems(items, true), [RBracket] + rest');
    }
  }

  lemma {:induction false} ConsItems(v: Value, items: seq<Value>, comma: bool)
    ensures PrintItems([v] + items, comma) == Sep(comma) + Print(v) + PrintItems(items, true)
    ensures Print(v) != []
  {
    assert ([v] + items)[1..] == items;
    PrintStarts(v);
  }

  lemma {:induction false} ParseMembersPrints(ts: seq<Token>, first: bool)
    requires ParseMembers(ts, first).Some?
    ensures ts == PrintMembers(ParseMembers(ts, first).value.0, !first) + ([RBrace] + ParseMembers(ts, first).value.1)
    decreases |ts|, 2
  {
    if ts[0] != RBrace {
      var start := if first then ts else ts[1..];
      ParsePrints(start[2..]);
      var (v, rest) := ParseValue(start[2..]).value;
      ParseMembersPrints(rest, false);
      var (members, rest') := ParseMembers(rest, false).value;
      ConsMembers(Member(start[0].name, v), members, !first);
      MemberText(Sep(!first), [Key(start[0].name), Colon], Print(v), PrintMembers(members, true), [RBrace] + rest');
      OneMember(start, Print(v), PrintMembers(members, true) + ([RBrace] + rest'));
      if !first {
        assert ts == [Comma] + start;
      }
    }
  }

  lemma {:induction false} MemberText(sep: seq<Token>, head: seq<Token>, value: seq<Token>, more: seq<Token>, rest: seq<Token>)
    ensures sep + head + value + more + rest == sep + (head + value + (more + rest))
  {
  }

  lemma {:induction false} OneMember(start: seq<Token>, value: seq<Token>, more: seq<Token>)
    requires |start| >= 2 && start[0].Key? && start[1] == Colon && start[2..] == value + more
    ensures start == [Key(start[0].name), Colon] + value + more
  {
    assert start == [start[0], start[1]] + start[2..];
  }

  lemma {:induction false} ConsMembers(m: Member, members: seq<Member>, comma: bool)
    ensures PrintMembers([m] + members, comma) == Sep(comma) + [Key(m.key), Colon] + Print(m.value) + PrintMembers(members, true)
  {
    assert ([m] + members)[1..] == members;
  }

  // A text is a value of the grammar, and this one, if and only if it is its print.
  lemma {:induction false} GrammarIff(ts: seq<Token>, v: Value)
    ensures ParseValue(ts) == Some((v, [])) <==> ts == Print(v)
  {
    if ParseValue(ts) == Some((v, [])) {
      ParsePrints(ts);
      assert Print(v) + [] == Print(v);
    }
    if ts == Print(v) {
      PrintParses(v, []);
      assert Print(v) + [] == Print(v);
    }
  }

  // In the keys of one object no two are equal, and so in every object inside.
  lemma {:induction false} DistinctIff(members: seq<Member>, seen: set<string>)
    ensures DistinctMembers(members, seen) <==>
            && (forall i | 0 <= i < |members| :: Distinct(members[i].value) && members[i].key !in seen)
            && (forall i, j | 0 <= i < j < |members| :: members[i].key != members[j].key)
    decreases |members|
  {
    if members != [] {
      DistinctIff(members[1..], seen + {members[0].key});
      assert forall i | 0 <= i < |members| - 1 :: members[1..][i] == members[i + 1];
    }
  }

  // The writer's text is a value of the grammar whenever `toString` gives one.
  lemma {:induction false} WriterWritesGrammar(cs: seq<Call>)
    requires Run(START, cs).Some? && Text(Run(START, cs).value).Some?
    ensures var r := ParseValue(Text(Run(START, cs).value).value);
            r.Some? && r.value.1 == [] && !r.value.0.Leaf? && Distinct(r.value.0)
  {
    WriterSound(cs);
    var text := Text(Run(START, cs).value).value;
    var v: Value :| !v.Leaf? && Distinct(v) && text == Print(v);
    GrammarIff(text, v);
  }
}
