/** `CDL`: comma-delimited rows, printed by `rowToString` and read back by `rowToJSONArray`. */
module Cdl {
  import opened Wrappers
  import opened Sequences
  import opened Tokener

  datatype Result<+T> = Ok(value: T) | SyntaxError

  type Row = seq<string>

  /* ---------- printing ---------- */

  predicate NeedsQuotes(v: string) {
    v != [] && (',' in v || '\n' in v || '\r' in v || NUL in v || v[0] == '"')
  }

  predicate Survives(c: char) { c >= ' ' && c != '"' }

  function Survivors(v: string): string {
    if v == [] then [] else (if Survives(v[0]) then [v[0]] else []) + Survivors(v[1..])
  }

  function Cell(v: string): string {
    if NeedsQuotes(v) then ['"'] + Survivors(v) + ['"'] else v
  }

  // The cells of a row after its first, each behind a comma, then the newline and `rest`.
  function Cells(row: Row, rest: string): string {
    if row == [] then ['\n'] + rest else [','] + (Cell(row[0]) + Cells(row[1..], rest))
  }

  // The printed row in front of `rest`.
  function Print(row: Row, rest: string): string {
    if row == [] then ['\n'] + rest else Cell(row[0]) + Cells(row[1..], rest)
  }

  function RowToString(row: Row): string {
    Print(row, [])
  }

  lemma {:induction false} CellsConcat(row: Row, rest: string)
    ensures Cells(row, rest) == Cells(row, []) + rest
  {
    if row == [] {
      assert ['\n'] + [] == ['\n'];
    } else {
      CellsConcat(row[1..], rest);
      Concat4([','], Cell(row[0]), Cells(row[1..], []), rest);
    }
  }

  lemma {:induction false} PrintConcat(row: Row, rest: string)
    ensures Print(row, rest) == RowToString(row) + rest
  {
    if row == [] {
      assert ['\n'] + [] == ['\n'];
    } else {
      CellsConcat(row[1..], rest);
      Concat3(Cell(row[0]), Cells(row[1..], []), rest);
    }
  }

  lemma {:induction false} Concat4(a: string, b: string, c: string, d: string)
    ensures a + (b + (c + d)) == a + (b + c) + d
  {
  }

  method PrintRow(row: Row) returns (sb: string)
    ensures sb == RowToString(row)
  {
    sb := [];
    var i := 0;
    while i < |row|
      invariant 0 <= i <= |row|
      invariant sb + From(row, i) == RowToString(row)
    {
      FromAt(sb, row, i);
      if i > 0 {
        sb := sb + [','];
      }
      var cell := PrintCell(row[i]);
      sb := sb + cell;
      i := i + 1;
    }
    sb := sb + ['\n'];
  }

  // What is still to be printed before the i-th cell.
  ghost function From(row: Row, i: nat): string
    requires i <= |row|
  {
    if i == 0 then RowToString(row) else Cells(row[i..], [])
  }

  lemma {:induction false} FromAt(was: string, row: Row, i: nat)
    requires i < |row|
    ensures was + From(row, i) == (if i > 0 then was + [','] else was) + Cell(row[i]) + From(row, i + 1)
  {
    assert row[i..][1..] == row[i + 1..];
    var more := From(row, i + 1);
    if i > 0 {
      Concat3(was, [','], Cell(row[i]) + more);
      Concat3(was + [','], Cell(row[i]), more);
    } else {
      Concat3(was, Cell(row[0]), more);
    }
  }

  method PrintCell(v: string) returns (sb: string)
    ensures sb == Cell(v)
  {
    if NeedsQuotes(v) {
      sb := KeepSurvivors(v);
      sb := ['"'] + sb + ['"'];
    } else {
      sb := v;
    }
  }

  method KeepSurvivors(v: string) returns (sb: string)
    ensures sb == Survivors(v)
  {
    sb := [];
    var j := 0;
    assert v[0..] == v;
    while j < |v|
      invariant 0 <= j <= |v| && sb + Survivors(v[j..]) == Survivors(v)
    {
      var c := v[j];
      KeepOne(sb, v, j);
      if c >= ' ' && c != '"' {
        sb := sb + [c];
      }
      j := j + 1;
    }
  }

  lemma {:induction false} KeepOne(sb: string, v: string, j: nat)
    requires j < |v|
    ensures sb + Survivors(v[j..]) == (if Survives(v[j]) then sb + [v[j]] else sb) + Survivors(v[j + 1..])
  {
    assert v[j..][1..] == v[j + 1..];
    if Survives(v[j]) {
      Concat3(sb, [v[j]], Survivors(v[j + 1..]));
    }
  }

  /* ---------- reading ---------- */

  function SkipBlanks(r: string): string {
    if r != [] && (r[0] == ' ' || r[0] == '\t') then SkipBlanks(r[1..]) else r
  }

  // Inside quotes: a quote followed by a double quote stands for the quote itself. The
  // character after the closing quote is pushed back, a NUL if there is none.
  function Quoted(q: char, r: string, acc: string): Result<(string, string)>
    decreases |r|
  {
    if r == [] || r[0] == NUL || r[0] == '\n' || r[0] == '\r' then SyntaxError
    else if r[0] == q then
      if Head(r[1..]) != '"' then Ok((acc, [Head(r[1..])] + Tail(r[1..])))
      else Quoted(q, Tail(r[1..]), acc + [q])
    else Quoted(q, r[1..], acc + [r[0]])
  }

  // getValue: the value (None at the end of the text) and what is left.
  function GetValue(r: string): Result<(Option<string>, string)> {
    var t := SkipBlanks(r);
    var c := Head(t);
    if c == NUL then Ok((None, Tail(t)))
    else if c == '"' || c == '\'' then
      match Quoted(c, Tail(t), [])
      case SyntaxError => SyntaxError
      case Ok((v, rest)) => Ok((Some(v), rest))
    else if c == ',' then Ok((Some([]), t))
    else var (v, rest) := NextTo(t, ','); Ok((Some(v), rest))
  }

  datatype AfterCell = AtComma(rest: string) | AtEnd(rest: string) | Bad

  // After a value: blanks, then a comma or the end of the row.
  function Separator(c: char, r: string): AfterCell
    decreases |r|, c == ' '
  {
    if c == ',' then AtComma(r)
    else if c != ' ' then (if c == '\n' || c == '\r' || c == NUL then AtEnd(r) else Bad)
    else Separator(Head(r), Tail(r))
  }

  // rowToJSONArray after some values: the row (None if there is none) and what is left.
  function ReadRow(acc: Row, r: string): Result<(Option<Row>, string)>
    decreases |r|
  {
    match GetValue(r)
    case SyntaxError => SyntaxError
    case Ok((value, rest)) =>
      var c := Head(rest);
      if value.None? || (acc == [] && value.value == [] && c != ',') then Ok((None, Tail(rest)))
      else
        match Separator(c, Tail(rest))
        case Bad => SyntaxError
        case AtEnd(rest') => Ok((Some(acc + [value.value]), rest'))
        case AtComma(rest') =>
          GetValueShrinks(r);
          SeparatorShrinks(c, Tail(rest));
          ReadRow(acc + [value.value], rest')
  }

  lemma {:induction false} SkipBlanksShrinks(r: string)
    ensures |SkipBlanks(r)| <= |r|
  {
    if r != [] && (r[0] == ' ' || r[0] == '\t') {
      SkipBlanksShrinks(r[1..]);
    }
  }

  lemma {:induction false} QuotedShrinks(q: char, r: string, acc: string)
    requires Quoted(q, r, acc).Ok?
    ensures 0 < |Quoted(q, r, acc).value.1| <= |r|
    decreases |r|
  {
    if r[0] == q {
      if Head(r[1..]) == '"' {
        QuotedShrinks(q, Tail(r[1..]), acc + [q]);
      }
    } else {
      QuotedShrinks(q, r[1..], acc + [r[0]]);
    }
  }

  // A value leaves less text once the character after it is read.
  lemma {:induction false} GetValueShrinks(r: string)
    requires GetValue(r).Ok? && GetValue(r).value.0.Some?
    ensures |Tail(GetValue(r).value.1)| < |r|
  {
    var t := SkipBlanks(r);
    SkipBlanksShrinks(r);
    if Head(t) == '"' || Head(t) == '\'' {
      QuotedShrinks(Head(t), Tail(t), []);
    } else if Head(t) != ',' {
      ReadOnShrinks([], t, ',');
    }
  }

  lemma {:induction false} SeparatorShrinks(c: char, r: string)
    ensures Separator(c, r).AtComma? ==> |Separator(c, r).rest| <= |r|
    ensures Separator(c, r).AtEnd? ==> |Separator(c, r).rest| <= |r|
    decreases |r|, c == ' '
  {
    if c == ' ' {
      SeparatorShrinks(Head(r), Tail(r));
    }
  }

  lemma {:induction false} ReadRowShrinks(acc: Row, r: string)
    requires ReadRow(acc, r).Ok? && ReadRow(acc, r).value.0.Some?
    ensures |ReadRow(acc, r).value.1| < |r|
    decreases |r|
  {
    var (value, rest) := GetValue(r).value;
    GetValueShrinks(r);
    SeparatorShrinks(Head(rest), Tail(rest));
    var s := Separator(Head(rest), Tail(rest));
    if s.AtComma? {
      ReadRowShrinks(acc + [value.value], s.rest);
    }
  }

  // The row loop of toJSONArray: rows until there is none.
  function ReadTable(r: string): Result<seq<Row>>
    decreases |r|
  {
    match ReadRow([], r)
    case SyntaxError => SyntaxError
    case Ok((None, _)) => Ok([])
    case Ok((Some(row), rest)) =>
      ReadRowShrinks([], r);
      After([row], ReadTable(rest))
  }

  function After(rows: seq<Row>, more: Result<seq<Row>>): Result<seq<Row>> {
    if more.Ok? then Ok(rows + more.value) else SyntaxError
  }

  /* ---------- one value there and back ---------- */

  // The values that survive printing: quoted ones without quotes or control characters,
  // unquoted ones that are trimmed and do not start like a quoted one.
  ghost predicate Clean(v: string) {
    if NeedsQuotes(v) then forall c | c in v :: Survives(c)
    else Trimmed(v) && (v == [] || v[0] != '\'')
  }

  lemma {:induction false} SurvivorsAll(v: string)
    ensures forall c | c in Survivors(v) :: Survives(c)
    ensures |Survivors(v)| <= |v|
    ensures Survivors(v) == v <==> forall c | c in v :: Survives(c)
  {
    if v != [] {
      SurvivorsAll(v[1..]);
      assert v == [v[0]] + v[1..];
      assert forall c :: c in v <==> c == v[0] || c in v[1..];
    }
  }

  lemma {:induction false} QuotedReads(acc: string, v: string, d: char, rest: string)
    requires (forall c | c in v :: Survives(c)) && d != '"'
    ensures Quoted('"', v + ['"', d] + rest, acc) == Ok((acc + v, [d] + rest))
    decreases |v|
  {
    var r := v + ['"', d] + rest;
    if v == [] {
      assert r == ['"', d] + rest;
      assert r[1..] == [d] + rest;
      assert acc + v == acc;
    } else {
      assert v[0] in v && r[0] == v[0];
      assert r[1..] == v[1..] + ['"', d] + rest;
      QuotedReads(acc + [v[0]], v[1..], d, rest);
      assert acc + [v[0]] + v[1..] == acc + v;
    }
  }

  // Reading a printed cell that needs no quotes.
  lemma {:induction false} PlainReads(v: string, d: char, rest: string)
    requires !NeedsQuotes(v) && Clean(v) && (d == ',' || d == '\n')
    ensures GetValue(v + ([d] + rest)) == Ok((Some(v), [d] + rest))
  {
    var r := v + ([d] + rest);
    if v == [] {
      assert r == [d] + rest;
      if d == '\n' {
        NextToAll([], [d] + rest, ',');
        assert Trim([]) == [];
      }
    } else {
      assert r[0] == v[0] > ' ';
      assert SkipBlanks(r) == r;
      assert v[0] in v;
      NextToAll(v, [d] + rest, ',');
      TrimTrims(v);
    }
  }

  lemma {:induction false} QuotesRead(v: string, d: char, rest: string)
    requires NeedsQuotes(v) && (d == ',' || d == '\n')
    ensures GetValue(Cell(v) + ([d] + rest)) == Ok((Some(Survivors(v)), [d] + rest))
  {
    SurvivorsAll(v);
    var w := Survivors(v);
    Requote(w, d, rest);
    QuotedReads([], w, d, rest);
    assert [] + w == w;
    QuotedValue('"', w + ['"', d] + rest);
  }

  lemma {:induction false} Requote(w: string, d: char, rest: string)
    ensures (['"'] + w + ['"']) + ([d] + rest) == ['"'] + (w + ['"', d] + rest)
  {
    var x, y := (['"'] + w + ['"']) + ([d] + rest), ['"'] + (w + ['"', d] + rest);
    assert |x| == |y| && forall i | 0 <= i < |x| :: x[i] == y[i];
  }

  // A value that starts with a quote is read by `Quoted`.
  lemma {:induction false} QuotedValue(q: char, r: string)
    requires q == '"' || q == '\''
    ensures Quoted(q, r, []).Ok? ==>
              GetValue([q] + r) == Ok((Some(Quoted(q, r, []).value.0), Quoted(q, r, []).value.1))
  {
    assert SkipBlanks([q] + r) == [q] + r;
    assert ([q] + r)[1..] == r;
  }

  // An opening quote that the value does not close runs into the comma after the value.
  lemma {:induction false} RunsIntoComma(q: char, p: string, d: char, rest: string, acc: string)
    requires (q == '"' || q == '\'') && (d == ',' || d == '\n')
    ensures Quoted(q, p + ([d] + rest), acc).Ok? ==>
              var w := Quoted(q, p + ([d] + rest), acc).value.0; |w| <= |acc| + |p| || ',' in w
    decreases |p|
  {
    var r := p + ([d] + rest);
    if Quoted(q, r, acc).Ok? {
      if p == [] {
        assert r == [d] + rest;
        QuotedExtends(q, r[1..], acc + [d]);
        assert (acc + [d])[|acc|] == ',';
      } else {
        assert r[0] == p[0] && r[1..] == p[1..] + ([d] + rest);
        if p[0] != q {
          RunsIntoComma(q, p[1..], d, rest, acc + [p[0]]);
        } else if |p| > 1 && p[1] == '"' {
          assert r[1..][1..] == p[2..] + ([d] + rest);
          RunsIntoComma(q, p[2..], d, rest, acc + [q]);
        } else {
          assert Head(r[1..]) == if |p| > 1 then p[1] else d;
        }
      }
    }
  }

  lemma {:induction false} QuotedExtends(q: char, r: string, acc: string)
    requires Quoted(q, r, acc).Ok?
    ensures acc <= Quoted(q, r, acc).value.0
    decreases |r|
  {
    if r[0] == q {
      if Head(r[1..]) == '"' {
        QuotedExtends(q, Tail(r[1..]), acc + [q]);
      }
    } else {
      QuotedExtends(q, r[1..], acc + [r[0]]);
    }
  }

  lemma {:induction false} SkipBlanksWithin(v: string, x: string)
    requires x != [] && x[0] != ' ' && x[0] != '\t'
    ensures SkipBlanks(v + x) == SkipBlanks(v) + x
  {
    if v == [] {
      assert v + x == x;
    } else {
      assert (v + x)[1..] == v[1..] + x;
      if v[0] == ' ' || v[0] == '\t' {
        SkipBlanksWithin(v[1..], x);
      }
    }
  }

  // A plain value that is not clean never comes back, whatever follows it.
  lemma {:induction false} PlainMisreads(v: string, d: char, rest: string)
    requires !NeedsQuotes(v) && !Clean(v) && (d == ',' || d == '\n')
    ensures GetValue(v + ([d] + rest)).Ok? ==> GetValue(v + ([d] + rest)).value.0 != Some(v)
  {
    var x := [d] + rest;
    var s, t := SkipBlanks(v), SkipBlanks(v + x);
    SkipBlanksWithin(v, x);
    SkipBlanksShrinks(v);
    if Head(t) == '"' || Head(t) == '\'' {
      assert s != [] && t[1..] == s[1..] + x;
      RunsIntoComma(Head(t), s[1..], d, rest, []);
    } else if Head(t) != ',' && Head(t) != NUL {
      if Trimmed(v) {
        BlanksOrQuote(v, x);
        assert false;
      }
      ReadOnTrims([], t, ',');
    }
  }

  lemma {:induction false} ReadOnTrims(acc: string, r: string, delimiter: char)
    ensures Trimmed(ReadOn(acc, r, delimiter).0)
    decreases |r|
  {
    if r == [] || Stops(r[0], delimiter) {
      TrimTrims(acc);
    } else {
      ReadOnTrims(acc + [r[0]], r[1..], delimiter);
    }
  }

  // A plain value that is unclean although trimmed starts with a single quote.
  lemma {:induction false} BlanksOrQuote(v: string, rest: string)
    requires !NeedsQuotes(v) && !Clean(v) && Trimmed(v)
    ensures Head(SkipBlanks(v + rest)) == '\''
  {
    assert (v + rest)[0] == v[0];
    assert SkipBlanks(v + rest) == v + rest;
  }

  // A value comes back from its printed cell exactly when it is clean, and if it does then
  // reading stops right after it.
  lemma {:induction false} CellRoundTripIff(v: string, d: char, rest: string)
    requires d == ',' || d == '\n'
    ensures Clean(v) ==> GetValue(Cell(v) + ([d] + rest)) == Ok((Some(v), [d] + rest))
    ensures !Clean(v) && GetValue(Cell(v) + ([d] + rest)).Ok? ==>
              GetValue(Cell(v) + ([d] + rest)).value.0 != Some(v)
  {
    if NeedsQuotes(v) {
      QuotesRead(v, d, rest);
      SurvivorsAll(v);
    } else if Clean(v) {
      PlainReads(v, d, rest);
    } else {
      PlainMisreads(v, d, rest);
    }
  }

  // What printing quotes, and what it leaves alone.
  lemma {:induction false} PrintedCell(v: string)
    ensures var special := v != [] && (',' in v || '\n' in v || '\r' in v || NUL in v || v[0] == '"');
            if !special then Cell(v) == v
            else |Cell(v)| >= 2 && Cell(v)[0] == '"' && Cell(v)[|Cell(v)| - 1] == '"' && Cell(v)[1..|Cell(v)| - 1] == Survivors(v)
  {
  }

  lemma {:induction false} TailWithin(v: string)
    requires v != []
    ensures forall c | c in v[1..] :: c in v
  {
  }

  // Quotes, control characters and nothing else are dropped from a quoted value.
  lemma {:induction false} SurvivorsCount(v: string, c: char)
    ensures multiset(Survivors(v))[c] == if Survives(c) then multiset(v)[c] else 0
  {
    if v != [] {
      SurvivorsCount(v[1..], c);
      assert v == [v[0]] + v[1..];
    }
  }

  // A quote stands for itself if a double quote follows it.
  function Doubled(q: char, v: string): string {
    if v == [] then [] else (if v[0] == q then [q, '"'] else [v[0]]) + Doubled(q, v[1..])
  }

  // Reading a value in quotes, with every such quote in it doubled, gives the value; reading stops
  // behind the closing quote.
  lemma {:induction false} DoubledReads(q: char, v: string, acc: string, d: char, rest: string)
    requires (q == '"' || q == '\'') && d != '"' && forall c | c in v :: c != NUL && c != '\n' && c != '\r'
    ensures Quoted(q, Doubled(q, v) + ([q, d] + rest), acc) == Ok((acc + v, [d] + rest))
    decreases |v|
  {
    var r := Doubled(q, v) + ([q, d] + rest);
    if v == [] {
      assert r == [q, d] + rest && r[1..] == [d] + rest;
      assert acc + v == acc;
    } else {
      assert v[0] in v;
      TailWithin(v);
      DoubledReads(q, v[1..], acc + [v[0]], d, rest);
      assert acc + [v[0]] + v[1..] == acc + v;
      var more := Doubled(q, v[1..]) + ([q, d] + rest);
      if v[0] == q {
        assert r == [q, '"'] + more && r[1..] == ['"'] + more && r[1..][1..] == more;
      } else {
        assert r == [v[0]] + more && r[1..] == more;
      }
    }
  }

  lemma {:induction false} DoubledValue(q: char, v: string, d: char, rest: string)
    requires (q == '"' || q == '\'') && d != '"' && forall c | c in v :: c != NUL && c != '\n' && c != '\r'
    ensures GetValue([q] + (Doubled(q, v) + ([q, d] + rest))) == Ok((Some(v), [d] + rest))
  {
    DoubledReads(q, v, [], d, rest);
    assert [] + v == v;
    QuotedValue(q, Doubled(q, v) + ([q, d] + rest));
  }

  // A value in quotes that the line ends before its closing quote is an error.
  lemma {:induction false} UnclosedQuote(q: char, v: string, rest: string, acc: string)
    requires (forall c | c in v :: c != q) && (rest == [] || rest[0] in {NUL, '\n', '\r'}) && q !in {NUL, '\n', '\r'}
    ensures Quoted(q, v + rest, acc) == SyntaxError
    decreases |v|
  {
    if v == [] {
      assert v + rest == rest;
    } else {
      assert v[0] in v && (v + rest)[1..] == v[1..] + rest;
      TailWithin(v);
      UnclosedQuote(q, v[1..], rest, acc + [v[0]]);
    }
  }

  // Blanks before a value do not matter.
  lemma {:induction false} BlanksSkipped(blanks: string, r: string)
    requires forall c | c in blanks :: c == ' ' || c == '\t'
    ensures SkipBlanks(blanks + r) == SkipBlanks(r) && GetValue(blanks + r) == GetValue(r)
  {
    if blanks == [] {
      assert blanks + r == r;
    } else {
      assert blanks[0] in blanks && (blanks + r)[1..] == blanks[1..] + r;
      TailWithin(blanks);
      BlanksSkipped(blanks[1..], r);
    }
  }

  // After a value: spaces, then a comma or the end of the line; anything else is an error.
  lemma {:induction false} SeparatorIs(spaces: string, c: char, rest: string)
    requires (forall x | x in spaces :: x == ' ') && c != ' '
    ensures var r := spaces + ([c] + rest);
            Separator(Head(r), Tail(r)) ==
            if c == ',' then AtComma(rest) else if c in {'\n', '\r', NUL} then AtEnd(rest) else Bad
  {
    var r := spaces + ([c] + rest);
    if spaces == [] {
      assert r == [c] + rest && Tail(r) == rest;
    } else {
      assert spaces[0] in spaces && Tail(r) == spaces[1..] + ([c] + rest);
      TailWithin(spaces);
      SeparatorIs(spaces[1..], c, rest);
    }
  }

  /* ---------- tables there and back ---------- */

  ghost predicate CleanRow(row: Row) {
    row != [] && row != [[]] && AllClean(row)
  }

  ghost predicate AllClean(row: Row) {
    row == [] || (Clean(row[0]) && AllClean(row[1..]))
  }

  lemma {:induction false} AllCleanIff(row: Row)
    ensures AllClean(row) <==> forall v | v in row :: Clean(v)
  {
    if row != [] {
      AllCleanIff(row[1..]);
      assert row == [row[0]] + row[1..];
    }
  }

  lemma {:induction false} RowReads(acc: Row, row: Row, rest: string)
    requires row != [] && AllClean(row) && !(acc == [] && row == [[]])
    ensures ReadRow(acc, Print(row, rest)) == Ok((Some(acc + row), rest))
    decreases |row|
  {
    var v, more := row[0], row[1..];
    if more == [] {
      assert row == [v];
      LastCellReads(acc, v, rest);
    } else {
      NextCellReads(acc, v, Print(more, rest));
      RowReads(acc + [v], more, rest);
      MoveOver(acc, row);
    }
  }

  lemma {:induction false} MoveOver<T>(acc: seq<T>, row: seq<T>)
    requires row != []
    ensures acc + [row[0]] + row[1..] == acc + row
  {
  }

  lemma {:induction false} LastCellReads(acc: Row, v: string, rest: string)
    requires Clean(v) && !(acc == [] && v == [])
    ensures ReadRow(acc, Cell(v) + (['\n'] + rest)) == Ok((Some(acc + [v]), rest))
  {
    CellRoundTripIff(v, '\n', rest);
    assert Tail(['\n'] + rest) == rest;
  }

  lemma {:induction false} NextCellReads(acc: Row, v: string, rest: string)
    requires Clean(v)
    ensures ReadRow(acc, Cell(v) + ([','] + rest)) == ReadRow(acc + [v], rest)
  {
    CellRoundTripIff(v, ',', rest);
    assert Tail([','] + rest) == rest;
  }

  function TableToString(rows: seq<Row>): string {
    if rows == [] then [] else RowToString(rows[0]) + TableToString(rows[1..])
  }

  // Reading a printed table gives its rows and then nothing more, if and only if every row
  // is clean.
  lemma {:induction false} TableRoundTripIff(rows: seq<Row>)
    ensures ReadTable(TableToString(rows)) == Ok(rows) <==> forall row | row in rows :: CleanRow(row)
  {
    if rows != [] {
      var row, more := rows[0], rows[1..];
      assert rows == [row] + more;
      PrintConcat(row, TableToString(more));
      if CleanRow(row) {
        RowReads([], row, TableToString(more));
        assert [] + row == row;
        TableRoundTripIff(more);
      } else {
        assert row in rows;
        RowMisreads(row, TableToString(more));
      }
    }
  }

  lemma {:induction false} RowMisreads(row: Row, rest: string)
    requires !CleanRow(row)
    ensures ReadRow([], Print(row, rest)).Ok? ==> ReadRow([], Print(row, rest)).value.0 != Some(row)
  {
    if row == [] || row == [[]] {
      assert Print(row, rest) == ['\n'] + rest;
      PlainReads([], '\n', rest);
      assert [] + (['\n'] + rest) == ['\n'] + rest;
    } else {
      CellMisreads([], row, rest);
      assert [] + row == row;
    }
  }

  lemma {:induction false} CellMisreads(acc: Row, row: Row, rest: string)
    requires !AllClean(row)
    ensures ReadRow(acc, Print(row, rest)).Ok? ==> ReadRow(acc, Print(row, rest)).value.0 != Some(acc + row)
    decreases |row|
  {
    var v, more := row[0], row[1..];
    if Clean(v) {
      NextCellReads(acc, v, Print(more, rest));
      CellMisreads(acc + [v], more, rest);
      MoveOver(acc, row);
    } else {
      if more == [] {
        CellRoundTripIff(v, '\n', rest);
      } else {
        CellRoundTripIff(v, ',', Print(more, rest));
      }
      var found := ReadRow(acc, Print(row, rest));
      assert (acc + row)[|acc|] == v;
      if found.Ok? && found.value.0.Some? {
        ReadRowExtends(acc, Print(row, rest));
      }
    }
  }

  // A row that is read starts with what was there and the value read first.
  lemma {:induction false} ReadRowExtends(acc: Row, r: string)
    requires ReadRow(acc, r).Ok? && ReadRow(acc, r).value.0.Some?
    ensures GetValue(r).Ok? && GetValue(r).value.0.Some?
    ensures acc + [GetValue(r).value.0.value] <= ReadRow(acc, r).value.0.value
    decreases |r|
  {
    var (value, rest) := GetValue(r).value;
    GetValueShrinks(r);
    SeparatorShrinks(Head(rest), Tail(rest));
    var s := Separator(Head(rest), Tail(rest));
    if s.AtComma? {
      ReadRowExtends(acc + [value.value], s.rest);
    }
  }

  /* ---------- the reader, from a JSONTokener ---------- */

  method NextValue(x: JSONTokener) returns (value: Result<Option<string>>)
    requires x.Valid()
    modifies x
    ensures x.Valid()
    ensures value.Ok? ==> GetValue(old(x.Rest())) == Ok((value.value, x.Rest()))
    ensures value.SyntaxError? <==> GetValue(old(x.Rest())).SyntaxError?
  {
    ghost var r := x.Rest();
    var c := x.Next();
    while c == ' ' || c == '\t'
      invariant x.Valid() && x.previous == c && !x.usePrevious && x.index > 0
      invariant c == Head(r) && x.Rest() == Tail(r)
      invariant SkipBlanks(r) == SkipBlanks(old(x.Rest()))
      decreases |x.Rest()|, c == ' ' || c == '\t'
    {
      r := r[1..];
      c := x.Next();
    }
    if c == NUL {
      return Ok(None);
    }
    if c == '"' || c == '\'' {
      var v := QuotedValueOf(x, c);
      return if v.Ok? then Ok(Some(v.value)) else SyntaxError;
    }
    var threw := x.Back();
    assert x.Rest() == r;
    if c == ',' {
      return Ok(Some([]));
    }
    var text := x.ReadTo(',');
    return Ok(Some(text));
  }

  method QuotedValueOf(x: JSONTokener, q: char) returns (v: Result<string>)
    requires x.Valid() && (q == '"' || q == '\'')
    modifies x
    ensures x.Valid()
    ensures v.Ok? ==> Quoted(q, old(x.Rest()), []) == Ok((v.value, x.Rest()))
    ensures v.SyntaxError? <==> Quoted(q, old(x.Rest()), []).SyntaxError?
  {
    ghost var goal := Quoted(q, x.Rest(), []);
    var sb := [];
    while true
      invariant x.Valid() && Quoted(q, x.Rest(), sb) == goal
      decreases |x.Rest()|
    {
      var c := x.Next();
      if c == q {
        var d := x.Next();
        if d != '"' {
          var threw := x.Back();
          return Ok(sb);
        }
      }
      if c == NUL || c == '\n' || c == '\r' {
        return SyntaxError;
      }
      sb := sb + [c];
    }
  }

  // rowToJSONArray: None is its null.
  method RowToJSONArray(x: JSONTokener) returns (row: Result<Option<Row>>)
    requires x.Valid()
    modifies x
    ensures x.Valid()
    ensures row.Ok? ==> ReadRow([], old(x.Rest())) == Ok((row.value, x.Rest()))
    ensures row.SyntaxError? <==> ReadRow([], old(x.Rest())).SyntaxError?
  {
    ghost var goal := ReadRow([], x.Rest());
    var ja := [];
    while true
      invariant x.Valid() && ReadRow(ja, x.Rest()) == goal
      decreases |x.Rest()|
    {
      ghost var r := x.Rest();
      var value := NextValue(x);
      if value.SyntaxError? {
        return SyntaxError;
      }
      var c := x.Next();
      if value.value.None? || (|ja| == 0 && |value.value.value| == 0 && c != ',') {
        return Ok(None);
      }
      GetValueShrinks(r);
      SeparatorShrinks(c, x.Rest());
      ja := ja + [value.value.value];
      ghost var found := Separator(c, x.Rest());
      while c != ','
        invariant x.Valid() && Separator(c, x.Rest()) == found
        decreases |x.Rest()|, c == ' '
      {
        if c != ' ' {
          if c == '\n' || c == '\r' || c == NUL {
            return Ok(Some(ja));
          }
          return SyntaxError;
        }
        c := x.Next();
      }
    }
  }

  // The rows of a text, one rowToJSONArray after another until it gives null.
  method RowsOf(x: JSONTokener) returns (rows: Result<seq<Row>>)
    requires x.Valid()
    modifies x
    ensures x.Valid() && rows == ReadTable(old(x.Rest()))
  {
    ghost var goal := ReadTable(x.Rest());
    var ja := [];
    assert goal == After([], goal) by {
      assert goal.Ok? ==> [] + goal.value == goal.value;
    }
    while true
      invariant x.Valid() && goal == After(ja, ReadTable(x.Rest()))
      decreases |x.Rest()|
    {
      ghost var r := x.Rest();
      var row := RowToJSONArray(x);
      if row.SyntaxError? {
        return SyntaxError;
      }
      if row.value.None? {
        assert ja + [] == ja;
        return Ok(ja);
      }
      ReadRowShrinks([], r);
      AfterOne(ja, row.value.value, ReadTable(x.Rest()));
      ja := ja + [row.value.value];
    }
  }

  lemma {:induction false} AfterOne(rows: seq<Row>, row: Row, more: Result<seq<Row>>)
    ensures After(rows, After([row], more)) == After(rows + [row], more)
  {
    if more.Ok? {
      assert rows + ([row] + more.value) == rows + [row] + more.value;
    }
  }
}
