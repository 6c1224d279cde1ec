/** mustache's nestTokens: a flat sequence of tokens becomes a tree of sections. */
module Nesting {
  import opened Wrappers
  import opened Template
  import opened Squashing

  /* ---------- which section a token is in ---------- */

  // The indexes of the sections that are open before the n-th token.
  function OpenAt(ts: seq<Token>, n: nat): (o: seq<nat>)
    requires n <= |ts|
    ensures forall k | 0 <= k < |o| :: o[k] < n && ts[o[k]].IsOpen()
  {
    if n == 0 then []
    else
      var o := OpenAt(ts, n - 1);
      if ts[n - 1].IsOpen() then o + [n - 1]
      else if ts[n - 1].IsClose() && o != [] then o[..|o| - 1]
      else o
  }

  // The innermost one.
  function Enclosing(ts: seq<Token>, j: nat): (p: Option<nat>)
    requires j <= |ts|
    ensures p.Some? ==> p.value < j && ts[p.value].IsOpen()
  {
    var o := OpenAt(ts, j);
    if o == [] then None else Some(o[|o| - 1])
  }

  // The q-th token closes the section opened by the p-th.
  predicate Closes(ts: seq<Token>, p: nat, q: nat) {
    q < |ts| && ts[q].IsClose() && Enclosing(ts, q) == Some(p)
  }

  // The tokens among the first n, close tags aside, that are directly in section p, or in none.
  function Kids(ts: seq<Token>, n: nat, p: Option<nat>): (ks: seq<nat>)
    requires n <= |ts|
    ensures forall k | 0 <= k < |ks| :: ks[k] < n && !ts[ks[k]].IsClose()
  {
    if n == 0 then []
    else if !ts[n - 1].IsClose() && Enclosing(ts, n - 1) == p then Kids(ts, n - 1, p) + [n - 1]
    else Kids(ts, n - 1, p)
  }

  // Where section p is closed within the first n tokens.
  function CloseAt(ts: seq<Token>, n: nat, p: nat): Option<nat>
    requires n <= |ts|
  {
    if n == 0 then None
    else if Closes(ts, p, n - 1) then Some(ts[n - 1].start)
    else CloseAt(ts, n - 1, p)
  }

  lemma {:induction false} StackPrefix(ts: seq<Token>, n: nat)
    requires n <= |ts| && Stack(ts).Some?
    ensures Stack(ts[..n]).Some?
    decreases |ts| - n
  {
    if n == |ts| {
      assert ts[..n] == ts;
    } else {
      StackPrefix(ts, n + 1);
      StackUpTo(ts, n + 1);
    }
  }

  // The parser's section check and the nesting keep the same stack.
  lemma {:induction false} SameStack(ts: seq<Token>, n: nat)
    requires n <= |ts| && Stack(ts[..n]).Some?
    ensures var st, o := Stack(ts[..n]).value, OpenAt(ts, n);
            |st| == |o| && forall k | 0 <= k < |o| :: st[k] == ts[o[k]]
  {
    if n > 0 {
      StackUpTo(ts, n);
      SameStack(ts, n - 1);
      SameAdvance(ts, n - 1, Stack(ts[..n - 1]).value);
    }
  }

  lemma {:induction false} SameAdvance(ts: seq<Token>, n: nat, st: seq<Token>)
    requires n < |ts| && |st| == |OpenAt(ts, n)| && Advance(Some(st), ts[n]).Some?
    requires forall k | 0 <= k < |st| :: st[k] == ts[OpenAt(ts, n)[k]]
    ensures var st', o := Advance(Some(st), ts[n]).value, OpenAt(ts, n + 1);
            |st'| == |o| && forall k | 0 <= k < |o| :: st'[k] == ts[o[k]]
  {
  }

  // On tokens that passed the section check, a close tag always finds an open section, and it
  // is the one of its name.
  lemma {:induction false} NeverPopsEmpty(ts: seq<Token>, q: nat)
    requires Stack(ts).Some? && q < |ts| && ts[q].IsClose()
    ensures Enclosing(ts, q).Some? && ts[Enclosing(ts, q).value].value == ts[q].value
  {
    StackPrefix(ts, q);
    StackPrefix(ts, q + 1);
    SameStack(ts, q);
    StackUpTo(ts, q + 1);
  }

  lemma {:induction false} AllClosed(ts: seq<Token>)
    requires Stack(ts) == Some([])
    ensures OpenAt(ts, |ts|) == []
  {
    assert ts[..|ts|] == ts;
    SameStack(ts, |ts|);
  }

  lemma {:induction false} OpenRises(ts: seq<Token>, n: nat)
    requires n <= |ts|
    ensures forall i, j | 0 <= i < j < |OpenAt(ts, n)| :: OpenAt(ts, n)[i] < OpenAt(ts, n)[j]
  {
    if n > 0 {
      OpenRises(ts, n - 1);
    }
  }

  lemma {:induction false} GoneStaysGone(ts: seq<Token>, p: nat, j: nat, m: nat)
    requires p < j <= m <= |ts| && p !in OpenAt(ts, j)
    ensures p !in OpenAt(ts, m)
    decreases m - j
  {
    if j < m {
      GoneStaysGone(ts, p, j, m - 1);
    }
  }

  lemma {:induction false} ClosedIsGone(ts: seq<Token>, p: nat, q: nat)
    requires Closes(ts, p, q)
    ensures p in OpenAt(ts, q) && p !in OpenAt(ts, q + 1)
  {
    OpenRises(ts, q);
    var o := OpenAt(ts, q);
    assert o[|o| - 1] == p;
  }

  // What is nested in a section, at any depth, are exactly the tokens up to its close tag.
  lemma {:induction false} NestedExactly(ts: seq<Token>, p: nat, q: nat, j: nat)
    requires Closes(ts, p, q) && j <= |ts|
    ensures p in OpenAt(ts, j) <==> p < j <= q
  {
    ClosedIsGone(ts, p, q);
    if p in OpenAt(ts, j) {
      if q + 1 <= j {
        GoneStaysGone(ts, p, q + 1, j);
      }
    } else if p < j <= q {
      GoneStaysGone(ts, p, j, q);
    }
  }

  lemma {:induction false} OpenedIsOpen(ts: seq<Token>, p: nat)
    requires p < |ts| && ts[p].IsOpen()
    ensures p in OpenAt(ts, p + 1)
  {
    var o := OpenAt(ts, p + 1);
    assert o[|o| - 1] == p;
  }

  // A section leaves the stack only from its top.
  lemma {:induction false} StaysOpen(ts: seq<Token>, p: nat, q: nat)
    requires q < |ts| && p in OpenAt(ts, q) && !Closes(ts, p, q)
    ensures p in OpenAt(ts, q + 1)
  {
    var o := OpenAt(ts, q);
    var k :| 0 <= k < |o| && o[k] == p;
    if ts[q].IsOpen() {
      assert (o + [q])[k] == p;
    } else if ts[q].IsClose() && k < |o| - 1 {
      assert o[..|o| - 1][k] == p;
    }
  }

  lemma {:induction false} FindClose(ts: seq<Token>, p: nat, m: nat) returns (q: nat)
    requires p < m <= |ts| && ts[p].IsOpen() && p !in OpenAt(ts, m)
    ensures Closes(ts, p, q) && q < m
  {
    OpenedIsOpen(ts, p);
    if p in OpenAt(ts, m - 1) {
      q := m - 1;
      if !Closes(ts, p, q) {
        StaysOpen(ts, p, q);
        assert false;
      }
    } else {
      q := FindClose(ts, p, m - 1);
    }
  }

  lemma {:induction false} CloseAtIs(ts: seq<Token>, p: nat, q: nat, n: nat)
    requires Closes(ts, p, q) && q < n <= |ts|
    ensures CloseAt(ts, n, p) == Some(ts[q].start)
  {
    if n - 1 > q {
      if Closes(ts, p, n - 1) {
        ClosedIsGone(ts, p, n - 1);
        NestedExactly(ts, p, q, n - 1);
        assert false;
      }
      CloseAtIs(ts, p, q, n - 1);
    }
  }

  /* ---------- nestTokens ---------- */

  // A token object with its nested tokens and the position of its close tag (elements 4 and 5).
  // Objects live in a sequence, in the order of the tokens, and are referred to by index.
  datatype Node = Node(token: Token, kids: seq<nat>, close: Option<nat>)

  // What the object of the i-th token must be after the first n tokens.
  function NodeAfter(ts: seq<Token>, n: nat, i: nat): Node
    requires i < |ts| && n <= |ts|
  {
    Node(ts[i], Kids(ts, n, Some(i)), CloseAt(ts, n, i))
  }

  // `top` holds the tokens that are in no section.
  ghost predicate Nests(top: seq<nat>, nodes: seq<Node>, ts: seq<Token>, n: nat)
    requires n <= |ts|
  {
    top == Kids(ts, n, None) && nodes == NodesAfter(ts, n)
  }

  ghost function NodesAfter(ts: seq<Token>, n: nat): (nodes: seq<Node>)
    requires n <= |ts|
    ensures |nodes| == |ts|
  {
    seq(|ts|, i requires 0 <= i < |ts| => NodeAfter(ts, n, i))
  }

  method NestTokens(ts: seq<Token>) returns (top: seq<nat>, nodes: seq<Node>)
    requires Stack(ts) == Some([])
    ensures Nests(top, nodes, ts, |ts|)
  {
    top := [];
    nodes := seq(|ts|, i requires 0 <= i < |ts| => Node(ts[i], [], None));
    var collector: Option<nat> := None;   // nestedTokens, or the element 4 of a section
    var sections: seq<nat> := [];
    NestsStart(ts);
    for i := 0 to |ts|
      invariant Nests(top, nodes, ts, i)
      invariant sections == OpenAt(ts, i) && collector == Enclosing(ts, i)
    {
      if ts[i].IsClose() {
        nodes, sections, collector := Close(ts, i, top, nodes, sections);
      } else {
        top, nodes := Collect(ts, i, top, nodes, collector);
        OpenStep(ts, i);
        if ts[i].IsOpen() {
          sections := sections + [i];
          collector := Some(i);
        }
      }
    }
  }

  // A close tag: the innermost section is done.
  method Close(ts: seq<Token>, i: nat, ghost top: seq<nat>, nodes: seq<Node>, sections: seq<nat>)
    returns (nodes': seq<Node>, sections': seq<nat>, collector: Option<nat>)
    requires Stack(ts) == Some([]) && i < |ts| && ts[i].IsClose()
    requires Nests(top, nodes, ts, i) && sections == OpenAt(ts, i)
    ensures Nests(top, nodes', ts, i + 1) && sections' == OpenAt(ts, i + 1) && collector == Enclosing(ts, i + 1)
  {
    NeverPopsEmpty(ts, i);
    NestsStep(top, nodes, ts, i);
    OpenStep(ts, i);
    var section := sections[|sections| - 1];
    sections' := sections[..|sections| - 1];
    nodes' := nodes[section := nodes[section].(close := Some(ts[i].start))];
    collector := if |sections'| > 0 then Some(sections'[|sections'| - 1]) else None;
  }

  // Any other tag or a text: `collector.push(token)`.
  method Collect(ts: seq<Token>, i: nat, top: seq<nat>, nodes: seq<Node>, collector: Option<nat>)
    returns (top': seq<nat>, nodes': seq<Node>)
    requires i < |ts| && !ts[i].IsClose() && Nests(top, nodes, ts, i) && collector == Enclosing(ts, i)
    ensures Nests(top', nodes', ts, i + 1)
  {
    NestsStep(top, nodes, ts, i);
    top', nodes' := top, nodes;
    if collector.None? {
      top' := top + [i];
    } else {
      nodes' := nodes[collector.value := nodes[collector.value].(kids := nodes[collector.value].kids + [i])];
    }
  }

  lemma {:induction false} NestsStep(top: seq<nat>, nodes: seq<Node>, ts: seq<Token>, n: nat)
    requires n < |ts| && Nests(top, nodes, ts, n)
    ensures match Enclosing(ts, n)
            case None => Nests(if ts[n].IsClose() then top else top + [n], nodes, ts, n + 1)
            case Some(p) =>
              if ts[n].IsClose() then Nests(top, nodes[p := nodes[p].(close := Some(ts[n].start))], ts, n + 1)
              else Nests(top, nodes[p := nodes[p].(kids := nodes[p].kids + [n])], ts, n + 1)
  {
    forall i: nat | i < |ts|
      ensures NodesAfter(ts, n + 1)[i] ==
              if Enclosing(ts, n) != Some(i) then nodes[i]
              else if ts[n].IsClose() then nodes[i].(close := Some(ts[n].start))
              else nodes[i].(kids := nodes[i].kids + [n])
    {
      NodeStep(ts, n, i);
    }
  }

  lemma {:induction false} OpenStep(ts: seq<Token>, n: nat)
    requires n < |ts|
    ensures ts[n].IsOpen() ==> OpenAt(ts, n + 1) == OpenAt(ts, n) + [n] && Enclosing(ts, n + 1) == Some(n)
    ensures !ts[n].IsOpen() && !ts[n].IsClose() ==>
              OpenAt(ts, n + 1) == OpenAt(ts, n) && Enclosing(ts, n + 1) == Enclosing(ts, n)
    ensures ts[n].IsClose() && OpenAt(ts, n) != [] ==> OpenAt(ts, n + 1) == OpenAt(ts, n)[..|OpenAt(ts, n)| - 1]
  {
  }

  lemma {:induction false} NestsStart(ts: seq<Token>)
    ensures Nests([], seq(|ts|, i requires 0 <= i < |ts| => Node(ts[i], [], None)), ts, 0)
  {
  }

  // The next token changes only the section it is in: a kid more, or the close position.
  lemma {:induction false} NodeStep(ts: seq<Token>, n: nat, i: nat)
    requires i < |ts| && n < |ts|
    ensures NodeAfter(ts, n + 1, i) ==
            if Enclosing(ts, n) != Some(i) then NodeAfter(ts, n, i)
            else if ts[n].IsClose() then NodeAfter(ts, n, i).(close := Some(ts[n].start))
            else NodeAfter(ts, n, i).(kids := NodeAfter(ts, n, i).kids + [n])
  {
  }

  /* ---------- sections and the template ---------- */

  // The tokens inside a section cover exactly the template from the end of its opening tag to
  // the start of its closing tag.
  lemma {:induction false} SectionCovers(template: string, ts: seq<Token>, p: nat, q: nat)
    requires Covers(template, ts, 0, |template|) && Closes(ts, p, q)
    ensures p < q && Covers(template, ts[p + 1..q], ts[p].end, ts[q].start)
  {
    var us := ts[p + 1..q];
    forall i: nat | i < |us| ensures FitsAt(template, us, ts[p].end, i) {
      assert FitsAt(template, ts, 0, p + 1 + i);
    }
    assert FitsAt(template, ts, 0, q);
  }

  // Every section is closed exactly once, by a tag of its name; its close position is where that
  // tag starts, and the tokens up to there are its own and cover its source.
  lemma {:induction false} SectionSpan(template: string, ts: seq<Token>, p: nat) returns (q: nat)
    requires Stack(ts) == Some([]) && Covers(template, ts, 0, |template|) && p < |ts| && ts[p].IsOpen()
    ensures Closes(ts, p, q) && ts[q].value == ts[p].value && CloseAt(ts, |ts|, p) == Some(ts[q].start)
    ensures forall j: nat | j <= |ts| :: p in OpenAt(ts, j) <==> p < j <= q
    ensures Covers(template, ts[p + 1..q], ts[p].end, ts[q].start)
  {
    AllClosed(ts);
    q := FindClose(ts, p, |ts|);
    NeverPopsEmpty(ts, q);
    CloseAtIs(ts, p, q, |ts|);
    forall j: nat | j <= |ts| ensures p in OpenAt(ts, j) <==> p < j <= q {
      NestedExactly(ts, p, q, j);
    }
    SectionCovers(template, ts, p, q);
  }
}
