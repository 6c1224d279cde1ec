/** Sizzle's `:nth-child` and `:nth-last-child`: finding an element's position among its
    siblings with indexes cached for one run, and the final test against `an + b`. */
module NthChild {
  import opened Wrappers
  import opened Dom

  /* ---------- positions ---------- */

  function Kids(t: Tree, parent: Node): seq<bool>
    requires InTree(t, parent)
  {
    var c := Subtree(t, parent).children;
    seq(|c|, i requires 0 <= i < |c| => c[i].element)
  }

  // The number of element nodes in a stretch of children.
  function Count(kids: seq<bool>): nat {
    if kids == [] then 0 else Count(kids[..|kids| - 1]) + (if kids[|kids| - 1] then 1 else 0)
  }

  lemma {:induction false} CountSplit(a: seq<bool>, b: seq<bool>)
    ensures Count(a + b) == Count(a) + Count(b)
  {
    if b == [] {
      assert a + b == a;
    } else {
      CountSplit(a, b[..|b| - 1]);
      assert (a + b)[..|a + b| - 1] == a + b[..|b| - 1];
    }
  }

  // 1-based position among the element children, from the front and from the back.
  function Position(kids: seq<bool>, i: nat): nat
    requires i < |kids|
  {
    Count(kids[..i + 1])
  }

  function PositionFromEnd(kids: seq<bool>, i: nat): nat
    requires i < |kids|
  {
    Count(kids[i..])
  }

  lemma {:induction false} CountStep(kids: seq<bool>, i: nat, j: nat)
    requires i <= j < |kids|
    ensures Count(kids[i..j + 1]) == Count(kids[i..j]) + (if kids[j] then 1 else 0)
  {
    assert kids[i..j + 1][..j - i] == kids[i..j];
  }

  lemma {:induction false} CountFront(kids: seq<bool>, i: nat, j: nat)
    requires i < j <= |kids|
    ensures Count(kids[i..j]) == (if kids[i] then 1 else 0) + Count(kids[i + 1..j])
  {
    assert kids[i..j] == [kids[i]] + kids[i + 1..j];
    CountSplit([kids[i]], kids[i + 1..j]);
  }

  /* ---------- the final test ---------- */

  // `diff === first || (diff % first === 0 && diff / first >= 0)` on doubles: a remainder by
  // zero is NaN and compares unequal to everything.
  predicate FinalTest(first: int, last: int, position: int) {
    var diff := position - last;
    diff == first || (first != 0 && diff % first == 0 && diff as real / first as real >= 0.0)
  }

  lemma {:induction false} SmallMultiple(first: int, k: int, r: int)
    requires first != 0 && first * k == r && 0 <= r < (if first > 0 then first else -first)
    ensures r == 0
  {
    if k >= 1 {
    } else if k <= -1 {
    }
  }

  lemma {:induction false} Multiple(first: int, n: int)
    requires first != 0
    ensures (first * n) % first == 0
  {
    var x := first * n;
    var q := x / first;
    assert x == first * q + x % first;
    assert first * (n - q) == x % first;
    SmallMultiple(first, n - q, x % first);
  }

  // The test holds exactly when the position is first*n + last for some n >= 0.
  lemma {:induction false} FinalTestIsFormula(first: int, last: int, position: int)
    ensures FinalTest(first, last, position) <==> exists n: nat :: first * n + last == position
  {
    var diff := position - last;
    if FinalTest(first, last, position) {
      if diff == first {
        assert first * 1 + last == position;
      } else {
        var n := diff / first;
        assert diff == first * n;
        Quotient(first, n);
      }
    }
    if n: nat :| first * n + last == position {
      assert diff == first * n;
      if first == 0 {
        assert first * n == 0;
      } else {
        Multiple(first, n);
        Quotient(first, n);
      }
    }
  }

  lemma {:induction false} Quotient(first: int, n: int)
    requires first != 0
    ensures (first * n) as real / first as real >= 0.0 <==> n >= 0
  {
    assert (first * n) as real == first as real * n as real;
    assert (first * n) as real / first as real == n as real;
  }

  /* ---------- the seeking loops ---------- */

  // Seek `elem` from the cached child (index zero stands for none), and start over from the
  // first child at most once. Returns a zero position if `elem` is not an element.
  method Seek(kids: seq<bool>, elem: nat, cachedIndex: nat, cachedDiff: nat) returns (diff: nat)
    requires elem < |kids| && cachedIndex < |kids|
    requires cachedIndex != 0 ==> cachedDiff == Position(kids, cachedIndex)
    ensures diff == if kids[elem] then Position(kids, elem) else 0
  {
    var start := [0];
    var nodeIndex := cachedIndex;
    diff := if nodeIndex != 0 then cachedDiff else 0;
    var node: Option<nat> := if nodeIndex != 0 then Some(nodeIndex) else None;
    while true
      invariant start == [0] || start == []
      invariant node.Some? ==> node.value == nodeIndex < |kids| && diff == Position(kids, nodeIndex)
      invariant start == [] ==> node.Some? && (kids[elem] ==> nodeIndex < elem)
      decreases |start|, |kids| - (if node.Some? then node.value else -1)
    {
      nodeIndex := nodeIndex + 1;
      if node.Some? && node.value + 1 < |kids| {
        node := Some(node.value + 1);
        CountStep(kids, 0, node.value);
      } else {
        diff, nodeIndex := 0, 0;
        if start == [] {
          return;
        }
        node, start := Some(start[|start| - 1]), start[..|start| - 1];
        CountStep(kids, 0, 0);
      }
      if kids[node.value] {
        diff := diff + 1;
        if node.value == elem {
          return;
        }
      }
    }
  }

  // What one backward search numbers each child: before `elem` the distance to it, from
  // `elem` on the true position from the end.
  ghost function Numbered(kids: seq<bool>, elem: nat, i: nat): nat
    requires elem < |kids| && i < |kids|
  {
    if elem <= i then PositionFromEnd(kids, i) else Count(kids[i..elem])
  }

  // The backward loop starts at `elem` itself, so it first numbers the earlier siblings, and
  // only then starts over from the last child. `notes` is what it writes on the children.
  method SeekBack(kids: seq<bool>, elem: nat) returns (diff: nat, notes: map<nat, nat>)
    requires elem < |kids| && kids[elem]
    ensures diff == PositionFromEnd(kids, elem)
    ensures forall i | i in notes :: i < |kids| && kids[i] && notes[i] == Numbered(kids, elem, i)
    ensures forall i | 0 <= i < |kids| && kids[i] :: i in notes
  {
    diff, notes := 0, map[];
    var node := elem;
    var start := [|kids| - 1];
    while true
      invariant start == [|kids| - 1] || start == []
      invariant 0 <= node < |kids| && if start == [] then elem < node else node <= elem
      invariant diff == if start == [] then Count(kids[node..]) else Count(kids[node..elem])
      invariant forall i | i in notes :: i < |kids| && kids[i] && notes[i] == Numbered(kids, elem, i)
      invariant forall i | 0 <= i < |kids| && kids[i] ::
        (if i < elem then start == [] || node <= i else start == [] && node <= i) ==> i in notes
      decreases |start|, node
    {
      if start == [] || node > 0 {
        node := node - 1;
        CountFront(kids, node, if start == [] then |kids| else elem);
      } else {
        diff := 0;
        node, start := start[|start| - 1], start[..|start| - 1];
        CountFront(kids, node, |kids|);
      }
      WholeSlice(kids, node);
      assert diff + (if kids[node] then 1 else 0) == if start == [] then Count(kids[node..]) else Count(kids[node..elem]);
      if kids[node] {
        diff := diff + 1;
        notes := notes[node := diff];
        if node == elem {
          return;
        }
      }
    }
  }

  lemma {:induction false} WholeSlice(kids: seq<bool>, i: nat)
    requires i < |kids|
    ensures kids[i..|kids|] == kids[i..] && kids[i + 1..|kids|] == kids[i + 1..]
  {
  }

  // What the forward branch stores on the parent, and the backward branch on each child.
  datatype Entry = Entry(run: int, index: nat, diff: nat)

  class ChildRun {
    const tree: Tree
    const dirruns: int
    var forward: map<Node, Entry>
    var backward: map<(Node, nat), (int, nat)>
    // The first child asked for among each parent's children by the backward branch.
    ghost var firstAsked: map<Node, nat>

    // Entries of earlier runs may be there, but none yet of this one.
    constructor (tree: Tree, dirruns: int, forward: map<Node, Entry>, backward: map<(Node, nat), (int, nat)>)
      requires forall p | p in forward :: forward[p].run != dirruns
      requires forall k | k in backward :: backward[k].0 != dirruns
      ensures this.tree == tree && this.dirruns == dirruns && firstAsked == map[]
      ensures Valid()
    {
      this.tree, this.dirruns := tree, dirruns;
      this.forward, this.backward, firstAsked := forward, backward, map[];
    }

    ghost predicate Valid()
      reads this
    {
      && (forall p | p in forward && forward[p].run == dirruns ::
            && InTree(tree, p)
            && forward[p].index < |Kids(tree, p)|
            && forward[p].diff == Position(Kids(tree, p), forward[p].index))
      && (forall k | k in backward && backward[k].0 == dirruns :: k.0 in firstAsked)
      && (forall p | p in firstAsked :: Answered(p))
    }

    // Every element child of `p` carries the number that the first backward search gave it.
    ghost predicate Answered(p: Node)
      requires p in firstAsked
      reads this
    {
      && InTree(tree, p) && firstAsked[p] < |Kids(tree, p)| && Kids(tree, p)[firstAsked[p]]
      && forall i | 0 <= i < |Kids(tree, p)| && Kids(tree, p)[i] ::
           (p, i) in backward && backward[(p, i)] == (dirruns, Numbered(Kids(tree, p), firstAsked[p], i))
    }

    // Whatever siblings were asked for before, the position is the true one.
    method SeekForward(parent: Node, elem: nat) returns (diff: nat)
      requires Valid() && InTree(tree, parent) && elem < |Kids(tree, parent)|
      modifies this
      ensures Valid() && backward == old(backward) && firstAsked == old(firstAsked)
      ensures diff == if Kids(tree, parent)[elem] then Position(Kids(tree, parent), elem) else 0
    {
      var kids := Kids(tree, parent);
      if parent in forward && forward[parent].run == dirruns {
        diff := Seek(kids, elem, forward[parent].index, forward[parent].diff);
      } else {
        diff := Seek(kids, elem, 0, 0);
      }
      if kids[elem] {
        forward := forward[parent := Entry(dirruns, elem, diff)];
      }
    }

    // The first child asked for gets its true position; after that every answer comes from
    // what that first search wrote.
    method SeekBackward(parent: Node, elem: nat) returns (diff: nat)
      requires Valid() && InTree(tree, parent) && elem < |Kids(tree, parent)| && Kids(tree, parent)[elem]
      modifies this
      ensures Valid() && forward == old(forward)
      ensures firstAsked == if parent in old(firstAsked) then old(firstAsked) else old(firstAsked)[parent := elem]
      ensures diff == Numbered(Kids(tree, parent), firstAsked[parent], elem)
      ensures diff == PositionFromEnd(Kids(tree, parent), elem) <==>
              (parent in old(firstAsked) ==> old(firstAsked)[parent] <= elem)
    {
      var kids := Kids(tree, parent);
      if (parent, elem) in backward && backward[(parent, elem)].0 == dirruns {
        diff := backward[(parent, elem)].1;
        assert Answered(parent);
      } else {
        assert parent in firstAsked ==> Answered(parent);
        var notes;
        diff, notes := SeekBack(kids, elem);
        WriteNotes(parent, elem, notes);
      }
      BackwardRightIff(kids, elem, firstAsked[parent]);
    }

    method WriteNotes(parent: Node, elem: nat, notes: map<nat, nat>)
      requires Valid() && InTree(tree, parent) && parent !in firstAsked
      requires elem < |Kids(tree, parent)| && Kids(tree, parent)[elem]
      requires forall i | i in notes ::
                 i < |Kids(tree, parent)| && notes[i] == Numbered(Kids(tree, parent), elem, i)
      requires forall i | 0 <= i < |Kids(tree, parent)| && Kids(tree, parent)[i] :: i in notes
      modifies this
      ensures Valid() && forward == old(forward)
      ensures firstAsked == old(firstAsked)[parent := elem]
    {
      var written := map i | i in notes :: (parent, i) := (dirruns, notes[i]);
      backward := backward + written;
      firstAsked := firstAsked[parent := elem];
      forall p | p in firstAsked ensures Answered(p) {
        if p != parent {
          assert old(Answered(p));
        }
      }
    }

    // The filter as a whole, forward form: does `elem` match `:nth-child(first n + last)`?
    method MatchesNthChild(elem: Node, first: int, last: int) returns (b: bool)
      requires Valid() && IsElement(tree, elem)
      modifies this
      ensures Valid()
      ensures b <==> elem != [] && exists n: nat :: first * n + last == ChildPosition(tree, elem)
    {
      if elem == [] {
        return false;
      }
      var parent, i := elem[..|elem| - 1], elem[|elem| - 1];
      ChildOf(tree, elem);
      ghost var position := ChildPosition(tree, elem);
      FinalTestIsFormula(first, last, position);
      if first == 1 && last == 0 {
        assert 1 * position + 0 == position;
        return true;
      }
      var diff := SeekForward(parent, i);
      b := FinalTest(first, last, diff);
    }
  }

  lemma {:induction false} ChildOf(t: Tree, n: Node)
    requires InTree(t, n) && n != []
    ensures InTree(t, n[..|n| - 1])
    ensures n[|n| - 1] < |Kids(t, n[..|n| - 1])|
    ensures Kids(t, n[..|n| - 1])[n[|n| - 1]] == IsElement(t, n)
    decreases |n|
  {
    if |n| > 1 {
      ChildOf(t.children[n[0]], n[1..]);
      assert n[..|n| - 1][1..] == n[1..][..|n| - 2];
    } else {
      assert n[..|n| - 1] == [] && n[1..] == [];
      assert Subtree(t, n) == Subtree(t.children[n[0]], []);
    }
  }

  // An element's 1-based position among the element children of its parent.
  function ChildPosition(t: Tree, n: Node): nat
    requires InTree(t, n) && n != []
  {
    ChildOf(t, n);
    Position(Kids(t, n[..|n| - 1]), n[|n| - 1])
  }

  // The remembered number is the true position from the end exactly for the children that do
  // not precede the first one asked for.
  lemma {:induction false} BackwardRightIff(kids: seq<bool>, i: nat, asked: nat)
    requires i < |kids| && asked < |kids| && kids[asked]
    ensures Numbered(kids, asked, i) == PositionFromEnd(kids, i) <==> asked <= i
  {
    if i < asked {
      assert kids[i..] == kids[i..asked] + kids[asked..];
      CountSplit(kids[i..asked], kids[asked..]);
      CountFront(kids, asked, |kids|);
      assert kids[asked..|kids|] == kids[asked..];
    }
  }

  // Two element children queried last-first: the second answer is wrong.
  lemma {:induction false} BackwardGoesWrong()
    ensures Numbered([true, true], 1, 0) == 1 && PositionFromEnd([true, true], 0) == 2
  {
    assert [true, true][0..1] == [true];
    assert [true, true][0..][..1] == [true];
    assert [true][..0] == [];
  }
}
