/** Sizzle's fallback comparator `sortOrder` and `uniqueSort`: comparing two nodes by their
    ancestor paths, and sorting a result list without duplicates into document order. */
module DocumentOrder {
  import opened Wrappers
  import opened Dom

  /* ---------- document order ---------- */

  function Under(k: nat, ns: seq<Node>): seq<Node> {
    seq(|ns|, i requires 0 <= i < |ns| => [k] + ns[i])
  }

  // All nodes of a tree, in preorder.
  function Preorder(t: Tree): seq<Node>
    decreases t, 1
  {
    [[]] + PreorderOf(t.children, 0)
  }

  function PreorderOf(kids: seq<Tree>, k: nat): seq<Node>
    decreases kids, 0
  {
    if kids == [] then [] else Under(k, Preorder(kids[0])) + PreorderOf(kids[1..], k + 1)
  }

  // `a` comes before `b` in a listing of nodes.
  ghost predicate Earlier(listing: seq<Node>, a: Node, b: Node) {
    exists i, j :: 0 <= i < j < |listing| && listing[i] == a && listing[j] == b
  }

  // The same order read off the paths: an ancestor first, then by child index.
  predicate Before(a: Node, b: Node)
    decreases |b|
  {
    b != [] && (a == [] || a[0] < b[0] || (a[0] == b[0] && Before(a[1..], b[1..])))
  }

  lemma {:induction false} BeforeTotal(a: Node, b: Node)
    ensures Before(a, b) || Before(b, a) || a == b
    ensures !(Before(a, b) && Before(b, a))
    ensures !Before(a, a)
    decreases |a|
  {
    if a != [] {
      BeforeTotal(a[1..], a[1..]);
      if b != [] && a[0] == b[0] {
        BeforeTotal(a[1..], b[1..]);
        assert a == [a[0]] + a[1..] && b == [b[0]] + b[1..];
      }
    }
  }

  lemma {:induction false} BeforeTransitive(a: Node, b: Node, c: Node)
    requires Before(a, b) && Before(b, c)
    ensures Before(a, c)
    decreases |c|
  {
    if a != [] && a[0] == b[0] == c[0] {
      BeforeTransitive(a[1..], b[1..], c[1..]);
    }
  }

  ghost predicate Increasing(ns: seq<Node>) {
    forall i, j | 0 <= i < j < |ns| :: Before(ns[i], ns[j])
  }

  lemma {:induction false} PreorderLists(t: Tree)
    ensures forall n :: n in Preorder(t) <==> InTree(t, n)
    ensures Increasing(Preorder(t))
    decreases t, 1
  {
    PreorderOfLists(t.children, 0);
    var below := PreorderOf(t.children, 0);
    forall n ensures n in Preorder(t) <==> InTree(t, n) {
      assert n in Preorder(t) <==> n == [] || n in below;
    }
    forall i, j | 0 <= i < j < |Preorder(t)| ensures Before(Preorder(t)[i], Preorder(t)[j]) {
      assert Preorder(t)[j] == below[j - 1];
      assert below[j - 1] in below;
      if i > 0 {
        assert Preorder(t)[i] == below[i - 1];
      }
    }
  }

  lemma {:induction false} PreorderOfLists(kids: seq<Tree>, k: nat)
    ensures forall n :: n in PreorderOf(kids, k) <==>
              n != [] && k <= n[0] < k + |kids| && InTree(kids[n[0] - k], n[1..])
    ensures Increasing(PreorderOf(kids, k))
    decreases kids, 0
  {
    if kids != [] {
      PreorderLists(kids[0]);
      PreorderOfLists(kids[1..], k + 1);
      UnderMembers(k, Preorder(kids[0]));
      var head, tail := Under(k, Preorder(kids[0])), PreorderOf(kids[1..], k + 1);
      forall i, j | 0 <= i < j < |head + tail| ensures Before((head + tail)[i], (head + tail)[j]) {
        if j < |head| {
          assert head[i][1..] == Preorder(kids[0])[i] && head[j][1..] == Preorder(kids[0])[j];
        } else if i < |head| {
          assert head[i] in head && tail[j - |head|] in tail;
        }
      }
    }
  }

  lemma {:induction false} UnderMembers(k: nat, ns: seq<Node>)
    ensures forall n :: n in Under(k, ns) <==> n != [] && n[0] == k && n[1..] in ns
  {
    forall n | n != [] && n[0] == k && n[1..] in ns ensures n in Under(k, ns) {
      var i :| 0 <= i < |ns| && ns[i] == n[1..];
      assert Under(k, ns)[i] == n;
    }
    forall n | n in Under(k, ns) ensures n != [] && n[0] == k && n[1..] in ns {
      var i :| 0 <= i < |ns| && Under(k, ns)[i] == n;
      assert n[1..] == ns[i];
    }
  }

  // Path order is preorder.
  lemma {:induction false} BeforeIsPreorder(t: Tree, a: Node, b: Node)
    requires InTree(t, a) && InTree(t, b)
    ensures Before(a, b) <==> Earlier(Preorder(t), a, b)
  {
    PreorderLists(t);
    var pre := Preorder(t);
    if Before(a, b) {
      var i :| 0 <= i < |pre| && pre[i] == a;
      var j :| 0 <= j < |pre| && pre[j] == b;
      BeforeTotal(a, b);
    }
  }

  /* ---------- the comparator ---------- */

  // A node of the document (root 0) or of some other, detached tree.
  datatype Place = Place(root: nat, path: Node)

  const DOCUMENT := Place(0, [])

  function Up(p: Place): Option<Place> {
    if p.path == [] then None else Some(Place(p.root, p.path[..|p.path| - 1]))
  }

  function IndexOf(ps: seq<Place>, p: Place): int {
    if ps == [] then -1 else if ps[0] == p then 0
    else var k := IndexOf(ps[1..], p); if k < 0 then -1 else k + 1
  }

  // The comparator's answer, case by case.
  function Verdict(a: Place, b: Place, preferred: Place, input: Option<seq<Place>>): int {
    if a == b then 0
    else if a.path == [] || b.path == [] then
      if a == DOCUMENT then -1
      else if b == DOCUMENT then 1
      else if a.path != [] then -1
      else if b.path != [] then 1
      else if input.Some? then IndexOf(input.value, a) - IndexOf(input.value, b)
      else 0
    else if a.root == b.root then (if Before(a.path, b.path) then -1 else 1)
    else if Place(a.root, []) == preferred then -1
    else if Place(b.root, []) == preferred then 1
    else 0
  }

  // Within the document the comparator is preorder: negative exactly for the earlier node.
  lemma {:induction false} VerdictIsPreorder(t: Tree, a: Place, b: Place, preferred: Place, input: Option<seq<Place>>)
    requires a.root == b.root == DOCUMENT.root && InTree(t, a.path) && InTree(t, b.path)
    ensures Verdict(a, b, preferred, input) < 0 <==> Earlier(Preorder(t), a.path, b.path)
    ensures Verdict(a, b, preferred, input) > 0 <==> Earlier(Preorder(t), b.path, a.path)
  {
    BeforeIsPreorder(t, a.path, b.path);
    BeforeIsPreorder(t, b.path, a.path);
    BeforeTotal(a.path, b.path);
  }

  // In a detached tree it is preorder exactly between two nodes that both have a parent: a
  // parentless root is placed after its own descendants.
  lemma {:induction false} DetachedIff(t: Tree, a: Place, b: Place, preferred: Place, input: Option<seq<Place>>)
    requires a.root == b.root != DOCUMENT.root && a != b && InTree(t, a.path) && InTree(t, b.path)
    ensures (Verdict(a, b, preferred, input) < 0 <==> Earlier(Preorder(t), a.path, b.path))
            <==> a.path != [] && b.path != []
  {
    BeforeIsPreorder(t, a.path, b.path);
    BeforeIsPreorder(t, b.path, a.path);
    BeforeTotal(a.path, b.path);
  }

  // Nodes of different trees: the preferred document first, otherwise undecided.
  lemma {:induction false} DifferentTrees(a: Place, b: Place, preferred: Place, input: Option<seq<Place>>)
    requires a.root != b.root && a.path != [] && b.path != []
    ensures Verdict(a, b, preferred, input) < 0 <==> preferred == Place(a.root, [])
    ensures Verdict(a, b, preferred, input) > 0 <==> preferred == Place(b.root, [])
  {
  }

  // Parentless nodes: the document before all others, then those that have a parent; between two
  // that have none, the order of the list being sorted, or none if that is not kept.
  lemma {:induction false} ParentlessNodes(a: Place, b: Place, preferred: Place, input: Option<seq<Place>>)
    requires a != b && a.path == []
    ensures a == DOCUMENT ==> Verdict(a, b, preferred, input) < 0
    ensures a != DOCUMENT && (b == DOCUMENT || b.path != []) ==> Verdict(a, b, preferred, input) > 0
    ensures a != DOCUMENT && b != DOCUMENT && b.path == [] && input.None? ==> Verdict(a, b, preferred, input) == 0
    ensures a != DOCUMENT && b != DOCUMENT && b.path == [] && input.Some? && a in input.value && b in input.value ==>
              (Verdict(a, b, preferred, input) < 0 <==>
               exists i :: 0 <= i < |input.value| && input.value[i] == a && b !in input.value[..i])
  {
    if input.Some? && a in input.value && b in input.value {
      FirstBefore(input.value, a, b);
    }
  }

  lemma {:induction false} FirstBefore(ps: seq<Place>, a: Place, b: Place)
    requires a in ps && b in ps && a != b
    ensures IndexOf(ps, a) < IndexOf(ps, b) <==> exists i :: 0 <= i < |ps| && ps[i] == a && b !in ps[..i]
  {
    IndexIsFirst(ps, a);
    IndexIsFirst(ps, b);
    var i, j := IndexOf(ps, a), IndexOf(ps, b);
    if i < j {
      assert ps[i] == a && b !in ps[..i];
    } else {
      forall k | 0 <= k < |ps| && ps[k] == a ensures b in ps[..k] {
        InFront(ps, b, j, k);
      }
    }
  }

  lemma {:induction false} InFront(ps: seq<Place>, p: Place, j: nat, k: nat)
    requires j < k <= |ps| && ps[j] == p
    ensures p in ps[..k]
  {
    assert ps[..k][j] == p;
  }

  lemma {:induction false} IndexIsFirst(ps: seq<Place>, p: Place)
    requires p in ps
    ensures 0 <= IndexOf(ps, p) < |ps| && ps[IndexOf(ps, p)] == p && forall i | 0 <= i < IndexOf(ps, p) :: ps[i] != p
  {
    if ps[0] != p {
      IndexIsFirst(ps[1..], p);
    }
  }

  // The two orders of asking never contradict each other.
  lemma {:induction false} VerdictTurns(a: Place, b: Place, preferred: Place, input: Option<seq<Place>>)
    ensures Verdict(a, b, preferred, input) == -Verdict(b, a, preferred, input)
  {
    BeforeTotal(a.path, b.path);
  }

  // The ancestors of a place from its root down to itself.
  ghost function Lineage(p: Place): seq<Place> {
    seq(|p.path| + 1, i requires 0 <= i <= |p.path| => Place(p.root, p.path[..i]))
  }

  // `ap`: the list built by repeated unshift of the parent.
  method Ancestors(p: Place) returns (ap: seq<Place>)
    ensures ap == Lineage(p)
  {
    ap := [p];
    var cur := Up(p);
    while cur.Some?
      invariant 1 <= |ap| <= |p.path| + 1
      invariant forall i | 0 <= i < |ap| :: ap[i] == Place(p.root, p.path[..|p.path| + 1 - |ap| + i])
      invariant cur == Up(ap[0])
      decreases |p.path| + 1 - |ap|
    {
      ap := [cur.value] + ap;
      cur := Up(cur.value);
    }
  }

  lemma {:induction false} FirstDifference(a: Node, b: Node, i: nat)
    requires i <= |a| && i <= |b| && a[..i] == b[..i]
    requires i < |a| && i < |b| ==> a[i] != b[i]
    requires i < |a| || i < |b|
    ensures Before(a, b) <==> i == |a| || (i < |b| && a[i] < b[i])
    decreases i
  {
    if i > 0 {
      assert a[0] == a[..i][0] == b[..i][0] == b[0];
      assert a[1..][..i - 1] == a[..i][1..] == b[..i][1..] == b[1..][..i - 1];
      FirstDifference(a[1..], b[1..], i - 1);
    }
  }

  class Sizzle {
    const trees: seq<Tree>
    const preferredDoc: Place
    const detectDuplicates: bool
    const sortStable: bool
    var hasDuplicate: bool
    var sortInput: Option<seq<Place>>

    constructor (trees: seq<Tree>, preferredDoc: Place, detectDuplicates: bool, sortStable: bool)
      ensures this.trees == trees && this.preferredDoc == preferredDoc
      ensures this.detectDuplicates == detectDuplicates && this.sortStable == sortStable
    {
      this.trees, this.preferredDoc := trees, preferredDoc;
      this.detectDuplicates, this.sortStable := detectDuplicates, sortStable;
      hasDuplicate, sortInput := false, None;
    }

    predicate Exists(p: Place) {
      p.root < |trees| && InTree(trees[p.root], p.path)
    }

    function Next(p: Place): Option<Place>
      requires Exists(p)
    {
      match NextSibling(trees[p.root], p.path)
      case None => None
      case Some(q) => Some(Place(p.root, q))
    }

    // Order two siblings, or an existing node against a missing one (an ancestor's own lineage
    // has already ended).
    method SiblingCheck(a: Option<Place>, b: Option<Place>) returns (r: int)
      requires a.Some? || b.Some?
      requires a.Some? ==> Exists(a.value)
      requires b.Some? ==> Exists(b.value)
      requires a.Some? && b.Some? ==> a.value != b.value && a.value.root == b.value.root && Siblings(a.value.path, b.value.path)
      ensures r == if a.None? then -1 else if b.None? then 1
                   else if a.value.path[|a.value.path| - 1] < b.value.path[|b.value.path| - 1] then -1 else 1
    {
      if a.Some? && b.Some? {
        var root, t := a.value.root, trees[a.value.root];
        ghost var last := |a.value.path| - 1;
        ghost var end: int := WidthFrom(t, a.value.path);
        NextAfter(t, a.value.path, b.value.path);
        var cur := Next(a.value);
        while cur.Some?
          invariant cur.Some? ==> Exists(cur.value) && cur.value.root == root && Siblings(cur.value.path, a.value.path)
          invariant cur.Some? ==> a.value.path[last] < cur.value.path[last]
          invariant !(a.value.path[last] < b.value.path[last] && (cur.None? || b.value.path[last] < cur.value.path[last]))
          decreases cur.Some?, if cur.Some? then end - cur.value.path[last] else 0
        {
          SiblingsInRange(t, a.value.path, cur.value.path);
          if cur.value == b.value {
            return -1;
          }
          NextAfter(t, cur.value.path, b.value.path);
          cur := Next(cur.value);
        }
      }
      r := if a.Some? then 1 else -1;
    }

    method SortOrder(a: Place, b: Place) returns (r: int)
      requires Exists(a) && Exists(b)
      modifies `hasDuplicate
      ensures r == Verdict(a, b, preferredDoc, sortInput)
      ensures hasDuplicate == (old(hasDuplicate) || a == b)
    {
      if a == b {
        hasDuplicate := true;
        return 0;
      }
      var aup, bup := Up(a), Up(b);
      if aup.None? || bup.None? {
        return if a == DOCUMENT then -1
               else if b == DOCUMENT then 1
               else if aup.Some? then -1
               else if bup.Some? then 1
               else if sortInput.Some? then IndexOf(sortInput.value, a) - IndexOf(sortInput.value, b)
               else 0;
      } else if aup == bup {
        SiblingsDiffer(a.path, b.path);
        r := SiblingCheck(Some(a), Some(b));
        return;
      }
      var ap := Ancestors(a);
      var bp := Ancestors(b);
      var i := 0;
      while i < |ap| && i < |bp| && ap[i] == bp[i]
        invariant 0 <= i <= |ap| && i <= |bp|
        invariant a.root == b.root || i == 0
        invariant i > 0 ==> i - 1 <= |a.path| && i - 1 <= |b.path| && a.path[..i - 1] == b.path[..i - 1]
        decreases |ap| - i
      {
        i := i + 1;
      }
      if i > 0 {
        LineageSplits(a, b, i);
        InTreePrefix(trees[a.root], a.path, if i < |ap| then i else 0);
        InTreePrefix(trees[b.root], b.path, if i < |bp| then i else 0);
        r := SiblingCheck(if i < |ap| then Some(ap[i]) else None, if i < |bp| then Some(bp[i]) else None);
      } else {
        r := if ap[0] == preferredDoc then -1 else if bp[0] == preferredDoc then 1 else 0;
      }
    }

    predicate InDocument(ps: seq<Place>) {
      forall p | p in ps :: p.root == DOCUMENT.root && Exists(p)
    }

    // From the right, past everything that compares greater than `p`.
    method InsertionPoint(sorted: seq<Place>, p: Place) returns (k: nat)
      requires InDocument(sorted) && InDocument([p])
      modifies `hasDuplicate
      ensures k <= |sorted| && Splits(sorted, p, k)
      ensures hasDuplicate == (old(hasDuplicate) || (k > 0 && sorted[k - 1] == p))
    {
      assert p in [p];
      k := |sorted|;
      while k > 0
        invariant k <= |sorted|
        invariant forall i | k <= i < |sorted| :: Before(p.path, sorted[i].path)
        invariant hasDuplicate == old(hasDuplicate)
      {
        var c := SortOrder(sorted[k - 1], p);
        BeforeTotal(sorted[k - 1].path, p.path);
        if c <= 0 {
          break;
        }
        k := k - 1;
      }
    }

    method Insert(sorted: seq<Place>, p: Place) returns (out: seq<Place>)
      requires InDocument(sorted) && InDocument([p]) && Ordered(sorted)
      modifies `hasDuplicate
      ensures multiset(out) == multiset(sorted) + multiset{p} && Ordered(out)
      ensures hasDuplicate == (old(hasDuplicate) || p in sorted)
    {
      assert p in [p];
      var k := InsertionPoint(sorted, p);
      out := sorted[..k] + [p] + sorted[k..];
      InsertCounts(sorted, p, k);
      InsertKeepsOrder(sorted, p, k);
      if p in sorted {
        FoundAtInsertion(sorted, p, k);
      }
    }

    // `results.sort(sortOrder)`: any sort will do; this one inserts element by element.
    method Sort(results: seq<Place>) returns (out: seq<Place>)
      requires InDocument(results)
      modifies `hasDuplicate
      ensures multiset(out) == multiset(results) && Ordered(out)
      ensures hasDuplicate || (old(!hasDuplicate) && Distinct(results))
    {
      out := [];
      for i := 0 to |results|
        invariant multiset(out) == multiset(results[..i]) && Ordered(out)
        invariant hasDuplicate || (old(!hasDuplicate) && Distinct(results[..i]))
      {
        SameElements(out, results[..i]);
        var p := results[i];
        ghost var before := out;
        out := Insert(out, p);
        assert results[..i + 1] == results[..i] + [p];
        assert p in before <==> p in multiset(before);
      }
      assert results[..|results|] == results;
    }

    // `uniqueSort` on nodes of the document: the same set of nodes, without duplicates, in
    // strictly increasing document order.
    method UniqueSort(results: seq<Place>) returns (out: seq<Place>)
      requires |trees| > 0 && InDocument(results)
      modifies this
      ensures forall p :: p in out <==> p in results
      ensures forall i, j | 0 <= i < j < |out| ::
                out[i] != out[j] && Earlier(Preorder(trees[DOCUMENT.root]), out[i].path, out[j].path)
      ensures sortInput == None
    {
      hasDuplicate := !detectDuplicates;
      sortInput := if sortStable then None else Some(results);
      out := Sort(results);
      SameElements(out, results);
      ghost var sorted := out;
      OrderedDedup(sorted, 0);
      if hasDuplicate {
        out := DropDuplicates(out);
      } else {
        DistinctCount(results, out);
        NothingToDrop(sorted, 0);
      }
      assert sorted[0..] == sorted;
      forall i, j | 0 <= i < j < |out|
        ensures out[i] != out[j] && Earlier(Preorder(trees[DOCUMENT.root]), out[i].path, out[j].path)
      {
        assert out[i] in results && out[j] in results;
        BeforeTotal(out[i].path, out[j].path);
        BeforeIsPreorder(trees[DOCUMENT.root], out[i].path, out[j].path);
      }
      sortInput := None;
    }
  }

  // Sorted in document order, duplicates next to each other.
  ghost predicate Ordered(ps: seq<Place>) {
    && (forall p | p in ps :: p.root == DOCUMENT.root)
    && forall i, j | 0 <= i < j < |ps| :: ps[i] == ps[j] || Before(ps[i].path, ps[j].path)
  }

  ghost predicate Distinct(ps: seq<Place>) {
    forall i, j | 0 <= i < j < |ps| :: ps[i] != ps[j]
  }

  lemma {:induction false} SameElements(a: seq<Place>, b: seq<Place>)
    requires multiset(a) == multiset(b)
    ensures forall p :: p in a <==> p in b
  {
    forall p ensures p in a <==> p in b {
      assert p in a <==> p in multiset(a);
      assert p in b <==> p in multiset(b);
    }
  }

  // `p` belongs at index `k`.
  ghost predicate Splits(sorted: seq<Place>, p: Place, k: nat)
    requires k <= |sorted|
  {
    && (k > 0 ==> sorted[k - 1] == p || Before(sorted[k - 1].path, p.path))
    && forall i | k <= i < |sorted| :: Before(p.path, sorted[i].path)
  }

  lemma {:induction false} InsertCounts(sorted: seq<Place>, p: Place, k: nat)
    requires k <= |sorted|
    ensures multiset(sorted[..k] + [p] + sorted[k..]) == multiset(sorted) + multiset{p}
  {
    assert sorted == sorted[..k] + sorted[k..];
  }

  lemma {:induction false} InsertKeepsOrder(sorted: seq<Place>, p: Place, k: nat)
    requires Ordered(sorted) && k <= |sorted| && p.root == DOCUMENT.root && Splits(sorted, p, k)
    ensures Ordered(sorted[..k] + [p] + sorted[k..])
  {
    var out := sorted[..k] + [p] + sorted[k..];
    forall i, j | 0 <= i < j < |out| ensures out[i] == out[j] || Before(out[i].path, out[j].path) {
      if j == k && i < k - 1 && sorted[i] != sorted[k - 1] && sorted[k - 1] != p {
        BeforeTransitive(sorted[i].path, sorted[k - 1].path, p.path);
      }
    }
  }

  // If the inserted element was already there, insertion stopped right behind it.
  lemma {:induction false} FoundAtInsertion(sorted: seq<Place>, p: Place, k: nat)
    requires Ordered(sorted) && k <= |sorted| && p in sorted && Splits(sorted, p, k)
    ensures k > 0 && sorted[k - 1] == p
  {
    var i :| 0 <= i < |sorted| && sorted[i] == p;
    BeforeTotal(p.path, p.path);
    assert i < k;
    BeforeTotal(sorted[k - 1].path, p.path);
  }

  /* ---------- dropping duplicates ---------- */

  // The element at `d` equals its predecessor.
  predicate Repeat(s: seq<Place>, d: int) {
    0 < d < |s| && s[d] == s[d - 1]
  }

  // Keep, from index `from` on, what differs from its predecessor.
  function Dedup(s: seq<Place>, from: nat): seq<Place>
    requires from <= |s|
    decreases |s| - from
  {
    if from == |s| then []
    else (if Repeat(s, from) then [] else [s[from]]) + Dedup(s, from + 1)
  }

  lemma {:induction false} DedupStretch(s: seq<Place>, x: nat, y: nat)
    requires x <= y <= |s|
    requires forall i | x <= i < y :: !Repeat(s, i)
    ensures Dedup(s, x) == s[x..y] + Dedup(s, y)
    decreases y - x
  {
    if x == y {
      assert s[x..y] + Dedup(s, y) == Dedup(s, y);
    } else {
      calc {
        Dedup(s, x);
        [s[x]] + Dedup(s, x + 1);
        { DedupStretch(s, x + 1, y); }
        [s[x]] + (s[x + 1..y] + Dedup(s, y));
        ([s[x]] + s[x + 1..y]) + Dedup(s, y);
        { assert s[x..y] == [s[x]] + s[x + 1..y]; }
        s[x..y] + Dedup(s, y);
      }
    }
  }

  // The indexes whose element equals its predecessor, in increasing order.
  ghost predicate Repeats(s: seq<Place>, ds: seq<nat>) {
    && (forall x | 0 <= x < |ds| :: Repeat(s, ds[x]))
    && (forall d: nat | Repeat(s, d) :: d in ds)
    && (forall x, y | 0 <= x < y < |ds| :: ds[x] < ds[y])
  }

  method FindRepeats(s: seq<Place>) returns (ds: seq<nat>)
    ensures Repeats(s, ds)
  {
    ds := [];
    var i := 0;
    while i < |s|
      invariant 0 <= i <= |s|
      invariant forall x | 0 <= x < |ds| :: ds[x] <= i && Repeat(s, ds[x])
      invariant forall d: nat | d <= i && Repeat(s, d) :: d in ds
      invariant forall x, y | 0 <= x < y < |ds| :: ds[x] < ds[y]
    {
      var elem := s[i];
      i := i + 1;
      if i < |s| && elem == s[i] {
        ds := ds + [i];
      }
    }
  }

  // Removing the last of the remaining repeats moves the deduplicated part down to it.
  lemma {:induction false} SpliceStep(s: seq<Place>, ds: seq<nat>, j: nat, m: nat)
    requires Repeats(s, ds) && j < |ds| && m == (if j + 1 == |ds| then |s| else ds[j + 1])
    ensures ds[j] < m <= |s|
    ensures var out := s[..m] + Dedup(s, m);
            out[..ds[j]] + out[ds[j] + 1..] == s[..ds[j]] + Dedup(s, ds[j])
  {
    NoneBetween(s, ds, j, m);
    assert Repeat(s, ds[j]);
    DedupStretch(s, ds[j] + 1, m);
    Cut(s, m, Dedup(s, m), ds[j]);
  }

  lemma {:induction false} NoneBetween(s: seq<Place>, ds: seq<nat>, j: nat, m: nat)
    requires Repeats(s, ds) && j < |ds| && m == (if j + 1 == |ds| then |s| else ds[j + 1])
    ensures ds[j] < m <= |s| && forall i | ds[j] + 1 <= i < m :: !Repeat(s, i)
  {
    assert Repeat(s, ds[j]);
    forall i | ds[j] + 1 <= i < m ensures !Repeat(s, i) {
      if Repeat(s, i) {
        var x :| 0 <= x < |ds| && ds[x] == i;
        assert false;
      }
    }
  }

  lemma {:induction false} Cut<T>(s: seq<T>, m: nat, b: seq<T>, d: nat)
    requires d < m <= |s|
    ensures (s[..m] + b)[..d] == s[..d] && (s[..m] + b)[d + 1..] == s[d + 1..m] + b
  {
  }

  // The first loop notes the repeats; the second splices them out, last one first.
  method DropDuplicates(s: seq<Place>) returns (out: seq<Place>)
    ensures out == Dedup(s, 0)
  {
    var duplicates := FindRepeats(s);
    out := s;
    var j := |duplicates|;
    ghost var m: nat := |s|;
    while j > 0
      invariant 0 <= j <= |duplicates| && m <= |s|
      invariant m == if j == |duplicates| then |s| else duplicates[j]
      invariant out == s[..m] + Dedup(s, m)
    {
      j := j - 1;
      SpliceStep(s, duplicates, j, m);
      var d := duplicates[j];
      out := out[..d] + out[d + 1..];
      m := d;
    }
    NoEarlierRepeat(s, duplicates, m);
    DedupStretch(s, 0, m);
  }

  lemma {:induction false} NoEarlierRepeat(s: seq<Place>, ds: seq<nat>, m: nat)
    requires Repeats(s, ds) && m == (if ds == [] then |s| else ds[0])
    ensures forall i | 0 <= i < m :: !Repeat(s, i)
  {
  }

  lemma {:induction false} OrderedDedup(s: seq<Place>, from: nat)
    requires Ordered(s) && from <= |s|
    ensures forall p :: p in Dedup(s, from) ==> p in s[from..] && (from > 0 ==> p != s[from - 1])
    ensures forall p :: p in s[from..] ==> p in Dedup(s, from) || (from > 0 && p == s[from - 1])
    ensures forall i, j | 0 <= i < j < |Dedup(s, from)| :: Before(Dedup(s, from)[i].path, Dedup(s, from)[j].path)
    decreases |s| - from
  {
    if from < |s| {
      OrderedDedup(s, from + 1);
      var rest := Dedup(s, from + 1);
      assert s[from..] == [s[from]] + s[from + 1..];
      forall p | p in rest ensures Before(s[from].path, p.path) && (from > 0 ==> p != s[from - 1]) {
        var i :| from + 1 <= i < |s| && s[i] == p;
        BeforeTotal(p.path, s[from].path);
      }
      if from > 0 {
        forall p | p in s[from..] && p == s[from - 1] ensures s[from] == p {
          var i :| from <= i < |s| && s[i] == p;
          BeforeTotal(p.path, s[from].path);
        }
      }
    }
  }

  lemma {:induction false} NothingToDrop(s: seq<Place>, from: nat)
    requires Distinct(s) && from <= |s|
    ensures Dedup(s, from) == s[from..]
  {
    DedupStretch(s, from, |s|);
    assert s[from..|s|] == s[from..];
  }

  lemma {:induction false} DistinctCount(a: seq<Place>, b: seq<Place>)
    requires Distinct(a) && multiset(a) == multiset(b)
    ensures Distinct(b)
  {
    forall p ensures multiset(a)[p] <= 1 {
      AtMostOnce(a, p);
    }
    forall i, j | 0 <= i < j < |b| ensures b[i] != b[j] {
      if b[i] == b[j] {
        CountedTwice(b, i, j);
      }
    }
  }

  lemma {:induction false} CountedTwice(b: seq<Place>, i: nat, j: nat)
    requires i < j < |b| && b[i] == b[j]
    ensures multiset(b)[b[i]] >= 2
  {
    assert b == b[..j] + b[j..];
    assert b[i] in b[..j] && b[j] in b[j..];
  }

  lemma {:induction false} AtMostOnce(a: seq<Place>, p: Place)
    requires Distinct(a)
    ensures multiset(a)[p] <= 1
  {
    if a != [] {
      AtMostOnce(a[1..], p);
      assert a == [a[0]] + a[1..];
      if p == a[0] {
        assert p !in a[1..];
      }
    }
  }

  lemma {:induction false} SiblingsDiffer(a: Node, b: Node)
    requires Siblings(a, b) && a != b
    ensures a[|a| - 1] != b[|b| - 1]
    ensures Before(a, b) <==> a[|a| - 1] < b[|b| - 1]
  {
    assert a == a[..|a| - 1] + [a[|a| - 1]] && b == b[..|b| - 1] + [b[|b| - 1]];
    FirstDifference(a, b, |a| - 1);
  }

  // Where two lineages first differ they have siblings, unless one of them has ended.
  lemma {:induction false} LineageSplits(a: Place, b: Place, i: nat)
    requires a.root == b.root && a != b && 0 < i <= |a.path| + 1 && i <= |b.path| + 1
    requires a.path[..i - 1] == b.path[..i - 1]
    requires i <= |a.path| && i <= |b.path| ==> a.path[..i] != b.path[..i]
    ensures i <= |a.path| || i <= |b.path|
    ensures i <= |a.path| && i <= |b.path| ==>
              Siblings(a.path[..i], b.path[..i]) && a.path[i - 1] != b.path[i - 1]
    ensures Before(a.path, b.path) <==> i - 1 == |a.path| || (i <= |b.path| && a.path[i - 1] < b.path[i - 1])
  {
    if i <= |a.path| && i <= |b.path| {
      assert a.path[..i] == a.path[..i - 1] + [a.path[i - 1]];
      assert b.path[..i] == b.path[..i - 1] + [b.path[i - 1]];
      assert a.path[..i][..i - 1] == a.path[..i - 1] && b.path[..i][..i - 1] == b.path[..i - 1];
    }
    assert a.path[..|a.path|] == a.path && b.path[..|b.path|] == b.path;
    FirstDifference(a.path, b.path, i - 1);
  }

  lemma {:induction false} InTreePrefix(t: Tree, n: Node, i: nat)
    requires InTree(t, n) && i <= |n|
    ensures InTree(t, n[..i])
    decreases i
  {
    if i > 0 {
      InTreePrefix(t.children[n[0]], n[1..], i - 1);
      assert n[..i][1..] == n[1..][..i - 1];
    }
  }

  // Same parent.
  predicate Siblings(a: Node, b: Node) {
    |a| == |b| > 0 && a[..|a| - 1] == b[..|b| - 1]
  }

  // The number of children of a node's parent.
  ghost function WidthFrom(t: Tree, n: Node): nat
    requires InTree(t, n) && n != []
    decreases |n|
  {
    if |n| == 1 then |t.children| else WidthFrom(t.children[n[0]], n[1..])
  }

  // Having the same parent, a sibling exists exactly when its index is in range.
  lemma {:induction false} SiblingsInRange(t: Tree, n: Node, m: Node)
    requires InTree(t, n) && Siblings(n, m)
    ensures InTree(t, m) <==> m[|m| - 1] < WidthFrom(t, n)
    decreases |n|
  {
    if |n| == 1 {
      assert m[1..] == [];
    } else {
      assert n[0] == n[..|n| - 1][0] == m[..|m| - 1][0] == m[0];
      assert n[1..][..|n| - 2] == n[..|n| - 1][1..] == m[..|m| - 1][1..] == m[1..][..|m| - 2];
      SiblingsInRange(t.children[n[0]], n[1..], m[1..]);
    }
  }

  // The next sibling is the one with the next index, if that is in the tree.
  lemma {:induction false} NextAfter(t: Tree, n: Node, b: Node)
    requires InTree(t, n) && InTree(t, b) && Siblings(n, b)
    ensures n[|n| - 1] < b[|b| - 1] ==> NextSibling(t, n).Some?
  {
    if n[|n| - 1] < b[|b| - 1] {
      var m := n[|n| - 1 := n[|n| - 1] + 1];
      assert m[..|m| - 1] == n[..|n| - 1];
      SiblingsInRange(t, n, m);
      SiblingsInRange(t, n, b);
    }
  }
}
