/** Sizzle's combinator matchers: the search along `parentNode` or `previousSibling`, with the
    memo cells that one search shares between all the nodes it passes. */
module Combinator {
  import opened Wrappers
  import opened Dom

  datatype Dir = Parent | Previous

  function DirName(d: Dir): string {
    match d
    case Parent => "parentNode"
    case Previous => "previousSibling"
  }

  function Step(d: Dir, n: Node): Option<Node> {
    match d
    case Parent => ParentNode(n)
    case Previous => PreviousSibling(n)
  }

  // Every step along a direction lowers the rank, so every walk ends.
  ghost function Rank(d: Dir, n: Node): nat {
    if n == [] then 0
    else match d
      case Parent => |n|
      case Previous => n[|n| - 1]
  }

  ghost function RankFrom(d: Dir, cur: Option<Node>): nat {
    if cur.None? then 0 else 1 + Rank(d, cur.value)
  }

  // One combinator: where it walks, whether only the closest node counts, the node name it
  // skips (`next`), and whether it is the leading one of a relative selector (`base`).
  datatype Options = Options(dir: Dir, first: bool, skip: Option<string>, base: bool) {
    function Key(): string {
      if skip.Some? && skip.value != "" then skip.value else DirName(dir)
    }
    predicate CheckNonElements() { base && Key() == "parentNode" }
    predicate Skips(t: Tree, n: Node) {
      skip.Some? && skip.value != "" && skip.value == NodeName(t, n)
    }
    predicate Counts(t: Tree, n: Node) { IsElement(t, n) || CheckNonElements() }
  }

  // A compiled selector: a leaf test, a conjunction of matchers (elementMatcher), or a
  // combinator in front of a matcher (addCombinator). `done` is the number it was given.
  datatype Matcher =
    | Simple(test: Node -> bool)
    | Every(parts: seq<Matcher>)
    | Combine(done: nat, opts: Options, inner: Matcher)

  /* ---------- meaning ---------- */

  // What a matcher says about a node. In an XML document the loop ignores `next`.
  ghost predicate Holds(t: Tree, xml: bool, m: Matcher, n: Node)
    decreases m, 0
  {
    match m
    case Simple(test) => test(n)
    case Every(parts) => forall p | p in parts :: Holds(t, xml, p, n)
    case Combine(_, o, inner) =>
      if o.first then Closest(t, xml, m, Step(o.dir, n))
      else Further(t, xml, m, Step(o.dir, n))
  }

  // Does `cur` or anything further along the direction match?
  ghost predicate Further(t: Tree, xml: bool, m: Matcher, cur: Option<Node>)
    requires m.Combine?
    decreases m.inner, RankFrom(m.opts.dir, cur) + 1
  {
    var o := m.opts;
    if cur.None? then false
    else
      var next := Step(o.dir, cur.value);
      if !o.Counts(t, cur.value) then Further(t, xml, m, next)
      else if !xml && o.Skips(t, cur.value) then
        next.Some? && Further(t, xml, m, Step(o.dir, next.value))
      else Holds(t, xml, m.inner, cur.value) || Further(t, xml, m, next)
  }

  // Does the closest counting node match?
  ghost predicate Closest(t: Tree, xml: bool, m: Matcher, cur: Option<Node>)
    requires m.Combine?
    decreases m.inner, RankFrom(m.opts.dir, cur) + 1
  {
    cur.Some? &&
    if m.opts.Counts(t, cur.value) then Holds(t, xml, m.inner, cur.value)
    else Closest(t, xml, m, Step(m.opts.dir, cur.value))
  }

  // All nodes from `cur` on along a direction, nearest first.
  function Walk(d: Dir, cur: Option<Node>): seq<Node>
    decreases RankFrom(d, cur)
  {
    if cur.None? then [] else [cur.value] + Walk(d, Step(d, cur.value))
  }

  // Without `next`, a combinator matches exactly when some node along the walk does.
  lemma {:induction false} FurtherIsExists(t: Tree, xml: bool, m: Matcher, cur: Option<Node>)
    requires m.Combine? && (xml || m.opts.skip.None?)
    ensures Further(t, xml, m, cur) <==>
            exists n :: n in Walk(m.opts.dir, cur) && m.opts.Counts(t, n) && Holds(t, xml, m.inner, n)
    decreases RankFrom(m.opts.dir, cur)
  {
    if cur.Some? {
      var next := Step(m.opts.dir, cur.value);
      FurtherIsExists(t, xml, m, next);
      assert Walk(m.opts.dir, cur) == [cur.value] + Walk(m.opts.dir, next);
      assert forall n :: n in Walk(m.opts.dir, cur) <==> n == cur.value || n in Walk(m.opts.dir, next);
    }
  }

  // The `first` form asks the first node along the walk that counts, and no other.
  lemma {:induction false} ClosestIsFirst(t: Tree, xml: bool, m: Matcher, cur: Option<Node>)
    requires m.Combine?
    ensures var walk := Walk(m.opts.dir, cur);
            Closest(t, xml, m, cur) <==>
            exists i :: 0 <= i < |walk| && IsFirst(t, m.opts, walk, i) && Holds(t, xml, m.inner, walk[i])
    decreases RankFrom(m.opts.dir, cur)
  {
    if cur.Some? {
      var o, walk := m.opts, Walk(m.opts.dir, cur);
      var rest := Walk(o.dir, Step(o.dir, cur.value));
      ClosestIsFirst(t, xml, m, Step(o.dir, cur.value));
      assert walk[0] == cur.value;
      if o.Counts(t, cur.value) {
        assert Closest(t, xml, m, cur) == Holds(t, xml, m.inner, walk[0]);
        assert IsFirst(t, o, walk, 0);
        if i :| 0 <= i < |walk| && IsFirst(t, o, walk, i) && Holds(t, xml, m.inner, walk[i]) {
          assert i == 0;
        }
      } else {
        assert Closest(t, xml, m, cur) == Closest(t, xml, m, Step(o.dir, cur.value));
        forall i | 0 <= i < |rest| ensures IsFirst(t, o, walk, i + 1) == IsFirst(t, o, rest, i) {
          FirstOneOn(t, o, walk, i);
        }
        if i :| 0 <= i < |rest| && IsFirst(t, o, rest, i) && Holds(t, xml, m.inner, rest[i]) {
          assert IsFirst(t, o, walk, i + 1) && Holds(t, xml, m.inner, walk[i + 1]);
        }
        if i :| 0 <= i < |walk| && IsFirst(t, o, walk, i) && Holds(t, xml, m.inner, walk[i]) {
          assert i > 0 && IsFirst(t, o, rest, i - 1) && rest[i - 1] == walk[i];
        }
      }
    }
  }

  // The i-th node of a walk counts and none before it does.
  ghost predicate IsFirst(t: Tree, o: Options, walk: seq<Node>, i: nat)
    requires i < |walk|
  {
    o.Counts(t, walk[i]) && forall j | 0 <= j < i :: !o.Counts(t, walk[j])
  }

  lemma {:induction false} FirstOneOn(t: Tree, o: Options, walk: seq<Node>, i: nat)
    requires i + 1 < |walk| && !o.Counts(t, walk[0])
    ensures IsFirst(t, o, walk, i + 1) == IsFirst(t, o, walk[1..], i)
  {
    if IsFirst(t, o, walk, i + 1) {
      assert forall j | 0 <= j < i :: walk[1..][j] == walk[j + 1];
    } else if o.Counts(t, walk[i + 1]) {
      var j :| 0 <= j < i + 1 && o.Counts(t, walk[j]);
      assert walk[1..][j - 1] == walk[j];
    }
  }

  // The search jumps over the node after this one.
  predicate Jumps(t: Tree, xml: bool, o: Options, n: Node) {
    !xml && o.Counts(t, n) && o.Skips(t, n)
  }

  // How many nodes right before the i-th one bear the name to be skipped.
  function RunBefore(t: Tree, xml: bool, o: Options, walk: seq<Node>, i: nat): nat
    requires i <= |walk|
  {
    if i > 0 && Jumps(t, xml, o, walk[i - 1]) then 1 + RunBefore(t, xml, o, walk, i - 1) else 0
  }

  // With `next`, nodes of that name go by in pairs: a node is asked if it counts, does not bear
  // the name, and comes after an even number of nodes that do.
  ghost predicate Asked(t: Tree, xml: bool, o: Options, walk: seq<Node>, i: nat)
    requires i < |walk|
  {
    o.Counts(t, walk[i]) && !Jumps(t, xml, o, walk[i]) && RunBefore(t, xml, o, walk, i) % 2 == 0
  }

  // Looking only at the walk from its k-th node on.
  lemma {:induction false} RunFrom(t: Tree, xml: bool, o: Options, walk: seq<Node>, k: nat, i: nat)
    requires k + i <= |walk|
    requires (k == 1 && !Jumps(t, xml, o, walk[0])) || (k == 2 && Jumps(t, xml, o, walk[0]))
    ensures RunBefore(t, xml, o, walk, k + i) % 2 == RunBefore(t, xml, o, walk[k..], i) % 2
  {
    if i == 0 {
      assert k == 2 ==> RunBefore(t, xml, o, walk, 1) == 1;
    } else {
      assert walk[k..][i - 1] == walk[k + i - 1];
      RunFrom(t, xml, o, walk, k, i - 1);
    }
  }

  lemma {:induction false} AskedFrom(t: Tree, xml: bool, m: Matcher, walk: seq<Node>, k: nat)
    requires m.Combine? && 1 <= k <= |walk|
    requires (k == 1 && !Jumps(t, xml, m.opts, walk[0])) || (k == 2 && Jumps(t, xml, m.opts, walk[0]))
    ensures (exists i :: k <= i < |walk| && Asked(t, xml, m.opts, walk, i) && Holds(t, xml, m.inner, walk[i])) <==>
            AnyAsked(t, xml, m, walk[k..])
  {
    var rest := walk[k..];
    forall i: nat | i < |rest| ensures Asked(t, xml, m.opts, walk, k + i) == Asked(t, xml, m.opts, rest, i) && walk[k + i] == rest[i] {
      RunFrom(t, xml, m.opts, walk, k, i);
    }
    if i :| k <= i < |walk| && Asked(t, xml, m.opts, walk, i) && Holds(t, xml, m.inner, walk[i]) {
      assert Asked(t, xml, m.opts, rest, i - k) && rest[i - k] == walk[i];
    }
    if i :| 0 <= i < |rest| && Asked(t, xml, m.opts, rest, i) && Holds(t, xml, m.inner, rest[i]) {
      assert Asked(t, xml, m.opts, walk, k + i);
    }
  }

  ghost predicate AnyAsked(t: Tree, xml: bool, m: Matcher, walk: seq<Node>)
    requires m.Combine?
  {
    exists i :: 0 <= i < |walk| && Asked(t, xml, m.opts, walk, i) && Holds(t, xml, m.inner, walk[i])
  }

  // The search finds a match exactly if a node that it asks matches, `next` included.
  lemma {:induction false} FurtherIsAsked(t: Tree, xml: bool, m: Matcher, cur: Option<Node>)
    requires m.Combine?
    ensures Further(t, xml, m, cur) <==> AnyAsked(t, xml, m, Walk(m.opts.dir, cur))
    decreases RankFrom(m.opts.dir, cur)
  {
    if cur.Some? {
      var o, n := m.opts, cur.value;
      var next, walk := Step(o.dir, n), Walk(o.dir, cur);
      assert walk == [n] + Walk(o.dir, next) && walk[1..] == Walk(o.dir, next);
      if !Jumps(t, xml, o, n) {
        FurtherIsAsked(t, xml, m, next);
        AskedFrom(t, xml, m, walk, 1);
        assert RunBefore(t, xml, o, walk, 0) == 0;
        assert Asked(t, xml, o, walk, 0) == o.Counts(t, n);
      } else if next.None? {
        assert |walk| == 1;
      } else {
        var after := Step(o.dir, next.value);
        assert walk[2..] == walk[1..][1..] == Walk(o.dir, after);
        FurtherIsAsked(t, xml, m, after);
        AskedFrom(t, xml, m, walk, 2);
        assert RunBefore(t, xml, o, walk, 1) == 1;
      }
    }
  }

  // The walks themselves: the ancestors, nearest first, and the siblings before, nearest first.
  lemma {:induction false} WalkUp(n: Node)
    ensures var walk := Walk(Parent, Step(Parent, n));
            |walk| == |n| && forall i | 0 <= i < |n| :: walk[i] == n[..|n| - 1 - i]
    decreases |n|
  {
    if n != [] {
      var up := n[..|n| - 1];
      WalkUp(up);
      var walk := Walk(Parent, Step(Parent, n));
      assert walk == [up] + Walk(Parent, Step(Parent, up));
      forall i | 0 <= i < |n| ensures walk[i] == n[..|n| - 1 - i] {
        if i > 0 {
          assert up[..|up| - i] == n[..|n| - 1 - i];
        }
      }
    }
  }

  lemma {:induction false} WalkBack(parent: Node, k: nat)
    ensures var walk := Walk(Previous, Step(Previous, parent + [k]));
            |walk| == k && forall i | 0 <= i < k :: walk[i] == parent + [k - 1 - i]
    decreases k
  {
    if k > 0 {
      assert (parent + [k])[|parent| := k - 1] == parent + [k - 1];
      WalkBack(parent, k - 1);
      assert Walk(Previous, Step(Previous, parent + [k]))
          == [parent + [k - 1]] + Walk(Previous, Step(Previous, parent + [k - 1]));
    }
  }

  // Nodes that are not elements count only for a leading combinator that goes up: its key is
  // "parentNode", by direction or, oddly, by `next`.
  lemma {:induction false} NonElementsIff(t: Tree, o: Options, n: Node)
    requires !IsElement(t, n)
    ensures o.Counts(t, n) <==>
            o.base && ((o.dir == Parent && o.skip in {None, Some("")}) || o.skip == Some("parentNode"))
  {
    assert "parentNode" != "" && "previousSibling"[1] != "parentNode"[1];
  }

  ghost predicate NoSkip(m: Matcher) {
    match m
    case Simple(_) => true
    case Every(parts) => forall p | p in parts :: NoSkip(p)
    case Combine(_, o, inner) => o.skip.None? && NoSkip(inner)
  }

  // Where no combinator has a `next`, the memoised search (HTML) and the plain loop (XML)
  // have the same meaning.
  lemma {:induction false} SameInXml(t: Tree, m: Matcher, n: Node)
    requires NoSkip(m)
    ensures Holds(t, true, m, n) == Holds(t, false, m, n)
    decreases m, 0
  {
    match m
    case Simple(_) =>
    case Every(parts) =>
      forall p | p in parts ensures Holds(t, true, p, n) == Holds(t, false, p, n) {
        SameInXml(t, p, n);
      }
    case Combine(_, o, inner) =>
      SameInXmlAlong(t, m, Step(o.dir, n));
  }

  lemma {:induction false} SameInXmlAlong(t: Tree, m: Matcher, cur: Option<Node>)
    requires NoSkip(m) && m.Combine?
    ensures Further(t, true, m, cur) == Further(t, false, m, cur)
    ensures Closest(t, true, m, cur) == Closest(t, false, m, cur)
    decreases m.inner, RankFrom(m.opts.dir, cur) + 1
  {
    if cur.Some? {
      SameInXml(t, m.inner, cur.value);
      SameInXmlAlong(t, m, Step(m.opts.dir, cur.value));
    }
  }

  /* ---------- names ---------- */

  ghost function Names(m: Matcher): set<nat> {
    match m
    case Simple(_) => {}
    case Every(parts) => set p, d | p in parts && d in Names(p) :: d
    case Combine(d, _, inner) => {d} + Names(inner)
  }

  // `done++` gives every combinator its own number; `table` records which one got which.
  ghost predicate Numbered(table: map<nat, Matcher>, m: Matcher) {
    match m
    case Simple(_) => true
    case Every(parts) => forall p | p in parts :: Numbered(table, p)
    case Combine(d, _, inner) => d in table && table[d] == m && Numbered(table, inner)
  }

  ghost function Size(m: Matcher): nat {
    match m
    case Simple(_) => 1
    case Every(parts) => 1 + SizeAll(parts)
    case Combine(_, _, inner) => 1 + Size(inner)
  }

  ghost function SizeAll(ms: seq<Matcher>): nat {
    if ms == [] then 0 else Size(ms[0]) + SizeAll(ms[1..])
  }

  lemma {:induction false} PartIsSmaller(ms: seq<Matcher>, p: Matcher)
    requires p in ms
    ensures Size(p) <= SizeAll(ms)
  {
    if p != ms[0] {
      PartIsSmaller(ms[1..], p);
    }
  }

  lemma {:induction false} NameIsSmaller(table: map<nat, Matcher>, m: Matcher, d: nat)
    requires Numbered(table, m) && d in Names(m)
    ensures d in table && table[d].Combine? && Size(table[d]) <= Size(m)
    ensures Numbered(table, table[d])
  {
    match m
    case Simple(_) =>
    case Every(parts) =>
      var p :| p in parts && d in Names(p);
      NameIsSmaller(table, p, d);
      PartIsSmaller(parts, p);
    case Combine(e, _, inner) =>
      if d != e {
        NameIsSmaller(table, inner, d);
      }
  }

  // A combinator never occurs inside its own matcher, so a search is never re-entered.
  lemma {:induction false} OwnNameNotInside(table: map<nat, Matcher>, m: Matcher)
    requires Numbered(table, m) && m.Combine?
    ensures m.done !in Names(m.inner)
  {
    if m.done in Names(m.inner) {
      NameIsSmaller(table, m.inner, m.done);
    }
  }

  /* ---------- the memoised search ---------- */

  // The array `newCache`: created once per search and stored, shared, on every node it passes.
  class Cell {
    const run: int
    const done: nat
    var result: Option<bool>

    constructor (run: int, done: nat)
      ensures this.run == run && this.done == done && result == None
    {
      this.run, this.done, this.result := run, done, None;
    }
  }

  class Run {
    const tree: Tree
    const dirruns: int
    ghost const table: map<nat, Matcher>
    var slots: map<(Node, string), Cell>

    // Slots may hold cells of earlier runs, but none yet of this one.
    constructor (tree: Tree, dirruns: int, ghost table: map<nat, Matcher>, slots: map<(Node, string), Cell>)
      requires forall k | k in slots :: slots[k].run != dirruns
      ensures this.tree == tree && this.dirruns == dirruns && this.table == table && this.slots == slots
      ensures Consistent(table.Keys)
    {
      this.tree, this.dirruns, this.table, this.slots := tree, dirruns, table, slots;
    }

    // The cell at a slot tells whether the slot's node or anything further along matches.
    ghost predicate Finished(k: (Node, string), c: Cell)
      reads c
    {
      && c.done in table && table[c.done].Combine?
      && k.1 == table[c.done].opts.Key()
      && c.result == Some(Further(tree, false, table[c.done], Some(k.0)))
    }

    ghost predicate Consistent(names: set<nat>)
      reads this, slots.Values
    {
      forall k | k in slots && slots[k].run == dirruns && slots[k].done in names ::
        Finished(k, slots[k])
    }

    // Only cells numbered in `names` have been stored since `was`.
    ghost predicate OnlyStored(names: set<nat>, was: map<(Node, string), Cell>)
      reads this
    {
      forall k | k in slots && !(slots[k].run == dirruns && slots[k].done in names) ::
        k in was && was[k] == slots[k]
    }

    method Eval(m: Matcher, elem: Node, xml: bool) returns (b: bool)
      requires Numbered(table, m) && Consistent(Names(m))
      modifies this
      ensures b == Holds(tree, xml, m, elem)
      ensures Consistent(Names(m)) && OnlyStored(Names(m), old(slots))
      decreases m, 3
    {
      match m
      case Simple(test) =>
        b := test(elem);
      case Every(parts) =>
        b := EvalEvery(m, elem, xml);
      case Combine(_, o, _) =>
        if o.first {
          b := SearchClosest(m, elem, xml);
        } else if xml {
          b := SearchPlain(m, elem);
        } else {
          b := SearchCached(m, elem);
        }
    }

    // elementMatcher: the parts are tried from the last to the first.
    method EvalEvery(m: Matcher, elem: Node, xml: bool) returns (b: bool)
      requires m.Every? && Numbered(table, m) && Consistent(Names(m))
      modifies this
      ensures b == Holds(tree, xml, m, elem)
      ensures Consistent(Names(m)) && OnlyStored(Names(m), old(slots))
      decreases m, 2
    {
      var i := |m.parts|;
      while i > 0
        invariant 0 <= i <= |m.parts|
        invariant forall j | i <= j < |m.parts| :: Holds(tree, xml, m.parts[j], elem)
        invariant Consistent(Names(m)) && OnlyStored(Names(m), old(slots))
      {
        i := i - 1;
        var ok := Eval(m.parts[i], elem, xml);
        if !ok {
          return false;
        }
      }
      return true;
    }

    method SearchClosest(m: Matcher, elem: Node, xml: bool) returns (b: bool)
      requires m.Combine? && m.opts.first && Numbered(table, m) && Consistent(Names(m))
      modifies this
      ensures b == Holds(tree, xml, m, elem)
      ensures Consistent(Names(m)) && OnlyStored(Names(m), old(slots))
      decreases m, 2
    {
      var cur := Step(m.opts.dir, elem);
      while cur.Some?
        invariant Holds(tree, xml, m, elem) == Closest(tree, xml, m, cur)
        invariant slots == old(slots)
        decreases RankFrom(m.opts.dir, cur)
      {
        if m.opts.Counts(tree, cur.value) {
          OwnNameNotInside(table, m);
          b := Eval(m.inner, cur.value, xml);
          return;
        }
        cur := Step(m.opts.dir, cur.value);
      }
      return false;
    }

    method SearchPlain(m: Matcher, elem: Node) returns (b: bool)
      requires m.Combine? && !m.opts.first && Numbered(table, m) && Consistent(Names(m))
      modifies this
      ensures b == Holds(tree, true, m, elem)
      ensures Consistent(Names(m)) && OnlyStored(Names(m), old(slots))
      decreases m, 2
    {
      OwnNameNotInside(table, m);
      var cur := Step(m.opts.dir, elem);
      while cur.Some?
        invariant Holds(tree, true, m, elem) == Further(tree, true, m, cur)
        invariant Consistent(Names(m)) && OnlyStored(Names(m), old(slots))
        decreases RankFrom(m.opts.dir, cur)
      {
        if m.opts.Counts(tree, cur.value) {
          var hit := Eval(m.inner, cur.value, true);
          if hit {
            return true;
          }
        }
        cur := Step(m.opts.dir, cur.value);
      }
      return false;
    }

    // While a search runs, its own cell already sits on the nodes it has passed: what it will
    // say about them is what the rest of the walk will say. All other cells are finished.
    ghost predicate Pending(m: Matcher, cell: Cell, cur: Option<Node>)
      requires m.Combine?
      reads this, slots.Values
    {
      && (forall k | k in slots && slots[k].run == dirruns && slots[k].done in Names(m) && slots[k] != cell ::
            Finished(k, slots[k]))
      && (forall k | k in slots && slots[k] == cell ::
            && k.1 == m.opts.Key()
            && Further(tree, false, m, Some(k.0)) == Further(tree, false, m, cur))
    }

    // Store the search's cell on the next node, test the node, note the answer in the cell.
    method Visit(m: Matcher, cell: Cell, n: Node) returns (hit: bool)
      requires m.Combine? && Numbered(table, m) && m.done !in Names(m.inner)
      requires cell.run == dirruns && cell.done == m.done
      requires m.opts.Counts(tree, n) && !m.opts.Skips(tree, n)
      requires Pending(m, cell, Some(n))
      modifies this, cell
      ensures hit == Holds(tree, false, m.inner, n) && cell.result == Some(hit)
      ensures Pending(m, cell, Some(n)) && OnlyStored(Names(m), old(slots))
      ensures forall k | k in slots && slots[k] == cell ::
                k.0 == n || (k in old(slots) && old(slots)[k] == cell)
      decreases m, 1
    {
      slots := slots[(n, m.opts.Key()) := cell];
      hit := Eval(m.inner, n, false);
      cell.result := Some(hit);
    }

    lemma {:induction false} FinishSearch(m: Matcher, cell: Cell, cur: Option<Node>)
      requires m.Combine? && Numbered(table, m)
      requires cell.run == dirruns && cell.done == m.done
      requires Pending(m, cell, cur)
      requires cell in slots.Values ==> cell.result == Some(Further(tree, false, m, cur))
      ensures Consistent(Names(m))
    {
      forall k | k in slots && slots[k].run == dirruns && slots[k].done in Names(m)
        ensures Finished(k, slots[k])
      {
        if slots[k] == cell {
          assert cell in slots.Values;
        }
      }
    }

    method SearchCached(m: Matcher, elem: Node) returns (b: bool)
      requires m.Combine? && !m.opts.first && Numbered(table, m) && Consistent(Names(m))
      modifies this
      ensures b == Holds(tree, false, m, elem)
      ensures Consistent(Names(m)) && OnlyStored(Names(m), old(slots))
      decreases m, 2
    {
      OwnNameNotInside(table, m);
      var newCache := new Cell(dirruns, m.done);
      var cur := Step(m.opts.dir, elem);
      while cur.Some?
        invariant Holds(tree, false, m, elem) == Further(tree, false, m, cur)
        invariant Pending(m, newCache, cur) && OnlyStored(Names(m), old(slots))
        invariant newCache in slots.Values ==> newCache.result == Some(false)
        invariant forall k | k in slots && slots[k] == newCache ::
                    RankFrom(m.opts.dir, Some(k.0)) > RankFrom(m.opts.dir, cur)
        decreases RankFrom(m.opts.dir, cur)
      {
        var n := cur.value;
        if m.opts.Counts(tree, n) {
          var key := (n, m.opts.Key());
          if m.opts.Skips(tree, n) {
            cur := match Step(m.opts.dir, n) case Some(q) => Some(q) case None => Some(n);
          } else if key in slots && slots[key].run == dirruns && slots[key].done == m.done {
            newCache.result := slots[key].result;
            b := newCache.result.value;
            FinishSearch(m, newCache, cur);
            return;
          } else {
            var hit := Visit(m, newCache, n);
            if hit {
              FinishSearch(m, newCache, cur);
              return true;
            }
          }
        }
        cur := Step(m.opts.dir, cur.value);
      }
      FinishSearch(m, newCache, cur);
      return false;
    }

    // Any sequence of queries in one run, in any order and with combinators competing for the
    // same slots, answers each one by the meaning of its matcher.
    method EvalAll(queries: seq<(Matcher, Node)>) returns (answers: seq<bool>)
      requires forall q | q in queries :: Numbered(table, q.0)
      requires Consistent(table.Keys)
      modifies this
      ensures |answers| == |queries|
      ensures forall i | 0 <= i < |queries| :: answers[i] == Holds(tree, false, queries[i].0, queries[i].1)
      ensures Consistent(table.Keys)
    {
      answers := [];
      for i := 0 to |queries|
        invariant |answers| == i && Consistent(table.Keys)
        invariant forall j | 0 <= j < i :: answers[j] == Holds(tree, false, queries[j].0, queries[j].1)
      {
        var (m, n) := queries[i];
        NamesInTable(table, m);
        var b := Eval(m, n, false);
        answers := answers + [b];
      }
    }
  }

  lemma {:induction false} NamesInTable(table: map<nat, Matcher>, m: Matcher)
    requires Numbered(table, m)
    ensures Names(m) <= table.Keys
  {
    forall d | d in Names(m) ensures d in table {
      NameIsSmaller(table, m, d);
    }
  }
}
