/** What every run of a callback list keeps: "once memory" lists, and passes during which
    callbacks add and remove callbacks. */
module CallbackRuns {
  import opened Wrappers
  import opened Callbacks

  /* ---------- "once memory" lists ---------- */

  ghost predicate OnceMemory(o: Options) {
    o.once && o.memory && !o.stopOnFalse
  }

  ghost function Functions<F, A>(invoked: seq<(F, A)>): seq<F> {
    seq(|invoked|, i requires 0 <= i < |invoked| => invoked[i].0)
  }

  ghost predicate LastPart<F>(l: seq<Occ<F>>, added: seq<F>) {
    |l| <= |added| && forall k | 0 <= k < |l| :: l[k].fn == added[|added| - |l| + k]
  }

  lemma {:induction false} LastPartGrows<F>(l: seq<Occ<F>>, added: seq<F>, l': seq<Occ<F>>, p: seq<F>)
    requires LastPart(l, added) && l <= l' && |l'| == |l| + |p|
    requires forall k | |l| <= k < |l'| :: l'[k].fn == p[k - |l|]
    ensures LastPart(l', added + p)
  {
  }

  // The list is the last part of everything added; what came before it, and its entries up to
  // the running one, have been invoked.
  ghost predicate OnceInv<F, A>(t: Trace<F, A>) {
    var s, n := t.s, |t.added|;
    && OnceMemory(s.opts) && s.list.Some? && s.queue == []
    && LastPart(s.list.value, t.added)
    && if !s.fired then
         && !s.firing && !s.locked && s.memory.None? && s.firingIndex == -1
         && t.firstFire.None? && t.invoked == [] && |s.list.value| == n
       else
         && s.locked && t.firstFire.Some? && s.memory == t.firstFire
         && (forall k | 0 <= k < |t.invoked| :: t.invoked[k].1 == t.firstFire.value)
         && if s.firing then
              0 <= s.firingIndex < |s.list.value| &&
              Functions(t.invoked) == t.added[..n - |s.list.value| + s.firingIndex + 1]
            else
              s.list.value == [] && s.firingIndex == -1 && Functions(t.invoked) == t.added
  }

  lemma {:induction false} OnceReturn<F, A>(t: Trace<F, A>, e: Event<F, A>)
    requires OnceInv(t) && t.s.firing && e.DoReturn?
    ensures OnceInv(TraceStep(t, e))
  {
    var s := t.s;
    var t' := TraceStep(t, e);
    assert t.added[..|t.added|] == t.added;
    assert t'.s == Advance(s);
    if s.firingIndex + 1 >= |s.list.value| {
      assert t'.s == NextPass(s.(firingIndex := -1));
      assert NextPass(s.(firingIndex := -1)) == Finish(s.(firingIndex := -1));
    } else {
      assert t'.invoked == t.invoked + [(s.list.value[s.firingIndex + 1].fn, s.memory.value)];
      var m := |t.added| - |s.list.value| + s.firingIndex + 1;
      assert t.added[..m + 1] == t.added[..m] + [t.added[m]];
      assert Functions(t'.invoked) == Functions(t.invoked) + [t.added[m]];
    }
  }

  lemma {:induction false} OnceFire<F, A>(t: Trace<F, A>, e: Event<F, A>)
    requires OnceInv(t) && e.DoFire?
    ensures OnceInv(TraceStep(t, e))
  {
    var s := t.s;
    if s.locked {
      assert Step(s, e) == s;
      assert t.invoked + [] == t.invoked && t.added + [] == t.added;
    } else {
      OnceFirstFire(t, e);
    }
  }

  lemma {:induction false} OnceFirstFire<F, A>(t: Trace<F, A>, e: Event<F, A>)
    requires OnceInv(t) && e.DoFire? && !t.s.locked
    ensures OnceInv(TraceStep(t, e))
  {
    var s, t' := t.s, TraceStep(t, e);
    assert s.queue + [e.args] == [e.args];
    StartFireOnce(s.(queue := [e.args]), e.args);
    assert t'.added == t.added && t'.firstFire == Some(e.args);
    if s.list.value != [] {
      assert t'.s.firing && t'.s.firingIndex == 0 && t'.s.list == s.list;
      assert Starts(s, e);
      assert t'.invoked == [(t.added[0], e.args)];
      assert Functions(t'.invoked) == [t.added[0]] == t.added[..1];
    } else {
      assert !t'.s.firing && t'.invoked == [];
    }
  }

  lemma {:induction false} OnceAdd<F, A>(t: Trace<F, A>, e: Event<F, A>)
    requires OnceInv(t) && e.DoAdd? && !(t.s.memory.Some? && !t.s.firing)
    ensures OnceInv(TraceStep(t, e))
  {
    var s := t.s;
    var p := Pushed(s.opts.unique, s.list.value, s.pushes, e.fs);
    PushAllAppends(s, e.fs);
    var s' := PushAll(s, e.fs);
    LastPartGrows(s.list.value, t.added, s'.list.value, p);
    var t' := TraceStep(t, e);
    assert t.invoked + [] == t.invoked;
    assert t' == t.(s := s', added := t.added + p);
    if s.firing {
      var m := |t.added| - |s.list.value| + s.firingIndex + 1;
      assert (t.added + p)[..m] == t.added[..m];
    }
  }

  lemma {:induction false} OnceAddRefires<F, A>(t: Trace<F, A>, e: Event<F, A>)
    requires OnceInv(t) && e.DoAdd? && t.s.memory.Some? && !t.s.firing
    ensures OnceInv(TraceStep(t, e))
  {
    var s := t.s;
    var p := Pushed(s.opts.unique, s.list.value, s.pushes, e.fs);
    var t' := TraceStep(t, e);
    var s1 := s.(firingIndex := -1, queue := [s.memory.value]);
    assert s.queue + [s.memory.value] == [s.memory.value];
    PushAllAppends(s1, e.fs);
    var s2 := PushAll(s1, e.fs);
    StartFireOnce(s2, s.memory.value);
    assert t'.s == StartFire(s2) && t'.added == t.added + p && t'.firstFire == t.firstFire;
    if p == [] {
      assert t'.invoked == t.invoked;
    } else {
      assert Starts(s, e);
      assert t'.invoked == t.invoked + [(p[0], s.memory.value)];
      assert Functions(t'.invoked) == t.added + [p[0]] == t'.added[..|t.added| + 1];
    }
  }

  lemma {:induction false} OnceStep<F, A>(t: Trace<F, A>, e: Event<F, A>)
    requires OnceInv(t) && Enabled(t.s, e) && (e.DoAdd? || e.DoFire? || e.DoReturn?)
    ensures OnceInv(TraceStep(t, e))
  {
    match e
    case DoAdd(_) =>
      if t.s.memory.Some? && !t.s.firing {
        OnceAddRefires(t, e);
      } else {
        OnceAdd(t, e);
      }
    case DoFire(_) => OnceFire(t, e);
    case DoReturn(_) => OnceReturn(t, e);
  }

  lemma {:induction false} OnceInvRuns<F, A>(opts: Options, es: seq<Event<F, A>>)
    requires OnceMemory(opts) && Legal(opts, es)
    requires forall e | e in es :: e.DoAdd? || e.DoFire? || e.DoReturn?
    ensures OnceInv(Run(opts, es))
    decreases |es|
  {
    if es != [] {
      LegalPrefix(opts, es);
      var front, e := es[..|es| - 1], es[|es| - 1];
      OnceInvRuns(opts, front);
      assert e in es;
      OnceStep(Run(opts, front), e);
    }
  }

  // Any interleaving of `add` and `fireWith`, from outside or from inside the callbacks: what
  // has been invoked is a prefix of what was added, all of it whenever the list is at rest
  // after firing, and always with the arguments of the first `fireWith`.
  lemma {:induction false} OnceMemoryRuns<F, A>(opts: Options, es: seq<Event<F, A>>)
    requires OnceMemory(opts) && Legal(opts, es)
    requires forall e | e in es :: e.DoAdd? || e.DoFire? || e.DoReturn?
    ensures var t := Run(opts, es);
            && Functions(t.invoked) <= t.added
            && (!t.s.fired ==> t.invoked == [])
            && (t.s.fired && !t.s.firing ==> Functions(t.invoked) == t.added)
            && (forall k | 0 <= k < |t.invoked| :: t.firstFire == Some(t.invoked[k].1))
  {
    OnceInvRuns(opts, es);
  }

  /* ---------- removing and adding while firing ---------- */

  function Keep<F(==)>(l: seq<Occ<F>>, f: F): seq<Occ<F>> {
    if l == [] then [] else Keep(l[..|l| - 1], f) + (if l[|l| - 1].fn == f then [] else [l[|l| - 1]])
  }

  lemma {:induction false} KeepConcat<F>(a: seq<Occ<F>>, b: seq<Occ<F>>, f: F)
    ensures Keep(a + b, f) == Keep(a, f) + Keep(b, f)
  {
    if b == [] {
      assert a + b == a && Keep(a, f) + Keep(b, f) == Keep(a, f);
    } else {
      KeepConcat(a, b[..|b| - 1], f);
      assert (a + b)[..|a + b| - 1] == a + b[..|b| - 1];
    }
  }

  lemma {:induction false} KeepAll<F>(l: seq<Occ<F>>, f: F)
    requires forall i | 0 <= i < |l| :: l[i].fn != f
    ensures Keep(l, f) == l
  {
    if l != [] {
      KeepAll(l[..|l| - 1], f);
      assert l == l[..|l| - 1] + [l[|l| - 1]];
    }
  }

  lemma {:induction false} KeepSkips<F>(a: seq<Occ<F>>, x: Occ<F>, b: seq<Occ<F>>, f: F)
    requires x.fn == f
    ensures Keep((a + [x]) + b, f) == Keep(a + b, f)
  {
    KeepConcat(a + [x], b, f);
    KeepConcat(a, b, f);
    assert (a + [x])[..|a + [x]| - 1] == a;
  }

  lemma {:induction false} SplitAround<T>(l: seq<T>, index: nat)
    requires index < |l|
    ensures l == (l[..index] + [l[index]]) + l[index + 1..]
  {
  }

  lemma {:induction false} KeepDropsOne<F>(l: seq<Occ<F>>, f: F, index: nat)
    requires index < |l| && l[index].fn == f
    ensures Keep(l[..index] + l[index + 1..], f) == Keep(l, f)
  {
    SplitAround(l, index);
    KeepSkips(l[..index], l[index], l[index + 1..], f);
  }

  // `remove` deletes every entry of the function, and moves `firingIndex` down by exactly the
  // number of entries deleted at or before it.
  lemma {:induction false} RemoveFromFilters<F>(l: seq<Occ<F>>, fi: int, f: F, from: nat)
    requires -1 <= fi < |l| && from <= |l|
    requires forall i | 0 <= i < from :: l[i].fn != f
    ensures RemoveFrom(l, fi, f, from) == (Keep(l, f), |Keep(l[..fi + 1], f)| - 1)
    decreases |l|
  {
    InArrayFinds(l, f, from);
    var index := InArray(l, f, from);
    if index < 0 {
      KeepAll(l, f);
      KeepAll(l[..fi + 1], f);
    } else {
      var l' := l[..index] + l[index + 1..];
      var fi' := if index <= fi then fi - 1 else fi;
      calc {
        RemoveFrom(l, fi, f, from);
        RemoveFrom(l', fi', f, index);
        { RemoveFromFilters(l', fi', f, index); }
        (Keep(l', f), |Keep(l'[..fi' + 1], f)| - 1);
        { KeepDropsOne(l, f, index); SplicedFront(l, fi, f, index); }
        (Keep(l, f), |Keep(l[..fi + 1], f)| - 1);
      }
    }
  }

  // What removing one entry does to the part up to the firing index.
  lemma {:induction false} SplicedFront<F>(l: seq<Occ<F>>, fi: int, f: F, index: nat)
    requires -1 <= fi < |l| && index < |l| && l[index].fn == f
    ensures var l' := l[..index] + l[index + 1..];
            var fi' := if index <= fi then fi - 1 else fi;
            -1 <= fi' < |l'| && Keep(l'[..fi' + 1], f) == Keep(l[..fi + 1], f)
  {
    var l' := l[..index] + l[index + 1..];
    if index <= fi {
      assert l'[..fi] == l[..fi + 1][..index] + l[..fi + 1][index + 1..];
      KeepDropsOne(l[..fi + 1], f, index);
    } else {
      assert l'[..fi + 1] == l[..fi + 1];
    }
  }

  // Numbers grow along the list.
  ghost predicate Rising<F>(l: seq<Occ<F>>) {
    forall i, j | 0 <= i < j < |l| :: l[i].id < l[j].id
  }

  lemma {:induction false} KeepSubsequence<F>(l: seq<Occ<F>>, f: F)
    requires Rising(l)
    ensures Rising(Keep(l, f)) && forall o :: o in Keep(l, f) ==> o in l
  {
    if l != [] {
      var front := l[..|l| - 1];
      KeepSubsequence(front, f);
      forall i | 0 <= i < |Keep(front, f)| ensures Keep(front, f)[i].id < l[|l| - 1].id {
        assert Keep(front, f)[i] in front;
      }
    }
  }

  // While firing, the entries up to `firingIndex` are exactly those already handled in this
  // pass that are still present.
  ghost predicate PassInv<F, A>(t: Trace<F, A>) {
    var s := t.s;
    && !s.opts.stopOnFalse
    && (s.list.Some? ==> Rising(s.list.value) && forall o | o in s.list.value :: o.id < s.pushes)
    && if !s.firing then s.firingIndex == -1 && s.queue == []
       else
         && s.list.Some? && s.memory.Some? && -1 <= s.firingIndex < |s.list.value|
         && (forall j | 0 <= j < |s.list.value| :: s.list.value[j].id in t.handled <==> j <= s.firingIndex)
         && (forall i | i in t.handled :: i < s.pushes)
  }

  // What a step owes to the pass: a callback that starts was not handled before in its pass,
  // and a pass that ends has handled every entry still present.
  ghost predicate FairStep<F, A>(t: Trace<F, A>, e: Event<F, A>) {
    var s' := Step(t.s, e);
    && (Starts(t.s, e) ==>
          s'.list.value[s'.firingIndex].id !in
            (if s'.passes == t.s.passes then t.handled else if e.DoAdd? then Ids(t.s.list) else {}))
    && (e.DoReturn? && (s'.passes != t.s.passes || !s'.firing) ==> Ids(t.s.list) <= t.handled)
  }

  lemma {:induction false} PassReturn<F, A>(t: Trace<F, A>, e: Event<F, A>)
    requires PassInv(t) && e.DoReturn? && t.s.firing
    ensures PassInv(TraceStep(t, e)) && FairStep(t, e)
  {
    var s := t.s;
    AdvanceLands(s);
    var s' := Step(s, e);
    assert s' == Advance(s);
    if s'.firing {
      assert Starts(s, e);
    } else {
      AdvanceEnds(s);
    }
  }

  // When `fire` comes to rest the list is unchanged, emptied or gone.
  lemma {:induction false} AdvanceEnds<F, A>(s: State<F, A>)
    requires !Advance(s).firing
    ensures Advance(s).list in {s.list, Some([]), None}
    decreases |s.queue|
  {
    if s.firingIndex + 1 >= Length(s.list) && s.queue != [] {
      AdvanceEnds(s.(firingIndex := -1, memory := Some(s.queue[0]), queue := s.queue[1..], passes := s.passes + 1));
    }
  }

  lemma {:induction false} PassFire<F, A>(t: Trace<F, A>, e: Event<F, A>)
    requires PassInv(t) && e.DoFire?
    ensures PassInv(TraceStep(t, e)) && FairStep(t, e)
  {
    var s := t.s;
    if !s.locked && !s.firing {
      assert s.queue + [e.args] == [e.args];
      StartFireOnce(s.(queue := [e.args]), e.args);
      var s' := Step(s, e);
      if s'.firing {
        assert Starts(s, e);
      }
    }
  }

  lemma {:induction false} PassAdd<F, A>(t: Trace<F, A>, e: Event<F, A>)
    requires PassInv(t) && e.DoAdd? && !(t.s.memory.Some? && !t.s.firing)
    ensures PassInv(TraceStep(t, e)) && FairStep(t, e)
  {
    if t.s.list.Some? {
      PushAllAppends(t.s, e.fs);
      RisingAppend(t.s.list.value, t.s.pushes, PushAll(t.s, e.fs).list.value);
    }
  }

  lemma {:induction false} RisingAppend<F>(l: seq<Occ<F>>, next: nat, l': seq<Occ<F>>)
    requires Rising(l) && (forall o | o in l :: o.id < next) && l <= l'
    requires forall k | |l| <= k < |l'| :: l'[k].id == next + (k - |l|)
    ensures Rising(l') && forall o | o in l' :: o.id < next + |l'| - |l|
  {
    forall i, j | 0 <= i < j < |l'| ensures l'[i].id < l'[j].id {
      if i < |l| {
        assert l[i] in l;
      }
    }
    forall o | o in l' ensures o.id < next + |l'| - |l| {
      var k :| 0 <= k < |l'| && l'[k] == o;
      if k < |l| {
        assert l[k] in l;
      }
    }
  }

  lemma {:induction false} PassAddRefires<F, A>(t: Trace<F, A>, e: Event<F, A>)
    requires PassInv(t) && e.DoAdd? && t.s.memory.Some? && !t.s.firing
    ensures PassInv(TraceStep(t, e)) && FairStep(t, e)
  {
    var s := t.s;
    if s.list.Some? {
      var l := s.list.value;
      var s1 := s.(firingIndex := |l| - 1, queue := [s.memory.value]);
      assert s.queue + [s.memory.value] == [s.memory.value];
      PushAllAppends(s1, e.fs);
      var s2 := PushAll(s1, e.fs);
      RisingAppend(l, s.pushes, s2.list.value);
      StartFireOnce(s2, s.memory.value);
      var s' := Step(s, e);
      assert s' == StartFire(s2);
      forall i | i in Ids(s.list) ensures i < s.pushes {
        var k :| 0 <= k < |l| && l[k].id == i;
        assert l[k] in l;
      }
      if s'.firing {
        assert Starts(s, e);
        forall j | 0 <= j < |l| ensures s'.list.value[j].id in Ids(s.list) {
          assert s'.list.value[j] == l[j];
        }
      }
    }
  }

  // Removing splits the list at the firing index as before.
  lemma {:induction false} RemoveSplits<F, A>(s: State<F, A>, f: F, a: seq<Occ<F>>, b: seq<Occ<F>>)
    requires s.list == Some(a + b) && s.firingIndex == |a| - 1
    ensures Remove(s, f) == s.(list := Some(Keep(a, f) + Keep(b, f)), firingIndex := |Keep(a, f)| - 1)
  {
    RemoveFromFilters(a + b, |a| - 1, f, 0);
    assert (a + b)[..|a|] == a;
    KeepConcat(a, b, f);
  }

  // What is kept of the handled part `a` stays handled, what is kept of `b` stays due.
  lemma {:induction false} KeptInOrder<F>(a: seq<Occ<F>>, b: seq<Occ<F>>, f: F)
    requires Rising(a + b)
    ensures Rising(Keep(a, f) + Keep(b, f)) && (a == [] ==> Keep(a, f) == [])
    ensures forall o | o in Keep(a, f) :: o in a
    ensures forall o | o in Keep(b, f) :: o in b
  {
    assert forall i | 0 <= i < |a| :: a[i] == (a + b)[i];
    assert forall i | 0 <= i < |b| :: b[i] == (a + b)[|a| + i];
    KeepSubsequence(a, f);
    KeepSubsequence(b, f);
    KeepSubsequence(a + b, f);
    KeepConcat(a, b, f);
  }

  lemma {:induction false} PassRemove<F, A>(t: Trace<F, A>, e: Event<F, A>)
    requires PassInv(t) && e.DoRemove?
    ensures PassInv(TraceStep(t, e)) && FairStep(t, e)
  {
    var s := t.s;
    if s.list.Some? {
      var l := s.list.value;
      PassRemoveAt(t, e, l[..s.firingIndex + 1], l[s.firingIndex + 1..]);
    }
  }

  lemma {:induction false} PassRemoveAt<F, A>(t: Trace<F, A>, e: Event<F, A>, a: seq<Occ<F>>, b: seq<Occ<F>>)
    requires PassInv(t) && e.DoRemove? && t.s.list.Some? && t.s.list.value == a + b && |a| == t.s.firingIndex + 1
    ensures PassInv(TraceStep(t, e)) && FairStep(t, e)
  {
    RemoveSplits(t.s, e.f, a, b);
    KeptInOrder(a, b, e.f);
    PassAfterRemove(t, e, a, b, Keep(a, e.f), Keep(b, e.f));
  }

  lemma {:induction false} PassAfterRemove<F, A>(t: Trace<F, A>, e: Event<F, A>, a: seq<Occ<F>>, b: seq<Occ<F>>, x: seq<Occ<F>>, y: seq<Occ<F>>)
    requires PassInv(t) && e.DoRemove? && t.s.list == Some(a + b) && |a| == t.s.firingIndex + 1
    requires Step(t.s, e) == t.s.(list := Some(x + y), firingIndex := |x| - 1)
    requires Rising(x + y) && (forall o | o in x :: o in a) && (forall o | o in y :: o in b)
    requires a == [] ==> x == []
    ensures PassInv(TraceStep(t, e)) && FairStep(t, e)
  {
    var l, l' := a + b, x + y;
    forall o | o in l' ensures o in l {
      assert o in x || o in y;
    }
    if t.s.firing {
      forall j | 0 <= j < |l'| ensures l'[j].id in t.handled <==> j <= |x| - 1 {
        if j < |x| {
          assert l'[j] in x;
          var k :| 0 <= k < |a| && a[k] == l'[j];
          assert l[k] == l'[j];
        } else {
          assert l'[j] == y[j - |x|] && y[j - |x|] in y;
          var k :| 0 <= k < |b| && b[k] == l'[j];
          assert l[|a| + k] == l'[j];
        }
      }
    }
  }

  // Over every run without `empty`, `disable` and stopOnFalse: no pass runs an entry twice,
  // and none ends before every entry still present has run.
  lemma {:induction false} PassRuns<F, A>(opts: Options, es: seq<Event<F, A>>)
    requires !opts.stopOnFalse && Legal(opts, es)
    requires forall e | e in es :: !e.DoEmpty? && !e.DoDisable?
    ensures PassInv(Run(opts, es))
    ensures es != [] ==> FairStep(Run(opts, es[..|es| - 1]), es[|es| - 1])
    decreases |es|
  {
    if es != [] {
      LegalPrefix(opts, es);
      var front, e := es[..|es| - 1], es[|es| - 1];
      PassRuns(opts, front);
      var t := Run(opts, front);
      assert e in es;
      match e
      case DoAdd(_) =>
        if t.s.memory.Some? && !t.s.firing {
          PassAddRefires(t, e);
        } else {
          PassAdd(t, e);
        }
      case DoRemove(_) => PassRemove(t, e);
      case DoLock =>
      case DoFire(_) => PassFire(t, e);
      case DoReturn(_) => PassReturn(t, e);
    }
  }
}
