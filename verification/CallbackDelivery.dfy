/** What a callback list delivers: every `fireWith` of a list that is not locked, in order, and
    what `once`, `stopOnFalse`, `unique`, `empty`, `lock` and `disable` take away from that. */
module CallbackDelivery {
  import opened Wrappers
  import opened Callbacks
  import opened CallbackRuns

  /* ---------- every fireWith gets its pass ---------- */

  // The arguments that an event puts in line: those of a `fireWith`, or the remembered ones
  // when `add` fires again.
  function Issues<F(==), A>(s: State<F, A>, e: Event<F, A>): seq<A> {
    match e
    case DoFire(args) => [args]
    case DoAdd(_) => if s.memory.Some? && !s.firing then [s.memory.value] else []
    case _ => []
  }

  function Issued<F(==), A>(opts: Options, es: seq<Event<F, A>>): seq<A>
    decreases |es|
  {
    if es == [] then []
    else
      var front := es[..|es| - 1];
      Issued(opts, front) + Issues(Run(opts, front).s, es[|es| - 1])
  }

  ghost predicate Plain<F, A>(opts: Options, es: seq<Event<F, A>>) {
    !opts.once && forall e | e in es :: !e.DoLock? && !e.DoDisable?
  }

  // The passes so far are those of the first `passes` arguments issued; the others are queued.
  ghost predicate InLine<F, A>(s: State<F, A>, q: seq<A>) {
    s.passes + |s.queue| == |q| && s.queue == q[s.passes..]
  }

  ghost predicate Ledger<F, A>(s: State<F, A>, q: seq<A>) {
    && !s.locked && !s.opts.once && s.list.Some? && s.firingIndex >= -1 && InLine(s, q)
    && if s.firing then s.passes > 0 && s.memory == Some(q[s.passes - 1])
       else
         && s.queue == [] && s.firingIndex == -1
         && (s.memory.Some? ==> s.opts.memory && q != [] && s.memory.value == q[|q| - 1])
         && (!s.opts.stopOnFalse ==> (s.memory.Some? <==> s.opts.memory && q != []))
  }

  // Within a pass, or at its end.
  ghost predicate MidPass<F, A>(s: State<F, A>, q: seq<A>) {
    && s.firing && !s.locked && !s.opts.once && s.list.Some? && s.firingIndex >= -1 && InLine(s, q) && s.passes > 0
    && (s.memory == Some(q[s.passes - 1]) ||
        (s.opts.stopOnFalse && s.memory.None? && s.firingIndex + 1 >= |s.list.value|))
  }

  lemma {:induction false} AdvanceLedger<F, A>(s: State<F, A>, q: seq<A>)
    requires MidPass(s, q)
    ensures Ledger(Advance(s), q)
    decreases |s.queue|
  {
    if s.firingIndex + 1 >= |s.list.value| {
      if s.queue == [] {
        assert NextPass(s.(firingIndex := -1)) == Finish(s.(firingIndex := -1));
      } else {
        var s' := s.(firingIndex := -1, memory := Some(s.queue[0]), queue := s.queue[1..], passes := s.passes + 1);
        assert s.queue[0] == q[s.passes] && s'.queue == q[s'.passes..];
        AdvanceLedger(s', q);
      }
    }
  }

  lemma {:induction false} StartLedger<F, A>(s: State<F, A>, q: seq<A>)
    requires !s.firing && !s.locked && !s.opts.once && s.list.Some? && s.firingIndex >= -1 && InLine(s, q) && |s.queue| == 1
    ensures Ledger(StartFire(s), q)
  {
    var s' := s.(locked := false, fired := true, firing := true, memory := Some(s.queue[0]), queue := s.queue[1..],
                 passes := s.passes + 1);
    assert s.queue[0] == q[s.passes] && s'.queue == q[s'.passes..];
    assert StartFire(s) == Advance(s');
    AdvanceLedger(s', q);
  }

  lemma {:induction false} LineUp<F, A>(s: State<F, A>, q: seq<A>, a: A)
    requires InLine(s, q)
    ensures InLine(s.(queue := s.queue + [a]), q + [a])
    ensures s.passes > 0 ==> (q + [a])[s.passes - 1] == q[s.passes - 1]
  {
  }

  lemma {:induction false} LedgerStep<F, A>(s: State<F, A>, q: seq<A>, e: Event<F, A>)
    requires Ledger(s, q) && Enabled(s, e) && !e.DoLock? && !e.DoDisable?
    ensures Ledger(Step(s, e), q + Issues(s, e))
  {
    match e
    case DoFire(args) =>
      LineUp(s, q, args);
      if !s.firing {
        StartLedger(s.(queue := s.queue + [args]), q + [args]);
      }
    case DoAdd(fs) =>
      if s.memory.Some? && !s.firing {
        var w := s.memory.value;
        LineUp(s, q, w);
        var s1 := s.(firingIndex := |s.list.value| - 1, queue := s.queue + [w]);
        PushAllAppends(s1, fs);
        StartLedger(PushAll(s1, fs), q + [w]);
      } else {
        PushAllAppends(s, fs);
        assert q + [] == q;
      }
    case DoRemove(f) =>
      RemoveFromKeeps(s.list.value, s.firingIndex, f, 0);
      if !s.firing {
        RemoveAtRest(s.list.value, f, 0);
      }
      assert q + [] == q;
    case DoEmpty =>
      assert q + [] == q;
    case DoReturn(isFalse) =>
      assert q + [] == q;
      if isFalse && s.opts.stopOnFalse {
        AdvanceLedger(s.(firingIndex := Length(s.list), memory := None), q);
      } else {
        AdvanceLedger(s, q);
      }
  }

  lemma {:induction false} RemoveAtRest<F>(l: seq<Occ<F>>, f: F, from: nat)
    ensures RemoveFrom(l, -1, f, from).1 == -1
    decreases |l|
  {
    InArrayFinds(l, f, from);
    var index := InArray(l, f, from);
    if index >= 0 {
      RemoveAtRest(l[..index] + l[index + 1..], f, index);
    }
  }

  lemma {:induction false} LedgerRuns<F, A>(opts: Options, es: seq<Event<F, A>>)
    requires Plain(opts, es) && Legal(opts, es)
    ensures Ledger(Run(opts, es).s, Issued(opts, es))
    decreases |es|
  {
    if es != [] {
      LegalPrefix(opts, es);
      var front, e := es[..|es| - 1], es[|es| - 1];
      assert e in es && forall x | x in front :: x in es;
      LedgerRuns(opts, front);
      LedgerStep(Run(opts, front).s, Issued(opts, front), e);
    }
  }

  // One call of a callback: which entry, with what, in which pass.
  datatype Call<F, A> = Call(fn: F, args: A, id: nat, pass: nat)

  function CallOf<F(==), A>(s: State<F, A>, e: Event<F, A>): seq<Call<F, A>> {
    if Starts(s, e) then
      var s' := Step(s, e);
      var o := s'.list.value[s'.firingIndex];
      [Call(o.fn, s'.memory.value, o.id, s'.passes)]
    else []
  }

  function Calls<F(==), A>(opts: Options, es: seq<Event<F, A>>): seq<Call<F, A>>
    decreases |es|
  {
    if es == [] then []
    else
      var front := es[..|es| - 1];
      Calls(opts, front) + CallOf(Run(opts, front).s, es[|es| - 1])
  }

  // The calls are the invocations of the trace.
  lemma {:induction false} CallsAreInvocations<F, A>(opts: Options, es: seq<Event<F, A>>)
    ensures var cs, invoked := Calls(opts, es), Run(opts, es).invoked;
            |cs| == |invoked| && forall i | 0 <= i < |cs| :: (cs[i].fn, cs[i].args) == invoked[i]
    decreases |es|
  {
    if es != [] {
      CallsAreInvocations(opts, es[..|es| - 1]);
    }
  }

  // Without `once`, `lock` and `disable`, whatever else the callbacks do: pass by pass the
  // arguments are those of the `fireWith` calls, in order, and those of the re-firing `add`
  // calls in between; every call of a pass gets the arguments of that pass; when the list is at
  // rest nothing is left in line; and `add` fires again only with `memory`, the last arguments.
  lemma {:induction false} EveryFireDelivered<F, A>(opts: Options, es: seq<Event<F, A>>)
    requires Plain(opts, es) && Legal(opts, es)
    ensures var t, q := Run(opts, es), Issued(opts, es);
            && t.s.passes + |t.s.queue| == |q| && t.s.queue == q[t.s.passes..]
            && (t.s.firing ==> t.s.passes > 0 && t.s.memory == Some(q[t.s.passes - 1]))
            && (!t.s.firing ==> t.s.passes == |q|)
            && (!t.s.firing && t.s.memory.Some? ==> opts.memory && q != [] && t.s.memory.value == q[|q| - 1])
            && (!t.s.firing && !opts.stopOnFalse ==> (t.s.memory.Some? <==> opts.memory && q != []))
            && (forall c | c in Calls(opts, es) :: 1 <= c.pass <= t.s.passes && c.args == q[c.pass - 1])
  {
    OptionsStay(opts, es);
    LedgerRuns(opts, es);
    CallsGetTheirs(opts, es);
  }

  ghost predicate Served<F, A>(cs: seq<Call<F, A>>, passes: nat, q: seq<A>) {
    passes <= |q| && forall c | c in cs :: 1 <= c.pass <= passes && c.args == q[c.pass - 1]
  }

  lemma {:induction false} CallsGetTheirs<F, A>(opts: Options, es: seq<Event<F, A>>)
    requires Plain(opts, es) && Legal(opts, es)
    ensures Served(Calls(opts, es), Run(opts, es).s.passes, Issued(opts, es))
    decreases |es|
  {
    if es != [] {
      LegalPrefix(opts, es);
      var front, e := es[..|es| - 1], es[|es| - 1];
      assert e in es && forall x | x in front :: x in es;
      CallsGetTheirs(opts, front);
      LedgerRuns(opts, front);
      ServedStep(Run(opts, front).s, Issued(opts, front), Calls(opts, front), e);
    }
  }

  lemma {:induction false} ServedStep<F, A>(s: State<F, A>, q: seq<A>, cs: seq<Call<F, A>>, e: Event<F, A>)
    requires Ledger(s, q) && Enabled(s, e) && !e.DoLock? && !e.DoDisable? && Served(cs, s.passes, q)
    ensures Served(cs + CallOf(s, e), Step(s, e).passes, q + Issues(s, e))
  {
    PassesGrow(s, e);
    LedgerStep(s, q, e);
    var s', q' := Step(s, e), q + Issues(s, e);
    forall c | c in cs + CallOf(s, e) ensures 1 <= c.pass <= s'.passes && c.args == q'[c.pass - 1] {
      if c in cs {
        assert q'[c.pass - 1] == q[c.pass - 1];
      } else {
        assert c in CallOf(s, e) && c.pass == s'.passes;
      }
    }
  }

  lemma {:induction false} OptionsStay<F, A>(opts: Options, es: seq<Event<F, A>>)
    requires Legal(opts, es)
    ensures Run(opts, es).s.opts == opts
    decreases |es|
  {
    if es != [] {
      LegalPrefix(opts, es);
      OptionsStay(opts, es[..|es| - 1]);
      EveryRunWellFormed(opts, es[..|es| - 1]);
      PassesGrow(Run(opts, es[..|es| - 1]).s, es[|es| - 1]);
    }
  }

  lemma {:induction false} AdvanceGrows<F, A>(s: State<F, A>)
    ensures Advance(s).opts == s.opts && s.passes <= Advance(s).passes
    decreases |s.queue|
  {
    if s.firingIndex + 1 >= Length(s.list) && s.queue != [] {
      AdvanceGrows(s.(firingIndex := -1, memory := Some(s.queue[0]), queue := s.queue[1..], passes := s.passes + 1));
    }
  }

  lemma {:induction false} StartGrows<F, A>(s: State<F, A>)
    ensures StartFire(s).opts == s.opts && s.passes <= StartFire(s).passes
  {
    if s.queue != [] {
      AdvanceGrows(s.(locked := s.locked || s.opts.once, fired := true, firing := true,
                      memory := Some(s.queue[0]), queue := s.queue[1..], passes := s.passes + 1));
    }
  }

  lemma {:induction false} PassesGrow<F, A>(s: State<F, A>, e: Event<F, A>)
    ensures Step(s, e).opts == s.opts && s.passes <= Step(s, e).passes
  {
    match e
    case DoFire(args) => StartGrows(s.(queue := s.queue + [args]));
    case DoAdd(fs) =>
      if s.list.Some? {
        var s1 := if s.memory.Some? && !s.firing
                  then s.(firingIndex := |s.list.value| - 1, queue := s.queue + [s.memory.value]) else s;
        PushAllAppends(s1, fs);
        StartGrows(PushAll(s1, fs));
      }
    case DoReturn(isFalse) =>
      AdvanceGrows(s);
      AdvanceGrows(s.(firingIndex := Length(s.list), memory := None));
    case _ =>
  }

  // Which entries a pass has handled: those it called, and for a pass begun by `add` those that
  // were there before.
  function Before<F(==), A>(opts: Options, es: seq<Event<F, A>>): set<nat>
    decreases |es|
  {
    if es == [] then {}
    else
      var front, e := es[..|es| - 1], es[|es| - 1];
      var s := Run(opts, front).s;
      if Step(s, e).passes == s.passes then Before(opts, front) else if e.DoAdd? then Ids(s.list) else {}
  }

  ghost function CalledIn<F, A>(cs: seq<Call<F, A>>, pass: nat): set<nat> {
    set c | c in cs && c.pass == pass :: c.id
  }

  lemma {:induction false} CalledSnoc<F, A>(cs: seq<Call<F, A>>, c: Call<F, A>, pass: nat)
    ensures CalledIn(cs + [c], pass) == CalledIn(cs, pass) + (if c.pass == pass then {c.id} else {})
  {
    assert forall x :: x in cs + [c] <==> x in cs || x == c;
  }

  lemma {:induction false} HandledIsCalled<F, A>(opts: Options, es: seq<Event<F, A>>)
    ensures Run(opts, es).handled == Before(opts, es) + CalledIn(Calls(opts, es), Run(opts, es).s.passes)
    ensures forall c | c in Calls(opts, es) :: c.pass <= Run(opts, es).s.passes
    decreases |es|
  {
    if es != [] {
      var front, e := es[..|es| - 1], es[|es| - 1];
      HandledIsCalled(opts, front);
      var s := Run(opts, front).s;
      PassesGrow(s, e);
      HandledStep(Run(opts, front), Before(opts, front), Calls(opts, front), e);
    }
  }

  lemma {:induction false} HandledStep<F, A>(t: Trace<F, A>, before: set<nat>, cs: seq<Call<F, A>>, e: Event<F, A>)
    requires t.handled == before + CalledIn(cs, t.s.passes) && t.s.passes <= Step(t.s, e).passes
    requires forall c | c in cs :: c.pass <= t.s.passes
    ensures var s' := Step(t.s, e);
            var before' := if s'.passes == t.s.passes then before else if e.DoAdd? then Ids(t.s.list) else {};
            && TraceStep(t, e).handled == before' + CalledIn(cs + CallOf(t.s, e), s'.passes)
            && forall c | c in cs + CallOf(t.s, e) :: c.pass <= s'.passes
  {
    var more := CallOf(t.s, e);
    assert Step(t.s, e).passes > t.s.passes ==> CalledIn(cs, Step(t.s, e).passes) == {};
    if more != [] {
      CalledSnoc(cs, more[0], Step(t.s, e).passes);
    } else {
      assert cs + more == cs;
    }
  }

  /* ---------- every entry gets every fire ---------- */

  // The place of a `fireWith` in the line of arguments.
  lemma {:induction false} IssuedPlace<F, A>(opts: Options, es: seq<Event<F, A>>, n: nat)
    requires n < |es| && es[n].DoFire?
    ensures |Issued(opts, es[..n])| < |Issued(opts, es)| && Issued(opts, es)[|Issued(opts, es[..n])|] == es[n].args
    decreases |es|
  {
    var front := es[..|es| - 1];
    IssuedOneMore(opts, es);
    assert es[..n] == front[..n];
    if n < |front| {
      IssuedPlace(opts, front, n);
    } else {
      assert front[..n] == front;
    }
  }

  lemma {:induction false} IssuedOneMore<F, A>(opts: Options, es: seq<Event<F, A>>)
    requires es != []
    ensures var front, e := es[..|es| - 1], es[|es| - 1];
            && Issued(opts, front) <= Issued(opts, es)
            && (e.DoFire? ==> Issued(opts, es) == Issued(opts, front) + [e.args])
  {
  }

  // A pass that belongs to a `fireWith` leaves out nothing that was there before.
  lemma {:induction false} BeforeIsEmpty<F, A>(opts: Options, es: seq<Event<F, A>>, n: nat)
    requires Plain(opts, es) && Legal(opts, es) && n < |es| && es[n].DoFire?
    requires Run(opts, es).s.passes == |Issued(opts, es[..n])| + 1
    ensures Before(opts, es) == {}
    decreases |es|
  {
    var front, e := es[..|es| - 1], es[|es| - 1];
    LegalPrefix(opts, es);
    assert e in es && forall x | x in front :: x in es;
    LedgerRuns(opts, front);
    LedgerRuns(opts, es);
    var s, q := Run(opts, front).s, Issued(opts, front);
    if n < |front| {
      assert front[..n] == es[..n];
      IssuedPlace(opts, front, n);
      if Step(s, e).passes == s.passes {
        BeforeIsEmpty(opts, front, n);
      } else if e.DoAdd? {
        AddOpensOwn(s, q, e);
      }
    }
  }

  // If `add` opens a pass, then the one for its own arguments.
  lemma {:induction false} AddOpensOwn<F, A>(s: State<F, A>, q: seq<A>, e: Event<F, A>)
    requires Ledger(s, q) && e.DoAdd?
    ensures Step(s, e).passes == s.passes || (Step(s, e).passes == |q| + 1 && !s.firing)
  {
    if s.memory.Some? && !s.firing {
      var s1 := s.(firingIndex := |s.list.value| - 1, queue := [s.memory.value]);
      assert s.queue + [s.memory.value] == [s.memory.value];
      PushAllAppends(s1, e.fs);
      StartFireOnce(PushAll(s1, e.fs), s.memory.value);
    } else {
      PushAllAppends(s, e.fs);
    }
  }

  // Only over an empty list does a pass begin and end at once.
  lemma {:induction false} AdvanceJumps<F, A>(s: State<F, A>)
    requires s.firing
    ensures var s' := Advance(s);
            (s'.passes > s.passes + 1 || (s'.passes > s.passes && !s'.firing)) && s.firingIndex >= -1 ==> Length(s.list) == 0
    decreases |s.queue|
  {
    if s.firingIndex + 1 >= Length(s.list) && s.queue != [] {
      var b := s.(firingIndex := -1, memory := Some(s.queue[0]), queue := s.queue[1..], passes := s.passes + 1);
      assert Advance(s) == Advance(b);
      AdvanceJumps(b);
    }
  }

  // The pass with this number is over.
  ghost predicate Over<F, A>(s: State<F, A>, pass: nat) {
    pass < s.passes || (pass == s.passes && !s.firing)
  }

  ghost predicate Undisturbed<F, A>(opts: Options, es: seq<Event<F, A>>) {
    Plain(opts, es) && Legal(opts, es) && !opts.stopOnFalse && forall e | e in es :: !e.DoEmpty?
  }

  // If the pass is over, it has called every entry of `l` that is still in the list.
  ghost predicate Reached<F, A>(s: State<F, A>, cs: seq<Call<F, A>>, l: seq<Occ<F>>, pass: nat) {
    Over(s, pass) && s.list.Some? ==> forall o | o in l && o in s.list.value :: o.id in CalledIn(cs, pass)
  }

  lemma {:induction false} ReachedStep<F, A>(t: Trace<F, A>, q: seq<A>, cs: seq<Call<F, A>>, l: seq<Occ<F>>, pass: nat, e: Event<F, A>)
    requires Ledger(t.s, q) && Enabled(t.s, e) && !e.DoLock? && !e.DoDisable? && !t.s.opts.stopOnFalse && FairStep(t, e)
    requires pass <= |q| && (forall o | o in l :: o.id < t.s.pushes) && Reached(t.s, cs, l, pass)
    requires pass == t.s.passes ==> t.handled == CalledIn(cs, pass)
    ensures Reached(Step(t.s, e), cs + CallOf(t.s, e), l, pass)
  {
    var s' := Step(t.s, e);
    CalledStays(cs, CallOf(t.s, e), pass);
    if Over(s', pass) && s'.list.Some? {
      forall o | o in l && o in s'.list.value ensures o.id in CalledIn(cs, pass) {
        OldOrNew(t.s, q, e, o);
        if !Over(t.s, pass) {
          EntryCalledNow(t, q, e, pass, o, cs);
        }
      }
    }
  }

  // Just issued: the list is empty, or the pass is not over.
  lemma {:induction false} ReachedFirst<F, A>(s: State<F, A>, q: seq<A>, cs: seq<Call<F, A>>, e: Event<F, A>)
    requires Ledger(s, q) && e.DoFire?
    ensures Reached(Step(s, e), cs, s.list.value, |q| + 1)
  {
    FireOnRest(s, q, e.args);
  }

  lemma {:induction false} HandledByFire<F, A>(opts: Options, es: seq<Event<F, A>>, n: nat, pass: nat)
    requires Plain(opts, es) && Legal(opts, es) && n < |es| && es[n].DoFire? && pass == |Issued(opts, es[..n])| + 1
    ensures pass == Run(opts, es).s.passes ==> Run(opts, es).handled == CalledIn(Calls(opts, es), pass)
    ensures pass <= |Issued(opts, es)|
  {
    IssuedPlace(opts, es, n);
    if pass == Run(opts, es).s.passes {
      BeforeIsEmpty(opts, es, n);
      HandledIsCalled(opts, es);
    }
  }

  lemma {:induction false} FairRun<F, A>(opts: Options, es: seq<Event<F, A>>)
    requires Undisturbed(opts, es) && es != []
    ensures var front, e := es[..|es| - 1], es[|es| - 1];
            && Undisturbed(opts, front) && FairStep(Run(opts, front), e) && Enabled(Run(opts, front).s, e)
            && !e.DoLock? && !e.DoDisable? && Run(opts, front).s.opts == opts
            && Ledger(Run(opts, front).s, Issued(opts, front))
  {
    var front, e := es[..|es| - 1], es[|es| - 1];
    LegalPrefix(opts, es);
    assert e in es && forall x | x in front :: x in es;
    PassRuns(opts, es);
    OptionsStay(opts, front);
    LedgerRuns(opts, front);
  }

  // Without `once`, `lock`, `disable`, `empty` and `stopOnFalse`: when the pass of a `fireWith` is
  // over, it has called every entry that was there when `fireWith` was called and still is.
  lemma {:induction false} EntriesGetTheFire<F, A>(opts: Options, es: seq<Event<F, A>>, n: nat)
    requires Undisturbed(opts, es) && n < |es| && es[n].DoFire? && Run(opts, es[..n]).s.list.Some?
    ensures Reached(Run(opts, es).s, Calls(opts, es), Run(opts, es[..n]).s.list.value, |Issued(opts, es[..n])| + 1)
    decreases |es|
  {
    var front, e := es[..|es| - 1], es[|es| - 1];
    FairRun(opts, es);
    if n == |front| {
      assert es[..n] == front;
      ReachedFirst(Run(opts, front).s, Issued(opts, front), Calls(opts, es), e);
    } else {
      assert front[..n] == es[..n];
      var l, pass := Run(opts, front[..n]).s.list.value, |Issued(opts, front[..n])| + 1;
      EntriesGetTheFire(opts, front, n);
      HandledByFire(opts, front, n, pass);
      OldIds(opts, front, n, l);
      ReachedStep(Run(opts, front), Issued(opts, front), Calls(opts, front), l, pass, e);
    }
  }

  lemma {:induction false} CalledStays<F, A>(cs: seq<Call<F, A>>, more: seq<Call<F, A>>, pass: nat)
    ensures CalledIn(cs, pass) <= CalledIn(cs + more, pass)
  {
  }

  lemma {:induction false} EntryCalledNow<F, A>(t: Trace<F, A>, q: seq<A>, e: Event<F, A>, pass: nat, o: Occ<F>, cs: seq<Call<F, A>>)
    requires Ledger(t.s, q) && Enabled(t.s, e) && !e.DoLock? && !e.DoDisable? && !t.s.opts.stopOnFalse && FairStep(t, e)
    requires pass <= |q| && !Over(t.s, pass) && Over(Step(t.s, e), pass) && o in t.s.list.value
    requires pass == t.s.passes ==> t.handled == CalledIn(cs, pass)
    ensures o.id in CalledIn(cs, pass)
  {
    OverNow(t.s, q, e, pass);
    IdIn(t.s.list.value, o);
  }

  lemma {:induction false} IdIn<F>(l: seq<Occ<F>>, o: Occ<F>)
    requires o in l
    ensures o.id in Ids(Some(l))
  {
    var k :| 0 <= k < |l| && l[k] == o;
  }

  lemma {:induction false} FireOnRest<F, A>(s: State<F, A>, q: seq<A>, args: A)
    requires Ledger(s, q)
    ensures Over(FireWith(s, args), |q| + 1) ==> s.list.value == []
  {
    if !s.firing {
      assert s.queue + [args] == [args];
      StartFireOnce(s.(queue := [args]), args);
    }
  }

  // A pass that was not over ends by a return; if it had not even begun, the list is empty.
  lemma {:induction false} OverNow<F, A>(s: State<F, A>, q: seq<A>, e: Event<F, A>, pass: nat)
    requires Ledger(s, q) && Enabled(s, e) && !e.DoLock? && !e.DoDisable? && !s.opts.stopOnFalse
    requires pass <= |q| && !Over(s, pass) && Over(Step(s, e), pass)
    ensures e.DoReturn? && (pass > s.passes ==> s.list.value == [])
    ensures Step(s, e).passes != s.passes || !Step(s, e).firing
  {
    match e
    case DoAdd(fs) =>
      PushAllAppends(s, fs);
    case DoReturn(isFalse) =>
      AdvanceJumps(s);
    case _ =>
  }

  // An entry that is there now was there before, if its number is that old.
  lemma {:induction false} OldOrNew<F, A>(s: State<F, A>, q: seq<A>, e: Event<F, A>, o: Occ<F>)
    requires Ledger(s, q) && Enabled(s, e) && !e.DoLock? && !e.DoDisable?
    requires Step(s, e).list.Some? && o in Step(s, e).list.value
    ensures o in s.list.value || o.id >= s.pushes
  {
    match e
    case DoAdd(fs) =>
      var s1 := if s.memory.Some? && !s.firing then s.(firingIndex := |s.list.value| - 1, queue := s.queue + [s.memory.value]) else s;
      PushAllAppends(s1, fs);
      var l' := PushAll(s1, fs).list.value;
      StartEnds(PushAll(s1, fs));
      var k :| 0 <= k < |l'| && l'[k] == o;
    case DoRemove(f) =>
      RemoveKeepsOthers(s.list.value, s.firingIndex, f, 0);
      KeepHas(s.list.value, f);
    case DoFire(args) => StartEnds(s.(queue := s.queue + [args]));
    case DoReturn(isFalse) =>
      ListStays(s);
      ListStays(s.(firingIndex := Length(s.list), memory := None));
    case _ =>
  }

  // Numbers only grow.
  lemma {:induction false} OldIds<F, A>(opts: Options, es: seq<Event<F, A>>, n: nat, l: seq<Occ<F>>)
    requires Legal(opts, es) && n <= |es| && Run(opts, es[..n]).s.list == Some(l)
    ensures forall o | o in l :: o.id < Run(opts, es).s.pushes
    decreases |es|
  {
    if n == |es| {
      assert es[..n] == es;
      NumbersBelow(opts, es);
    } else {
      LegalPrefix(opts, es);
      var front := es[..|es| - 1];
      assert front[..n] == es[..n];
      OldIds(opts, front, n, l);
      PushesGrow(Run(opts, front).s, es[|es| - 1]);
    }
  }

  lemma {:induction false} NumbersBelow<F, A>(opts: Options, es: seq<Event<F, A>>)
    ensures var s := Run(opts, es).s; s.list.Some? ==> forall o | o in s.list.value :: o.id < s.pushes
    decreases |es|
  {
    if es != [] {
      NumbersBelow(opts, es[..|es| - 1]);
      NumbersStep(Run(opts, es[..|es| - 1]).s, es[|es| - 1]);
    }
  }

  lemma {:induction false} NumbersStep<F, A>(s: State<F, A>, e: Event<F, A>)
    requires s.list.Some? ==> forall o | o in s.list.value :: o.id < s.pushes
    ensures var s' := Step(s, e); s'.list.Some? ==> forall o | o in s'.list.value :: o.id < s'.pushes
  {
    PushesGrow(s, e);
    var s' := Step(s, e);
    match e
    case DoAdd(fs) =>
      if s.list.Some? {
        var s1 := if s.memory.Some? && !s.firing then s.(firingIndex := |s.list.value| - 1, queue := s.queue + [s.memory.value]) else s;
        PushAllAppends(s1, fs);
        StartEnds(PushAll(s1, fs));
        var l' := PushAll(s1, fs).list.value;
        forall o | o in l' ensures o.id < PushAll(s1, fs).pushes {
          var k :| 0 <= k < |l'| && l'[k] == o;
          assert k < |s.list.value| ==> l'[k] in s.list.value;
        }
        StartPushes(PushAll(s1, fs));
      }
    case DoRemove(f) =>
      if s.list.Some? {
        RemoveKeepsOthers(s.list.value, s.firingIndex, f, 0);
        KeepHas(s.list.value, f);
      }
    case DoFire(args) => StartEnds(s.(queue := s.queue + [args]));
    case DoReturn(isFalse) =>
      ListStays(s);
      ListStays(s.(firingIndex := Length(s.list), memory := None));
    case _ =>
  }

  lemma {:induction false} AdvancePushes<F, A>(s: State<F, A>)
    ensures Advance(s).pushes == s.pushes
    decreases |s.queue|
  {
    if s.firingIndex + 1 >= Length(s.list) && s.queue != [] {
      AdvancePushes(s.(firingIndex := -1, memory := Some(s.queue[0]), queue := s.queue[1..], passes := s.passes + 1));
    }
  }

  lemma {:induction false} StartPushes<F, A>(s: State<F, A>)
    ensures StartFire(s).pushes == s.pushes
  {
    if s.queue != [] {
      AdvancePushes(s.(locked := s.locked || s.opts.once, fired := true, firing := true,
                       memory := Some(s.queue[0]), queue := s.queue[1..], passes := s.passes + 1));
    }
  }

  lemma {:induction false} PushesGrow<F, A>(s: State<F, A>, e: Event<F, A>)
    ensures s.pushes <= Step(s, e).pushes
  {
    match e
    case DoAdd(fs) =>
      if s.list.Some? {
        var s1 := if s.memory.Some? && !s.firing then s.(firingIndex := |s.list.value| - 1, queue := s.queue + [s.memory.value]) else s;
        PushAllAppends(s1, fs);
        StartPushes(PushAll(s1, fs));
      }
    case DoFire(args) => StartPushes(s.(queue := s.queue + [args]));
    case DoReturn(isFalse) =>
      AdvancePushes(s);
      AdvancePushes(s.(firingIndex := Length(s.list), memory := None));
    case _ =>
  }

  /* ---------- lists that only grow ---------- */

  ghost predicate Growing<F, A>(opts: Options, es: seq<Event<F, A>>) {
    Undisturbed(opts, es) && forall e | e in es :: !e.DoRemove?
  }

  lemma {:induction false} UnlockedAdvance<F, A>(s: State<F, A>)
    requires !s.locked
    ensures Advance(s).list == s.list
    decreases |s.queue|
  {
    if s.firingIndex + 1 >= Length(s.list) && s.queue != [] {
      UnlockedAdvance(s.(firingIndex := -1, memory := Some(s.queue[0]), queue := s.queue[1..], passes := s.passes + 1));
    }
  }

  lemma {:induction false} UnlockedStart<F, A>(s: State<F, A>)
    requires !s.locked && !s.opts.once
    ensures StartFire(s).list == s.list
  {
    if s.queue != [] {
      UnlockedAdvance(s.(fired := true, firing := true, memory := Some(s.queue[0]), queue := s.queue[1..], passes := s.passes + 1));
    }
  }

  // The list is everything added, and every call was that of one of its entries.
  ghost predicate AllThere<F, A>(t: Trace<F, A>, cs: seq<Call<F, A>>) {
    && t.s.list.Some? && |t.s.list.value| == |t.added|
    && (forall k | 0 <= k < |t.added| :: t.s.list.value[k].fn == t.added[k])
    && (forall c | c in cs :: Occ(c.fn, c.id) in t.s.list.value)
  }

  lemma {:induction false} GrowStep<F, A>(t: Trace<F, A>, q: seq<A>, cs: seq<Call<F, A>>, e: Event<F, A>)
    requires Ledger(t.s, q) && Enabled(t.s, e) && (e.DoAdd? || e.DoFire? || e.DoReturn?) && AllThere(t, cs)
    ensures AllThere(TraceStep(t, e), cs + CallOf(t.s, e)) && t.s.list.value <= TraceStep(t, e).s.list.value
  {
    var s, t' := t.s, TraceStep(t, e);
    GrownList(s, q, e);
    assert t.added + [] == t.added;
    forall c | c in cs ensures Occ(c.fn, c.id) in t'.s.list.value {
      var k :| 0 <= k < |s.list.value| && s.list.value[k] == Occ(c.fn, c.id);
      assert t'.s.list.value[k] == s.list.value[k];
    }
    if Starts(s, e) {
      assert t'.s.list.value[t'.s.firingIndex] in t'.s.list.value;
    }
  }

  lemma {:induction false} GrownList<F, A>(s: State<F, A>, q: seq<A>, e: Event<F, A>)
    requires Ledger(s, q) && (e.DoAdd? || e.DoFire? || e.DoReturn?)
    ensures var l' := Step(s, e).list;
            var p := if e.DoAdd? then Pushed(s.opts.unique, s.list.value, s.pushes, e.fs) else [];
            && l'.Some? && s.list.value <= l'.value && |l'.value| == |s.list.value| + |p|
            && forall k | |s.list.value| <= k < |l'.value| :: l'.value[k].fn == p[k - |s.list.value|]
  {
    match e
    case DoAdd(fs) =>
      var s1 := if s.memory.Some? && !s.firing then s.(firingIndex := |s.list.value| - 1, queue := s.queue + [s.memory.value]) else s;
      PushAllAppends(s1, fs);
      UnlockedStart(PushAll(s1, fs));
    case DoFire(args) => UnlockedStart(s.(queue := s.queue + [args]));
    case DoReturn(isFalse) =>
      UnlockedAdvance(s);
      UnlockedAdvance(s.(firingIndex := Length(s.list), memory := None));
  }

  lemma {:induction false} GrowingRuns<F, A>(opts: Options, es: seq<Event<F, A>>)
    requires Growing(opts, es)
    ensures AllThere(Run(opts, es), Calls(opts, es))
    decreases |es|
  {
    if es != [] {
      FairRun(opts, es);
      var front, e := es[..|es| - 1], es[|es| - 1];
      assert e in es && forall x | x in front :: x in es;
      GrowingRuns(opts, front);
      GrowStep(Run(opts, front), Issued(opts, front), Calls(opts, front), e);
    }
  }

  ghost predicate Extends<F, A>(a: State<F, A>, b: State<F, A>) {
    a.list.Some? && b.list.Some? && a.list.value <= b.list.value
  }

  lemma {:induction false} ExtendsOne<F, A>(opts: Options, es: seq<Event<F, A>>)
    requires Growing(opts, es) && es != []
    ensures Growing(opts, es[..|es| - 1]) && Extends(Run(opts, es[..|es| - 1]).s, Run(opts, es).s)
  {
    FairRun(opts, es);
    var front, e := es[..|es| - 1], es[|es| - 1];
    assert e in es && forall x | x in front :: x in es;
    GrowingRuns(opts, front);
    GrowStep(Run(opts, front), Issued(opts, front), Calls(opts, front), e);
  }

  lemma {:induction false} ExtendsTrans<F, A>(a: State<F, A>, b: State<F, A>, c: State<F, A>)
    requires Extends(a, b) && Extends(b, c)
    ensures Extends(a, c)
  {
  }

  lemma {:induction false} GrowingList<F, A>(opts: Options, es: seq<Event<F, A>>, n: nat)
    requires Growing(opts, es) && n <= |es|
    ensures Growing(opts, es[..n]) && Extends(Run(opts, es[..n]).s, Run(opts, es).s)
    decreases |es|
  {
    if n == |es| {
      assert es[..n] == es;
      GrowingRuns(opts, es);
    } else {
      var front := es[..|es| - 1];
      ExtendsOne(opts, es);
      assert front[..n] == es[..n];
      GrowingList(opts, front, n);
      ExtendsTrans(Run(opts, es[..n]).s, Run(opts, front).s, Run(opts, es).s);
    }
  }

  // Of the calls of a pass that reached the entries of `l`, one is that of `f`.
  lemma {:induction false} CallOfEntry<F, A>(l: seq<Occ<F>>, all: seq<Occ<F>>, cs: seq<Call<F, A>>, pass: nat, f: F) returns (c: Call<F, A>)
    requires l <= all && Rising(all) && (forall c | c in cs :: Occ(c.fn, c.id) in all)
    requires forall o | o in l && o in all :: o.id in CalledIn(cs, pass)
    requires exists k :: 0 <= k < |l| && l[k].fn == f
    ensures c in cs && c.pass == pass && c.fn == f
  {
    var k :| 0 <= k < |l| && l[k].fn == f;
    assert all[k] == l[k] && l[k] in l;
    c :| c in cs && c.pass == pass && c.id == l[k].id;
    SameEntry(all, Occ(c.fn, c.id), l[k]);
  }

  // What is known of a list that only grows, once it is at rest.
  lemma {:induction false} AtRestReached<F, A>(opts: Options, es: seq<Event<F, A>>, n: nat)
    requires Growing(opts, es) && n < |es| && es[n].DoFire? && !Run(opts, es).s.firing
    requires Run(opts, es[..n]).s.list.Some? && Run(opts, es).s.list.Some?
    ensures var l, all := Run(opts, es[..n]).s.list.value, Run(opts, es).s.list.value;
            && Rising(all) && (forall c | c in Calls(opts, es) :: Occ(c.fn, c.id) in all)
            && forall o | o in l && o in all :: o.id in CalledIn(Calls(opts, es), |Issued(opts, es[..n])| + 1)
  {
    GrowingRuns(opts, es);
    PassRuns(opts, es);
    EntriesGetTheFire(opts, es, n);
    LedgerRuns(opts, es);
    IssuedPlace(opts, es, n);
  }

  lemma {:induction false} ArgsOfPass<F, A>(opts: Options, es: seq<Event<F, A>>, n: nat, c: Call<F, A>)
    requires Plain(opts, es) && Legal(opts, es) && n < |es| && es[n].DoFire?
    requires c in Calls(opts, es) && c.pass == |Issued(opts, es[..n])| + 1
    ensures c.args == es[n].args
  {
    CallsGetTheirs(opts, es);
    IssuedPlace(opts, es, n);
  }

  // A list that only grows calls every function added before a `fireWith` with its arguments, by
  // the time it is at rest.
  lemma {:induction false} FireReachesAll<F, A>(opts: Options, es: seq<Event<F, A>>, n: nat, f: F)
    requires Growing(opts, es) && n < |es| && es[n].DoFire? && !Run(opts, es).s.firing && f in Run(opts, es[..n]).added
    ensures (f, es[n].args) in Run(opts, es).invoked
  {
    GrowingList(opts, es, n);
    AddedIsThere(opts, es[..n], f);
    AtRestReached(opts, es, n);
    var c := CallOfEntry(Run(opts, es[..n]).s.list.value, Run(opts, es).s.list.value, Calls(opts, es),
                         |Issued(opts, es[..n])| + 1, f);
    ArgsOfPass(opts, es, n, c);
    CallLogged(opts, es, c);
  }

  lemma {:induction false} AddedIsThere<F, A>(opts: Options, es: seq<Event<F, A>>, f: F)
    requires Growing(opts, es) && f in Run(opts, es).added
    ensures var l := Run(opts, es).s.list; l.Some? && exists k :: 0 <= k < |l.value| && l.value[k].fn == f
  {
    GrowingRuns(opts, es);
    var t := Run(opts, es);
    var k :| 0 <= k < |t.added| && t.added[k] == f;
    assert t.s.list.value[k].fn == f;
  }

  lemma {:induction false} SameEntry<F>(l: seq<Occ<F>>, a: Occ<F>, b: Occ<F>)
    requires Rising(l) && a in l && b in l && a.id == b.id
    ensures a == b
  {
    var i :| 0 <= i < |l| && l[i] == a;
    var j :| 0 <= j < |l| && l[j] == b;
    assert !(i < j) && !(j < i);
  }

  lemma {:induction false} CallLogged<F, A>(opts: Options, es: seq<Event<F, A>>, c: Call<F, A>)
    requires c in Calls(opts, es)
    ensures (c.fn, c.args) in Run(opts, es).invoked
  {
    CallsAreInvocations(opts, es);
    var i :| 0 <= i < |Calls(opts, es)| && Calls(opts, es)[i] == c;
    assert Run(opts, es).invoked[i] == (c.fn, c.args);
  }

  /* ---------- a pass that nothing disturbs ---------- */

  function Returns<F(==), A>(s: State<F, A>, results: seq<bool>): State<F, A>
    decreases |results|
  {
    if results == [] then s else Return(Returns(s, results[..|results| - 1]), results[|results| - 1])
  }

  // `fireWith` on a list at rest calls its entries one after the other, each with the
  // arguments; after the last one the list is at rest again, with its memory, and emptied or
  // gone if it was for `once`.
  lemma {:induction false} FireCallsAll<F, A>(s: State<F, A>, args: A, results: seq<bool>)
    requires !s.firing && !s.locked && s.queue == [] && s.firingIndex == -1 && s.list.Some?
    requires |results| <= |s.list.value|
    requires s.opts.stopOnFalse ==> forall r | r in results :: !r
    ensures var s', l := Returns(FireWith(s, args), results), s.list.value;
            if |results| < |l| then
              s'.firing && s'.list == Some(l) && s'.firingIndex == |results| && s'.memory == Some(args) && s'.queue == []
            else
              && !s'.firing && s'.queue == [] && s'.memory == (if s.opts.memory then Some(args) else None)
              && s'.list == (if !s.opts.once then Some(l) else if s.opts.memory then Some([]) else None)
              && s'.locked == s.opts.once && s'.firingIndex == -1
    decreases |results|
  {
    FireReturns(s, args, results);
  }

  lemma {:induction false} FireReturns<F, A>(s: State<F, A>, args: A, results: seq<bool>)
    requires !s.firing && !s.locked && s.queue == [] && s.firingIndex == -1 && s.list.Some?
    requires |results| <= |s.list.value|
    requires s.opts.stopOnFalse ==> forall r | r in results :: !r
    ensures var b := s.(locked := s.opts.once, fired := true, firing := true, memory := Some(args), passes := s.passes + 1);
            Returns(FireWith(s, args), results) ==
            if |results| < |s.list.value| then b.(firingIndex := |results|) else Finish(b)
    decreases |results|
  {
    var b := s.(locked := s.opts.once, fired := true, firing := true, memory := Some(args), passes := s.passes + 1);
    if results == [] {
      assert s.queue + [args] == [args];
      StartFireOnce(s.(queue := [args]), args);
    } else {
      var front, last := results[..|results| - 1], results[|results| - 1];
      assert last in results && forall r | r in front :: r in results;
      FireReturns(s, args, front);
      var s1 := b.(firingIndex := |front|);
      assert Return(s1, last) == Advance(s1);
      assert NextPass(b) == Finish(b);
    }
  }

  /* ---------- stopOnFalse and empty ---------- */

  // A callback that returns false ends its pass, and its arguments are forgotten: the next
  // callback belongs to a later pass, or the list is at rest without memory.
  lemma {:induction false} FalseStops<F, A>(s: State<F, A>)
    requires WellFormed(s) && s.firing && s.opts.stopOnFalse
    ensures var s' := Return(s, true);
            && (s'.firing ==> s'.passes > s.passes && s'.firingIndex == 0)
            && (s'.passes == s.passes ==> !s'.firing && s'.memory.None?)
            && (s.queue == [] ==> s'.passes == s.passes)
  {
    AdvanceLands(s.(firingIndex := Length(s.list), memory := None));
    if s.queue == [] {
      var b := s.(firingIndex := -1, memory := None);
      assert NextPass(b) == Finish(b);
    }
    if s.queue != [] {
      assert Return(s, true).passes > s.passes by {
        AdvanceGrows(s.(firingIndex := -1, memory := Some(s.queue[0]), queue := s.queue[1..], passes := s.passes + 1));
      }
    }
  }

  // Any other return goes on with the next entry of the same pass, if there is one.
  lemma {:induction false} OtherwiseGoesOn<F, A>(s: State<F, A>, isFalse: bool)
    requires s.firing && s.list.Some? && s.firingIndex + 1 < |s.list.value| && !(isFalse && s.opts.stopOnFalse)
    ensures Return(s, isFalse) == s.(firingIndex := s.firingIndex + 1)
  {
  }

  // After `empty` nothing is left: the running callback is the last one, unless more are added.
  lemma {:induction false} EmptyEnds<F, A>(s: State<F, A>, isFalse: bool)
    requires WellFormed(s)
    ensures Length(Empty(s).list) == 0
    ensures s.firing ==> !Return(Empty(s), isFalse).firing
  {
    var e := Empty(s);
    if s.firing {
      AdvanceLands(if isFalse && s.opts.stopOnFalse then e.(firingIndex := Length(e.list), memory := None) else e);
    }
  }

  /* ---------- what is in the list ---------- */

  ghost predicate NoRepeats<F>(l: seq<Occ<F>>) {
    forall i, j | 0 <= i < j < |l| :: l[i].fn != l[j].fn
  }

  // `add` keeps the list in front; afterwards the list has what it had and everything added;
  // with `unique` nothing twice, without it exactly one entry for each function given.
  lemma {:induction false} PushAllHas<F, A>(s: State<F, A>, fs: seq<F>)
    requires s.list.Some?
    ensures var l, s' := s.list.value, PushAll(s, fs);
            && s'.list.Some? && l <= s'.list.value
            && (forall f :: Has(s'.list.value, f) <==> Has(l, f) || f in fs)
            && (s.opts.unique && NoRepeats(l) ==> NoRepeats(s'.list.value))
            && (!s.opts.unique ==> |s'.list.value| == |l| + |fs| && forall k | 0 <= k < |fs| :: s'.list.value[|l| + k].fn == fs[k])
    decreases |fs|
  {
    if fs != [] {
      var l, f := s.list.value, fs[0];
      assert fs == [f] + fs[1..];
      if s.opts.unique && Has(l, f) {
        PushAllHas(s, fs[1..]);
      } else {
        var l1 := l + [Occ(f, s.pushes)];
        HasSnoc(l, Occ(f, s.pushes));
        PushAllHas(s.(list := Some(l1), pushes := s.pushes + 1), fs[1..]);
      }
    }
  }

  lemma {:induction false} HasSnoc<F>(l: seq<Occ<F>>, o: Occ<F>)
    ensures forall f :: Has(l + [o], f) <==> Has(l, f) || f == o.fn
    ensures NoRepeats(l) && !Has(l, o.fn) ==> NoRepeats(l + [o])
  {
    forall f ensures Has(l + [o], f) <==> Has(l, f) || f == o.fn {
      assert (l + [o])[|l|] == o;
      if Has(l, f) {
        var i :| 0 <= i < |l| && l[i].fn == f;
        assert (l + [o])[i].fn == f;
      }
    }
  }

  // `remove` takes out every entry of the function and nothing else.
  lemma {:induction false} RemoveKeepsOthers<F>(l: seq<Occ<F>>, fi: int, f: F, from: nat)
    requires from <= |l| && forall i | 0 <= i < from :: l[i].fn != f
    ensures RemoveFrom(l, fi, f, from).0 == Keep(l, f)
    decreases |l|
  {
    InArrayFinds(l, f, from);
    var index := InArray(l, f, from);
    if index < 0 {
      KeepAll(l, f);
    } else {
      KeepDropsOne(l, f, index);
      RemoveKeepsOthers(l[..index] + l[index + 1..], if index <= fi then fi - 1 else fi, f, index);
    }
  }

  lemma {:induction false} KeepHas<F>(l: seq<Occ<F>>, f: F)
    ensures forall o | o in Keep(l, f) :: o in l && o.fn != f
    ensures forall o | o in l && o.fn != f :: o in Keep(l, f)
    ensures NoRepeats(l) ==> NoRepeats(Keep(l, f))
  {
    if l != [] {
      var front, last := l[..|l| - 1], l[|l| - 1];
      KeepHas(front, f);
      assert l == front + [last];
      if NoRepeats(l) {
        forall k | 0 <= k < |Keep(front, f)| ensures Keep(front, f)[k].fn != last.fn {
          assert Keep(front, f)[k] in Keep(front, f);
          assert Keep(front, f)[k] in front;
          var i :| 0 <= i < |front| && front[i] == Keep(front, f)[k];
          assert l[i].fn != l[|l| - 1].fn;
        }
      }
    }
  }

  // What firing can do to the list.
  lemma {:induction false} StartEnds<F, A>(s: State<F, A>)
    ensures StartFire(s).list in {s.list, Some([]), None}
  {
    var b := s.(locked := s.locked || s.opts.once, fired := true, firing := true);
    if s.queue != [] {
      ListStays(b.(memory := Some(s.queue[0]), queue := s.queue[1..], passes := s.passes + 1));
    }
  }

  lemma {:induction false} ListStays<F, A>(s: State<F, A>)
    ensures Advance(s).list in {s.list, Some([]), None}
    decreases |s.queue|
  {
    if s.firingIndex + 1 >= Length(s.list) && s.queue != [] {
      ListStays(s.(firingIndex := -1, memory := Some(s.queue[0]), queue := s.queue[1..], passes := s.passes + 1));
    }
  }

  // Every entry of the list was added, and so was every function called; with `unique` the list
  // never holds a function twice.
  ghost predicate Listed<F, A>(t: Trace<F, A>) {
    && (t.s.list.Some? ==> forall o | o in t.s.list.value :: o.fn in t.added)
    && (forall c | c in t.invoked :: c.0 in t.added)
    && (t.s.opts.unique && t.s.list.Some? ==> NoRepeats(t.s.list.value))
  }

  lemma {:induction false} ListedAdd<F, A>(t: Trace<F, A>, fs: seq<F>)
    requires Listed(t) && t.s.list.Some?
    ensures var s, p := t.s, Pushed(t.s.opts.unique, t.s.list.value, t.s.pushes, fs);
            var s1 := if s.memory.Some? && !s.firing then s.(firingIndex := |s.list.value| - 1, queue := s.queue + [s.memory.value]) else s;
            var l' := PushAll(s1, fs).list;
            l'.Some? && (forall o | o in l'.value :: o.fn in t.added + p) && (s.opts.unique ==> NoRepeats(l'.value))
  {
    var s := t.s;
    var s1 := if s.memory.Some? && !s.firing then s.(firingIndex := |s.list.value| - 1, queue := s.queue + [s.memory.value]) else s;
    PushAllAppends(s1, fs);
    PushAllHas(s1, fs);
    var l, l', p := s.list.value, PushAll(s1, fs).list.value, Pushed(s.opts.unique, s.list.value, s.pushes, fs);
    forall o | o in l' ensures o.fn in t.added + p {
      var k :| 0 <= k < |l'| && l'[k] == o;
      if k < |l| {
        assert l[k] in l;
      } else {
        assert l'[k].fn == p[k - |l|];
      }
    }
  }

  lemma {:induction false} ListedStep<F, A>(t: Trace<F, A>, e: Event<F, A>)
    requires Listed(t)
    ensures Listed(TraceStep(t, e))
  {
    var s, t' := t.s, TraceStep(t, e);
    PassesGrow(s, e);
    ListOrigin(t, e);
    if Starts(s, e) {
      assert t'.s.list.value[t'.s.firingIndex] in t'.s.list.value;
    }
  }

  lemma {:induction false} ListOrigin<F, A>(t: Trace<F, A>, e: Event<F, A>)
    requires Listed(t)
    ensures var t' := TraceStep(t, e);
            t'.s.list.Some? ==>
              (forall o | o in t'.s.list.value :: o.fn in t'.added) && (t.s.opts.unique ==> NoRepeats(t'.s.list.value))
  {
    var s := t.s;
    assert t.added + [] == t.added;
    match e
    case DoAdd(fs) =>
      if s.list.Some? {
        ListedAdd(t, fs);
        if s.memory.Some? && !s.firing {
          StartEnds(PushAll(s.(firingIndex := |s.list.value| - 1, queue := s.queue + [s.memory.value]), fs));
        }
      }
    case DoRemove(f) =>
      if s.list.Some? {
        RemoveKeepsOthers(s.list.value, s.firingIndex, f, 0);
        KeepHas(s.list.value, f);
      }
    case DoFire(args) => StartEnds(s.(queue := s.queue + [args]));
    case DoReturn(isFalse) =>
      ListStays(s);
      ListStays(s.(firingIndex := Length(s.list), memory := None));
    case _ =>
  }

  lemma {:induction false} OnlyAddedIsCalled<F, A>(opts: Options, es: seq<Event<F, A>>)
    ensures Listed(Run(opts, es))
    decreases |es|
  {
    if es != [] {
      OnlyAddedIsCalled(opts, es[..|es| - 1]);
      ListedStep(Run(opts, es[..|es| - 1]), es[|es| - 1]);
    }
  }

  /* ---------- lock, once and disable ---------- */

  ghost predicate Disabled<F, A>(s: State<F, A>) {
    s.locked && s.queue == [] && s.list.None? && s.memory.None?
  }

  lemma {:induction false} DisabledStays<F, A>(s: State<F, A>, e: Event<F, A>)
    requires Disabled(s) && Enabled(s, e)
    ensures Disabled(Step(s, e)) && !Starts(s, e)
  {
    if e.DoReturn? {
      var b := s.(firingIndex := -1);
      assert NextPass(b) == Finish(b) && NextPass(b.(memory := None)) == Finish(b.(memory := None));
    }
  }

  // After `disable` nothing is called any more, whatever follows.
  lemma {:induction false} DisableEndsAll<F, A>(opts: Options, es: seq<Event<F, A>>, n: nat)
    requires Legal(opts, es) && n < |es| && es[n].DoDisable?
    ensures Disabled(Run(opts, es).s) && Run(opts, es).invoked == Run(opts, es[..n + 1]).invoked
    decreases |es|
  {
    var front, e := es[..|es| - 1], es[|es| - 1];
    if n == |front| {
      assert es[..n + 1] == es;
    } else {
      LegalPrefix(opts, es);
      DisableEndsAll(opts, front, n);
      assert front[..n + 1] == es[..n + 1];
      DisabledStays(Run(opts, front).s, e);
      assert Run(opts, front).invoked + [] == Run(opts, front).invoked;
    }
  }

  // Locked with nothing queued: `fireWith` does nothing; only the current pass goes on, or
  // `add` repeats its arguments.
  ghost predicate LockedWith<F, A>(s: State<F, A>, w: Option<A>) {
    s.locked && s.queue == [] && (s.memory == w || s.memory.None?)
  }

  lemma {:induction false} LockedStays<F, A>(s: State<F, A>, w: Option<A>, e: Event<F, A>)
    requires LockedWith(s, w) && Enabled(s, e) && WellFormed(s)
    ensures LockedWith(Step(s, e), w) && (Starts(s, e) ==> Some(Step(s, e).memory.value) == w)
    ensures e.DoFire? ==> Step(s, e) == s
  {
    match e
    case DoAdd(fs) =>
      if s.list.Some? {
        if s.memory.Some? && !s.firing {
          var s1 := s.(firingIndex := |s.list.value| - 1, queue := [s.memory.value]);
          assert s.queue + [s.memory.value] == [s.memory.value];
          PushAllAppends(s1, fs);
          StartFireOnce(PushAll(s1, fs), s.memory.value);
        } else {
          PushAllAppends(s, fs);
        }
      }
    case DoReturn(isFalse) =>
      var s1 := if isFalse && s.opts.stopOnFalse then s.(firingIndex := Length(s.list), memory := None) else s;
      assert NextPass(s1.(firingIndex := -1)) == Finish(s1.(firingIndex := -1));
    case _ =>
  }

  // After `lock` every call gets the arguments that were the current or remembered ones then.
  lemma {:induction false} LockEndsFiring<F, A>(opts: Options, es: seq<Event<F, A>>, n: nat)
    requires Legal(opts, es) && n < |es| && es[n].DoLock?
    ensures var at, now := Run(opts, es[..n + 1]), Run(opts, es);
            LockedWith(now.s, at.s.memory) && OnlyWith(at.invoked, now.invoked, at.s.memory)
    decreases |es|
  {
    var front, e := es[..|es| - 1], es[|es| - 1];
    if n == |front| {
      assert es[..n + 1] == es;
      LockedAtOnce(Run(opts, front), e);
    } else {
      LegalPrefix(opts, es);
      LockEndsFiring(opts, front, n);
      assert front[..n + 1] == es[..n + 1];
      EveryRunWellFormed(opts, front);
      LockedTrace(Run(opts, es[..n + 1]), Run(opts, front), e);
    }
  }

  lemma {:induction false} LockedAtOnce<F, A>(t: Trace<F, A>, e: Event<F, A>)
    requires e.DoLock?
    ensures var t' := TraceStep(t, e); LockedWith(t'.s, t'.s.memory) && OnlyWith(t'.invoked, t'.invoked, t'.s.memory)
  {
  }

  // The later log continues the earlier one with calls that got `w` only.
  ghost predicate OnlyWith<F, A>(before: seq<(F, A)>, now: seq<(F, A)>, w: Option<A>) {
    before <= now && forall k | |before| <= k < |now| :: Some(now[k].1) == w
  }

  lemma {:induction false} LockedTrace<F, A>(at: Trace<F, A>, t: Trace<F, A>, e: Event<F, A>)
    requires LockedWith(t.s, at.s.memory) && OnlyWith(at.invoked, t.invoked, at.s.memory) && Enabled(t.s, e) && WellFormed(t.s)
    ensures var t' := TraceStep(t, e); LockedWith(t'.s, at.s.memory) && OnlyWith(at.invoked, t'.invoked, at.s.memory)
  {
    LockedStays(t.s, at.s.memory, e);
  }

  // With `once`, whatever else happens, every call gets the arguments of the first `fireWith`.
  ghost predicate OnceOnly<F, A>(t: Trace<F, A>) {
    && t.s.opts.once && WellFormed(t.s) && t.s.queue == []
    && (forall c | c in t.invoked :: Some(c.1) == t.firstFire)
    && (t.s.memory.Some? ==> t.s.memory == t.firstFire)
    && (t.firstFire.Some? ==> t.s.locked)
    && (t.s.memory.Some? || t.s.firing ==> t.s.locked)
  }

  lemma {:induction false} OnceOnlyStep<F, A>(t: Trace<F, A>, e: Event<F, A>)
    requires OnceOnly(t) && Enabled(t.s, e)
    ensures OnceOnly(TraceStep(t, e))
  {
    var s := t.s;
    StepWellFormed(s, e);
    PassesGrow(s, e);
    if s.locked {
      LockedStays(s, s.memory, e);
    } else if e.DoFire? {
      assert s.queue + [e.args] == [e.args];
      StartFireOnce(s.(queue := [e.args]), e.args);
    } else if e.DoAdd? && s.list.Some? {
      PushAllAppends(s, e.fs);
    }
  }

  lemma {:induction false} OnceCallsOnce<F, A>(opts: Options, es: seq<Event<F, A>>)
    requires opts.once && Legal(opts, es)
    ensures OnceOnly(Run(opts, es))
    decreases |es|
  {
    if es != [] {
      LegalPrefix(opts, es);
      OnceCallsOnce(opts, es[..|es| - 1]);
      OnceOnlyStep(Run(opts, es[..|es| - 1]), es[|es| - 1]);
    }
  }
}
