/** `jQuery.Callbacks`: a list of functions that may be added to, removed from and fired again
    by the very functions it is calling.

    User code is arbitrary, so the list is a machine driven by events: calls made by user code
    (from outside, or from inside the running callback) and returns of the running callback.
    While `firing` is set, the callback at `firingIndex` is running. */
module Callbacks {
  import opened Wrappers

  datatype Options = Options(once: bool, memory: bool, unique: bool, stopOnFalse: bool)

  // One entry of the list: a function, and the number of the push that put it there.
  datatype Occ<F> = Occ(fn: F, id: nat)

  // The variables of the closure. `list == None` is the falsy list of a spent or disabled
  // object. `pushes` and `passes` only count pushes onto the list and passes over it.
  datatype State<F(==), A> = State(
    opts: Options, firing: bool, memory: Option<A>, fired: bool, locked: bool,
    list: Option<seq<Occ<F>>>, queue: seq<A>, firingIndex: int,
    pushes: nat, passes: nat)

  function Initial<F(==), A>(opts: Options): State<F, A> {
    State(opts, false, None, false, false, Some([]), [], -1, 0, 0)
  }

  function Length<F(==)>(list: Option<seq<Occ<F>>>): nat {
    if list.Some? then |list.value| else 0
  }

  /* ---------- fire ---------- */

  // From the test `++firingIndex < list.length` on, up to the next callback or the end.
  function Advance<F(==), A>(s: State<F, A>): State<F, A>
    decreases |s.queue|, 1
  {
    if s.firingIndex + 1 < Length(s.list) then s.(firingIndex := s.firingIndex + 1)
    else NextPass(s.(firingIndex := -1))
  }

  // From the test `queue.length` on.
  function NextPass<F(==), A>(s: State<F, A>): State<F, A>
    decreases |s.queue|, 0
  {
    if s.queue == [] then Finish(s)
    else Advance(s.(memory := Some(s.queue[0]), queue := s.queue[1..], passes := s.passes + 1))
  }

  function Finish<F(==), A>(s: State<F, A>): State<F, A> {
    var memory := if s.opts.memory then s.memory else None;
    s.(memory := memory, firing := false,
       list := if !s.locked then s.list else if memory.Some? then Some([]) else None)
  }

  function StartFire<F(==), A>(s: State<F, A>): State<F, A> {
    NextPass(s.(locked := s.locked || s.opts.once, fired := true, firing := true))
  }

  /* ---------- the operations ---------- */

  predicate Has<F(==)>(list: seq<Occ<F>>, f: F) {
    exists i | 0 <= i < |list| :: list[i].fn == f
  }

  function PushAll<F(==), A>(s: State<F, A>, fs: seq<F>): State<F, A>
    requires s.list.Some?
    decreases |fs|
  {
    if fs == [] then s
    else if s.opts.unique && Has(s.list.value, fs[0]) then PushAll(s, fs[1..])
    else PushAll(s.(list := Some(s.list.value + [Occ(fs[0], s.pushes)]), pushes := s.pushes + 1), fs[1..])
  }

  function Add<F(==), A>(s: State<F, A>, fs: seq<F>): State<F, A> {
    if s.list.None? then s
    else if s.memory.Some? && !s.firing then
      StartFire(PushAll(s.(firingIndex := |s.list.value| - 1, queue := s.queue + [s.memory.value]), fs))
    else PushAll(s, fs)
  }

  // `jQuery.inArray`: the first index at or after `from`, or -1.
  function InArray<F(==)>(list: seq<Occ<F>>, f: F, from: nat): int
    decreases |list| - from
  {
    if from >= |list| then -1 else if list[from].fn == f then from else InArray(list, f, from + 1)
  }

  // The list and the firing index after removing a function from `from` on.
  function RemoveFrom<F(==)>(l: seq<Occ<F>>, fi: int, f: F, from: nat): (seq<Occ<F>>, int)
    decreases |l|
  {
    InArrayFinds(l, f, from);
    var index := InArray(l, f, from);
    if index < 0 then (l, fi)
    else RemoveFrom(l[..index] + l[index + 1..], if index <= fi then fi - 1 else fi, f, index)
  }

  function Remove<F(==), A>(s: State<F, A>, f: F): State<F, A> {
    if s.list.None? then s
    else
      var (l, fi) := RemoveFrom(s.list.value, s.firingIndex, f, 0);
      s.(list := Some(l), firingIndex := fi)
  }

  function Empty<F(==), A>(s: State<F, A>): State<F, A> {
    if s.list.Some? then s.(list := Some([])) else s
  }

  function Disable<F(==), A>(s: State<F, A>): State<F, A> {
    s.(locked := true, queue := [], list := None, memory := None)
  }

  function Lock<F(==), A>(s: State<F, A>): State<F, A> {
    var s' := s.(locked := true, queue := []);
    if s.memory.None? && !s.firing then s'.(list := None) else s'
  }

  function FireWith<F(==), A>(s: State<F, A>, args: A): State<F, A> {
    if s.locked then s
    else
      var s' := s.(queue := s.queue + [args]);
      if s.firing then s' else StartFire(s')
  }

  // The running callback returns; `isFalse` says whether it returned exactly false.
  function Return<F(==), A>(s: State<F, A>, isFalse: bool): State<F, A> {
    if isFalse && s.opts.stopOnFalse then Advance(s.(firingIndex := Length(s.list), memory := None))
    else Advance(s)
  }

  lemma {:induction false} InArrayFinds<F>(list: seq<Occ<F>>, f: F, from: nat)
    ensures var k := InArray(list, f, from);
            if k < 0 then k == -1 && forall i | from <= i < |list| :: list[i].fn != f
            else from <= k < |list| && list[k].fn == f && forall i | from <= i < k :: list[i].fn != f
    decreases |list| - from
  {
    if from < |list| && list[from].fn != f {
      InArrayFinds(list, f, from + 1);
    }
  }

  /* ---------- the object ---------- */

  class CallbackList<F(==), A> {
    const opts: Options
    var firing: bool
    var memory: Option<A>
    var fired: bool
    var locked: bool
    var list: Option<seq<Occ<F>>>
    var queue: seq<A>
    var firingIndex: int
    var pushes: nat
    var passes: nat

    constructor (opts: Options)
      ensures View() == Initial(opts)
    {
      this.opts := opts;
      firing, memory, fired, locked := false, None, false, false;
      list, queue, firingIndex, pushes, passes := Some([]), [], -1, 0, 0;
    }

    function View(): State<F, A>
      reads this
    {
      State(opts, firing, memory, fired, locked, list, queue, firingIndex, pushes, passes)
    }

    // The two nested loops of `fire`, entered at the inner test and left at each callback.
    method RunToNextCallback()
      modifies this
      ensures View() == Advance(old(View()))
    {
      ghost var goal := Advance(View());
      while true
        invariant Advance(View()) == goal
        decreases |queue|
      {
        firingIndex := firingIndex + 1;
        if firingIndex < Length(list) {
          return;
        }
        firingIndex := -1;
        if queue == [] {
          break;
        }
        memory, queue, passes := Some(queue[0]), queue[1..], passes + 1;
      }
      if !opts.memory {
        memory := None;
      }
      firing := false;
      if locked {
        list := if memory.Some? then Some([]) else None;
      }
    }

    method Fire()
      modifies this
      ensures View() == StartFire(old(View()))
    {
      locked := locked || opts.once;
      fired, firing := true, true;
      if queue != [] {
        memory, queue, passes := Some(queue[0]), queue[1..], passes + 1;
        RunToNextCallback();
      } else {
        if !opts.memory {
          memory := None;
        }
        firing := false;
        if locked {
          list := if memory.Some? then Some([]) else None;
        }
      }
    }

    method AddCallbacks(fs: seq<F>)
      modifies this
      ensures View() == Add(old(View()), fs)
    {
      if list.Some? {
        var refire := memory.Some? && !firing;
        if refire {
          firingIndex := |list.value| - 1;
          queue := queue + [memory.value];
        }
        ghost var goal := PushAll(View(), fs);
        for i := 0 to |fs|
          invariant list.Some? && PushAll(View(), fs[i..]) == goal
        {
          assert fs[i..][1..] == fs[i + 1..];
          if !opts.unique || !Has(list.value, fs[i]) {
            list, pushes := Some(list.value + [Occ(fs[i], pushes)]), pushes + 1;
          }
        }
        assert View() == goal;
        if refire {
          Fire();
        }
      }
    }

    method RemoveCallback(f: F)
      modifies this
      ensures View() == Remove(old(View()), f)
    {
      if list.Some? {
        ghost var goal := RemoveFrom(list.value, firingIndex, f, 0);
        var index := InArray(list.value, f, 0);
        InArrayFinds(list.value, f, 0);
        ghost var from := 0;
        while index > -1
          invariant list.Some? && RemoveFrom(list.value, firingIndex, f, from) == goal
          invariant View() == old(View()).(list := list, firingIndex := firingIndex)
          invariant index == InArray(list.value, f, from) && -1 <= index < |list.value|
          decreases |list.value|
        {
          list := Some(list.value[..index] + list.value[index + 1..]);
          if index <= firingIndex {
            firingIndex := firingIndex - 1;
          }
          from := index;
          InArrayFinds(list.value, f, index);
          index := InArray(list.value, f, index);
        }
      }
    }

    method EmptyList()
      modifies this
      ensures View() == Empty(old(View()))
    {
      if list.Some? {
        list := Some([]);
      }
    }

    method DisableList()
      modifies this
      ensures View() == Disable(old(View()))
    {
      locked, queue, list, memory := true, [], None, None;
    }

    method LockList()
      modifies this
      ensures View() == Lock(old(View()))
    {
      locked, queue := true, [];
      if memory.None? && !firing {
        list, memory := None, None;
      }
    }

    method FireListWith(args: A)
      modifies this
      ensures View() == FireWith(old(View()), args)
    {
      if !locked {
        queue := queue + [args];
        if !firing {
          Fire();
        }
      }
    }

    method CallbackReturns(isFalse: bool)
      modifies this
      ensures View() == Return(old(View()), isFalse)
    {
      if isFalse && opts.stopOnFalse {
        firingIndex, memory := Length(list), None;
      }
      RunToNextCallback();
    }
  }

  /* ---------- runs ---------- */

  datatype Event<F, A> =
    | DoAdd(fs: seq<F>)
    | DoRemove(f: F)
    | DoEmpty
    | DoDisable
    | DoLock
    | DoFire(args: A)
    | DoReturn(isFalse: bool)

  // A callback can only return while one is running.
  predicate Enabled<F(==), A>(s: State<F, A>, e: Event<F, A>) {
    e.DoReturn? ==> s.firing
  }

  function Step<F(==), A>(s: State<F, A>, e: Event<F, A>): State<F, A> {
    match e
    case DoAdd(fs) => Add(s, fs)
    case DoRemove(f) => Remove(s, f)
    case DoEmpty => Empty(s)
    case DoDisable => Disable(s)
    case DoLock => Lock(s)
    case DoFire(args) => FireWith(s, args)
    case DoReturn(isFalse) => Return(s, isFalse)
  }

  // Did this step start a callback?
  predicate Starts<F(==), A>(s: State<F, A>, e: Event<F, A>) {
    var s' := Step(s, e);
    s'.firing && (e.DoReturn? || !s.firing) &&
    s'.list.Some? && 0 <= s'.firingIndex < |s'.list.value| && s'.memory.Some?
  }

  // A run so far: the list, everything ever pushed, every invocation with its arguments, and
  // the pushes handled in the current pass (all that were there before, when `add` re-fires).
  datatype Trace<F(==), A> = Trace(
    s: State<F, A>, added: seq<F>, invoked: seq<(F, A)>, handled: set<nat>, firstFire: Option<A>)

  function Ids<F(==)>(list: Option<seq<Occ<F>>>): set<nat> {
    if list.None? then {} else set i | 0 <= i < |list.value| :: list.value[i].id
  }

  // What a call pushes: with `unique`, only functions not in the list at that point.
  function Pushed<F(==)>(unique: bool, list: seq<Occ<F>>, next: nat, fs: seq<F>): seq<F>
    decreases |fs|
  {
    if fs == [] then []
    else if unique && Has(list, fs[0]) then Pushed(unique, list, next, fs[1..])
    else [fs[0]] + Pushed(unique, list + [Occ(fs[0], next)], next + 1, fs[1..])
  }

  function TraceStep<F(==), A>(t: Trace<F, A>, e: Event<F, A>): Trace<F, A> {
    var s' := Step(t.s, e);
    var starts := Starts(t.s, e);
    var carried := if s'.passes == t.s.passes then t.handled
                   else if e.DoAdd? then Ids(t.s.list) else {};
    Trace(s',
          t.added + (if e.DoAdd? && t.s.list.Some?
                     then Pushed(t.s.opts.unique, t.s.list.value, t.s.pushes, e.fs) else []),
          t.invoked + (if starts then [(s'.list.value[s'.firingIndex].fn, s'.memory.value)] else []),
          if starts then carried + {s'.list.value[s'.firingIndex].id} else carried,
          if t.firstFire.None? && e.DoFire? then Some(e.args) else t.firstFire)
  }

  function Run<F(==), A>(opts: Options, es: seq<Event<F, A>>): Trace<F, A>
    decreases |es|
  {
    if es == [] then Trace(Initial(opts), [], [], {}, None)
    else TraceStep(Run(opts, es[..|es| - 1]), es[|es| - 1])
  }

  ghost predicate Legal<F, A>(opts: Options, es: seq<Event<F, A>>) {
    forall i | 0 <= i < |es| :: Enabled(Run(opts, es[..i]).s, es[i])
  }

  lemma {:induction false} LegalPrefix<F, A>(opts: Options, es: seq<Event<F, A>>)
    requires Legal(opts, es) && es != []
    ensures Legal(opts, es[..|es| - 1])
    ensures Enabled(Run(opts, es[..|es| - 1]).s, es[|es| - 1])
  {
    var front := es[..|es| - 1];
    forall i | 0 <= i < |front| ensures Enabled(Run(opts, front[..i]).s, front[i]) {
      assert front[..i] == es[..i];
    }
  }

  /* ---------- what every run keeps ---------- */

  // Where the loops of `fire` stop: at a callback of the list, or at rest.
  lemma {:induction false} AdvanceLands<F, A>(s: State<F, A>)
    requires s.firing && s.firingIndex >= -1
    requires s.firingIndex + 1 < Length(s.list) ==> s.memory.Some?
    ensures var s' := Advance(s);
            && s'.opts == s.opts && s'.locked == s.locked && s'.fired == s.fired && s'.pushes == s.pushes
            && s.passes <= s'.passes <= s.passes + |s.queue|
            && if s'.firing then
                 && s'.list == s.list && s.list.Some? && s'.memory.Some?
                 && 0 <= s'.firingIndex < |s.list.value|
                 && (s'.passes == s.passes ==> s'.queue == s.queue && s'.memory == s.memory && s'.firingIndex == s.firingIndex + 1)
                 && (s'.passes > s.passes ==> s'.firingIndex == 0 && s.firingIndex + 1 >= |s.list.value|)
               else
                 s'.queue == [] && s'.firingIndex == -1 && s.firingIndex + 1 >= Length(s.list)
    decreases |s.queue|
  {
    if s.firingIndex + 1 >= Length(s.list) && s.queue != [] {
      AdvanceLands(s.(firingIndex := -1, memory := Some(s.queue[0]), queue := s.queue[1..], passes := s.passes + 1));
    }
  }

  // Firing with one thing queued is one pass from behind `firingIndex`.
  lemma {:induction false} StartFireOnce<F, A>(s: State<F, A>, args: A)
    requires s.queue == [args] && s.firingIndex >= -1
    ensures var b := s.(locked := s.locked || s.opts.once, fired := true, firing := true,
                        memory := Some(args), queue := [], passes := s.passes + 1);
            StartFire(s) ==
            if s.firingIndex + 1 < Length(s.list) then b.(firingIndex := s.firingIndex + 1)
            else Finish(b.(firingIndex := -1))
  {
    var b := s.(locked := s.locked || s.opts.once, fired := true, firing := true,
                memory := Some(args), queue := [], passes := s.passes + 1);
    assert s.queue[1..] == [];
    assert StartFire(s) == Advance(b);
    assert NextPass(b.(firingIndex := -1)) == Finish(b.(firingIndex := -1));
  }

  ghost predicate WellFormed<F, A>(s: State<F, A>) {
    s.firingIndex >= -1 && (s.firing ==> s.list.None? || s.memory.Some?)
  }

  lemma {:induction false} RemoveFromKeeps<F>(l: seq<Occ<F>>, fi: int, f: F, from: nat)
    requires fi >= -1
    ensures RemoveFrom(l, fi, f, from).1 >= -1
    decreases |l|
  {
    InArrayFinds(l, f, from);
    var index := InArray(l, f, from);
    if index >= 0 {
      RemoveFromKeeps(l[..index] + l[index + 1..], if index <= fi then fi - 1 else fi, f, index);
    }
  }

  // Pushing only appends, and numbers what it appends.
  lemma {:induction false} PushAllAppends<F, A>(s: State<F, A>, fs: seq<F>)
    requires s.list.Some?
    ensures var s' := PushAll(s, fs);
            var p := Pushed(s.opts.unique, s.list.value, s.pushes, fs);
            && s'.list.Some? && s' == s.(list := s'.list, pushes := s.pushes + |p|)
            && |s'.list.value| == |s.list.value| + |p|
            && s.list.value <= s'.list.value
            && forall k | |s.list.value| <= k < |s'.list.value| ::
                 s'.list.value[k] == Occ(p[k - |s.list.value|], s.pushes + (k - |s.list.value|))
    decreases |fs|
  {
    if fs != [] {
      if s.opts.unique && Has(s.list.value, fs[0]) {
        PushAllAppends(s, fs[1..]);
      } else {
        PushAllAppends(s.(list := Some(s.list.value + [Occ(fs[0], s.pushes)]), pushes := s.pushes + 1), fs[1..]);
      }
    }
  }

  lemma {:induction false} StepWellFormed<F, A>(s: State<F, A>, e: Event<F, A>)
    requires WellFormed(s) && Enabled(s, e)
    ensures WellFormed(Step(s, e))
    ensures Starts(s, e) <==> Step(s, e).firing && (e.DoReturn? || !s.firing)
  {
    match e
    case DoAdd(fs) =>
      if s.list.Some? {
        if s.memory.Some? && !s.firing {
          var s1 := s.(firingIndex := |s.list.value| - 1, queue := s.queue + [s.memory.value]);
          PushAllAppends(s1, fs);
          StartFireLands(PushAll(s1, fs));
        } else {
          PushAllAppends(s, fs);
        }
      }
    case DoRemove(f) =>
      if s.list.Some? {
        RemoveFromKeeps(s.list.value, s.firingIndex, f, 0);
      }
    case DoEmpty =>
    case DoDisable =>
    case DoLock =>
    case DoFire(args) =>
      if !s.locked && !s.firing {
        StartFireLands(s.(queue := s.queue + [args]));
      }
    case DoReturn(isFalse) =>
      AdvanceLands(if isFalse && s.opts.stopOnFalse then s.(firingIndex := Length(s.list), memory := None) else s);
  }

  lemma {:induction false} StartFireLands<F, A>(s: State<F, A>)
    requires s.queue != [] && s.firingIndex >= -1
    ensures WellFormed(StartFire(s))
    ensures var s' := StartFire(s);
            s'.firing ==> s'.list.Some? && 0 <= s'.firingIndex < |s'.list.value| && s'.memory.Some?
  {
    AdvanceLands(s.(locked := s.locked || s.opts.once, fired := true, firing := true,
                    memory := Some(s.queue[0]), queue := s.queue[1..], passes := s.passes + 1));
  }

  // In every run the invocation log misses nothing: whenever a callback is about to run, it
  // is an entry of the list and there are arguments for it.
  lemma {:induction false} EveryRunWellFormed<F, A>(opts: Options, es: seq<Event<F, A>>)
    requires Legal(opts, es)
    ensures WellFormed(Run(opts, es).s)
    decreases |es|
  {
    if es != [] {
      LegalPrefix(opts, es);
      EveryRunWellFormed(opts, es[..|es| - 1]);
      StepWellFormed(Run(opts, es[..|es| - 1]).s, es[|es| - 1]);
    }
  }
}
