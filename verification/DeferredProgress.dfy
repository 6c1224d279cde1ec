/** How a notification gets from the progress list of a Deferred to its handler list. */
module DeferredProgress {
  import opened Wrappers
  import opened Deferred
  import opened DeferredRuns
  import opened DeferredOutcome
  import C = Callbacks

  const TOHANDLERS: Cb := FireList(Handlers(PROGRESS))

  // The progress list of a pending Deferred: the call of the handlers, then user functions.
  ghost predicate Shape(s: List) {
    && s.opts == OptionsOf(PROGRESS) && !s.locked && s.list.Some?
    && |s.list.value| > 0 && s.list.value[0].fn == TOHANDLERS && AllUsers(s, 1)
    && if s.firing then 0 <= s.firingIndex < |s.list.value| && s.memory.Some? else s.queue == [] && s.firingIndex == -1
  }

  lemma {:induction false} FireShape(s: List, w: Args)
    requires Shape(s)
    ensures var s' := C.FireWith(s, w);
            Shape(s') && s'.firing &&
            if s.firing then s' == s.(queue := s.queue + [w])
            else s'.firingIndex == 0 && s'.memory == Some(w) && s'.queue == []
  {
    if !s.firing {
      assert s.queue + [w] == [w];
      C.StartFireOnce(s.(queue := [w]), w);
    }
  }

  lemma {:induction false} ReturnShape(s: List)
    requires Shape(s) && s.firing
    ensures var s' := C.Return(s, false);
            Shape(s') && s'.list == s.list &&
            if s.firingIndex + 1 < |s.list.value| then s' == s.(firingIndex := s.firingIndex + 1)
            else if s.queue == [] then !s'.firing
            else s'.firing && s'.firingIndex == 0 && s'.memory == Some(s.queue[0]) && s'.queue == s.queue[1..]
  {
    assert C.Return(s, false) == C.Advance(s);
    if s.firingIndex + 1 >= |s.list.value| {
      var b := s.(firingIndex := -1);
      assert C.Advance(s) == C.NextPass(b);
      if s.queue == [] {
        assert C.NextPass(b) == C.Finish(b);
      } else {
        var c := b.(memory := Some(s.queue[0]), queue := s.queue[1..], passes := s.passes + 1);
        assert C.NextPass(b) == C.Advance(c);
      }
    }
  }

  lemma {:induction false} AddShape(s: List, users: seq<nat>)
    requires Shape(s)
    ensures var s' := C.Add(s, UserFunctions(users));
            && Shape(s') && s'.queue == s.queue
            && (s.firing ==> s'.firing && s'.firingIndex == s.firingIndex && s'.memory == s.memory)
            && (!s.firing && s'.firing ==> s'.list.value[s'.firingIndex].fn.User?)
            && s.list.value <= s'.list.value
  {
    var fs := UserFunctions(users);
    PushedIsAll(s.list.value, s.pushes, fs);
    if s.memory.Some? && !s.firing {
      var s1 := s.(firingIndex := |s.list.value| - 1, queue := [s.memory.value]);
      assert s.queue + [s.memory.value] == [s.memory.value];
      C.PushAllAppends(s1, fs);
      C.StartFireOnce(C.PushAll(s1, fs), s.memory.value);
    } else {
      C.PushAllAppends(s, fs);
    }
  }

  /* ---------- the line of notifications ---------- */

  ghost predicate OpenCall(f: Frame) {
    !f.acted && !f.cb.User?
  }

  // A notification that is just being handed over: the call of the handlers is on top and has
  // not acted.
  ghost function Underway(d: Deferred): seq<Args> {
    if d.stack != [] && OpenCall(Top(d)) then [Top(d).args] else []
  }

  // Below the top every function of the wiring has acted.
  ghost predicate OnlyTopOpen(d: Deferred) {
    forall a | 0 <= a < |d.stack| - 1 :: !OpenCall(d.stack[a])
  }

  // All notifications: those handed to the handler list, the one underway, those queued.
  ghost predicate InLine(d: Deferred, notified: seq<Args>, handed: seq<Args>) {
    && |d.lists| == 6 && Shape(d.lists[PROGRESS]) && OnlyTopOpen(d)
    && notified == handed + Underway(d) + d.lists[PROGRESS].queue
  }

  function Notified(d: Deferred, m: Move): seq<Args> {
    if m.CallFire? && m.k == PROGRESS then [Args(m.payload, d.status.Pending?)] else []
  }

  // What a move hands to the handler list.
  function Handed(d: Deferred, m: Move): seq<Args>
    requires Enabled(d, m)
  {
    var es := EventOn(d, m, Handlers(PROGRESS));
    if es != [] && es[0].DoFire? then [es[0].args] else []
  }

  // While pending, open calls are calls of the handlers.
  lemma {:induction false} OpenIsHandlers(d: Deferred)
    requires Inv(d, Idle) && d.stack != [] && OpenCall(Top(d))
    ensures Top(d).k == PROGRESS && Top(d).cb == TOHANDLERS
  {
  }

  // Changing another list.
  lemma {:induction false} OtherList(d: Deferred, j: Index, s: List, starts: bool, n: seq<Args>, h: seq<Args>)
    requires InLine(d, n, h) && j != PROGRESS && Underway(d) == []
    requires starts && Calling(s) ==> s.list.value[s.firingIndex].fn.User?
    ensures InLine(Put(d, j, s, starts), n, h)
  {
    if starts && Calling(s) {
      NotOpen(d);
    }
  }

  lemma {:induction false} NotOpen(d: Deferred)
    requires OnlyTopOpen(d) && Underway(d) == []
    ensures forall a | 0 <= a < |d.stack| :: !OpenCall(d.stack[a])
  {
  }

  // Changing the progress list so that it calls something else, or goes on.
  lemma {:induction false} ProgressList(d: Deferred, s: List, starts: bool, n: seq<Args>, h: seq<Args>, more: seq<Args>)
    requires InLine(d, n, h) && Underway(d) == [] && Shape(s)
    requires starts ==> (s.firing ==> Calling(s))
    requires d.lists[PROGRESS].queue + more ==
             (if starts && s.firing && s.firingIndex == 0 then [s.memory.value] else []) + s.queue
    ensures InLine(Put(d, PROGRESS, s, starts), n + more, h)
  {
    NotOpen(d);
    var d' := Put(d, PROGRESS, s, starts);
    if starts && Calling(s) {
      assert Top(d').cb == s.list.value[s.firingIndex].fn;
      assert OpenCall(Top(d')) <==> s.firingIndex == 0;
    }
    assert n + more == h + (d.lists[PROGRESS].queue + more);
    assert h + ((if starts && s.firing && s.firingIndex == 0 then [s.memory.value] else []) + s.queue)
        == h + Underway(d') + s.queue;
  }

  lemma {:induction false} UserMove(d: Deferred)
    requires UserRuns(d)
    ensures Underway(d) == []
  {
  }

  // What the other lists call while pending.
  lemma {:induction false} AddMove(d: Deferred, k: Index, users: seq<nat>, n: seq<Args>, h: seq<Args>)
    requires Inv(d, Idle) && UserRuns(d) && InLine(d, n, h)
    ensures InLine(AddTo(d, k, users), n, h)
  {
    UserMove(d);
    var s := d.lists[k];
    if k == PROGRESS {
      AddShape(s, users);
      assert s.queue + [] == [] + s.queue && n + [] == n;
      ProgressList(d, C.Add(s, UserFunctions(users)), !s.firing, n, h, []);
    } else {
      AddedList(d, Idle, k, users);
      OtherList(d, k, C.Add(s, UserFunctions(users)), !s.firing, n, h);
    }
  }

  lemma {:induction false} NotifyMove(d: Deferred, w: Args, n: seq<Args>, h: seq<Args>)
    requires Inv(d, Idle) && UserRuns(d) && InLine(d, n, h)
    ensures InLine(FireOn(d, PROGRESS, w), n + [w], h)
  {
    UserMove(d);
    var s := d.lists[PROGRESS];
    FireShape(s, w);
    assert s.firing ==> [] + (s.queue + [w]) == s.queue + [w];
    assert !s.firing ==> s.queue + [w] == [w] + [];
    ProgressList(d, C.FireWith(s, w), !s.firing, n, h, [w]);
  }

  // A callback returns.
  lemma {:induction false} ReturnMove(d: Deferred, n: seq<Args>, h: seq<Args>)
    requires Inv(d, Idle) && d.stack != [] && !OpenCall(Top(d)) && InLine(d, n, h)
    ensures InLine(Returned(d), n, h)
  {
    var f := Top(d);
    var s := d.lists[f.k];
    PoppedLine(d, n, h);
    if f.k == PROGRESS {
      ReturnShape(s);
      var s' := C.Return(s, false);
      assert s.queue != [] ==> s.queue == [s.queue[0]] + s.queue[1..];
      assert s.queue + [] == (if s'.firing && s'.firingIndex == 0 then [s'.memory.value] else []) + s'.queue;
      assert n + [] == n;
      ProgressList(Pop(d), s', true, n, h, []);
    } else {
      assert f.k == Handlers(PROGRESS);
      ReturnNotifying(s, f.k);
      OtherList(Pop(d), f.k, C.Return(s, false), true, n, h);
    }
  }

  lemma {:induction false} PoppedLine(d: Deferred, n: seq<Args>, h: seq<Args>)
    requires d.stack != [] && !OpenCall(Top(d)) && InLine(d, n, h)
    ensures InLine(Pop(d), n, h) && Underway(Pop(d)) == []
  {
  }

  // The call of the handlers acts: it hands its notification over.
  lemma {:induction false} HandOver(d: Deferred, n: seq<Args>, h: seq<Args>)
    requires Inv(d, Idle) && d.stack != [] && OpenCall(Top(d)) && InLine(d, n, h)
    ensures InLine(Acted(d), n, h + [Top(d).args])
  {
    OpenIsHandlers(d);
    var j, w := Handlers(PROGRESS), Top(d).args;
    var s := d.lists[j];
    assert InLine(Marked(d), n, h + [w]) && Underway(Marked(d)) == [];
    FireNotifying(s, j, w);
    OtherList(Marked(d), j, C.FireWith(s, w), !s.firing, n, h + [w]);
  }

  lemma {:induction false} LineStep(d: Deferred, m: Move, n: seq<Args>, h: seq<Args>)
    requires Inv(d, Idle) && Enabled(d, m) && !Settles(m) && InLine(d, n, h)
    ensures InLine(Step(d, m), n + Notified(d, m), h + Handed(d, m))
  {
    assert n + [] == n && h + [] == h;
    match m
    case CallAdd(k, users) => AddMove(d, k, users, n, h);
    case CallFire(k, payload) => NotifyMove(d, Args(payload, d.status.Pending?), n, h);
    case Go =>
      if OpenCall(Top(d)) {
        OpenIsHandlers(d);
        HandOver(d, n, h);
      } else {
        ReturnMove(d, n, h);
      }
  }

  /* ---------- every run ---------- */

  function NotifiedBy(ms: seq<Move>, n: nat): seq<Args>
    requires n <= |ms|
  {
    if n == 0 then []
    else NotifiedBy(ms, n - 1) +
         (if ms[n - 1].CallFire? && ms[n - 1].k == PROGRESS then [Args(ms[n - 1].payload, true)] else [])
  }

  // The arguments with which the handler list has been fired.
  function Fires(es: seq<Event>): seq<Args> {
    if es == [] then []
    else Fires(es[..|es| - 1]) + (if es[|es| - 1].DoFire? then [es[|es| - 1].args] else [])
  }

  lemma {:induction false} FiresMore(es: seq<Event>, more: seq<Event>)
    requires |more| <= 1
    ensures Fires(es + more) == Fires(es) + (if more != [] && more[0].DoFire? then [more[0].args] else [])
  {
    if more == [] {
      assert es + more == es && Fires(es) + [] == Fires(es);
    } else {
      assert (es + more)[..|es|] == es;
    }
  }

  lemma {:induction false} LineStarts()
    ensures InLine(Initial(), [], [])
  {
    var s0: List := C.Initial(OptionsOf(PROGRESS));
    PushedIsAll([], 0, Wiring(PROGRESS));
    C.PushAllAppends(s0, Wiring(PROGRESS));
  }

  lemma {:induction false} LineRuns(ms: seq<Move>, ds: seq<Deferred>, n: nat)
    requires Runs(ms, ds) && n <= |ms| && NoSettle(ms, n)
    ensures InLine(ds[n], NotifiedBy(ms, n), Fires(EventsOn(ms, ds, n, Handlers(PROGRESS))))
  {
    if n == 0 {
      LineStarts();
      var es: seq<Event> := [C.DoAdd(Wiring(Handlers(PROGRESS)))];
      assert es[..0] == [];
    } else {
      LineRuns(ms, ds, n - 1);
      assert Moved(ms, ds, n - 1);
      IdleAt(ms, ds, n - 1);
      LineOnce(ds[n - 1], ms[n - 1], NotifiedBy(ms, n - 1), EventsOn(ms, ds, n - 1, Handlers(PROGRESS)));
    }
  }

  lemma {:induction false} IdleAt(ms: seq<Move>, ds: seq<Deferred>, n: nat)
    requires Runs(ms, ds) && n <= |ms| && NoSettle(ms, n)
    ensures Inv(ds[n], Idle)
  {
    IdleUntilSettle(ms, ds, n);
    EveryRunKeepsInv(ms, ds, n);
  }

  lemma {:induction false} LineOnce(d: Deferred, m: Move, n: seq<Args>, es: seq<Event>)
    requires Inv(d, Idle) && Enabled(d, m) && !Settles(m) && InLine(d, n, Fires(es))
    ensures var w := if m.CallFire? && m.k == PROGRESS then [Args(m.payload, true)] else [];
            InLine(Step(d, m), n + w, Fires(es + EventOn(d, m, Handlers(PROGRESS))))
  {
    StatusByPhase(d, Idle);
    LineStep(d, m, n, Fires(es));
    FiresMore(es, EventOn(d, m, Handlers(PROGRESS)));
  }

  // While pending: once everything has returned, the handler list has been fired with exactly the
  // notifications, in order, each once.
  lemma {:induction false} HandlersGetAll(ms: seq<Move>, ds: seq<Deferred>)
    requires Runs(ms, ds) && NoSettle(ms, |ms|) && ds[|ms|].stack == []
    ensures Fires(EventsOn(ms, ds, |ms|, Handlers(PROGRESS))) == NotifiedBy(ms, |ms|)
  {
    LineRuns(ms, ds, |ms|);
    StackAlwaysOk(ms, ds, |ms|);
    assert !OnStack(ds[|ms|].stack, PROGRESS);
  }
}
