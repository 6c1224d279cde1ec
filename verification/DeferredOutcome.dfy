/** Who is called, and with what: each of the six lists of a Deferred goes through a run of its
    own, and so what is known about the runs of callback lists says who gets called. */
module DeferredOutcome {
  import opened Wrappers
  import opened Deferred
  import opened DeferredRuns
  import C = Callbacks
  import R = CallbackRuns
  import D = CallbackDelivery

  /* ---------- the run of one list ---------- */

  type Event = C.Event<Cb, Args>

  // What a move does to list k: nothing, or one event.
  function EventOn(d: Deferred, m: Move, k: Index): seq<Event>
    requires Enabled(d, m)
  {
    match m
    case CallAdd(j, users) => if j == k then [C.DoAdd(UserFunctions(users))] else []
    case CallFire(j, payload) => if j == k then [C.DoFire(Args(payload, d.status.Pending?))] else []
    case Go =>
      var f := Top(d);
      if f.acted || f.cb.User? then (if f.k == k then [C.DoReturn(false)] else [])
      else match f.cb
        case DisableList(j) => if j == k then [C.DoDisable] else []
        case LockList(j) => if j == k then [C.DoLock] else []
        case FireList(j) => if j == k then [C.DoFire(f.args)] else []
        case _ => []
  }

  ghost function EventsOn(ms: seq<Move>, ds: seq<Deferred>, n: nat, k: Index): (es: seq<Event>)
    requires Runs(ms, ds) && n <= |ms|
    ensures es != []
  {
    if n == 0 then [C.DoAdd(Wiring(k))]
    else
      assert Moved(ms, ds, n - 1);
      EventsOn(ms, ds, n - 1, k) + EventOn(ds[n - 1], ms[n - 1], k)
  }

  // The calls that list k has made.
  function LogOf(log: seq<(Index, Cb, Args)>, k: Index): seq<(Cb, Args)> {
    if log == [] then []
    else
      var c := log[|log| - 1];
      LogOf(log[..|log| - 1], k) + (if c.0 == k then [(c.1, c.2)] else [])
  }

  lemma {:induction false} LogSnoc(log: seq<(Index, Cb, Args)>, c: (Index, Cb, Args), k: Index)
    ensures LogOf(log + [c], k) == if c.0 == k then LogOf(log, k) + [(c.1, c.2)] else LogOf(log, k)
  {
    assert (log + [c])[..|log|] == log;
    assert LogOf(log, k) + [] == LogOf(log, k);
  }

  // What an event makes list k call.
  function NewCall(s: List, es: seq<Event>): seq<(Cb, Args)> {
    if es != [] && C.Starts(s, es[0]) then
      var s' := C.Step(s, es[0]);
      [(s'.list.value[s'.firingIndex].fn, s'.memory.value)]
    else []
  }

  function After(s: List, es: seq<Event>): List {
    if es == [] then s else C.Step(s, es[0])
  }

  // Changing list j by one event.
  lemma {:induction false} PutIsEvent(d: Deferred, j: Index, e: Event, starts: bool, k: Index)
    requires |d.lists| == 6 && starts == (e.DoReturn? || !d.lists[j].firing)
    ensures var d' := Put(d, j, C.Step(d.lists[j], e), starts);
            var es := if j == k then [e] else [];
            d'.lists[k] == After(d.lists[k], es) && LogOf(d'.log, k) == LogOf(d.log, k) + NewCall(d.lists[k], es)
  {
    var s := C.Step(d.lists[j], e);
    assert LogOf(d.log, k) + [] == LogOf(d.log, k);
    if starts && Calling(s) {
      LogSnoc(d.log, (j, s.list.value[s.firingIndex].fn, s.memory.value), k);
    }
  }

  // Changing list j without calling anything.
  lemma {:induction false} SetIsEvent(s: List, e: Event)
    requires e.DoDisable? || e.DoLock?
    ensures NewCall(s, [e]) == []
  {
  }

  lemma {:induction false} ReturnIsEvent(d: Deferred, k: Index)
    requires |d.lists| == 6 && d.stack != [] && (Top(d).acted || Top(d).cb.User?) && d.lists[Top(d).k].firing
    ensures var d', es := Returned(d), EventOn(d, Go, k);
            && |d'.lists| == 6 && d'.lists[k] == After(d.lists[k], es)
            && LogOf(d'.log, k) == LogOf(d.log, k) + NewCall(d.lists[k], es)
            && (es != [] ==> C.Enabled(d.lists[k], es[0]))
  {
    PutIsEvent(Pop(d), Top(d).k, C.DoReturn(false), true, k);
  }

  lemma {:induction false} TopFires(d: Deferred)
    requires |d.lists| == 6 && StackOk(d) && d.stack != []
    ensures d.lists[Top(d).k].firing
  {
  }

  lemma {:induction false} MoveIsEvent(d: Deferred, m: Move, k: Index)
    requires |d.lists| == 6 && StackOk(d) && Enabled(d, m)
    ensures var d', es := Step(d, m), EventOn(d, m, k);
            && |d'.lists| == 6 && d'.lists[k] == After(d.lists[k], es)
            && LogOf(d'.log, k) == LogOf(d.log, k) + NewCall(d.lists[k], es)
            && (es != [] ==> C.Enabled(d.lists[k], es[0]))
  {
    match m
    case CallAdd(j, users) => PutIsEvent(d, j, C.DoAdd(UserFunctions(users)), !d.lists[j].firing, k);
    case CallFire(j, payload) => PutIsEvent(d, j, C.DoFire(Args(payload, d.status.Pending?)), !d.lists[j].firing, k);
    case Go =>
      if Top(d).acted || Top(d).cb.User? {
        TopFires(d);
        ReturnIsEvent(d, k);
      } else {
        ActIsEvent(d, k);
      }
  }

  lemma {:induction false} ActIsEvent(d: Deferred, k: Index)
    requires |d.lists| == 6 && d.stack != [] && !Top(d).acted && !Top(d).cb.User?
    ensures var d', es := Acted(d), EventOn(d, Go, k);
            && |d'.lists| == 6 && d'.lists[k] == After(d.lists[k], es)
            && LogOf(d'.log, k) == LogOf(d.log, k) + NewCall(d.lists[k], es)
  {
    assert LogOf(d.log, k) + [] == LogOf(d.log, k);
    match Top(d).cb
    case SetState(_) =>
    case DisableList(j) => SetIsEvent(d.lists[j], C.DoDisable);
    case LockList(j) => SetIsEvent(d.lists[j], C.DoLock);
    case FireList(j) => PutIsEvent(Marked(d), j, C.DoFire(Top(d).args), !d.lists[j].firing, k);
  }

  lemma {:induction false} RunSnoc(opts: C.Options, es: seq<Event>, e: Event)
    ensures C.Run(opts, es + [e]) == C.TraceStep(C.Run(opts, es), e)
    ensures C.Legal(opts, es) && C.Enabled(C.Run(opts, es).s, e) ==> C.Legal(opts, es + [e])
  {
    assert (es + [e])[..|es|] == es;
    if C.Legal(opts, es) && C.Enabled(C.Run(opts, es).s, e) {
      forall i | 0 <= i < |es + [e]| ensures C.Enabled(C.Run(opts, (es + [e])[..i]).s, (es + [e])[i]) {
        if i < |es| {
          assert (es + [e])[..i] == es[..i];
        }
      }
    }
  }

  // List k is in the state that these events lead to, and has made the calls that they made.
  ghost predicate Follows(d: Deferred, es: seq<Event>, k: Index) {
    && |d.lists| == 6 && C.Legal(OptionsOf(k), es)
    && d.lists[k] == C.Run(OptionsOf(k), es).s && LogOf(d.log, k) == C.Run(OptionsOf(k), es).invoked
  }

  lemma {:induction false} FollowsFromStart(k: Index)
    ensures Follows(Initial(), [C.DoAdd(Wiring(k))], k)
  {
    var e: Event := C.DoAdd(Wiring(k));
    RunSnoc(OptionsOf(k), [], e);
    assert [] + [e] == [e];
    C.PushAllAppends(C.Initial<Cb, Args>(OptionsOf(k)), Wiring(k));
  }

  lemma {:induction false} FollowsEvents(opts: C.Options, es: seq<Event>, more: seq<Event>)
    requires C.Legal(opts, es) && |more| <= 1 && (more != [] ==> C.Enabled(C.Run(opts, es).s, more[0]))
    ensures var t, t' := C.Run(opts, es), C.Run(opts, es + more);
            C.Legal(opts, es + more) && t'.s == After(t.s, more) && t'.invoked == t.invoked + NewCall(t.s, more)
  {
    if more == [] {
      assert es + more == es;
      assert C.Run(opts, es).invoked + [] == C.Run(opts, es).invoked;
    } else {
      assert more == [more[0]];
      RunSnoc(opts, es, more[0]);
    }
  }

  lemma {:induction false} StackAlwaysOk(ms: seq<Move>, ds: seq<Deferred>, n: nat)
    requires Runs(ms, ds) && n <= |ms|
    ensures |ds[n].lists| == 6 && StackOk(ds[n])
  {
    EveryRunKeepsInv(ms, ds, n);
  }

  // In every run of the Deferred each list follows its own events.
  lemma {:induction false} ListIsRun(ms: seq<Move>, ds: seq<Deferred>, n: nat, k: Index)
    requires Runs(ms, ds) && n <= |ms|
    ensures Follows(ds[n], EventsOn(ms, ds, n, k), k)
  {
    if n == 0 {
      FollowsFromStart(k);
    } else {
      ListIsRun(ms, ds, n - 1, k);
      StackAlwaysOk(ms, ds, n - 1);
      assert Moved(ms, ds, n - 1);
      FollowsStep(ds[n - 1], ms[n - 1], EventsOn(ms, ds, n - 1, k), k);
    }
  }

  lemma {:induction false} FollowsStep(d: Deferred, m: Move, es: seq<Event>, k: Index)
    requires |d.lists| == 6 && StackOk(d) && Enabled(d, m) && Follows(d, es, k)
    ensures Follows(Step(d, m), es + EventOn(d, m, k), k)
  {
    MoveIsEvent(d, m, k);
    FollowsMore(d, Step(d, m), es, EventOn(d, m, k), k);
  }

  lemma {:induction false} FollowsMore(d: Deferred, d': Deferred, es: seq<Event>, more: seq<Event>, k: Index)
    requires Follows(d, es, k) && |more| <= 1 && (more != [] ==> C.Enabled(d.lists[k], more[0]))
    requires |d'.lists| == 6 && d'.lists[k] == After(d.lists[k], more)
    requires LogOf(d'.log, k) == LogOf(d.log, k) + NewCall(d.lists[k], more)
    ensures Follows(d', es + more, k)
  {
    FollowsEvents(OptionsOf(k), es, more);
  }

  /* ---------- only what was added is called ---------- */

  // The users added to list k, in order.
  function UsersOf(ms: seq<Move>, n: nat, k: Index): seq<nat>
    requires n <= |ms|
  {
    if n == 0 then []
    else UsersOf(ms, n - 1, k) + (if ms[n - 1].CallAdd? && ms[n - 1].k == k then ms[n - 1].users else [])
  }

  lemma {:induction false} UserMoves(ms: seq<Move>, n: nat, k: Index, u: nat)
    requires n <= |ms| && u in UsersOf(ms, n, k)
    ensures exists j :: 0 <= j < n && ms[j].CallAdd? && ms[j].k == k && u in ms[j].users
  {
    if u in UsersOf(ms, n - 1, k) {
      UserMoves(ms, n - 1, k, u);
    } else {
      assert ms[n - 1].CallAdd? && ms[n - 1].k == k && u in ms[n - 1].users;
    }
  }

  ghost function Given(ms: seq<Move>, n: nat, k: Index): seq<Cb>
    requires n <= |ms|
  {
    Wiring(k) + UserFunctions(UsersOf(ms, n, k))
  }

  lemma {:induction false} GivenStep(ms: seq<Move>, n: nat, k: Index)
    requires 0 < n <= |ms|
    ensures Given(ms, n, k) ==
            if ms[n - 1].CallAdd? && ms[n - 1].k == k then Given(ms, n - 1, k) + UserFunctions(ms[n - 1].users)
            else Given(ms, n - 1, k)
  {
    var us := UsersOf(ms, n - 1, k);
    if ms[n - 1].CallAdd? && ms[n - 1].k == k {
      assert UserFunctions(us + ms[n - 1].users) == UserFunctions(us) + UserFunctions(ms[n - 1].users);
    } else {
      assert us + [] == us;
    }
  }

  ghost predicate Within(a: seq<Cb>, b: seq<Cb>) {
    forall f | f in a :: f in b
  }

  // What has been pushed onto list k.
  ghost function AddedTo(ms: seq<Move>, ds: seq<Deferred>, n: nat, k: Index): seq<Cb>
    requires Runs(ms, ds) && n <= |ms|
  {
    C.Run(OptionsOf(k), EventsOn(ms, ds, n, k)).added
  }

  // Whatever has been pushed onto list k was given to it.
  lemma {:induction false} AddedWasGiven(ms: seq<Move>, ds: seq<Deferred>, n: nat, k: Index)
    requires Runs(ms, ds) && n <= |ms|
    ensures Within(AddedTo(ms, ds, n, k), Given(ms, n, k))
  {
    if n == 0 {
      GivenAtStart(ms, k);
    } else {
      AddedWasGiven(ms, ds, n - 1, k);
      WithinNext(ms, ds, n, k, AddedTo(ms, ds, n - 1, k), AddedTo(ms, ds, n, k));
    }
  }

  lemma {:induction false} WithinNext(ms: seq<Move>, ds: seq<Deferred>, n: nat, k: Index, before: seq<Cb>, after: seq<Cb>)
    requires Runs(ms, ds) && 0 < n <= |ms| && Within(before, Given(ms, n - 1, k))
    requires before == AddedTo(ms, ds, n - 1, k) && after == AddedTo(ms, ds, n, k)
    ensures Within(after, Given(ms, n, k))
  {
    AddedNext(ms, ds, n, k);
    GivenStep(ms, n, k);
    if ms[n - 1].CallAdd? {
      BothGrow(before, Given(ms, n - 1, k), UserFunctions(ms[n - 1].users));
    }
  }

  lemma {:induction false} BothGrow(a: seq<Cb>, b: seq<Cb>, more: seq<Cb>)
    requires Within(a, b)
    ensures Within(a, b + more) && Within(a + more, b + more)
  {
  }

  lemma {:induction false} GivenAtStart(ms: seq<Move>, k: Index)
    ensures C.Run<Cb, Args>(OptionsOf(k), [C.DoAdd(Wiring(k))]).added == Given(ms, 0, k)
  {
    var e: Event := C.DoAdd(Wiring(k));
    RunSnoc(OptionsOf(k), [], e);
    assert [] + [e] == [e];
    AddedByEvent(C.Run(OptionsOf(k), []), e);
    assert [] + Wiring(k) == Wiring(k) == Wiring(k) + UserFunctions([]);
  }

  // What the n-th move pushes onto list k.
  lemma {:induction false} AddedNext(ms: seq<Move>, ds: seq<Deferred>, n: nat, k: Index)
    requires Runs(ms, ds) && 0 < n <= |ms|
    ensures var t, m := C.Run(OptionsOf(k), EventsOn(ms, ds, n - 1, k)), ms[n - 1];
            AddedTo(ms, ds, n, k) ==
            if m.CallAdd? && m.k == k && t.s.list.Some? then t.added + UserFunctions(m.users) else t.added
  {
    NotUnique(ms, ds, n - 1, k);
    assert Moved(ms, ds, n - 1);
    EventAdds(ds[n - 1], ms[n - 1], k);
    AddedByEvents(OptionsOf(k), EventsOn(ms, ds, n - 1, k), EventOn(ds[n - 1], ms[n - 1], k));
  }

  lemma {:induction false} NotUnique(ms: seq<Move>, ds: seq<Deferred>, n: nat, k: Index)
    requires Runs(ms, ds) && n <= |ms|
    ensures !C.Run(OptionsOf(k), EventsOn(ms, ds, n, k)).s.opts.unique
  {
    ListIsRun(ms, ds, n, k);
    D.OptionsStay(OptionsOf(k), EventsOn(ms, ds, n, k));
  }

  lemma {:induction false} EventAdds(d: Deferred, m: Move, k: Index)
    requires Enabled(d, m)
    ensures var es := EventOn(d, m, k);
            |es| <= 1 && if m.CallAdd? && m.k == k then es == [C.DoAdd(UserFunctions(m.users))] else es == [] || !es[0].DoAdd?
  {
  }

  lemma {:induction false} AddedByEvents(opts: C.Options, es: seq<Event>, more: seq<Event>)
    requires !C.Run(opts, es).s.opts.unique && |more| <= 1
    ensures var t := C.Run(opts, es);
            C.Run(opts, es + more).added ==
            if more != [] && more[0].DoAdd? && t.s.list.Some? then t.added + more[0].fs else t.added
  {
    if more == [] {
      assert es + more == es;
    } else {
      assert more == [more[0]];
      RunSnoc(opts, es, more[0]);
      AddedByEvent(C.Run(opts, es), more[0]);
    }
  }

  lemma {:induction false} AddedByEvent(t: C.Trace<Cb, Args>, e: Event)
    requires !t.s.opts.unique
    ensures C.TraceStep(t, e).added == if e.DoAdd? && t.s.list.Some? then t.added + e.fs else t.added
  {
    assert t.added + [] == t.added;
    if e.DoAdd? && t.s.list.Some? {
      PushedIsAll(t.s.list.value, t.s.pushes, e.fs);
    }
  }

  // A user function called by a list was added to that list before.
  lemma {:induction false} CalledWasAdded(ms: seq<Move>, ds: seq<Deferred>, n: nat, c: (Index, Cb, Args))
    requires Runs(ms, ds) && n <= |ms| && c in ds[n].log && c.1.User?
    ensures exists j :: 0 <= j < n && ms[j].CallAdd? && ms[j].k == c.0 && c.1.id in ms[j].users
  {
    var k := c.0;
    var es := EventsOn(ms, ds, n, k);
    ListIsRun(ms, ds, n, k);
    LoggedIn(ds[n].log, c);
    D.OnlyAddedIsCalled(OptionsOf(k), es);
    AddedWasGiven(ms, ds, n, k);
    assert c.1 in Given(ms, n, k);
    var us := UsersOf(ms, n, k);
    assert c.1 !in Wiring(k);
    var i :| 0 <= i < |us| && UserFunctions(us)[i] == c.1;
    UserMoves(ms, n, k, c.1.id);
  }

  lemma {:induction false} LoggedIn(log: seq<(Index, Cb, Args)>, c: (Index, Cb, Args))
    requires c in log
    ensures (c.1, c.2) in LogOf(log, c.0)
  {
    if c != log[|log| - 1] {
      LoggedIn(log[..|log| - 1], c);
    }
  }

  /* ---------- settling ---------- */

  predicate Settles(m: Move) {
    m.CallFire? && (m.k == DONE || m.k == FAIL)
  }

  // The j-th move is the first resolve or reject.
  ghost predicate SettlesAt(ms: seq<Move>, j: nat) {
    j < |ms| && Settles(ms[j]) && forall i | 0 <= i < j :: !Settles(ms[i])
  }

  // It alone determines the side and the arguments.
  lemma {:induction false} PhaseBySettle(ms: seq<Move>, ds: seq<Deferred>, n: nat, j: nat)
    requires Runs(ms, ds) && n <= |ms| && SettlesAt(ms, j)
    ensures var ph := PhaseAt(ms, ds, n);
            if n <= j then ph.Idle? else !ph.Idle? && ph.i == ms[j].k && ph.w == Args(ms[j].payload, true)
  {
    if n > 0 {
      PhaseBySettle(ms, ds, n - 1, j);
    }
  }

  lemma {:induction false} IdleUntilSettle(ms: seq<Move>, ds: seq<Deferred>, n: nat)
    requires Runs(ms, ds) && n <= |ms| && forall i | 0 <= i < n :: !Settles(ms[i])
    ensures PhaseAt(ms, ds, n).Idle?
  {
    if n > 0 {
      IdleUntilSettle(ms, ds, n - 1);
    }
  }

  ghost predicate OnSide(ph: Phase, k: Index) {
    ph.Idle? || k == ph.i || (ph.i <= FAIL && k == Handlers(ph.i))
  }

  predicate Usual(e: Event) {
    e.DoAdd? || e.DoFire? || e.DoReturn?
  }

  // Neither the lists of the side that is settled are ever disabled, nor any but those of
  // progress locked.
  lemma {:induction false} NotTouched(d: Deferred, ph: Phase, m: Move, k: Index)
    requires Inv(d, ph) && Enabled(d, m) && k in {1, 2, 4, 5} && OnSide(ph, k)
    ensures forall e | e in EventOn(d, m, k) :: Usual(e)
  {
    if m.Go? && ph.Settling? {
      UserWaits(d, ph);
    }
  }

  lemma {:induction false} UsualEvents(ms: seq<Move>, ds: seq<Deferred>, n: nat, k: Index)
    requires Runs(ms, ds) && n <= |ms| && k in {1, 2, 4, 5} && OnSide(PhaseAt(ms, ds, n), k)
    ensures forall e | e in EventsOn(ms, ds, n, k) :: Usual(e)
  {
    if n > 0 {
      SideBefore(ms, ds, n, k);
      UsualEvents(ms, ds, n - 1, k);
      EveryRunKeepsInv(ms, ds, n - 1);
      assert Moved(ms, ds, n - 1);
      NotTouched(ds[n - 1], PhaseAt(ms, ds, n - 1), ms[n - 1], k);
    }
  }

  lemma {:induction false} SideBefore(ms: seq<Move>, ds: seq<Deferred>, n: nat, k: Index)
    requires 0 < n <= |ms| < |ds| && OnSide(PhaseAt(ms, ds, n), k)
    ensures OnSide(PhaseAt(ms, ds, n - 1), k)
  {
  }

  // So such a list is a "once memory" list under `add`, `fireWith` and returns only.
  lemma {:induction false} OnceEvents(ms: seq<Move>, ds: seq<Deferred>, n: nat, k: Index)
    requires Runs(ms, ds) && n <= |ms| && k in {1, 2, 4, 5} && OnSide(PhaseAt(ms, ds, n), k)
    ensures R.OnceInv(C.Run(OptionsOf(k), EventsOn(ms, ds, n, k)))
  {
    UsualEvents(ms, ds, n, k);
    ListIsRun(ms, ds, n, k);
    R.OnceInvRuns(OptionsOf(k), EventsOn(ms, ds, n, k));
  }

  lemma {:induction false} AddedIsGiven(ms: seq<Move>, ds: seq<Deferred>, n: nat, k: Index)
    requires Runs(ms, ds) && n <= |ms| && k in {1, 2, 4, 5} && OnSide(PhaseAt(ms, ds, n), k)
    ensures AddedTo(ms, ds, n, k) == Given(ms, n, k)
  {
    if n == 0 {
      GivenAtStart(ms, k);
    } else {
      SideBefore(ms, ds, n, k);
      AddedIsGiven(ms, ds, n - 1, k);
      OnceEvents(ms, ds, n - 1, k);
      GivenNext(ms, ds, n, k);
    }
  }

  // One more move, as long as the list is there.
  lemma {:induction false} GivenNext(ms: seq<Move>, ds: seq<Deferred>, n: nat, k: Index)
    requires Runs(ms, ds) && 0 < n <= |ms| && AddedTo(ms, ds, n - 1, k) == Given(ms, n - 1, k)
    requires C.Run(OptionsOf(k), EventsOn(ms, ds, n - 1, k)).s.list.Some?
    ensures AddedTo(ms, ds, n, k) == Given(ms, n, k)
  {
    GivenStep(ms, n, k);
    AddedNext(ms, ds, n, k);
  }

  /* ---------- the outcome ---------- */

  // These functions, each called with `w`.
  ghost function CalledWith(fs: seq<Cb>, w: Args): seq<(Cb, Args)> {
    seq(|fs|, i requires 0 <= i < |fs| => (fs[i], w))
  }

  // On the settled side, a list has called the first so many of the functions it was given.
  lemma {:induction false} SideSoFar(ms: seq<Move>, ds: seq<Deferred>, n: nat, j: nat, k: Index)
    requires Runs(ms, ds) && j < n <= |ms| && SettlesAt(ms, j) && k in {ms[j].k, 3 + ms[j].k}
    ensures LogOf(ds[n].log, k) <= CalledWith(Given(ms, n, k), Args(ms[j].payload, true))
    ensures ds[n].stack == [] ==> LogOf(ds[n].log, k) == CalledWith(Given(ms, n, k), Args(ms[j].payload, true))
  {
    var ph := PhaseAt(ms, ds, n);
    PhaseBySettle(ms, ds, n, j);
    EveryRunKeepsInv(ms, ds, n);
    ListIsRun(ms, ds, n, k);
    OnceEvents(ms, ds, n, k);
    AddedIsGiven(ms, ds, n, k);
    SideOf(ds[n], ph, k, C.Run(OptionsOf(k), EventsOn(ms, ds, n, k)), Given(ms, n, k));
  }

  lemma {:induction false} SideOf(d: Deferred, ph: Phase, k: Index, t: C.Trace<Cb, Args>, given: seq<Cb>)
    requires Inv(d, ph) && !ph.Idle? && k in {ph.i, 3 + ph.i} && R.OnceInv(t)
    requires t.s == d.lists[k] && t.invoked == LogOf(d.log, k) && t.added == given
    ensures LogOf(d.log, k) <= CalledWith(given, ph.w)
    ensures d.stack == [] ==> LogOf(d.log, k) == CalledWith(given, ph.w)
  {
    SideArgs(d, ph, k);
    FunctionsWith(t.invoked, ph.w);
    OncePrefix(t);
    PrefixWith(R.Functions(t.invoked), given, ph.w);
    if d.stack == [] {
      AtRest(d, ph, k);
    }
  }

  lemma {:induction false} OncePrefix(t: C.Trace<Cb, Args>)
    requires R.OnceInv(t)
    ensures R.Functions(t.invoked) <= t.added
    ensures t.s.locked && !t.s.firing ==> R.Functions(t.invoked) == t.added
  {
  }

  lemma {:induction false} SideArgs(d: Deferred, ph: Phase, k: Index)
    requires Inv(d, ph) && !ph.Idle? && k in {1, 2, 4, 5}
    ensures forall c | c in LogOf(d.log, k) :: c.1 == ph.w
  {
    ArgsOf(d.log, k, ph);
  }

  lemma {:induction false} ArgsOf(log: seq<(Index, Cb, Args)>, k: Index, ph: Phase)
    requires PhaseOk(ph) && !ph.Idle? && k in {1, 2, 4, 5} && forall c | c in log :: OneSided(c, ph.i, ph.w)
    ensures forall c | c in LogOf(log, k) :: c.1 == ph.w
    ensures k !in {ph.i, 3 + ph.i} ==> LogOf(log, k) == []
  {
    if log != [] {
      assert log[|log| - 1] in log;
      ArgsOf(log[..|log| - 1], k, ph);
    }
  }

  lemma {:induction false} FunctionsWith(invoked: seq<(Cb, Args)>, w: Args)
    requires forall c | c in invoked :: c.1 == w
    ensures invoked == CalledWith(R.Functions(invoked), w)
  {
    assert forall i | 0 <= i < |invoked| :: invoked[i] in invoked;
  }

  lemma {:induction false} PrefixWith(a: seq<Cb>, b: seq<Cb>, w: Args)
    ensures a <= b ==> CalledWith(a, w) <= CalledWith(b, w)
  {
  }

  // With an empty stack the lists of the settled side have fired and are done.
  lemma {:induction false} AtRest(d: Deferred, ph: Phase, k: Index)
    requires Inv(d, ph) && !ph.Idle? && d.stack == [] && k in {ph.i, 3 + ph.i}
    ensures ph.Done? && d.lists[k].locked && !d.lists[k].firing
  {
    assert !OnStack(d.stack, k);
  }

  // The whole outcome of a run, once user code and callbacks have returned. The first resolve or
  // reject decides: its side's lists have called exactly the functions they were given, the
  // wiring first, then the users in the order in which they were added, before or after, each
  // once and with its arguments; the other side's lists have called nothing.
  lemma {:induction false} Outcome(ms: seq<Move>, ds: seq<Deferred>, j: nat)
    requires Runs(ms, ds) && ds[|ms|].stack == [] && SettlesAt(ms, j)
    ensures var d, i, w := ds[|ms|], ms[j].k, Args(ms[j].payload, true);
            && d.status == Settled(i)
            && LogOf(d.log, i) == CalledWith(Wiring(i) + UserFunctions(UsersOf(ms, |ms|, i)), w)
            && LogOf(d.log, Handlers(i)) == CalledWith(UserFunctions(UsersOf(ms, |ms|, Handlers(i))), w)
            && LogOf(d.log, Opposite(i)) == [] && LogOf(d.log, Handlers(Opposite(i))) == []
  {
    var n, i := |ms|, ms[j].k;
    PhaseBySettle(ms, ds, n, j);
    EveryRunKeepsInv(ms, ds, n);
    var ph := PhaseAt(ms, ds, n);
    AtRest(ds[n], ph, i);
    SideSoFar(ms, ds, n, j, i);
    SideSoFar(ms, ds, n, j, Handlers(i));
    assert [] + UserFunctions(UsersOf(ms, n, Handlers(i))) == UserFunctions(UsersOf(ms, n, Handlers(i)));
    ArgsOf(ds[n].log, Opposite(i), ph);
    ArgsOf(ds[n].log, Handlers(Opposite(i)), ph);
  }

  // Without one the Deferred is pending and has called nothing but progress functions.
  lemma {:induction false} PendingOutcome(ms: seq<Move>, ds: seq<Deferred>, k: Index)
    requires Runs(ms, ds) && (forall m | m in ms :: !Settles(m)) && k in {1, 2, 4, 5}
    ensures ds[|ms|].status == Pending && LogOf(ds[|ms|].log, k) == []
  {
    assert forall i | 0 <= i < |ms| :: ms[i] in ms;
    IdleUntilSettle(ms, ds, |ms|);
    EveryRunKeepsInv(ms, ds, |ms|);
    OnlyProgress(ds[|ms|].log, k);
  }

  lemma {:induction false} OnlyProgress(log: seq<(Index, Cb, Args)>, k: Index)
    requires k in {1, 2, 4, 5} && forall c | c in log :: c.0 in {PROGRESS, Handlers(PROGRESS)}
    ensures LogOf(log, k) == []
  {
    if log != [] {
      assert log[|log| - 1] in log;
      OnlyProgress(log[..|log| - 1], k);
    }
  }

  /* ---------- progress ---------- */

  lemma {:induction false} IdleTouchesNothing(d: Deferred, m: Move, k: Index)
    requires Inv(d, Idle) && Enabled(d, m)
    ensures forall e | e in EventOn(d, m, k) :: Usual(e)
  {
  }

  ghost predicate NoSettle(ms: seq<Move>, n: nat)
    requires n <= |ms|
  {
    forall i | 0 <= i < n :: !Settles(ms[i])
  }

  lemma {:induction false} IdleEvents(ms: seq<Move>, ds: seq<Deferred>, n: nat, k: Index)
    requires Runs(ms, ds) && n <= |ms| && NoSettle(ms, n)
    ensures forall e | e in EventsOn(ms, ds, n, k) :: Usual(e)
  {
    if n > 0 {
      IdleEvents(ms, ds, n - 1, k);
      IdleUntilSettle(ms, ds, n - 1);
      EveryRunKeepsInv(ms, ds, n - 1);
      assert Moved(ms, ds, n - 1);
      IdleTouchesNothing(ds[n - 1], ms[n - 1], k);
    }
  }

  // While pending, a progress list only grows.
  lemma {:induction false} ProgressGrows(ms: seq<Move>, ds: seq<Deferred>, n: nat, k: Index)
    requires Runs(ms, ds) && n <= |ms| && NoSettle(ms, n) && k in {0, 3}
    ensures D.Growing(OptionsOf(k), EventsOn(ms, ds, n, k))
  {
    IdleEvents(ms, ds, n, k);
    ListIsRun(ms, ds, n, k);
  }

  lemma {:induction false} ProgressGiven(ms: seq<Move>, ds: seq<Deferred>, n: nat, k: Index)
    requires Runs(ms, ds) && n <= |ms| && NoSettle(ms, n) && k in {0, 3}
    ensures AddedTo(ms, ds, n, k) == Given(ms, n, k)
  {
    if n == 0 {
      GivenAtStart(ms, k);
    } else {
      ProgressGiven(ms, ds, n - 1, k);
      ProgressGrows(ms, ds, n - 1, k);
      D.GrowingRuns(OptionsOf(k), EventsOn(ms, ds, n - 1, k));
      GivenNext(ms, ds, n, k);
    }
  }

  lemma {:induction false} EventsGrow(ms: seq<Move>, ds: seq<Deferred>, n: nat, m: nat, k: Index)
    requires Runs(ms, ds) && n <= m <= |ms|
    ensures EventsOn(ms, ds, n, k) <= EventsOn(ms, ds, m, k)
    decreases m - n
  {
    if n < m {
      EventsGrow(ms, ds, n, m - 1, k);
    }
  }

  // While pending, every notify reaches every progress function added before it, once user code
  // and callbacks have returned.
  lemma {:induction false} NotifyReachesAll(ms: seq<Move>, ds: seq<Deferred>, n: nat, u: nat)
    requires Runs(ms, ds) && NoSettle(ms, |ms|) && ds[|ms|].stack == []
    requires n < |ms| && ms[n].CallFire? && ms[n].k == PROGRESS && u in UsersOf(ms, n, PROGRESS)
    ensures (PROGRESS, User(u), Args(ms[n].payload, true)) in ds[|ms|].log
  {
    var k, m := PROGRESS, |ms|;
    var es, at := EventsOn(ms, ds, m, k), |EventsOn(ms, ds, n, k)|;
    NotifyEvent(ms, ds, n);
    EventsGrow(ms, ds, n + 1, m, k);
    assert es[..at] == EventsOn(ms, ds, n, k);
    ProgressGrows(ms, ds, m, k);
    ProgressGiven(ms, ds, n, k);
    UserGiven(ms, n, k, u);
    ListIsRun(ms, ds, m, k);
    StackAlwaysOk(ms, ds, m);
    assert !OnStack(ds[m].stack, k);
    D.FireReachesAll(OptionsOf(k), es, at, User(u));
    LogHolds(ds[m].log, k, (User(u), Args(ms[n].payload, true)));
  }

  lemma {:induction false} NotifyEvent(ms: seq<Move>, ds: seq<Deferred>, n: nat)
    requires Runs(ms, ds) && n < |ms| && NoSettle(ms, n) && ms[n].CallFire? && ms[n].k == PROGRESS
    ensures EventsOn(ms, ds, n + 1, PROGRESS) == EventsOn(ms, ds, n, PROGRESS) + [C.DoFire(Args(ms[n].payload, true))]
  {
    assert Moved(ms, ds, n);
    IdleUntilSettle(ms, ds, n);
    EveryRunKeepsInv(ms, ds, n);
    StatusByPhase(ds[n], Idle);
  }

  lemma {:induction false} UserGiven(ms: seq<Move>, n: nat, k: Index, u: nat)
    requires n <= |ms| && u in UsersOf(ms, n, k)
    ensures User(u) in Given(ms, n, k)
  {
    var us := UsersOf(ms, n, k);
    var i :| 0 <= i < |us| && us[i] == u;
    assert UserFunctions(us)[i] == User(u);
  }

  lemma {:induction false} LogHolds(log: seq<(Index, Cb, Args)>, k: Index, c: (Cb, Args))
    requires c in LogOf(log, k)
    ensures (k, c.0, c.1) in log
  {
    if c in LogOf(log[..|log| - 1], k) {
      LogHolds(log[..|log| - 1], k, c);
    }
  }
}
