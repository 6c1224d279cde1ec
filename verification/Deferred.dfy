/** `jQuery.Deferred`: six callback lists wired to each other, driven by user code that may
    call back into the deferred from inside any callback.

    The machine keeps the call stack explicitly: one frame for every list that is firing, each
    holding the callback that the list is calling. */
module Deferred {
  import opened Wrappers
  import C = Callbacks

  // progress, done, fail, and behind each the list that `then` adds its handlers to.
  type Index = k: nat | k < 6

  const PROGRESS: Index := 0
  const DONE: Index := 1
  const FAIL: Index := 2

  function Handlers(k: Index): Index
    requires k <= FAIL
  {
    3 + k
  }

  function Opposite(k: Index): Index
    requires k == DONE || k == FAIL
  {
    3 - k
  }

  datatype Status = Pending | Settled(side: nat)

  // What can sit in a list: the functions the constructor puts there, and user functions.
  datatype Cb = SetState(side: Index) | DisableList(k: Index) | LockList(k: Index) | FireList(k: Index) | User(id: nat)

  // The arguments of one notify, resolve or reject, and whether the deferred was still
  // pending when it was issued.
  datatype Args = Args(payload: int, whilePending: bool)

  type List = C.State<Cb, Args>

  // One running callback. `acted`: a constructor function has done its work.
  datatype Frame = Frame(k: Index, cb: Cb, args: Args, acted: bool)

  datatype Deferred = Deferred(
    lists: seq<List>, status: Status, stack: seq<Frame>, log: seq<(Index, Cb, Args)>)

  function Wiring(k: Index): seq<Cb> {
    if k == PROGRESS then [FireList(Handlers(k))]
    else if k == DONE || k == FAIL then
      [SetState(k), DisableList(Opposite(k)), DisableList(Handlers(Opposite(k))),
       LockList(PROGRESS), LockList(Handlers(PROGRESS)), FireList(Handlers(k))]
    else []
  }

  function OptionsOf(k: Index): C.Options {
    C.Options(k != PROGRESS && k != Handlers(PROGRESS), true, false, false)
  }

  function Initial(): Deferred {
    Deferred(seq(6, k requires 0 <= k < 6 => C.Add(C.Initial(OptionsOf(k)), Wiring(k))), Pending, [], [])
  }

  /* ---------- steps ---------- */

  datatype Move =
    | CallAdd(k: Index, users: seq<nat>)     // done, fail, progress; then, for the handler lists
    | CallFire(k: Index, payload: int)       // notify, resolve, reject
    | Go                                   // the running callback acts, or returns

  // User code runs when nothing is on the stack or a user callback is on top of it.
  predicate UserRuns(d: Deferred) {
    d.stack == [] || d.stack[|d.stack| - 1].cb.User?
  }

  predicate Enabled(d: Deferred, m: Move) {
    match m
    case CallAdd(k, _) => UserRuns(d)
    case CallFire(k, _) => k <= FAIL && UserRuns(d)
    case Go => d.stack != []
  }

  // The callback a list is calling.
  predicate Calling(s: List) {
    s.firing && s.list.Some? && 0 <= s.firingIndex < |s.list.value| && s.memory.Some?
  }

  // List `k` has become `s`; if that started a callback, it goes on the stack and in the log.
  function Put(d: Deferred, k: Index, s: List, starts: bool): Deferred
    requires |d.lists| == 6
  {
    if starts && Calling(s) then
      var f := Frame(k, s.list.value[s.firingIndex].fn, s.memory.value, false);
      Deferred(d.lists[k := s], d.status, d.stack + [f], d.log + [(k, f.cb, f.args)])
    else d.(lists := d.lists[k := s])
  }

  function UserFunctions(users: seq<nat>): seq<Cb> {
    seq(|users|, i requires 0 <= i < |users| => User(users[i]))
  }

  function AddTo(d: Deferred, k: Index, users: seq<nat>): Deferred
    requires |d.lists| == 6
  {
    Put(d, k, C.Add(d.lists[k], UserFunctions(users)), !d.lists[k].firing)
  }

  function FireOn(d: Deferred, k: Index, args: Args): Deferred
    requires |d.lists| == 6
  {
    Put(d, k, C.FireWith(d.lists[k], args), !d.lists[k].firing)
  }

  // The callback on top returns to the list that called it.
  function Returned(d: Deferred): Deferred
    requires |d.lists| == 6 && d.stack != []
  {
    Put(Pop(d), Top(d).k, C.Return(d.lists[Top(d).k], false), true)
  }

  function Marked(d: Deferred): Deferred
    requires d.stack != []
  {
    d.(stack := Below(d) + [Top(d).(acted := true)])
  }

  // The function of the wiring on top does its work.
  function Acted(d: Deferred): Deferred
    requires |d.lists| == 6 && d.stack != []
  {
    match Top(d).cb
    case SetState(side) => Marked(d).(status := Settled(side))
    case DisableList(j) => Marked(d).(lists := d.lists[j := C.Disable(d.lists[j])])
    case LockList(j) => Marked(d).(lists := d.lists[j := C.Lock(d.lists[j])])
    case FireList(j) => FireOn(Marked(d), j, Top(d).args)
    case User(_) => d
  }

  function Step(d: Deferred, m: Move): Deferred
    requires |d.lists| == 6 && Enabled(d, m)
  {
    match m
    case CallAdd(k, users) => AddTo(d, k, users)
    case CallFire(k, payload) => FireOn(d, k, Args(payload, d.status.Pending?))
    case Go => if Top(d).acted || Top(d).cb.User? then Returned(d) else Acted(d)
  }

  function Top(d: Deferred): Frame
    requires d.stack != []
  {
    d.stack[|d.stack| - 1]
  }

  function Below(d: Deferred): seq<Frame>
    requires d.stack != []
  {
    d.stack[..|d.stack| - 1]
  }

  function Pop(d: Deferred): Deferred
    requires d.stack != []
  {
    d.(stack := Below(d))
  }

  /* ---------- the lists ---------- */

  ghost predicate AllUsers(s: List, from: int) {
    s.list.Some? ==> forall j | 0 <= j < |s.list.value| && j >= from :: s.list.value[j].fn.User?
  }

  // Never fired: the wiring, then user functions.
  ghost predicate Fresh(s: List, k: Index) {
    && s.opts == OptionsOf(k) && !s.firing && !s.locked && s.memory.None? && s.queue == [] && s.firingIndex == -1
    && s.list.Some? && |Wiring(k)| <= |s.list.value|
    && (forall j | 0 <= j < |Wiring(k)| :: s.list.value[j].fn == Wiring(k)[j])
    && AllUsers(s, |Wiring(k)|)
  }

  ghost predicate Dead(s: List, k: Index) {
    s.opts == OptionsOf(k) && !s.firing && s.locked && s.list.None? && s.memory.None? && s.queue == []
  }

  // Fired with `w`: from the running callback on, only user functions.
  ghost predicate Spent(s: List, k: Index, w: Args) {
    && s.opts == OptionsOf(k) && s.locked && s.memory == Some(w) && s.queue == [] && s.list.Some?
    && if s.firing then 0 <= s.firingIndex < |s.list.value| && AllUsers(s, s.firingIndex + 1)
       else s.firingIndex == -1 && s.list.value == []
  }

  // A progress list: everything it holds or delivers was issued while pending.
  ghost predicate Notifying(s: List, k: Index) {
    && s.opts == OptionsOf(k)
    && (s.memory.Some? ==> s.memory.value.whilePending)
    && (forall a | a in s.queue :: a.whilePending)
    && (s.list.Some? ==> forall j | 0 <= j < |s.list.value| ::
          s.list.value[j].fn.User? || (k == PROGRESS && s.list.value[j].fn == FireList(Handlers(PROGRESS))))
    && if s.firing then Calling(s) else s.firingIndex == -1 && s.queue == []
  }

  /* ---------- the invariant ---------- */

  // Idle; resolving or rejecting with `w`, at function `p` of the wiring, which has or has not
  // acted; or settled.
  datatype Phase = Idle | Settling(i: Index, p: nat, acted: bool, w: Args) | Done(i: Index, w: Args) {
    // Function `n` of the wiring has acted.
    predicate Passed(n: nat)
      requires Settling?
    {
      p > n || (p == n && acted)
    }
  }

  ghost predicate PhaseOk(ph: Phase) {
    ph.Idle? || ((ph.i == DONE || ph.i == FAIL) && (ph.Settling? ==> ph.p < 5 || (ph.p == 5 && !ph.acted)))
  }

  ghost predicate ListsOk(d: Deferred, ph: Phase)
    requires |d.lists| == 6 && PhaseOk(ph)
  {
    && Notifying(d.lists[0], 0) && Notifying(d.lists[3], 3)
    && match ph
       case Idle =>
         d.status.Pending? && Fresh(d.lists[1], 1) && Fresh(d.lists[2], 2) && Fresh(d.lists[4], 4) && Fresh(d.lists[5], 5)
       case Settling(i, p, _, w) =>
         var s, o := d.lists[i], Opposite(i);
         && d.status == (if ph.Passed(0) then Settled(i) else Pending)
         && s.opts == OptionsOf(i) && s.firing && s.locked && s.memory == Some(w) && s.queue == [] && s.firingIndex == p
         && s.list.Some? && 6 <= |s.list.value|
         && (forall j | 0 <= j < 6 :: s.list.value[j].fn == Wiring(i)[j])
         && AllUsers(s, 6)
         && Fresh(d.lists[Handlers(i)], Handlers(i))
         && (if ph.Passed(1) then Dead(d.lists[o], o) else Fresh(d.lists[o], o))
         && (if ph.Passed(2) then Dead(d.lists[Handlers(o)], Handlers(o)) else Fresh(d.lists[Handlers(o)], Handlers(o)))
         && (ph.Passed(3) ==> d.lists[0].locked) && (ph.Passed(4) ==> d.lists[3].locked)
       case Done(i, w) =>
         var o := Opposite(i);
         && d.status == Settled(i)
         && Spent(d.lists[i], i, w) && Spent(d.lists[Handlers(i)], Handlers(i), w)
         && Dead(d.lists[o], o) && Dead(d.lists[Handlers(o)], Handlers(o))
         && d.lists[0].locked && d.lists[3].locked
  }

  ghost predicate OnStack(stack: seq<Frame>, k: nat) {
    exists a :: 0 <= a < |stack| && stack[a].k == k
  }

  // Each frame is the callback its list is calling; a list fires exactly while it has a frame.
  ghost predicate StackOk(d: Deferred)
    requires |d.lists| == 6
  {
    && (forall a | 0 <= a < |d.stack| ::
          var s := d.lists[d.stack[a].k];
          Calling(s) && s.list.value[s.firingIndex].fn == d.stack[a].cb && s.memory.value == d.stack[a].args)
    && (forall a, b | 0 <= a < b < |d.stack| :: d.stack[a].k != d.stack[b].k)
    && (forall k {:trigger OnStack(d.stack, k)} | 0 <= k < 6 && d.lists[k].firing :: OnStack(d.stack, k))
  }

  // A frame that can be there at any time: a user function, or progress calling its handlers.
  ghost predicate OrdinaryFrame(f: Frame) {
    f.cb.User? || (f.k == PROGRESS && f.cb == FireList(Handlers(PROGRESS)))
  }

  // Which functions of the wiring can be running, and where: the next one on top while
  // settling, and afterwards only the last one, which has called the handlers.
  ghost predicate FramesOk(d: Deferred, ph: Phase)
    requires PhaseOk(ph)
  {
    match ph
    case Idle => forall a | 0 <= a < |d.stack| :: OrdinaryFrame(d.stack[a])
    case Settling(i, p, acted, w) =>
      && d.stack != [] && Top(d) == Frame(i, Wiring(i)[p], w, acted)
      && forall a | 0 <= a < |d.stack| - 1 :: OrdinaryFrame(d.stack[a])
    case Done(i, _) =>
      forall a | 0 <= a < |d.stack| :: OrdinaryFrame(d.stack[a]) || (d.stack[a].k == i && d.stack[a].acted)
  }

  // A logged call of a progress function issued while pending, or of one on side `i` with `w`.
  ghost predicate OneSided(c: (Index, Cb, Args), i: Index, w: Args)
    requires i in {DONE, FAIL}
  {
    if c.0 == PROGRESS || c.0 == Handlers(PROGRESS) then c.2.whilePending
    else (c.0 == i || c.0 == Handlers(i)) && c.2 == w
  }

  ghost predicate LogOk(d: Deferred, ph: Phase)
    requires PhaseOk(ph)
  {
    if ph.Idle? then forall c | c in d.log :: c.0 in {PROGRESS, Handlers(PROGRESS)} && c.2.whilePending
    else forall c | c in d.log :: OneSided(c, ph.i, ph.w)
  }

  ghost predicate Inv(d: Deferred, ph: Phase) {
    |d.lists| == 6 && PhaseOk(ph) && ListsOk(d, ph) && StackOk(d) && FramesOk(d, ph) && LogOk(d, ph)
  }

  /* ---------- one list at a time ---------- */

  // The list goes on with the same call.
  ghost predicate SameCall(s: List, s': List) {
    s'.firing == s.firing && (Calling(s) ==>
      Calling(s') && s'.list.value[s'.firingIndex].fn == s.list.value[s.firingIndex].fn && s'.memory == s.memory)
  }

  // If the list is firing now, it is calling a user function or, for progress, its handlers.
  ghost predicate CallsUser(s: List, k: Index) {
    s.firing ==>
      && Calling(s)
      && (s.list.value[s.firingIndex].fn.User? ||
          (k == PROGRESS && s.list.value[s.firingIndex].fn == FireList(Handlers(PROGRESS))))
  }

  lemma {:induction false} PushedIsAll(l: seq<C.Occ<Cb>>, next: nat, fs: seq<Cb>)
    ensures C.Pushed(false, l, next, fs) == fs
    decreases |fs|
  {
    if fs != [] {
      PushedIsAll(l + [C.Occ(fs[0], next)], next + 1, fs[1..]);
      assert fs == [fs[0]] + fs[1..];
    }
  }

  lemma {:induction false} AddFresh(s: List, k: Index, users: seq<nat>)
    requires Fresh(s, k)
    ensures Fresh(C.Add(s, UserFunctions(users)), k)
  {
    PushedIsAll(s.list.value, s.pushes, UserFunctions(users));
    C.PushAllAppends(s, UserFunctions(users));
  }

  lemma {:induction false} AddSpent(s: List, k: Index, w: Args, users: seq<nat>)
    requires Spent(s, k, w)
    ensures var s' := C.Add(s, UserFunctions(users));
            Spent(s', k, w) && if s.firing then SameCall(s, s') else CallsUser(s', k)
  {
    var fs := UserFunctions(users);
    PushedIsAll(s.list.value, s.pushes, fs);
    if s.firing {
      C.PushAllAppends(s, fs);
    } else {
      var s1 := s.(queue := [w]);
      assert s.queue + [w] == [w] && s1 == s.(firingIndex := |s.list.value| - 1, queue := s.queue + [w]);
      C.PushAllAppends(s1, fs);
      C.StartFireOnce(C.PushAll(s1, fs), w);
    }
  }

  lemma {:induction false} AddNotifying(s: List, k: Index, users: seq<nat>)
    requires Notifying(s, k) && k in {0, 3}
    ensures var s' := C.Add(s, UserFunctions(users));
            Notifying(s', k) && s'.locked == s.locked && if s.firing then SameCall(s, s') else CallsUser(s', k)
  {
    var fs := UserFunctions(users);
    if s.list.Some? {
      PushedIsAll(s.list.value, s.pushes, fs);
      if s.memory.Some? && !s.firing {
        var w := s.memory.value;
        var s1 := s.(firingIndex := |s.list.value| - 1, queue := [w]);
        assert s.queue + [w] == [w];
        C.PushAllAppends(s1, fs);
        C.StartFireOnce(C.PushAll(s1, fs), w);
      } else {
        C.PushAllAppends(s, fs);
      }
    }
  }

  lemma {:induction false} ReturnSpent(s: List, k: Index, w: Args)
    requires Spent(s, k, w) && s.firing
    ensures var s' := C.Return(s, false); Spent(s', k, w) && CallsUser(s', k)
  {
    assert C.Return(s, false) == C.Advance(s);
    if s.firingIndex + 1 >= |s.list.value| {
      assert C.NextPass(s.(firingIndex := -1)) == C.Finish(s.(firingIndex := -1));
    }
  }

  lemma {:induction false} AdvanceNotifying(s: List, k: Index)
    requires s.firing && s.firingIndex >= -1 && s.memory.Some? && Notifying(s.(firing := false, firingIndex := -1, queue := []), k)
    requires forall a | a in s.queue :: a.whilePending
    ensures Notifying(C.Advance(s), k) && C.Advance(s).locked == s.locked
    decreases |s.queue|
  {
    if s.firingIndex + 1 >= C.Length(s.list) {
      if s.queue == [] {
        assert C.NextPass(s.(firingIndex := -1)) == C.Finish(s.(firingIndex := -1));
      } else {
        AdvanceNotifying(s.(firingIndex := -1, memory := Some(s.queue[0]), queue := s.queue[1..], passes := s.passes + 1), k);
      }
    }
  }

  lemma {:induction false} ReturnNotifying(s: List, k: Index)
    requires Notifying(s, k) && s.firing
    ensures var s' := C.Return(s, false); Notifying(s', k) && CallsUser(s', k) && s'.locked == s.locked
  {
    assert C.Return(s, false) == C.Advance(s);
    AdvanceNotifying(s, k);
  }

  lemma {:induction false} FireNotifying(s: List, k: Index, a: Args)
    requires Notifying(s, k) && k in {0, 3} && (a.whilePending || s.locked)
    ensures var s' := C.FireWith(s, a);
            Notifying(s', k) && s'.locked == s.locked &&
            if s.firing then SameCall(s, s') else CallsUser(s', k)
  {
    if !s.locked && !s.firing {
      assert s.queue + [a] == [a];
      C.StartFireOnce(s.(queue := [a]), a);
    }
  }

  lemma {:induction false} FireHandlers(s: List, k: Index, w: Args)
    requires Fresh(s, k) && k in {4, 5}
    ensures var s' := C.FireWith(s, w); Spent(s', k, w) && CallsUser(s', k)
  {
    assert s.queue + [w] == [w];
    C.StartFireOnce(s.(queue := [w]), w);
  }

  /* ---------- the stack ---------- */

  // As StackOk, but list `k` has no frame and may be anything.
  ghost predicate StackBut(d: Deferred, k: Index)
    requires |d.lists| == 6
  {
    && (forall a | 0 <= a < |d.stack| ::
          var s := d.lists[d.stack[a].k];
          Calling(s) && s.list.value[s.firingIndex].fn == d.stack[a].cb && s.memory.value == d.stack[a].args)
    && (forall a, b | 0 <= a < b < |d.stack| :: d.stack[a].k != d.stack[b].k)
    && (forall a | 0 <= a < |d.stack| :: d.stack[a].k != k)
    && (forall j {:trigger OnStack(d.stack, j)} | 0 <= j < 6 && d.lists[j].firing && j != k :: OnStack(d.stack, j))
  }

  lemma {:induction false} PutStarts(d: Deferred, k: Index, s: List)
    requires |d.lists| == 6 && StackBut(d, k) && (s.firing ==> Calling(s))
    ensures StackOk(Put(d, k, s, true))
  {
    var d' := Put(d, k, s, true);
    forall j | 0 <= j < 6 && d'.lists[j].firing ensures OnStack(d'.stack, j) {
      if j == k {
        assert d'.stack[|d.stack|].k == j;
      } else {
        assert OnStack(d.stack, j);
        var a :| 0 <= a < |d.stack| && d.stack[a].k == j;
        assert d'.stack[a].k == j;
      }
    }
  }

  lemma {:induction false} PutContinues(d: Deferred, k: Index, s: List)
    requires |d.lists| == 6 && StackOk(d) && SameCall(d.lists[k], s)
    ensures StackOk(Put(d, k, s, false))
  {
  }

  lemma {:induction false} RestingList(d: Deferred, k: Index)
    requires |d.lists| == 6 && StackOk(d) && !d.lists[k].firing
    ensures StackBut(d, k)
  {
  }

  lemma {:induction false} PoppedList(d: Deferred)
    requires |d.lists| == 6 && StackOk(d) && d.stack != []
    ensures StackBut(Pop(d), Top(d).k)
  {
    forall j | 0 <= j < 6 && d.lists[j].firing && j != Top(d).k ensures OnStack(Below(d), j) {
      assert OnStack(d.stack, j);
      var a :| 0 <= a < |d.stack| && d.stack[a].k == j;
      assert Below(d)[a].k == j;
    }
  }

  /* ---------- every step keeps the invariant ---------- */

  function NextPhase(d: Deferred, ph: Phase, m: Move): Phase
  {
    match (ph, m)
    case (Idle, CallFire(k, payload)) =>
      if k == DONE || k == FAIL then Settling(k, 0, false, Args(payload, true)) else Idle
    case (Settling(i, p, acted, w), Go) =>
      if acted then Settling(i, p + 1, false, w) else if p == 5 then Done(i, w) else Settling(i, p, true, w)
    case (_, _) => ph
  }

  // A list that user code reaches is changed, and everything else is left alone.
  lemma {:induction false} PutKeeps(d: Deferred, ph: Phase, k: Index, s: List, starts: bool)
    requires |d.lists| == 6 && PhaseOk(ph) && !ph.Settling?
    requires LogOk(d, ph) && FramesOk(d, ph)
    requires if starts then StackBut(d, k) && CallsUser(s, k) else StackOk(d) && SameCall(d.lists[k], s)
    requires ListsOk(d.(lists := d.lists[k := s]), ph)
    ensures Inv(Put(d, k, s, starts), ph)
  {
    var d' := Put(d, k, s, starts);
    if starts {
      PutStarts(d, k, s);
      if Calling(s) {
        var f := Frame(k, s.list.value[s.firingIndex].fn, s.memory.value, false);
        assert d'.log == d.log + [(k, f.cb, f.args)] && d'.stack == d.stack + [f];
      }
    } else {
      PutContinues(d, k, s);
    }
  }

  lemma {:induction false} AddedList(d: Deferred, ph: Phase, k: Index, users: seq<nat>)
    requires |d.lists| == 6 && PhaseOk(ph) && !ph.Settling? && ListsOk(d, ph)
    ensures var s' := C.Add(d.lists[k], UserFunctions(users));
            && ListsOk(d.(lists := d.lists[k := s']), ph)
            && if d.lists[k].firing then SameCall(d.lists[k], s') else CallsUser(s', k)
  {
    var s := d.lists[k];
    if k == 0 || k == 3 {
      AddNotifying(s, k, users);
    } else if ph.Idle? {
      AddFresh(s, k, users);
    } else if k == ph.i || k == Handlers(ph.i) {
      AddSpent(s, k, ph.w, users);
    } else {
      assert C.Add(s, UserFunctions(users)) == s;
    }
  }

  lemma {:induction false} StepAdd(d: Deferred, ph: Phase, k: Index, users: seq<nat>)
    requires Inv(d, ph) && !ph.Settling?
    ensures Inv(AddTo(d, k, users), ph)
  {
    AddedList(d, ph, k, users);
    if !d.lists[k].firing {
      RestingList(d, k);
    }
    PutKeeps(d, ph, k, C.Add(d.lists[k], UserFunctions(users)), !d.lists[k].firing);
  }

  lemma {:induction false} StepNotify(d: Deferred, ph: Phase, k: Index, a: Args)
    requires Inv(d, ph) && !ph.Settling? && k in {0, 3} && (a.whilePending || d.lists[k].locked)
    ensures Inv(FireOn(d, k, a), ph)
  {
    var s := d.lists[k];
    FireNotifying(s, k, a);
    if !s.firing {
      RestingList(d, k);
    }
    PutKeeps(d, ph, k, C.FireWith(s, a), !s.firing);
  }

  // Settling has reached function `p` of the wiring: it runs, and is logged.
  ghost predicate RunsWiring(d: Deferred, below: seq<Frame>, log: seq<(Index, Cb, Args)>, i: Index, w: Args, p: nat)
    requires i in {DONE, FAIL} && p < 6
  {
    && d.stack == below + [Frame(i, Wiring(i)[p], w, false)]
    && d.log == log + [(i, Wiring(i)[p], w)]
  }

  lemma {:induction false} WiringFrames(d: Deferred, i: Index, w: Args, p: nat)
    requires i in {DONE, FAIL} && p < 6 && d.stack != []
    requires Top(d) == Frame(i, Wiring(i)[p], w, false)
    requires forall a | 0 <= a < |d.stack| - 1 :: OrdinaryFrame(d.stack[a])
    requires forall c | c in d.log :: OneSided(c, i, w)
    ensures FramesOk(d, Settling(i, p, false, w)) && LogOk(d, Settling(i, p, false, w))
  {
  }

  lemma {:induction false} ActedFrames(d: Deferred, i: Index, p: nat, w: Args, d': Deferred)
    requires i in {DONE, FAIL} && p < 5 && FramesOk(d, Settling(i, p, false, w)) && LogOk(d, Settling(i, p, false, w))
    requires d'.stack == Marked(d).stack && d'.log == d.log
    ensures FramesOk(d', Settling(i, p, true, w)) && LogOk(d', Settling(i, p, true, w))
  {
  }

  lemma {:induction false} SettleFirst(d: Deferred, k: Index, w: Args)
    requires Inv(d, Idle) && k in {DONE, FAIL}
    ensures var d' := FireOn(d, k, w);
            && |d'.lists| == 6 && ListsOk(d', Settling(k, 0, false, w)) && StackOk(d')
            && RunsWiring(d', d.stack, d.log, k, w, 0)
  {
    var s := d.lists[k];
    assert s.queue + [w] == [w];
    C.StartFireOnce(s.(queue := [w]), w);
    var s' := C.FireWith(s, w);
    assert s' == C.StartFire(s.(queue := [w]));
    RestingList(d, k);
    PutStarts(d, k, s');
  }

  lemma {:induction false} StepSettle(d: Deferred, k: Index, w: Args)
    requires Inv(d, Idle) && k in {DONE, FAIL}
    ensures Inv(FireOn(d, k, w), Settling(k, 0, false, w))
  {
    SettleFirst(d, k, w);
    WiringFrames(FireOn(d, k, w), k, w, 0);
  }

  // After settlement neither side can be fired again.
  lemma {:induction false} StepTooLate(d: Deferred, ph: Phase, k: Index, a: Args)
    requires Inv(d, ph) && ph.Done? && k in {DONE, FAIL}
    ensures FireOn(d, k, a) == d
  {
    assert d.lists[k].locked;
    assert d.lists[k := d.lists[k]] == d.lists;
  }

  // While settling, a function of the wiring is on top of the stack.
  lemma {:induction false} UserWaits(d: Deferred, ph: Phase)
    requires PhaseOk(ph) && FramesOk(d, ph) && ph.Settling?
    ensures !UserRuns(d) && !Top(d).cb.User? && Top(d).acted == ph.acted
  {
  }

  lemma {:induction false} StepReturn(d: Deferred, ph: Phase)
    requires Inv(d, ph) && !ph.Settling? && d.stack != []
    ensures Inv(Returned(d), ph)
  {
    var f := Top(d);
    var s := d.lists[f.k];
    if f.k == 0 || f.k == 3 {
      ReturnNotifying(s, f.k);
    } else {
      ReturnSpent(s, f.k, ph.w);
    }
    PoppedList(d);
    PutKeeps(Pop(d), ph, f.k, C.Return(s, false), true);
  }

  lemma {:induction false} MarkedStack(d: Deferred)
    requires |d.lists| == 6 && StackOk(d) && d.stack != []
    ensures StackOk(Marked(d))
  {
    forall k | 0 <= k < 6 && d.lists[k].firing ensures OnStack(Marked(d).stack, k) {
      assert OnStack(d.stack, k);
      var a :| 0 <= a < |d.stack| && d.stack[a].k == k;
      assert Marked(d).stack[a].k == k;
    }
  }

  lemma {:induction false} MarkedInv(d: Deferred, ph: Phase)
    requires Inv(d, ph) && !ph.Settling? && d.stack != []
    ensures Inv(Marked(d), ph)
  {
    MarkedStack(d);
  }

  // Half a step of settling: the function of the wiring returns, or acts.
  lemma {:induction false} WiringReturns(d: Deferred, i: Index, p: nat, w: Args)
    requires Inv(d, Settling(i, p, true, w))
    ensures var d' := Returned(d);
            && |d'.lists| == 6 && ListsOk(d', Settling(i, p + 1, false, w)) && StackOk(d')
            && RunsWiring(d', Below(d), d.log, i, w, p + 1)
  {
    var s := d.lists[i];
    var s' := C.Return(s, false);
    assert s' == C.Advance(s) == s.(firingIndex := p + 1);
    PoppedList(d);
    PutStarts(Pop(d), i, s');
  }

  lemma {:induction false} StepSettlingReturn(d: Deferred, i: Index, p: nat, w: Args)
    requires Inv(d, Settling(i, p, true, w))
    ensures Inv(Returned(d), Settling(i, p + 1, false, w))
  {
    WiringReturns(d, i, p, w);
    WiringFrames(Returned(d), i, w, p + 1);
  }

  lemma {:induction false} StepSetsState(d: Deferred, i: Index, w: Args)
    requires Inv(d, Settling(i, 0, false, w))
    ensures Inv(Acted(d), Settling(i, 0, true, w)) && Acted(d).status == Settled(i)
  {
    assert Top(d).cb == SetState(i);
    MarkedStack(d);
    ActedFrames(d, i, 0, w, Acted(d));
  }

  lemma {:induction false} StepDisables(d: Deferred, i: Index, p: nat, w: Args)
    requires Inv(d, Settling(i, p, false, w)) && p in {1, 2}
    ensures Inv(Acted(d), Settling(i, p, true, w))
  {
    var k := if p == 1 then Opposite(i) else Handlers(Opposite(i));
    assert Top(d).cb == DisableList(k) && Fresh(d.lists[k], k);
    MarkedStack(d);
    PutContinues(Marked(d), k, C.Disable(d.lists[k]));
    DisabledLists(d, i, p, w, k, C.Disable(d.lists[k]));
    ActedFrames(d, i, p, w, Acted(d));
  }

  lemma {:induction false} DisabledLists(d: Deferred, i: Index, p: nat, w: Args, k: Index, s': List)
    requires |d.lists| == 6 && i in {DONE, FAIL} && p in {1, 2} && ListsOk(d, Settling(i, p, false, w))
    requires k == (if p == 1 then Opposite(i) else Handlers(Opposite(i))) && Dead(s', k)
    ensures ListsOk(d.(lists := d.lists[k := s']), Settling(i, p, true, w))
  {
  }

  lemma {:induction false} LockNotifying(s: List, k: Index)
    requires Notifying(s, k)
    ensures Notifying(C.Lock(s), k) && C.Lock(s).locked && SameCall(s, C.Lock(s))
  {
  }

  lemma {:induction false} StepLocks(d: Deferred, i: Index, p: nat, w: Args)
    requires Inv(d, Settling(i, p, false, w)) && p in {3, 4}
    ensures Inv(Acted(d), Settling(i, p, true, w))
  {
    var k := if p == 3 then PROGRESS else Handlers(PROGRESS);
    assert Top(d).cb == LockList(k);
    LockNotifying(d.lists[k], k);
    MarkedStack(d);
    PutContinues(Marked(d), k, C.Lock(d.lists[k]));
    ActedFrames(d, i, p, w, Acted(d));
  }

  lemma {:induction false} StepSettlingEnds(d: Deferred, i: Index, w: Args)
    requires Inv(d, Settling(i, 5, false, w))
    ensures Inv(Acted(d), Done(i, w))
  {
    var h := Handlers(i);
    assert Top(d).cb == FireList(h) && Top(d).args == w;
    MarkedStack(d);
    FireHandlers(d.lists[h], h, w);
    RestingList(Marked(d), h);
    PutKeeps(Marked(d), Done(i, w), h, C.FireWith(d.lists[h], w), true);
  }

  lemma {:induction false} FireKeepsInv(d: Deferred, ph: Phase, k: Index, payload: int)
    requires Inv(d, ph) && UserRuns(d) && k <= FAIL
    ensures Inv(Step(d, CallFire(k, payload)), NextPhase(d, ph, CallFire(k, payload)))
  {
    var a := Args(payload, d.status.Pending?);
    if ph.Settling? {
      UserWaits(d, ph);
    } else if k == PROGRESS {
      StepNotify(d, ph, k, a);
    } else if ph.Idle? {
      StepSettle(d, k, a);
    } else {
      StepTooLate(d, ph, k, a);
    }
  }

  lemma {:induction false} GoSettling(d: Deferred, i: Index, p: nat, acted: bool, w: Args)
    requires Inv(d, Settling(i, p, acted, w))
    ensures Inv(if acted then Returned(d) else Acted(d), NextPhase(d, Settling(i, p, acted, w), Go))
  {
    if acted {
      StepSettlingReturn(d, i, p, w);
    } else if p == 0 {
      StepSetsState(d, i, w);
    } else if p <= 2 {
      StepDisables(d, i, p, w);
    } else if p <= 4 {
      StepLocks(d, i, p, w);
    } else {
      StepSettlingEnds(d, i, w);
    }
  }

  lemma {:induction false} GoOrdinary(d: Deferred, ph: Phase)
    requires Inv(d, ph) && d.stack != [] && !ph.Settling?
    ensures Inv(if Top(d).acted || Top(d).cb.User? then Returned(d) else Acted(d), ph)
  {
    if Top(d).acted || Top(d).cb.User? {
      StepReturn(d, ph);
    } else {
      assert Top(d).cb == FireList(Handlers(PROGRESS)) && Top(d).args.whilePending;
      MarkedInv(d, ph);
      StepNotify(Marked(d), ph, Handlers(PROGRESS), Top(d).args);
    }
  }

  lemma {:induction false} GoKeepsInv(d: Deferred, ph: Phase)
    requires Inv(d, ph) && d.stack != []
    ensures Inv(Step(d, Go), NextPhase(d, ph, Go))
  {
    match ph
    case Settling(i, p, acted, w) =>
      UserWaits(d, ph);
      GoSettling(d, i, p, acted, w);
    case _ => GoOrdinary(d, ph);
  }

  lemma {:induction false} StepKeepsInv(d: Deferred, ph: Phase, m: Move)
    requires Inv(d, ph) && Enabled(d, m)
    ensures Inv(Step(d, m), NextPhase(d, ph, m))
  {
    match m
    case CallAdd(k, users) =>
      if ph.Settling? { UserWaits(d, ph); } else { StepAdd(d, ph, k, users); }
    case CallFire(k, payload) => FireKeepsInv(d, ph, k, payload);
    case Go => GoKeepsInv(d, ph);
  }
}
