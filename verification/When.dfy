/** `jQuery.when` with two or more arguments: one master deferred that follows all of them.

    Each argument settles at most once, at any time and in any order; the ones that are already
    settled do so while they are adopted, from the last argument to the first. */
module When {
  import opened Wrappers

  // An argument as passed in, or what its subordinate was resolved with: one value, or an
  // array of them when there was not exactly one.
  datatype Slot<V> = Given(arg: V) | Nothing | One(value: V) | Many(values: seq<V>)

  function Pack<V>(args: seq<V>): Slot<V> {
    if |args| > 1 then Many(args) else if |args| == 1 then One(args[0]) else Nothing
  }

  datatype Master<C, V> = Pending | Resolved(contexts: seq<Option<C>>, results: seq<Slot<V>>) | Rejected(reason: seq<V>)

  // A deferred takes the first outcome and ignores the others.
  function Settle<C, V>(m: Master<C, V>, outcome: Master<C, V>): Master<C, V> {
    if m.Pending? then outcome else m
  }

  datatype Event<C, V> = Resolve(i: nat, context: C, args: seq<V>) | Reject(i: nat, args: seq<V>)

  datatype State<C, V> = State(
    remaining: int, contexts: seq<Option<C>>, values: seq<Slot<V>>, master: Master<C, V>)

  function Start<C, V>(args: seq<V>): State<C, V> {
    State(|args|, seq(|args|, i => None), seq(|args|, i requires 0 <= i < |args| => Given(args[i])), Pending)
  }

  // updateFunc(i), or master.reject.
  function Update<C, V>(s: State<C, V>, e: Event<C, V>): State<C, V>
    requires e.i < |s.contexts| == |s.values|
  {
    match e
    case Resolve(i, context, args) =>
      var cs, vs := s.contexts[i := Some(context)], s.values[i := Pack(args)];
      State(s.remaining - 1, cs, vs,
            if s.remaining - 1 == 0 then Settle(s.master, Resolved(cs, vs)) else s.master)
    case Reject(_, args) => s.(master := Settle(s.master, Rejected(args)))
  }

  function Run<C, V>(args: seq<V>, es: seq<Event<C, V>>): (s: State<C, V>)
    requires forall e | e in es :: e.i < |args|
    ensures |s.contexts| == |s.values| == |args|
  {
    if es == [] then Start(args)
    else
      assert es[|es| - 1] in es;
      Update(Run(args, es[..|es| - 1]), es[|es| - 1])
  }

  lemma {:induction false} RunOneMore<C, V>(args: seq<V>, es: seq<Event<C, V>>, e: Event<C, V>)
    requires (forall x | x in es :: x.i < |args|) && e.i < |args|
    ensures Run(args, es + [e]) == Update(Run(args, es), e)
  {
    assert (es + [e])[..|es|] == es;
  }

  class Aggregate<C, V> {
    var remaining: int
    var contexts: seq<Option<C>>
    var values: seq<Slot<V>>
    var master: Master<C, V>

    constructor (args: seq<V>)
      requires |args| >= 2
      ensures View() == Start(args)
    {
      remaining := |args|;
      contexts := seq(|args|, i => None);
      values := seq(|args|, i requires 0 <= i < |args| => Given(args[i]));
      master := Pending;
    }

    function View(): State<C, V>
      reads this
    {
      State(remaining, contexts, values, master)
    }

    method Settled(e: Event<C, V>)
      requires e.i < |contexts| == |values|
      modifies this
      ensures View() == Update(old(View()), e)
      ensures e.Resolve? ==> contexts[e.i] == Some(e.context) && Stores(values[e.i], e.args)
    {
      match e
      case Resolve(i, context, args) =>
        contexts := contexts[i := Some(context)];
        values := values[i := if |args| > 1 then Many(args) else if args == [] then Nothing else One(args[0])];
        remaining := remaining - 1;
        if remaining == 0 {
          master := Settle(master, Resolved(contexts, values));
        }
      case Reject(_, args) =>
        master := Settle(master, Rejected(args));
    }

    // `while ( i-- ) adoptValue( ... )`: arguments already settled report at once. When the
    // loop reaches an argument, its slot still holds what was passed in.
    method Adopt(args: seq<V>, already: seq<Option<Event<C, V>>>)
      requires |args| >= 2 && |already| == |args| && View() == Start(args) && OwnReports(already)
      modifies this
      ensures View() == Run(args, Reports(already, 0))
    {
      var i := |args|;
      while i > 0
        invariant 0 <= i <= |args|
        invariant View() == Run(args, Reports(already, i))
        invariant forall j | 0 <= j < i :: values[j] == Given(args[j])
      {
        i := i - 1;
        if already[i].Some? {
          RunOneMore(args, Reports(already, i + 1), already[i].value);
          Settled(already[i].value);
        } else {
          assert Reports(already, i) == Reports(already, i + 1);
        }
      }
    }
  }

  ghost predicate OwnReports<C, V>(already: seq<Option<Event<C, V>>>) {
    forall i | 0 <= i < |already| && already[i].Some? :: already[i].value.i == i
  }

  // The reports of the arguments from the last one down to `from`, in that order.
  ghost function Reports<C, V>(already: seq<Option<Event<C, V>>>, from: nat): (es: seq<Event<C, V>>)
    requires from <= |already| && OwnReports(already)
    ensures forall e | e in es :: from <= e.i < |already|
    decreases |already| - from
  {
    if from == |already| then []
    else Reports(already, from + 1) + (if already[from].Some? then [already[from].value] else [])
  }

  /* ---------- every completion order ---------- */

  ghost predicate OncePerArgument<C, V>(n: nat, es: seq<Event<C, V>>) {
    && (forall e | e in es :: e.i < n)
    && forall a, b | 0 <= a < b < |es| :: es[a].i != es[b].i
  }

  function Resolves<C, V>(es: seq<Event<C, V>>): nat {
    if es == [] then 0 else Resolves(es[..|es| - 1]) + (if es[|es| - 1].Resolve? then 1 else 0)
  }

  ghost predicate HasSettled<C, V>(es: seq<Event<C, V>>, i: nat) {
    exists e :: e in es && e.i == i
  }

  ghost predicate HasResolved<C, V>(es: seq<Event<C, V>>, i: nat) {
    exists e :: e in es && e.i == i && e.Resolve?
  }

  ghost predicate AllResolve<C, V>(es: seq<Event<C, V>>) {
    forall e | e in es :: e.Resolve?
  }

  ghost predicate FirstReject<C, V>(es: seq<Event<C, V>>, k: nat) {
    k < |es| && es[k].Reject? && forall j | 0 <= j < k :: es[j].Resolve?
  }

  lemma {:induction false} ResolvesCount<C, V>(es: seq<Event<C, V>>)
    ensures Resolves(es) <= |es|
    ensures Resolves(es) == |es| <==> AllResolve(es)
  {
    if es != [] {
      var front, last := es[..|es| - 1], es[|es| - 1];
      ResolvesCount(front);
      assert es == front + [last];
      assert forall e :: e in es <==> e in front || e == last;
    }
  }

  ghost function Numbers(n: nat): set<nat> {
    if n == 0 then {} else Numbers(n - 1) + {n - 1}
  }

  lemma {:induction false} NumbersBelow(n: nat)
    ensures |Numbers(n)| == n && forall i :: i in Numbers(n) <==> 0 <= i < n
  {
    if n > 0 {
      NumbersBelow(n - 1);
    }
  }

  ghost function Indexes<C, V>(es: seq<Event<C, V>>): set<nat> {
    set k | 0 <= k < |es| :: es[k].i
  }

  lemma {:induction false} IndexesCount<C, V>(es: seq<Event<C, V>>)
    requires forall a, b | 0 <= a < b < |es| :: es[a].i != es[b].i
    ensures |Indexes(es)| == |es|
  {
    if es != [] {
      var front := es[..|es| - 1];
      IndexesCount(front);
      assert Indexes(es) == Indexes(front) + {es[|es| - 1].i} by {
        forall i | i in Indexes(es) ensures i in Indexes(front) + {es[|es| - 1].i} {
          var k :| 0 <= k < |es| && es[k].i == i;
          if k < |front| { assert front[k].i == i; }
        }
        forall i | i in Indexes(front) ensures i in Indexes(es) {
          var k :| 0 <= k < |front| && front[k].i == i;
          assert es[k].i == i;
        }
        assert es[|es| - 1].i in Indexes(es);
      }
      assert es[|es| - 1].i !in Indexes(front);
    }
  }

  lemma {:induction false} IndexesAreSettled<C, V>(es: seq<Event<C, V>>, i: nat)
    ensures i in Indexes(es) <==> HasSettled(es, i)
  {
    if i in Indexes(es) {
      var k :| 0 <= k < |es| && es[k].i == i;
      assert es[k] in es;
    }
    if HasSettled(es, i) {
      var e :| e in es && e.i == i;
      var k :| 0 <= k < |es| && es[k] == e;
    }
  }

  // There are at most n events, and n of them exactly if every argument has settled.
  lemma {:induction false} AtMostAll<C, V>(n: nat, es: seq<Event<C, V>>)
    requires OncePerArgument(n, es)
    ensures |es| <= n
    ensures |es| == n <==> forall i: nat | i < n :: HasSettled(es, i)
  {
    var settled, all := Indexes(es), Numbers(n);
    NumbersBelow(n);
    IndexesCount(es);
    forall i: nat ensures i in settled <==> HasSettled(es, i) {
      IndexesAreSettled(es, i);
    }
    assert settled <= all;
    Smaller(settled, all);
    if |es| == n {
      assert settled == all;
    } else if forall i: nat | i < n :: HasSettled(es, i) {
      assert all <= settled;
      Smaller(all, settled);
    }
  }

  lemma {:induction false} Smaller(a: set<nat>, b: set<nat>)
    requires a <= b
    ensures |a| <= |b|
    ensures |a| == |b| ==> a == b
  {
    assert b == a + (b - a);
    assert |b| == |a| + |b - a|;
  }

  lemma {:induction false} Bookkeeping<C, V>(args: seq<V>, es: seq<Event<C, V>>)
    requires OncePerArgument(|args|, es)
    ensures Run(args, es).remaining == |args| - Resolves(es) && Booked(Run(args, es), args, es)
  {
    if es != [] {
      var front, last := es[..|es| - 1], es[|es| - 1];
      assert last in es;
      assert es == front + [last];
      Bookkeeping(args, front);
      LastIsNew(front, last);
      BookedStep(Run(args, front), args, front, last);
    }
  }

  // What a slot holds of the arguments its subordinate was resolved with: all of them as an
  // array if there are several, the one itself if there is one, nothing if there is none.
  ghost predicate Stores<V>(slot: Slot<V>, args: seq<V>) {
    && (slot.Many? <==> |args| > 1) && (slot.Many? ==> slot.values == args)
    && (slot.One? <==> |args| == 1) && (slot.One? ==> slot.value == args[0])
    && (slot.Nothing? <==> |args| == 0)
  }

  // Every resolved argument's slot holds its context and value, every other slot what was
  // passed in.
  ghost predicate Booked<C, V>(s: State<C, V>, args: seq<V>, es: seq<Event<C, V>>) {
    && |s.contexts| == |s.values| == |args|
    && (forall e | e in es :: e.i < |args|)
    && (forall e | e in es && e.Resolve? :: s.contexts[e.i] == Some(e.context) && Stores(s.values[e.i], e.args))
    && (forall i: nat | i < |args| && !HasResolved(es, i) :: s.contexts[i] == None && s.values[i] == Given(args[i]))
  }

  lemma {:induction false} LastIsNew<C, V>(front: seq<Event<C, V>>, last: Event<C, V>)
    requires forall a, b | 0 <= a < b < |front + [last]| :: (front + [last])[a].i != (front + [last])[b].i
    ensures !HasSettled(front, last.i)
  {
    var es := front + [last];
    assert es[|front|] == last;
    forall k | 0 <= k < |front| ensures front[k].i != last.i {
      assert es[k] == front[k];
    }
  }

  lemma {:induction false} BookedStep<C, V>(s: State<C, V>, args: seq<V>, front: seq<Event<C, V>>, last: Event<C, V>)
    requires Booked(s, args, front) && last.i < |args| && !HasSettled(front, last.i)
    ensures Booked(Update(s, last), args, front + [last])
  {
    var es, s' := front + [last], Update(s, last);
    forall e | e in es && e.Resolve? ensures s'.contexts[e.i] == Some(e.context) && Stores(s'.values[e.i], e.args) {
      assert e in front || e == last;
    }
    forall i: nat | i < |args| && !HasResolved(es, i) ensures s'.contexts[i] == None && s'.values[i] == Given(args[i]) {
      NotYet(front, last, i);
    }
  }

  lemma {:induction false} NotYet<C, V>(front: seq<Event<C, V>>, last: Event<C, V>, i: nat)
    requires !HasResolved(front + [last], i)
    ensures !HasResolved(front, i) && !(last.Resolve? && last.i == i)
  {
    assert last in front + [last];
    assert forall e | e in front :: e in front + [last];
  }

  // As long as everything resolves, the master is pending until the last one does, and then
  // resolves with all contexts and values in argument order.
  lemma {:induction false} AllResolveOutcome<C, V>(args: seq<V>, es: seq<Event<C, V>>)
    requires |args| >= 2 && OncePerArgument(|args|, es) && AllResolve(es)
    ensures var s := Run(args, es);
            s.master == if |es| == |args| then Resolved(s.contexts, s.values) else Pending
    ensures forall e | e in es ::
              Run(args, es).contexts[e.i] == Some(e.context) && Stores(Run(args, es).values[e.i], e.args)
  {
    Bookkeeping(args, es);
    ResolvesCount(es);
    AtMostAll(|args|, es);
    if es != [] {
      var front, last := es[..|es| - 1], es[|es| - 1];
      assert last in es && forall e | e in front :: e in es;
      AllResolveOutcome(args, front);
      Bookkeeping(args, front);
      ResolvesCount(front);
    }
  }

  // With a rejection among the settlements the master rejects with the first one, whatever
  // comes before or after it.
  lemma {:induction false} FirstRejectWins<C, V>(args: seq<V>, es: seq<Event<C, V>>, k: nat)
    requires |args| >= 2 && OncePerArgument(|args|, es) && FirstReject(es, k)
    ensures Run(args, es).master == Rejected(es[k].args)
  {
    var front, last := es[..|es| - 1], es[|es| - 1];
    assert last in es && forall e | e in front :: e in es;
    if k < |front| {
      FirstRejectWins(args, front, k);
    } else {
      AtMostAll(|args|, es);
      AllResolveOutcome(args, front);
    }
  }

  // Resolved exactly when every argument has resolved, rejected exactly when some argument
  // has been rejected.
  lemma {:induction false} MasterIff<C, V>(args: seq<V>, es: seq<Event<C, V>>)
    requires |args| >= 2 && OncePerArgument(|args|, es)
    ensures Run(args, es).master.Resolved? <==> forall i: nat | i < |args| :: HasResolved(es, i)
    ensures Run(args, es).master.Rejected? <==> !AllResolve(es)
  {
    if AllResolve(es) {
      AllResolveOutcome(args, es);
      AtMostAll(|args|, es);
      assert forall i: nat :: HasResolved(es, i) <==> HasSettled(es, i);
    } else {
      var k := EarliestReject(es);
      FirstRejectWins(args, es, k);
      RejectedNotResolved(|args|, es, k);
    }
  }

  lemma {:induction false} RejectedNotResolved<C, V>(n: nat, es: seq<Event<C, V>>, k: nat)
    requires OncePerArgument(n, es) && k < |es| && es[k].Reject?
    ensures es[k].i < n && !HasResolved(es, es[k].i)
  {
    assert es[k] in es;
    forall e | e in es && e.i == es[k].i ensures e.Reject? {
      var x :| 0 <= x < |es| && es[x] == e;
      assert x == k;
    }
  }

  lemma {:induction false} EarliestReject<C, V>(es: seq<Event<C, V>>) returns (k: nat)
    requires !AllResolve(es)
    ensures FirstReject(es, k)
  {
    var r :| r in es && r.Reject?;
    var m :| 0 <= m < |es| && es[m] == r;
    k := 0;
    while !es[k].Reject?
      invariant k <= m && forall j | 0 <= j < k :: es[j].Resolve?
      decreases m - k
    {
      k := k + 1;
    }
  }
}
