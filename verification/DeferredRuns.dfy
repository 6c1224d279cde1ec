/** What every run of a Deferred keeps: it settles at most once, with one outcome. */
module DeferredRuns {
  import opened Deferred
  import C = Callbacks

  lemma {:induction false} InitialInv()
    ensures Inv(Initial(), Idle)
  {
    var d := Initial();
    forall k: Index ensures k in {0, 3} ==> Notifying(d.lists[k], k)
                    ensures k !in {0, 3} ==> Fresh(d.lists[k], k)
                    ensures !d.lists[k].firing
    {
      var s0: List := C.Initial(OptionsOf(k));
      PushedIsAll([], 0, Wiring(k));
      C.PushAllAppends(s0, Wiring(k));
      assert d.lists[k] == C.PushAll(s0, Wiring(k));
    }
  }

  // The states and phases that a sequence of moves goes through.
  ghost predicate Runs(ms: seq<Move>, ds: seq<Deferred>) {
    |ds| == |ms| + 1 && ds[0] == Initial() && forall n: nat | n < |ms| :: Moved(ms, ds, n)
  }

  // The n-th move.
  ghost predicate Moved(ms: seq<Move>, ds: seq<Deferred>, n: nat)
    requires n < |ms| < |ds|
  {
    |ds[n].lists| == 6 && Enabled(ds[n], ms[n]) && ds[n + 1] == Step(ds[n], ms[n])
  }

  // The phase after n moves.
  function PhaseAt(ms: seq<Move>, ds: seq<Deferred>, n: nat): Phase
    requires n <= |ms| < |ds|
  {
    if n == 0 then Idle else NextPhase(ds[n - 1], PhaseAt(ms, ds, n - 1), ms[n - 1])
  }

  lemma {:induction false} EveryRunKeepsInv(ms: seq<Move>, ds: seq<Deferred>, n: nat)
    requires Runs(ms, ds) && n <= |ms|
    ensures Inv(ds[n], PhaseAt(ms, ds, n))
  {
    if n == 0 {
      InitialInv();
    } else {
      EveryRunKeepsInv(ms, ds, n - 1);
      assert Moved(ms, ds, n - 1);
      StepKeepsInv(ds[n - 1], PhaseAt(ms, ds, n - 1), ms[n - 1]);
    }
  }

  function StatusOf(ph: Phase): Status {
    match ph
    case Idle => Pending
    case Settling(i, _, _, _) => if ph.Passed(0) then Settled(i) else Pending
    case Done(i, _) => Settled(i)
  }

  lemma {:induction false} StatusByPhase(d: Deferred, ph: Phase)
    requires Inv(d, ph)
    ensures d.status == StatusOf(ph)
  {
  }

  lemma {:induction false} StatusStays(d: Deferred, ph: Phase, m: Move)
    requires Inv(d, ph) && Enabled(d, m) && d.status.Settled?
    ensures Step(d, m).status == d.status
  {
    StepKeepsInv(d, ph, m);
    StatusByPhase(d, ph);
    StatusByPhase(Step(d, m), NextPhase(d, ph, m));
  }

  // A settled deferred stays as it is.
  lemma {:induction false} SettlesAtMostOnce(ms: seq<Move>, ds: seq<Deferred>, a: nat, b: nat)
    requires Runs(ms, ds) && a <= b <= |ms| && ds[a].status.Settled?
    ensures ds[b].status == ds[a].status
    decreases b
  {
    if a < b {
      SettlesAtMostOnce(ms, ds, a, b - 1);
      EveryRunKeepsInv(ms, ds, b - 1);
      assert Moved(ms, ds, b - 1);
      StatusStays(ds[b - 1], PhaseAt(ms, ds, b - 1), ms[b - 1]);
    }
  }

  // No run calls both a done and a fail function of the user; all that it calls get the
  // arguments of the one resolve or reject that settled it; and no notify issued after
  // settlement is delivered.
  lemma {:induction false} OneOutcome(ms: seq<Move>, ds: seq<Deferred>)
    requires Runs(ms, ds)
    ensures var log := ds[|ms|].log;
            && (forall c, e | c in log && e in log && c.0 in {1, 2, 4, 5} && e.0 in {1, 2, 4, 5} ::
                  (c.0 in {1, 4} <==> e.0 in {1, 4}) && c.2 == e.2)
            && (forall c | c in log && c.0 in {0, 3} :: c.2.whilePending)
  {
    EveryRunKeepsInv(ms, ds, |ms|);
  }

  // The first resolve or reject settles the deferred as soon as the wiring's first function
  // has acted; one issued by user code after that changes nothing.
  lemma {:induction false} FirstSettleWins(d: Deferred, k: Index, payload: int)
    requires Inv(d, Idle) && UserRuns(d) && k in {DONE, FAIL}
    ensures var d' := Step(d, CallFire(k, payload));
            |d'.lists| == 6 && Enabled(d', Go) && Step(d', Go).status == Settled(k)
  {
    var w := Args(payload, true);
    StepSettle(d, k, w);
    UserWaits(FireOn(d, k, w), Settling(k, 0, false, w));
    StepSetsState(FireOn(d, k, w), k, w);
  }

  lemma {:induction false} LaterSettleIgnored(d: Deferred, ph: Phase, k: Index, payload: int)
    requires Inv(d, ph) && !ph.Idle? && UserRuns(d) && k in {DONE, FAIL}
    ensures Step(d, CallFire(k, payload)) == d
  {
    if ph.Settling? {
      UserWaits(d, ph);
    } else {
      StepTooLate(d, ph, k, Args(payload, d.status.Pending?));
    }
  }
}
