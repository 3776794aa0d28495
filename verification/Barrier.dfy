/**
 The barrier in barrier.c between a controller and its workers, as steps of
 threads that hold the mutex one at a time.
 */
module Barrier {

  // A worker runs, blocks in the barrier, or was woken and is still to return.
  datatype Worker = Running | Blocked | Woken

  // The controller runs, blocks, was woken and is still to look again, or has
  // returned from its wait and not released the workers yet.
  datatype Controller = Idle | Sleeping | Awake | InControl

  datatype State = State(
    numWorkers: nat, workersWaiting: nat, workers: seq<Worker>, controller: Controller,
    rounds: seq<nat>, releases: nat)

  datatype Action = Enter(i: nat) | Return(i: nat) | Look | Release | WakeController | WakeWorker(i: nat)

  function Init(numWorkers: nat, n: nat): State {
    State(numWorkers, 0, seq(n, k => Running), Idle, seq(n, k => 0), 0)
  }

  function Blocking(ws: seq<Worker>): (r: nat)
    ensures r <= |ws|
  {
    if ws == [] then 0 else Blocking(ws[..|ws| - 1]) + if ws[|ws| - 1].Blocked? then 1 else 0
  }

  // pthread_control_barrier_wait up to its wait.
  function WaitEnter(s: State, i: nat): State
    requires i < |s.workers|
  {
    var n := s.workersWaiting + 1;
    s.(workersWaiting := n, workers := s.workers[i := Blocked],
       controller := if s.numWorkers <= n && s.controller.Sleeping? then Awake else s.controller)
  }

  // A round of the loop in pthread_controller_wait.
  function LookAgain(s: State): State {
    s.(controller := if s.workersWaiting < s.numWorkers then Sleeping else InControl)
  }

  function WakeAll(ws: seq<Worker>): (r: seq<Worker>)
    ensures |r| == |ws|
  {
    seq(|ws|, k requires 0 <= k < |ws| => if ws[k].Blocked? then Woken else ws[k])
  }

  // pthread_control_barrier_release.
  function Released(s: State): State {
    s.(workersWaiting := 0, workers := WakeAll(s.workers), controller := Idle, releases := s.releases + 1)
  }

  // What a thread may do next; the last action is a wakeup without a cause.
  predicate Enabled(s: State, a: Action) {
    && |s.rounds| == |s.workers|
    && match a
       case Enter(i) => i < |s.workers| && s.workers[i].Running?
       case Return(i) => i < |s.workers| && s.workers[i].Woken?
       case Look => s.controller.Idle? || s.controller.Awake?
       case Release => s.controller.InControl?
       case WakeController => s.controller.Sleeping?
       case WakeWorker(i) => i < |s.workers| && s.workers[i].Blocked?
  }

  function Do(s: State, a: Action): State
    requires Enabled(s, a)
  {
    match a
    case Enter(i) => WaitEnter(s, i)
    case Return(i) => s.(workers := s.workers[i := Running], rounds := s.rounds[i := s.rounds[i] + 1])
    case Look => LookAgain(s)
    case Release => Released(s)
    case WakeController => s.(controller := Awake)
    case WakeWorker(i) => s.(workers := s.workers[i := Woken])
  }

  // The states a run goes through.
  predicate Possible(s: State, actions: seq<Action>)
    decreases |actions|
  {
    actions == [] || (Enabled(s, actions[0]) && Possible(Do(s, actions[0]), actions[1..]))
  }

  function After(s: State, actions: seq<Action>): State
    requires Possible(s, actions)
    decreases |actions|
  {
    if actions == [] then s else After(Do(s, actions[0]), actions[1..])
  }

  predicate Regular(actions: seq<Action>) {
    forall a :: a in actions ==> !a.WakeWorker?
  }

  // Who has returned how often: all as often as there were releases, but for
  // those that are still to return from the last one.
  predicate InPhase(s: State, k: nat)
    requires k < |s.workers| == |s.rounds|
  {
    s.rounds[k] + (if s.workers[k].Woken? then 1 else 0) == s.releases
  }

  predicate Inv(s: State) {
    && |s.rounds| == |s.workers| <= s.numWorkers
    && s.workersWaiting == Blocking(s.workers)
    && (s.controller.InControl? ==> Blocking(s.workers) == |s.workers| == s.numWorkers)
    && (s.controller.Sleeping? ==> Blocking(s.workers) < s.numWorkers)
    && forall k {:trigger InPhase(s, k)} :: 0 <= k < |s.workers| ==> InPhase(s, k)
  }

  lemma {:induction false} BlockingUpdate(ws: seq<Worker>, i: nat, w: Worker)
    requires i < |ws|
    ensures Blocking(ws[i := w]) == Blocking(ws) - (if ws[i].Blocked? then 1 else 0) + (if w.Blocked? then 1 else 0)
  {
    var n := |ws| - 1;
    if i == n {
      assert ws[i := w][..n] == ws[..n];
    } else {
      assert ws[i := w][..n] == ws[..n][i := w];
      BlockingUpdate(ws[..n], i, w);
    }
  }

  lemma {:induction false} AllBlocked(ws: seq<Worker>)
    ensures Blocking(ws) == |ws| <==> forall k :: 0 <= k < |ws| ==> ws[k].Blocked?
  {
    if ws != [] {
      AllBlocked(ws[..|ws| - 1]);
    }
  }

  lemma {:induction false} NoneBlocked(ws: seq<Worker>)
    requires forall k :: 0 <= k < |ws| ==> !ws[k].Blocked?
    ensures Blocking(ws) == 0
  {
    if ws != [] {
      NoneBlocked(ws[..|ws| - 1]);
    }
  }

  lemma StepKeepsInv(s: State, a: Action)
    requires Inv(s) && Enabled(s, a) && !a.WakeWorker?
    ensures Inv(Do(s, a))
  {
    hide Blocking;
    var t := Do(s, a);
    match a {
      case Enter(i) =>
        BlockingUpdate(s.workers, i, Blocked);
        AllBlocked(s.workers);
      case Return(i) =>
        BlockingUpdate(s.workers, i, Running);
        AllBlocked(s.workers);
      case Look =>
      case Release =>
        AllBlocked(s.workers);
        NoneBlocked(t.workers);
      case WakeController =>
    }
    forall k | 0 <= k < |t.workers|
      ensures InPhase(t, k)
    {
      assert InPhase(s, k);
    }
  }

  lemma {:induction false} RunKeepsInv(s: State, actions: seq<Action>)
    requires Inv(s) && Possible(s, actions) && Regular(actions)
    ensures Inv(After(s, actions))
    decreases |actions|
  {
    if actions != [] {
      StepKeepsInv(s, actions[0]);
      RunKeepsInv(Do(s, actions[0]), actions[1..]);
    }
  }

  lemma InitIsInv(numWorkers: nat, n: nat)
    requires n <= numWorkers
    ensures Inv(Init(numWorkers, n))
  {
    NoneBlocked(Init(numWorkers, n).workers);
    assert forall k :: 0 <= k < n ==> InPhase(Init(numWorkers, n), k);
  }

  // While the controller is in control, every worker is blocked; and no two
  // workers are more than one phase apart.
  predicate Safe(s: State) {
    && (s.controller.InControl? ==> forall k :: 0 <= k < |s.workers| ==> s.workers[k].Blocked?)
    && forall j, k :: 0 <= j < |s.rounds| && 0 <= k < |s.rounds| ==> s.rounds[j] <= s.rounds[k] + 1
  }

  lemma InvIsSafe(s: State)
    requires Inv(s)
    ensures Safe(s)
  {
    AllBlocked(s.workers);
    forall j, k | 0 <= j < |s.rounds| && 0 <= k < |s.rounds|
      ensures s.rounds[j] <= s.rounds[k] + 1
    {
      assert InPhase(s, j) && InPhase(s, k);
    }
  }

  // No wakeup is lost: when all workers are blocked, the controller can go on.
  lemma NoneIsStuck(s: State)
    requires Inv(s) && |s.workers| == s.numWorkers
    ensures exists a :: Enabled(s, a) && !a.WakeController? && !a.WakeWorker?
  {
    AllBlocked(s.workers);
    if k :| 0 <= k < |s.workers| && !s.workers[k].Blocked? {
      if s.workers[k].Running? {
        assert Enabled(s, Enter(k));
      } else {
        assert Enabled(s, Return(k));
      }
    } else {
      assert Enabled(s, Look) || Enabled(s, Release);
    }
  }

  // One release frees each worker once: every worker that was blocked can
  // return, and none is blocked before it enters again.
  lemma ReleaseFreesAll(s: State, k: nat)
    requires Inv(s) && Enabled(s, Release) && k < |s.workers|
    ensures var t := Do(s, Release);
      t.workers[k].Woken? && Enabled(t, Return(k)) && Do(t, Return(k)).rounds[k] == t.releases == s.rounds[k] + 1
  {
    AllBlocked(s.workers);
    assert InPhase(s, k);
  }

  lemma {:induction false} Snoc(s: State, actions: seq<Action>, a: Action)
    requires Possible(s, actions) && Enabled(After(s, actions), a)
    ensures Possible(s, actions + [a]) && After(s, actions + [a]) == Do(After(s, actions), a)
    decreases |actions|
  {
    if actions == [] {
      assert ([] + [a])[1..] == [];
    } else {
      assert (actions + [a])[1..] == actions[1..] + [a];
      Snoc(Do(s, actions[0]), actions[1..], a);
    }
  }

  function Enters(k: nat): (r: seq<Action>)
    ensures forall a :: a in r ==> a.Enter?
  {
    if k == 0 then [] else Enters(k - 1) + [Enter(k - 1)]
  }

  // The first `k` workers are blocked, the others run.
  lemma {:induction false} AfterEnters(numWorkers: nat, n: nat, k: nat)
    requires k <= n
    ensures Possible(Init(numWorkers, n), Enters(k))
    ensures After(Init(numWorkers, n), Enters(k))
      == Init(numWorkers, n).(workersWaiting := k, workers := seq(n, i => if i < k then Blocked else Running))
  {
    if k != 0 {
      AfterEnters(numWorkers, n, k - 1);
      Snoc(Init(numWorkers, n), Enters(k - 1), Enter(k - 1));
      assert seq(n, i => if i < k - 1 then Blocked else Running)[k - 1 := Blocked]
        == seq(n, i => if i < k then Blocked else Running);
    } else {
      assert seq(n, i => if i < 0 then Blocked else Running) == seq(n, k => Running);
    }
  }

  // With more workers than the barrier was made for, the controller gets in
  // control while one of them runs.
  lemma TooManyWorkers(numWorkers: nat, n: nat)
    requires numWorkers < n
    ensures exists actions :: Regular(actions) && Possible(Init(numWorkers, n),
      actions) && !Safe(After(Init(numWorkers, n), actions))
  {
    var s := Init(numWorkers, n);
    var actions := Enters(numWorkers) + [Look];
    AfterEnters(numWorkers, n, numWorkers);
    Snoc(s, Enters(numWorkers), Look);
    assert After(s, actions).workers[numWorkers].Running?;
    assert Regular(actions);
  }

  // The barrier is safe in every run exactly for at most as many workers.
  lemma SafeExactly(numWorkers: nat, n: nat)
    ensures n <= numWorkers <==>
      forall actions :: Regular(actions) && Possible(Init(numWorkers, n), actions) ==>
        Safe(After(Init(numWorkers, n), actions))
  {
    if n <= numWorkers {
      InitIsInv(numWorkers, n);
      forall actions | Regular(actions) && Possible(Init(numWorkers, n), actions)
        ensures Safe(After(Init(numWorkers, n), actions))
      {
        RunKeepsInv(Init(numWorkers, n), actions);
        InvIsSafe(After(Init(numWorkers, n), actions));
      }
    } else {
      TooManyWorkers(numWorkers, n);
    }
  }

  // A worker that wakes up without a cause breaks it, for any number of them:
  // the wait in the barrier is not repeated.
  lemma WakeupsWithoutCause(n: nat)
    requires 1 <= n
    ensures exists actions :: Possible(Init(n, n), actions) && !Safe(After(Init(n, n), actions))
  {
    var s := Init(n, n);
    AfterEnters(n, n, n);
    Snoc(s, Enters(n), Look);
    var actions := Enters(n) + [Look];
    Snoc(s, actions, WakeWorker(0));
    var t := After(s, actions + [WakeWorker(0)]);
    assert t.workers[0].Woken? && t.controller.InControl?;
  }

  lemma KeepsAll(s: State, a: Action)
    requires Enabled(s, a) && !a.WakeWorker?
    ensures Inv(s) ==> Inv(Do(s, a)) && Safe(Do(s, a))
  {
    if Inv(s) {
      StepKeepsInv(s, a);
      InvIsSafe(Do(s, a));
    }
  }

  // The barrier itself; who waits for which condition is kept with it.
  class ControlBarrier {
    const numWorkers: nat
    var workersWaiting: nat
    ghost var workers: seq<Worker>
    ghost var controller: Controller
    ghost var rounds: seq<nat>
    ghost var releases: nat

    ghost function View(): State
      reads this
    {
      State(numWorkers, workersWaiting, workers, controller, rounds, releases)
    }

    // pthread_control_barrier_init, for `n` threads that will use it.
    constructor (numWorkers: nat, ghost n: nat)
      ensures View() == Init(numWorkers, n)
    {
      this.numWorkers := numWorkers;
      workersWaiting := 0;
      workers, controller, rounds, releases := seq(n, k => Running), Idle, seq(n, k => 0), 0;
    }

    // pthread_control_barrier_wait of worker `i` up to the wait: it blocks, and
    // the last of them leaves no controller asleep.
    method WorkerWaits(ghost i: nat)
      requires Enabled(View(), Enter(i))
      modifies this
      ensures View() == Do(old(View()), Enter(i))
      ensures old(Inv(View())) ==> Inv(View()) && Safe(View())
      ensures old(Inv(View())) && Blocking(workers) == numWorkers ==> !controller.Sleeping?
    {
      workersWaiting := workersWaiting + 1;
      if workersWaiting >= numWorkers {
        // pthread_cond_broadcast(controllerCond)
        controller := if controller.Sleeping? then Awake else controller;
      }
      // pthread_cond_wait(workerCond)
      workers := workers[i := Blocked];
      KeepsAll(old(View()), Enter(i));
    }

    // A look of pthread_controller_wait at the number of waiting workers: it
    // goes on exactly when all of them block.
    method ControllerLooks() returns (done: bool)
      requires Enabled(View(), Look)
      modifies this
      ensures View() == Do(old(View()), Look) && done == View().controller.InControl?
      ensures old(Inv(View())) ==> Inv(View()) && Safe(View())
      ensures old(Inv(View())) ==>
        (done <==> |workers| == numWorkers && forall k :: 0 <= k < |workers| ==> workers[k].Blocked?)
    {
      done := workersWaiting >= numWorkers;
      // pthread_cond_wait(controllerCond)
      controller := if done then InControl else Sleeping;
      KeepsAll(old(View()), Look);
      AllBlocked(workers);
    }

    // pthread_control_barrier_release: every worker is woken, in the same phase.
    method ControllerReleases()
      requires Enabled(View(), Release)
      modifies this
      ensures View() == Do(old(View()), Release)
      ensures old(Inv(View())) ==> Inv(View()) && Safe(View())
      ensures old(Inv(View())) ==> forall k :: 0 <= k < |workers| ==> workers[k].Woken? && rounds[k] + 1 == releases
    {
      workersWaiting := 0;
      // pthread_cond_broadcast(workerCond)
      workers := WakeAll(workers);
      controller, releases := Idle, releases + 1;
      KeepsAll(old(View()), Release);
      if old(Inv(View())) {
        forall k | 0 <= k < |workers|
          ensures workers[k].Woken? && rounds[k] + 1 == releases
        {
          ReleaseFreesAll(old(View()), k);
        }
      }
    }
  }
}
