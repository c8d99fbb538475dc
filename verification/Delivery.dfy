/** What the transmit thread achieves by its own steps, once it is awake. */
module Delivery {
  import opened TransmitMonitor

  /** Its next step, with writes that succeed. */
  function OwnStep(w: Worker): Action {
    match w
    case Starting => WorkerLocks
    case Asleep(_) => WorkerLocks
    case Relocking(_, _) => WorkerLocks
    case Writing(_) => WorkerSends(true)
    case _ => WorkerActs
  }

  predicate IsOwnStep(a: Action) {
    a.WorkerLocks? || a.WorkerActs? || a.WorkerSends?
  }

  predicate AllOwnSteps(actions: seq<Action>) {
    forall i | 0 <= i < |actions| :: IsOwnStep(actions[i])
  }

  /** The transmit thread sleeps, not notified, or will sleep without another look at the queue. */
  predicate FallsAsleep(w: Worker) {
    w == Asleep(false) || w.Notifying? || w.Waiting?
  }

  /** How far the transmit thread is from its next write or its sleep. */
  function Left(w: Worker): nat {
    match w
    case Relocking(_, _) => 9
    case Finishing(_, _) => 8
    case Starting => 8
    case Outer => 7
    case Asleep(notified) => if notified then 7 else 1
    case Inner => 6
    case Ready => 5
    case Writing(_) => 4
    case Notifying => 3
    case Waiting => 2
    case Terminated => 0
  }

  /** Nothing but a lock of another thread or a lost wake-up stops the transmit thread. */
  predicate Able(b: Bus) {
    b.running && !b.passive && !b.mutex.By? && b.worker != Asleep(false)
  }

  lemma OwnStepProceeds(capacity: nat, b: Bus)
    requires Ordered(capacity, b) && Able(b)
    ensures var r := Step(capacity, b, OwnStep(b.worker));
      && r.running && !r.passive && !r.mutex.By?
      && (if b.worker.Writing? then Unsent(b) != [] && Unsent(r) == Unsent(b)[1..] && r.wire == b.wire + [Unsent(b)[0]]
          else Left(r.worker) < Left(b.worker) && Unsent(r) == Unsent(b) && r.wire == b.wire)
      && (!FallsAsleep(b.worker) && Unsent(b) != [] && !b.worker.Writing? ==> !FallsAsleep(r.worker))
  {}

  // ---------------------------------------------------------------- one more frame

  lemma RunThen(capacity: nat, b: Bus, actions: seq<Action>, a: Action)
    ensures Run(capacity, b, actions + [a]) == Step(capacity, Run(capacity, b, actions), a)
  {
    assert (actions + [a])[..|actions|] == actions;
  }

  lemma {:induction false} RunAppend(capacity: nat, b: Bus, p: seq<Action>, q: seq<Action>)
    ensures Run(capacity, b, p + q) == Run(capacity, Run(capacity, b, p), q)
    decreases |q|
  {
    hide Step;
    if q == [] {
      assert p + q == p;
    } else {
      var n := |q| - 1;
      RunAppend(capacity, b, p, q[..n]);
      RunThen(capacity, b, p + q[..n], q[n]);
      assert p + q == p + q[..n] + [q[n]];
    }
  }

  lemma RunFirst(capacity: nat, b: Bus, a: Action, actions: seq<Action>)
    ensures Run(capacity, b, [a] + actions) == Run(capacity, Step(capacity, b, a), actions)
  {
    hide Step;
    RunThen(capacity, b, [], a);
    assert [] + [a] == [a];
    RunAppend(capacity, b, [a], actions);
  }

  /** Awake and with something to send, the transmit thread puts the next frame on the wire by itself. */
  lemma {:induction false} Delivers(capacity: nat, b: Bus) returns (actions: seq<Action>)
    requires Ordered(capacity, b) && Able(b) && !FallsAsleep(b.worker) && Unsent(b) != []
    ensures AllOwnSteps(actions)
    ensures Run(capacity, b, actions).wire == b.wire + [Unsent(b)[0]]
    decreases Left(b.worker)
  {
    hide Ordered, Step, Unsent;
    var a := OwnStep(b.worker);
    OwnStepProceeds(capacity, b);
    StepKeepsOrdered(capacity, b, a);
    actions := [];
    if !b.worker.Writing? {
      actions := Delivers(capacity, Step(capacity, b, a));
    }
    RunFirst(capacity, b, a, actions);
    actions := [a] + actions;
  }
}
