/** Which wake-ups of the output-queue monitor can be lost, and which cannot. */
module WakeUps {
  import opened TransmitMonitor
  import opened Delivery

  /** A thread that has pushed, still holds the mutex, and is about to notify the transmit thread. */
  predicate PusherNotifies(b: Bus) {
    b.mutex.By? && (At(b, b.mutex.t).Pushed? || At(b, b.mutex.t).OwnerPushed?)
  }

  /** A thread in `activate` that is about to notify the transmit thread. */
  ghost predicate ActivatorNotifies(b: Bus) {
    exists t :: At(b, t).Activating?
  }

  // ---------------------------------------------------------------- the transmit thread

  ghost predicate WorkerAlert(b: Bus) {
    && (b.worker.Notifying? || b.worker.Waiting? ==> NumOutgoing(b) == 0)
    && (b.worker == Asleep(false) ==> NumOutgoing(b) == 0 || PusherNotifies(b) || ActivatorNotifies(b))
  }

  /**
   The two ways to set the passive flag back without the mutex, when frames are queued: `activate` must not
   come between the transmit thread's look at the queue and its sleep, and auto-activation, which notifies
   nobody, must not come while it sleeps either.
   */
  predicate Harmless(b: Bus, a: Action) {
    match a
    case Activate(t) => At(b, t).Idle? && b.passive && b.queue != [] ==> !b.worker.Notifying? && !b.worker.Waiting?
    case AutoActivate => b.passive && b.queue != [] ==> !FallsAsleep(b.worker)
    case _ => true
  }

  lemma AlertThroughWorker(capacity: nat, b: Bus, a: Action)
    requires Locking(b) && WorkerAlert(b)
    requires OfTransmitThread(a)
    ensures WorkerAlert(Step(capacity, b, a))
  {}

  lemma MoveKeepsAlert(b: Bus, t: Thread, c: Client)
    requires Locking(b) && WorkerAlert(b)
    requires !At(b, t).Pushed? && !At(b, t).OwnerPushed? && !At(b, t).Activating?
    ensures WorkerAlert(Goto(b, t, c))
    ensures ClientHolds(At(b, t)) ==> WorkerAlert(Goto(b, t, c).(mutex := Free))
    ensures b.mutex == Free ==> WorkerAlert(Goto(b, t, c).(mutex := By(t)))
  {
    if ActivatorNotifies(b) {
      var u :| At(b, u).Activating?;
      var r := Goto(b, t, c);
      assert At(r, u).Activating? && At(r.(mutex := Free), u).Activating? && At(r.(mutex := By(t)), u).Activating?;
    }
  }

  lemma AlertThroughAct(capacity: nat, b: Bus, t: Thread)
    requires Locking(b) && WorkerAlert(b)
    ensures WorkerAlert(Act(capacity, b, t))
  {
    match At(b, t)
    case Pushing(m) => MoveKeepsAlert(b, t, Returning);
    case Returning => MoveKeepsAlert(b, t, Idle);
    case Testing =>
      MoveKeepsAlert(b, t, Owner([]));
      MoveKeepsAlert(b, t, AsleepForEmpty(false));
    case _ =>
  }

  lemma AlertThroughFlag(capacity: nat, b: Bus, a: Action)
    requires Locking(b) && WorkerAlert(b) && Harmless(b, a)
    requires a.Activate? || a.Stop? || a.Passivate? || a.AutoActivate?
    ensures WorkerAlert(Step(capacity, b, a))
  {
    var r := Step(capacity, b, a);
    if ActivatorNotifies(b) {
      var u :| At(b, u).Activating?;
      assert At(r, u).Activating?;
    }
    if a.Activate? && At(b, a.t).Idle? { assert At(r, a.t).Activating?; }
  }

  lemma StepKeepsAlert(capacity: nat, b: Bus, a: Action)
    requires Locking(b) && WorkerAlert(b) && Harmless(b, a)
    ensures WorkerAlert(Step(capacity, b, a))
  {
    hide WorkerAlert;
    match a
    case Send(t, m) => if At(b, t).Idle? { MoveKeepsAlert(b, t, Sending(m)); }
    case WaitForEmpty(t) => if At(b, t).Idle? { MoveKeepsAlert(b, t, WaitingForEmpty); }
    case Locks(t) =>
      match At(b, t) {
        case Sending(m) => MoveKeepsAlert(b, t, Pushing(m));
        case WaitingForEmpty => MoveKeepsAlert(b, t, Testing);
        case AsleepForEmpty(_) => MoveKeepsAlert(b, t, Testing);
        case _ =>
      }
    case Acts(t) => AlertThroughAct(capacity, b, t);
    case Wakes(t) => if At(b, t).AsleepForEmpty? { MoveKeepsAlert(b, t, AsleepForEmpty(true)); }
    case OwnerPushes(t, m) => OwnerPushKeepsAlert(capacity, b, t, m);
    case OwnerReleases(t) => if At(b, t).Owner? { MoveKeepsAlert(b, t, Idle); }
    case Activate(_) => AlertThroughFlag(capacity, b, a);
    case Stop(_) => AlertThroughFlag(capacity, b, a);
    case Passivate => AlertThroughFlag(capacity, b, a);
    case AutoActivate => AlertThroughFlag(capacity, b, a);
    case _ => AlertThroughWorker(capacity, b, a);
  }

  lemma OwnerPushKeepsAlert(capacity: nat, b: Bus, t: Thread, m: Msg)
    requires Locking(b) && WorkerAlert(b)
    ensures WorkerAlert(OwnerPush(capacity, b, t, m))
  {}

  /** Every action of the run is harmless in the state it is taken in. */
  predicate AllHarmless(capacity: nat, b: Bus, actions: seq<Action>)
    decreases |actions|
  {
    actions == [] ||
    (AllHarmless(capacity, b, actions[..|actions| - 1]) &&
     Harmless(Run(capacity, b, actions[..|actions| - 1]), actions[|actions| - 1]))
  }

  lemma {:induction false} RunKeepsAlert(capacity: nat, b: Bus, actions: seq<Action>)
    requires Ordered(capacity, b) && WorkerAlert(b) && AllHarmless(capacity, b, actions)
    ensures Ordered(capacity, Run(capacity, b, actions)) && WorkerAlert(Run(capacity, b, actions))
    decreases |actions|
  {
    hide Step, Locking, WorkerAlert, Harmless;
    if actions != [] {
      var before := actions[..|actions| - 1];
      RunKeepsAlert(capacity, b, before);
      StepKeepsAlert(capacity, Run(capacity, b, before), actions[|actions| - 1]);
      RunKeepsOrdered(capacity, b, actions);
    }
  }

  // ---------------------------------------------------------------- frames that stay behind

  /** Nobody starts a send, activates or stops the bus, and the transmit thread does not wake spuriously. */
  predicate Unaided(a: Action) {
    !a.Send? && !a.OwnerPushes? && !a.Activate? && !a.Stop? && !a.WorkerWakes?
  }

  predicate AllUnaided(actions: seq<Action>) {
    forall i | 0 <= i < |actions| :: Unaided(actions[i])
  }

  /** Whatever all threads do without such aid, nothing more reaches the wire. */
  ghost predicate StaysBehind(capacity: nat, b: Bus) {
    forall actions | AllUnaided(actions) :: Run(capacity, b, actions).wire == b.wire
  }

  /** No aid is on its way: nobody is inside a send, `activate` or `stopThreads`. */
  predicate NoAid(c: Client) {
    !c.Sending? && !c.Pushing? && !c.Pushed? && !c.OwnerPushed? && !c.Activating? && !c.Stopping?
  }

  ghost predicate Quiet(b: Bus) {
    forall t :: NoAid(At(b, t))
  }

  lemma ActKeepsQuiet(capacity: nat, b: Bus, t: Thread)
    requires Quiet(b)
    ensures var r := Act(capacity, b, t);
      Quiet(r) && r.worker == b.worker && r.wire == b.wire && r.queue == b.queue
  {
    assert NoAid(At(b, t));
    var r := Act(capacity, b, t);
    forall u ensures NoAid(At(r, u)) { assert u != t ==> At(r, u) == At(b, u); }
  }

  lemma StepKeepsQuiet(capacity: nat, b: Bus, a: Action)
    requires Quiet(b) && FallsAsleep(b.worker) && Unaided(a)
    ensures var r := Step(capacity, b, a);
      Quiet(r) && FallsAsleep(r.worker) && r.wire == b.wire && r.queue == b.queue
  {
    if a.Acts? {
      ActKeepsQuiet(capacity, b, a.t);
    } else {
      hide Act;
      var r := Step(capacity, b, a);
      forall t ensures NoAid(At(r, t)) { assert NoAid(At(b, t)); }
    }
  }

  /** Over every run without aid the lost frames stay queued and the wire stays as it is. */
  lemma {:induction false} LossPersists(capacity: nat, b: Bus, actions: seq<Action>)
    requires Quiet(b) && FallsAsleep(b.worker) && AllUnaided(actions)
    ensures var r := Run(capacity, b, actions);
      Quiet(r) && FallsAsleep(r.worker) && r.wire == b.wire && r.queue == b.queue
    decreases |actions|
  {
    hide Step, Quiet;
    if actions != [] {
      var before := actions[..|actions| - 1];
      LossPersists(capacity, b, before);
      StepKeepsQuiet(capacity, Run(capacity, b, before), actions[|actions| - 1]);
    }
  }

  /** Two buses that differ in their clients and the mutex only. */
  predicate SameTraffic(b: Bus, r: Bus) {
    r.worker == b.worker && r.queue == b.queue && r.wire == b.wire && r.running == b.running && r.passive == b.passive
  }

  function ReleaseStep(b: Bus, t: Thread): Action {
    if At(b, t).Owner? then OwnerReleases(t) else Acts(t)
  }

  lemma HolderSteps(capacity: nat, b: Bus, t: Thread)
    requires ClientHolds(At(b, t)) && NoAid(At(b, t)) && b.mutex == By(t)
    ensures var r := Step(capacity, b, ReleaseStep(b, t));
      SameTraffic(b, r) && (r.mutex == Free || (At(b, t).Testing? && At(r, t).Owner? && r.mutex == By(t)))
  {}

  /** The thread that holds the mutex lets go of it, and nothing else happens. */
  lemma Releases(capacity: nat, b: Bus) returns (actions: seq<Action>)
    requires Ordered(capacity, b) && Quiet(b)
    ensures AllUnaided(actions)
    ensures var r := Run(capacity, b, actions); Ordered(capacity, r) && !r.mutex.By? && SameTraffic(b, r)
  {
    actions := [];
    if b.mutex.By? {
      var t := b.mutex.t;
      assert ClientHolds(At(b, t)) && NoAid(At(b, t));
      hide Ordered, Locking, Step, Quiet;
      HolderSteps(capacity, b, t);
      RunThen(capacity, b, [], ReleaseStep(b, t));
      actions := [] + [ReleaseStep(b, t)];
      var r := Step(capacity, b, ReleaseStep(b, t));
      if r.mutex != Free {
        HolderSteps(capacity, r, t);
        RunThen(capacity, b, actions, ReleaseStep(r, t));
        actions := actions + [ReleaseStep(r, t)];
      }
    }
    RunKeepsOrdered(capacity, b, actions);
  }

  /**
   With a frame to send on a running active bus and no aid on its way, nothing more reaches the wire
   exactly when the transmit thread sleeps un-notified or is past its look at the queue. Otherwise the
   thread that holds the mutex only has to release it for the transmit thread to send the frame.
   */
  lemma StaysBehindExactly(capacity: nat, b: Bus)
    requires Ordered(capacity, b) && Quiet(b) && b.running && !b.passive && Unsent(b) != []
    ensures StaysBehind(capacity, b) <==> FallsAsleep(b.worker)
  {
    hide Ordered, Quiet, Step, Unsent;
    if FallsAsleep(b.worker) {
      forall actions | AllUnaided(actions) ensures Run(capacity, b, actions).wire == b.wire {
        LossPersists(capacity, b, actions);
      }
    } else {
      var release := Releases(capacity, b);
      var r := Run(capacity, b, release);
      UnsentDependsOn(b, r);
      var delivery := Delivers(capacity, r);
      RunAppend(capacity, b, release, delivery);
      assert AllUnaided(release + delivery);
      assert Run(capacity, b, release + delivery).wire != b.wire;
    }
  }

  lemma UnsentDependsOn(b: Bus, r: Bus)
    requires SameTraffic(b, r)
    ensures Unsent(r) == Unsent(b)
  {}

  /**
   `activate` has set the flag, and other threads may have moved since; its notification comes now.
   The frame stays behind exactly when the transmit thread has looked at the queue and is not asleep yet.
   */
  lemma ActivateLosesWakeUp(capacity: nat, b: Bus, t: Thread)
    requires Ordered(capacity, b) && At(b, t).Activating? && b.running && !b.passive && Unsent(b) != []
    requires forall u | u != t :: NoAid(At(b, u))
    ensures StaysBehind(capacity, Act(capacity, b, t)) <==> b.worker.Notifying? || b.worker.Waiting?
  {
    hide StaysBehind;
    var r := Act(capacity, b, t);
    ActKeepsOrdered(capacity, b, t);
    forall u ensures NoAid(At(r, u)) { assert u != t ==> At(r, u) == At(b, u); }
    StaysBehindExactly(capacity, r);
  }

  /** Auto-activation notifies nobody: the frame stays behind also when the transmit thread sleeps already. */
  lemma AutoActivationLosesWakeUp(capacity: nat, b: Bus)
    requires Ordered(capacity, b) && Quiet(b) && b.running && b.passive && Unsent(b) != []
    ensures StaysBehind(capacity, Step(capacity, b, AutoActivate)) <==>
      b.worker == Asleep(false) || b.worker.Notifying? || b.worker.Waiting?
  {
    hide StaysBehind;
    var r := Step(capacity, b, AutoActivate);
    StepKeepsOrdered(capacity, b, AutoActivate);
    forall u ensures NoAid(At(r, u)) { assert At(r, u) == At(b, u); }
    StaysBehindExactly(capacity, r);
  }

  /** The next frame queued ends a loss: its sender notifies with the mutex held, when the worker does sleep. */
  lemma NextPushRecovers(capacity: nat, b: Bus, t: Thread)
    requires Ordered(capacity, b) && b.running && !b.passive && Unsent(b) != []
    requires At(b, t).Pushed? || At(b, t).OwnerPushed?
    requires forall u | u != t :: NoAid(At(b, u))
    ensures !StaysBehind(capacity, Act(capacity, b, t))
  {
    hide StaysBehind;
    var r := Act(capacity, b, t);
    assert b.mutex == By(t);
    ActKeepsOrdered(capacity, b, t);
    forall u ensures NoAid(At(r, u)) { assert u != t ==> At(r, u) == At(b, u); }
    StaysBehindExactly(capacity, r);
  }

  /**
   In every state that harmless actions reach, a transmit thread that sleeps un-notified on an active bus has
   an empty queue, unless the thread that filled or activated it is still on its way to notify it; so no
   frame ever stays behind.
   */
  lemma HarmlessActivationsLoseNothing(capacity: nat, passive: bool, actions: seq<Action>)
    requires AllHarmless(capacity, Start(passive), actions)
    ensures var b := Run(capacity, Start(passive), actions);
      b.worker == Asleep(false) && !b.passive && !ActivatorNotifies(b) ==>
        b.queue == [] || (b.mutex != Free && PusherNotifies(b))
    ensures var b := Run(capacity, Start(passive), actions);
      b.running && !b.passive && Unsent(b) != [] && Quiet(b) ==> !StaysBehind(capacity, b)
  {
    hide Run, AllHarmless, StaysBehind;
    RunKeepsAlert(capacity, Start(passive), actions);
    var b := Run(capacity, Start(passive), actions);
    if b.running && !b.passive && Unsent(b) != [] && Quiet(b) {
      assert !ActivatorNotifies(b) && !PusherNotifies(b) by { assert b.mutex.By? ==> NoAid(At(b, b.mutex.t)); }
      StaysBehindExactly(capacity, b);
    }
  }

  /** So does a spurious wake-up of a sleeping transmit thread. */
  lemma SpuriousWakeRecovers(capacity: nat, b: Bus)
    requires Ordered(capacity, b) && Quiet(b) && b.running && !b.passive && Unsent(b) != [] && b.worker == Asleep(false)
    ensures !StaysBehind(capacity, Step(capacity, b, WorkerWakes))
  {
    hide StaysBehind;
    var r := Step(capacity, b, WorkerWakes);
    StepKeepsOrdered(capacity, b, WorkerWakes);
    forall u ensures NoAid(At(r, u)) { assert At(r, u) == At(b, u); }
    StaysBehindExactly(capacity, r);
  }

  // ---------------------------------------------------------------- frames that stay behind for good

  /** Nobody activates or stops the bus, and the transmit thread does not wake spuriously. */
  predicate Undisturbed(a: Action) {
    !a.Activate? && !a.Stop? && !a.WorkerWakes?
  }

  predicate AllUndisturbed(actions: seq<Action>) {
    forall i | 0 <= i < |actions| :: Undisturbed(actions[i])
  }

  /** Whatever is sent, and whatever all threads do, nothing more reaches the wire without such a disturbance. */
  ghost predicate StaysForGood(capacity: nat, b: Bus) {
    forall actions | AllUndisturbed(actions) :: Run(capacity, b, actions).wire == b.wire
  }

  predicate NotifiesNobody(c: Client) {
    !c.Pushed? && !c.OwnerPushed? && !c.Activating? && !c.Stopping?
  }

  ghost predicate NoNotifier(b: Bus) {
    forall t :: NotifiesNobody(At(b, t))
  }

  lemma ActStaysFull(capacity: nat, b: Bus, t: Thread)
    requires NoNotifier(b) && |b.queue| >= capacity
    ensures var r := Act(capacity, b, t);
      NoNotifier(r) && r.worker == b.worker && r.wire == b.wire && r.queue == b.queue
  {
    assert NotifiesNobody(At(b, t));
    var r := Act(capacity, b, t);
    forall u ensures NotifiesNobody(At(r, u)) { assert u != t ==> At(r, u) == At(b, u); }
  }

  lemma FullStaysFull(capacity: nat, b: Bus, a: Action)
    requires NoNotifier(b) && FallsAsleep(b.worker) && |b.queue| >= capacity && Undisturbed(a)
    ensures var r := Step(capacity, b, a);
      NoNotifier(r) && FallsAsleep(r.worker) && r.wire == b.wire && r.queue == b.queue
  {
    if a.Acts? {
      ActStaysFull(capacity, b, a.t);
    } else {
      hide Act;
      var r := Step(capacity, b, a);
      forall t ensures NotifiesNobody(At(r, t)) { assert NotifiesNobody(At(b, t)); }
    }
  }

  /** A full queue rejects every frame without a notification, so the loss outlasts all sends. */
  lemma {:induction false} FullLossPersists(capacity: nat, b: Bus, actions: seq<Action>)
    requires NoNotifier(b) && FallsAsleep(b.worker) && |b.queue| >= capacity && AllUndisturbed(actions)
    ensures var r := Run(capacity, b, actions);
      NoNotifier(r) && FallsAsleep(r.worker) && r.wire == b.wire && r.queue == b.queue
    decreases |actions|
  {
    hide Step, NoNotifier;
    if actions != [] {
      var before := actions[..|actions| - 1];
      FullLossPersists(capacity, b, before);
      FullStaysFull(capacity, Run(capacity, b, before), actions[|actions| - 1]);
    }
  }

  /** A transmit thread that is past its look at the queue reaches its sleep. */
  lemma {:induction false} FallingAsleep(capacity: nat, b: Bus) returns (actions: seq<Action>)
    requires Ordered(capacity, b) && Quiet(b) && FallsAsleep(b.worker) && !b.mutex.By?
    ensures AllOwnSteps(actions)
    ensures var r := Run(capacity, b, actions);
      && Ordered(capacity, r) && Quiet(r) && r.worker == Asleep(false) && r.mutex == Free
      && r.queue == b.queue && r.wire == b.wire && r.running == b.running && r.passive == b.passive
    decreases Left(b.worker)
  {
    actions := [];
    if b.worker != Asleep(false) {
      StepKeepsQuiet(capacity, b, WorkerActs);
      StepKeepsOrdered(capacity, b, WorkerActs);
      assert b.mutex == ByWorker;
      actions := FallingAsleep(capacity, Step(capacity, b, WorkerActs));
      RunFirst(capacity, b, WorkerActs, actions);
      actions := [WorkerActs] + actions;
    }
  }

  /** A thread that the bus does not know. */
  ghost function Fresh(b: Bus): (t: Thread)
    ensures t !in b.clients
  {
    FiniteSetsEnd(b.clients.Keys);
    var t: Thread :| t !in b.clients.Keys;
    t
  }

  lemma {:induction false} FiniteSetsEnd(ts: set<Thread>)
    ensures exists t: Thread :: t !in ts
  {
    var n := Above(ts);
    assert n !in ts;
  }

  lemma {:induction false} Above(ts: set<Thread>) returns (n: Thread)
    ensures forall t | t in ts :: t < n
    decreases ts
  {
    n := 0;
    if ts != {} {
      var t :| t in ts;
      var m := Above(ts - {t});
      n := if t < m then m else t + 1;
      forall u | u in ts ensures u < n { assert u == t || u in ts - {t}; }
    }
  }

  /** A thread that has just queued `msg` and still has to notify. */
  function Queued(b: Bus, t: Thread, msg: Msg): Bus {
    Push(Goto(Goto(Goto(b, t, Sending(msg)), t, Pushing(msg)).(mutex := By(t)), t, Pushed), msg)
  }

  lemma SendQueues(capacity: nat, b: Bus, t: Thread, msg: Msg)
    requires At(b, t) == Idle && b.mutex == Free && |b.queue| < capacity
    ensures Run(capacity, b, [Send(t, msg), Locks(t), Acts(t)]) == Queued(b, t, msg)
  {
    ThreeSteps(capacity, b, [Send(t, msg), Locks(t), Acts(t)]);
  }

  lemma OnlyTheSenderAids(b: Bus, t: Thread, msg: Msg)
    requires Quiet(b) && b.worker == Asleep(false)
    ensures var q := Queued(b, t, msg);
      At(q, t) == Pushed && Unsent(q) != [] && q.wire == b.wire && q.running == b.running && q.passive == b.passive
    ensures forall u | u != t :: NoAid(At(Queued(b, t, msg), u))
  {
    forall u | u != t ensures NoAid(At(Queued(b, t, msg), u)) { assert NoAid(At(b, u)); }
  }

  /** With room in the queue of a sleeping transmit thread, one more send gets the frames moving again. */
  lemma SendRecovers(capacity: nat, b: Bus, msg: Msg)
    requires Ordered(capacity, b) && Quiet(b) && b.running && !b.passive && b.queue != []
    requires b.worker == Asleep(false) && b.mutex == Free && |b.queue| < capacity
    ensures !StaysForGood(capacity, b)
  {
    var t := Fresh(b);
    var send, q := [Send(t, msg), Locks(t), Acts(t)], Queued(b, t, msg);
    SendQueues(capacity, b, t, msg);
    OnlyTheSenderAids(b, t, msg);
    RunKeepsOrdered(capacity, b, send);
    hide Ordered, Step, Act, Quiet, Run, Queued, Unsent, StaysBehind, StaysForGood;
    NextPushRecovers(capacity, q, t);
    BehindForGood(capacity, Act(capacity, q, t));
    RunThen(capacity, b, send, Acts(t));
    ActKeepsWire(capacity, q, t);
    ActsIsAct(capacity, q, t);
    RecoversLater(capacity, b, send + [Acts(t)]);
  }

  lemma BehindForGood(capacity: nat, b: Bus)
    ensures StaysForGood(capacity, b) ==> StaysBehind(capacity, b)
  {
    forall actions | AllUnaided(actions) ensures AllUndisturbed(actions) {}
  }

  /** What recovers after an undisturbed run that sent nothing is not lost for good before it. */
  lemma RecoversLater(capacity: nat, b: Bus, actions: seq<Action>)
    requires AllUndisturbed(actions) && Run(capacity, b, actions).wire == b.wire
    requires !StaysForGood(capacity, Run(capacity, b, actions))
    ensures !StaysForGood(capacity, b)
  {
    hide Run;
    var r := Run(capacity, b, actions);
    var rest :| AllUndisturbed(rest) && Run(capacity, r, rest).wire != r.wire;
    RunAppend(capacity, b, actions, rest);
    assert AllUndisturbed(actions + rest);
  }

  lemma ActKeepsWire(capacity: nat, b: Bus, t: Thread)
    ensures Act(capacity, b, t).wire == b.wire
  {}

  lemma ActsIsAct(capacity: nat, b: Bus, t: Thread)
    ensures Step(capacity, b, Acts(t)) == Act(capacity, b, t)
  {}

  lemma ThreeSteps(capacity: nat, b: Bus, actions: seq<Action>)
    requires |actions| == 3
    ensures Run(capacity, b, actions) ==
      Step(capacity, Step(capacity, Step(capacity, b, actions[0]), actions[1]), actions[2])
  {
    hide Step;
    RunThen(capacity, b, [], actions[0]);
    RunThen(capacity, b, [actions[0]], actions[1]);
    RunThen(capacity, b, [actions[0], actions[1]], actions[2]);
    assert [] + [actions[0]] == [actions[0]];
    assert [actions[0]] + [actions[1]] == [actions[0], actions[1]];
    assert [actions[0], actions[1]] + [actions[2]] == actions;
  }

  /**
   The loss is for good exactly when, in addition, the queue is full: then the bus is silent until it is
   activated or stopped, or the transmit thread wakes spuriously, whatever is sent meanwhile.
   */
  lemma StaysForGoodExactly(capacity: nat, b: Bus)
    requires Ordered(capacity, b) && Quiet(b) && b.running && !b.passive && Unsent(b) != []
    ensures StaysForGood(capacity, b) <==> FallsAsleep(b.worker) && |b.queue| >= capacity
  {
    if FallsAsleep(b.worker) && |b.queue| >= capacity {
      assert NoNotifier(b) by {
        forall t ensures NotifiesNobody(At(b, t)) { assert NoAid(At(b, t)); }
      }
      forall actions | AllUndisturbed(actions) ensures Run(capacity, b, actions).wire == b.wire {
        FullLossPersists(capacity, b, actions);
      }
    } else if FallsAsleep(b.worker) {
      RoomRecovers(capacity, b);
    } else {
      hide Ordered, Quiet, Step, Unsent;
      StaysBehindExactly(capacity, b);
      BehindForGood(capacity, b);
    }
  }

  lemma RoomRecovers(capacity: nat, b: Bus)
    requires Ordered(capacity, b) && Quiet(b) && b.running && !b.passive && Unsent(b) != []
    requires FallsAsleep(b.worker) && |b.queue| < capacity
    ensures !StaysForGood(capacity, b)
  {
    assert b.queue != [];
    hide Ordered, Quiet, Step, Unsent;
    var release := Releases(capacity, b);
    var r := Run(capacity, b, release);
    assert Quiet(r) by { LossPersists(capacity, b, release); }
    var sleep := FallingAsleep(capacity, r);
    var q := Run(capacity, r, sleep);
    hide Run, StaysForGood;
    SendRecovers(capacity, q, q.queue[0]);
    RecoversLater(capacity, r, sleep);
    RecoversLater(capacity, b, release);
  }

  // ---------------------------------------------------------------- runs that lose a wake-up

  /** Thread 0 queues a frame on a passive bus; the transmit thread finds nothing it may send. */
  function Prelude(m: Msg): seq<Action> {
    [Send(0, m), Locks(0), Acts(0), Acts(0), Acts(0), WorkerLocks, WorkerActs, WorkerActs]
  }

  function PreludeState(m: Msg, i: nat): Bus
    requires 1 <= i <= 8
  {
    var pushed := Bus(By(0), Starting, map[0 := Pushed], [m], [m], [], true, true);
    match i
    case 1 => Bus(Free, Starting, map[0 := Sending(m)], [], [], [], true, true)
    case 2 => Bus(By(0), Starting, map[0 := Pushing(m)], [], [], [], true, true)
    case 3 => pushed
    case 4 => Goto(pushed, 0, Returning)
    case 5 => Goto(pushed, 0, Idle).(mutex := Free)
    case 6 => Goto(pushed, 0, Idle).(mutex := ByWorker, worker := Outer)
    case 7 => Goto(pushed, 0, Idle).(mutex := ByWorker, worker := Inner)
    case 8 => Goto(pushed, 0, Idle).(mutex := ByWorker, worker := Notifying)
  }

  lemma PreludeStep(capacity: nat, m: Msg, i: nat)
    requires capacity > 0 && 1 <= i < 8
    ensures Step(capacity, PreludeState(m, i), Prelude(m)[i]) == PreludeState(m, i + 1)
  {
    assert map[0 := Sending(m)][0 := Pushing(m)] == map[0 := Pushing(m)];
    assert map[0 := Pushing(m)][0 := Pushed] == map[0 := Pushed];
    assert [] + [m] == [m];
  }

  lemma PreludeBegins(capacity: nat, m: Msg)
    ensures Run(capacity, Start(true), Prelude(m)[..1]) == PreludeState(m, 1)
  {
    RunThen(capacity, Start(true), [], Prelude(m)[0]);
    assert Prelude(m)[..1] == [] + [Prelude(m)[0]];
  }

  lemma PreludeReaches(capacity: nat, m: Msg)
    requires capacity > 0
    ensures Run(capacity, Start(true), Prelude(m)) == PreludeState(m, 8)
  {
    hide Step, PreludeState;
    var p, b := Prelude(m), Start(true);
    PreludeBegins(capacity, m);
    for i := 1 to 8
      invariant Run(capacity, b, p[..i]) == PreludeState(m, i)
    {
      assert p[..i + 1] == p[..i] + [p[i]];
      RunThen(capacity, b, p[..i], p[i]);
      PreludeStep(capacity, m, i);
    }
    assert p[..8] == p;
  }

  /** `m` is queued on a running active bus and stays there as long as nobody comes to its aid. */
  ghost predicate LosesFrame(capacity: nat, b: Bus, m: Msg) {
    b.running && !b.passive && b.queue == [m] && b.wire == [] && StaysBehind(capacity, b)
  }

  lemma ActivateLoses(capacity: nat, m: Msg)
    requires Ordered(capacity, PreludeState(m, 8))
    ensures LosesFrame(capacity, Act(capacity, Step(capacity, PreludeState(m, 8), Activate(1)), 1), m)
  {
    StepKeepsOrdered(capacity, PreludeState(m, 8), Activate(1));
    hide Ordered, StaysBehind;
    ActivateLosesWakeUp(capacity, Step(capacity, PreludeState(m, 8), Activate(1)), 1);
  }

  lemma AutoActivateLoses(capacity: nat, m: Msg)
    requires Ordered(capacity, PreludeState(m, 8))
    ensures LosesFrame(capacity, Step(capacity, PreludeState(m, 8), AutoActivate), m)
  {
    hide Ordered, StaysBehind;
    AutoActivationLosesWakeUp(capacity, PreludeState(m, 8));
  }

  /** Both losses happen, in runs from the start of a passive bus. */
  lemma WakeUpsAreLost(capacity: nat, m: Msg)
    requires capacity > 0
    ensures LosesFrame(capacity, Run(capacity, Start(true), Prelude(m) + [Activate(1)] + [Acts(1)]), m)
    ensures LosesFrame(capacity, Run(capacity, Start(true), Prelude(m) + [AutoActivate]), m)
  {
    RunKeepsOrdered(capacity, Start(true), Prelude(m));
    PreludeReaches(capacity, m);
    hide Ordered, PreludeState, Prelude, LosesFrame;
    ActivateLoses(capacity, m);
    AutoActivateLoses(capacity, m);
    RunThen(capacity, Start(true), Prelude(m), Activate(1));
    RunThen(capacity, Start(true), Prelude(m) + [Activate(1)], Acts(1));
    RunThen(capacity, Start(true), Prelude(m), AutoActivate);
  }

  ghost predicate Silenced(capacity: nat, b: Bus, m: Msg) {
    b.running && !b.passive && b.queue == [m] && b.wire == [] && StaysForGood(capacity, b)
  }

  lemma AutoActivateSilences(m: Msg)
    requires Ordered(1, PreludeState(m, 8))
    ensures Silenced(1, Step(1, PreludeState(m, 8), AutoActivate), m)
  {
    var b := Step(1, PreludeState(m, 8), AutoActivate);
    StepKeepsOrdered(1, PreludeState(m, 8), AutoActivate);
    hide Ordered, StaysForGood;
    StaysForGoodExactly(1, b);
  }

  /** With room for one frame only, auto-activation can silence a bus for good. */
  lemma BusesFallSilent(m: Msg)
    ensures Silenced(1, Run(1, Start(true), Prelude(m) + [AutoActivate]), m)
  {
    RunKeepsOrdered(1, Start(true), Prelude(m));
    PreludeReaches(1, m);
    hide Ordered, PreludeState, Prelude, Silenced;
    AutoActivateSilences(m);
    RunThen(1, Start(true), Prelude(m), AutoActivate);
  }

  // ---------------------------------------------------------------- threads waiting for the empty queue

  predicate Steady(a: Action) {
    !a.Stop? && !a.Passivate?
  }

  predicate AllSteady(actions: seq<Action>) {
    forall i | 0 <= i < |actions| :: Steady(actions[i])
  }

  /** The transmit thread holds the mutex and will notify the waiting threads before it sleeps. */
  predicate WillNotifyWaiters(w: Worker) {
    w.Outer? || w.Inner? || w.Notifying?
  }

  /** On a bus that runs and is active, an un-notified transmit thread has nothing to send. */
  predicate WorkerServes(b: Bus) {
    && b.running && !b.passive && !b.worker.Terminated?
    && (b.worker.Notifying? || b.worker.Waiting? ==> b.queue == [])
    && (b.worker == Asleep(false) ==> b.queue == [] || PusherNotifies(b))
  }

  lemma StepKeepsServing(capacity: nat, b: Bus, a: Action)
    requires Locking(b) && WorkerServes(b) && Steady(a)
    ensures WorkerServes(Step(capacity, b, a))
  {}

  ghost predicate WaitersAlert(b: Bus) {
    && b.running && !b.passive
    && (forall t | At(b, t) == AsleepForEmpty(false) :: b.queue != [] || WillNotifyWaiters(b.worker))
  }

  predicate OfTransmitThread(a: Action) {
    a.WorkerLocks? || a.WorkerActs? || a.WorkerSends? || a.WorkerWakes?
  }

  lemma WorkerKeepsWaitersAlert(capacity: nat, b: Bus, a: Action)
    requires Ordered(capacity, b) && WaitersAlert(b) && OfTransmitThread(a)
    ensures WaitersAlert(Step(capacity, b, a))
  {
    var r := Step(capacity, b, a);
    forall t | At(r, t) == AsleepForEmpty(false) ensures r.queue != [] || WillNotifyWaiters(r.worker) {
      assert At(b, t) == At(r, t);
    }
  }

  lemma ActKeepsWaitersAlert(capacity: nat, b: Bus, t: Thread)
    requires Ordered(capacity, b) && WaitersAlert(b)
    ensures WaitersAlert(Act(capacity, b, t))
  {
    var r := Act(capacity, b, t);
    forall u | At(r, u) == AsleepForEmpty(false) ensures r.queue != [] || WillNotifyWaiters(r.worker) {
      assert At(b, u) == At(r, u) || u == t;
    }
  }

  lemma ClientKeepsWaitersAlert(capacity: nat, b: Bus, a: Action)
    requires Ordered(capacity, b) && WaitersAlert(b) && Steady(a) && !OfTransmitThread(a)
    ensures WaitersAlert(Step(capacity, b, a))
  {
    if a.Acts? {
      ActKeepsWaitersAlert(capacity, b, a.t);
    } else {
      hide Act;
      var r := Step(capacity, b, a);
      forall t | At(r, t) == AsleepForEmpty(false) ensures r.queue != [] || WillNotifyWaiters(r.worker) {
        assert At(b, t) == At(r, t);
      }
    }
  }

  lemma StepKeepsWaitersAlert(capacity: nat, b: Bus, a: Action)
    requires Ordered(capacity, b) && WaitersAlert(b) && Steady(a)
    ensures WaitersAlert(Step(capacity, b, a))
  {
    hide Step, WaitersAlert, Ordered;
    if OfTransmitThread(a) {
      WorkerKeepsWaitersAlert(capacity, b, a);
    } else {
      ClientKeepsWaitersAlert(capacity, b, a);
    }
  }

  lemma {:induction false} RunKeepsServing(capacity: nat, b: Bus, actions: seq<Action>)
    requires Ordered(capacity, b) && WorkerServes(b) && WaitersAlert(b) && AllSteady(actions)
    ensures var r := Run(capacity, b, actions);
      Ordered(capacity, r) && WorkerServes(r) && WaitersAlert(r)
    decreases |actions|
  {
    hide Step, WorkerServes, WaitersAlert, Locking;
    if actions != [] {
      var before, a := actions[..|actions| - 1], actions[|actions| - 1];
      RunKeepsServing(capacity, b, before);
      StepKeepsServing(capacity, Run(capacity, b, before), a);
      StepKeepsWaitersAlert(capacity, Run(capacity, b, before), a);
      RunKeepsOrdered(capacity, b, actions);
    }
  }

  /**
   On a bus that runs and is never passive no wake-up is lost, in any reachable state: a transmit thread that
   sleeps un-notified has nothing to send (or the pusher that holds the mutex is about to notify it), and a
   thread that waits un-notified for the queue to empty faces a nonempty queue, or a transmit thread that
   holds the mutex and notifies before it sleeps.
   */
  lemma NoLostWakeUps(capacity: nat, actions: seq<Action>)
    requires AllSteady(actions)
    ensures var b := Run(capacity, Start(false), actions);
      && (b.worker == Asleep(false) ==> b.queue == [] || (b.mutex != Free && PusherNotifies(b)))
      && (forall t | At(b, t) == AsleepForEmpty(false) ::
            b.queue != [] || (b.mutex == ByWorker && WillNotifyWaiters(b.worker)))
  {
    hide Run;
    RunKeepsServing(capacity, Start(false), actions);
  }

  /** Unless another thread holds the mutex, the transmit thread can always send the next frame by itself. */
  lemma TransmitThreadNeverStuck(capacity: nat, actions: seq<Action>)
    requires AllSteady(actions)
    ensures var b := Run(capacity, Start(false), actions);
      !b.mutex.By? && Unsent(b) != [] ==>
        exists own :: AllOwnSteps(own) && Run(capacity, b, own).wire == b.wire + [Unsent(b)[0]]
  {
    hide Run;
    RunKeepsServing(capacity, Start(false), actions);
    var b := Run(capacity, Start(false), actions);
    if !b.mutex.By? && Unsent(b) != [] {
      var own := Delivers(capacity, b);
    }
  }

  // ---------------------------------------------------------------- what ends the wait for an empty queue

  /**
   A thread at the wait of `waitForEmptyQueue`, notified or just arrived, gets the lock for good exactly if
   the bus is passive or stopped or has nothing queued; otherwise it sleeps and the mutex is free again.
   */
  lemma WaitEndsExactly(capacity: nat, b: Bus, t: Thread)
    requires b.mutex == Free && At(b, t) in {WaitingForEmpty, AsleepForEmpty(true)}
    ensures var r := Run(capacity, b, [Locks(t), Acts(t)]);
      if b.passive || !b.running || b.queue == [] then At(r, t) == Owner([]) && r.mutex == By(t)
      else At(r, t) == AsleepForEmpty(false) && r.mutex == Free
  {
    RunThen(capacity, b, [], Locks(t));
    RunThen(capacity, b, [Locks(t)], Acts(t));
    assert [] + [Locks(t)] == [Locks(t)] && [Locks(t)] + [Acts(t)] == [Locks(t), Acts(t)];
  }

  /** A spurious wake-up of a waiting thread makes it look again. */
  lemma SpuriousWaitEndsExactly(capacity: nat, b: Bus, t: Thread)
    requires b.mutex == Free && At(b, t).AsleepForEmpty?
    ensures var r := Run(capacity, Step(capacity, b, Wakes(t)), [Locks(t), Acts(t)]);
      At(r, t) == Owner([]) <==> b.passive || !b.running || b.queue == []
  {
    hide Run;
    WaitEndsExactly(capacity, Step(capacity, b, Wakes(t)), t);
  }

  // ---------------------------------------------------------------- passive and stopped buses

  /** The transmit thread must not begin a write. */
  predicate HeldBack(b: Bus) {
    b.passive || !b.running
  }

  predicate KeepsHeldBack(a: Action) {
    !a.Activate? && !a.AutoActivate?
  }

  predicate AllKeepHeldBack(actions: seq<Action>) {
    forall i | 0 <= i < |actions| :: KeepsHeldBack(actions[i])
  }

  lemma StepHoldsBack(capacity: nat, b: Bus, a: Action)
    requires HeldBack(b) && KeepsHeldBack(a)
    ensures var r := Step(capacity, b, a);
      && HeldBack(r)
      && (if r.wire == b.wire then r.worker.Writing? ==> r.worker == b.worker
          else b.worker.Writing? && !r.worker.Writing? && r.wire == b.wire + [b.worker.msg])
  {}

  /** Over every run of a bus that stays passive or stopped, at most the write that had begun reaches the wire. */
  lemma {:induction false} HoldsBack(capacity: nat, b: Bus, actions: seq<Action>)
    requires HeldBack(b) && AllKeepHeldBack(actions)
    ensures var r := Run(capacity, b, actions);
      && HeldBack(r)
      && (if r.wire == b.wire then r.worker.Writing? ==> r.worker == b.worker
          else b.worker.Writing? && !r.worker.Writing? && r.wire == b.wire + [b.worker.msg])
    decreases |actions|
  {
    hide Step;
    if actions != [] {
      var before := actions[..|actions| - 1];
      HoldsBack(capacity, b, before);
      StepHoldsBack(capacity, Run(capacity, b, before), actions[|actions| - 1]);
    }
  }

  /** So passivating or stopping a bus holds back every frame but one, until it is activated. */
  lemma PassivatingHoldsBack(capacity: nat, b: Bus, a: Action, actions: seq<Action>)
    requires a == Passivate || (a.Stop? && At(b, a.t).Idle?)
    requires AllKeepHeldBack(actions)
    ensures var r := Run(capacity, b, [a] + actions);
      r.wire == b.wire || (b.worker.Writing? && r.wire == b.wire + [b.worker.msg])
  {
    hide Run;
    RunFirst(capacity, b, a, actions);
    HoldsBack(capacity, Step(capacity, b, a), actions);
  }

  // ---------------------------------------------------------------- shutdown

  /** The transmit thread's steps left until it terminates on a stopped bus. */
  function TerminationLeft(w: Worker): nat {
    match w
    case Asleep(_) => 6
    case Inner => 5
    case Ready => 4
    case Writing(_) => 6
    case Relocking(_, _) => 5
    case Finishing(_, _) => 4
    case Starting => 4
    case Outer => 3
    case _ => 0
  }

  lemma StopProceeds(capacity: nat, b: Bus)
    requires Ordered(capacity, b) && !b.running && !b.mutex.By? && !FallsAsleep(b.worker) && !b.worker.Terminated?
    ensures var r := Step(capacity, b, OwnStep(b.worker));
      !r.running && !r.mutex.By? && !FallsAsleep(r.worker) && TerminationLeft(r.worker) < TerminationLeft(b.worker)
  {}

  lemma {:induction false} Terminates(capacity: nat, b: Bus) returns (actions: seq<Action>)
    requires Ordered(capacity, b) && !b.running && !b.mutex.By? && !FallsAsleep(b.worker)
    ensures AllOwnSteps(actions) && Run(capacity, b, actions).worker.Terminated?
    decreases TerminationLeft(b.worker)
  {
    hide Ordered, Step;
    actions := [];
    if !b.worker.Terminated? {
      var a := OwnStep(b.worker);
      StopProceeds(capacity, b);
      StepKeepsOrdered(capacity, b, a);
      actions := Terminates(capacity, Step(capacity, b, a));
      RunFirst(capacity, b, a, actions);
      actions := [a] + actions;
    }
  }

  /** The transmit thread never terminates, whatever all threads do without further aid. */
  ghost predicate NeverTerminates(capacity: nat, b: Bus) {
    forall actions | AllUnaided(actions) :: !Run(capacity, b, actions).worker.Terminated?
  }

  /**
   `stopThreads` has cleared the flag, and its notifications come now. No thread that waits for the empty
   queue is left un-notified. The transmit thread, which the caller goes on to join, never terminates
   exactly if it is past its look at the flag and not asleep yet.
   */
  lemma StopTerminatesExactly(capacity: nat, b: Bus, t: Thread)
    requires Ordered(capacity, b) && At(b, t).Stopping? && !b.running
    requires forall u | u != t :: NoAid(At(b, u))
    ensures forall u :: At(Act(capacity, b, t), u) != AsleepForEmpty(false)
    ensures NeverTerminates(capacity, Act(capacity, b, t)) <==> b.worker.Notifying? || b.worker.Waiting?
  {
    var r := Act(capacity, b, t);
    ActKeepsOrdered(capacity, b, t);
    forall u ensures NoAid(At(r, u)) && At(r, u) != AsleepForEmpty(false) { assert u != t ==> NoAid(At(b, u)); }
    assert r.worker == NotifiedWorker(b.worker) && !r.running;
    hide Ordered, Act, Quiet, Step, Run;
    if FallsAsleep(r.worker) {
      forall actions | AllUnaided(actions) ensures !Run(capacity, r, actions).worker.Terminated? {
        LossPersists(capacity, r, actions);
      }
    } else {
      var release := Releases(capacity, r);
      var own := Terminates(capacity, Run(capacity, r, release));
      RunAppend(capacity, r, release, own);
      assert AllUnaided(release + own);
    }
  }
}
