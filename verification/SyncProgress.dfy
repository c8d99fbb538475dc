/** The call always completes: what is left of it, and who has to move next. */
module SyncProgress {
  import opened TransmitMonitor
  import opened Delivery
  import opened WakeUps
  import opened SyncAllBuses

  /** The transmit thread and the waiting threads of an active bus miss nothing. */
  ghost predicate Serving(b: Bus) {
    WorkerServes(b) && WaitersAlert(b)
  }

  /** No thread but the caller holds the mutex of the bus. */
  ghost predicate Alone(b: Bus, me: Thread) {
    forall t | t != me :: !ClientHolds(At(b, t))
  }

  /** The caller's place on an asynchronous bus that stays active and loses no wake-up, or stays held back. */
  ghost predicate InCall(c: Config, me: Thread, caller: Caller, j: nat, b: Bus) {
    match c.care
    case StaysActive => BusInv(c, me, caller, j, b) && Serving(b)
    case StaysHeldBack => HeldInv(c, me, caller, j, b)
    case Anything => false
  }

  ghost predicate Underway(cs: seq<Config>, me: Thread, s: System) {
    && |s.buses| == |cs|
    && (forall j: nat | j < |cs| && cs[j].asynchronous :: InCall(cs[j], me, s.caller, j, s.buses[j]))
  }

  /** No other thread holds the mutex of a bus that the caller still has to lock. */
  ghost predicate AloneAhead(cs: seq<Config>, me: Thread, s: System)
    requires |cs| == |s.buses|
  {
    s.caller.Collecting? ==>
      forall j: nat | s.caller.i <= j < |cs| && cs[j].asynchronous :: Alone(s.buses[j], me)
  }

  lemma NextKeepsServing(cs: seq<Config>, me: Thread, s: System, m: Move, j: nat)
    requires |s.buses| == |cs| && j < |cs| && Covered(cs[j])
    requires Ordered(cs[j].capacity, s.buses[j]) && Serving(s.buses[j])
    ensures Serving(Next(cs, me, s, m).buses[j])
  {
    var c, b := cs[j].capacity, s.buses[j];
    match m
    case Mine =>
      StepKeepsBoth(c, b, WaitAction(b, me));
      StepKeepsBoth(c, b, Acts(me));
      StepKeepsBoth(c, b, OwnerPushes(me, SYNC));
      hide Step, Serving, Ordered;
    case Others(i, a) =>
      if i == j && Allowed(cs[j], a) { StepKeepsBoth(c, b, a); }
      hide Step, Serving, Ordered;
  }

  lemma StepKeepsBoth(capacity: nat, b: Bus, a: Action)
    requires Ordered(capacity, b) && Serving(b) && Steady(a)
    ensures Serving(Step(capacity, b, a))
  {
    hide Step;
    StepKeepsServing(capacity, b, a);
    StepKeepsWaitersAlert(capacity, b, a);
  }

  lemma NextKeepsInCall(cs: seq<Config>, me: Thread, s: System, m: Move, j: nat)
    requires |s.buses| == |cs| && j < |cs| && cs[j].asynchronous && InCall(cs[j], me, s.caller, j, s.buses[j])
    ensures InCall(cs[j], me, Next(cs, me, s, m).caller, j, Next(cs, me, s, m).buses[j])
  {
    hide Next, Serving, Ordered, OnTrack, HeldInv;
    if cs[j].care == StaysActive {
      NextKeepsInv(cs, me, s, m, j);
      NextKeepsServing(cs, me, s, m, j);
    } else {
      NextKeepsHeldInv(cs, me, s, m, j);
    }
  }

  lemma NextKeepsUnderway(cs: seq<Config>, me: Thread, s: System, m: Move)
    requires Underway(cs, me, s)
    ensures Underway(cs, me, Next(cs, me, s, m))
  {
    var r := Next(cs, me, s, m);
    assert |r.buses| == |cs| by { hide Step; }
    hide Next, InCall;
    forall j: nat | j < |cs| && cs[j].asynchronous ensures InCall(cs[j], me, r.caller, j, r.buses[j]) {
      NextKeepsInCall(cs, me, s, m, j);
    }
  }

  /** The caller can move on this bus without the transmit thread going first. */
  predicate MayMove(c: Config, b: Bus, me: Thread) {
    At(b, me).Owner? || At(b, me).Testing? ||
    (if c.care == StaysActive then b.worker == Asleep(false) else b.mutex != ByWorker)
  }

  /** A schedule: on the bus the caller waits for, the transmit thread first goes as far as necessary. */
  function NextMove(cs: seq<Config>, me: Thread, s: System): Move
    requires |cs| == |s.buses|
  {
    if s.caller.Collecting? && s.caller.i < |cs| && cs[s.caller.i].asynchronous
       && !MayMove(cs[s.caller.i], s.buses[s.caller.i], me) then
      Others(s.caller.i, OwnStep(s.buses[s.caller.i].worker))
    else Mine
  }

  /** Loop iterations left. */
  function CallerLeft(n: nat, c: Caller): nat {
    match c
    case Collecting(i) => if i < n then 2 * n - i + 2 else n + 2
    case Queueing(i) => if i < n then n - i + 1 else 1
    case Done => 0
  }

  /** The caller's own steps left on one bus. */
  function PlaceLeft(c: Client): nat {
    match c
    case Idle => 5
    case WaitingForEmpty => 4
    case AsleepForEmpty(notified) => if notified then 4 else 1
    case Testing => 3
    case Owner(_) => 1
    case _ => 0
  }

  datatype Distance = Distance(caller: nat, frames: nat, worker: nat, place: nat)

  predicate Closer(p: Distance, q: Distance) {
    || p.caller < q.caller
    || (p.caller == q.caller && p.frames < q.frames)
    || (p.caller == q.caller && p.frames == q.frames && p.worker < q.worker)
    || (p.caller == q.caller && p.frames == q.frames && p.worker == q.worker && p.place < q.place)
  }

  /** The transmit thread's steps until it releases the mutex of a bus that is passive or stopped. */
  function ReleaseLeft(b: Bus): nat {
    if b.mutex != ByWorker then 0
    else match b.worker
      case Notifying => 3
      case Waiting => 2
      case Outer => if b.running then 5 else 3
      case Inner => if b.running then 4 else 5
      case _ => if b.running then 6 else 4
  }

  /** What is left of the wait on one bus. */
  function WaitLeft(c: Config, b: Bus, me: Thread, left: nat): Distance {
    if c.care == StaysActive then Distance(left, |Unsent(b)|, Left(b.worker), PlaceLeft(At(b, me)))
    else Distance(left, 0, ReleaseLeft(b), PlaceLeft(At(b, me)))
  }

  function DistanceTo(cs: seq<Config>, me: Thread, s: System): Distance
    requires |cs| == |s.buses|
  {
    var left := CallerLeft(|cs|, s.caller);
    match s.caller
    case Collecting(i) =>
      if i < |cs| then WaitLeft(cs[i], s.buses[i], me, left) else Distance(left, 0, 0, 0)
    case Queueing(i) => Distance(left, 0, 0, if i < |cs| then PlaceLeft(At(s.buses[i], me)) else 0)
    case Done => Distance(0, 0, 0, 0)
  }

  lemma CallerStepsOnBus(capacity: nat, b: Bus, me: Thread)
    requires Sound(capacity, b, me) && Serving(b) && Alone(b, me) && StillWaiting(At(b, me)) && !At(b, me).Owner?
    requires At(b, me).Testing? || b.worker == Asleep(false)
    ensures var r := Step(capacity, b, WaitAction(b, me));
      && Alone(r, me) && r.worker == b.worker && Unsent(r) == Unsent(b) && PlaceLeft(At(r, me)) < PlaceLeft(At(b, me))
  {
    var r := Step(capacity, b, WaitAction(b, me));
    forall t | t != me ensures At(r, t) == At(b, t) {}
    assert !At(b, me).Testing? ==> b.mutex == Free;
  }

  lemma WorkerStepsOnBus(capacity: nat, b: Bus, me: Thread)
    requires Sound(capacity, b, me) && Alone(b, me) && !ClientHolds(At(b, me)) && b.worker != Asleep(false)
    ensures var r := Step(capacity, b, OwnStep(b.worker));
      && Alone(r, me) && (|Unsent(r)| < |Unsent(b)| || (Unsent(r) == Unsent(b) && Left(r.worker) < Left(b.worker)))
  {
    var r := Step(capacity, b, OwnStep(b.worker));
    OwnStepProceeds(capacity, b);
    forall t ensures ClientHolds(At(r, t)) == ClientHolds(At(b, t)) {}
  }

  lemma HeldCallerSteps(capacity: nat, b: Bus, me: Thread)
    requires Locking(b) && Alone(b, me) && b.mutex != ByWorker
    requires At(b, me).Idle? || At(b, me).WaitingForEmpty? || (At(b, me).Testing? && HeldBack(b))
    ensures var r := Step(capacity, b, WaitAction(b, me));
      Alone(r, me) && r.mutex != ByWorker && PlaceLeft(At(r, me)) < PlaceLeft(At(b, me))
  {
    var r := Step(capacity, b, WaitAction(b, me));
    forall t | t != me ensures At(r, t) == At(b, t) {}
    assert !At(b, me).Testing? ==> b.mutex == Free;
  }

  lemma HeldWorkerSteps(capacity: nat, b: Bus, me: Thread)
    requires Locking(b) && Alone(b, me) && HeldBack(b) && b.mutex == ByWorker
    ensures var r := Step(capacity, b, OwnStep(b.worker));
      Alone(r, me) && ReleaseLeft(r) < ReleaseLeft(b)
  {
    var r := Step(capacity, b, OwnStep(b.worker));
    forall t ensures ClientHolds(At(r, t)) == ClientHolds(At(b, t)) {}
  }

  lemma PushingStepOnBus(capacity: nat, b: Bus, me: Thread)
    requires At(b, me).Owner? && |b.queue| < capacity
    ensures PlaceLeft(At(Step(capacity, b, OwnerPushes(me, SYNC)), me)) < PlaceLeft(At(b, me))
  {}

  /** One step of the schedule on the bus the caller waits for. */
  lemma WaitProgresses(c: Config, me: Thread, i: nat, b: Bus, left: nat)
    requires c.asynchronous && InCall(c, me, Collecting(i), i, b) && Alone(b, me) && !At(b, me).Owner?
    ensures var r := Step(c.capacity, b, if MayMove(c, b, me) then WaitAction(b, me) else OwnStep(b.worker));
      Alone(r, me) && Closer(WaitLeft(c, r, me, left), WaitLeft(c, b, me, left))
  {
    if c.care == StaysActive {
      hide Step, Serving, Ordered, Alone, Unsent, Left, PlaceLeft, WaitAction;
      if MayMove(c, b, me) { CallerStepsOnBus(c.capacity, b, me); } else { WorkerStepsOnBus(c.capacity, b, me); }
    } else {
      HolderIsNotWorker(c.capacity, b, me);
      hide Step, Alone, ReleaseLeft, PlaceLeft, WaitAction, HeldBack, Locking;
      if MayMove(c, b, me) {
        HeldCallerSteps(c.capacity, b, me);
        NotHeldByWorker(b);
        NotHeldByWorker(Step(c.capacity, b, WaitAction(b, me)));
      } else {
        HeldWorkerSteps(c.capacity, b, me);
      }
    }
  }

  lemma HolderIsNotWorker(capacity: nat, b: Bus, me: Thread)
    requires Ordered(capacity, b)
    ensures Locking(b) && (At(b, me).Testing? ==> b.mutex != ByWorker)
  {}

  lemma NotHeldByWorker(b: Bus)
    requires b.mutex != ByWorker
    ensures ReleaseLeft(b) == 0
  {}

  lemma CollectingProgresses(cs: seq<Config>, me: Thread, s: System)
    requires Underway(cs, me, s) && AloneAhead(cs, me, s) && s.caller.Collecting?
    ensures var r := Next(cs, me, s, NextMove(cs, me, s));
      AloneAhead(cs, me, r) && Closer(DistanceTo(cs, me, r), DistanceTo(cs, me, s))
  {
    var i := s.caller.i;
    if i < |cs| && cs[i].asynchronous && !At(s.buses[i], me).Owner? {
      WaitProgresses(cs[i], me, i, s.buses[i], CallerLeft(|cs|, s.caller));
      OwnStepsAreAllowed(cs[i], s.buses[i].worker, me);
    }
    hide Step, InCall, Alone, WaitLeft, WaitAction, Allowed;
  }

  lemma OwnStepsAreAllowed(c: Config, w: Worker, me: Thread)
    ensures Allowed(c, OwnStep(w)) && !ByThread(OwnStep(w), me) && IsOwnStep(OwnStep(w))
  {}

  lemma QueueingProgresses(cs: seq<Config>, me: Thread, s: System)
    requires Underway(cs, me, s) && s.caller.Queueing?
    ensures var r := Next(cs, me, s, NextMove(cs, me, s));
      AloneAhead(cs, me, r) && Closer(DistanceTo(cs, me, r), DistanceTo(cs, me, s))
  {
    hide Step, Serving, Ordered, Alone, PlaceLeft, EndsWithSync;
    var i := s.caller.i;
    if i < |cs| && cs[i].asynchronous {
      assert InCall(cs[i], me, s.caller, i, s.buses[i]);
      if !At(s.buses[i], me).OwnerPushed? && |s.buses[i].queue| < cs[i].capacity {
        PushingStepOnBus(cs[i].capacity, s.buses[i], me);
      }
    }
  }

  lemma {:induction false} PlayFirst(cs: seq<Config>, me: Thread, s: System, m: Move, moves: seq<Move>)
    requires |cs| == |s.buses|
    ensures Play(cs, me, s, [m] + moves) == Play(cs, me, Next(cs, me, s, m), moves)
    decreases |moves|
  {
    hide MyMove, Step;
    if moves == [] {
      assert [m] + moves == [m] && [m][..0] == [];
      assert Play(cs, me, s, []) == s;
    } else {
      var n := |moves| - 1;
      PlayFirst(cs, me, s, m, moves[..n]);
      assert ([m] + moves)[..n + 1] == [m] + moves[..n];
    }
  }

  /** Every move is one of the caller or of a transmit thread whose writes succeed. */
  predicate OwnMoves(moves: seq<Move>) {
    forall i | 0 <= i < |moves| && moves[i].Others? :: IsOwnStep(moves[i].a)
  }

  /** Following the schedule completes the call. */
  lemma {:induction false} Completes(cs: seq<Config>, me: Thread, s: System) returns (more: seq<Move>)
    requires Underway(cs, me, s) && AloneAhead(cs, me, s)
    ensures OwnMoves(more) && Play(cs, me, s, more).caller == Done && Underway(cs, me, Play(cs, me, s, more))
    decreases DistanceTo(cs, me, s).caller, DistanceTo(cs, me, s).frames, DistanceTo(cs, me, s).worker,
              DistanceTo(cs, me, s).place
  {
    assert |s.buses| == |cs|;
    hide Underway, AloneAhead, Next, DistanceTo;
    more := [];
    if s.caller != Done {
      var m := NextMove(cs, me, s);
      if s.caller.Collecting? { CollectingProgresses(cs, me, s); } else { QueueingProgresses(cs, me, s); }
      NextKeepsUnderway(cs, me, s, m);
      more := Completes(cs, me, Next(cs, me, s, m));
      PlayFirst(cs, me, s, m, more);
      more := [m] + more;
    }
  }

  lemma {:induction false} PlayKeepsUnderway(cs: seq<Config>, me: Thread, s: System, moves: seq<Move>)
    requires Underway(cs, me, s)
    ensures Underway(cs, me, Play(cs, me, s, moves))
    decreases |moves|
  {
    hide Next, InCall;
    if moves != [] {
      PlayKeepsUnderway(cs, me, s, moves[..|moves| - 1]);
      NextKeepsUnderway(cs, me, Play(cs, me, s, moves[..|moves| - 1]), moves[|moves| - 1]);
    }
  }

  /**
   The bus is as a call may find it: active and to stay so, with no wake-up lost, or passive or stopped and
   to stay so.
   */
  ghost predicate Enterable(c: Config, b: Bus) {
    Ordered(c.capacity, b) &&
    match c.care
    case StaysActive => b.running && !b.passive && Serving(b)
    case StaysHeldBack => HeldBack(b)
    case Anything => false
  }

  /**
   The call is never stuck, on passive and stopped buses neither: wherever it began and wherever it has got
   to, if no other thread holds the lock of a bus that is still to be locked, steps of the caller and of the
   transmit threads alone complete it.
   */
  lemma CallCompletes(cs: seq<Config>, me: Thread, s: System, moves: seq<Move>)
    requires |s.buses| == |cs| && s.caller == Collecting(0)
    requires forall j: nat | j < |cs| && cs[j].asynchronous ::
      Enterable(cs[j], s.buses[j]) && At(s.buses[j], me) == Idle
    ensures var r := Play(cs, me, s, moves);
      AloneAhead(cs, me, r) ==> exists more :: OwnMoves(more) && Play(cs, me, r, more).caller == Done
  {
    assert Underway(cs, me, s) by { hide Ordered, Serving; }
    hide Play, Underway, Ordered, Serving;
    PlayKeepsUnderway(cs, me, s, moves);
    var r := Play(cs, me, s, moves);
    if AloneAhead(cs, me, r) {
      var more := Completes(cs, me, r);
    }
  }
}
