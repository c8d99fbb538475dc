/**
 `sendSyncOnAllBuses(true)`: one thread waits for the empty queue of every asynchronous bus, keeping the
 lock of each, and only then queues a SYNC frame on every bus. Every bus is a monitor of its own in which
 the transmit thread and any number of other threads keep running. The call may begin in any state of the
 buses; some may be passive or stopped then or later, and what is claimed of each other bus does not
 depend on them.
 */
module SyncAllBuses {
  import opened CanMsgs
  import opened TransmitMonitor
  import opened Delivery
  import opened WakeUps

  const SYNC: Msg := RawFrame.Frame(0x80, 0, [0, 0, 0, 0, 0, 0, 0, 0])

  /** Where the calling thread is: in the first loop, in the second, or behind it with all locks held. */
  datatype Caller = Collecting(i: nat) | Queueing(i: nat) | Done

  /** During the call a bus is not passivated or stopped, or it is not activated, or anything may happen to it. */
  datatype Care = StaysActive | StaysHeldBack | Anything

  datatype Config = Config(capacity: nat, asynchronous: bool, care: Care)

  /** The buses that the guarantee is about, if they are active when the call begins. */
  predicate Covered(c: Config) {
    c.asynchronous && c.care == StaysActive
  }

  /** Buses that are passive or stopped all the time, if they are so when the call begins. */
  predicate Dormant(c: Config) {
    c.asynchronous && c.care == StaysHeldBack
  }

  datatype System = System(buses: seq<Bus>, caller: Caller)

  datatype Move = Mine | Others(i: nat, a: Action)

  predicate ByThread(a: Action, t: Thread) {
    match a
    case Send(u, _) => u == t
    case WaitForEmpty(u) => u == t
    case Locks(u) => u == t
    case Acts(u) => u == t
    case Wakes(u) => false
    case OwnerPushes(u, _) => u == t
    case OwnerReleases(u) => u == t
    case Activate(u) => u == t
    case Stop(u) => u == t
    case _ => false
  }

  /** The next action of the caller inside waitForEmptyQueue; acquiring the mutex may take several attempts. */
  function WaitAction(b: Bus, me: Thread): Action {
    match At(b, me)
    case Idle => WaitForEmpty(me)
    case Testing => Acts(me)
    case _ => Locks(me)
  }

  /** `sendSyncWithoutLock` on a bus whose lock the caller does not hold. */
  function PushUnlocked(c: Config, b: Bus): Bus {
    if |b.queue| < c.capacity then Push(b, SYNC).(worker := NotifiedWorker(b.worker)) else b
  }

  function MyMove(cs: seq<Config>, me: Thread, s: System): System
    requires |cs| == |s.buses|
  {
    match s.caller
    case Collecting(i) =>
      if i >= |cs| then s.(caller := Queueing(0))
      else if !cs[i].asynchronous || At(s.buses[i], me).Owner? then s.(caller := Collecting(i + 1))
      else s.(buses := s.buses[i := Step(cs[i].capacity, s.buses[i], WaitAction(s.buses[i], me))])
    case Queueing(i) =>
      if i >= |cs| then s.(caller := Done)
      else
        var b := s.buses[i];
        if !cs[i].asynchronous then System(s.buses[i := PushUnlocked(cs[i], b)], Queueing(i + 1))
        else if At(b, me).OwnerPushed? then
          System(s.buses[i := Step(cs[i].capacity, b, Acts(me))], Queueing(i + 1))
        else if |b.queue| >= cs[i].capacity then s.(caller := Queueing(i + 1))
        else s.(buses := s.buses[i := Step(cs[i].capacity, b, OwnerPushes(me, SYNC))])
    case Done => s
  }

  predicate Allowed(c: Config, a: Action) {
    match c.care
    case StaysActive => Steady(a)
    case StaysHeldBack => KeepsHeldBack(a)
    case Anything => true
  }

  function Next(cs: seq<Config>, me: Thread, s: System, m: Move): System
    requires |cs| == |s.buses|
  {
    match m
    case Mine => MyMove(cs, me, s)
    case Others(i, a) =>
      if i < |cs| && !ByThread(a, me) && Allowed(cs[i], a) then
        s.(buses := s.buses[i := Step(cs[i].capacity, s.buses[i], a)])
      else s
  }

  function Play(cs: seq<Config>, me: Thread, s: System, moves: seq<Move>): (r: System)
    requires |cs| == |s.buses|
    ensures |r.buses| == |cs|
    decreases |moves|
  {
    if moves == [] then s else Next(cs, me, Play(cs, me, s, moves[..|moves| - 1]), moves[|moves| - 1])
  }

  // ---------------------------------------------------------------- what holds on one bus

  /** While the caller owns the lock of waitForEmptyQueue, only what it queued itself is there. */
  predicate OwnerAlone(b: Bus, me: Thread) {
    && b.running && !b.passive
    && (At(b, me).Owner? || At(b, me).OwnerPushed? ==> b.queue == At(b, me).sent && !InHand(b.worker))
  }

  ghost predicate Sound(capacity: nat, b: Bus, me: Thread) {
    Ordered(capacity, b) && OwnerAlone(b, me)
  }

  lemma WorkerKeepsOwnerAlone(capacity: nat, b: Bus, a: Action, me: Thread)
    requires Sound(capacity, b, me) && OfTransmitThread(a)
    ensures OwnerAlone(Step(capacity, b, a), me)
  {
    var r := Step(capacity, b, a);
    assert At(r, me) == At(b, me) || At(r, me).AsleepForEmpty?;
  }

  lemma ActKeepsOwnerAlone(capacity: nat, b: Bus, t: Thread, me: Thread)
    requires Sound(capacity, b, me)
    ensures OwnerAlone(Act(capacity, b, t), me)
  {
    if t != me { ActLeavesPlaces(capacity, b, t, me); }
  }

  lemma ClientKeepsOwnerAlone(capacity: nat, b: Bus, a: Action, me: Thread)
    requires Sound(capacity, b, me) && Steady(a) && !OfTransmitThread(a)
    ensures OwnerAlone(Step(capacity, b, a), me)
  {
    if a.Acts? {
      hide Sound;
      ActKeepsOwnerAlone(capacity, b, a.t, me);
    } else {
      hide Act;
      var r := Step(capacity, b, a);
      assert SamePlace(b, r, me) || ByThread(a, me);
    }
  }

  lemma StepKeepsOwnerAlone(capacity: nat, b: Bus, a: Action, me: Thread)
    requires Sound(capacity, b, me) && Steady(a)
    ensures OwnerAlone(Step(capacity, b, a), me)
  {
    hide Step, OwnerAlone, Sound;
    if OfTransmitThread(a) {
      WorkerKeepsOwnerAlone(capacity, b, a, me);
    } else {
      ClientKeepsOwnerAlone(capacity, b, a, me);
    }
  }

  lemma StepKeepsSound(capacity: nat, b: Bus, a: Action, me: Thread)
    requires Sound(capacity, b, me) && Steady(a)
    ensures Sound(capacity, Step(capacity, b, a), me)
  {
    StepKeepsOrdered(capacity, b, a);
    StepKeepsOwnerAlone(capacity, b, a, me);
  }

  /** The place of a thread, up to notifications. */
  predicate SamePlace(b: Bus, r: Bus, me: Thread) {
    At(r, me) == At(b, me) || (At(r, me).AsleepForEmpty? && At(b, me).AsleepForEmpty?)
  }

  lemma NotifyingLeavesPlaces(b: Bus, me: Thread)
    ensures SamePlace(b, b.(clients := NotifiedWaiters(b.clients)), me)
  {}

  lemma ActLeavesPlaces(capacity: nat, b: Bus, t: Thread, me: Thread)
    requires t != me
    ensures SamePlace(b, Act(capacity, b, t), me)
  {
    match At(b, t)
    case Stopping => NotifyingLeavesPlaces(b, me);
    case _ => hide NotifiedWaiters;
  }

  lemma OthersLeaveMyPlace(capacity: nat, b: Bus, a: Action, me: Thread)
    requires !ByThread(a, me)
    ensures SamePlace(b, Step(capacity, b, a), me)
  {
    hide Act, NotifiedWaiters;
    match a
    case Acts(t) => ActLeavesPlaces(capacity, b, t, me);
    case WorkerActs => NotifyingLeavesPlaces(b, me);
    case _ =>
  }

  // ---------------------------------------------------------------- what the caller has achieved

  predicate StillWaiting(c: Client) {
    c.Idle? || c.WaitingForEmpty? || c.Testing? || c.AsleepForEmpty? || c == Owner([])
  }

  /** What the caller has queued on a bus when it is through with it. */
  function Queued(capacity: nat): seq<Msg> {
    if capacity > 0 then [SYNC] else []
  }

  /** Where the caller stands on bus `j`, given where it stands in the loops. */
  predicate OnTrack(caller: Caller, j: nat, capacity: nat, c: Client) {
    match caller
    case Collecting(i) => if j < i then c == Owner([]) else if j == i then StillWaiting(c) else c == Idle
    case Queueing(i) =>
      if j < i then c == Owner(Queued(capacity))
      else c == Owner([]) || (j == i && capacity > 0 && c == OwnerPushed([SYNC]))
    case Done => c == Owner(Queued(capacity))
  }

  /** What holds of bus `j` during the call, if it was active when the call began and is steady. */
  ghost predicate BusInv(c: Config, me: Thread, caller: Caller, j: nat, b: Bus) {
    Sound(c.capacity, b, me) && OnTrack(caller, j, c.capacity, At(b, me))
  }

  lemma OthersKeepBusInv(c: Config, me: Thread, caller: Caller, j: nat, b: Bus, a: Action)
    requires BusInv(c, me, caller, j, b) && !ByThread(a, me) && Steady(a)
    ensures BusInv(c, me, caller, j, Step(c.capacity, b, a))
  {
    hide Step, Sound;
    StepKeepsSound(c.capacity, b, a, me);
    OthersLeaveMyPlace(c.capacity, b, a, me);
  }

  lemma WaitingProceeds(c: Config, me: Thread, j: nat, b: Bus)
    requires BusInv(c, me, Collecting(j), j, b) && !At(b, me).Owner?
    ensures BusInv(c, me, Collecting(j), j, Step(c.capacity, b, WaitAction(b, me)))
  {
    StepKeepsSound(c.capacity, b, WaitAction(b, me), me);
    hide Sound;
  }

  lemma QueueingProceeds(c: Config, me: Thread, j: nat, b: Bus)
    requires BusInv(c, me, Queueing(j), j, b)
    ensures At(b, me).OwnerPushed? ==> BusInv(c, me, Queueing(j + 1), j, Step(c.capacity, b, Acts(me)))
    ensures At(b, me).Owner? && |b.queue| >= c.capacity ==> BusInv(c, me, Queueing(j + 1), j, b)
    ensures At(b, me).Owner? && |b.queue| < c.capacity ==>
              BusInv(c, me, Queueing(j), j, Step(c.capacity, b, OwnerPushes(me, SYNC)))
  {
    assert b.queue == At(b, me).sent;
    StepKeepsSound(c.capacity, b, Acts(me), me);
    StepKeepsSound(c.capacity, b, OwnerPushes(me, SYNC), me);
    hide Sound;
  }

  lemma MyMoveKeepsInv(cs: seq<Config>, me: Thread, s: System, j: nat)
    requires |s.buses| == |cs| && j < |cs| && Covered(cs[j]) && BusInv(cs[j], me, s.caller, j, s.buses[j])
    ensures BusInv(cs[j], me, MyMove(cs, me, s).caller, j, MyMove(cs, me, s).buses[j])
  {
    hide Step, Sound;
    if s.caller == Collecting(j) && !At(s.buses[j], me).Owner? {
      WaitingProceeds(cs[j], me, j, s.buses[j]);
    } else if s.caller == Queueing(j) {
      QueueingProceeds(cs[j], me, j, s.buses[j]);
    }
  }

  lemma NextKeepsInv(cs: seq<Config>, me: Thread, s: System, m: Move, j: nat)
    requires |s.buses| == |cs| && j < |cs| && Covered(cs[j]) && BusInv(cs[j], me, s.caller, j, s.buses[j])
    ensures BusInv(cs[j], me, Next(cs, me, s, m).caller, j, Next(cs, me, s, m).buses[j])
  {
    hide Step, BusInv, MyMove;
    match m
    case Mine => MyMoveKeepsInv(cs, me, s, j);
    case Others(i, a) =>
      if i == j && !ByThread(a, me) && Allowed(cs[i], a) {
        OthersKeepBusInv(cs[i], me, s.caller, i, s.buses[i], a);
      }
  }

  lemma {:induction false} PlayKeepsInv(cs: seq<Config>, me: Thread, s: System, moves: seq<Move>, j: nat)
    requires |s.buses| == |cs| && j < |cs| && Covered(cs[j]) && BusInv(cs[j], me, s.caller, j, s.buses[j])
    ensures BusInv(cs[j], me, Play(cs, me, s, moves).caller, j, Play(cs, me, s, moves).buses[j])
    decreases |moves|
  {
    hide BusInv, MyMove, Step;
    if moves != [] {
      PlayKeepsInv(cs, me, s, moves[..|moves| - 1], j);
      NextKeepsInv(cs, me, Play(cs, me, s, moves[..|moves| - 1]), moves[|moves| - 1], j);
    }
  }

  // ---------------------------------------------------------------- the guarantee

  /** The bus is running and active, and the caller has nothing to do with it yet; its past is arbitrary. */
  ghost predicate Active(c: Config, b: Bus, me: Thread) {
    Ordered(c.capacity, b) && b.running && !b.passive && At(b, me) == Idle
  }

  /** The queue is exactly the SYNC, and every frame accepted before is on the wire, in order. */
  predicate OnlySync(b: Bus) {
    b.queue == [SYNC] && b.accepted == b.wire + [SYNC]
  }

  /**
   When the caller is through, before it releases the locks, every asynchronous bus with room for a frame
   that was active when the call began and was not passivated or stopped since has exactly the SYNC in its
   queue, and every frame accepted before is on its wire: whatever happened to the bus before the call,
   whatever the other threads of all buses did meanwhile, however often writes failed, and whether or not
   other buses were passive or stopped.
   */
  lemma SyncIsAloneInEveryQueue(cs: seq<Config>, me: Thread, s: System, moves: seq<Move>)
    requires |s.buses| == |cs| && s.caller == Collecting(0)
    ensures Play(cs, me, s, moves).caller == Done ==>
      forall j: nat | j < |cs| && Covered(cs[j]) && Active(cs[j], s.buses[j], me) && cs[j].capacity > 0 ::
        OnlySync(Play(cs, me, s, moves).buses[j])
  {
    hide Play, Ordered;
    if Play(cs, me, s, moves).caller == Done {
      forall j: nat | j < |cs| && Covered(cs[j]) && Active(cs[j], s.buses[j], me) && cs[j].capacity > 0
        ensures OnlySync(Play(cs, me, s, moves).buses[j])
      {
        PlayKeepsInv(cs, me, s, moves, j);
        DoneMeansOnlySync(cs[j], me, j, Play(cs, me, s, moves).buses[j]);
      }
    }
  }

  lemma DoneMeansOnlySync(c: Config, me: Thread, j: nat, b: Bus)
    requires BusInv(c, me, Done, j, b) && c.capacity > 0
    ensures OnlySync(b)
  {}

  /** The buses after any histories of their own since they were created. */
  function After(cs: seq<Config>, passive: seq<bool>, histories: seq<seq<Action>>): System
    requires |passive| == |histories| == |cs|
  {
    System(seq(|cs|, i requires 0 <= i < |cs| => Run(cs[i].capacity, Start(passive[i]), histories[i])), Collecting(0))
  }

  /** In particular the call may begin after any history of each bus, its creation included. */
  lemma SyncAfterAnyHistory(
    cs: seq<Config>, passive: seq<bool>, histories: seq<seq<Action>>, me: Thread, moves: seq<Move>)
    requires |passive| == |histories| == |cs|
    ensures var s, r := After(cs, passive, histories), Play(cs, me, After(cs, passive, histories), moves);
      r.caller == Done ==>
        forall j: nat | j < |cs| && Covered(cs[j]) && cs[j].capacity > 0
                        && s.buses[j].running && !s.buses[j].passive && At(s.buses[j], me) == Idle ::
          OnlySync(r.buses[j])
  {
    hide Run, Play, Ordered, OnlySync;
    var s := After(cs, passive, histories);
    SyncIsAloneInEveryQueue(cs, me, s, moves);
    forall j: nat | j < |cs| ensures Ordered(cs[j].capacity, s.buses[j]) {
      StartIsOrdered(cs[j].capacity, passive[j]);
      RunKeepsOrdered(cs[j].capacity, Start(passive[j]), histories[j]);
    }
  }

  lemma StartIsOrdered(capacity: nat, passive: bool)
    ensures Ordered(capacity, Start(passive))
  {}

  // ---------------------------------------------------------------- passive and stopped buses

  predicate EndsWithSync(b: Bus) {
    b.queue != [] && b.queue[|b.queue| - 1] == SYNC
  }

  /** The caller is through with the bus: the SYNC is last in the queue, unless there was no room for it. */
  predicate SyncQueued(capacity: nat, b: Bus, c: Client) {
    (c == Owner([SYNC]) && EndsWithSync(b)) || (c == Owner([]) && |b.queue| >= capacity)
  }

  /** Where the caller stands on a bus that stays passive or stopped; it never sleeps there. */
  predicate OnTrackHeld(caller: Caller, j: nat, capacity: nat, b: Bus, c: Client) {
    match caller
    case Collecting(i) =>
      if j < i then c == Owner([])
      else if j == i then c.Idle? || c.WaitingForEmpty? || c.Testing? || c == Owner([])
      else c == Idle
    case Queueing(i) =>
      if j < i then SyncQueued(capacity, b, c)
      else c == Owner([]) || (j == i && c == OwnerPushed([SYNC]) && EndsWithSync(b))
    case Done => SyncQueued(capacity, b, c)
  }

  ghost predicate HeldInv(c: Config, me: Thread, caller: Caller, j: nat, b: Bus) {
    Ordered(c.capacity, b) && HeldBack(b) && OnTrackHeld(caller, j, c.capacity, b, At(b, me))
  }

  /** Nobody else changes the queue while the caller holds the mutex. */
  lemma OthersLeaveMyQueue(capacity: nat, b: Bus, a: Action, me: Thread)
    requires Locking(b) && ClientHolds(At(b, me)) && !ByThread(a, me)
    ensures Step(capacity, b, a).queue == b.queue
  {
    assert b.mutex == By(me);
    if a.Acts? { OthersActOnNothing(capacity, b, a.t, me); }
    hide Act;
    if a.OwnerPushes? { assert !ClientHolds(At(b, a.t)); }
  }

  lemma OthersActOnNothing(capacity: nat, b: Bus, t: Thread, me: Thread)
    requires Locking(b) && b.mutex == By(me) && t != me
    ensures Act(capacity, b, t).queue == b.queue
  {
    assert !ClientHolds(At(b, t));
  }

  lemma OthersKeepHeldInv(c: Config, me: Thread, caller: Caller, j: nat, b: Bus, a: Action)
    requires HeldInv(c, me, caller, j, b) && !ByThread(a, me) && KeepsHeldBack(a)
    ensures HeldInv(c, me, caller, j, Step(c.capacity, b, a))
  {
    if ClientHolds(At(b, me)) { OthersLeaveMyQueue(c.capacity, b, a, me); }
    hide Step, Ordered;
    StepKeepsOrdered(c.capacity, b, a);
    StepHoldsBack(c.capacity, b, a);
    OthersLeaveMyPlace(c.capacity, b, a, me);
  }

  lemma HeldWaitingProceeds(c: Config, me: Thread, j: nat, b: Bus)
    requires HeldInv(c, me, Collecting(j), j, b) && !At(b, me).Owner?
    ensures HeldInv(c, me, Collecting(j), j, Step(c.capacity, b, WaitAction(b, me)))
  {
    StepKeepsOrdered(c.capacity, b, WaitAction(b, me));
    StepHoldsBack(c.capacity, b, WaitAction(b, me));
    hide Ordered;
  }

  lemma HeldNotifying(c: Config, me: Thread, j: nat, b: Bus)
    requires HeldInv(c, me, Queueing(j), j, b) && At(b, me).OwnerPushed?
    ensures HeldInv(c, me, Queueing(j + 1), j, Step(c.capacity, b, Acts(me)))
  {
    StepKeepsOrdered(c.capacity, b, Acts(me));
    hide Ordered;
  }

  lemma HeldPushing(c: Config, me: Thread, j: nat, b: Bus)
    requires HeldInv(c, me, Queueing(j), j, b) && At(b, me).Owner? && |b.queue| < c.capacity
    ensures HeldInv(c, me, Queueing(j), j, Step(c.capacity, b, OwnerPushes(me, SYNC)))
  {
    StepKeepsOrdered(c.capacity, b, OwnerPushes(me, SYNC));
    assert [] + [SYNC] == [SYNC];
    hide Ordered;
  }

  lemma NextKeepsHeldInv(cs: seq<Config>, me: Thread, s: System, m: Move, j: nat)
    requires |s.buses| == |cs| && j < |cs| && Dormant(cs[j]) && HeldInv(cs[j], me, s.caller, j, s.buses[j])
    ensures HeldInv(cs[j], me, Next(cs, me, s, m).caller, j, Next(cs, me, s, m).buses[j])
  {
    hide Step, Ordered, HeldBack, EndsWithSync;
    match m
    case Mine =>
      if s.caller == Collecting(j) && !At(s.buses[j], me).Owner? {
        HeldWaitingProceeds(cs[j], me, j, s.buses[j]);
      } else if s.caller == Queueing(j) {
        if At(s.buses[j], me).OwnerPushed? {
          HeldNotifying(cs[j], me, j, s.buses[j]);
        } else if |s.buses[j].queue| < cs[j].capacity {
          HeldPushing(cs[j], me, j, s.buses[j]);
        }
      }
    case Others(i, a) =>
      if i == j && !ByThread(a, me) && Allowed(cs[i], a) {
        OthersKeepHeldInv(cs[i], me, s.caller, i, s.buses[i], a);
      }
  }

  lemma {:induction false} PlayKeepsHeldInv(cs: seq<Config>, me: Thread, s: System, moves: seq<Move>, j: nat)
    requires |s.buses| == |cs| && j < |cs| && Dormant(cs[j]) && HeldInv(cs[j], me, s.caller, j, s.buses[j])
    ensures HeldInv(cs[j], me, Play(cs, me, s, moves).caller, j, Play(cs, me, s, moves).buses[j])
    decreases |moves|
  {
    hide HeldInv, MyMove, Step;
    if moves != [] {
      PlayKeepsHeldInv(cs, me, s, moves[..|moves| - 1], j);
      NextKeepsHeldInv(cs, me, Play(cs, me, s, moves[..|moves| - 1]), moves[|moves| - 1], j);
    }
  }

  /** On a bus that is passive or stopped during the whole call the SYNC ends up last, if there was room. */
  lemma SyncIsLastWhenHeldBack(cs: seq<Config>, me: Thread, s: System, moves: seq<Move>, j: nat)
    requires |s.buses| == |cs| && s.caller == Collecting(0) && j < |cs| && Dormant(cs[j])
    requires Ordered(cs[j].capacity, s.buses[j]) && HeldBack(s.buses[j]) && At(s.buses[j], me) == Idle
    ensures var r := Play(cs, me, s, moves);
      r.caller == Done ==> EndsWithSync(r.buses[j]) || |r.buses[j].queue| >= cs[j].capacity
  {
    hide Play, Ordered;
    PlayKeepsHeldInv(cs, me, s, moves, j);
  }

  // ---------------------------------------------------------------- other buses

  /** Nobody else touches bus `j`. */
  predicate LeftAlone(moves: seq<Move>, j: nat) {
    forall i | 0 <= i < |moves| && moves[i].Others? :: moves[i].i != j
  }

  /** What the call does to a bus that is not asynchronous and that nobody else touches. */
  predicate OnePush(c: Config, b: Bus, r: Bus) {
    if |b.queue| < c.capacity then
      && r.queue == b.queue + [SYNC] && r.accepted == b.accepted + [SYNC] && r.wire == b.wire
      && r.clients == b.clients && r.worker != Asleep(false)
    else r == b
  }

  lemma {:induction false} OtherBuses(cs: seq<Config>, me: Thread, s: System, moves: seq<Move>, j: nat)
    requires |s.buses| == |cs| && s.caller == Collecting(0) && j < |cs| && !cs[j].asynchronous && LeftAlone(moves, j)
    ensures var r := Play(cs, me, s, moves);
      match r.caller
      case Collecting(_) => r.buses[j] == s.buses[j]
      case Queueing(i) => if j < i then OnePush(cs[j], s.buses[j], r.buses[j]) else r.buses[j] == s.buses[j]
      case Done => OnePush(cs[j], s.buses[j], r.buses[j])
    decreases |moves|
  {
    hide Step;
    if moves != [] {
      OtherBuses(cs, me, s, moves[..|moves| - 1], j);
    }
  }

  /** A bus that is not asynchronous gets exactly one SYNC behind what it has, if there is room, and no lock. */
  lemma OtherBusesGetOneSync(cs: seq<Config>, me: Thread, s: System, moves: seq<Move>, j: nat)
    requires |s.buses| == |cs| && s.caller == Collecting(0) && j < |cs| && !cs[j].asynchronous && LeftAlone(moves, j)
    ensures Play(cs, me, s, moves).caller == Done ==> OnePush(cs[j], s.buses[j], Play(cs, me, s, moves).buses[j])
  {
    OtherBuses(cs, me, s, moves, j);
    hide Play, OnePush;
  }

  /** The SYNC object of section 7.3.3 of CiA 301: identifier 0x80, no data. */
  lemma SyncIsTheSyncObject()
    ensures SYNC.cobId == 0x80 && SYNC.length == 0
  {}
}
