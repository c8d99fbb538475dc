/**
 Several threads inside `sendSyncOnAllBuses(true)` at once. Each locks the buses in the order of the bus
 list and keeps its locks until its call returns. That fixed order is why they cannot block each other.
 */
module SyncCallers {
  import opened TransmitMonitor
  import opened Delivery
  import opened WakeUps
  import opened SyncAllBuses
  import opened SyncProgress

  /** The threads inside the call, and where each of them is. */
  datatype Joint = Joint(buses: seq<Bus>, callers: map<Thread, Caller>)

  datatype JointMove =
    | Enters(t: Thread)             // begins the call
    | Moves(t: Thread)              // its next step in the call
    | Leaves(t: Thread)             // returns, which releases all its locks
    | Else(i: nat, a: Action)       // anything that is not done by a thread inside the call

  function View(g: Joint, me: Thread): System
    requires me in g.callers
  {
    System(g.buses, g.callers[me])
  }

  /** The destructors of the locks. */
  function Released(cs: seq<Config>, buses: seq<Bus>, me: Thread): (r: seq<Bus>)
    requires |cs| == |buses|
    ensures |r| == |buses|
  {
    seq(|buses|, i requires 0 <= i < |buses| =>
      if cs[i].asynchronous then Step(cs[i].capacity, buses[i], OwnerReleases(me)) else buses[i])
  }

  predicate ByNoCaller(g: Joint, a: Action) {
    forall t | t in g.callers :: !ByThread(a, t)
  }

  predicate MayEnter(cs: seq<Config>, g: Joint, t: Thread)
    requires |g.buses| == |cs|
  {
    t !in g.callers && forall j | 0 <= j < |cs| && cs[j].asynchronous :: At(g.buses[j], t) == Idle
  }

  function JointStep(cs: seq<Config>, g: Joint, m: JointMove): (r: Joint)
    requires |g.buses| == |cs|
    ensures |r.buses| == |cs|
  {
    match m
    case Enters(t) => if MayEnter(cs, g, t) then g.(callers := g.callers[t := Collecting(0)]) else g
    case Moves(t) =>
      if t in g.callers then
        var s := MyMove(cs, t, View(g, t));
        Joint(s.buses, g.callers[t := s.caller])
      else g
    case Leaves(t) =>
      if t in g.callers && g.callers[t] == Done then Joint(Released(cs, g.buses, t), g.callers - {t}) else g
    case Else(i, a) =>
      if i < |cs| && ByNoCaller(g, a) && Allowed(cs[i], a) then
        g.(buses := g.buses[i := Step(cs[i].capacity, g.buses[i], a)])
      else g
  }

  function JointPlay(cs: seq<Config>, g: Joint, moves: seq<JointMove>): (r: Joint)
    requires |g.buses| == |cs|
    ensures |r.buses| == |cs|
    decreases |moves|
  {
    if moves == [] then g else JointStep(cs, JointPlay(cs, g, moves[..|moves| - 1]), moves[|moves| - 1])
  }

  // ---------------------------------------------------------------- what every move keeps

  /** All asynchronous buses stay active and lose no wake-up, or stay passive or stopped. */
  ghost predicate Healthy(cs: seq<Config>, buses: seq<Bus>) {
    && |buses| == |cs|
    && (forall j | 0 <= j < |cs| && cs[j].asynchronous :: Enterable(cs[j], buses[j]))
  }

  /** Every caller is where its loops say, as if it were the only one. */
  ghost predicate JointInv(cs: seq<Config>, g: Joint) {
    Healthy(cs, g.buses) && forall t | t in g.callers :: Underway(cs, t, View(g, t))
  }

  /** To thread `u` the bus has changed by at most one action of another thread. */
  ghost predicate SeenBy(c: Config, b: Bus, r: Bus, u: Thread) {
    r == b || exists a :: Allowed(c, a) && !ByThread(a, u) && r == Step(c.capacity, b, a)
  }

  lemma SeenKeepsInCall(c: Config, b: Bus, r: Bus, u: Thread, caller: Caller, j: nat)
    requires SeenBy(c, b, r, u) && InCall(c, u, caller, j, b) && Enterable(c, r)
    ensures InCall(c, u, caller, j, r)
  {
    hide Step, BusInv, HeldInv, Serving, Ordered;
    if r != b {
      var a :| Allowed(c, a) && !ByThread(a, u) && r == Step(c.capacity, b, a);
      if c.care == StaysActive {
        OthersKeepBusInv(c, u, caller, j, b, a);
      } else {
        OthersKeepHeldInv(c, u, caller, j, b, a);
      }
    }
  }

  /** One action of a thread outside, or of another caller, on each bus. */
  lemma ActionKeepsUnderway(cs: seq<Config>, g: Joint, h: Joint, u: Thread)
    requires Healthy(cs, h.buses) && Healthy(cs, g.buses)
    requires u in g.callers && u in h.callers && h.callers[u] == g.callers[u] && Underway(cs, u, View(g, u))
    requires forall j | 0 <= j < |cs| && cs[j].asynchronous :: SeenBy(cs[j], g.buses[j], h.buses[j], u)
    ensures Underway(cs, u, View(h, u))
  {
    hide SeenBy, InCall, Enterable;
    forall j: nat | j < |cs| && cs[j].asynchronous
      ensures InCall(cs[j], u, h.callers[u], j, h.buses[j])
    {
      SeenKeepsInCall(cs[j], g.buses[j], h.buses[j], u, g.callers[u], j);
    }
  }

  lemma StepKeepsHealth(c: Config, b: Bus, a: Action)
    requires Enterable(c, b) && Allowed(c, a)
    ensures Enterable(c, Step(c.capacity, b, a))
  {
    StepKeepsOrdered(c.capacity, b, a);
    if c.care == StaysActive {
      StepKeepsBoth(c.capacity, b, a);
    } else {
      StepHoldsBack(c.capacity, b, a);
    }
    hide Step, Ordered;
  }

  /** The action of the caller's next step. */
  function MyAction(cs: seq<Config>, me: Thread, s: System): Action
    requires |cs| == |s.buses|
  {
    match s.caller
    case Collecting(i) => if i < |cs| then WaitAction(s.buses[i], me) else Acts(me)
    case Queueing(i) =>
      if i < |cs| && At(s.buses[i], me).OwnerPushed? then Acts(me) else OwnerPushes(me, SYNC)
    case Done => Acts(me)
  }

  lemma MyMoveIsOneAction(cs: seq<Config>, me: Thread, s: System)
    requires |cs| == |s.buses|
    ensures forall c :: Allowed(c, MyAction(cs, me, s))
    ensures forall u | u != me :: !ByThread(MyAction(cs, me, s), u)
    ensures var r := MyMove(cs, me, s);
      |r.buses| == |cs| &&
      forall j | 0 <= j < |cs| && cs[j].asynchronous ::
        r.buses[j] == s.buses[j] || r.buses[j] == Step(cs[j].capacity, s.buses[j], MyAction(cs, me, s))
  {
    hide Step;
  }

  lemma MovesKeepsInv(cs: seq<Config>, g: Joint, me: Thread)
    requires JointInv(cs, g) && me in g.callers
    ensures JointInv(cs, JointStep(cs, g, Moves(me)))
  {
    hide Step, Underway, Enterable;
    var h, a := JointStep(cs, g, Moves(me)), MyAction(cs, me, View(g, me));
    MyMoveIsOneAction(cs, me, View(g, me));
    hide MyMove, MyAction;
    forall j | 0 <= j < |cs| && cs[j].asynchronous
      ensures Enterable(cs[j], h.buses[j])
    {
      StepKeepsHealth(cs[j], g.buses[j], a);
    }
    forall u | u in h.callers ensures Underway(cs, u, View(h, u)) {
      if u == me {
        NextKeepsUnderway(cs, me, View(g, me), Mine);
        assert Next(cs, me, View(g, me), Mine) == View(h, me);
      } else {
        ActionKeepsUnderway(cs, g, h, u);
      }
    }
  }

  lemma ElseKeepsInv(cs: seq<Config>, g: Joint, i: nat, a: Action)
    requires JointInv(cs, g)
    ensures JointInv(cs, JointStep(cs, g, Else(i, a)))
  {
    hide Step, Underway, Enterable, Allowed;
    var h := JointStep(cs, g, Else(i, a));
    if h != g {
      forall j | 0 <= j < |cs| && cs[j].asynchronous
        ensures Enterable(cs[j], h.buses[j])
      {
        if i == j { StepKeepsHealth(cs[j], g.buses[j], a); }
      }
      forall u | u in h.callers ensures Underway(cs, u, View(h, u)) {
        ActionKeepsUnderway(cs, g, h, u);
      }
    }
  }

  lemma LeavesKeepsInv(cs: seq<Config>, g: Joint, me: Thread)
    requires JointInv(cs, g)
    ensures JointInv(cs, JointStep(cs, g, Leaves(me)))
  {
    hide Step, Underway, Enterable;
    var h, a := JointStep(cs, g, Leaves(me)), OwnerReleases(me);
    if h != g {
      forall j | 0 <= j < |cs| && cs[j].asynchronous
        ensures Enterable(cs[j], h.buses[j])
      {
        StepKeepsHealth(cs[j], g.buses[j], a);
      }
      forall u | u in h.callers ensures Underway(cs, u, View(h, u)) {
        ActionKeepsUnderway(cs, g, h, u);
      }
    }
  }

  lemma EntersKeepsInv(cs: seq<Config>, g: Joint, me: Thread)
    requires JointInv(cs, g)
    ensures JointInv(cs, JointStep(cs, g, Enters(me)))
  {
    hide Step, Ordered, Serving, HeldBack;
    if MayEnter(cs, g, me) {
      var h := JointStep(cs, g, Enters(me));
      forall j: nat | j < |cs| && cs[j].asynchronous ensures InCall(cs[j], me, Collecting(0), j, h.buses[j]) {}
      forall u | u in h.callers && u != me ensures Underway(cs, u, View(h, u)) {
        assert View(h, u) == View(g, u);
      }
    }
  }

  lemma {:induction false} JointPlayKeepsInv(cs: seq<Config>, g: Joint, moves: seq<JointMove>)
    requires JointInv(cs, g)
    ensures JointInv(cs, JointPlay(cs, g, moves))
    decreases |moves|
  {
    assert |g.buses| == |cs|;
    hide JointStep, JointInv, Healthy;
    if moves != [] {
      var before := moves[..|moves| - 1];
      JointPlayKeepsInv(cs, g, before);
      JointStepKeepsInv(cs, JointPlay(cs, g, before), moves[|moves| - 1]);
    }
  }

  lemma JointStepKeepsInv(cs: seq<Config>, g: Joint, m: JointMove)
    requires JointInv(cs, g)
    ensures JointInv(cs, JointStep(cs, g, m))
  {
    match m
    case Enters(t) => EntersKeepsInv(cs, g, t);
    case Moves(t) => if t in g.callers { MovesKeepsInv(cs, g, t); }
    case Leaves(t) => LeavesKeepsInv(cs, g, t);
    case Else(i, a) => ElseKeepsInv(cs, g, i, a);
  }

  // ---------------------------------------------------------------- no deadlock

  /** Threads outside the call hold no lock of an asynchronous bus. */
  ghost predicate NoOutsider(cs: seq<Config>, g: Joint)
    requires |g.buses| == |cs|
  {
    forall j, t | 0 <= j < |cs| && cs[j].asynchronous && t !in g.callers :: !ClientHolds(At(g.buses[j], t))
  }

  /** How far a caller has got: the bus it is at, and whether it has that one. */
  function Front(cs: seq<Config>, g: Joint, t: Thread): nat
    requires |g.buses| == |cs| && t in g.callers
  {
    match g.callers[t]
    case Collecting(i) =>
      if i >= |cs| then 2 * |cs|
      else 2 * i + (if cs[i].asynchronous && ClientHolds(At(g.buses[i], t)) then 1 else 0)
    case _ => 2 * |cs| + 1
  }

  lemma {:induction false} Frontmost(cs: seq<Config>, g: Joint, ts: set<Thread>) returns (me: Thread)
    requires |g.buses| == |cs| && ts <= g.callers.Keys && ts != {}
    ensures me in ts && forall t | t in ts :: Front(cs, g, t) <= Front(cs, g, me)
    decreases ts
  {
    hide Front;
    me :| me in ts;
    if ts != {me} {
      var other := Frontmost(cs, g, ts - {me});
      forall t | t in ts ensures t == me || Front(cs, g, t) <= Front(cs, g, other) {}
      if Front(cs, g, other) > Front(cs, g, me) { me := other; }
    }
  }

  /** A caller that is no further than the foremost one has no lock from that one's bus on. */
  lemma BehindFrontHoldsNothing(cs: seq<Config>, g: Joint, me: Thread, t: Thread, j: nat)
    requires JointInv(cs, g) && me in g.callers && t in g.callers && t != me && g.callers[me].Collecting?
    requires Front(cs, g, t) <= Front(cs, g, me) && g.callers[me].i <= j < |cs| && cs[j].asynchronous
    ensures !ClientHolds(At(g.buses[j], t))
  {
    hide Ordered, Serving, OwnerAlone;
    var b := g.buses[j];
    assert InCall(cs[j], t, g.callers[t], j, b) && InCall(cs[j], me, g.callers[me], j, b);
    HoldersAreOne(cs[j].capacity, b, me, t);
    hide JointInv, Healthy, Underway, Sound;
  }

  /** Nobody has a lock that the foremost caller still needs: whoever has one is further than that. */
  lemma FrontIsAlone(cs: seq<Config>, g: Joint, me: Thread)
    requires JointInv(cs, g) && NoOutsider(cs, g) && me in g.callers
    requires forall t | t in g.callers :: Front(cs, g, t) <= Front(cs, g, me)
    ensures AloneAhead(cs, me, View(g, me))
  {
    assert |g.buses| == |cs|;
    hide JointInv, Front;
    if g.callers[me].Collecting? {
      forall j: nat, t | g.callers[me].i <= j < |cs| && cs[j].asynchronous && t != me
        ensures !ClientHolds(At(g.buses[j], t))
      {
        if t in g.callers { BehindFrontHoldsNothing(cs, g, me, t, j); }
      }
    }
  }

  lemma HoldersAreOne(capacity: nat, b: Bus, t: Thread, u: Thread)
    requires Ordered(capacity, b) && t != u
    ensures !(ClientHolds(At(b, t)) && ClientHolds(At(b, u)))
  {}

  /** A move of the caller or of a transmit thread, seen from all callers together. */
  function Lifted(me: Thread, m: Move): JointMove {
    match m
    case Mine => Moves(me)
    case Others(i, a) => Else(i, a)
  }

  function AllLifted(me: Thread, moves: seq<Move>): (r: seq<JointMove>)
    ensures |r| == |moves|
  {
    seq(|moves|, i requires 0 <= i < |moves| => Lifted(me, moves[i]))
  }

  lemma {:induction false} Lifts(cs: seq<Config>, g: Joint, me: Thread, moves: seq<Move>)
    requires |g.buses| == |cs| && me in g.callers && OwnMoves(moves)
    ensures var s := Play(cs, me, View(g, me), moves);
      JointPlay(cs, g, AllLifted(me, moves)) == Joint(s.buses, g.callers[me := s.caller])
    decreases |moves|
  {
    hide MyMove, Step;
    if moves == [] {
      assert g.callers[me := g.callers[me]] == g.callers;
    } else {
      var n := |moves| - 1;
      Lifts(cs, g, me, moves[..n]);
      assert AllLifted(me, moves)[..n] == AllLifted(me, moves[..n]);
      var s := Play(cs, me, View(g, me), moves[..n]);
      LiftedStep(cs, Joint(s.buses, g.callers[me := s.caller]), me, moves[n]);
      var r := Play(cs, me, View(g, me), moves);
      assert g.callers[me := s.caller][me := r.caller] == g.callers[me := r.caller];
    }
  }

  lemma LiftedStep(cs: seq<Config>, g: Joint, me: Thread, m: Move)
    requires |g.buses| == |cs| && me in g.callers && (m.Others? ==> IsOwnStep(m.a))
    ensures var s := Next(cs, me, View(g, me), m);
      JointStep(cs, g, Lifted(me, m)) == Joint(s.buses, g.callers[me := s.caller])
  {
    hide MyMove, Step;
    assert m.Others? ==> g.callers[me := g.callers[me]] == g.callers;
  }

  /** Moves of the callers and of the transmit threads. */
  predicate Inside(m: JointMove) {
    match m
    case Enters(_) => false
    case Else(_, a) => IsOwnStep(a)
    case _ => true
  }

  predicate AllInside(moves: seq<JointMove>) {
    forall i | 0 <= i < |moves| :: Inside(moves[i])
  }

  lemma SeenLeavesHolding(c: Config, b: Bus, r: Bus, u: Thread)
    requires SeenBy(c, b, r, u)
    ensures ClientHolds(At(r, u)) == ClientHolds(At(b, u))
  {
    hide Step;
    if r != b {
      var a :| Allowed(c, a) && !ByThread(a, u) && r == Step(c.capacity, b, a);
      OthersLeaveMyPlace(c.capacity, b, a, u);
    }
  }

  lemma InsideKeepsNoOutsider(cs: seq<Config>, g: Joint, m: JointMove)
    requires JointInv(cs, g) && NoOutsider(cs, g) && Inside(m)
    ensures NoOutsider(cs, JointStep(cs, g, m))
  {
    var h := JointStep(cs, g, m);
    if m.Moves? && m.t in g.callers { MyMoveIsOneAction(cs, m.t, View(g, m.t)); }
    hide MyMove, MyAction, Serving, Ordered;
    forall j: nat, u | j < |cs| && cs[j].asynchronous && u !in h.callers ensures !ClientHolds(At(h.buses[j], u)) {
      if m.Leaves? && m.t == u && u in g.callers {
        assert InCall(cs[j], u, Done, j, g.buses[j]);
      } else {
        hide Step;
        assert SeenBy(cs[j], g.buses[j], h.buses[j], u);
        SeenLeavesHolding(cs[j], g.buses[j], h.buses[j], u);
      }
    }
  }

  lemma {:induction false} InsidePlayKeepsNoOutsider(cs: seq<Config>, g: Joint, moves: seq<JointMove>)
    requires JointInv(cs, g) && NoOutsider(cs, g) && AllInside(moves)
    ensures NoOutsider(cs, JointPlay(cs, g, moves))
    decreases |moves|
  {
    assert |g.buses| == |cs|;
    hide JointStep, JointInv, NoOutsider, Inside;
    if moves != [] {
      var before := moves[..|moves| - 1];
      InsidePlayKeepsNoOutsider(cs, g, before);
      JointPlayKeepsInv(cs, g, before);
      InsideKeepsNoOutsider(cs, JointPlay(cs, g, before), moves[|moves| - 1]);
    }
  }

  lemma {:induction false} JointPlayAppend(cs: seq<Config>, g: Joint, p: seq<JointMove>, q: seq<JointMove>)
    requires |g.buses| == |cs|
    ensures JointPlay(cs, g, p + q) == JointPlay(cs, JointPlay(cs, g, p), q)
    decreases |q|
  {
    hide JointStep;
    if q == [] {
      assert p + q == p;
    } else {
      var n := |q| - 1;
      JointPlayAppend(cs, g, p, q[..n]);
      assert (p + q)[..|p| + n] == p + q[..n];
    }
  }

  /** The foremost caller completes its call and leaves, and the others stay where they are. */
  lemma OneReturns(cs: seq<Config>, g: Joint) returns (moves: seq<JointMove>)
    requires JointInv(cs, g) && NoOutsider(cs, g) && g.callers != map[]
    ensures AllInside(moves) && |JointPlay(cs, g, moves).callers| < |g.callers|
  {
    assert |g.buses| == |cs|;
    assert g.callers.Keys != {};
    var me := Frontmost(cs, g, g.callers.Keys);
    FrontIsAlone(cs, g, me);
    var own := Completes(cs, me, View(g, me));
    hide JointInv, NoOutsider, Underway, AloneAhead, Play, JointPlay, Front;
    Lifts(cs, g, me, own);
    var s := Play(cs, me, View(g, me), own);
    var h := JointPlay(cs, g, AllLifted(me, own));
    assert h.callers == g.callers[me := Done];
    moves := AllLifted(me, own) + [Leaves(me)];
    JointPlayAppend(cs, g, AllLifted(me, own), [Leaves(me)]);
    PlayOne(cs, h, Leaves(me));
    var k := JointStep(cs, h, Leaves(me));
    assert k.callers.Keys == g.callers.Keys - {me};
    assert |k.callers| == |k.callers.Keys| && |g.callers| == |g.callers.Keys|;
  }

  lemma PlayOne(cs: seq<Config>, g: Joint, m: JointMove)
    requires |g.buses| == |cs|
    ensures JointPlay(cs, g, [m]) == JointStep(cs, g, m)
  {
    assert [m][..0] == [];
    assert JointPlay(cs, g, []) == g;
  }

  lemma {:induction false} AllReturn(cs: seq<Config>, g: Joint) returns (moves: seq<JointMove>)
    requires JointInv(cs, g) && NoOutsider(cs, g)
    ensures AllInside(moves) && JointPlay(cs, g, moves).callers == map[]
    decreases |g.callers|
  {
    assert |g.buses| == |cs|;
    hide JointInv, NoOutsider, JointPlay, Inside;
    moves := [];
    if g.callers == map[] {
      NothingPlayed(cs, g);
    } else {
      var one := OneReturns(cs, g);
      JointPlayKeepsInv(cs, g, one);
      InsidePlayKeepsNoOutsider(cs, g, one);
      var others := AllReturn(cs, JointPlay(cs, g, one));
      JointPlayAppend(cs, g, one, others);
      moves := one + others;
    }
  }

  lemma NothingPlayed(cs: seq<Config>, g: Joint)
    requires |g.buses| == |cs|
    ensures JointPlay(cs, g, []) == g
  {}

  /**
   No deadlock: any number of threads may begin the call at any time on healthy buses. In every reachable
   state in which no thread outside the call holds a lock, steps of the callers and of the transmit threads
   alone let all of them return.
   */
  lemma CallersNeverDeadlock(cs: seq<Config>, buses: seq<Bus>, moves: seq<JointMove>)
    requires Healthy(cs, buses)
    ensures var g := JointPlay(cs, Joint(buses, map[]), moves);
      NoOutsider(cs, g) ==> exists more :: AllInside(more) && JointPlay(cs, g, more).callers == map[]
  {
    assert JointInv(cs, Joint(buses, map[]));
    hide JointPlay, JointInv, Healthy, Inside;
    JointPlayKeepsInv(cs, Joint(buses, map[]), moves);
    var g := JointPlay(cs, Joint(buses, map[]), moves);
    if NoOutsider(cs, g) {
      var more := AllReturn(cs, g);
    }
  }
}
