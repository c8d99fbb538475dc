/**
 The monitor around the output queue of an asynchronous bus: one transmit thread, any number of senders
 and of threads waiting for the queue to empty, a mutex, and two condition variables.

 A step is one atomic action of one thread. An action that is not enabled changes nothing, so every list
 of actions is an interleaving. Condition variables may wake spuriously, and the thread that was notified
 has to win the mutex again. `wire` is what was written to the device, `accepted` what was ever queued.
 */
module TransmitMonitor {
  import opened CanMsgs

  type Msg = RawFrame
  type Thread = nat

  datatype Worker =
    | Starting                         // wants the mutex for the first time
    | Outer                            // holds it, at the outer loop condition
    | Inner                            // holds it, at the inner loop condition
    | Notifying                        // holds it, before notifying condOutputQueueEmpty_
    | Waiting                          // holds it, before waiting on condTransmitThread_
    | Asleep(notified: bool)           // waits on condTransmitThread_
    | Ready                            // holds it, behind the inner loop
    | Writing(msg: Msg)                // in writeData, mutex released, front copied
    | Relocking(msg: Msg, sent: bool)  // in writeData, wants the mutex back
    | Finishing(msg: Msg, sent: bool)  // in writeData, holds it, before the pop
    | Terminated

  datatype Client =
    | Idle
    | Sending(msg: Msg)                // in sendMessage, wants the mutex
    | Pushing(msg: Msg)                // holds it, before the push
    | Pushed                           // holds it, before notifying condTransmitThread_
    | Returning                        // holds it, before releasing it
    | WaitingForEmpty                  // in waitForEmptyQueue, wants the mutex
    | Testing                          // holds it, at the predicate of the wait
    | AsleepForEmpty(notified: bool)   // waits on condOutputQueueEmpty_
    | Owner(sent: seq<Msg>)            // waitForEmptyQueue has returned the lock; `sent` was queued since
    | OwnerPushed(sent: seq<Msg>)      // the same, before notifying condTransmitThread_
    | Activating                       // in activate, before notifying condTransmitThread_
    | Stopping                         // in stopThreads, before the two notifications

  datatype Mutex = Free | ByWorker | By(t: Thread)

  datatype Bus = Bus(
    mutex: Mutex,
    worker: Worker,
    clients: map<Thread, Client>,
    queue: seq<Msg>,
    accepted: seq<Msg>,
    wire: seq<Msg>,
    passive: bool,
    running: bool)

  function Start(passive: bool): Bus {
    Bus(Free, Starting, map[], [], [], [], passive, true)
  }

  datatype Action =
    | WorkerLocks | WorkerActs | WorkerSends(ok: bool) | WorkerWakes
    | Send(t: Thread, msg: Msg) | WaitForEmpty(t: Thread)
    | Locks(t: Thread) | Acts(t: Thread) | Wakes(t: Thread)
    | OwnerPushes(t: Thread, msg: Msg) | OwnerReleases(t: Thread)
    | Activate(t: Thread) | Stop(t: Thread) | Passivate | AutoActivate

  function At(b: Bus, t: Thread): Client {
    if t in b.clients then b.clients[t] else Idle
  }

  /** `getNumOutgoingMessagesWithoutLock`. */
  function NumOutgoing(b: Bus): nat {
    if b.passive then 0 else |b.queue|
  }

  predicate WorkerHolds(w: Worker) {
    w.Outer? || w.Inner? || w.Notifying? || w.Waiting? || w.Ready? || w.Finishing?
  }

  predicate ClientHolds(c: Client) {
    c.Pushing? || c.Pushed? || c.Returning? || c.Testing? || c.Owner? || c.OwnerPushed?
  }

  // ---------------------------------------------------------------- steps

  function NotifiedWorker(w: Worker): Worker {
    if w.Asleep? then Asleep(true) else w
  }

  function NotifiedWaiters(m: map<Thread, Client>): map<Thread, Client> {
    map t | t in m :: if m[t].AsleepForEmpty? then AsleepForEmpty(true) else m[t]
  }

  function Goto(b: Bus, t: Thread, c: Client): Bus {
    b.(clients := b.clients[t := c])
  }

  function Push(b: Bus, msg: Msg): Bus {
    b.(queue := b.queue + [msg], accepted := b.accepted + [msg])
  }

  /** The transmit thread takes the free mutex. */
  function WorkerLock(b: Bus): Bus {
    if b.mutex != Free then b
    else match b.worker
      case Starting => b.(mutex := ByWorker, worker := Outer)
      case Asleep(true) => b.(mutex := ByWorker, worker := Inner)
      case Relocking(m, sent) => b.(mutex := ByWorker, worker := Finishing(m, sent))
      case _ => b
  }

  /** The next action of the transmit thread while it holds the mutex. */
  function WorkerAct(b: Bus): Bus {
    match b.worker
    case Outer => if b.running then b.(worker := Inner) else b.(worker := Terminated, mutex := Free)
    case Inner => if NumOutgoing(b) == 0 && b.running then b.(worker := Notifying) else b.(worker := Ready)
    case Notifying => b.(clients := NotifiedWaiters(b.clients), worker := Waiting)
    case Waiting => b.(worker := Asleep(false), mutex := Free)
    case Ready =>
      if b.running && !b.passive && b.queue != [] then b.(worker := Writing(b.queue[0]), mutex := Free)
      else b.(worker := Outer)
    case Finishing(m, sent) =>
      b.(worker := Outer, queue := if sent && b.queue != [] then b.queue[1..] else b.queue)
    case _ => b
  }

  function WorkerSend(b: Bus, ok: bool): Bus {
    if b.worker.Writing? then
      b.(worker := Relocking(b.worker.msg, ok), wire := if ok then b.wire + [b.worker.msg] else b.wire)
    else b
  }

  function Lock(b: Bus, t: Thread): Bus {
    if b.mutex != Free then b
    else match At(b, t)
      case Sending(m) => Goto(b, t, Pushing(m)).(mutex := By(t))
      case WaitingForEmpty => Goto(b, t, Testing).(mutex := By(t))
      case AsleepForEmpty(true) => Goto(b, t, Testing).(mutex := By(t))
      case _ => b
  }

  /** The next action of a client that needs no choice. */
  function Act(capacity: nat, b: Bus, t: Thread): Bus {
    match At(b, t)
    case Pushing(m) =>
      if |b.queue| >= capacity then Goto(b, t, Returning) else Goto(Push(b, m), t, Pushed)
    case Pushed => Goto(b, t, Returning).(worker := NotifiedWorker(b.worker))
    case Returning => Goto(b, t, Idle).(mutex := Free)
    case Testing =>
      if NumOutgoing(b) == 0 || !b.running then Goto(b, t, Owner([]))
      else Goto(b, t, AsleepForEmpty(false)).(mutex := Free)
    case OwnerPushed(sent) => Goto(b, t, Owner(sent)).(worker := NotifiedWorker(b.worker))
    case Activating => Goto(b, t, Idle).(worker := NotifiedWorker(b.worker))
    case Stopping =>
      b.(clients := NotifiedWaiters(b.clients)[t := Idle], worker := NotifiedWorker(b.worker))
    case _ => b
  }

  function OwnerPush(capacity: nat, b: Bus, t: Thread, msg: Msg): Bus {
    if At(b, t).Owner? && |b.queue| < capacity then Goto(Push(b, msg), t, OwnerPushed(At(b, t).sent + [msg])) else b
  }

  function Step(capacity: nat, b: Bus, a: Action): Bus {
    match a
    case WorkerLocks => WorkerLock(b)
    case WorkerActs => WorkerAct(b)
    case WorkerSends(ok) => WorkerSend(b, ok)
    case WorkerWakes => b.(worker := NotifiedWorker(b.worker))
    case Send(t, m) => if At(b, t).Idle? then Goto(b, t, Sending(m)) else b
    case WaitForEmpty(t) => if At(b, t).Idle? then Goto(b, t, WaitingForEmpty) else b
    case Locks(t) => Lock(b, t)
    case Acts(t) => Act(capacity, b, t)
    case Wakes(t) => if At(b, t).AsleepForEmpty? then Goto(b, t, AsleepForEmpty(true)) else b
    case OwnerPushes(t, m) => OwnerPush(capacity, b, t, m)
    case OwnerReleases(t) => if At(b, t).Owner? then Goto(b, t, Idle).(mutex := Free) else b
    case Activate(t) => if At(b, t).Idle? then Goto(b, t, Activating).(passive := false) else b
    case Stop(t) => if At(b, t).Idle? then Goto(b, t, Stopping).(running := false) else b
    case Passivate => b.(passive := true)
    case AutoActivate => b.(passive := false)
  }

  function Run(capacity: nat, b: Bus, actions: seq<Action>): Bus
    decreases |actions|
  {
    if actions == [] then b
    else Step(capacity, Run(capacity, b, actions[..|actions| - 1]), actions[|actions| - 1])
  }

  // ---------------------------------------------------------------- mutual exclusion and order

  ghost predicate Locking(b: Bus) {
    && (b.mutex == ByWorker <==> WorkerHolds(b.worker))
    && (forall t :: b.mutex == By(t) <==> ClientHolds(At(b, t)))
  }

  /** The transmit thread has a copy of the front, and the front is still queued. */
  predicate InHand(w: Worker) {
    w.Writing? || w.Relocking? || w.Finishing?
  }

  /** What was accepted and is not on the wire: the queue, without its front once that has been sent. */
  function Unsent(b: Bus): seq<Msg> {
    if (b.worker.Relocking? || b.worker.Finishing?) && b.worker.sent && b.queue != [] then b.queue[1..]
    else b.queue
  }

  ghost predicate Ordered(capacity: nat, b: Bus) {
    && Locking(b)
    && |b.queue| <= capacity
    && (InHand(b.worker) ==> b.queue != [] && b.queue[0] == b.worker.msg)
    && b.wire + Unsent(b) == b.accepted
    && (b.worker.Ready? && b.running ==> b.queue != [])
    && (b.worker.Terminated? ==> !b.running)
  }

  lemma WorkerLockKeepsOrdered(capacity: nat, b: Bus)
    requires Ordered(capacity, b)
    ensures Ordered(capacity, WorkerLock(b))
  {
    assert WorkerLock(b).worker.Finishing? && b.mutex == Free ==> Unsent(WorkerLock(b)) == Unsent(b);
  }

  lemma WorkerSendKeepsOrdered(capacity: nat, b: Bus, ok: bool)
    requires Ordered(capacity, b)
    ensures Ordered(capacity, WorkerSend(b, ok))
  {
    hide NotifiedWaiters;
    if b.worker.Writing? && ok {
      assert b.wire + [b.queue[0]] + b.queue[1..] == b.wire + b.queue;
    }
  }

  lemma WorkerActKeepsOrdered(capacity: nat, b: Bus)
    requires Ordered(capacity, b)
    ensures Ordered(capacity, WorkerAct(b))
  {
    match b.worker
    case Notifying => NotifyingKeepsHolders(b.clients);
    case _ =>
  }

  lemma NotifyingKeepsHolders(m: map<Thread, Client>)
    ensures forall t | t in m :: ClientHolds(NotifiedWaiters(m)[t]) == ClientHolds(m[t])
  {}

  lemma MoveKeepsOrdered(capacity: nat, b: Bus, t: Thread, c: Client)
    requires Ordered(capacity, b) && ClientHolds(c) == ClientHolds(At(b, t))
    ensures Ordered(capacity, Goto(b, t, c))
  {}

  lemma ReleaseKeepsOrdered(capacity: nat, b: Bus, t: Thread, c: Client)
    requires Ordered(capacity, b) && ClientHolds(At(b, t)) && !ClientHolds(c)
    ensures Ordered(capacity, Goto(b, t, c).(mutex := Free))
  {}

  lemma LockKeepsOrdered(capacity: nat, b: Bus, t: Thread)
    requires Ordered(capacity, b)
    ensures Ordered(capacity, Lock(b, t))
  {}

  lemma NotifyKeepsOrdered(capacity: nat, b: Bus)
    requires Ordered(capacity, b)
    ensures Ordered(capacity, b.(worker := NotifiedWorker(b.worker)))
    ensures Ordered(capacity, b.(clients := NotifiedWaiters(b.clients)))
  {
    NotifyingKeepsHolders(b.clients);
  }

  /** A push by the thread that holds the mutex. */
  lemma PushKeepsOrdered(capacity: nat, b: Bus, t: Thread, msg: Msg)
    requires Ordered(capacity, b) && ClientHolds(At(b, t)) && |b.queue| < capacity
    ensures Ordered(capacity, Push(b, msg))
  {
    assert b.wire + Unsent(Push(b, msg)) == b.wire + Unsent(b) + [msg];
  }

  lemma ActKeepsOrdered(capacity: nat, b: Bus, t: Thread)
    requires Ordered(capacity, b)
    ensures Ordered(capacity, Act(capacity, b, t))
  {
    hide Ordered;
    match At(b, t)
    case Pushing(m) =>
      if |b.queue| < capacity {
        PushKeepsOrdered(capacity, b, t, m);
        MoveKeepsOrdered(capacity, Push(b, m), t, Pushed);
      } else {
        MoveKeepsOrdered(capacity, b, t, Returning);
      }
    case Pushed =>
      MoveKeepsOrdered(capacity, b, t, Returning);
      NotifyKeepsOrdered(capacity, Goto(b, t, Returning));
    case Returning => ReleaseKeepsOrdered(capacity, b, t, Idle);
    case Testing =>
      MoveKeepsOrdered(capacity, b, t, Owner([]));
      ReleaseKeepsOrdered(capacity, b, t, AsleepForEmpty(false));
    case OwnerPushed(sent) =>
      MoveKeepsOrdered(capacity, b, t, Owner(sent));
      NotifyKeepsOrdered(capacity, Goto(b, t, Owner(sent)));
    case Activating =>
      MoveKeepsOrdered(capacity, b, t, Idle);
      NotifyKeepsOrdered(capacity, Goto(b, t, Idle));
    case Stopping => StoppingKeepsOrdered(capacity, b, t);
    case _ =>
  }

  lemma StoppingKeepsOrdered(capacity: nat, b: Bus, t: Thread)
    requires Ordered(capacity, b) && At(b, t).Stopping?
    ensures Ordered(capacity, Act(capacity, b, t))
  {
    hide Ordered;
    NotifyKeepsOrdered(capacity, b);
    var n := b.(clients := NotifiedWaiters(b.clients));
    NotifyKeepsOrdered(capacity, n);
    MoveKeepsOrdered(capacity, n.(worker := NotifiedWorker(n.worker)), t, Idle);
  }

  lemma OwnerPushKeepsOrdered(capacity: nat, b: Bus, t: Thread, msg: Msg)
    requires Ordered(capacity, b)
    ensures Ordered(capacity, OwnerPush(capacity, b, t, msg))
  {
    hide Ordered;
    if At(b, t).Owner? && |b.queue| < capacity {
      PushKeepsOrdered(capacity, b, t, msg);
      MoveKeepsOrdered(capacity, Push(b, msg), t, OwnerPushed(At(b, t).sent + [msg]));
    }
  }

  lemma FlagKeepsOrdered(capacity: nat, b: Bus)
    requires Ordered(capacity, b)
    ensures forall passive :: Ordered(capacity, b.(passive := passive))
    ensures Ordered(capacity, b.(running := false))
  {}

  lemma StepKeepsOrdered(capacity: nat, b: Bus, a: Action)
    requires Ordered(capacity, b)
    ensures Ordered(capacity, Step(capacity, b, a))
  {
    hide Ordered;
    match a
    case WorkerLocks => WorkerLockKeepsOrdered(capacity, b);
    case WorkerActs => WorkerActKeepsOrdered(capacity, b);
    case WorkerSends(ok) => WorkerSendKeepsOrdered(capacity, b, ok);
    case WorkerWakes => NotifyKeepsOrdered(capacity, b);
    case Send(t, m) => if At(b, t).Idle? { MoveKeepsOrdered(capacity, b, t, Sending(m)); }
    case WaitForEmpty(t) => if At(b, t).Idle? { MoveKeepsOrdered(capacity, b, t, WaitingForEmpty); }
    case Locks(t) => LockKeepsOrdered(capacity, b, t);
    case Acts(t) => ActKeepsOrdered(capacity, b, t);
    case Wakes(t) => if At(b, t).AsleepForEmpty? { MoveKeepsOrdered(capacity, b, t, AsleepForEmpty(true)); }
    case OwnerPushes(t, m) => OwnerPushKeepsOrdered(capacity, b, t, m);
    case OwnerReleases(t) => if At(b, t).Owner? { ReleaseKeepsOrdered(capacity, b, t, Idle); }
    case Activate(t) =>
      if At(b, t).Idle? {
        MoveKeepsOrdered(capacity, b, t, Activating);
        FlagKeepsOrdered(capacity, Goto(b, t, Activating));
      }
    case Stop(t) =>
      if At(b, t).Idle? {
        MoveKeepsOrdered(capacity, b, t, Stopping);
        FlagKeepsOrdered(capacity, Goto(b, t, Stopping));
      }
    case Passivate => FlagKeepsOrdered(capacity, b);
    case AutoActivate => FlagKeepsOrdered(capacity, b);
  }

  lemma {:induction false} RunKeepsOrdered(capacity: nat, b: Bus, actions: seq<Action>)
    requires Ordered(capacity, b)
    ensures Ordered(capacity, Run(capacity, b, actions))
    decreases |actions|
  {
    hide Ordered, Step;
    if actions != [] {
      RunKeepsOrdered(capacity, b, actions[..|actions| - 1]);
      StepKeepsOrdered(capacity, Run(capacity, b, actions[..|actions| - 1]), actions[|actions| - 1]);
    }
  }

  /**
   First in, first out under every interleaving of any number of threads, whatever happens to the passive
   and running flags and however writes fail: the wire and then the unsent frames are the accepted frames in
   order, the queue respects its capacity, no two threads hold the mutex, and a frame in the hands of
   writeData is the front of the queue until it is popped, so front and pop never meet an empty queue.
   */
  lemma FirstInFirstOut(capacity: nat, passive: bool, actions: seq<Action>)
    ensures var b := Run(capacity, Start(passive), actions);
      && b.wire + Unsent(b) == b.accepted
      && |b.queue| <= capacity
      && (InHand(b.worker) ==> b.queue != [] && b.queue[0] == b.worker.msg)
      && (b.worker.Ready? && b.running && !b.passive ==> b.queue != [])
      && (forall t, u | ClientHolds(At(b, t)) && ClientHolds(At(b, u)) :: t == u)
      && (forall t | ClientHolds(At(b, t)) :: !WorkerHolds(b.worker))
  {
    hide Run;
    RunKeepsOrdered(capacity, Start(passive), actions);
  }
}
