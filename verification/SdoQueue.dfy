/**
 The stop-and-wait SDO queue of a CANopen device, as a state that its operations transform.

 Every submission since the last clear has a ticket: its position in `submitted`. `log` holds the
 tickets handed to the bus since the last clear, so a repeated ticket is a retransmission.
 The window of an operation is what other threads and the callback submit while the operation has
 released the queue mutex; other parties only append to the queue during a window.
 */
module SdoQueue {
  import opened Words
  import opened CanMsgs
  import opened SdoMsgs

  datatype Limits = Limits(maxTimeout: Uint32, maxSent: Uint32)

  datatype Client = Client(
    queue: seq<SdoMsg>,
    timeouts: Uint32,
    sent: Uint32,
    bus: seq<SdoMsg>,
    submitted: seq<SdoMsg>,
    log: seq<nat>)

  const EMPTY := Client([], 0, 0, [], [], [])

  predicate Aligned(c: Client) {
    |c.queue| <= |c.submitted|
  }

  /** The ticket at the front of the queue. */
  function Head(c: Client): nat
    requires Aligned(c)
  {
    |c.submitted| - |c.queue|
  }

  /** How many tickets have been handed to the bus at least once, when no operation is in progress. */
  function Started(c: Client): nat
    requires Aligned(c)
  {
    if c.queue == [] then |c.submitted| else Head(c) + 1
  }

  function Max(a: int, b: int): int { if a < b then b else a }

  // ---------------------------------------------------------------- operations

  function Transmit(c: Client): Client
    requires Aligned(c) && c.queue != []
  {
    c.(bus := c.bus + [c.queue[0]], log := c.log + [Head(c)])
  }

  function Submit(c: Client, m: SdoMsg): (r: Client)
    requires Aligned(c)
    ensures Aligned(r)
  {
    var p := c.(queue := c.queue + [m], submitted := c.submitted + [m]);
    if |p.queue| == 1 then
      var t := Transmit(p.(timeouts := 0, sent := 0));
      if m.requiresAnswer then t else t.(queue := [])
    else p
  }

  function SubmitAll(c: Client, w: seq<SdoMsg>): (r: Client)
    requires Aligned(c)
    ensures Aligned(r)
    decreases |w|
  {
    if w == [] then c else SubmitAll(Submit(c, w[0]), w[1..])
  }

  /** The loop of `sendNextSdo`. */
  function Flush(c: Client): (r: Client)
    requires Aligned(c)
    ensures Aligned(r)
    decreases |c.queue|
  {
    if c.queue == [] then c
    else if c.queue[0].requiresAnswer then Transmit(c)
    else Flush(Transmit(c).(queue := c.queue[1..]))
  }

  function SendNext(c: Client): (r: Client)
    requires Aligned(c) && c.queue != []
    ensures Aligned(r)
  {
    Flush(c.(timeouts := 0, sent := 0, queue := c.queue[1..]))
  }

  /** The callback's window, then `sendNextSdo`. */
  function Retire(c: Client, window: seq<SdoMsg>): (r: Client)
    requires Aligned(c) && c.queue != []
    ensures Aligned(r)
  {
    SubmitAllGrows(c, window);
    SendNext(SubmitAll(c, window))
  }

  /** Whether `checkSdoTimeout` gives up on the head now. */
  predicate GivesUp(limits: Limits, c: Client) {
    limits.maxTimeout != 0 && c.queue != [] && c.timeouts > limits.maxTimeout && c.sent > limits.maxSent
  }

  function Check(limits: Limits, c: Client, window: seq<SdoMsg>): (r: Client)
    requires Aligned(c)
    ensures Aligned(r)
  {
    if limits.maxTimeout == 0 || c.queue == [] then c
    else
      var ticked := c.(timeouts := Increment(c.timeouts));
      if c.timeouts <= limits.maxTimeout then ticked
      else if c.sent > limits.maxSent then Retire(ticked, window)
      else Transmit(ticked.(sent := Increment(c.sent)))
  }

  /** Read responses and error responses run a callback with the mutex released; confirmations do not. */
  predicate OpensWindow(f: Frame)
    requires f.length >= 4
  {
    IsReadResponse(f) || Command(f) == 0x80
  }

  predicate IsReadResponse(f: Frame)
    requires f.length >= 4
  {
    Command(f) == 0x42 || Command(f) == 0x43 || Command(f) == 0x4B || Command(f) == 0x4F
  }

  predicate Matches(c: Client, f: Frame)
    requires Fifo(c) && f.length >= 4
  {
    c.queue != [] && Target(c.queue[0].frame) == Target(f)
  }

  function Answer(c: Client, f: Frame, window: seq<SdoMsg>): (r: Client)
    requires Fifo(c) && f.length >= 4
    ensures Aligned(r)
  {
    if Matches(c, f) then Retire(c, if OpensWindow(f) then window else []) else c
  }

  function Clear(c: Client): Client {
    c.(queue := [], submitted := [], log := [])
  }

  // ---------------------------------------------------------------- the queue invariant

  predicate AllWellFormed(s: seq<SdoMsg>) {
    forall i | 0 <= i < |s| :: WellFormed(s[i])
  }

  predicate NoneRequiresAnswer(s: seq<SdoMsg>) {
    forall i | 0 <= i < |s| :: !s[i].requiresAnswer
  }

  /** Tickets go out in order, and only one that waits for an answer goes out again, before its successor. */
  ghost predicate Orderly(log: seq<nat>, submitted: seq<SdoMsg>) {
    && (forall i | 0 <= i < |log| :: log[i] < |submitted|)
    && (log != [] ==> log[0] == 0)
    && (forall i | 0 < i < |log| ::
          log[i] == log[i - 1] + 1 || (log[i] == log[i - 1] && submitted[log[i]].requiresAnswer))
  }

  /** The log has started the first `started` tickets, and the bus was last handed what the log names. */
  ghost predicate LogAgrees(bus: seq<SdoMsg>, log: seq<nat>, submitted: seq<SdoMsg>, started: nat) {
    && Orderly(log, submitted)
    && started <= |submitted|
    && (if log == [] then started == 0 else log[|log| - 1] == started - 1)
    && |log| <= |bus|
    && (forall i | 0 <= i < |log| :: log[i] < |submitted| && bus[|bus| - |log| + i] == submitted[log[i]])
  }

  /** What holds whenever no operation is in progress. */
  ghost predicate Fifo(c: Client) {
    && Aligned(c)
    && AllWellFormed(c.submitted)
    && c.queue == c.submitted[Head(c)..]
    && (c.queue != [] ==> c.queue[0].requiresAnswer)
    && LogAgrees(c.bus, c.log, c.submitted, Started(c))
  }

  // ---------------------------------------------------------------- windows and flushing

  /** Submissions on a nonempty queue only append: nothing is sent, and the head keeps its place. */
  lemma {:induction false} SubmitAllGrows(c: Client, w: seq<SdoMsg>)
    requires Aligned(c) && c.queue != []
    ensures SubmitAll(c, w) == c.(queue := c.queue + w, submitted := c.submitted + w)
    decreases |w|
  {
    if w == [] {
      assert c.queue + w == c.queue && c.submitted + w == c.submitted;
    } else {
      SubmitAllGrows(Submit(c, w[0]), w[1..]);
      assert c.queue + w == c.queue + [w[0]] + w[1..];
      assert c.submitted + w == c.submitted + [w[0]] + w[1..];
    }
  }

  /** The number of messages at the front that need no answer. */
  function NmtRun(q: seq<SdoMsg>): (n: nat)
    ensures n <= |q|
  {
    if q == [] || q[0].requiresAnswer then 0 else 1 + NmtRun(q[1..])
  }

  /** How many messages of `q` go out when its first one becomes the front of the queue. */
  function Sendable(q: seq<SdoMsg>): (n: nat)
    ensures n <= |q|
  {
    if NmtRun(q) < |q| then NmtRun(q) + 1 else NmtRun(q)
  }

  lemma {:induction false} NmtRunMeaning(q: seq<SdoMsg>)
    ensures NoneRequiresAnswer(q[..NmtRun(q)])
    ensures NmtRun(q) < |q| ==> q[NmtRun(q)].requiresAnswer
  {
    if q != [] && !q[0].requiresAnswer {
      NmtRunMeaning(q[1..]);
      assert q[..NmtRun(q)] == [q[0]] + q[1..][..NmtRun(q[1..])];
    }
  }

  lemma {:induction false} FlushClosedForm(c: Client)
    requires Aligned(c)
    ensures var r := Flush(c);
      && r.queue == c.queue[NmtRun(c.queue)..]
      && r.bus == c.bus + c.queue[..Sendable(c.queue)]
      && r.submitted == c.submitted
      && r.timeouts == c.timeouts && r.sent == c.sent
    decreases |c.queue|
  {
    var q, n := c.queue, Sendable(c.queue);
    if q == [] {
      assert c.bus + q[..n] == c.bus;
    } else if q[0].requiresAnswer {
      assert q[..n] == [q[0]];
    } else {
      var d := Transmit(c).(queue := q[1..]);
      FlushClosedForm(d);
      assert n == 1 + Sendable(q[1..]) && NmtRun(q) == 1 + NmtRun(q[1..]);
      hide NmtRun, Sendable;
      assert q[NmtRun(q)..] == q[1..][NmtRun(q[1..])..];
      assert c.bus + q[..n] == d.bus + q[1..][..n - 1];
    }
  }

  /**
   Whatever is submitted during the window, sendNextSdo retires exactly the message that was at the
   front when the mutex was released. The messages behind it, then the window's in their order, follow:
   those that need no answer go out and leave until one that waits for an answer goes out and stays.
   */
  lemma RetiresExactlyTheHead(c: Client, w: seq<SdoMsg>)
    requires Aligned(c) && c.queue != []
    ensures SubmitAll(c, w).queue != [] && SubmitAll(c, w).queue[0] == c.queue[0]
    ensures var r, behind := Retire(c, w), c.queue[1..] + w;
      && r.timeouts == 0 && r.sent == 0
      && r.submitted == c.submitted + w
      && r.queue == behind[NmtRun(behind)..]
      && r.bus == c.bus + behind[..Sendable(behind)]
      && Head(r) == Head(c) + 1 + NmtRun(behind)
  {
    SubmitAllGrows(c, w);
    hide SubmitAll, Flush, NmtRun, Sendable, Transmit;
    var behind := c.queue[1..] + w;
    var d := c.(timeouts := 0, sent := 0, queue := behind, submitted := c.submitted + w);
    assert SendNext(SubmitAll(c, w)) == Flush(d) by { assert (c.queue + w)[1..] == behind; }
    FlushClosedForm(d);
  }

  // ---------------------------------------------------------------- what each operation does

  /** A submission goes out at once if nothing is queued, and only then; a request stays until it is retired. */
  lemma SubmitExactly(c: Client, m: SdoMsg)
    requires Aligned(c)
    ensures var r := Submit(c, m);
      && r.submitted == c.submitted + [m]
      && (if c.queue == [] then
            && r.bus == c.bus + [m] && r.queue == (if m.requiresAnswer then [m] else [])
            && r.timeouts == 0 && r.sent == 0 && r.log == c.log + [|c.submitted|]
          else r == c.(queue := c.queue + [m], submitted := c.submitted + [m]))
  {
    assert c.queue == [] ==> c.queue + [m] == [m];
  }

  /** A disabled or idle check does nothing. */
  lemma IdleCheck(limits: Limits, c: Client, window: seq<SdoMsg>)
    requires Aligned(c) && (limits.maxTimeout == 0 || c.queue == [])
    ensures Check(limits, c, window) == c
  {}

  /** The command of an answer that carries the data it was asked for; section 7.2.4 of CiA 301. */
  function ExpeditedUpload(unusedBytes: nat, sized: bool): nat {
    0x40 + 4 * unusedBytes + 2 + (if sized then 1 else 0)
  }

  /** Read responses are those with data of unspecified size, or of four, two or one bytes. */
  lemma ReadResponseCodes(f: Frame)
    requires f.length >= 4
    ensures IsReadResponse(f) <==>
      Command(f) in {ExpeditedUpload(0, false), ExpeditedUpload(0, true), ExpeditedUpload(2, true),
                     ExpeditedUpload(3, true)}
  {}

  /** The answer is about the object of the request at the front. */
  predicate AnswersHead(c: Client, f: Frame)
    requires Fifo(c) && f.length >= 4
  {
    c.queue != [] && Index(c.queue[0].frame) == Index(f) && SubIndex(c.queue[0].frame) == SubIndex(f)
  }

  /** What is submitted while the answer is handled; confirmations of writes run no callback. */
  function GivenByAnswer(f: Frame, window: seq<SdoMsg>): seq<SdoMsg>
    requires f.length >= 4
  {
    if Command(f) in {0x42, 0x43, 0x4B, 0x4F, 0x80} then window else []
  }

  /**
   Every answer for the object of the head retires the head, be it a read response, a confirmation or an
   error: what follows moves up as after any retirement. Any other answer changes nothing.
   */
  lemma AnswerExactly(c: Client, f: Frame, window: seq<SdoMsg>)
    requires Fifo(c) && f.length >= 4
    ensures var r := Answer(c, f, window);
      if AnswersHead(c, f) then
        var behind := c.queue[1..] + GivenByAnswer(f, window);
        && Head(r) == Head(c) + 1 + NmtRun(behind)
        && r.timeouts == 0 && r.sent == 0
        && r.submitted == c.submitted + GivenByAnswer(f, window)
        && r.queue == behind[NmtRun(behind)..]
        && r.bus == c.bus + behind[..Sendable(behind)]
      else r == c
  {
    hide LogAgrees, AllWellFormed, Retire;
    if AnswersHead(c, f) { RetiresExactlyTheHead(c, GivenByAnswer(f, window)); }
  }

  lemma ClearExactly(c: Client)
    ensures Clear(c) ==
      Client(queue := [], submitted := [], log := [], timeouts := c.timeouts, sent := c.sent, bus := c.bus)
  {}

  // ---------------------------------------------------------------- every operation keeps the invariant

  lemma ClearKeepsFifo(c: Client)
    ensures Fifo(Clear(c))
  {}

  lemma LogGrows(bus: seq<SdoMsg>, log: seq<nat>, submitted: seq<SdoMsg>, started: nat, m: SdoMsg)
    requires LogAgrees(bus, log, submitted, started)
    ensures LogAgrees(bus, log, submitted + [m], started)
  {}

  lemma LogAppends(bus: seq<SdoMsg>, log: seq<nat>, submitted: seq<SdoMsg>, k: nat)
    requires LogAgrees(bus, log, submitted, k) && k < |submitted|
    ensures LogAgrees(bus + [submitted[k]], log + [k], submitted, k + 1)
  {}

  lemma LogRepeats(bus: seq<SdoMsg>, log: seq<nat>, submitted: seq<SdoMsg>, k: nat)
    requires LogAgrees(bus, log, submitted, k + 1) && submitted[k].requiresAnswer
    ensures LogAgrees(bus + [submitted[k]], log + [k], submitted, k + 1)
  {}

  /** The state inside the loop of `sendNextSdo`: the front has not been sent yet. */
  ghost predicate Sending(c: Client) {
    && Aligned(c)
    && AllWellFormed(c.submitted)
    && c.queue == c.submitted[Head(c)..]
    && LogAgrees(c.bus, c.log, c.submitted, Head(c))
  }

  lemma FrontStays(c: Client)
    requires Sending(c) && c.queue != [] && c.queue[0].requiresAnswer
    ensures Fifo(Transmit(c))
  {
    LogAppends(c.bus, c.log, c.submitted, Head(c));
  }

  lemma FrontLeaves(c: Client)
    requires Sending(c) && c.queue != []
    ensures Sending(Transmit(c).(queue := c.queue[1..]))
  {
    LogAppends(c.bus, c.log, c.submitted, Head(c));
    assert c.queue[1..] == c.submitted[Head(c) + 1..];
  }

  lemma {:induction false} FlushRestoresFifo(c: Client)
    requires Sending(c)
    ensures Fifo(Flush(c))
    decreases |c.queue|
  {
    if c.queue == [] {
    } else if c.queue[0].requiresAnswer {
      FrontStays(c);
    } else {
      FrontLeaves(c);
      FlushRestoresFifo(Transmit(c).(queue := c.queue[1..]));
    }
  }

  lemma SendNextKeepsFifo(c: Client)
    requires Fifo(c) && c.queue != []
    ensures Fifo(SendNext(c))
  {
    var d := c.(timeouts := 0, sent := 0, queue := c.queue[1..]);
    assert d.queue == d.submitted[Head(d)..];
    FlushRestoresFifo(d);
  }

  lemma SubmitKeepsFifo(c: Client, m: SdoMsg)
    requires Fifo(c) && WellFormed(m)
    ensures Fifo(Submit(c, m))
  {
    if c.queue == [] { SubmitToEmpty(c, m); } else { SubmitBehind(c, m); }
  }

  /** A submission to an empty queue, before anything is sent. */
  function Queued(c: Client, m: SdoMsg): Client {
    c.(queue := [m], submitted := c.submitted + [m], timeouts := 0, sent := 0)
  }

  lemma SubmitSendsAtOnce(c: Client, m: SdoMsg)
    requires Aligned(c) && c.queue == []
    ensures Submit(c, m) == Flush(Queued(c, m))
  {
    assert c.queue + [m] == [m];
  }

  lemma QueuedIsSending(c: Client, m: SdoMsg)
    requires Fifo(c) && WellFormed(m) && c.queue == []
    ensures Sending(Queued(c, m))
  {
    hide LogAgrees;
    LogGrows(c.bus, c.log, c.submitted, |c.submitted|, m);
  }

  lemma SubmitToEmpty(c: Client, m: SdoMsg)
    requires Fifo(c) && WellFormed(m) && c.queue == []
    ensures Fifo(Submit(c, m))
  {
    QueuedIsSending(c, m);
    SubmitSendsAtOnce(c, m);
    hide *;
    FlushRestoresFifo(Queued(c, m));
  }

  lemma SubmitBehind(c: Client, m: SdoMsg)
    requires Fifo(c) && WellFormed(m) && c.queue != []
    ensures Fifo(Submit(c, m))
  {
    LogGrows(c.bus, c.log, c.submitted, Started(c), m);
    var r := Submit(c, m);
    assert r == c.(queue := c.queue + [m], submitted := c.submitted + [m]);
    assert Head(r) == Head(c);
    assert r.queue == r.submitted[Head(r)..];
  }

  lemma {:induction false} SubmitAllKeepsFifo(c: Client, w: seq<SdoMsg>)
    requires Fifo(c) && AllWellFormed(w)
    ensures Fifo(SubmitAll(c, w))
    decreases |w|
  {
    if w != [] {
      SubmitKeepsFifo(c, w[0]);
      SubmitAllKeepsFifo(Submit(c, w[0]), w[1..]);
    }
  }

  lemma ResendKeepsFifo(c: Client, timeouts: Uint32, sent: Uint32)
    requires Fifo(c) && c.queue != []
    ensures Fifo(Transmit(c.(timeouts := timeouts, sent := sent)))
  {
    hide LogAgrees;
    LogRepeats(c.bus, c.log, c.submitted, Head(c));
  }

  lemma RetireKeepsFifo(c: Client, window: seq<SdoMsg>)
    requires Fifo(c) && c.queue != [] && AllWellFormed(window)
    ensures Fifo(Retire(c, window))
  {
    SubmitAllGrows(c, window);
    SubmitAllKeepsFifo(c, window);
    SendNextKeepsFifo(SubmitAll(c, window));
  }

  /** The counters play no part in the invariant. */
  lemma CountersKeepFifo(c: Client, timeouts: Uint32)
    requires Fifo(c)
    ensures Fifo(c.(timeouts := timeouts))
  {}

  lemma CheckKeepsFifo(limits: Limits, c: Client, window: seq<SdoMsg>)
    requires Fifo(c) && AllWellFormed(window)
    ensures Fifo(Check(limits, c, window))
  {
    hide LogAgrees, Retire;
    var ticked := c.(timeouts := Increment(c.timeouts));
    CountersKeepFifo(c, Increment(c.timeouts));
    if GivesUp(limits, c) {
      RetireKeepsFifo(ticked, window);
    } else if c.queue != [] {
      ResendKeepsFifo(c, Increment(c.timeouts), Increment(c.sent));
    }
  }

  lemma AnswerKeepsFifo(c: Client, f: Frame, window: seq<SdoMsg>)
    requires Fifo(c) && f.length >= 4 && AllWellFormed(window)
    ensures Fifo(Answer(c, f, window))
  {
    if Matches(c, f) { RetireKeepsFifo(c, if OpensWindow(f) then window else []); }
  }

  /** An answer that nobody waits for is ignored. */
  lemma UnmatchedChangesNothing(c: Client, f: Frame, window: seq<SdoMsg>)
    requires Fifo(c) && f.length >= 4 && !Matches(c, f)
    ensures Answer(c, f, window) == c
  {}

  // ---------------------------------------------------------------- runs

  datatype Event =
    | Submitted(m: SdoMsg)
    | Checked(window: seq<SdoMsg>)
    | Answered(f: Frame, window: seq<SdoMsg>)
    | Cleared

  predicate Legal(e: Event) {
    match e
    case Submitted(m) => WellFormed(m)
    case Checked(w) => AllWellFormed(w)
    case Answered(f, w) => f.length >= 4 && AllWellFormed(w)
    case Cleared => true
  }

  predicate AllLegal(es: seq<Event>) {
    forall i | 0 <= i < |es| :: Legal(es[i])
  }

  function Step(limits: Limits, c: Client, e: Event): (r: Client)
    requires Fifo(c) && Legal(e)
    ensures Fifo(r)
  {
    match e
    case Submitted(m) => SubmitKeepsFifo(c, m); Submit(c, m)
    case Checked(w) => CheckKeepsFifo(limits, c, w); Check(limits, c, w)
    case Answered(f, w) => AnswerKeepsFifo(c, f, w); Answer(c, f, w)
    case Cleared => ClearKeepsFifo(c); Clear(c)
  }

  function Run(limits: Limits, c: Client, es: seq<Event>): (r: Client)
    requires Fifo(c) && AllLegal(es)
    ensures Fifo(r)
    decreases |es|
  {
    if es == [] then c else Step(limits, Run(limits, c, es[..|es| - 1]), es[|es| - 1])
  }

  lemma RunOneMore(limits: Limits, c: Client, es: seq<Event>, e: Event)
    requires Fifo(c) && AllLegal(es) && Legal(e)
    ensures AllLegal(es + [e])
    ensures Run(limits, c, es + [e]) == Step(limits, Run(limits, c, es), e)
  {
    assert (es + [e])[..|es|] == es;
  }

  lemma {:induction false} RunConcatenates(limits: Limits, c: Client, p: seq<Event>, q: seq<Event>)
    requires Fifo(c) && AllLegal(p) && AllLegal(q)
    ensures AllLegal(p + q)
    ensures Run(limits, c, p + q) == Run(limits, Run(limits, c, p), q)
    decreases |q|
  {
    hide Fifo, Step, Legal;
    if q == [] {
      assert p + q == p;
    } else {
      var n := |q| - 1;
      RunConcatenates(limits, c, p, q[..n]);
      RunOneMore(limits, c, p + q[..n], q[n]);
      assert p + q == p + q[..n] + [q[n]];
    }
  }

  /** What an event submits to the queue. */
  function Given(limits: Limits, c: Client, e: Event): seq<SdoMsg>
    requires Fifo(c) && Legal(e)
  {
    match e
    case Submitted(m) => [m]
    case Checked(w) =>
      if limits.maxTimeout != 0 && c.queue != [] && c.timeouts > limits.maxTimeout && c.sent > limits.maxSent then w
      else []
    case Answered(f, w) => if AnswersHead(c, f) then GivenByAnswer(f, w) else []
    case Cleared => []
  }

  /** All that the history submitted since its last clear. */
  function GivenSinceClear(limits: Limits, c: Client, es: seq<Event>): seq<SdoMsg>
    requires Fifo(c) && AllLegal(es)
    decreases |es|
  {
    if es == [] then c.submitted
    else
      var before, e := es[..|es| - 1], es[|es| - 1];
      if e.Cleared? then [] else GivenSinceClear(limits, c, before) + Given(limits, Run(limits, c, before), e)
  }

  /** A check submits what its callback does, if it gives up, and takes nothing back from the bus. */
  lemma CheckSubmits(limits: Limits, c: Client, window: seq<SdoMsg>)
    requires Fifo(c) && AllWellFormed(window)
    ensures var r := Check(limits, c, window);
      c.bus <= r.bus && r.submitted == c.submitted + Given(limits, c, Checked(window))
  {
    if GivesUp(limits, c) { RetiresExactlyTheHead(c.(timeouts := Increment(c.timeouts)), window); }
    hide Retire, LogAgrees, NmtRun, Sendable;
  }

  lemma StepSubmits(limits: Limits, c: Client, e: Event)
    requires Fifo(c) && Legal(e)
    ensures Step(limits, c, e).submitted == if e.Cleared? then [] else c.submitted + Given(limits, c, e)
  {
    hide Answer, Check, Submit, LogAgrees, NmtRun, Sendable;
    match e
    case Submitted(m) => SubmitExactly(c, m);
    case Checked(w) => CheckSubmits(limits, c, w);
    case Answered(f, w) => AnswerExactly(c, f, w);
    case Cleared =>
  }

  /** The ghost history is what the events submitted. */
  lemma {:induction false} SubmittedIsGiven(limits: Limits, c: Client, es: seq<Event>)
    requires Fifo(c) && AllLegal(es)
    ensures Run(limits, c, es).submitted == GivenSinceClear(limits, c, es)
    decreases |es|
  {
    hide Step, Given, Fifo, Legal;
    if es != [] {
      SubmittedIsGiven(limits, c, es[..|es| - 1]);
      StepSubmits(limits, Run(limits, c, es[..|es| - 1]), es[|es| - 1]);
    }
  }

  /** Nothing that was handed to the bus is taken back. */
  lemma BusOnlyGrows(limits: Limits, c: Client, e: Event)
    requires Fifo(c) && Legal(e)
    ensures c.bus <= Step(limits, c, e).bus
  {
    hide Answer, Check, Submit, LogAgrees, NmtRun, Sendable;
    match e
    case Submitted(m) => SubmitExactly(c, m);
    case Checked(w) => CheckSubmits(limits, c, w);
    case Answered(f, w) => AnswerExactly(c, f, w);
    case Cleared =>
  }

  // ---------------------------------------------------------------- first in, first out

  /** The messages handed to the bus that were not retransmissions, in the order the bus got them. */
  function FirstTransmissions(bus: seq<SdoMsg>, log: seq<nat>): seq<SdoMsg>
    requires |log| <= |bus|
    decreases |log|
  {
    if log == [] then []
    else
      var n := |log| - 1;
      var before := FirstTransmissions(bus[..|bus| - 1], log[..n]);
      if n > 0 && log[n] == log[n - 1] then before else before + [bus[|bus| - 1]]
  }

  lemma LogShrinks(bus: seq<SdoMsg>, log: seq<nat>, submitted: seq<SdoMsg>, k: nat)
    requires LogAgrees(bus, log, submitted, k) && log != []
    ensures var n := |log| - 1;
      && LogAgrees(bus[..|bus| - 1], log[..n], submitted, if n == 0 then 0 else log[n - 1] + 1)
      && bus[|bus| - 1] == submitted[k - 1]
      && (n == 0 ==> k == 1)
      && (n > 0 ==> k == log[n - 1] + (if log[n] == log[n - 1] then 1 else 2))
  {
    var n := |log| - 1;
    assert bus[|bus| - |log| + n] == submitted[log[n]];
  }

  lemma {:induction false} FirstTransmissionsInOrder(bus: seq<SdoMsg>, log: seq<nat>, submitted: seq<SdoMsg>, k: nat)
    requires LogAgrees(bus, log, submitted, k)
    ensures FirstTransmissions(bus, log) == submitted[..k]
    decreases |log|
  {
    if log != [] {
      var n := |log| - 1;
      var j := if n == 0 then 0 else log[n - 1] + 1;
      LogShrinks(bus, log, submitted, k);
      FirstTransmissionsInOrder(bus[..|bus| - 1], log[..n], submitted, j);
      hide LogAgrees, Orderly;
      if j < k { assert submitted[..k] == submitted[..j] + [submitted[j]]; }
    }
  }

  /** Started submissions reached the bus first in, first out; the others wait behind the head. */
  ghost predicate InOrder(c: Client)
    requires Fifo(c)
  {
    c.submitted == FirstTransmissions(c.bus, c.log) + (if c.queue == [] then [] else c.queue[1..])
  }

  lemma FifoIsInOrder(c: Client)
    requires Fifo(c)
    ensures InOrder(c)
  {
    FirstTransmissionsInOrder(c.bus, c.log, c.submitted, Started(c));
    hide LogAgrees, FirstTransmissions, AllWellFormed;
    if c.queue != [] {
      assert c.queue[1..] == c.submitted[Head(c) + 1..];
    }
  }

  /** Between two transmissions of one submission the bus is given nothing else of this device. */
  ghost predicate RepeatsAreContiguous(c: Client)
    requires Fifo(c)
  {
    forall i, k, j | 0 <= i < k <= j < |c.log| && c.log[i] == c.log[j] ::
      c.log[k] == c.log[i] && c.submitted[c.log[i]].requiresAnswer
  }

  /** Of the submissions that have been transmitted, only the head of the queue has not been retired. */
  ghost predicate OneOutstanding(c: Client)
    requires Fifo(c)
  {
    && (c.queue != [] ==>
          && c.queue[0].requiresAnswer && c.queue[0].frame.length == 8
          && c.bus != [] && c.bus[|c.bus| - 1] == c.queue[0])
    && (forall i | 0 <= i < |c.log| && c.log[i] >= Head(c) :: c.queue != [] && c.log[i] == Head(c))
  }

  lemma {:induction false} LogMonotone(log: seq<nat>, submitted: seq<SdoMsg>, i: nat, j: nat)
    requires Orderly(log, submitted) && i <= j < |log|
    ensures log[i] <= log[j]
    ensures i < j && log[i] == log[j] ==> submitted[log[j]].requiresAnswer
    decreases j
  {
    if i < j { LogMonotone(log, submitted, i, j - 1); }
  }

  lemma FifoRepeatsContiguously(c: Client)
    requires Fifo(c)
    ensures RepeatsAreContiguous(c)
  {
    forall i, k, j | 0 <= i < k <= j < |c.log| && c.log[i] == c.log[j]
      ensures c.log[k] == c.log[i] && c.submitted[c.log[i]].requiresAnswer
    {
      LogMonotone(c.log, c.submitted, i, k);
      LogMonotone(c.log, c.submitted, k, j);
    }
  }

  lemma FifoHasOneOutstanding(c: Client)
    requires Fifo(c)
    ensures OneOutstanding(c)
  {
    var n := |c.log|;
    if c.queue != [] {
      assert c.submitted[Head(c)] == c.queue[0];
      assert c.bus[|c.bus| - n + (n - 1)] == c.submitted[c.log[n - 1]];
    }
    forall i | 0 <= i < n && c.log[i] >= Head(c) ensures c.queue != [] && c.log[i] == Head(c) {
      LogMonotone(c.log, c.submitted, i, n - 1);
    }
  }

  /** The queue's contract, in every state that any run of any legal operations reaches. */
  lemma StopAndWait(limits: Limits, es: seq<Event>)
    requires AllLegal(es)
    ensures Fifo(EMPTY)
    ensures Run(limits, EMPTY, es).submitted == GivenSinceClear(limits, EMPTY, es)
    ensures InOrder(Run(limits, EMPTY, es))
    ensures RepeatsAreContiguous(Run(limits, EMPTY, es))
    ensures OneOutstanding(Run(limits, EMPTY, es))
  {
    hide Run, InOrder, RepeatsAreContiguous, OneOutstanding, GivenSinceClear;
    SubmittedIsGiven(limits, EMPTY, es);
    FifoIsInOrder(Run(limits, EMPTY, es));
    FifoRepeatsContiguously(Run(limits, EMPTY, es));
    FifoHasOneOutstanding(Run(limits, EMPTY, es));
  }
}
