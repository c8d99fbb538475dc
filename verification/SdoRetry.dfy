/** How long an unanswered request stays: the retry schedule and the time a queue takes to drain. */
module SdoRetry {
  import opened Words
  import opened CanMsgs
  import opened SdoMsgs
  import opened SdoQueue

  /** The number of checks an unanswered request takes from becoming the head to being retired. */
  function Period(limits: Limits): nat {
    limits.maxTimeout + limits.maxSent + 3
  }

  /** The counters are wide enough to count one period without wrapping. */
  predicate Fits(limits: Limits) {
    Period(limits) <= COUNTER_MODULUS
  }

  /** The resend counter is a function of the timeout counter. */
  predicate OnSchedule(limits: Limits, c: Client) {
    && c.timeouts < Period(limits)
    && c.sent == Max(0, c.timeouts - (limits.maxTimeout + 1))
  }

  lemma CheckKeepsSchedule(limits: Limits, c: Client, window: seq<SdoMsg>)
    requires Aligned(c) && Fits(limits) && OnSchedule(limits, c)
    ensures OnSchedule(limits, Check(limits, c, window))
  {
    if GivesUp(limits, c) { RetiresExactlyTheHead(c.(timeouts := Increment(c.timeouts)), window); }
  }

  lemma AnswerKeepsSchedule(limits: Limits, c: Client, f: Frame, window: seq<SdoMsg>)
    requires Fifo(c) && f.length >= 4 && OnSchedule(limits, c)
    ensures OnSchedule(limits, Answer(c, f, window))
  {
    if Matches(c, f) { RetiresExactlyTheHead(c, if OpensWindow(f) then window else []); }
  }

  lemma StepKeepsSchedule(limits: Limits, c: Client, e: Event)
    requires Fifo(c) && Legal(e) && Fits(limits) && OnSchedule(limits, c)
    ensures OnSchedule(limits, Step(limits, c, e))
  {
    hide LogAgrees, AllWellFormed, Check, Answer, Flush;
    match e
    case Submitted(m) =>
    case Checked(w) => CheckKeepsSchedule(limits, c, w);
    case Answered(f, w) => AnswerKeepsSchedule(limits, c, f, w);
    case Cleared =>
  }

  /** In every reachable state the two counters are on the schedule. */
  lemma {:induction false} RunKeepsSchedule(limits: Limits, c: Client, es: seq<Event>)
    requires Fifo(c) && AllLegal(es) && Fits(limits) && OnSchedule(limits, c)
    ensures OnSchedule(limits, Run(limits, c, es))
    decreases |es|
  {
    if es != [] {
      RunKeepsSchedule(limits, c, es[..|es| - 1]);
      StepKeepsSchedule(limits, Run(limits, c, es[..|es| - 1]), es[|es| - 1]);
    }
  }

  // ---------------------------------------------------------------- the retry schedule

  function Checks(es: seq<Event>): (n: nat)
    ensures n <= |es|
    decreases |es|
  {
    if es == [] then 0 else Checks(es[..|es| - 1]) + (if es[|es| - 1].Checked? then 1 else 0)
  }

  /** Nothing in `es` answers the request `f`, and the queue is not cleared. */
  predicate Unanswered(f: Frame, es: seq<Event>)
    requires AllLegal(es) && f.length >= 4
  {
    forall i | 0 <= i < |es| :: !es[i].Cleared? && (es[i].Answered? ==> Target(es[i].f) != Target(f))
  }

  /** How often the ticket at the head of `c` has been handed to the bus in `r`. */
  function Transmissions(c: Client, r: Client): nat
    requires Aligned(c)
  {
    multiset(r.log)[Head(c)]
  }

  /** The head of `c` is still the head of `r`. */
  predicate SameHead(c: Client, r: Client)
    requires Aligned(c) && Aligned(r)
  {
    c.queue != [] && r.queue != [] && r.queue[0] == c.queue[0] && Head(r) == Head(c)
  }

  /** A request that has just become the head: sent once, with both counters at zero. */
  predicate JustSent(c: Client)
    requires Aligned(c)
  {
    c.queue != [] && c.timeouts == 0 && c.sent == 0 && Transmissions(c, c) == 1
  }

  lemma {:induction false} FlushSendsHeadOnce(c: Client)
    requires Sending(c) && Flush(c).queue != []
    ensures var r := Flush(c);
      && Head(c) <= Head(r)
      && multiset(r.log)[Head(r)] == multiset(c.log)[Head(r)] + 1
    decreases |c.queue|
  {
    if !c.queue[0].requiresAnswer {
      FrontLeaves(c);
      FlushSendsHeadOnce(Transmit(c).(queue := c.queue[1..]));
    }
  }

  lemma {:induction false} NotYetLogged(log: seq<nat>, submitted: seq<SdoMsg>, t: nat)
    requires Orderly(log, submitted) && (log != [] ==> log[|log| - 1] < t)
    ensures multiset(log)[t] == 0
  {
    forall i | 0 <= i < |log| ensures log[i] < t { LogMonotone(log, submitted, i, |log| - 1); }
    assert t !in log;
  }

  lemma FlushedHeadIsJustSent(c: Client)
    requires Sending(c) && c.timeouts == 0 && c.sent == 0 && Flush(c).queue != []
    ensures JustSent(Flush(c))
  {
    FlushSendsHeadOnce(c);
    FlushClosedForm(c);
    NotYetLogged(c.log, c.submitted, Head(Flush(c)));
  }

  lemma SentNextIsJustSent(c: Client)
    requires Fifo(c) && c.queue != [] && SendNext(c).queue != []
    ensures JustSent(SendNext(c))
  {
    var d := c.(timeouts := 0, sent := 0, queue := c.queue[1..]);
    assert d.queue == d.submitted[Head(d)..];
    FlushedHeadIsJustSent(d);
  }

  lemma SubmittedHeadIsJustSent(c: Client, m: SdoMsg)
    requires Fifo(c) && WellFormed(m) && c.queue == [] && m.requiresAnswer
    ensures JustSent(Submit(c, m))
  {
    QueuedIsSending(c, m);
    SubmitSendsAtOnce(c, m);
    FlushedHeadIsJustSent(Queued(c, m));
  }

  /** Every request starts its period afresh: whenever a step brings a new head, it has just been sent once. */
  lemma NewHeadIsJustSent(limits: Limits, c: Client, e: Event)
    requires Fifo(c) && Legal(e)
    ensures var r := Step(limits, c, e);
      r.queue != [] && (c.queue == [] || Head(r) != Head(c)) ==> JustSent(r)
  {
    hide Fifo, JustSent;
    match e
    case Submitted(m) =>
      if c.queue == [] && m.requiresAnswer { SubmittedHeadIsJustSent(c, m); }
    case Checked(w) =>
      if GivesUp(limits, c) {
        CountersKeepFifo(c, Increment(c.timeouts));
        RetirementBringsJustSent(c.(timeouts := Increment(c.timeouts)), w);
      }
    case Answered(f, w) =>
      if Matches(c, f) { RetirementBringsJustSent(c, if OpensWindow(f) then w else []); }
    case Cleared =>
  }

  lemma RetirementBringsJustSent(c: Client, w: seq<SdoMsg>)
    requires Fifo(c) && AllWellFormed(w) && c.queue != []
    ensures var r := Retire(c, w); r.queue != [] ==> JustSent(r)
  {
    SubmitAllGrows(c, w);
    SubmitAllKeepsFifo(c, w);
    if Retire(c, w).queue != [] { SentNextIsJustSent(SubmitAll(c, w)); }
  }

  /**
   A timeout check that gets in while an answer's callback runs. A check that only counts or resends does
   not change what the answer retires. A check that gives up retires the answered request itself, and the
   answer then retires its successor, which has been sent once and is unanswered, or finds nothing to pop.
   */
  lemma CheckInsideWindow(limits: Limits, c: Client, given: seq<SdoMsg>, after: seq<SdoMsg>)
    requires Fifo(c) && c.queue != [] && AllWellFormed(given) && AllWellFormed(after)
    ensures var m := Check(limits, c, given);
      if GivesUp(limits, c) then
        m.queue != [] ==> JustSent(m) && m.queue[0].requiresAnswer && Head(c) < Head(m) < Head(Retire(m, after))
      else
        && m.queue == c.queue
        && Retire(m, after).queue == Retire(c, after).queue
        && Retire(m, after).submitted == Retire(c, after).submitted
        && Retire(m, after).timeouts == Retire(c, after).timeouts
        && Retire(m, after).sent == Retire(c, after).sent
  {
    var m, ticked := Check(limits, c, given), c.(timeouts := Increment(c.timeouts));
    if GivesUp(limits, c) {
      RetiresExactlyTheHead(ticked, given);
      NewHeadIsJustSent(limits, c, Checked(given));
      CheckKeepsFifo(limits, c, given);
    }
    hide Check, JustSent, Retire, LogAgrees;
    RetiresExactlyTheHead(c, after);
    if m.queue != [] { RetiresExactlyTheHead(m, after); }
  }

  /** The timeout counter after `k` checks, for the values of `k` that a period can reach. */
  function Wrapped(k: nat): int {
    if k < COUNTER_MODULUS then k
    else if k < 2 * COUNTER_MODULUS then k - COUNTER_MODULUS
    else k - 2 * COUNTER_MODULUS
  }

  /** The counters after `k` checks of an unanswered head. */
  predicate Counted(limits: Limits, k: nat, c: Client) {
    && c.timeouts == Wrapped(k)
    && c.sent == if k < COUNTER_MODULUS then Max(0, k - (limits.maxTimeout + 1))
                 else COUNTER_MODULUS - 1 - limits.maxTimeout
  }

  lemma CheckCounts(limits: Limits, c: Client, k: nat, window: seq<SdoMsg>)
    requires Aligned(c) && c.queue != [] && limits.maxTimeout != 0
    requires Counted(limits, k, c) && k + 1 < Period(limits)
    ensures var r := Check(limits, c, window);
      && SameHead(c, r)
      && Counted(limits, k + 1, r)
      && Transmissions(c, r) == Transmissions(c, c) + r.sent - c.sent
  {}

  /** The check that ends the period retires the request, unless a counter has wrapped before it. */
  lemma LastCheck(limits: Limits, c: Client, window: seq<SdoMsg>)
    requires Aligned(c) && c.queue != [] && limits.maxTimeout != 0
    requires Counted(limits, Period(limits) - 1, c)
    ensures var r := Check(limits, c, window);
      if Fits(limits) then Head(r) > Head(c) && !SameHead(c, r) else SameHead(c, r)
  {
    if Fits(limits) { RetiresExactlyTheHead(c.(timeouts := Increment(c.timeouts)), window); }
  }

  lemma OtherEventKeepsHead(limits: Limits, c: Client, e: Event)
    requires Fifo(c) && Legal(e) && c.queue != [] && !e.Checked? && !e.Cleared?
    requires e.Answered? ==> Target(e.f) != Target(c.queue[0].frame)
    ensures var r := Step(limits, c, e);
      && SameHead(c, r) && r.timeouts == c.timeouts && r.sent == c.sent && r.log == c.log
  {}

  /** After `k` checks the head of `c` is still waiting in `r`, resent as often as the counter says. */
  predicate Waiting(limits: Limits, c: Client, k: nat, r: Client)
    requires Aligned(c) && Aligned(r)
  {
    SameHead(c, r) && Counted(limits, k, r) && Transmissions(c, r) == 1 + r.sent
  }

  lemma WaitsThroughStep(limits: Limits, c: Client, k: nat, r: Client, e: Event)
    requires Aligned(c) && Fifo(r) && Legal(e) && limits.maxTimeout != 0
    requires Waiting(limits, c, k, r) && (e.Checked? ==> k + 1 < Period(limits))
    requires !e.Cleared? && (e.Answered? ==> Target(e.f) != Target(r.queue[0].frame))
    ensures Waiting(limits, c, if e.Checked? then k + 1 else k, Step(limits, r, e))
  {
    if e.Checked? {
      CheckCounts(limits, r, k, e.window);
    } else {
      OtherEventKeepsHead(limits, r, e);
    }
  }

  /**
   While a request is unanswered and fewer than a period of checks have passed, it stays the head,
   the timeout counter has counted the checks, and every resend is the increment of the resend counter.
   */
  lemma {:induction false} RetrySchedule(limits: Limits, c: Client, es: seq<Event>)
    requires Fifo(c) && AllLegal(es) && JustSent(c) && limits.maxTimeout != 0
    requires Unanswered(c.queue[0].frame, es) && Checks(es) < Period(limits)
    ensures Waiting(limits, c, Checks(es), Run(limits, c, es))
    decreases |es|
  {
    if es == [] {
      assert Waiting(limits, c, 0, c);
    } else {
      var before, e := es[..|es| - 1], es[|es| - 1];
      RetrySchedule(limits, c, before);
      var k := Checks(before);
      WaitsThroughStep(limits, c, k, Run(limits, c, before), e);
      assert Checks(es) == if e.Checked? then k + 1 else k;
    }
  }

  /**
   The whole life of an unanswered request, whatever is submitted meanwhile and in the windows.
   On counters wide enough it is resent on the checks T+2 to T+S+2, which is S+1 resends, and
   check T+S+3 retires it. On narrower ones it outlives that check.
   */
  lemma UnansweredRequest(limits: Limits, c: Client, es: seq<Event>)
    requires Fifo(c) && AllLegal(es) && JustSent(c) && limits.maxTimeout != 0
    requires Unanswered(c.queue[0].frame, es)
    ensures Fits(limits) && Checks(es) < Period(limits) ==>
      && SameHead(c, Run(limits, c, es))
      && Transmissions(c, Run(limits, c, es)) == 1 + Max(0, Checks(es) - (limits.maxTimeout + 1))
    ensures es != [] && es[|es| - 1].Checked? && Checks(es) == Period(limits) ==>
      (SameHead(c, Run(limits, c, es)) <==> !Fits(limits))
  {
    if Checks(es) < Period(limits) {
      RetrySchedule(limits, c, es);
    } else if es != [] && es[|es| - 1].Checked? && Checks(es) == Period(limits) {
      PeriodEnds(limits, c, es);
    }
  }

  lemma PeriodEnds(limits: Limits, c: Client, es: seq<Event>)
    requires Fifo(c) && AllLegal(es) && JustSent(c) && limits.maxTimeout != 0
    requires Unanswered(c.queue[0].frame, es)
    requires es != [] && es[|es| - 1].Checked? && Checks(es) == Period(limits)
    ensures SameHead(c, Run(limits, c, es)) <==> !Fits(limits)
  {
    var before := es[..|es| - 1];
    RetrySchedule(limits, c, before);
    LastCheck(limits, Run(limits, c, before), es[|es| - 1].window);
  }

  // ---------------------------------------------------------------- draining

  function Pending(q: seq<SdoMsg>): (n: nat)
  {
    if q == [] then 0 else (if q[0].requiresAnswer then 1 else 0) + Pending(q[1..])
  }

  /** The checks left until the queue is empty. */
  function Measure(limits: Limits, c: Client): int {
    if c.queue == [] then 0 else Pending(c.queue) * Period(limits) - c.timeouts
  }

  /** Events that bring no answer and no new request that waits for one. */
  predicate Quiet(e: Event) {
    match e
    case Submitted(m) => !m.requiresAnswer
    case Checked(w) => NoneRequiresAnswer(w)
    case _ => false
  }

  lemma {:induction false} PendingAppend(q: seq<SdoMsg>, w: seq<SdoMsg>)
    requires NoneRequiresAnswer(w)
    ensures Pending(q + w) == Pending(q)
    decreases |q| + |w|
  {
    if q != [] {
      PendingAppend(q[1..], w);
      assert (q + w)[1..] == q[1..] + w;
    } else if w != [] {
      PendingAppend([], w[1..]);
      assert [] + w == w && [] + w[1..] == w[1..];
    }
  }

  lemma {:induction false} PendingBehindNmt(q: seq<SdoMsg>)
    ensures Pending(q[NmtRun(q)..]) == Pending(q)
  {
    if q != [] && !q[0].requiresAnswer {
      PendingBehindNmt(q[1..]);
      assert q[NmtRun(q)..] == q[1..][NmtRun(q[1..])..];
    }
  }

  /** Every check on a nonempty queue is one check less to go: retry, retirement and NMT flushing alike. */
  lemma CheckLowersMeasure(limits: Limits, c: Client, w: seq<SdoMsg>)
    requires Aligned(c) && NoneRequiresAnswer(w)
    requires Fits(limits) && OnSchedule(limits, c) && limits.maxTimeout != 0
    requires c.queue != [] && c.queue[0].requiresAnswer
    ensures Measure(limits, c) > 0
    ensures Measure(limits, Check(limits, c, w)) == Measure(limits, c) - 1
  {
    MeasureSplit(limits, c);
    if GivesUp(limits, c) {
      RetirementLowersMeasure(limits, c, w);
    }
  }

  lemma MeasureSplit(limits: Limits, c: Client)
    requires c.queue != [] && c.queue[0].requiresAnswer
    ensures Measure(limits, c) == Pending(c.queue[1..]) * Period(limits) + Period(limits) - c.timeouts
    ensures Pending(c.queue[1..]) * Period(limits) >= 0
  {
    assert Pending(c.queue) == 1 + Pending(c.queue[1..]);
  }

  lemma RetirementLowersMeasure(limits: Limits, c: Client, w: seq<SdoMsg>)
    requires Aligned(c) && NoneRequiresAnswer(w) && c.queue != []
    requires GivesUp(limits, c)
    ensures Measure(limits, Check(limits, c, w)) == Pending(c.queue[1..]) * Period(limits)
  {
    RetiresExactlyTheHead(c.(timeouts := Increment(c.timeouts)), w);
    PendingAppend(c.queue[1..], w);
    PendingBehindNmt(c.queue[1..] + w);
  }

  lemma NmtKeepsMeasure(limits: Limits, c: Client, m: SdoMsg)
    requires Fifo(c) && !m.requiresAnswer
    ensures Measure(limits, Submit(c, m)) == Measure(limits, c)
    ensures Submit(c, m).queue == [] <==> c.queue == []
  {
    PendingAppend(c.queue, [m]);
  }

  /**
   Without answers and new requests the queue is empty exactly from check number `Measure` on.
   */
  lemma {:induction false} DrainsExactly(limits: Limits, c: Client, es: seq<Event>)
    requires Fifo(c) && AllLegal(es) && (forall i | 0 <= i < |es| :: Quiet(es[i]))
    requires Fits(limits) && OnSchedule(limits, c) && limits.maxTimeout != 0
    ensures Measure(limits, Run(limits, c, es)) == Max(0, Measure(limits, c) - Checks(es))
    ensures Run(limits, c, es).queue == [] <==> Checks(es) >= Measure(limits, c)
    decreases |es|
  {
    hide Fifo, Step, Measure, Fits, OnSchedule, Legal, Period;
    MeasureIsZeroWhenEmpty(limits, c);
    if es != [] {
      var before, e := es[..|es| - 1], es[|es| - 1];
      DrainsExactly(limits, c, before);
      RunKeepsSchedule(limits, c, before);
      RunKeepsSchedule(limits, c, es);
      var r := Run(limits, c, before);
      MeasureIsZeroWhenEmpty(limits, r);
      MeasureIsZeroWhenEmpty(limits, Run(limits, c, es));
      QuietStep(limits, r, e);
    }
  }

  lemma MeasureIsZeroWhenEmpty(limits: Limits, c: Client)
    requires Fifo(c) && OnSchedule(limits, c)
    ensures Measure(limits, c) >= 0
    ensures c.queue == [] <==> Measure(limits, c) == 0
  {
    if c.queue != [] { MeasureSplit(limits, c); }
  }

  lemma QuietStep(limits: Limits, c: Client, e: Event)
    requires Fifo(c) && Legal(e) && Quiet(e)
    requires Fits(limits) && OnSchedule(limits, c) && limits.maxTimeout != 0
    ensures Measure(limits, Step(limits, c, e)) ==
              if e.Checked? && c.queue != [] then Measure(limits, c) - 1 else Measure(limits, c)
  {
    if e.Submitted? {
      NmtKeepsMeasure(limits, c, e.m);
    } else if c.queue != [] {
      CheckLowersMeasure(limits, c, e.window);
    }
  }
}
