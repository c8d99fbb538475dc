/**
 A CANopen device as one value: its life cycle, its SDO queue and its answer map.
 `before` and `after` are what other threads submit while a default callback runs with the queue
 mutex released, before and after the callback's own NMT stop command.
 */
module CanOpenModel {
  import opened Words
  import opened CanMsgs
  import opened SdoMsgs
  import opened SdoQueue
  import opened SdoAnswers
  import opened SdoRetry
  import opened CanDevices

  datatype Options = Options(nodeId: Uint32, limits: Limits, maxChecks: Uint32)

  datatype Device = Device(
    life: Life,
    client: Client,
    answers: map<Uint32, Frame>)

  const CREATED := Device(Life.Life(Initializing, 0), EMPTY, map[])

  ghost predicate Valid(d: Device) {
    Fifo(d.client)
  }

  function Stop(o: Options): SdoMsg {
    Nmt(o.nodeId % 0x100, NMT_STOP)
  }

  /** A request sent at once makes an unfetched older answer for its object outdated. */
  function SendSdo(d: Device, m: SdoMsg): Device
    requires Aligned(d.client) && WellFormed(m)
  {
    var s := d.(client := Submit(d.client, m));
    if d.client.queue == [] && m.requiresAnswer then
      s.(answers := Remove(d.answers, Target(m.frame)))
    else s
  }

  /** Everything submitted while the default timeout handler runs. */
  function TimeoutWindow(o: Options, s: State, before: seq<SdoMsg>, after: seq<SdoMsg>): seq<SdoMsg> {
    if s == Active then before + [Stop(o)] + after else before + after
  }

  function CheckSdoTimeout(o: Options, d: Device, before: seq<SdoMsg>, after: seq<SdoMsg>): Device
    requires Aligned(d.client)
  {
    var c := Check(o.limits, d.client, TimeoutWindow(o, d.life.state, before, after));
    var failed := GivesUp(o.limits, d.client) && d.life.state == Active;
    d.(client := c, life := if failed then d.life.(state := Error) else d.life)
  }

  function SanityCheck(o: Options, d: Device, before: seq<SdoMsg>, after: seq<SdoMsg>): Device
    requires Aligned(d.client)
  {
    if d.life.state == Missing then d
    else if TimesOut(o.maxChecks, d.life) then
      d.(life := Ticked(o.maxChecks, d.life).(state := Missing), client := Clear(d.client))
    else CheckSdoTimeout(o, d.(life := Ticked(o.maxChecks, d.life)), before, after)
  }

  /** Everything submitted while the callback for the answer `f` runs. */
  function AnswerWindow(o: Options, f: Frame, before: seq<SdoMsg>, after: seq<SdoMsg>): seq<SdoMsg>
    requires f.length >= 4
  {
    if Command(f) == 0x80 then before + [Stop(o)] + after else before + after
  }

  function ParseSdoAnswer(o: Options, d: Device, f: Frame, before: seq<SdoMsg>, after: seq<SdoMsg>): Device
    requires Fifo(d.client) && f.length >= 4
  {
    if !Matches(d.client, f) then d
    else
      var s := d.(client := Answer(d.client, f, AnswerWindow(o, f, before, after)));
      if IsReadResponse(f) then
        s.(answers := Store(d.answers, Target(f), f))
      else if Command(f) == 0x80 then s.(life := d.life.(state := Error))
      else s
  }

  function GetSdoAnswer(d: Device, t: Object): Device {
    d.(answers := Remove(d.answers, t))
  }

  /** Clear the queue, command the remote device over the now free bus, and start over. */
  function Reinitialize(o: Options, d: Device, command: Byte): Device {
    var m := Nmt(o.nodeId % 0x100, command);
    SendSdo(d.(client := Clear(d.client)), m).(life := d.life.(state := Initializing))
  }

  function ResetCommunication(o: Options, d: Device): Device {
    Reinitialize(o, d, NMT_RESET_COMMUNICATION)
  }

  function Restart(o: Options, d: Device): Device {
    Reinitialize(o, d, NMT_RESTART).(life := Life.Life(Initializing, 0))
  }

  // ---------------------------------------------------------------- every operation keeps the invariant

  lemma SendSdoKeepsValid(d: Device, m: SdoMsg)
    requires Valid(d) && WellFormed(m)
    ensures Valid(SendSdo(d, m))
  {
    SubmitKeepsFifo(d.client, m);
  }

  lemma SanityCheckKeepsValid(o: Options, d: Device, before: seq<SdoMsg>, after: seq<SdoMsg>)
    requires Valid(d) && AllWellFormed(before) && AllWellFormed(after)
    ensures Valid(SanityCheck(o, d, before, after))
  {
    hide Fifo, Check;
    if d.life.state == Missing {
    } else if TimesOut(o.maxChecks, d.life) {
      ClearKeepsFifo(d.client);
    } else {
      var w := TimeoutWindow(o, d.life.state, before, after);
      assert AllWellFormed(w) by { TimeoutWindowIsLegal(o, d.life.state, before, after); }
      hide AllWellFormed;
      CheckKeepsFifo(o.limits, d.client, w);
    }
  }

  lemma TimeoutWindowIsLegal(o: Options, s: State, before: seq<SdoMsg>, after: seq<SdoMsg>)
    requires AllWellFormed(before) && AllWellFormed(after)
    ensures AllWellFormed(TimeoutWindow(o, s, before, after))
  {}

  lemma ParseKeepsValid(o: Options, d: Device, f: Frame, before: seq<SdoMsg>, after: seq<SdoMsg>)
    requires Valid(d) && f.length >= 4 && AllWellFormed(before) && AllWellFormed(after)
    ensures Valid(ParseSdoAnswer(o, d, f, before, after))
  {
    AnswerKeepsFifo(d.client, f, AnswerWindow(o, f, before, after));
  }

  lemma ReinitializeKeepsValid(o: Options, d: Device, command: Byte)
    requires Valid(d)
    ensures Valid(Reinitialize(o, d, command))
  {
    hide Fifo, SendSdo, WellFormed;
    assert WellFormed(Nmt(o.nodeId % 0x100, command)) by { NmtRoundTrip(o.nodeId % 0x100, command); }
    ClearKeepsFifo(d.client);
    SendSdoKeepsValid(d.(client := Clear(d.client)), Nmt(o.nodeId % 0x100, command));
  }

  // ---------------------------------------------------------------- runs

  datatype Event =
    | Sent(m: SdoMsg)
    | Received(configured: bool)
    | Answered(f: Frame, before: seq<SdoMsg>, after: seq<SdoMsg>)
    | Checked(before: seq<SdoMsg>, after: seq<SdoMsg>)
    | Got(t: Object)
    | CommunicationReset
    | Restarted

  predicate Legal(e: Event) {
    match e
    case Sent(m) => WellFormed(m)
    case Answered(f, before, after) => f.length >= 4 && AllWellFormed(before) && AllWellFormed(after)
    case Checked(before, after) => AllWellFormed(before) && AllWellFormed(after)
    case _ => true
  }

  predicate AllLegal(es: seq<Event>) {
    forall i | 0 <= i < |es| :: Legal(es[i])
  }

  function Step(o: Options, d: Device, e: Event): (r: Device)
    requires Valid(d) && Legal(e)
    ensures Valid(r)
  {
    match e
    case Sent(m) => SendSdoKeepsValid(d, m); SendSdo(d, m)
    case Received(configured) => d.(life := Heard(d.life, configured))
    case Answered(f, before, after) => ParseKeepsValid(o, d, f, before, after); ParseSdoAnswer(o, d, f, before, after)
    case Checked(before, after) => SanityCheckKeepsValid(o, d, before, after); SanityCheck(o, d, before, after)
    case Got(t) => GetSdoAnswer(d, t)
    case CommunicationReset => ReinitializeKeepsValid(o, d, NMT_RESET_COMMUNICATION); ResetCommunication(o, d)
    case Restarted => ReinitializeKeepsValid(o, d, NMT_RESTART); Restart(o, d)
  }

  function Run(o: Options, d: Device, es: seq<Event>): (r: Device)
    requires Valid(d) && AllLegal(es)
    ensures Valid(r)
    decreases |es|
  {
    if es == [] then d else Step(o, Run(o, d, es[..|es| - 1]), es[|es| - 1])
  }

  lemma CreatedIsValid()
    ensures Valid(CREATED)
  {}

  // ---------------------------------------------------------------- device timeout

  /** Sanity checks made on a device that was not missing since a message was handled or the node restarted. */
  function ChecksSinceHeard(o: Options, d: Device, es: seq<Event>): nat
    requires Valid(d) && AllLegal(es)
    decreases |es|
  {
    if es == [] then d.life.checks
    else
      var before := es[..|es| - 1];
      match es[|es| - 1]
      case Received(_) => 0
      case Restarted => 0
      case Checked(_, _) =>
        ChecksSinceHeard(o, d, before) + (if Run(o, d, before).life.state == Missing then 0 else 1)
      case _ => ChecksSinceHeard(o, d, before)
  }

  lemma StepCounter(o: Options, d: Device, e: Event)
    requires Valid(d) && Legal(e) && o.maxChecks != 0
    ensures Step(o, d, e).life.checks ==
      match e {
        case Received(_) => 0
        case Restarted => 0
        case Checked(_, _) => if d.life.state == Missing then d.life.checks else Increment(d.life.checks)
        case _ => d.life.checks
      }
  {}

  /** The timeout counter is that number of checks, modulo the width of the counter. */
  lemma {:induction false} CounterCountsChecks(o: Options, d: Device, es: seq<Event>)
    requires Valid(d) && AllLegal(es) && o.maxChecks != 0
    ensures Run(o, d, es).life.checks == ChecksSinceHeard(o, d, es) % COUNTER_MODULUS
    decreases |es|
  {
    hide Step, Valid;
    if es != [] {
      var before := es[..|es| - 1];
      CounterCountsChecks(o, d, before);
      StepCounter(o, Run(o, d, before), es[|es| - 1]);
    }
  }

  /**
   A check makes a device missing that was not, exactly when the limit is enabled and at least
   limit + 1 such checks came before it (as far as the counter can count them).
   */
  lemma TimeoutExact(o: Options, d: Device, es: seq<Event>, before: seq<SdoMsg>, after: seq<SdoMsg>)
    requires Valid(d) && AllLegal(es) && AllWellFormed(before) && AllWellFormed(after)
    ensures Run(o, d, es).life.state != Missing ==>
      (Step(o, Run(o, d, es), Event.Checked(before, after)).life.state == Missing <==>
        o.maxChecks != 0 && ChecksSinceHeard(o, d, es) % COUNTER_MODULUS >= o.maxChecks + 1)
  {
    hide Step, Valid, ChecksSinceHeard;
    if Run(o, d, es).life.state != Missing { CheckTimesOut(o, Run(o, d, es), before, after); }
    if o.maxChecks != 0 { CounterCountsChecks(o, d, es); }
  }

  lemma CheckTimesOut(o: Options, d: Device, before: seq<SdoMsg>, after: seq<SdoMsg>)
    requires Valid(d) && AllWellFormed(before) && AllWellFormed(after) && d.life.state != Missing
    ensures Step(o, d, Event.Checked(before, after)).life.state == Missing <==> TimesOut(o.maxChecks, d.life)
  {}

  // ---------------------------------------------------------------- life cycle

  lemma LeavingError(o: Options, d: Device, e: Event)
    requires Valid(d) && Legal(e) && d.life.state == Error
    ensures Step(o, d, e).life.state != Active
  {}

  /** The state after the first `k` events. */
  function StateAt(o: Options, d: Device, es: seq<Event>, k: nat): State
    requires Valid(d) && AllLegal(es) && k <= |es|
  {
    Run(o, d, es[..k]).life.state
  }

  lemma StateBefore(o: Options, d: Device, es: seq<Event>, k: nat)
    requires Valid(d) && AllLegal(es) && k <= |es|
    ensures d.life.state == Error && StateAt(o, d, es, k) == Active ==>
      k > 0 && StateAt(o, d, es, k - 1) != Error
  {
    hide Step, Valid;
    assert es[..0] == [];
    if k > 0 {
      assert es[..k][..k - 1] == es[..k - 1];
      var r := Run(o, d, es[..k - 1]);
      if r.life.state == Error { LeavingError(o, r, es[k - 1]); }
    }
  }

  /** A device in error becomes active again only through missing or initializing. */
  lemma {:induction false} ErrorIsSticky(o: Options, d: Device, es: seq<Event>, k: nat)
    requires Valid(d) && AllLegal(es) && k <= |es|
    ensures d.life.state == Error && StateAt(o, d, es, k) == Active ==>
      exists i :: 0 <= i < k && StateAt(o, d, es, i) in {Missing, Initializing}
    decreases k
  {
    hide *;
    if d.life.state == Error && StateAt(o, d, es, k) == Active {
      StateBefore(o, d, es, k);
      ErrorIsSticky(o, d, es, k - 1);
    }
  }

  /** Only a sanity check makes a device missing, and it leaves the SDO queue empty. */
  lemma BecomingMissing(o: Options, d: Device, e: Event)
    requires Valid(d) && Legal(e)
    requires d.life.state != Missing && Step(o, d, e).life.state == Missing
    ensures e.Checked? && Step(o, d, e).client.queue == []
    ensures Step(o, d, e).client.bus == d.client.bus
  {}

  /** A sanity check leaves a missing device as it is, so an SDO timeout never overrides missing. */
  lemma MissingIsNotOverridden(o: Options, d: Device, before: seq<SdoMsg>, after: seq<SdoMsg>)
    requires Valid(d) && AllWellFormed(before) && AllWellFormed(after) && d.life.state == Missing
    ensures Step(o, d, Event.Checked(before, after)) == d
  {}

  /** The queue's next check gives up its head. */
  predicate Exhausted(o: Options, c: Client) {
    && o.limits.maxTimeout != 0 && c.queue != []
    && c.timeouts > o.limits.maxTimeout && c.sent > o.limits.maxSent
  }

  /** How an event takes a device to another state, and to which one. */
  predicate Leads(o: Options, d: Device, e: Event, s: State)
    requires Valid(d) && Legal(e)
  {
    match e
    case Received(configured) => configured && d.life.state in {Initializing, Missing} && s == Active
    case Checked(_, _) =>
      if d.life.state == Missing then false
      else if o.maxChecks != 0 && d.life.checks > o.maxChecks then s == Missing
      else d.life.state == Active && Exhausted(o, d.client) && s == Error
    case Answered(f, _, _) => AnswersHead(d.client, f) && Command(f) == 0x80 && s == Error
    case CommunicationReset => s == Initializing
    case Restarted => s == Initializing
    case _ => false
  }

  /** Every change of state of a CANopen device, whatever the state: these events make it, and no others. */
  lemma StateChangesExactly(o: Options, d: Device, e: Event, s: State)
    requires Valid(d) && Legal(e) && s != d.life.state
    ensures Step(o, d, e).life.state == s <==> Leads(o, d, e, s)
  {
    hide LogAgrees, AllWellFormed, Submit, Answer, Check, Command;
    if e.Answered? && IsReadResponse(e.f) { ReadResponsesAreNoErrors(e.f); }
  }

  lemma ReadResponsesAreNoErrors(f: Frame)
    requires f.length >= 4 && IsReadResponse(f)
    ensures Command(f) != 0x80
  {}

  /** The device was missing all the time from after `i` events to after `k`. */
  ghost predicate MissingFrom(o: Options, d: Device, es: seq<Event>, i: nat, k: nat)
    requires Valid(d) && AllLegal(es) && k <= |es|
  {
    forall j: nat | i <= j <= k :: StateAt(o, d, es, j) == Missing
  }

  /** The first event by which a device that was missing after `i` events is not missing any more. */
  ghost predicate FirstExit(o: Options, d: Device, es: seq<Event>, i: nat, j: nat)
    requires Valid(d) && AllLegal(es) && i <= j < |es|
  {
    MissingFrom(o, d, es, i, j) && Leads(o, Run(o, d, es[..j]), es[j], StateAt(o, d, es, j + 1))
  }

  lemma RunOfPrefix(o: Options, d: Device, es: seq<Event>, k: nat)
    requires Valid(d) && AllLegal(es) && k < |es|
    ensures Run(o, d, es[..k + 1]) == Step(o, Run(o, d, es[..k]), es[k])
  {
    assert es[..k + 1][..k] == es[..k];
  }

  /**
   Over every run a device stays missing until it is configured by a received message (then it is
   active), reset or restarted (initializing), or its current request is answered with an error (error).
   */
  lemma {:induction false} MissingLasts(o: Options, d: Device, es: seq<Event>, i: nat, k: nat)
    requires Valid(d) && AllLegal(es) && i <= k <= |es|
    ensures StateAt(o, d, es, i) == Missing ==>
      MissingFrom(o, d, es, i, k) || exists j :: i <= j < k && FirstExit(o, d, es, i, j)
    decreases k - i
  {
    hide Step, Valid, Legal, Leads;
    if StateAt(o, d, es, i) == Missing && i < k {
      MissingLasts(o, d, es, i, k - 1);
      if MissingFrom(o, d, es, i, k - 1) && StateAt(o, d, es, k) != Missing {
        assert StateAt(o, d, es, k - 1) == Missing;
        RunOfPrefix(o, d, es, k - 1);
        StateChangesExactly(o, Run(o, d, es[..k - 1]), es[k - 1], StateAt(o, d, es, k));
        assert FirstExit(o, d, es, i, k - 1);
      }
    }
  }

  /** The sanity check that found the device missing: it emptied the queue and sent nothing. */
  ghost predicate WentMissing(o: Options, d: Device, es: seq<Event>, i: nat)
    requires Valid(d) && AllLegal(es) && i < |es|
  {
    var before, after := Run(o, d, es[..i]), Run(o, d, es[..i + 1]);
    && es[i].Checked? && TimesOut(o.maxChecks, before.life) && before.life.state != Missing
    && after.client.queue == [] && after.client.bus == before.client.bus
  }

  /** Over every run, a missing device has been so since a sanity check that timed out and emptied its queue. */
  lemma {:induction false} MissingHasACause(o: Options, d: Device, es: seq<Event>, k: nat)
    requires Valid(d) && AllLegal(es) && k <= |es|
    ensures d.life.state != Missing && StateAt(o, d, es, k) == Missing ==>
      exists i :: 0 <= i < k && WentMissing(o, d, es, i) && MissingFrom(o, d, es, i + 1, k)
    decreases k
  {
    hide Step, Valid, TimesOut, AllWellFormed;
    assert es[..0] == [];
    if d.life.state != Missing && StateAt(o, d, es, k) == Missing {
      RunOfPrefix(o, d, es, k - 1);
      var r := Run(o, d, es[..k - 1]);
      if r.life.state == Missing {
        MissingHasACause(o, d, es, k - 1);
        var i :| 0 <= i < k - 1 && WentMissing(o, d, es, i) && MissingFrom(o, d, es, i + 1, k - 1);
        assert MissingFrom(o, d, es, i + 1, k);
      } else {
        BecomingMissing(o, r, es[k - 1]);
        CheckTimesOut(o, r, es[k - 1].before, es[k - 1].after);
        assert WentMissing(o, d, es, k - 1);
      }
    }
  }

  /** Giving up on a request retires just that one, and stops the node if it was active. */
  lemma GivingUp(o: Options, d: Device, before: seq<SdoMsg>, after: seq<SdoMsg>)
    requires Valid(d) && AllWellFormed(before) && AllWellFormed(after)
    requires d.life.state != Missing && !TimesOut(o.maxChecks, d.life) && GivesUp(o.limits, d.client)
    ensures var r := Step(o, d, Event.Checked(before, after));
      && Head(r.client) > Head(d.client)
      && (d.life.state == Active ==>
            r.life.state == Error && r.client.submitted == d.client.submitted + (before + [Stop(o)] + after))
      && (d.life.state != Active ==>
            r.life.state == d.life.state && r.client.submitted == d.client.submitted + (before + after))
  {
    var ticked := d.client.(timeouts := Increment(d.client.timeouts));
    RetiresExactlyTheHead(ticked, TimeoutWindow(o, d.life.state, before, after));
  }

  /** An error response to the head retires it, stops the node and puts the device in error, whatever its state. */
  lemma ErrorResponse(o: Options, d: Device, f: Frame, before: seq<SdoMsg>, after: seq<SdoMsg>)
    requires Valid(d) && f.length >= 4 && AllWellFormed(before) && AllWellFormed(after)
    requires Matches(d.client, f) && Command(f) == 0x80
    ensures var r := Step(o, d, Event.Answered(f, before, after));
      && r.life.state == Error
      && r.answers == d.answers
      && r.client.submitted == d.client.submitted + (before + [Stop(o)] + after)
      && Head(r.client) > Head(d.client)
  {
    hide LogAgrees, Target;
    RetiresExactlyTheHead(d.client, before + [Stop(o)] + after);
  }

  /** The command that stops the node, as it goes over the wire. */
  lemma StopIsTheStopCommand(o: Options)
    ensures IsNmt(Stop(o), 0x02, o.nodeId % 0x100)
  {
    NmtRoundTrip(o.nodeId % 0x100, NMT_STOP);
  }

  /** What the default callbacks add to the submissions of others while an answer is handled. */
  function GivenByNode(o: Options, f: Frame, before: seq<SdoMsg>, after: seq<SdoMsg>): seq<SdoMsg>
    requires f.length >= 4
  {
    if Command(f) == 0x80 then before + [Stop(o)] + after
    else if Command(f) in {0x42, 0x43, 0x4B, 0x4F} then before + after
    else []
  }

  lemma MatchesIsAnswersHead(c: Client, f: Frame)
    requires Fifo(c) && f.length >= 4
    ensures Matches(c, f) == AnswersHead(c, f)
  {}

  /** An answer for the object of the current request retires it in a device, whatever the answer says. */
  lemma AnswerRetiresRequest(o: Options, d: Device, f: Frame, before: seq<SdoMsg>, after: seq<SdoMsg>)
    requires Valid(d) && f.length >= 4 && AllWellFormed(before) && AllWellFormed(after)
    ensures var r := Step(o, d, Event.Answered(f, before, after)).client;
      if AnswersHead(d.client, f) then
        var behind := d.client.queue[1..] + GivenByNode(o, f, before, after);
        && Head(r) == Head(d.client) + 1 + NmtRun(behind)
        && r.timeouts == 0 && r.sent == 0
        && r.submitted == d.client.submitted + GivenByNode(o, f, before, after)
        && r.queue == behind[NmtRun(behind)..]
        && r.bus == d.client.bus + behind[..Sendable(behind)]
      else Step(o, d, Event.Answered(f, before, after)) == d
  {
    hide Answer, Fifo, AllWellFormed, Command, NmtRun, Sendable, Target, Retire, AnswersHead;
    AnswerExactly(d.client, f, AnswerWindow(o, f, before, after));
    MatchesIsAnswersHead(d.client, f);
  }

  /** A reset command is never stuck behind an unanswered request: it is the next message on the bus. */
  lemma ResetGoesOutAtOnce(o: Options, d: Device)
    requires Valid(d)
    ensures var r := Step(o, d, CommunicationReset);
      && r.client.queue == [] && r.life.state == Initializing && r.life.checks == d.life.checks
      && |r.client.bus| == |d.client.bus| + 1 && d.client.bus <= r.client.bus
      && IsNmt(r.client.bus[|d.client.bus|], 0x82, o.nodeId % 0x100)
    ensures var r := Step(o, d, Restarted);
      && r.client.queue == [] && r.life == Life.Life(Initializing, 0)
      && |r.client.bus| == |d.client.bus| + 1 && d.client.bus <= r.client.bus
      && IsNmt(r.client.bus[|d.client.bus|], 0x81, o.nodeId % 0x100)
  {
    NmtRoundTrip(o.nodeId % 0x100, NMT_RESET_COMMUNICATION);
    NmtRoundTrip(o.nodeId % 0x100, NMT_RESTART);
    SubmitExactly(Clear(d.client), Nmt(o.nodeId % 0x100, NMT_RESET_COMMUNICATION));
    SubmitExactly(Clear(d.client), Nmt(o.nodeId % 0x100, NMT_RESTART));
    hide Submit, IsNmt, Fifo;
  }

  // ---------------------------------------------------------------- the queue and the answers of a device

  /** The contract of the SDO queue, over every run of a whole device with its default callbacks. */
  lemma DeviceStopAndWait(o: Options, es: seq<Event>)
    requires AllLegal(es)
    ensures Valid(CREATED)
    ensures InOrder(Run(o, CREATED, es).client)
    ensures RepeatsAreContiguous(Run(o, CREATED, es).client)
    ensures OneOutstanding(Run(o, CREATED, es).client)
  {
    hide Run, InOrder, RepeatsAreContiguous, OneOutstanding, Fifo;
    CreatedIsValid();
    var c := Run(o, CREATED, es).client;
    FifoIsInOrder(c);
    FifoRepeatsContiguously(c);
    FifoHasOneOutstanding(c);
  }

  /** The event stores its frame as the answer for `t`. */
  predicate StoresFor(d: Device, e: Event, t: Object)
    requires Valid(d) && Legal(e)
  {
    e.Answered? && AnswersHead(d.client, e.f) && Command(e.f) in {0x42, 0x43, 0x4B, 0x4F} && Target(e.f) == t
  }

  /** The event takes away an answer for `t`: it is fetched, or outdated by a request that goes out at once. */
  predicate TakesFor(d: Device, e: Event, t: Object)
    requires Valid(d) && Legal(e)
  {
    match e
    case Got(u) => u == t
    case Sent(m) => d.client.queue == [] && m.requiresAnswer && Target(m.frame) == t
    case _ => false
  }

  /** What every event does to the answer of every object. */
  lemma LookupExactly(o: Options, d: Device, e: Event, t: Object)
    requires Valid(d) && Legal(e)
    ensures Lookup(Step(o, d, e).answers, t) ==
      if StoresFor(d, e, t) then Some(e.f) else if TakesFor(d, e, t) then None else Lookup(d.answers, t)
  {
    hide LogAgrees, AllWellFormed, Submit, Answer, Check, Lookup, Store, Remove;
    match e
    case Answered(f, _, _) => StoreChangesOne(d.answers, Target(f), f, t);
    case Sent(m) => if m.requiresAnswer { RemoveChangesOne(d.answers, Target(m.frame), t); }
    case Got(u) => RemoveChangesOne(d.answers, u, t);
    case _ =>
  }

  function EffectOf(d: Device, e: Event, t: Object): Effect
    requires Valid(d) && Legal(e)
  {
    if StoresFor(d, e, t) then Kept(e.f) else if TakesFor(d, e, t) then Taken else Untouched
  }

  /** What each event of a run does to the answer for `t`. */
  function Effects(o: Options, d: Device, es: seq<Event>, t: Object): (r: seq<Effect>)
    requires Valid(d) && AllLegal(es)
    ensures |r| == |es|
  {
    seq(|es|, i requires 0 <= i < |es| => EffectOf(Run(o, d, es[..i]), es[i], t))
  }

  lemma EffectsOneMore(o: Options, d: Device, es: seq<Event>, t: Object)
    requires Valid(d) && AllLegal(es) && es != []
    ensures var n := |es| - 1;
      Effects(o, d, es, t) == Effects(o, d, es[..n], t) + [EffectOf(Run(o, d, es[..n]), es[n], t)]
  {
    hide Run, Valid, Legal, EffectOf;
    assert forall i | 0 <= i < |es| - 1 :: es[..|es| - 1][..i] == es[..i];
  }

  /**
   Over every run a fetch for `t` returns `f` exactly when `f` was received as a read response for the
   current request, about `t`, and since then nothing was received for `t` so, no fetch for `t` was made,
   and no request for `t` went out at once.
   */
  lemma {:induction false} FetchesTheLatestAnswer(o: Options, d: Device, es: seq<Event>, t: Object, f: Frame)
    requires Valid(d) && AllLegal(es) && Lookup(d.answers, t) == None
    ensures Lookup(Run(o, d, es).answers, t) == Some(f) <==> KeptLast(Effects(o, d, es, t), f)
    decreases |es|
  {
    hide Step, Valid, Legal, Lookup, Effects, StoresFor, TakesFor;
    if es != [] {
      var n := |es| - 1;
      FetchesTheLatestAnswer(o, d, es[..n], t, f);
      LookupExactly(o, Run(o, d, es[..n]), es[n], t);
      EffectsOneMore(o, d, es, t);
      hide KeptLast;
      KeptLastStep(Effects(o, d, es[..n], t), EffectOf(Run(o, d, es[..n]), es[n], t), f);
    }
  }

  /** No answer is delivered twice: after a fetch for `t`, another one succeeds only if one was stored between. */
  lemma {:induction false} FetchedAtMostOnce(o: Options, d: Device, es: seq<Event>, t: Object, i: nat, j: nat)
    requires Valid(d) && AllLegal(es) && i < j <= |es| && es[i] == Got(t)
    ensures Lookup(Run(o, d, es[..j]).answers, t) != None ==>
      exists k :: i < k < j && Effects(o, d, es, t)[k].Kept?
    decreases j
  {
    hide Step, Valid, Legal, Lookup, StoresFor;
    RunOfPrefix(o, d, es, j - 1);
    LookupExactly(o, Run(o, d, es[..j - 1]), es[j - 1], t);
    if Effects(o, d, es, t)[j - 1].Kept? && i < j - 1 {
    } else if i < j - 1 {
      FetchedAtMostOnce(o, d, es, t, i, j - 1);
    } else {
      FetchStoresNothing(Run(o, d, es[..i]), t);
    }
  }

  lemma FetchStoresNothing(d: Device, t: Object)
    requires Valid(d)
    ensures !StoresFor(d, Got(t), t) && TakesFor(d, Got(t), t)
  {}

  /** The answer under `t` changes only by a read response for `t`, unless it goes away. */
  lemma StepBringsAnswer(o: Options, d: Device, e: Event, t: Object, f: Frame)
    requires Valid(d) && Legal(e)
    requires Lookup(Step(o, d, e).answers, t) == Some(f) && Lookup(d.answers, t) != Some(f)
    ensures e.Answered? && e.f == f && f.length >= 4 && IsReadResponse(f) && Target(f) == t && Matches(d.client, f)
  {
    hide LogAgrees, Retire, Target, IsReadResponse;
    if e.Answered? && Matches(d.client, e.f) && AnswerId(Target(e.f)) == AnswerId(t) {
      AnswerIdInjective(Target(e.f), t);
    }
  }

  /** The history contains the read response `f`, and `f` is about `t`. */
  predicate Responded(es: seq<Event>, t: Object, f: Frame) {
    f.length >= 4 && IsReadResponse(f) && Target(f) == t &&
    exists i :: 0 <= i < |es| && es[i].Answered? && es[i].f == f
  }

  lemma {:induction false} AnswersWereReceived(o: Options, d: Device, es: seq<Event>, t: Object, f: Frame)
    requires Valid(d) && AllLegal(es) && Lookup(d.answers, t) == None
    ensures Lookup(Run(o, d, es).answers, t) == Some(f) ==> Responded(es, t, f)
    decreases |es|
  {
    hide Step, Valid, Target, IsReadResponse, Legal, Lookup;
    if es != [] && Lookup(Run(o, d, es).answers, t) == Some(f) {
      var n := |es| - 1;
      var r := Run(o, d, es[..n]);
      if Lookup(r.answers, t) == Some(f) {
        AnswersWereReceived(o, d, es[..n], t, f);
        var i :| 0 <= i < n && es[..n][i].Answered? && es[..n][i].f == f;
        assert es[i].Answered? && es[i].f == f;
      } else {
        StepBringsAnswer(o, r, es[n], t, f);
      }
    }
  }

  /**
   Freshness of a request that goes out at once: an answer that is fetched for its object later came
   after the request, as a read response for that object.
   */
  lemma AnswerIsFresh(o: Options, d: Device, m: SdoMsg, es: seq<Event>, f: Frame)
    requires Valid(d) && WellFormed(m) && AllLegal(es)
    requires d.client.queue == [] && m.requiresAnswer
    ensures Lookup(Run(o, Step(o, d, Sent(m)), es).answers, Target(m.frame)) == Some(f) ==>
      Responded(es, Target(m.frame), f)
  {
    assert Lookup(Step(o, d, Sent(m)).answers, Target(m.frame)) == None by { hide Target, Submit; }
    hide *;
    AnswersWereReceived(o, Step(o, d, Sent(m)), es, Target(m.frame), f);
  }

  // ---------------------------------------------------------------- a device run is a run of its queue

  /** What an event of the device means for its queue. */
  function QueueEvents(o: Options, d: Device, e: Event): seq<SdoQueue.Event>
    requires Legal(e)
  {
    match e
    case Sent(m) => [Submitted(m)]
    case Answered(f, before, after) => [SdoQueue.Event.Answered(f, AnswerWindow(o, f, before, after))]
    case Checked(before, after) =>
      if d.life.state == Missing then []
      else if TimesOut(o.maxChecks, d.life) then [Cleared]
      else [SdoQueue.Event.Checked(TimeoutWindow(o, d.life.state, before, after))]
    case CommunicationReset => [Cleared, Submitted(Nmt(o.nodeId % 0x100, NMT_RESET_COMMUNICATION))]
    case Restarted => [Cleared, Submitted(Nmt(o.nodeId % 0x100, NMT_RESTART))]
    case _ => []
  }

  lemma QueueEventsAreLegal(o: Options, d: Device, e: Event)
    requires Legal(e)
    ensures SdoQueue.AllLegal(QueueEvents(o, d, e))
    ensures |QueueEvents(o, d, e)| <= 2
  {}

  /** The history of the queue in a history of the device. */
  function QueueRun(o: Options, d: Device, es: seq<Event>): (r: seq<SdoQueue.Event>)
    requires Valid(d) && AllLegal(es)
    ensures SdoQueue.AllLegal(r)
    decreases |es|
  {
    if es == [] then []
    else
      var before, e := es[..|es| - 1], es[|es| - 1];
      QueueEventsAreLegal(o, Run(o, d, before), e);
      QueueRun(o, d, before) + QueueEvents(o, Run(o, d, before), e)
  }

  lemma StepOfQueue(o: Options, d: Device, e: Event)
    requires Valid(d) && Legal(e)
    ensures SdoQueue.AllLegal(QueueEvents(o, d, e))
    ensures Step(o, d, e).client == SdoQueue.Run(o.limits, d.client, QueueEvents(o, d, e))
  {
    hide Step, Fifo, SdoQueue.Step, QueueEvents;
    var c, qs := d.client, QueueEvents(o, d, e);
    QueueEventsAreLegal(o, d, e);
    if |qs| == 1 {
      RunOneMore(o.limits, c, [], qs[0]);
      assert [] + [qs[0]] == qs;
      OneQueueEvent(o, d, e);
    } else if |qs| == 2 {
      RunOneMore(o.limits, c, [], qs[0]);
      RunOneMore(o.limits, c, [qs[0]], qs[1]);
      assert [] + [qs[0]] == [qs[0]] && [qs[0]] + [qs[1]] == qs;
      TwoQueueEvents(o, d, e);
    } else {
      NoQueueEvent(o, d, e);
      assert qs == [];
    }
  }

  lemma NoQueueEvent(o: Options, d: Device, e: Event)
    requires Valid(d) && Legal(e) && QueueEvents(o, d, e) == []
    ensures Step(o, d, e).client == d.client
  {
    hide Fifo, Check, Answer, Submit, Clear, Target;
  }

  lemma OneQueueEvent(o: Options, d: Device, e: Event)
    requires Valid(d) && Legal(e) && |QueueEvents(o, d, e)| == 1 && SdoQueue.Legal(QueueEvents(o, d, e)[0])
    ensures Step(o, d, e).client == SdoQueue.Step(o.limits, d.client, QueueEvents(o, d, e)[0])
  {
    hide Fifo, Check, Answer, Submit, Clear, Target;
    if e.Answered? && !Matches(d.client, e.f) {
      UnmatchedChangesNothing(d.client, e.f, AnswerWindow(o, e.f, e.before, e.after));
    }
  }

  lemma TwoQueueEvents(o: Options, d: Device, e: Event)
    requires Valid(d) && Legal(e) && |QueueEvents(o, d, e)| == 2 && SdoQueue.AllLegal(QueueEvents(o, d, e))
    ensures var qs := QueueEvents(o, d, e);
      Step(o, d, e).client == SdoQueue.Step(o.limits, SdoQueue.Step(o.limits, d.client, qs[0]), qs[1])
  {
    hide Fifo, Submit, Clear, Target;
  }

  /**
   Simulation: whatever happens to a device, its queue goes through a legal run of its own, so what is
   proved of every run of the queue, the retry schedule and the drain time too, holds of it in a device.
   */
  lemma {:induction false} DeviceRunsItsQueue(o: Options, d: Device, es: seq<Event>)
    requires Valid(d) && AllLegal(es)
    ensures Run(o, d, es).client == SdoQueue.Run(o.limits, d.client, QueueRun(o, d, es))
    decreases |es|
  {
    hide Step, SdoQueue.Step, QueueEvents, Fifo;
    if es != [] {
      var before, e := es[..|es| - 1], es[|es| - 1];
      DeviceRunsItsQueue(o, d, before);
      StepOfQueue(o, Run(o, d, before), e);
      RunConcatenates(o.limits, d.client, QueueRun(o, d, before), QueueEvents(o, Run(o, d, before), e));
    }
  }

  /** The retry counters of a device are on the schedule in every reachable state. */
  lemma DeviceKeepsSchedule(o: Options, d: Device, es: seq<Event>)
    requires Valid(d) && AllLegal(es) && Fits(o.limits) && OnSchedule(o.limits, d.client)
    ensures OnSchedule(o.limits, Run(o, d, es).client)
  {
    DeviceRunsItsQueue(o, d, es);
    hide *;
    RunKeepsSchedule(o.limits, d.client, QueueRun(o, d, es));
  }

  /** A sanity check that does not find the device missing brings the queue one check closer to empty. */
  lemma SanityCheckLowersMeasure(o: Options, d: Device, before: seq<SdoMsg>, after: seq<SdoMsg>)
    requires Valid(d) && NoneRequiresAnswer(before) && NoneRequiresAnswer(after)
    requires Fits(o.limits) && OnSchedule(o.limits, d.client) && o.limits.maxTimeout != 0
    requires d.client.queue != [] && d.life.state != Missing && !TimesOut(o.maxChecks, d.life)
    ensures Measure(o.limits, SanityCheck(o, d, before, after).client) == Measure(o.limits, d.client) - 1
  {
    CheckLowersMeasure(o.limits, d.client, TimeoutWindow(o, d.life.state, before, after));
  }

  // ---------------------------------------------------------------- the drain time of a device

  /** Events that bring no answer, no reset and no new request that waits for an answer. */
  predicate QuietEvent(e: Event) {
    match e
    case Sent(m) => !m.requiresAnswer
    case Received(_) => true
    case Checked(before, after) => NoneRequiresAnswer(before) && NoneRequiresAnswer(after)
    case Got(_) => true
    case _ => false
  }

  predicate AllQuiet(es: seq<Event>) {
    forall i | 0 <= i < |es| :: QuietEvent(es[i])
  }

  function SanityChecks(es: seq<Event>): (n: nat)
    ensures n <= |es|
    decreases |es|
  {
    if es == [] then 0 else SanityChecks(es[..|es| - 1]) + (if es[|es| - 1].Checked? then 1 else 0)
  }

  ghost predicate NeverMissing(o: Options, d: Device, es: seq<Event>)
    requires Valid(d) && AllLegal(es)
  {
    forall k: nat | k <= |es| :: StateAt(o, d, es, k) != Missing
  }

  lemma QuietQueueEvents(o: Options, d: Device, e: Event)
    requires Valid(d) && Legal(e) && QuietEvent(e) && d.life.state != Missing && Step(o, d, e).life.state != Missing
    ensures var qs := QueueEvents(o, d, e);
      |qs| <= 1 && (|qs| == 1 ==> Quiet(qs[0])) && (e.Checked? <==> |qs| == 1 && qs[0].Checked?)
  {
    hide Step, Valid;
    if e.Checked? {
      CheckTimesOut(o, d, e.before, e.after);
      var w := TimeoutWindow(o, d.life.state, e.before, e.after);
      forall i | 0 <= i < |w| ensures !w[i].requiresAnswer {}
    }
  }

  /** A prefix of a run that is never missing is never missing, and nor is its end. */
  lemma NeverMissingPrefix(o: Options, d: Device, es: seq<Event>)
    requires Valid(d) && AllLegal(es) && es != [] && NeverMissing(o, d, es)
    ensures NeverMissing(o, d, es[..|es| - 1])
    ensures Run(o, d, es[..|es| - 1]).life.state != Missing && Run(o, d, es).life.state != Missing
  {
    hide Run, Valid, Legal;
    var n := |es| - 1;
    forall k: nat | k <= n ensures StateAt(o, d, es[..n], k) != Missing {
      assert es[..n][..k] == es[..k];
      assert StateAt(o, d, es, k) != Missing;
    }
    assert StateAt(o, d, es, n) != Missing && StateAt(o, d, es, n + 1) != Missing;
    assert es[..n + 1] == es;
  }

  lemma ChecksAppend(p: seq<SdoQueue.Event>, q: seq<SdoQueue.Event>)
    requires |q| <= 1
    ensures Checks(p + q) == Checks(p) + (if |q| == 1 && q[0].Checked? then 1 else 0)
  {
    if q == [] {
      assert p + q == p;
    } else {
      assert (p + q)[..|p|] == p;
    }
  }

  lemma {:induction false} QuietQueueRun(o: Options, d: Device, es: seq<Event>)
    requires Valid(d) && AllLegal(es) && AllQuiet(es) && NeverMissing(o, d, es)
    ensures forall i | 0 <= i < |QueueRun(o, d, es)| :: Quiet(QueueRun(o, d, es)[i])
    ensures Checks(QueueRun(o, d, es)) == SanityChecks(es)
    decreases |es|
  {
    hide Step, Valid, Legal, QuietEvent, Quiet, QueueEvents, NeverMissing, Checks;
    if es == [] {
      assert Checks([]) == 0 by { ChecksOfNothing(); }
    } else {
      var n := |es| - 1;
      NeverMissingPrefix(o, d, es);
      QuietQueueRun(o, d, es[..n]);
      QuietQueueEvents(o, Run(o, d, es[..n]), es[n]);
      ChecksAppend(QueueRun(o, d, es[..n]), QueueEvents(o, Run(o, d, es[..n]), es[n]));
    }
  }

  lemma ChecksOfNothing()
    ensures Checks([]) == 0
  {}

  /**
   A device that does not time out, without answers and new requests: its queue is empty exactly from
   sanity check number `Measure` on, whatever else is received, fetched and sent.
   */
  lemma DeviceDrainsExactly(o: Options, d: Device, es: seq<Event>)
    requires Valid(d) && AllLegal(es) && AllQuiet(es)
    requires Fits(o.limits) && OnSchedule(o.limits, d.client) && o.limits.maxTimeout != 0
    ensures NeverMissing(o, d, es) ==>
      (Run(o, d, es).client.queue == [] <==> SanityChecks(es) >= Measure(o.limits, d.client))
  {
    hide Run, Measure, Fits, OnSchedule, Fifo;
    if NeverMissing(o, d, es) {
      DeviceRunsItsQueue(o, d, es);
      QuietQueueRun(o, d, es);
      DrainsExactly(o.limits, d.client, QueueRun(o, d, es));
    }
  }
}
