/** The state machine every CAN device has, with the counter of sanity checks since its last message. */
module CanDevices {
  import opened Words

  datatype State = Initializing | Active | Error | Missing

  datatype Life = Life(state: State, checks: Uint32)

  /** The result of the comparison in `isTimedOut`, before the counter is incremented. */
  predicate TimesOut(maxChecks: Uint32, l: Life) {
    maxChecks != 0 && l.checks > maxChecks
  }

  /** The counter after `isTimedOut`; a limit of zero disables it. */
  function Ticked(maxChecks: Uint32, l: Life): Life {
    if maxChecks == 0 then l else l.(checks := Increment(l.checks))
  }

  function SanityChecked(maxChecks: Uint32, l: Life): Life {
    if l.state == Missing then l
    else if TimesOut(maxChecks, l) then Ticked(maxChecks, l).(state := Missing)
    else Ticked(maxChecks, l)
  }

  /** A message of the device was handled; `configured` is what `configureDevice` returned. */
  function Heard(l: Life, configured: bool): Life {
    Life(if l.state != Active && l.state != Error && configured then Active else l.state, 0)
  }

  class CanDevice {
    const maxDeviceTimeoutCounter: Uint32
    var deviceTimeoutCounter: Uint32
    var state: State

    constructor (maxDeviceTimeoutCounter: Uint32)
      ensures this.maxDeviceTimeoutCounter == maxDeviceTimeoutCounter
      ensures Snapshot() == Life(Initializing, 0)
    {
      this.maxDeviceTimeoutCounter := maxDeviceTimeoutCounter;
      deviceTimeoutCounter := 0;
      state := Initializing;
    }

    ghost function Snapshot(): Life
      reads this
    {
      Life(state, deviceTimeoutCounter)
    }

    method IsTimedOut() returns (timedOut: bool)
      modifies this`deviceTimeoutCounter
      ensures timedOut == TimesOut(maxDeviceTimeoutCounter, old(Snapshot()))
      ensures Snapshot() == Ticked(maxDeviceTimeoutCounter, old(Snapshot()))
    {
      timedOut := false;
      if maxDeviceTimeoutCounter != 0 {
        timedOut := deviceTimeoutCounter > maxDeviceTimeoutCounter;
        deviceTimeoutCounter := Increment(deviceTimeoutCounter);
      }
    }

    method SanityCheck() returns (fine: bool)
      modifies this
      ensures Snapshot() == SanityChecked(maxDeviceTimeoutCounter, old(Snapshot()))
      ensures fine <==> state != Error && state != Missing
    {
      if state != Missing {
        var timedOut := IsTimedOut();
        if timedOut {
          state := Missing;
        }
      }
      fine := !(state == Error || state == Missing);
    }

    method ResetDeviceTimeoutCounter()
      modifies this`deviceTimeoutCounter
      ensures deviceTimeoutCounter == 0
    {
      deviceTimeoutCounter := 0;
    }

    /** `configured` is what the device's own `configureDevice` returns for the received message. */
    method ConfigureDeviceInternal(configured: bool)
      modifies this`state
      ensures Snapshot() == Heard(old(Snapshot()), configured).(checks := old(deviceTimeoutCounter))
    {
      if state != Active && state != Error {
        if configured {
          state := Active;
        }
      }
    }
  }
}

/** The device timeout over whole histories of any CAN device. */
module DeviceLives {
  import opened Words
  import opened CanDevices

  /** `Became` is any assignment to the state by the device's own class or by a reset. */
  datatype Event = Handled(configured: bool) | Checked | Became(state: State) | CounterReset

  function Step(maxChecks: Uint32, l: Life, e: Event): Life {
    match e
    case Handled(configured) => Heard(l, configured)
    case Checked => SanityChecked(maxChecks, l)
    case Became(s) => l.(state := s)
    case CounterReset => l.(checks := 0)
  }

  function Run(maxChecks: Uint32, l: Life, es: seq<Event>): Life
    decreases |es|
  {
    if es == [] then l else Step(maxChecks, Run(maxChecks, l, es[..|es| - 1]), es[|es| - 1])
  }

  /** Checks made while not missing since a message was handled or the counter was reset. */
  function ChecksSinceHeard(maxChecks: Uint32, l: Life, es: seq<Event>): nat
    decreases |es|
  {
    if es == [] then l.checks
    else
      var before := es[..|es| - 1];
      match es[|es| - 1]
      case Handled(_) => 0
      case CounterReset => 0
      case Became(_) => ChecksSinceHeard(maxChecks, l, before)
      case Checked =>
        ChecksSinceHeard(maxChecks, l, before) + (if Run(maxChecks, l, before).state == Missing then 0 else 1)
  }

  lemma {:induction false} CounterCountsChecks(maxChecks: Uint32, l: Life, es: seq<Event>)
    requires maxChecks != 0
    ensures Run(maxChecks, l, es).checks == ChecksSinceHeard(maxChecks, l, es) % COUNTER_MODULUS
    decreases |es|
  {
    hide Step;
    if es != [] {
      var before := es[..|es| - 1];
      CounterCountsChecks(maxChecks, l, before);
      StepCounter(maxChecks, Run(maxChecks, l, before), es[|es| - 1]);
    }
  }

  lemma StepCounter(maxChecks: Uint32, l: Life, e: Event)
    requires maxChecks != 0
    ensures Step(maxChecks, l, e).checks ==
      match e {
        case Handled(_) => 0
        case CounterReset => 0
        case Became(_) => l.checks
        case Checked => if l.state == Missing then l.checks else Increment(l.checks)
      }
  {}

  /** With a limit of zero the counter stands still, and no check makes the device missing. */
  lemma {:induction false} LimitOfZero(l: Life, es: seq<Event>)
    requires forall i | 0 <= i < |es| :: !es[i].Became?
    ensures var r := Run(0, l, es);
      && r.checks in {l.checks, 0}
      && (l.state != Missing ==> r.state != Missing)
    decreases |es|
  {
    if es != [] { LimitOfZero(l, es[..|es| - 1]); }
  }

  /** What takes a device to another state, and to which one. */
  predicate Leads(maxChecks: Uint32, l: Life, e: Event, s: State) {
    match e
    case Handled(configured) => configured && l.state in {Initializing, Missing} && s == Active
    case Checked => l.state != Missing && maxChecks != 0 && l.checks > maxChecks && s == Missing
    case Became(t) => s == t
    case CounterReset => false
  }

  lemma StateChangesExactly(maxChecks: Uint32, l: Life, e: Event, s: State)
    requires s != l.state
    ensures Step(maxChecks, l, e).state == s <==> Leads(maxChecks, l, e, s)
  {}

  /** The check that is event `i` of the history finds the device silent for too long. */
  predicate TimesOutAt(maxChecks: Uint32, l: Life, es: seq<Event>, i: nat)
    requires i < |es|
  {
    && es[i] == Checked && Run(maxChecks, l, es[..i]).state != Missing
    && maxChecks != 0 && ChecksSinceHeard(maxChecks, l, es[..i]) % COUNTER_MODULUS > maxChecks
  }

  /** A message configured the device, and no check has timed out since. */
  ghost predicate ConfiguredSince(maxChecks: Uint32, l: Life, es: seq<Event>) {
    exists i :: 0 <= i < |es| && es[i] == Handled(true) &&
      forall j | i < j < |es| :: !TimesOutAt(maxChecks, l, es, j)
  }

  lemma TimesOutInPrefix(maxChecks: Uint32, l: Life, es: seq<Event>, i: nat)
    requires i < |es| - 1
    ensures TimesOutAt(maxChecks, l, es[..|es| - 1], i) == TimesOutAt(maxChecks, l, es, i)
  {
    assert es[..|es| - 1][..i] == es[..i];
  }

  lemma ConfiguredSinceLast(maxChecks: Uint32, l: Life, es: seq<Event>)
    requires es != []
    ensures var n := |es| - 1;
      ConfiguredSince(maxChecks, l, es) <==>
        es[n] == Handled(true) || (ConfiguredSince(maxChecks, l, es[..n]) && !TimesOutAt(maxChecks, l, es, n))
  {
    hide TimesOutAt;
    var n := |es| - 1;
    var before := es[..n];
    if es[n] == Handled(true) { assert ConfiguredSince(maxChecks, l, es); }
    if ConfiguredSince(maxChecks, l, before) && !TimesOutAt(maxChecks, l, es, n) {
      var i :| 0 <= i < n && before[i] == Handled(true) &&
        forall j | i < j < n :: !TimesOutAt(maxChecks, l, before, j);
      forall j | i < j < |es| ensures !TimesOutAt(maxChecks, l, es, j) {
        if j < n { TimesOutInPrefix(maxChecks, l, es, j); }
      }
      assert es[i] == Handled(true);
    }
    if ConfiguredSince(maxChecks, l, es) && es[n] != Handled(true) {
      var i :| 0 <= i < |es| && es[i] == Handled(true) &&
        forall j | i < j < |es| :: !TimesOutAt(maxChecks, l, es, j);
      forall j | i < j < n ensures !TimesOutAt(maxChecks, l, before, j) { TimesOutInPrefix(maxChecks, l, es, j); }
      assert before[i] == Handled(true);
    }
  }

  /**
   Over every history in which the device's class does not set the state itself, a device that starts
   initializing is active exactly when a message configured it and no check has timed out since.
   */
  lemma {:induction false} ActiveExactly(maxChecks: Uint32, l: Life, es: seq<Event>)
    requires l.state == Initializing && forall i | 0 <= i < |es| :: !es[i].Became?
    ensures Run(maxChecks, l, es).state == Active <==> ConfiguredSince(maxChecks, l, es)
    ensures Run(maxChecks, l, es).state != Error
    decreases |es|
  {
    hide TimesOutAt, ConfiguredSince, ChecksSinceHeard;
    if es == [] {
      assert !ConfiguredSince(maxChecks, l, []) by { NeverConfigured(maxChecks, l); }
    } else {
      var n := |es| - 1;
      ActiveExactly(maxChecks, l, es[..n]);
      ConfiguredSinceLast(maxChecks, l, es);
      TimesOutExactly(maxChecks, l, es, n);
    }
  }

  lemma NeverConfigured(maxChecks: Uint32, l: Life)
    ensures !ConfiguredSince(maxChecks, l, [])
  {}

  lemma TimesOutExactly(maxChecks: Uint32, l: Life, es: seq<Event>, i: nat)
    requires i < |es|
    ensures TimesOutAt(maxChecks, l, es, i) <==>
      es[i] == Checked && Run(maxChecks, l, es[..i]).state != Missing && TimesOut(maxChecks, Run(maxChecks, l, es[..i]))
  {
    hide Run;
    if maxChecks != 0 { CounterCountsChecks(maxChecks, l, es[..i]); }
  }

  /** When a check of a device that is not missing makes it missing, whatever its class. */
  lemma {:induction false} TimeoutExact(maxChecks: Uint32, l: Life, es: seq<Event>)
    ensures Run(maxChecks, l, es).state != Missing ==>
      (SanityChecked(maxChecks, Run(maxChecks, l, es)).state == Missing <==>
        maxChecks != 0 && ChecksSinceHeard(maxChecks, l, es) % COUNTER_MODULUS >= maxChecks + 1)
  {
    if maxChecks != 0 { CounterCountsChecks(maxChecks, l, es); }
  }
}
