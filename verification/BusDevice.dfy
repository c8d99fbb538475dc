/** The devices of a bus: those with the sanity check of the base class, and CANopen devices with their own. */
module BusDevices {
  import opened Words
  import opened CanDevices
  import opened DevicesCanOpen
  import SdoMsgs
  import SdoQueue
  import Model = CanOpenModel

  /** What other threads submit to a device while its default callback runs. */
  datatype Window = Window(before: seq<SdoMsgs.SdoMsg>, after: seq<SdoMsgs.SdoMsg>)

  predicate WellFormed(w: Window) {
    SdoQueue.AllWellFormed(w.before) && SdoQueue.AllWellFormed(w.after)
  }

  datatype Value =
    | PlainValue(maxChecks: Uint32, plain: Life)
    | CanOpenValue(options: Model.Options, node: Model.Device)
  {
    function Life(): Life {
      if PlainValue? then plain else node.life
    }

    ghost predicate Valid() {
      CanOpenValue? ==> Model.Valid(node)
    }

    /** After the device's own sanity check. */
    ghost function Checked(w: Window): Value
      requires Valid()
    {
      if PlainValue? then this.(plain := SanityChecked(maxChecks, plain))
      else this.(node := Model.SanityCheck(options, node, w.before, w.after))
    }

    /** After a message of the device was handled. */
    function Hears(configured: bool): Value {
      if PlainValue? then this.(plain := Heard(plain, configured))
      else this.(node := node.(life := Heard(node.life, configured)))
    }
  }

  /** Every device after its own sanity check. */
  ghost function CheckedValues(vs: seq<Value>, windows: seq<Window>): (r: seq<Value>)
    requires |windows| == |vs| && forall i | 0 <= i < |vs| :: vs[i].Valid()
  {
    seq(|vs|, i requires 0 <= i < |vs| => vs[i].Checked(windows[i]))
  }

  datatype Device = Plain(base: CanDevice) | CanOpen(node: DeviceCanOpen)
  {
    function Base(): CanDevice {
      if Plain? then base else node.device
    }

    ghost function Footprint(): set<object> {
      if Plain? then {base} else {node, node.device}
    }

    ghost function Value(): (v: Value)
      reads Footprint()
      ensures v.Life().state == Base().state
    {
      if Plain? then PlainValue(base.maxDeviceTimeoutCounter, base.Snapshot())
      else CanOpenValue(node.options, node.Value())
    }

    ghost predicate Valid()
      reads Footprint()
      ensures Valid() ==> Value().Valid()
    {
      CanOpen? ==> node.Valid()
    }

    /** The virtual call. */
    method SanityCheck(w: Window) returns (fine: bool)
      requires Valid() && WellFormed(w)
      modifies Footprint()
      ensures Valid() && Value() == old(Value()).Checked(w)
      ensures fine <==> Base().state != Error && Base().state != Missing
    {
      match this
      case Plain(base) => fine := base.SanityCheck();
      case CanOpen(node) =>
        Model.SanityCheckKeepsValid(node.options, node.Value(), w.before, w.after);
        fine := node.SanityCheck(w.before, w.after);
    }

    method Hear(configured: bool)
      requires Valid()
      modifies Base()
      ensures Valid() && Value() == old(Value()).Hears(configured)
    {
      Base().ResetDeviceTimeoutCounter();
      Base().ConfigureDeviceInternal(configured);
    }
  }
}

/** The devices of a bus over whole runs of the bus: each lives as if it were alone. */
module BusLives {
  import opened Words
  import opened CanDevices
  import opened BusDevices
  import DeviceLives
  import SdoQueue
  import Model = CanOpenModel

  /** A frame for device `device` was dispatched, or the sanity check of the bus was made. */
  datatype Event = Dispatched(device: nat, configured: bool) | SanityChecked(windows: seq<Window>)

  predicate Legal(n: nat, e: Event) {
    match e
    case Dispatched(k, _) => k < n
    case SanityChecked(ws) => |ws| == n && forall i | 0 <= i < n :: WellFormed(ws[i])
  }

  predicate AllLegal(n: nat, es: seq<Event>) {
    forall i | 0 <= i < |es| :: Legal(n, es[i])
  }

  ghost predicate AllValid(vs: seq<Value>) {
    forall i | 0 <= i < |vs| :: vs[i].Valid()
  }

  lemma CheckedIsValid(v: Value, w: Window)
    requires v.Valid() && WellFormed(w)
    ensures v.Checked(w).Valid()
  {
    if v.CanOpenValue? { Model.SanityCheckKeepsValid(v.options, v.node, w.before, w.after); }
  }

  ghost function Step(vs: seq<Value>, e: Event): (r: seq<Value>)
    requires AllValid(vs) && Legal(|vs|, e)
    ensures AllValid(r) && |r| == |vs|
  {
    match e
    case Dispatched(k, configured) => vs[k := vs[k].Hears(configured)]
    case SanityChecked(ws) =>
      assert forall i | 0 <= i < |vs| :: vs[i].Checked(ws[i]).Valid() by {
        forall i | 0 <= i < |vs| ensures vs[i].Checked(ws[i]).Valid() { CheckedIsValid(vs[i], ws[i]); }
      }
      CheckedValues(vs, ws)
  }

  ghost function Run(vs: seq<Value>, es: seq<Event>): (r: seq<Value>)
    requires AllValid(vs) && AllLegal(|vs|, es)
    ensures AllValid(r) && |r| == |vs|
    decreases |es|
  {
    if es == [] then vs else Step(Run(vs, es[..|es| - 1]), es[|es| - 1])
  }

  // ---------------------------------------------------------------- base-class devices

  /** What the bus event is for device `k` as a device of its own. */
  function LifeEvents(k: nat, e: Event): seq<DeviceLives.Event> {
    match e
    case Dispatched(j, configured) => if j == k then [DeviceLives.Handled(configured)] else []
    case SanityChecked(_) => [DeviceLives.Checked]
  }

  function LifeRun(k: nat, es: seq<Event>): seq<DeviceLives.Event>
    decreases |es|
  {
    if es == [] then [] else LifeRun(k, es[..|es| - 1]) + LifeEvents(k, es[|es| - 1])
  }

  lemma LifeOneMore(maxChecks: Uint32, l: Life, p: seq<DeviceLives.Event>, q: seq<DeviceLives.Event>)
    requires |q| <= 1
    ensures DeviceLives.Run(maxChecks, l, p + q) ==
      if q == [] then DeviceLives.Run(maxChecks, l, p)
      else DeviceLives.Step(maxChecks, DeviceLives.Run(maxChecks, l, p), q[0])
  {
    hide DeviceLives.Step;
    if q == [] { assert p + q == p; } else { assert (p + q)[..|p|] == p; }
  }

  /** One bus event is at most one event of the device's own. */
  lemma PlainStep(vs: seq<Value>, e: Event, k: nat)
    requires AllValid(vs) && Legal(|vs|, e) && k < |vs| && vs[k].PlainValue?
    ensures var v, q := vs[k], LifeEvents(k, e);
      && |q| <= 1
      && Step(vs, e)[k] ==
           (if q == [] then v else PlainValue(v.maxChecks, DeviceLives.Step(v.maxChecks, v.plain, q[0])))
  {}

  lemma {:induction false} PlainDevicesLiveAlone(vs: seq<Value>, es: seq<Event>, k: nat)
    requires AllValid(vs) && AllLegal(|vs|, es) && k < |vs| && vs[k].PlainValue?
    ensures Run(vs, es)[k] ==
      PlainValue(vs[k].maxChecks, DeviceLives.Run(vs[k].maxChecks, vs[k].plain, LifeRun(k, es)))
    decreases |es|
  {
    hide Step, DeviceLives.Step, Value.Valid, Legal, LifeEvents;
    if es != [] {
      var before, e := es[..|es| - 1], es[|es| - 1];
      PlainDevicesLiveAlone(vs, before, k);
      PlainStep(Run(vs, before), e, k);
      LifeOneMore(vs[k].maxChecks, vs[k].plain, LifeRun(k, before), LifeEvents(k, e));
    }
  }

  // ---------------------------------------------------------------- CANopen devices

  function NodeEvents(k: nat, e: Event): seq<Model.Event>
    requires e.SanityChecked? ==> k < |e.windows|
  {
    match e
    case Dispatched(j, configured) => if j == k then [Model.Received(configured)] else []
    case SanityChecked(ws) => [Model.Checked(ws[k].before, ws[k].after)]
  }

  function NodeRun(n: nat, k: nat, es: seq<Event>): (r: seq<Model.Event>)
    requires AllLegal(n, es) && k < n
    ensures Model.AllLegal(r)
    decreases |es|
  {
    if es == [] then []
    else
      assert Legal(n, es[|es| - 1]);
      NodeRun(n, k, es[..|es| - 1]) + NodeEvents(k, es[|es| - 1])
  }

  lemma NodeOneMore(o: Model.Options, d: Model.Device, p: seq<Model.Event>, q: seq<Model.Event>)
    requires Model.Valid(d) && Model.AllLegal(p) && Model.AllLegal(q) && |q| <= 1
    ensures Model.AllLegal(p + q)
    ensures Model.Run(o, d, p + q) ==
      if q == [] then Model.Run(o, d, p) else Model.Step(o, Model.Run(o, d, p), q[0])
  {
    hide Model.Step, Model.Valid, Model.Legal;
    if q == [] { assert p + q == p; } else { assert (p + q)[..|p|] == p; }
  }

  lemma NodeStep(vs: seq<Value>, e: Event, k: nat)
    requires AllValid(vs) && Legal(|vs|, e) && k < |vs| && vs[k].CanOpenValue?
    ensures var v, q := vs[k], NodeEvents(k, e);
      && |q| <= 1 && Model.AllLegal(q) && Model.Valid(v.node)
      && Step(vs, e)[k] == (if q == [] then v else CanOpenValue(v.options, Model.Step(v.options, v.node, q[0])))
  {
    hide Model.Valid, Model.SanityCheck;
    assert vs[k].Valid();
  }

  lemma {:induction false} CanOpenDevicesLiveAlone(vs: seq<Value>, es: seq<Event>, k: nat)
    requires AllValid(vs) && AllLegal(|vs|, es) && k < |vs| && vs[k].CanOpenValue?
    ensures Model.Valid(vs[k].node)
    ensures Run(vs, es)[k] ==
      CanOpenValue(vs[k].options, Model.Run(vs[k].options, vs[k].node, NodeRun(|vs|, k, es)))
    decreases |es|
  {
    assert vs[k].Valid();
    hide Step, Model.Step, Model.Valid, Legal, NodeEvents;
    if es != [] {
      var before, e := es[..|es| - 1], es[|es| - 1];
      CanOpenDevicesLiveAlone(vs, before, k);
      NodeStep(Run(vs, before), e, k);
      NodeOneMore(vs[k].options, vs[k].node, NodeRun(|vs|, k, before), NodeEvents(k, e));
    }
  }

  // ---------------------------------------------------------------- timeouts

  /** The device limit of a value. */
  function MaxChecks(v: Value): Uint32 {
    if v.PlainValue? then v.maxChecks else v.options.maxChecks
  }

  /** Sanity checks of the bus made on device `k` while it was not missing, since a message of it was handled. */
  ghost function ChecksSinceHeard(vs: seq<Value>, es: seq<Event>, k: nat): nat
    requires AllValid(vs) && AllLegal(|vs|, es) && k < |vs|
    decreases |es|
  {
    if es == [] then vs[k].Life().checks
    else
      var before := es[..|es| - 1];
      match es[|es| - 1]
      case Dispatched(j, _) => if j == k then 0 else ChecksSinceHeard(vs, before, k)
      case SanityChecked(_) =>
        ChecksSinceHeard(vs, before, k) + (if Run(vs, before)[k].Life().state == Missing then 0 else 1)
  }

  lemma StepCounter(vs: seq<Value>, e: Event, k: nat)
    requires AllValid(vs) && Legal(|vs|, e) && k < |vs| && MaxChecks(vs[k]) != 0
    ensures Step(vs, e)[k].Life().checks ==
      match e {
        case Dispatched(j, _) => if j == k then 0 else vs[k].Life().checks
        case SanityChecked(_) =>
          if vs[k].Life().state == Missing then vs[k].Life().checks else Increment(vs[k].Life().checks)
      }
  {
    hide Model.CheckSdoTimeout;
    if e.SanityChecked? && vs[k].CanOpenValue? {
      var v, w := vs[k], e.windows[k];
      assert v.Valid();
      CheckSdoTimeoutKeepsCounter(v.options, v.node.(life := Ticked(v.options.maxChecks, v.node.life)), w);
    }
  }

  lemma CheckSdoTimeoutKeepsCounter(o: Model.Options, d: Model.Device, w: Window)
    requires SdoQueue.Aligned(d.client)
    ensures Model.CheckSdoTimeout(o, d, w.before, w.after).life.checks == d.life.checks
  {
    hide SdoQueue.Check;
  }

  lemma {:induction false} CounterCountsChecks(vs: seq<Value>, es: seq<Event>, k: nat)
    requires AllValid(vs) && AllLegal(|vs|, es) && k < |vs| && MaxChecks(vs[k]) != 0
    ensures Run(vs, es)[k].Life().checks == ChecksSinceHeard(vs, es, k) % COUNTER_MODULUS
    decreases |es|
  {
    hide Step, Value.Valid, Value.Life, MaxChecks, Legal;
    if es != [] {
      var before := es[..|es| - 1];
      CounterCountsChecks(vs, before, k);
      LimitStays(vs, before, k);
      StepCounter(Run(vs, before), es[|es| - 1], k);
    }
  }

  lemma CheckTimesOut(vs: seq<Value>, ws: seq<Window>, k: nat)
    requires AllValid(vs) && Legal(|vs|, SanityChecked(ws)) && k < |vs| && vs[k].Life().state != Missing
    ensures Step(vs, SanityChecked(ws))[k].Life().state == Missing <==>
      MaxChecks(vs[k]) != 0 && vs[k].Life().checks > MaxChecks(vs[k])
  {
    assert vs[k].Valid();
    if vs[k].CanOpenValue? {
      var v, w := vs[k], ws[k];
      Model.CheckTimesOut(v.options, v.node, w.before, w.after);
      hide Model.Valid, Model.SanityCheck;
    }
  }

  /**
   Over every run of a bus: its sanity check makes a device that was not missing a missing one exactly when
   the device's limit is not zero and more checks than the limit were made since a frame of it was handled.
   */
  lemma TimeoutExact(vs: seq<Value>, es: seq<Event>, k: nat, ws: seq<Window>)
    requires AllValid(vs) && AllLegal(|vs|, es) && k < |vs| && Legal(|vs|, SanityChecked(ws))
    ensures Run(vs, es)[k].Life().state != Missing ==>
      (Step(Run(vs, es), SanityChecked(ws))[k].Life().state == Missing <==>
        MaxChecks(vs[k]) != 0 && ChecksSinceHeard(vs, es, k) % COUNTER_MODULUS >= MaxChecks(vs[k]) + 1)
  {
    hide Step, Value.Valid, Value.Life, Legal, ChecksSinceHeard;
    if Run(vs, es)[k].Life().state != Missing { CheckTimesOut(Run(vs, es), ws, k); }
    LimitStays(vs, es, k);
    if MaxChecks(vs[k]) != 0 { CounterCountsChecks(vs, es, k); }
  }

  lemma StepKeepsLimit(vs: seq<Value>, e: Event, k: nat)
    requires AllValid(vs) && Legal(|vs|, e) && k < |vs|
    ensures MaxChecks(Step(vs, e)[k]) == MaxChecks(vs[k])
  {
    hide Model.SanityCheck, Model.Valid;
  }

  lemma {:induction false} LimitStays(vs: seq<Value>, es: seq<Event>, k: nat)
    requires AllValid(vs) && AllLegal(|vs|, es) && k < |vs|
    ensures MaxChecks(Run(vs, es)[k]) == MaxChecks(vs[k])
    decreases |es|
  {
    hide Step, Value.Valid, MaxChecks, Legal;
    if es != [] {
      LimitStays(vs, es[..|es| - 1], k);
      StepKeepsLimit(Run(vs, es[..|es| - 1]), es[|es| - 1], k);
    }
  }
}
