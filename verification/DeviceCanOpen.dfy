/**
 The CANopen device with its own fields and methods, each proved to do what CanOpenModel says.
 `device` is the base-class part. `sent` is what was handed to the bus. The `before` and `after`
 parameters stand for the submissions of other threads while the queue mutex is released.
 */
module DevicesCanOpen {
  import opened Words
  import opened CanMsgs
  import opened SdoMsgs
  import opened SdoQueue
  import opened SdoAnswers
  import opened CanDevices
  import Model = CanOpenModel

  class DeviceCanOpen {
    const options: Model.Options
    const device: CanDevice
    var sdoTimeoutCounter: Uint32
    var sdoSentCounter: Uint32
    var sdoMsgs: seq<SdoMsg>
    var sdoAnswerMap: map<Uint32, Frame>
    var sent: seq<SdoMsg>
    ghost var submitted: seq<SdoMsg>
    ghost var log: seq<nat>

    ghost function Client(): Client
      reads this
    {
      SdoQueue.Client.Client(sdoMsgs, sdoTimeoutCounter, sdoSentCounter, sent, submitted, log)
    }

    ghost function Value(): Model.Device
      reads this, device
    {
      Model.Device.Device(device.Snapshot(), Client(), sdoAnswerMap)
    }

    ghost predicate Valid()
      reads this, device
    {
      device.maxDeviceTimeoutCounter == options.maxChecks && Model.Valid(Value())
    }

    constructor (options: Model.Options)
      ensures Valid() && fresh(device)
      ensures this.options == options && Value() == Model.CREATED
    {
      this.options := options;
      device := new CanDevice(options.maxChecks);
      sdoTimeoutCounter, sdoSentCounter := 0, 0;
      sdoMsgs, sdoAnswerMap, sent := [], map[], [];
      submitted, log := [], [];
      new;
      Model.CreatedIsValid();
      hide Model.Valid;
      assert Value() == Model.CREATED;
    }

    /** `bus_->sendMessage(sdoMsgs_.front())`. */
    method TransmitFront()
      requires Aligned(Client()) && sdoMsgs != []
      modifies this`sent, this`log
      ensures Client() == Transmit(old(Client()))
    {
      log := log + [Head(Client())];
      sent := sent + [sdoMsgs[0]];
    }

    method SendSdo(m: SdoMsg)
      requires Aligned(Client()) && WellFormed(m)
      modifies this
      ensures Value() == Model.SendSdo(old(Value()), m)
    {
      sdoMsgs := sdoMsgs + [m];
      submitted := submitted + [m];
      if |sdoMsgs| == 1 {
        sdoTimeoutCounter := 0;
        sdoSentCounter := 0;
        TransmitFront();
        if m.requiresAnswer {
          sdoAnswerMap := Remove(sdoAnswerMap, Target(m.frame));
        } else {
          sdoMsgs := sdoMsgs[1..];
        }
      }
    }

    /** What other threads submit during a window, one message after the other. */
    method Window(w: seq<SdoMsg>)
      requires Aligned(Client()) && AllWellFormed(w) && sdoMsgs != []
      modifies this
      ensures Value() == old(Value()).(client := old(Client()).(queue := old(sdoMsgs) + w, submitted := old(submitted) + w))
    {
      for i := 0 to |w|
        invariant Aligned(Client()) && sdoMsgs != []
        invariant Value() == old(Value()).(client := old(Client()).(queue := old(sdoMsgs) + w[..i], submitted := old(submitted) + w[..i]))
      {
        assert w[..i + 1] == w[..i] + [w[i]];
        SendSdo(w[i]);
      }
      assert w[..|w|] == w;
    }

    method SendNextSdo()
      requires Aligned(Client()) && sdoMsgs != []
      modifies this
      ensures Value() == old(Value()).(client := SendNext(old(Client())))
    {
      sdoTimeoutCounter := 0;
      sdoSentCounter := 0;
      sdoMsgs := sdoMsgs[1..];
      while |sdoMsgs| > 0
        invariant Aligned(Client())
        invariant Flush(Client()) == SendNext(old(Client()))
        invariant Value() == old(Value()).(client := Client())
        decreases |sdoMsgs|
      {
        TransmitFront();
        if !sdoMsgs[0].requiresAnswer {
          sdoMsgs := sdoMsgs[1..];
        } else {
          return;
        }
      }
    }

    method ClearSdoQueue()
      modifies this`sdoMsgs, this`submitted, this`log
      ensures Value() == old(Value()).(client := Clear(old(Client())))
    {
      sdoMsgs := [];
      submitted, log := [], [];
    }

    method SetNmtStopRemoteDevice()
      requires Aligned(Client())
      modifies this
      ensures Value() == Model.SendSdo(old(Value()), Model.Stop(options))
    {
      SendSdo(Nmt(options.nodeId % 0x100, NMT_STOP));
    }

    method SetNmtResetRemoteCommunication()
      modifies this, device`state
      ensures Value() == Model.ResetCommunication(options, old(Value()))
    {
      ClearSdoQueue();
      SendSdo(Nmt(options.nodeId % 0x100, NMT_RESET_COMMUNICATION));
      device.state := Initializing;
    }

    method SetNmtRestartRemoteDevice()
      modifies this, device
      ensures Value() == Model.Restart(options, old(Value()))
    {
      ClearSdoQueue();
      device.ResetDeviceTimeoutCounter();
      SendSdo(Nmt(options.nodeId % 0x100, NMT_RESTART));
      device.state := Initializing;
    }

    /** The default callback for a request that was given up; its head is read for a warning. */
    method HandleTimedoutSdo(before: seq<SdoMsg>, after: seq<SdoMsg>)
      requires Aligned(Client()) && AllWellFormed(before) && AllWellFormed(after)
      requires sdoMsgs != [] && sdoMsgs[0].frame.length == 8
      modifies this, device`state
      ensures sdoMsgs != [] && sdoMsgs[0] == old(sdoMsgs[0])
      ensures Client() == SubmitAll(old(Client()), Model.TimeoutWindow(options, old(device.state), before, after))
      ensures device.state == if old(device.state) == Active then Error else old(device.state)
      ensures sdoAnswerMap == old(sdoAnswerMap)
    {
      SubmitAllGrows(Client(), Model.TimeoutWindow(options, device.state, before, after));
      var given := Read(sdoMsgs[0].frame, U32, 4);
      Window(before);
      if device.state == Active {
        SetNmtStopRemoteDevice();
        device.state := Error;
      }
      Window(after);
    }

    /** The default callback for an error response to the head of the queue. */
    method HandleSdoError(answer: Frame, before: seq<SdoMsg>, after: seq<SdoMsg>)
      requires Aligned(Client()) && AllWellFormed(before) && AllWellFormed(after)
      requires sdoMsgs != [] && sdoMsgs[0].frame.length == 8 && answer.length == 8
      modifies this, device`state
      ensures sdoMsgs != [] && sdoMsgs[0] == old(sdoMsgs[0])
      ensures Client() == SubmitAll(old(Client()), before + [Model.Stop(options)] + after)
      ensures device.state == Error
      ensures sdoAnswerMap == old(sdoAnswerMap)
    {
      SubmitAllGrows(Client(), before + [Model.Stop(options)] + after);
      var error, request := Read(answer, U32, 4), Read(sdoMsgs[0].frame, U32, 4);
      Window(before);
      SetNmtStopRemoteDevice();
      device.state := Error;
      Window(after);
    }

    method CheckSdoTimeout(before: seq<SdoMsg>, after: seq<SdoMsg>) returns (ok: bool)
      requires Valid() && AllWellFormed(before) && AllWellFormed(after)
      modifies this, device`state
      ensures Value() == Model.CheckSdoTimeout(options, old(Value()), before, after)
      ensures ok == !GivesUp(options.limits, old(Client()))
    {
      ok := true;
      if options.limits.maxTimeout != 0 {
        var timedOut := false;
        if |sdoMsgs| != 0 {
          timedOut := sdoTimeoutCounter > options.limits.maxTimeout;
          sdoTimeoutCounter := Increment(sdoTimeoutCounter);
        }
        if timedOut {
          if sdoSentCounter > options.limits.maxSent {
            HandleTimedoutSdo(before, after);
            SendNextSdo();
            ok := false;
          } else {
            sdoSentCounter := Increment(sdoSentCounter);
            TransmitFront();
          }
        }
      }
    }

    method SanityCheck(before: seq<SdoMsg>, after: seq<SdoMsg>) returns (fine: bool)
      requires Valid() && AllWellFormed(before) && AllWellFormed(after)
      modifies this, device
      ensures Value() == Model.SanityCheck(options, old(Value()), before, after)
      ensures fine <==> device.state != Error && device.state != Missing
    {
      if device.state != Missing {
        var timedOut := device.IsTimedOut();
        if timedOut {
          device.state := Missing;
          ClearSdoQueue();
        } else {
          var ok := CheckSdoTimeout(before, after);
        }
      }
      fine := !(device.state == Error || device.state == Missing);
    }

    /** Stores a read response, then runs the callback for it with the queue mutex released. */
    method KeepReadResponse(f: Frame, before: seq<SdoMsg>, after: seq<SdoMsg>)
      requires Aligned(Client()) && sdoMsgs != [] && f.length >= 4
      requires AllWellFormed(before) && AllWellFormed(after)
      modifies this
      ensures sdoMsgs != [] && Client() == SubmitAll(old(Client()), before + after)
      ensures sdoAnswerMap == Store(old(sdoAnswerMap), Target(f), f)
    {
      sdoAnswerMap := Store(sdoAnswerMap, Target(f), f);
      SubmitAllGrows(Client(), before + after);
      Window(before);
      Window(after);
    }

    method ParseSdoAnswer(f: Frame, before: seq<SdoMsg>, after: seq<SdoMsg>) returns (expected: bool)
      requires Valid() && f.length >= 4 && AllWellFormed(before) && AllWellFormed(after)
      requires (Matches(Client(), f) && Command(f) != 0x80) || f.length == 8
      modifies this, device`state
      ensures Value() == Model.ParseSdoAnswer(options, old(Value()), f, before, after)
      ensures expected == Matches(old(Client()), f)
    {
      if |sdoMsgs| != 0 && Target(sdoMsgs[0].frame) == Target(f) {
        var mode := Command(f);
        ghost var c := Client();
        if mode == 0x42 || mode == 0x43 || mode == 0x4B || mode == 0x4F {
          KeepReadResponse(f, before, after);
        } else if mode == 0x80 {
          HandleSdoError(f, before, after);
        }
        assert Client() == SubmitAll(c, if OpensWindow(f) then Model.AnswerWindow(options, f, before, after) else []);
        SendNextSdo();
        return true;
      }
      var data := Read(f, U32, 4);
      expected := false;
    }

    /** Returns the latest unfetched answer for `t`, if there is one, and forgets it. */
    method GetSdoAnswer(t: Object) returns (answer: Option<Frame>)
      requires Valid()
      modifies this`sdoAnswerMap
      ensures Value() == Model.GetSdoAnswer(old(Value()), t)
      ensures answer == Lookup(old(sdoAnswerMap), t)
    {
      answer := None;
      if AnswerId(t) in sdoAnswerMap {
        answer := Some(sdoAnswerMap[AnswerId(t)]);
      }
      sdoAnswerMap := Remove(sdoAnswerMap, t);
    }
  }
}
