/** A bus as its manager and its receiver see it: the output queue, the passive mode and the error flags. */
module Buses {
  import opened CanMsgs

  datatype Mode = Synchronous | SemiSynchronous | Asynchronous

  datatype Options = Options(
    mode: Mode, maxQueueSize: nat, activateOnReception: bool, passivateOnBusError: bool)

  /** What a write to the device may come to. */
  datatype Outcome = Written | WouldBlock | WriteFailed

  /** What a read from the device may come to; a frame comes with its identifier and flag bits. */
  datatype Reception = Nothing | ReadFailed | Received(canId: bv32)

  const CAN_ERR_FLAG: bv32 := 0x2000_0000
  const CAN_RTR_FLAG: bv32 := 0x4000_0000

  predicate IsErrorFrame(canId: bv32) {
    CAN_ERR_FLAG < canId < CAN_RTR_FLAG
  }

  /** An error frame by its bits: the error flag, neither of the two flags above it, and some error class. */
  lemma ErrorFrameBits(canId: bv32)
    ensures IsErrorFrame(canId) <==> canId & 0xE000_0000 == 0x2000_0000 && canId & 0x1FFF_FFFF != 0
  {}

  // ---------------------------------------------------------------- writing

  /** The output side of a bus; `outcomes` are those of its next writes, and later ones succeed. */
  datatype Output = Output(mode: Mode, passive: bool, pending: seq<RawFrame>, wire: seq<RawFrame>, outcomes: seq<Outcome>)

  function NextOutcome(q: Output): Outcome {
    if q.outcomes == [] then Outcome.Written else q.outcomes[0]
  }

  function AfterWrite(q: Output): Output
    requires q.pending != []
  {
    var r := q.(outcomes := if q.outcomes == [] then [] else q.outcomes[1..]);
    if NextOutcome(q) == Written then r.(pending := q.pending[1..], wire := q.wire + [q.pending[0]]) else r
  }

  // ---------------------------------------------------------------- receiving

  datatype Flags = Flags(passive: bool, error: bool, persistent: bool)

  /** `readMessage`: classify the frame, then possibly activate the bus. */
  function AfterRead(o: Options, f: Flags, r: Reception): Flags {
    match r
    case Received(id) =>
      var g := if IsErrorFrame(id) then Flags(f.passive || o.passivateOnBusError, true, true) else f.(error := false);
      if g.passive && o.activateOnReception && !g.error then g.(passive := false) else g
    case _ => f
  }

  class Bus {
    const options: Options
    var isPassive: bool
    var hasBusError: bool
    var errorMsgFlag: bool
    var errorMsgFlagPersistent: bool
    var outgoingMsgs: seq<RawFrame>
    var wire: seq<RawFrame>
    var outcomes: seq<Outcome>

    constructor (options: Options, startPassive: bool, outcomes: seq<Outcome>)
      ensures this.options == options && !hasBusError
      ensures CurrentOutput() == Output(options.mode, startPassive, [], [], outcomes)
      ensures CurrentFlags() == Flags(startPassive, false, false)
    {
      this.options := options;
      this.outcomes := outcomes;
      isPassive := startPassive;
      hasBusError, errorMsgFlag, errorMsgFlagPersistent := false, false, false;
      outgoingMsgs, wire := [], [];
    }

    function CurrentOutput(): Output
      reads this
    {
      Output(options.mode, isPassive, outgoingMsgs, wire, outcomes)
    }

    function CurrentFlags(): Flags
      reads this
    {
      Flags(isPassive, errorMsgFlag, errorMsgFlagPersistent)
    }

    method SendMessage(msg: RawFrame) returns (accepted: bool)
      modifies this`outgoingMsgs
      ensures accepted <==> |old(outgoingMsgs)| < options.maxQueueSize
      ensures outgoingMsgs == if accepted then old(outgoingMsgs) + [msg] else old(outgoingMsgs)
    {
      accepted := |outgoingMsgs| < options.maxQueueSize;
      if accepted {
        outgoingMsgs := outgoingMsgs + [msg];
      }
    }

    /** The socket implementation, with nobody else at the queue meanwhile. */
    method WriteData() returns (ok: bool)
      requires outgoingMsgs != []
      modifies this`outgoingMsgs, this`wire, this`outcomes, this`hasBusError
      ensures CurrentOutput() == AfterWrite(old(CurrentOutput()))
      ensures ok <==> NextOutcome(old(CurrentOutput())) == Written
      ensures hasBusError <==> NextOutcome(old(CurrentOutput())) == WriteFailed
    {
      var msg := outgoingMsgs[0];
      var outcome := NextOutcome(CurrentOutput());
      outcomes := if outcomes == [] then [] else outcomes[1..];
      if outcome != Written {
        hasBusError := outcome != WouldBlock;
        return false;
      }
      hasBusError := false;
      wire := wire + [msg];
      outgoingMsgs := outgoingMsgs[1..];
      return true;
    }

    method WriteMessages() returns (ok: bool)
      requires isPassive || outgoingMsgs != []
      modifies this`outgoingMsgs, this`wire, this`outcomes, this`hasBusError
      ensures CurrentOutput() == if isPassive then old(CurrentOutput()) else AfterWrite(old(CurrentOutput()))
      ensures ok <==> isPassive || NextOutcome(old(CurrentOutput())) == Written
    {
      if isPassive {
        ok := true;
      } else {
        ok := WriteData();
      }
    }

    method HandleBusErrorMessage()
      modifies this`isPassive, this`errorMsgFlag, this`errorMsgFlagPersistent
      ensures CurrentFlags() == Flags(old(isPassive) || options.passivateOnBusError, true, true)
    {
      errorMsgFlagPersistent := true;
      errorMsgFlag := true;
      if options.passivateOnBusError {
        isPassive := true;
      }
    }

    /** `recv` as it turned out; the part of `handleMessage` that concerns the bus is to clear the flag. */
    method ReadData(r: Reception) returns (ok: bool)
      modifies this`isPassive, this`errorMsgFlag, this`errorMsgFlagPersistent, this`hasBusError
      ensures ok <==> r.Received?
      ensures hasBusError <==> r.ReadFailed?
      ensures CurrentFlags() == if !ok then old(CurrentFlags())
        else if IsErrorFrame(r.canId) then Flags(old(isPassive) || options.passivateOnBusError, true, true)
        else old(CurrentFlags()).(error := false)
    {
      if !r.Received? {
        hasBusError := r.ReadFailed?;
        return false;
      }
      hasBusError := false;
      if IsErrorFrame(r.canId) {
        HandleBusErrorMessage();
      } else {
        errorMsgFlag := false;
      }
      return true;
    }

    method ReadMessage(r: Reception) returns (ok: bool)
      modifies this`isPassive, this`errorMsgFlag, this`errorMsgFlagPersistent, this`hasBusError
      ensures ok <==> r.Received?
      ensures CurrentFlags() == AfterRead(options, old(CurrentFlags()), r)
    {
      ok := ReadData(r);
      if ok {
        if isPassive && options.activateOnReception && !errorMsgFlag {
          isPassive := false;
        }
      }
    }

    method ResetErrorMsgFlag() returns (was: bool)
      modifies this`errorMsgFlagPersistent
      ensures was == old(errorMsgFlagPersistent) && !errorMsgFlagPersistent
    {
      was := errorMsgFlagPersistent;
      errorMsgFlagPersistent := false;
    }
  }
}

/** The passive mode and the error flags over whole histories of a bus. */
module PassiveMode {
  import opened Buses

  datatype Event = Read(r: Reception) | FlagReset

  function Step(o: Options, f: Flags, e: Event): Flags {
    match e
    case Read(r) => AfterRead(o, f, r)
    case FlagReset => f.(persistent := false)
  }

  function Run(o: Options, f: Flags, es: seq<Event>): Flags
    decreases |es|
  {
    if es == [] then f else Step(o, Run(o, f, es[..|es| - 1]), es[|es| - 1])
  }

  predicate IsFrame(e: Event) {
    e.Read? && e.r.Received?
  }

  predicate IsError(e: Event) {
    IsFrame(e) && IsErrorFrame(e.r.canId)
  }

  predicate SomeError(es: seq<Event>) {
    exists i :: 0 <= i < |es| && IsError(es[i])
  }

  predicate SomeNormal(es: seq<Event>) {
    exists i :: 0 <= i < |es| && IsFrame(es[i]) && !IsError(es[i])
  }

  /** The last frame of the history is an error frame. */
  predicate ErrorLast(es: seq<Event>) {
    exists i :: 0 <= i < |es| && IsError(es[i]) && forall j | i < j < |es| :: !IsFrame(es[j])
  }

  /**
   The exact passive mode after any history. With both options set it is decided by the last frame; with
   one of them it can only go one way; with neither it never changes.
   */
  lemma {:induction false} PassiveExactly(o: Options, f: Flags, es: seq<Event>)
    ensures Run(o, f, es).passive <==>
      if o.passivateOnBusError && o.activateOnReception then
        ErrorLast(es) || (f.passive && !SomeError(es) && !SomeNormal(es))
      else if o.passivateOnBusError then f.passive || SomeError(es)
      else if o.activateOnReception then f.passive && !SomeNormal(es)
      else f.passive
    decreases |es|
  {
    if es != [] {
      var n := |es| - 1;
      PassiveExactly(o, f, es[..n]);
      Last(es);
    }
  }

  /** How the descriptions of a history change with its last event. */
  lemma Last(es: seq<Event>)
    requires es != []
    ensures var n := |es| - 1;
      && (SomeError(es) <==> SomeError(es[..n]) || IsError(es[n]))
      && (SomeNormal(es) <==> SomeNormal(es[..n]) || (IsFrame(es[n]) && !IsError(es[n])))
      && (ErrorLast(es) <==> IsError(es[n]) || (ErrorLast(es[..n]) && !IsFrame(es[n])))
  {
    LastErrorOrNormal(es);
    LastFrame(es);
  }

  lemma LastErrorOrNormal(es: seq<Event>)
    requires es != []
    ensures var n := |es| - 1;
      && (SomeError(es) <==> SomeError(es[..n]) || IsError(es[n]))
      && (SomeNormal(es) <==> SomeNormal(es[..n]) || (IsFrame(es[n]) && !IsError(es[n])))
  {
    hide IsError, IsFrame;
    var n := |es| - 1;
    var before := es[..n];
    assert forall i | 0 <= i < n :: es[i] == before[i];
  }

  lemma LastFrame(es: seq<Event>)
    requires es != []
    ensures var n := |es| - 1;
      ErrorLast(es) <==> IsError(es[n]) || (ErrorLast(es[..n]) && !IsFrame(es[n]))
  {
    hide IsError;
    var n := |es| - 1;
    var before := es[..n];
    ErrorsAreFrames(es[n]);
    hide IsFrame;
    if IsError(es[n]) {
      assert ErrorLast(es);
    } else {
      if ErrorLast(before) && !IsFrame(es[n]) {
        var i :| 0 <= i < n && IsError(before[i]) && forall j | i < j < n :: !IsFrame(before[j]);
        forall j | i < j < |es| ensures !IsFrame(es[j]) { assert j < n ==> es[j] == before[j]; }
        assert IsError(es[i]);
      }
      if ErrorLast(es) {
        var i :| 0 <= i < |es| && IsError(es[i]) && forall j | i < j < |es| :: !IsFrame(es[j]);
        forall j | i < j < n ensures !IsFrame(before[j]) { assert es[j] == before[j]; }
        assert IsError(before[i]);
      }
    }
  }

  lemma ErrorsAreFrames(e: Event)
    ensures IsError(e) ==> IsFrame(e)
  {}

  /** The flag of the last reception: set exactly when the last frame was an error frame. */
  lemma {:induction false} ErrorFlagExactly(o: Options, f: Flags, es: seq<Event>)
    ensures Run(o, f, es).error <==> ErrorLast(es) || (f.error && !SomeError(es) && !SomeNormal(es))
    decreases |es|
  {
    if es != [] {
      ErrorFlagExactly(o, f, es[..|es| - 1]);
      Last(es);
      hide ErrorLast, SomeError, SomeNormal;
    }
  }

  /** Whatever the options, an error frame does not activate the bus, even in the same read. */
  lemma ErrorNeverActivates(o: Options, f: Flags, e: Event)
    requires IsError(e) && f.passive
    ensures Step(o, f, e).passive
  {}

  predicate NoReset(es: seq<Event>) {
    forall i | 0 <= i < |es| :: !es[i].FlagReset?
  }

  /** An error frame arrived, and the flag was not reset after it. */
  predicate ErrorSinceReset(es: seq<Event>) {
    exists i :: 0 <= i < |es| && IsError(es[i]) && forall j | i < j < |es| :: !es[j].FlagReset?
  }

  /** The persistent flag: an error frame arrived and no reset came after it. */
  lemma {:induction false} PersistentExactly(o: Options, f: Flags, es: seq<Event>)
    ensures Run(o, f, es).persistent <==> (f.persistent && NoReset(es)) || ErrorSinceReset(es)
    decreases |es|
  {
    if es != [] {
      PersistentExactly(o, f, es[..|es| - 1]);
      LastSinceReset(es);
      hide NoReset, ErrorSinceReset;
    }
  }

  lemma LastSinceReset(es: seq<Event>)
    requires es != []
    ensures var n := |es| - 1;
      && (NoReset(es) <==> NoReset(es[..n]) && !es[n].FlagReset?)
      && (ErrorSinceReset(es) <==> IsError(es[n]) || (ErrorSinceReset(es[..n]) && !es[n].FlagReset?))
  {
    hide IsError;
    var n := |es| - 1;
    var before := es[..n];
    assert forall i | 0 <= i < n :: es[i] == before[i];
    if IsError(es[n]) {
      assert ErrorSinceReset(es);
    } else {
      if ErrorSinceReset(before) && !es[n].FlagReset? {
        var i :| 0 <= i < n && IsError(before[i]) && forall j | i < j < n :: !before[j].FlagReset?;
        forall j | i < j < |es| ensures !es[j].FlagReset? { assert j < n ==> es[j] == before[j]; }
        assert IsError(es[i]);
      }
      if ErrorSinceReset(es) {
        var i :| 0 <= i < |es| && IsError(es[i]) && forall j | i < j < |es| :: !es[j].FlagReset?;
        forall j | i < j < n ensures !before[j].FlagReset? { assert es[j] == before[j]; }
        assert IsError(before[i]);
      }
    }
  }
}
