/** SAE J1939 identifiers, and the way a frame takes from the bus to the parser of its parameter group. */
module J1939 {
  import opened Words
  import opened CanBuses

  const EXTENDED_FLAG: bv32 := 0x8000_0000
  const CAN_ID_PGN_MASK: bv32 := 0x03FF_FF00
  const DEVICE_MASK: bv32 := 0x8000_00FF

  /** The identifier that the message constructor packs; the operands are wider than the fields they get. */
  function Pack(priority: bv32, pgn: bv32, source: bv32): bv32 {
    EXTENDED_FLAG | (priority << 26) | (pgn << 8) | source
  }

  function Priority(cobId: bv32): bv32 {
    (cobId >> 26) & 0x7
  }

  function Pgn(cobId: bv32): bv32 {
    (cobId & CAN_ID_PGN_MASK) >> 8
  }

  function Source(cobId: bv32): bv32 {
    cobId & 0xFF
  }

  /** The argument types of the constructor: two 8-bit words and a 32-bit one. */
  predicate IsByte(x: bv32) {
    x & 0xFF == x
  }

  /** The fields have the widths of section 5.2 of SAE J1939-21, in bits. */
  predicate FieldsFit(priority: bv32, pgn: bv32) {
    priority & 0x7 == priority && pgn & 0x3_FFFF == pgn
  }

  lemma FieldsFitMeaning(priority: bv32, pgn: bv32)
    ensures FieldsFit(priority, pgn) <==> priority <= 7 && pgn < 0x4_0000
  {}

  lemma PackRecoversPriority(priority: bv32, pgn: bv32, source: bv32)
    requires FieldsFit(priority, pgn) && IsByte(source)
    ensures Priority(Pack(priority, pgn, source)) == priority
  {}

  lemma PackRecoversPgn(priority: bv32, pgn: bv32, source: bv32)
    requires FieldsFit(priority, pgn) && IsByte(source)
    ensures Pgn(Pack(priority, pgn, source)) == pgn
  {}

  lemma UnpackedFieldsFit(cobId: bv32)
    ensures FieldsFit(Priority(cobId), Pgn(cobId))
  {}

  /** The layout of section 5.2 of SAE J1939-21, as a number. */
  lemma PackLayout(priority: bv32, pgn: bv32, source: bv32)
    requires FieldsFit(priority, pgn) && IsByte(source)
    ensures Pack(priority, pgn, source) == 0x8000_0000 + priority * 0x400_0000 + pgn * 0x100 + source
  {}

  /** Whatever the other fields do, the source address comes back and the frame is marked extended. */
  lemma PackKeepsSource(priority: bv32, pgn: bv32, source: bv32)
    requires IsByte(source)
    ensures Source(Pack(priority, pgn, source)) == source
  {}

  /** Packing and unpacking is the identity exactly on fields that fit. */
  lemma PackRoundTrip(priority: bv32, pgn: bv32, source: bv32)
    requires IsByte(priority) && IsByte(source)
    ensures var id := Pack(priority, pgn, source);
      (Priority(id) == priority && Pgn(id) == pgn && Source(id) == source) <==> priority <= 7 && pgn < 0x4_0000
  {
    hide *;
    FieldsFitMeaning(priority, pgn);
    if FieldsFit(priority, pgn) {
      PackRecoversPriority(priority, pgn, source);
      PackRecoversPgn(priority, pgn, source);
    }
    PackKeepsSource(priority, pgn, source);
    UnpackedFieldsFit(Pack(priority, pgn, source));
  }

  // ---------------------------------------------------------------- from the bus to the device

  /** The matcher that a device registers for itself. */
  function DeviceMatcher(nodeId: bv32): Matcher {
    Matcher(EXTENDED_FLAG | nodeId, DEVICE_MASK)
  }

  predicate IsExtended(cobId: bv32) {
    cobId & EXTENDED_FLAG != 0
  }

  lemma AcceptedHasAddress(nodeId: bv32, cobId: bv32)
    requires Accepts(DeviceMatcher(nodeId), cobId)
    ensures IsExtended(cobId) && Source(cobId) == Source(nodeId)
  {}

  lemma AddressIsAccepted(nodeId: bv32, cobId: bv32)
    requires IsExtended(cobId) && Source(cobId) == Source(nodeId)
    ensures Accepts(DeviceMatcher(nodeId), cobId)
  {}

  /**
   A device accepts the extended frames with its address in the source field, whatever else they carry.
   Its address is the low byte of its node id, which may be any 32-bit word.
   */
  lemma DeviceAccepts(nodeId: bv32, cobId: bv32)
    ensures Accepts(DeviceMatcher(nodeId), cobId) <==> IsExtended(cobId) && Source(cobId) == Source(nodeId)
  {
    hide *;
    if Accepts(DeviceMatcher(nodeId), cobId) {
      AcceptedHasAddress(nodeId, cobId);
    } else if IsExtended(cobId) && Source(cobId) == Source(nodeId) {
      AddressIsAccepted(nodeId, cobId);
    }
  }

  lemma PackIsExtended(priority: bv32, pgn: bv32, source: bv32)
    ensures IsExtended(Pack(priority, pgn, source))
  {}

  /** A packed frame is accepted by the devices at its source address and by no other. */
  lemma AcceptedBySourceOnly(priority: bv32, pgn: bv32, source: bv32, nodeId: bv32)
    requires IsByte(source)
    ensures Accepts(DeviceMatcher(nodeId), Pack(priority, pgn, source)) <==> Source(nodeId) == source
  {
    hide *;
    DeviceAccepts(nodeId, Pack(priority, pgn, source));
    PackIsExtended(priority, pgn, source);
    PackKeepsSource(priority, pgn, source);
  }

  lemma SourceIsByte(nodeId: bv32)
    ensures IsByte(Source(nodeId))
  {}

  /** Two devices compete for a frame exactly when their node ids share the low byte. */
  lemma DeviceMatchersDisjoint(a: bv32, b: bv32)
    ensures Overlap(DeviceMatcher(a), DeviceMatcher(b)) <==> Source(a) == Source(b)
  {
    hide Accepts, DeviceMatcher, IsExtended, Source, IsByte, Pack;
    if cobId :| Accepts(DeviceMatcher(a), cobId) && Accepts(DeviceMatcher(b), cobId) {
      DeviceAccepts(a, cobId);
      DeviceAccepts(b, cobId);
    }
    SourceIsByte(a);
    AcceptedBySourceOnly(0, 0, Source(a), a);
    AcceptedBySourceOnly(0, 0, Source(a), b);
  }

  /** A J1939 device never competes for a frame with a callback for an identifier without the extended flag. */
  lemma DisjointFromBaseFormat(nodeId: bv32, id: bv32)
    requires !IsExtended(id)
    ensures !Overlap(DeviceMatcher(nodeId), Exactly(id))
  {
    hide DeviceMatcher, IsExtended, Source;
    forall cobId | Accepts(DeviceMatcher(nodeId), cobId) && Accepts(Exactly(id), cobId) ensures false {
      DeviceAccepts(nodeId, cobId);
      ExactlyAcceptsOne(id, cobId);
    }
  }

  lemma ExactlyAcceptsOne(id: bv32, cobId: bv32)
    requires Accepts(Exactly(id), cobId)
    ensures cobId == id
  {}

  // ---------------------------------------------------------------- from the device to the parser

  /** A parameter group number as a map key. */
  datatype Group = Group(pgn: bv32)

  datatype Parser = Parser(group: Group, id: nat)

  /** The parser map after registrations; `emplace` keeps what is there. */
  function Registered(ps: seq<Parser>): map<Group, nat> {
    if ps == [] then map[]
    else
      var before, p := Registered(ps[..|ps| - 1]), ps[|ps| - 1];
      if p.group in before then before else before[p.group := p.id]
  }

  /** `ps[i]` is the first registration for its parameter group. */
  predicate IsFirst(ps: seq<Parser>, i: nat) {
    i < |ps| && forall j | 0 <= j < i :: ps[j].group != ps[i].group
  }

  lemma {:induction false} FirstRegistrationStands(ps: seq<Parser>, i: nat)
    requires IsFirst(ps, i)
    ensures ps[i].group in Registered(ps) && Registered(ps)[ps[i].group] == ps[i].id
    decreases |ps|
  {
    var n := |ps| - 1;
    if i < n {
      assert ps[..n][i] == ps[i] && IsFirst(ps[..n], i);
      FirstRegistrationStands(ps[..n], i);
    } else {
      OnlyRegistered(ps[..n], ps[i].group);
    }
  }

  lemma {:induction false} OnlyRegistered(ps: seq<Parser>, group: Group)
    ensures group in Registered(ps) <==> exists i :: 0 <= i < |ps| && ps[i].group == group
    decreases |ps|
  {
    if ps != [] {
      var n := |ps| - 1;
      OnlyRegistered(ps[..n], group);
      if i :| 0 <= i < n && ps[i].group == group { assert ps[..n][i].group == group; }
    }
  }

  class DeviceJ1939 {
    const nodeId: bv32
    var pgnMap: map<Group, nat>
    ghost var parsers: seq<Parser>

    ghost predicate Valid()
      reads this
    {
      pgnMap == Registered(parsers)
    }

    constructor (nodeId: bv32)
      ensures Valid() && this.nodeId == nodeId && parsers == []
    {
      this.nodeId := nodeId;
      pgnMap, parsers := map[], [];
    }

    method AddParser(p: Parser)
      requires Valid()
      modifies this
      ensures Valid() && parsers == old(parsers) + [p]
    {
      if p.group !in pgnMap {
        pgnMap := pgnMap[p.group := p.id];
      }
      parsers := parsers + [p];
      assert parsers[..|parsers| - 1] == old(parsers);
    }

    /** Registers this device, number `index` of the bus, with its callback. */
    method InitDevice(bus: CanBus, index: nat, callback: nat) returns (added: bool)
      requires bus.Valid() && index < |bus.devices|
      modifies bus`table
      ensures bus.Valid() && (added <==> DeviceMatcher(nodeId) !in old(bus.table))
      ensures bus.table == if added then old(bus.table)[DeviceMatcher(nodeId) := Entry(Some(index), callback)]
                           else old(bus.table)
    {
      added := bus.AddCanMessage(DeviceMatcher(nodeId), Entry(Some(index), callback));
    }

    /** The parser that gets the frame; an unknown parameter group has none. */
    method ParseMessage(cobId: bv32) returns (parser: Option<nat>)
      requires Valid()
      ensures parser.Some? <==> exists i: nat :: IsFirst(parsers, i) && parsers[i].group == Group(Pgn(cobId))
      ensures forall i: nat | IsFirst(parsers, i) && parsers[i].group == Group(Pgn(cobId)) :: parser == Some(parsers[i].id)
    {
      ghost var group := Group(Pgn(cobId));
      OnlyRegistered(parsers, group);
      forall i: nat | IsFirst(parsers, i) { FirstRegistrationStands(parsers, i); }
      if Group(Pgn(cobId)) !in pgnMap {
        return None;
      }
      parser := Some(pgnMap[Group(Pgn(cobId))]);
      ghost var i := FirstOf(parsers, group);
      assert IsFirst(parsers, i);
    }
  }

  ghost function FirstOf(ps: seq<Parser>, group: Group): (i: nat)
    requires exists j :: 0 <= j < |ps| && ps[j].group == group
    ensures IsFirst(ps, i) && ps[i].group == group
  {
    if ps[0].group == group then 0
    else
      var i := FirstOf(ps[1..], group);
      assert forall j | 0 < j <= i :: ps[j] == ps[1..][j - 1];
      i + 1
  }

  /**
   End to end: on a bus whose matchers are disjoint, a frame packed from fitting fields goes to the device
   registered for its source address, and there to the parser first registered for its parameter group.
   */
  lemma EndToEnd(
    table: map<Matcher, Entry>, ps: seq<Parser>, i: nat, nodeId: bv32, priority: bv32, pgn: bv32, source: bv32,
    handler: Option<Entry>)
    requires Disjoint(table.Keys) && DeviceMatcher(nodeId) in table && IsByte(source) && Source(nodeId) == source
    requires priority <= 7 && pgn < 0x4_0000 && IsFirst(ps, i) && ps[i].group == Group(pgn)
    requires RoutedTo(table, Pack(priority, pgn, source), handler)
    ensures handler == Some(table[DeviceMatcher(nodeId)])
    ensures var g := Group(Pgn(Pack(priority, pgn, source))); g in Registered(ps) && Registered(ps)[g] == ps[i].id
  {
    hide Accepts, DeviceMatcher, Pack, Pgn, FieldsFit, IsByte, Source, Disjoint;
    var id := Pack(priority, pgn, source);
    FieldsFitMeaning(priority, pgn);
    AcceptedBySourceOnly(priority, pgn, source, nodeId);
    PackRecoversPgn(priority, pgn, source);
    FirstRegistrationStands(ps, i);
    RouteIsUnique(table, id, handler, Some(table[DeviceMatcher(nodeId)]));
  }
}
