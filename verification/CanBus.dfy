/** Masked dispatch of received frames, and the sanity check of all devices of a bus. */
module CanBuses {
  import opened Words
  import opened CanDevices
  import opened BusDevices
  import Buses
  import SdoMsgs

  // ---------------------------------------------------------------- matchers

  datatype Matcher = Matcher(identifier: bv32, mask: bv32)

  const FULL_MASK: bv32 := 0xFFFF_FFFF

  /** The matcher that `addCanMessage` builds from a bare identifier. */
  function Exactly(id: bv32): Matcher {
    Matcher(id, FULL_MASK)
  }

  predicate Accepts(m: Matcher, cobId: bv32) {
    (cobId ^ m.identifier) & m.mask == 0
  }

  ghost predicate Overlap(a: Matcher, b: Matcher) {
    exists cobId :: Accepts(a, cobId) && Accepts(b, cobId)
  }

  /** An identifier that agrees with `j` on the bits of `n`, and with `i` on the others. */
  function Blend(i: bv32, j: bv32, n: bv32): bv32 {
    i ^ ((i ^ j) & n)
  }

  /** Agreement of two identifiers under two masks, bit by bit. */
  predicate AgreeOn(i: bv32, j: bv32, m: bv32, n: bv32) {
    (i ^ j) & m & n == 0
  }

  /** The two agree on the bits that both look at. */
  predicate Agree(a: Matcher, b: Matcher) {
    AgreeOn(a.identifier, b.identifier, a.mask, b.mask)
  }

  lemma BlendAccepted(a: Matcher, b: Matcher)
    requires Agree(a, b)
    ensures Accepts(a, Blend(a.identifier, b.identifier, b.mask))
    ensures Accepts(b, Blend(a.identifier, b.identifier, b.mask))
  {}

  lemma SharedBits(a: Matcher, b: Matcher, cobId: bv32)
    requires Accepts(a, cobId) && Accepts(b, cobId)
    ensures Agree(a, b)
  {}

  /** Two matchers can accept the same identifier exactly when they agree on the bits both look at. */
  lemma OverlapExactly(a: Matcher, b: Matcher)
    ensures Overlap(a, b) <==> Agree(a, b)
  {
    hide Agree, Accepts, Blend;
    if Agree(a, b) {
      BlendAccepted(a, b);
    }
    if cobId :| Accepts(a, cobId) && Accepts(b, cobId) {
      SharedBits(a, b, cobId);
    }
  }

  lemma NoDifferingBit(a: bv32, b: bv32)
    requires a ^ b == 0
    ensures a == b
  {}

  lemma FullMaskIsEquality(a: bv32, b: bv32)
    ensures AgreeOn(a, b, FULL_MASK, FULL_MASK) <==> a == b
  {
    if a ^ b == 0 { NoDifferingBit(a, b); }
  }

  lemma ExactMatchersOverlap(a: bv32, b: bv32)
    ensures Overlap(Exactly(a), Exactly(b)) <==> a == b
  {
    hide Overlap, AgreeOn, FULL_MASK;
    FullMaskIsEquality(a, b);
    OverlapExactly(Exactly(a), Exactly(b));
  }

  ghost predicate Disjoint(ms: set<Matcher>) {
    forall a, b | a in ms && b in ms && a != b :: !Overlap(a, b)
  }

  // ---------------------------------------------------------------- dispatch

  /** The first matcher of an iteration order that accepts the identifier. */
  function First(order: seq<Matcher>, cobId: bv32): Option<Matcher> {
    if order == [] then None
    else if Accepts(order[0], cobId) then Some(order[0])
    else First(order[1..], cobId)
  }

  /** An iteration of a map meets every key exactly once. */
  ghost predicate IsOrderOf(order: seq<Matcher>, ms: set<Matcher>) {
    && (forall m :: m in order <==> m in ms)
    && (forall i, j | 0 <= i < j < |order| :: order[i] != order[j])
  }

  lemma {:induction false} FirstMeaning(order: seq<Matcher>, cobId: bv32)
    ensures First(order, cobId).Some? ==>
      First(order, cobId).value in order && Accepts(First(order, cobId).value, cobId)
    ensures First(order, cobId).None? <==> forall m | m in order :: !Accepts(m, cobId)
    ensures First(order, cobId).Some? ==>
      exists i :: 0 <= i < |order| && First(order, cobId) == Some(order[i]) &&
        forall j | 0 <= j < i :: !Accepts(order[j], cobId)
  {
    if order != [] && Accepts(order[0], cobId) {
      assert First(order, cobId) == Some(order[0]);
    }
    if order != [] && !Accepts(order[0], cobId) {
      FirstMeaning(order[1..], cobId);
      if First(order[1..], cobId).Some? {
        var i :| 0 <= i < |order[1..]| && First(order[1..], cobId) == Some(order[1..][i]) &&
          forall j | 0 <= j < i :: !Accepts(order[1..][j], cobId);
        assert order[i + 1] == order[1..][i];
        assert forall j | 0 < j < i + 1 :: order[j] == order[1..][j - 1];
      }
      assert forall m | m in order :: m == order[0] || m in order[1..];
    }
  }

  /** On pairwise disjoint matchers the iteration order of the map does not matter. */
  lemma OrderIndependent(ms: set<Matcher>, p: seq<Matcher>, q: seq<Matcher>, cobId: bv32)
    requires Disjoint(ms) && IsOrderOf(p, ms) && IsOrderOf(q, ms)
    ensures First(p, cobId) == First(q, cobId)
  {
    FirstMeaning(p, cobId);
    FirstMeaning(q, cobId);
    if First(p, cobId).Some? && First(q, cobId).Some? {
      assert First(p, cobId).value == First(q, cobId).value by {
        if First(p, cobId).value != First(q, cobId).value {
          assert Overlap(First(p, cobId).value, First(q, cobId).value);
        }
      }
    }
  }

  /** The iteration order that meets `order[k]` before all others. */
  function ToFront(order: seq<Matcher>, k: nat): seq<Matcher>
    requires k < |order|
  {
    [order[k]] + order[..k] + order[k + 1..]
  }

  lemma ToFrontIsOrder(ms: set<Matcher>, order: seq<Matcher>, k: nat)
    requires IsOrderOf(order, ms) && k < |order|
    ensures IsOrderOf(ToFront(order, k), ms)
  {
    var r := ToFront(order, k);
    forall m ensures m in r <==> m in ms {
      if m in ms {
        var i :| 0 <= i < |order| && order[i] == m;
        assert r[if i == k then 0 else if i < k then i + 1 else i] == m;
      }
    }
  }

  /** Two overlapping matchers: two iteration orders of the map send some frame to either of them. */
  lemma OverlapIsAmbiguous(ms: set<Matcher>, order: seq<Matcher>, a: Matcher, b: Matcher)
    requires IsOrderOf(order, ms) && a in ms && b in ms && Overlap(a, b)
    ensures exists p, q, cobId ::
      IsOrderOf(p, ms) && IsOrderOf(q, ms) && First(p, cobId) == Some(a) && First(q, cobId) == Some(b)
  {
    var cobId :| Accepts(a, cobId) && Accepts(b, cobId);
    var i :| 0 <= i < |order| && order[i] == a;
    var j :| 0 <= j < |order| && order[j] == b;
    ToFrontIsOrder(ms, order, i);
    ToFrontIsOrder(ms, order, j);
    assert First(ToFront(order, i), cobId) == Some(a) && First(ToFront(order, j), cobId) == Some(b);
  }

  // ---------------------------------------------------------------- the pre-defined connection set

  /** The COB-ID bases that a node id is added to. */
  const COB_ID_BASES: set<bv32> :=
    {0x80, 0x180, 0x200, 0x280, 0x300, 0x380, 0x400, 0x480, 0x500, 0x580, 0x600, 0x700}

  /** The NMT command and the SYNC object have no node id. */
  const BROADCASTS: set<bv32> := {0x0, 0x80}

  predicate IsNodeId(n: bv32) {
    n != 0 && n & 0x7F == n
  }

  lemma NodeIdsAreOneTo127(n: bv32)
    ensures IsNodeId(n) <==> 1 <= n <= 127
  {}

  function CobId(base: bv32, n: bv32): bv32 { base + n }

  function NodePart(id: bv32): bv32 { id & 0x7F }

  function BasePart(id: bv32): bv32 { id & !0x7F }

  lemma CobIdParts(base: bv32, n: bv32)
    requires base in COB_ID_BASES && IsNodeId(n)
    ensures NodePart(CobId(base, n)) == n && BasePart(CobId(base, n)) == base
  {}

  lemma BroadcastsAreNotNodeIds(base: bv32, n: bv32, id: bv32)
    requires base in COB_ID_BASES && IsNodeId(n) && id in BROADCASTS
    ensures CobId(base, n) != id
  {}

  predicate IsPdoNumber(k: bv32) {
    1 <= k <= 4
  }

  /** The bases of the pre-defined connection set: emergency, four PDOs each way, SDO each way, NMT error control. */
  lemma ConnectionSetBases(base: bv32)
    ensures base in COB_ID_BASES <==>
      base in {0x80, 0x580, 0x600, 0x700}
      || exists k :: IsPdoNumber(k) && (base == 0x80 + 0x100 * k || base == 0x100 + 0x100 * k)
  {
    if base in COB_ID_BASES && base !in {0x80, 0x580, 0x600, 0x700} {
      var k: bv32 := if base in {0x180, 0x200} then 1 else if base in {0x280, 0x300} then 2
                     else if base in {0x380, 0x400} then 3 else 4;
      assert IsPdoNumber(k) && (base == 0x80 + 0x100 * k || base == 0x100 + 0x100 * k);
    }
  }

  /** A request goes out under the SDO identifier of its node, an NMT command under the broadcast one. */
  lemma RequestsNameTheirNode(n: bv32, command: Byte, index: Uint16, subIndex: Byte, data: Uint32, nmt: Byte, node: Byte)
    requires IsNodeId(n)
    ensures var id := SdoMsgs.Request(n, command, index, subIndex, data).frame.cobId;
      id == CobId(0x600, n) && NodePart(id) == n && BasePart(id) == 0x600
    ensures SdoMsgs.Nmt(node, nmt).frame.cobId == 0 && 0 in BROADCASTS
  {
    CobIdParts(0x600, n);
  }

  /** Objects of different nodes, or different objects of one node, never share an identifier. */
  lemma ConnectionSetIsDisjoint(base1: bv32, n1: bv32, base2: bv32, n2: bv32, id: bv32)
    requires base1 in COB_ID_BASES && base2 in COB_ID_BASES && IsNodeId(n1) && IsNodeId(n2)
    ensures Overlap(Exactly(CobId(base1, n1)), Exactly(CobId(base2, n2))) <==> base1 == base2 && n1 == n2
    ensures id in BROADCASTS ==> !Overlap(Exactly(CobId(base1, n1)), Exactly(id))
  {
    hide Overlap, Exactly, CobId, NodePart, BasePart, IsNodeId, COB_ID_BASES;
    ExactMatchersOverlap(CobId(base1, n1), CobId(base2, n2));
    ExactMatchersOverlap(CobId(base1, n1), id);
    CobIdParts(base1, n1);
    CobIdParts(base2, n2);
    if id in BROADCASTS { BroadcastsAreNotNodeIds(base1, n1, id); }
  }

  // ---------------------------------------------------------------- the bus

  /** A registered callback, and the device it belongs to unless it belongs to something else. */
  datatype Entry = Entry(device: Option<nat>, callback: nat)

  /** Who gets a frame: the callback of a matcher that accepts it, if there is one. */
  ghost predicate RoutedTo(table: map<Matcher, Entry>, cobId: bv32, handler: Option<Entry>) {
    match handler
    case Some(e) => exists m :: m in table && Accepts(m, cobId) && table[m] == e
    case None => forall m | m in table :: !Accepts(m, cobId)
  }

  /** On a table of disjoint matchers there is only one answer. */
  lemma RouteIsUnique(table: map<Matcher, Entry>, cobId: bv32, p: Option<Entry>, q: Option<Entry>)
    requires Disjoint(table.Keys) && RoutedTo(table, cobId, p) && RoutedTo(table, cobId, q)
    ensures p == q
  {
    if p.Some? && q.Some? {
      var m :| m in table && Accepts(m, cobId) && table[m] == p.value;
      var n :| n in table && Accepts(n, cobId) && table[n] == q.value;
      if m != n { assert Overlap(m, n); }
    }
  }

  /** The entry that an iteration of the table in this order finds. */
  function Handler(table: map<Matcher, Entry>, order: seq<Matcher>, cobId: bv32): Option<Entry>
    requires IsOrderOf(order, table.Keys)
  {
    FirstMeaning(order, cobId);
    match First(order, cobId)
    case Some(m) => Some(table[m])
    case None => None
  }

  lemma HandlerIsRouted(table: map<Matcher, Entry>, order: seq<Matcher>, cobId: bv32)
    requires IsOrderOf(order, table.Keys)
    ensures RoutedTo(table, cobId, Handler(table, order, cobId))
  {
    FirstMeaning(order, cobId);
  }

  /** Some frame goes to different entries in different iteration orders. */
  ghost predicate OrderDecides(table: map<Matcher, Entry>) {
    exists p, q, cobId ::
      IsOrderOf(p, table.Keys) && IsOrderOf(q, table.Keys) && Handler(table, p, cobId) != Handler(table, q, cobId)
  }

  /** Two registered matchers overlap and lead to different entries. */
  ghost predicate Conflict(table: map<Matcher, Entry>) {
    exists a, b :: a in table && b in table && Overlap(a, b) && table[a] != table[b]
  }

  /** The iteration order of the table decides about some frame exactly when two of its entries conflict. */
  lemma OrderMatters(table: map<Matcher, Entry>, order: seq<Matcher>)
    requires IsOrderOf(order, table.Keys)
    ensures OrderDecides(table) <==> Conflict(table)
  {
    if Conflict(table) {
      var a, b :| a in table && b in table && Overlap(a, b) && table[a] != table[b];
      OverlapIsAmbiguous(table.Keys, order, a, b);
      var p, q, cobId :| IsOrderOf(p, table.Keys) && IsOrderOf(q, table.Keys) &&
        First(p, cobId) == Some(a) && First(q, cobId) == Some(b);
      assert Handler(table, p, cobId) != Handler(table, q, cobId);
    }
    if OrderDecides(table) {
      var p, q, cobId :| IsOrderOf(p, table.Keys) && IsOrderOf(q, table.Keys) &&
        Handler(table, p, cobId) != Handler(table, q, cobId);
      FirstMeaning(p, cobId);
      FirstMeaning(q, cobId);
      var a, b := First(p, cobId).value, First(q, cobId).value;
      assert Overlap(a, b) && table[a] != table[b];
    }
  }

  /** No two devices share an object. */
  ghost predicate Apart(ds: seq<Device>) {
    forall i, j | 0 <= i < j < |ds| :: ds[i].Footprint() !! ds[j].Footprint()
  }

  /** The search through the table in its iteration order. */
  method FindMatcher(order: seq<Matcher>, cobId: bv32) returns (m: Option<Matcher>)
    ensures m == First(order, cobId)
  {
    hide Accepts;
    var i := 0;
    while i < |order| && !Accepts(order[i], cobId)
      invariant 0 <= i <= |order|
      invariant First(order[i..], cobId) == First(order, cobId)
    {
      i := i + 1;
    }
    m := if i == |order| then None else Some(order[i]);
  }

  class CanBus {
    const bus: Buses.Bus
    const passivateIfNoDevices: bool
    var devices: seq<Device>
    var table: map<Matcher, Entry>
    var isMissingDeviceOrHasError: bool
    var allDevicesActive: bool
    var allDevicesMissing: bool

    /** The objects that make up the devices, which they do not share. */
    ghost var objects: set<object>

    ghost predicate Valid()
      reads this, objects
    {
      && this !in objects && bus as object !in objects
      && Apart(devices)
      && (forall i | 0 <= i < |devices| :: devices[i].Footprint() <= objects && devices[i].Valid())
      && (forall m | m in table :: table[m].device.Some? ==> table[m].device.value < |devices|)
    }

    constructor (bus: Buses.Bus, passivateIfNoDevices: bool)
      ensures Valid() && this.bus == bus && this.passivateIfNoDevices == passivateIfNoDevices
      ensures table == map[] && devices == []
    {
      this.bus := bus;
      this.passivateIfNoDevices := passivateIfNoDevices;
      devices, table, objects := [], map[], {};
      isMissingDeviceOrHasError, allDevicesActive, allDevicesMissing := false, false, false;
    }

    method AddDevice(d: Device)
      requires Valid() && d.Valid() && d.Footprint() !! objects + {this, bus}
      modifies this`devices, this`objects
      ensures Valid() && devices == old(devices) + [d]
    {
      devices, objects := devices + [d], objects + d.Footprint();
    }

    /** The first registration of a matcher stands. */
    method AddCanMessage(m: Matcher, e: Entry) returns (added: bool)
      requires Valid() && (e.device.Some? ==> e.device.value < |devices|)
      modifies this`table
      ensures Valid() && (added <==> m !in old(table))
      ensures table == if added then old(table)[m := e] else old(table)
    {
      added := m !in table;
      if added {
        table := table[m := e];
      }
    }

    /** The values of the devices. */
    ghost function Values(): (vs: seq<Value>)
      requires Valid()
      reads this, objects
      ensures |vs| == |devices| && forall i | 0 <= i < |vs| :: vs[i] == devices[i].Value() && vs[i].Valid()
    {
      seq(|devices|, i requires Valid() && 0 <= i < |devices| reads this, objects => devices[i].Value())
    }

    /** Device `k` hears a message; the other devices do not. */
    method Hear(k: nat, configured: bool)
      requires Valid() && k < |devices|
      modifies objects
      ensures Valid() && Values() == old(Values())[k := old(Values())[k].Hears(configured)]
    {
      hide Device.Valid, Device.Value, Value.Hears;
      devices[k].Hear(configured);
    }

    /** Device `k` is checked; the other devices are not. */
    method CheckDevice(k: nat, w: Window) returns (fine: bool)
      requires Valid() && k < |devices| && WellFormed(w)
      modifies objects
      ensures Valid() && objects == old(objects) && devices == old(devices)
      ensures Values() == old(Values())[k := old(Values())[k].Checked(w)]
      ensures fine <==> devices[k].Base().state != Error && devices[k].Base().state != Missing
    {
      hide Device.Valid, Device.Value, Value.Checked;
      fine := devices[k].SanityCheck(w);
    }

    /**
     `order` is the order in which the map happens to be iterated, `configured` what `configureDevice`
     returns. The handler is the callback that is then called; none is the handler of unmapped frames.
     */
    method HandleMessage(cobId: bv32, order: seq<Matcher>, configured: bool) returns (handler: Option<Entry>)
      requires Valid() && IsOrderOf(order, table.Keys)
      modifies bus`errorMsgFlag, objects
      ensures Valid() && !bus.errorMsgFlag
      ensures handler == Handler(table, order, cobId) && RoutedTo(table, cobId, handler)
      ensures match handler
        case Some(Entry(Some(k), _)) =>
          k < |devices| && Values() == old(Values())[k := old(Values())[k].Hears(configured)]
        case _ => Values() == old(Values())
    {
      hide Device.Valid, Device.Value, Value.Valid, Value.Hears, Apart, First, RoutedTo, Accepts;
      HandlerIsRouted(table, order, cobId);
      FirstMeaning(order, cobId);
      bus.errorMsgFlag := false;
      var m := FindMatcher(order, cobId);
      if m.None? {
        return None;
      }
      var e := table[m.value];
      if e.device.Some? {
        Hear(e.device.value, configured);
      }
      return Some(e);
    }

    /** The loop over the devices. */
    method CheckDevices(windows: seq<Window>) returns (isMissingOrError: bool, allMissing: bool, allActive: bool)
      requires Valid() && |windows| == |devices| && forall i | 0 <= i < |windows| :: WellFormed(windows[i])
      modifies objects
      ensures Valid() && Values() == CheckedValues(old(Values()), windows)
      ensures isMissingOrError <==> !AllFine(Values())
      ensures allMissing <==> AllIn(Missing, Values())
      ensures allActive <==> AllIn(Active, Values())
    {
      hide AllFine, AllIn, Valid, Device.Valid, Device.Value, Value.Checked, Value.Valid, Value.Life, WellFormed, Half;
      ghost var before := Values();
      ghost var after := CheckedValues(before, windows);
      isMissingOrError, allMissing, allActive := false, true, true;
      NoDevices(before, after);
      for i := 0 to |devices|
        invariant Valid() && objects == old(objects) && devices == old(devices)
        invariant Values() == Half(before, after, i)
        invariant isMissingOrError <==> !AllFine(after[..i])
        invariant allMissing <==> AllIn(Missing, after[..i])
        invariant allActive <==> AllIn(Active, after[..i])
      {
        OneMoreDevice(before, after, i);
        var ok := CheckDevice(i, windows[i]);
        assert devices[i].Value() == Values()[i] == after[i];
        isMissingOrError := isMissingOrError || !ok;
        allMissing := allMissing && devices[i].Base().state == Missing;
        allActive := allActive && devices[i].Base().state == Active;
      }
      AllDevices(before, after);
    }

    /**
     Checks every device by its own sanity check and sums up; a bus without devices counts as one where
     all are missing. `windows[i]` is what other threads submit while a callback of device `i` runs.
     */
    method SanityCheck(windows: seq<Window>) returns (fine: bool)
      requires Valid() && |windows| == |devices| && forall i | 0 <= i < |windows| :: WellFormed(windows[i])
      modifies objects, this`isMissingDeviceOrHasError, this`allDevicesActive, this`allDevicesMissing, bus`isPassive
      ensures Valid() && Values() == CheckedValues(old(Values()), windows)
      ensures isMissingDeviceOrHasError <==> !AllFine(Values())
      ensures allDevicesActive <==> AllIn(Active, Values())
      ensures allDevicesMissing <==> AllIn(Missing, Values())
      ensures bus.isPassive <==> old(bus.isPassive) || (allDevicesMissing && passivateIfNoDevices)
      ensures fine <==> !isMissingDeviceOrHasError && !bus.hasBusError
    {
      hide AllFine, AllIn, Device.Valid, Device.Value, Value.Valid, Value.Life, CheckedValues, Apart;
      var isMissingOrError, allMissing, allActive := CheckDevices(windows);
      if !bus.isPassive && allMissing && passivateIfNoDevices {
        bus.isPassive := true;
      }
      isMissingDeviceOrHasError, allDevicesActive, allDevicesMissing := isMissingOrError, allActive, allMissing;
      fine := !(isMissingOrError || bus.hasBusError);
    }
  }

  predicate AllFine(vs: seq<Value>) {
    forall i | 0 <= i < |vs| :: vs[i].Life().state != Error && vs[i].Life().state != Missing
  }

  predicate AllIn(s: State, vs: seq<Value>) {
    forall i | 0 <= i < |vs| :: vs[i].Life().state == s
  }

  /** What the three summaries of a bus say. */
  lemma Summaries(vs: seq<Value>)
    ensures !AllFine(vs) <==> exists i :: 0 <= i < |vs| && vs[i].Life().state in {Error, Missing}
    ensures AllIn(Active, vs) <==> forall i | 0 <= i < |vs| :: vs[i].Life().state == Active
    ensures AllIn(Missing, vs) <==> forall i | 0 <= i < |vs| :: vs[i].Life().state == Missing
  {}

  /** The values when the first `n` devices have been checked. */
  function Half(before: seq<Value>, after: seq<Value>, n: nat): (r: seq<Value>)
    requires n <= |before| == |after|
    ensures |r| == |before|
  {
    after[..n] + before[n..]
  }

  lemma NoDevices(before: seq<Value>, after: seq<Value>)
    requires |before| == |after|
    ensures Half(before, after, 0) == before
    ensures AllFine(after[..0]) && AllIn(Missing, after[..0]) && AllIn(Active, after[..0])
  {}

  lemma AllDevices(before: seq<Value>, after: seq<Value>)
    requires |before| == |after|
    ensures Half(before, after, |after|) == after && after[..|after|] == after
  {}

  lemma OneMoreDevice(before: seq<Value>, after: seq<Value>, n: nat)
    requires n < |before| == |after|
    ensures Half(before, after, n)[n] == before[n]
    ensures Half(before, after, n)[n := after[n]] == Half(before, after, n + 1)
    ensures AllFine(after[..n + 1]) <==> AllFine(after[..n]) && after[n].Life().state != Error && after[n].Life().state != Missing
    ensures AllIn(Missing, after[..n + 1]) <==> AllIn(Missing, after[..n]) && after[n].Life().state == Missing
    ensures AllIn(Active, after[..n + 1]) <==> AllIn(Active, after[..n]) && after[n].Life().state == Active
  {
    assert after[..n + 1] == after[..n] + [after[n]];
    assert forall i | 0 <= i < n :: after[..n][i] == after[..n + 1][i];
  }
}
