/** SDO requests and answers, and the NMT commands that share their queue. */
module SdoMsgs {
  import opened Words
  import opened CanMsgs

  const NMT_STOP: Byte := 0x02
  const NMT_RESTART: Byte := 0x81
  const NMT_RESET_COMMUNICATION: Byte := 0x82

  const U8 := Kind(W8, false)
  const U16 := Kind(W16, false)
  const U32 := Kind(W32, false)

  datatype SdoMsg = SdoMsg(frame: Frame, requiresAnswer: bool)

  function Request(nodeId: bv32, command: Byte, index: Uint16, subIndex: Byte, data: Uint32): SdoMsg {
    SdoMsg(
      RawFrame.Frame(0x600 + nodeId, 8,
                     [command, ByteOf(index, 0), ByteOf(index, 1), subIndex,
                      ByteOf(data, 0), ByteOf(data, 1), ByteOf(data, 2), ByteOf(data, 3)]),
      true)
  }

  function Nmt(nodeId: Byte, command: Byte): SdoMsg {
    SdoMsg(RawFrame.Frame(0, 2, [command, nodeId, 0, 0, 0, 0, 0, 0]), false)
  }

  function Command(f: Frame): int
    requires f.length >= 1
  {
    Read(f, U8, 0)
  }

  function Index(f: Frame): int
    requires f.length >= 3
  {
    Read(f, U16, 1)
  }

  function SubIndex(f: Frame): int
    requires f.length >= 4
  {
    Read(f, U8, 3)
  }

  /** What callers of `sendSdo` owe: a message that waits for an answer has all eight bytes. */
  predicate WellFormed(m: SdoMsg) {
    m.requiresAnswer ==> m.frame.length == 8
  }

  /** The object that an SDO frame is about. */
  datatype Object = Object(index: Uint16, subIndex: Byte)

  function Target(f: Frame): Object
    requires f.length >= 4
  {
    UnsignedBounds(f.data, 1, 2);
    UnsignedBounds(f.data, 3, 1);
    Object(Index(f), SubIndex(f))
  }

  lemma {:induction false} UnsignedBounds(data: seq<Byte>, pos: nat, n: nat)
    requires pos + n <= |data| && n <= 4
    ensures Unsigned(data, pos, n) < Base(n)
  {
    if n > 0 { UnsignedBounds(data, pos, n - 1); }
  }

  lemma OneByte(data: seq<Byte>, v: Byte, pos: nat)
    requires pos < |data| && data[pos] == v
    ensures Unsigned(data, pos, 1) == v
  {
    assert Unsigned(data, pos, 0) == 0;
  }

  lemma TwoBytes(data: seq<Byte>, v: Uint16, pos: nat)
    requires pos + 2 <= |data| && data[pos] == ByteOf(v, 0) && data[pos + 1] == ByteOf(v, 1)
    ensures Unsigned(data, pos, 2) == v
  {
    BytesAreModulo(data, v, pos, 2);
  }

  lemma FourBytes(data: seq<Byte>, v: Uint32, pos: nat)
    requires pos + 4 <= |data|
    requires data[pos] == ByteOf(v, 0) && data[pos + 1] == ByteOf(v, 1)
    requires data[pos + 2] == ByteOf(v, 2) && data[pos + 3] == ByteOf(v, 3)
    ensures Unsigned(data, pos, 4) == v
  {
    hide Unsigned, ByteOf;
    BytesAreModulo(data, v, pos, 4);
  }

  /** The getters recover every argument of the request constructor. */
  lemma RequestRoundTrip(nodeId: bv32, command: Byte, index: Uint16, subIndex: Byte, data: Uint32)
    ensures var m := Request(nodeId, command, index, subIndex, data);
      && WellFormed(m) && m.requiresAnswer && m.frame.length == 8
      && Command(m.frame) == command
      && Target(m.frame) == Object(index, subIndex)
      && Read(m.frame, U32, 4) == data
  {
    var f := Request(nodeId, command, index, subIndex, data).frame;
    OneByte(f.data, command, 0);
    TwoBytes(f.data, index, 1);
    OneByte(f.data, subIndex, 3);
    FourBytes(f.data, data, 4);
  }

  /** On the wire: a frame of two bytes to all nodes, the command first and the addressed node second. */
  predicate IsNmt(m: SdoMsg, command: int, nodeId: int) {
    && m.frame.cobId == 0 && m.frame.length == 2 && !m.requiresAnswer
    && Command(m.frame) == command && Read(m.frame, U8, 1) == nodeId
  }

  lemma NmtRoundTrip(nodeId: Byte, command: Byte)
    ensures WellFormed(Nmt(nodeId, command)) && IsNmt(Nmt(nodeId, command), command, nodeId)
  {
    var f := Nmt(nodeId, command).frame;
    OneByte(f.data, command, 0);
    OneByte(f.data, nodeId, 1);
  }
}
