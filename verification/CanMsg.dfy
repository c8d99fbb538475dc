/** The CAN message container: a fixed eight-byte buffer, a length, and a little-endian codec. */
module CanMsgs {
  import opened Words

  const CAPACITY := 8

  /** The value of a CAN message; messages are copied by value into queues and maps. */
  datatype RawFrame = Frame(cobId: bv32, length: nat, data: seq<Byte>)

  type Frame = f: RawFrame | |f.data| == CAPACITY && f.length <= CAPACITY
    witness RawFrame.Frame(0, 0, [0, 0, 0, 0, 0, 0, 0, 0])

  /** What the overloads of `write` accept and the `read*` functions return. */
  datatype Kind = Kind(width: Width, signed: bool)
  datatype Width = W8 | W16 | W32

  function Size(w: Width): (n: nat)
  {
    match w
    case W8 => 1
    case W16 => 2
    case W32 => 4
  }

  /** 256 to the power of `n`, for the word sizes that occur. */
  function Base(n: nat): nat
    requires n <= 4
  {
    [1, 0x100, 0x1_0000, 0x100_0000, 0x1_0000_0000][n]
  }

  predicate Representable(k: Kind, v: int) {
    var bound: int := Base(Size(k.width));
    if k.signed then -bound <= 2 * v < bound else 0 <= v < bound
  }

  datatype RawScalar = Scalar(kind: Kind, value: int)
  type Scalar = s: RawScalar | Representable(s.kind, s.value)
    witness RawScalar.Scalar(Kind(W8, false), 0)

  /** Byte `i` of the two's complement representation of `v`: shift right, mask with 0xFF. */
  function ByteOf(v: int, i: nat): Byte
    requires i < 4
  {
    (v / Base(i)) % 0x100
  }

  /** The `n` bytes at `pos`, least significant first, as an unsigned number. */
  function Unsigned(data: seq<Byte>, pos: nat, n: nat): nat
    requires pos + n <= |data| && n <= 4
  {
    if n == 0 then 0 else Unsigned(data, pos, n - 1) + data[pos + n - 1] * Base(n - 1)
  }

  /** Conversion of an unsigned word to a signed one of the same width. */
  function Reinterpret(k: Kind, u: nat): int {
    var bound := Base(Size(k.width));
    if k.signed && 2 * u >= bound then u - bound else u
  }

  /** The `read*` family. */
  function Read(f: Frame, k: Kind, pos: nat): int
    requires pos + Size(k.width) <= f.length
  {
    Reinterpret(k, Unsigned(f.data, pos, Size(k.width)))
  }

  /** The data with the `n` bytes of `v` stored at `pos`. */
  function Stored(data: seq<Byte>, v: int, pos: nat, n: nat): seq<Byte>
    requires n <= 4
  {
    seq<Byte>(|data|, i requires 0 <= i < |data| => StoredByte(data, v, pos, n, i))
  }

  function StoredByte(data: seq<Byte>, v: int, pos: nat, n: nat, i: nat): Byte
    requires i < |data| && n <= 4
  {
    if pos <= i < pos + n then ByteOf(v, i - pos) else data[i]
  }

  function WrittenAt(f: Frame, s: Scalar, pos: nat): (r: Frame)
    requires pos + Size(s.kind.width) <= CAPACITY
  {
    var end := pos + Size(s.kind.width);
    f.(data := Stored(f.data, s.value, pos, Size(s.kind.width)), length := if end > f.length then end else f.length)
  }

  function Appended(f: Frame, s: Scalar): (r: Frame)
    requires f.length + Size(s.kind.width) <= CAPACITY
  {
    f.(data := Stored(f.data, s.value, f.length, Size(s.kind.width)), length := f.length + Size(s.kind.width))
  }

  // ---------------------------------------------------------------- the container

  class CanMsg {
    var cobId: bv32
    var length: nat
    const data: array<Byte>

    ghost predicate Valid()
      reads this
    {
      data.Length == CAPACITY && length <= CAPACITY
    }

    ghost function Value(): Frame
      requires Valid()
      reads this, data
    {
      RawFrame.Frame(cobId, length, data[..])
    }

    constructor (cobId: bv32)
      ensures Valid() && fresh(data)
      ensures Value() == RawFrame.Frame(cobId, 0, [0, 0, 0, 0, 0, 0, 0, 0])
    {
      this.cobId := cobId;
      length := 0;
      data := new Byte[CAPACITY](_ => 0);
      new;
      assert data[..] == [0, 0, 0, 0, 0, 0, 0, 0];
    }

    /** The appending overloads of `write`. */
    method Write(s: Scalar)
      requires Valid() && length + Size(s.kind.width) <= CAPACITY
      modifies this`length, data
      ensures Valid() && Value() == Appended(old(Value()), s)
    {
      StoreBytes(s.value, length, s.kind.width);
      length := length + Size(s.kind.width);
    }

    /** The overloads of `write` that take a position. */
    method WriteAt(s: Scalar, pos: nat)
      requires Valid() && pos + Size(s.kind.width) <= CAPACITY
      modifies this`length, data
      ensures Valid() && Value() == WrittenAt(old(Value()), s, pos)
    {
      StoreBytes(s.value, pos, s.kind.width);
      if pos + Size(s.kind.width) > length {
        length := pos + Size(s.kind.width);
      }
    }

    /** The byte assignments of the overloads, most significant byte first. */
    method StoreBytes(v: int, pos: nat, w: Width)
      requires Valid() && pos + Size(w) <= CAPACITY
      modifies data
      ensures data[..] == Stored(old(data[..]), v, pos, Size(w))
    {
      if w == W32 {
        data[3 + pos] := ByteOf(v, 3);
        data[2 + pos] := ByteOf(v, 2);
      }
      if w != W8 {
        data[1 + pos] := ByteOf(v, 1);
      }
      data[pos] := ByteOf(v, 0);
    }
  }

  // ---------------------------------------------------------------- round trips

  function TotalSize(ss: seq<Scalar>): nat {
    if ss == [] then 0 else Size(ss[0].kind.width) + TotalSize(ss[1..])
  }

  function AppendedAll(f: Frame, ss: seq<Scalar>): Frame
    requires f.length + TotalSize(ss) <= CAPACITY
    decreases |ss|
  {
    if ss == [] then f else AppendedAll(Appended(f, ss[0]), ss[1..])
  }

  /** Reading one value of each kind, each one where the previous one ended. */
  function ReadAll(f: Frame, ss: seq<Scalar>, pos: nat): seq<int>
    requires pos + TotalSize(ss) <= f.length
    decreases |ss|
  {
    if ss == [] then [] else
      [Read(f, ss[0].kind, pos)] + ReadAll(f, ss[1..], pos + Size(ss[0].kind.width))
  }

  function Values(ss: seq<Scalar>): seq<int> {
    seq(|ss|, i requires 0 <= i < |ss| => ss[i].value)
  }

  lemma {:induction false} BytesAreModulo(data: seq<Byte>, v: int, pos: nat, n: nat)
    requires n <= 4 && pos + n <= |data|
    requires forall i: nat | i < n :: data[pos + i] == ByteOf(v, i)
    ensures Unsigned(data, pos, n) == v % Base(n)
  {
    if n > 0 {
      BytesAreModulo(data, v, pos, n - 1);
      DigitSplit(v, n - 1);
    }
  }

  lemma DigitSplit(v: int, i: nat)
    requires i < 4
    ensures v % Base(i + 1) == v % Base(i) + ByteOf(v, i) * Base(i)
  {
    SecondDigit(v);
    ThirdDigit(v);
    FourthDigit(v);
  }

  lemma SecondDigit(v: int)
    ensures v % 0x1_0000 == v % 0x100 + ((v / 0x100) % 0x100) * 0x100
  {}

  lemma ThirdDigit(v: int)
    ensures v % 0x100_0000 == v % 0x1_0000 + ((v / 0x1_0000) % 0x100) * 0x1_0000
  {}

  lemma FourthDigit(v: int)
    ensures v % 0x1_0000_0000 == v % 0x100_0000 + ((v / 0x100_0000) % 0x100) * 0x100_0000
  {}

  lemma ReinterpretModulo(s: Scalar)
    ensures Reinterpret(s.kind, s.value % Base(Size(s.kind.width))) == s.value
  {
    match s.kind.width
    case W8 =>
    case W16 =>
    case W32 =>
  }

  /** A value written anywhere is read back there, whatever its width and sign. */
  lemma WriteThenRead(f: Frame, s: Scalar, pos: nat)
    requires pos + Size(s.kind.width) <= CAPACITY
    ensures Read(WrittenAt(f, s, pos), s.kind, pos) == s.value
  {
    var n := Size(s.kind.width);
    BytesAreModulo(WrittenAt(f, s, pos).data, s.value, pos, n);
    ReinterpretModulo(s);
  }

  lemma {:induction false} UnsignedFrame(d: seq<Byte>, e: seq<Byte>, pos: nat, n: nat)
    requires pos + n <= |d| && pos + n <= |e| && n <= 4
    requires forall i | pos <= i < pos + n :: d[i] == e[i]
    ensures Unsigned(d, pos, n) == Unsigned(e, pos, n)
  {
    if n > 0 { UnsignedFrame(d, e, pos, n - 1); }
  }

  /** The length after a positional write is the larger of the old one and the end of what was written. */
  lemma LengthAfterWrite(f: Frame, s: Scalar, pos: nat)
    requires pos + Size(s.kind.width) <= CAPACITY
    ensures var r := WrittenAt(f, s, pos);
      && r.cobId == f.cobId
      && r.length >= f.length && r.length >= pos + Size(s.kind.width)
      && (r.length == f.length || r.length == pos + Size(s.kind.width))
  {}

  /** A positional write keeps every value that lies beside it, old or between the old end and the new one. */
  lemma WriteKeepsOthers(f: Frame, s: Scalar, pos: nat, k: Kind, at: nat)
    requires pos + Size(s.kind.width) <= CAPACITY && at + Size(k.width) <= WrittenAt(f, s, pos).length
    requires at + Size(k.width) <= pos || pos + Size(s.kind.width) <= at
    ensures f.length <= WrittenAt(f, s, pos).length <= CAPACITY
    ensures Read(WrittenAt(f, s, pos), k, at) == Reinterpret(k, Unsigned(f.data, at, Size(k.width)))
  {
    UnsignedFrame(f.data, WrittenAt(f, s, pos).data, at, Size(k.width));
  }

  /** The byte order: the byte read `i` places behind a written value is its digit of weight 256^i. */
  lemma LeastSignificantFirst(f: Frame, s: Scalar, pos: nat, i: nat)
    requires pos + Size(s.kind.width) <= CAPACITY && i < Size(s.kind.width)
    ensures Read(WrittenAt(f, s, pos), Kind(W8, false), pos + i) == (s.value / Base(i)) % 0x100
  {
    var d := WrittenAt(f, s, pos).data;
    assert Unsigned(d, pos + i, 1) == Unsigned(d, pos + i, 0) + d[pos + i] * Base(0);
  }

  lemma {:induction false} AppendedAllKeepsPrefix(f: Frame, ss: seq<Scalar>)
    requires f.length + TotalSize(ss) <= CAPACITY
    ensures var r := AppendedAll(f, ss);
      && r.length == f.length + TotalSize(ss)
      && r.cobId == f.cobId
      && (forall i | 0 <= i < f.length :: r.data[i] == f.data[i])
    decreases |ss|
  {
    if ss != [] { AppendedAllKeepsPrefix(Appended(f, ss[0]), ss[1..]); }
  }

  /** Appending any list of values that fits and reading at the cumulative offsets returns the list. */
  lemma {:induction false} CodecRoundTrip(f: Frame, ss: seq<Scalar>)
    requires f.length + TotalSize(ss) <= CAPACITY
    ensures AppendedAll(f, ss).length == f.length + TotalSize(ss)
    ensures ReadAll(AppendedAll(f, ss), ss, f.length) == Values(ss)
    decreases |ss|
  {
    AppendedAllKeepsPrefix(f, ss);
    if ss != [] {
      var s, n := ss[0], Size(ss[0].kind.width);
      var f1 := Appended(f, s);
      CodecRoundTrip(f1, ss[1..]);
      AppendedAllKeepsPrefix(f1, ss[1..]);
      assert f1 == WrittenAt(f, s, f.length);
      WriteThenRead(f, s, f.length);
      UnsignedFrame(f1.data, AppendedAll(f, ss).data, f.length, n);
      assert Values(ss) == [s.value] + Values(ss[1..]);
    }
  }
}
