/** The fixed-width integers of the source (C# `uint`, `int`, `byte`) and the
    little-endian layout that `BinaryWriter`/`BinaryReader` give them. */
module Numbers {

  const TWO_32: int := 0x1_0000_0000

  /** C# `uint`. */
  type uint32 = x: int | 0 <= x < 0x1_0000_0000

  /** C# `int`. */
  type int32 = x: int | -0x8000_0000 <= x < 0x8000_0000

  /** C# `byte`. */
  type byte = x: int | 0 <= x < 0x100

  /** The four bytes `BinaryWriter.Write(uint)` emits: least significant byte first. */
  function UInt32Bytes(v: uint32): (r: seq<byte>)
    ensures |r| == 4
  {
    [v % 0x100, (v / 0x100) % 0x100, (v / 0x1_0000) % 0x100, v / 0x100_0000]
  }

  /** The value `BinaryReader.ReadUInt32` assembles from four little-endian bytes. */
  function UInt32FromBytes(b: seq<byte>): (v: uint32)
    requires |b| == 4
  {
    b[0] as int + 0x100 * (b[1] as int) + 0x1_0000 * (b[2] as int) + 0x100_0000 * (b[3] as int)
  }

  /** The four bytes `BinaryWriter.Write(int)` emits: the two's complement pattern of `x`,
      least significant byte first. */
  function Int32Bytes(x: int32): (r: seq<byte>)
    ensures |r| == 4
    ensures UInt32FromBytes(r) == x % TWO_32
  {
    UInt32BytesRoundTrip(x % TWO_32);
    UInt32Bytes(x % TWO_32)
  }

  /** Reading back what was written gives the value written. */
  lemma UInt32BytesRoundTrip(v: uint32)
    ensures UInt32FromBytes(UInt32Bytes(v)) == v
  {
    var b := UInt32Bytes(v);
    var q1, q2, q3 := v / 0x100, v / 0x1_0000, v / 0x100_0000;
    assert q1 == 0x100 * (q1 / 0x100) + q1 % 0x100;
    assert q2 == q1 / 0x100;
    assert q2 == 0x100 * (q2 / 0x100) + q2 % 0x100;
    assert q3 == q2 / 0x100;
    assert v == 0x100 * q1 + b[0];
    assert q1 == 0x100 * q2 + b[1];
    assert q2 == 0x100 * q3 + b[2];
  }

  /** Writing what was read gives the bytes read: the layout is a bijection on four bytes. */
  lemma UInt32FromBytesRoundTrip(b: seq<byte>)
    requires |b| == 4
    ensures UInt32Bytes(UInt32FromBytes(b)) == b
  {
    var v := UInt32FromBytes(b);
    var r := UInt32Bytes(v);
    var q1: int := b[1] as int + 0x100 * (b[2] as int) + 0x1_0000 * (b[3] as int);
    var q2: int := b[2] as int + 0x100 * (b[3] as int);
    assert v == b[0] as int + 0x100 * q1;
    assert q1 == b[1] + 0x100 * q2;
    assert v / 0x100 == q1 && r[0] == b[0];
    assert v / 0x1_0000 == q1 / 0x100 == q2 && r[1] == b[1];
    assert v / 0x100_0000 == q2 / 0x100 == b[3] && r[2] == b[2];
  }
}
