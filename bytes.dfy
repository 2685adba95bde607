/** Bytes and the little-endian integer layouts written by BitConverter and Guid. */
module Bytes {

  type byte = x: int | 0 <= x < 256

  const TwoTo31: int := 0x8000_0000
  const TwoTo32: int := 0x1_0000_0000

  /** A C# `int`. */
  type int32 = x: int | -TwoTo31 <= x < TwoTo31

  /** 256 to the power `width`: the number of values `width` bytes can hold. */
  function Pow256(width: nat): (p: nat)
    ensures p >= 1
  {
    if width == 0 then 1 else 256 * Pow256(width - 1)
  }

  /** The `width` low-order bytes of `x`, least significant first. */
  function LittleEndian(x: nat, width: nat): (bs: seq<byte>)
    ensures |bs| == width
  {
    if width == 0 then [] else [x % 256] + LittleEndian(x / 256, width - 1)
  }

  /** The unsigned value of a little-endian byte sequence. */
  function FromLittleEndian(bs: seq<byte>): nat
  {
    if bs == [] then 0 else bs[0] + 256 * FromLittleEndian(bs[1..])
  }

  lemma {:induction false} FromLittleEndianBound(bs: seq<byte>)
    ensures FromLittleEndian(bs) < Pow256(|bs|)
  {
    if bs != [] {
      FromLittleEndianBound(bs[1..]);
    }
  }

  /** Reading back what was written gives the value, whenever it fits in `width` bytes. */
  lemma {:induction false} LittleEndianRoundTrip(x: nat, width: nat)
    requires x < Pow256(width)
    ensures FromLittleEndian(LittleEndian(x, width)) == x
  {
    if width > 0 {
      assert x / 256 < Pow256(width - 1);
      LittleEndianRoundTrip(x / 256, width - 1);
      var bs := LittleEndian(x, width);
      assert bs[1..] == LittleEndian(x / 256, width - 1);
    }
  }

  /** BitConverter.TryWriteBytes(span, int): four bytes of the two's-complement form. */
  function Int32Bytes(x: int32): (bs: seq<byte>)
    ensures |bs| == 4
  {
    LittleEndian(if x < 0 then x + TwoTo32 else x, 4)
  }

  /** BitConverter.ToInt32 on four bytes. */
  function Int32FromBytes(bs: seq<byte>): int32
    requires |bs| == 4
  {
    FromLittleEndianBound(bs);
    var u := FromLittleEndian(bs);
    if u < TwoTo31 then u else u - TwoTo32
  }

  lemma Int32RoundTrip(x: int32)
    ensures Int32FromBytes(Int32Bytes(x)) == x
  {
    var u := if x < 0 then x + TwoTo32 else x;
    assert Pow256(4) == TwoTo32;
    LittleEndianRoundTrip(u, 4);
  }
}
