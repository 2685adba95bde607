/**
 * System.Guid as .NET lays it out: a 32-bit field, two 16-bit fields and eight
 * single bytes. TryWriteBytes and the byte-span constructor use this layout,
 * the three integer fields little-endian.
 */
module Guids {
  import opened Bytes
  import opened Wrappers

  type uint16 = x: int | 0 <= x < 0x1_0000
  type uint32 = x: int | 0 <= x < 0x1_0000_0000

  datatype Guid = Guid(a: uint32, b: uint16, c: uint16,
                       d: byte, e: byte, f: byte, g: byte, h: byte, i: byte, j: byte, k: byte)

  /** Guid.Empty. */
  const Empty: Guid := Guid(0, 0, 0, 0, 0, 0, 0, 0, 0, 0, 0)

  datatype GuidError = WrongLength(length: nat)

  /** Guid.TryWriteBytes into a 16-byte span. */
  function GuidBytes(id: Guid): (bs: seq<byte>)
    ensures |bs| == 16
  {
    LittleEndian(id.a, 4) + LittleEndian(id.b, 2) + LittleEndian(id.c, 2)
      + [id.d, id.e, id.f, id.g, id.h, id.i, id.j, id.k]
  }

  /** `new Guid(ReadOnlySpan<byte>)`: exactly sixteen bytes, otherwise an ArgumentException. */
  function GuidFromBytes(bs: seq<byte>): (r: Result<Guid, GuidError>)
    ensures r.Err? <==> |bs| != 16
  {
    if |bs| != 16 then Err(WrongLength(|bs|))
    else
      FromLittleEndianBound(bs[0..4]);
      FromLittleEndianBound(bs[4..6]);
      FromLittleEndianBound(bs[6..8]);
      assert Pow256(4) == 0x1_0000_0000 && Pow256(2) == 0x1_0000;
      Ok(Guid(FromLittleEndian(bs[0..4]), FromLittleEndian(bs[4..6]), FromLittleEndian(bs[6..8]),
              bs[8], bs[9], bs[10], bs[11], bs[12], bs[13], bs[14], bs[15]))
  }

  /** A Guid written to sixteen bytes reads back as the same Guid. */
  lemma GuidRoundTrip(id: Guid)
    ensures GuidFromBytes(GuidBytes(id)) == Ok(id)
  {
    var bs := GuidBytes(id);
    assert Pow256(4) == 0x1_0000_0000 && Pow256(2) == 0x1_0000;
    assert bs[0..4] == LittleEndian(id.a, 4);
    assert bs[4..6] == LittleEndian(id.b, 2);
    assert bs[6..8] == LittleEndian(id.c, 2);
    LittleEndianRoundTrip(id.a, 4);
    LittleEndianRoundTrip(id.b, 2);
    LittleEndianRoundTrip(id.c, 2);
  }

  /** The byte form is injective: two Guids with the same bytes are the same Guid. */
  lemma GuidBytesInjective(x: Guid, y: Guid)
    ensures GuidBytes(x) == GuidBytes(y) ==> x == y
  {
    GuidRoundTrip(x);
    GuidRoundTrip(y);
  }
}
