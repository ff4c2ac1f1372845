/**
 * CRC-32 as java.util.zip.CRC32 computes it (the reflected polynomial
 * 0xEDB88320, initial value and final mask 0xFFFFFFFF), bit by bit.
 */
module Crc32 {
  const POLY: bv32 := 0xEDB8_8320
  const BITS_PER_BYTE: nat := 8

  function ShiftBits(c: bv32, k: nat): bv32
    decreases k
  {
    if k == 0 then c
    else ShiftBits(if c & 1 == 1 then (c >> 1) ^ POLY else c >> 1, k - 1)
  }

  function Update(c: bv32, data: seq<bv8>): bv32
    decreases |data|
  {
    if data == [] then c else Update(ShiftBits(c ^ (data[0] as bv32), BITS_PER_BYTE), data[1..])
  }

  /** `CRC32().apply { update(data) }.value` */
  function Checksum(data: seq<bv8>): bv32
  {
    Update(0xFFFF_FFFF, data) ^ 0xFFFF_FFFF
  }

  /** `CRC32().apply { update(data) }.value`, one byte at a time. */
  method Compute(data: seq<bv8>) returns (v: bv32)
    ensures v == Checksum(data)
  {
    var c: bv32 := 0xFFFF_FFFF;
    var i := 0;
    while i < |data|
      invariant 0 <= i <= |data|
      invariant Update(c, data[i..]) == Update(0xFFFF_FFFF, data)
    {
      UpdateStep(c, data, i);
      c := ShiftBits(c ^ (data[i] as bv32), BITS_PER_BYTE);
      i := i + 1;
    }
    assert data[i..] == [];
    v := c ^ 0xFFFF_FFFF;
  }

  lemma UpdateStep(c: bv32, data: seq<bv8>, i: int)
    requires 0 <= i < |data|
    ensures Update(c, data[i..]) == Update(ShiftBits(c ^ (data[i] as bv32), BITS_PER_BYTE), data[i + 1..])
  {
    assert data[i..][1..] == data[i + 1..];
  }

  /** Feeding two blocks one after the other is feeding their concatenation. */
  lemma {:induction false} UpdateAppend(c: bv32, a: seq<bv8>, b: seq<bv8>)
    ensures Update(c, a + b) == Update(Update(c, a), b)
    decreases |a|
  {
    if a == [] {
      assert a + b == b;
    } else {
      assert (a + b)[1..] == a[1..] + b;
      UpdateAppend(ShiftBits(c ^ (a[0] as bv32), BITS_PER_BYTE), a[1..], b);
    }
  }

  lemma CheckDigits123()
    ensures Update(0xFFFF_FFFF, [0x31, 0x32, 0x33]) == 0x77B79C2D
  {
    var d: seq<bv8> := [0x31, 0x32, 0x33];
    assert ShiftBits(0xFFFFFFFF ^ 0x31, 8) == 0x7C231048;
    assert ShiftBits(0x7C231048 ^ 0x32, 8) == 0xB0ACBB32;
    assert ShiftBits(0xB0ACBB32 ^ 0x33, 8) == 0x77B79C2D;
    assert d[1..] == [0x32, 0x33] && d[1..][1..] == [0x33] && d[1..][1..][1..] == [];
  }

  lemma CheckDigits456()
    ensures Update(0x77B79C2D, [0x34, 0x35, 0x36]) == 0xF68D2C9E
  {
    var d: seq<bv8> := [0x34, 0x35, 0x36];
    assert ShiftBits(0x77B79C2D ^ 0x34, 8) == 0x641C1F5C;
    assert ShiftBits(0x641C1F5C ^ 0x35, 8) == 0x340AC5E3;
    assert ShiftBits(0x340AC5E3 ^ 0x36, 8) == 0xF68D2C9E;
    assert d[1..] == [0x35, 0x36] && d[1..][1..] == [0x36] && d[1..][1..][1..] == [];
  }

  lemma CheckDigits789()
    ensures Update(0xF68D2C9E, [0x37, 0x38, 0x39]) == 0x340BC6D9
  {
    var d: seq<bv8> := [0x37, 0x38, 0x39];
    assert ShiftBits(0xF68D2C9E ^ 0x37, 8) == 0xAFFC9660;
    assert ShiftBits(0xAFFC9660 ^ 0x38, 8) == 0x651F2550;
    assert ShiftBits(0x651F2550 ^ 0x39, 8) == 0x340BC6D9;
    assert d[1..] == [0x38, 0x39] && d[1..][1..] == [0x39] && d[1..][1..][1..] == [];
  }

  /** The standard check value: the CRC-32 of the ASCII digits "123456789" is 0xCBF43926. */
  lemma CheckValue()
    ensures Checksum([0x31, 0x32, 0x33, 0x34, 0x35, 0x36, 0x37, 0x38, 0x39]) == 0xCBF4_3926
  {
    var a: seq<bv8> := [0x31, 0x32, 0x33];
    var b: seq<bv8> := [0x34, 0x35, 0x36];
    var c: seq<bv8> := [0x37, 0x38, 0x39];
    assert [0x31, 0x32, 0x33, 0x34, 0x35, 0x36, 0x37, 0x38, 0x39] == (a + b) + c;
    UpdateAppend(0xFFFF_FFFF, a + b, c);
    UpdateAppend(0xFFFF_FFFF, a, b);
    CheckDigits123();
    CheckDigits456();
    CheckDigits789();
  }
}
