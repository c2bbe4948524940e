/** Little-endian integers as they sit in a byte sequence: the decoding used by
    `get_u16`, `get_u32`, `get_i32` (`from_le_bytes`) and the encoding used by
    the WAV writer (`to_le_bytes`). */
module LittleEndian {
  import opened Base

  function U16Le(b: seq<u8>): u16
    requires |b| == 2
  {
    b[0] as int + 0x100 * (b[1] as int)
  }

  function U32Le(b: seq<u8>): u32
    requires |b| == 4
  {
    b[0] as int + 0x100 * (b[1] as int) + 0x1_0000 * (b[2] as int) + 0x100_0000 * (b[3] as int)
  }

  /** `i32::from_le_bytes`: the same four bytes read as two's complement. */
  function I32Le(b: seq<u8>): i32
    requires |b| == 4
  {
    ToI32(U32Le(b))
  }

  function U16At(data: seq<u8>, off: nat): u16
    requires off + 2 <= |data|
  {
    U16Le(data[off..off + 2])
  }

  function U32At(data: seq<u8>, off: nat): u32
    requires off + 4 <= |data|
  {
    U32Le(data[off..off + 4])
  }

  function I32At(data: seq<u8>, off: nat): i32
    requires off + 4 <= |data|
  {
    I32Le(data[off..off + 4])
  }

  function U16Bytes(x: u16): (b: seq<u8>)
    ensures |b| == 2
  {
    [x % 0x100, x / 0x100]
  }

  function U32Bytes(x: u32): (b: seq<u8>)
    ensures |b| == 4
  {
    [x % 0x100, (x / 0x100) % 0x100, (x / 0x1_0000) % 0x100, x / 0x100_0000]
  }

  lemma U16RoundTrip(x: u16)
    ensures U16Le(U16Bytes(x)) == x
  {
  }

  lemma U16Injective(b: seq<u8>)
    requires |b| == 2
    ensures U16Bytes(U16Le(b)) == b
  {
  }

  lemma U32RoundTrip(x: u32)
    ensures U32Le(U32Bytes(x)) == x
  {
    var b0, b1, b2, b3 := x % 0x100, (x / 0x100) % 0x100, (x / 0x1_0000) % 0x100, x / 0x100_0000;
    assert x / 0x100 == b1 + 0x100 * (x / 0x1_0000);
    assert x / 0x1_0000 == b2 + 0x100 * b3;
  }

  lemma U32Injective(b: seq<u8>)
    requires |b| == 4
    ensures U32Bytes(U32Le(b)) == b
  {
    var x := U32Le(b);
    assert x / 0x100 == b[1] as int + 0x100 * (b[2] as int) + 0x1_0000 * (b[3] as int);
    assert x / 0x1_0000 == b[2] as int + 0x100 * (b[3] as int);
    assert x / 0x100_0000 == b[3];
  }
}
