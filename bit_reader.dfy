/** The `get_bit` closure of main.rs (lines 118-131) as an object: a byte
    buffer and a cursor made of a byte offset and a bit offset within it. */
module BitStream {
  import opened Base
  import opened Bits

  class BitReader {
    const buf: array<u8>
    var bufOffset: nat
    var bitOffset: nat

    /** The cursor points at a bit of the buffer or just past its last one. */
    ghost predicate Valid()
      reads this
    {
      bitOffset < 8 && 8 * bufOffset + bitOffset <= 8 * buf.Length
    }

    /** The linear bit position, counted from bit 0 of byte 0. */
    function Position(): nat
      reads this
    {
      8 * bufOffset + bitOffset
    }

    constructor (buf: array<u8>)
      ensures this.buf == buf && Valid() && bufOffset == 0 && bitOffset == 0
    {
      this.buf := buf;
      bufOffset := 0;
      bitOffset := 0;
    }

    /** Returns the next bit, least significant first within each byte, and
        steps the cursor by one bit; fails, leaving the cursor alone, once the
        byte offset has reached the end of the buffer. */
    method GetBit() returns (r: Result<nat>)
      requires Valid()
      modifies this
      ensures Valid()
      ensures r.Ok? <==> old(bufOffset) < buf.Length
      ensures r.Err? ==> r.error == BitBufferExhausted && bufOffset == old(bufOffset) && bitOffset == old(bitOffset)
      ensures r.Ok? ==> r.value == BitAt(buf[..], old(Position())) && Position() == old(Position()) + 1
    {
      if bufOffset >= buf.Length {
        return Err(BitBufferExhausted);
      }
      var bit := BitOf(buf[bufOffset], bitOffset);
      bitOffset := bitOffset + 1;
      if bitOffset >= 8 {
        bufOffset := bufOffset + 1;
        bitOffset := bitOffset - 8;
      }
      r := Ok(bit);
    }
  }
}
