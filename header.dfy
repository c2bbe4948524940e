/** The fixed header of an NCW file (main.rs lines 75-82): after a seek to
    0x8, two u16 and five u32 fields are read back to back. */
module Header {
  import opened Base
  import opened LittleEndian
  import opened FileCursor

  datatype NcwHeader = NcwHeader(
    numChannels: u16,
    originalBitDepth: u16,
    sampleRate: u32,
    sampleCount: u32,
    firstFrame: u32,      // byte offset of the frame data; also ends the frame table
    frameDataLen: u32)    // read but never used

  /** The header bytes end at 0x20; the u32 at 0x14 is skipped. */
  const HeaderEnd := 0x20

  /** The header as found at its fixed offsets, or a short read when the file
      ends before 0x20. */
  function HeaderAt(data: seq<u8>): (r: Result<NcwHeader>)
    ensures r.Ok? <==> |data| >= HeaderEnd
    ensures r.Err? ==> r.error == ShortRead
  {
    if |data| < HeaderEnd then Err(ShortRead)
    else Ok(NcwHeader(U16At(data, 0x8), U16At(data, 0xA), U32At(data, 0xC),
                      U32At(data, 0x10), U32At(data, 0x18), U32At(data, 0x1C)))
  }

  /** The sequential reads of main.rs: each reader advances the cursor by its
      width, so the fields land at the offsets of `HeaderAt`. */
  method ParseHeader(f: Reader) returns (r: Result<NcwHeader>)
    modifies f
    ensures r == HeaderAt(f.data)
    ensures r.Ok? ==> f.pos == HeaderEnd
  {
    f.Seek(0x8);
    var numChannels :- f.GetU16();
    var originalBitDepth :- f.GetU16();
    var sampleRate :- f.GetU32();
    var sampleCount :- f.GetU32();
    var _ :- f.GetU32();
    var firstFrame :- f.GetU32();
    var frameDataLen :- f.GetU32();
    r := Ok(NcwHeader(numChannels, originalBitDepth, sampleRate, sampleCount, firstFrame, frameDataLen));
  }

  /** Lays the header's fields out as a writer of the format would. */
  function HeaderBytes(h: NcwHeader, magic: seq<u8>, skipped: u32): (b: seq<u8>)
    requires |magic| == 8
    ensures |b| == HeaderEnd
  {
    magic + U16Bytes(h.numChannels) + U16Bytes(h.originalBitDepth) + U32Bytes(h.sampleRate)
      + U32Bytes(h.sampleCount) + U32Bytes(skipped) + U32Bytes(h.firstFrame) + U32Bytes(h.frameDataLen)
  }

  /** Parsing recovers every field of a laid-out header, whatever the first
      eight bytes, the skipped word and the bytes that follow. */
  lemma HeaderRoundTrip(h: NcwHeader, magic: seq<u8>, skipped: u32, rest: seq<u8>)
    requires |magic| == 8
    ensures HeaderAt(HeaderBytes(h, magic, skipped) + rest) == Ok(h)
  {
    var d := HeaderBytes(h, magic, skipped) + rest;
    assert d[0x8..0xA] == U16Bytes(h.numChannels);
    assert d[0xA..0xC] == U16Bytes(h.originalBitDepth);
    assert d[0xC..0x10] == U32Bytes(h.sampleRate);
    assert d[0x10..0x14] == U32Bytes(h.sampleCount);
    assert d[0x18..0x1C] == U32Bytes(h.firstFrame);
    assert d[0x1C..0x20] == U32Bytes(h.frameDataLen);
    U16RoundTrip(h.numChannels);
    U16RoundTrip(h.originalBitDepth);
    U32RoundTrip(h.sampleRate);
    U32RoundTrip(h.sampleCount);
    U32RoundTrip(h.firstFrame);
    U32RoundTrip(h.frameDataLen);
  }
}
