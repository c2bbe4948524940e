/** The 56-byte RIFF/WAVE header main.rs writes before the samples (lines
    165-183): a `fmt ` chunk for 32-bit IEEE float samples, a `fact` chunk
    with the per-channel sample count and the `data` chunk size. Every count
    comes from the decoded length of channel 0. */
module WavHeader {
  import opened Base
  import opened LittleEndian

  const WavHeaderSize := 56
  const BytesPerSample := 4
  /** WAVE_FORMAT_IEEE_FLOAT. */
  const FormatFloat := 3

  /** The ASCII chunk tags. */
  const RiffTag: seq<u8> := [0x52, 0x49, 0x46, 0x46]   // "RIFF"
  const WaveTag: seq<u8> := [0x57, 0x41, 0x56, 0x45]   // "WAVE"
  const FmtTag: seq<u8> := [0x66, 0x6D, 0x74, 0x20]    // "fmt "
  const FactTag: seq<u8> := [0x66, 0x61, 0x63, 0x74]   // "fact"
  const DataTag: seq<u8> := [0x64, 0x61, 0x74, 0x61]   // "data"

  /** `x as u32` of a usize. */
  function Truncate32(x: nat): u32 {
    x % 0x1_0000_0000
  }

  /** The RIFF chunk header, with the form type "WAVE". */
  function RiffChunk(size: u32): (b: seq<u8>)
    ensures |b| == 12
  {
    RiffTag + U32Bytes(size) + WaveTag
  }

  /** The `fmt ` chunk: 16 bytes of format, 32-bit float samples. */
  function FmtChunk(numChannels: u16, sampleRate: u32, byteRate: u32): (b: seq<u8>)
    ensures |b| == 24
  {
    FmtTag + U32Bytes(16) + U16Bytes(FormatFloat) + U16Bytes(numChannels) +
      U32Bytes(sampleRate) + U32Bytes(byteRate) + U16Bytes(BytesPerSample) + U16Bytes(BytesPerSample * 8)
  }

  /** The `fact` chunk: the number of samples per channel. */
  function FactChunk(n: u32): (b: seq<u8>)
    ensures |b| == 12
  {
    FactTag + U32Bytes(4) + U32Bytes(n)
  }

  /** The header of the `data` chunk; the samples follow it. */
  function DataChunkHeader(size: u32): (b: seq<u8>)
    ensures |b| == 8
  {
    DataTag + U32Bytes(size)
  }

  /** The `data` chunk size before truncation: `n * 4 * num_channels` in usize. */
  function DataSize(n: nat, numChannels: u16): nat {
    n * BytesPerSample * numChannels
  }

  /** The four chunk headers back to back, for `n` samples per channel. */
  function WavHeaderBytes(n: nat, numChannels: u16, sampleRate: u32, byteRate: u32): (h: seq<u8>)
    ensures |h| == WavHeaderSize
  {
    RiffChunk(Truncate32(n * BytesPerSample + 0x24 + 0xC)) +
    FmtChunk(numChannels, sampleRate, byteRate) +
    FactChunk(Truncate32(n)) +
    DataChunkHeader(Truncate32(DataSize(n, numChannels)))
  }

  /** The header for the decoded channels. `samples[0]` fails when there is
      no channel; the byte rate `sample_rate * 4 * num_channels` is checked
      u32 arithmetic, evaluated left to right. */
  function WavHeaderFor(samples: seq<seq<i32>>, numChannels: u16, sampleRate: u32): (r: Result<seq<u8>>)
    ensures r.Ok? <==> |samples| > 0 && sampleRate * 4 <= 0xFFFF_FFFF && sampleRate * 4 * numChannels <= 0xFFFF_FFFF
    ensures r.Err? ==> r.error == if |samples| == 0 then IndexOutOfBounds else ArithmeticOverflow
    ensures r.Ok? ==>
              var h := r.value;
              var n := |samples[0]|;
              |h| == WavHeaderSize &&
              h[0..4] == RiffTag && U32At(h, 4) == (n * 4 + 0x30) % 0x1_0000_0000 &&
              h[8..12] == WaveTag && h[12..16] == FmtTag && U32At(h, 16) == 16 &&
              U16At(h, 20) == FormatFloat && U16At(h, 22) == numChannels &&
              U32At(h, 24) == sampleRate && U32At(h, 28) == sampleRate * 4 * numChannels &&
              U16At(h, 32) == 4 && U16At(h, 34) == 32 &&
              h[36..40] == FactTag && U32At(h, 40) == 4 && U32At(h, 44) == n % 0x1_0000_0000 &&
              h[48..52] == DataTag && U32At(h, 52) == (n * 4 * numChannels) % 0x1_0000_0000
  {
    if |samples| == 0 then Err(IndexOutOfBounds)
    else if sampleRate * BytesPerSample > 0xFFFF_FFFF then Err(ArithmeticOverflow)
    else if sampleRate * BytesPerSample * numChannels > 0xFFFF_FFFF then Err(ArithmeticOverflow)
    else
      var byteRate := sampleRate * BytesPerSample * numChannels;
      WavHeaderLayout(|samples[0]|, numChannels, sampleRate, byteRate);
      Ok(WavHeaderBytes(|samples[0]|, numChannels, sampleRate, byteRate))
  }

  /** Read back little-endian at their offsets, the 56 header bytes hold the
      chunk tags, the RIFF size `n*4 + 0x30`, the fmt size 16, format 3, the
      channel count, the sample rate, the byte rate, block align 4, 32 bits
      per sample, the fact size 4, the sample count `n` and the data size
      `n*4*channels`, the sizes wrapping modulo 2^32. */
  lemma WavHeaderLayout(n: nat, numChannels: u16, sampleRate: u32, byteRate: u32)
    ensures var h := WavHeaderBytes(n, numChannels, sampleRate, byteRate);
            h[0..4] == RiffTag && U32At(h, 4) == (n * 4 + 0x30) % 0x1_0000_0000 &&
            h[8..12] == WaveTag && h[12..16] == FmtTag && U32At(h, 16) == 16 &&
            U16At(h, 20) == 3 && U16At(h, 22) == numChannels &&
            U32At(h, 24) == sampleRate && U32At(h, 28) == byteRate &&
            U16At(h, 32) == 4 && U16At(h, 34) == 32 &&
            h[36..40] == FactTag && U32At(h, 40) == 4 && U32At(h, 44) == n % 0x1_0000_0000 &&
            h[48..52] == DataTag && U32At(h, 52) == (n * 4 * numChannels) % 0x1_0000_0000
  {
    RiffFields(n, numChannels, sampleRate, byteRate);
    FmtFields(n, numChannels, sampleRate, byteRate);
    FactFields(n, numChannels, sampleRate, byteRate);
    DataFields(n, numChannels, sampleRate, byteRate);
  }

  lemma RiffFields(n: nat, numChannels: u16, sampleRate: u32, byteRate: u32)
    ensures var h := WavHeaderBytes(n, numChannels, sampleRate, byteRate);
            h[0..4] == RiffTag && U32At(h, 4) == (n * 4 + 0x30) % 0x1_0000_0000 && h[8..12] == WaveTag
  {
    var riff := RiffChunk(Truncate32(n * 4 + 0x30));
    var rest := FmtChunk(numChannels, sampleRate, byteRate) + FactChunk(Truncate32(n)) +
                DataChunkHeader(Truncate32(DataSize(n, numChannels)));
    assert WavHeaderBytes(n, numChannels, sampleRate, byteRate) == [] + riff + rest;
    RiffChunkLayout(Truncate32(n * 4 + 0x30));
    ChunkAt([], riff, rest);
  }

  lemma FmtFields(n: nat, numChannels: u16, sampleRate: u32, byteRate: u32)
    ensures var h := WavHeaderBytes(n, numChannels, sampleRate, byteRate);
            h[12..16] == FmtTag && U32At(h, 16) == 16 &&
            U16At(h, 20) == 3 && U16At(h, 22) == numChannels &&
            U32At(h, 24) == sampleRate && U32At(h, 28) == byteRate &&
            U16At(h, 32) == 4 && U16At(h, 34) == 32
  {
    var riff := RiffChunk(Truncate32(n * 4 + 0x30));
    var fmt := FmtChunk(numChannels, sampleRate, byteRate);
    var rest := FactChunk(Truncate32(n)) + DataChunkHeader(Truncate32(DataSize(n, numChannels)));
    assert WavHeaderBytes(n, numChannels, sampleRate, byteRate) == riff + fmt + rest;
    FmtChunkLayout(numChannels, sampleRate, byteRate);
    ChunkAt(riff, fmt, rest);
  }

  lemma FactFields(n: nat, numChannels: u16, sampleRate: u32, byteRate: u32)
    ensures var h := WavHeaderBytes(n, numChannels, sampleRate, byteRate);
            h[36..40] == FactTag && U32At(h, 40) == 4 && U32At(h, 44) == n % 0x1_0000_0000
  {
    var front := RiffChunk(Truncate32(n * 4 + 0x30)) + FmtChunk(numChannels, sampleRate, byteRate);
    var data := DataChunkHeader(Truncate32(DataSize(n, numChannels)));
    FactAt(front, Truncate32(n), data);
    assert WavHeaderBytes(n, numChannels, sampleRate, byteRate) == front + FactChunk(Truncate32(n)) + data;
  }

  /** The `fact` chunk after the 36 bytes of the RIFF and `fmt ` chunks. */
  lemma FactAt(front: seq<u8>, n: u32, data: seq<u8>)
    requires |front| == 36 && |data| == 8
    ensures var h := front + FactChunk(n) + data;
            h[36..40] == FactTag && U32At(h, 40) == 4 && U32At(h, 44) == n
  {
    FactChunkLayout(n);
    ChunkAt(front, FactChunk(n), data);
  }

  lemma DataFields(n: nat, numChannels: u16, sampleRate: u32, byteRate: u32)
    ensures var h := WavHeaderBytes(n, numChannels, sampleRate, byteRate);
            h[48..52] == DataTag && U32At(h, 52) == (n * 4 * numChannels) % 0x1_0000_0000
  {
    var front := RiffChunk(Truncate32(n * 4 + 0x30)) + FmtChunk(numChannels, sampleRate, byteRate) +
                 FactChunk(Truncate32(n));
    DataAt(front, Truncate32(DataSize(n, numChannels)));
    assert WavHeaderBytes(n, numChannels, sampleRate, byteRate) == front + DataChunkHeader(Truncate32(DataSize(n, numChannels)));
  }

  /** The `data` chunk header after the 48 bytes of the other chunks. */
  lemma DataAt(front: seq<u8>, size: u32)
    requires |front| == 48
    ensures var h := front + DataChunkHeader(size);
            h[48..52] == DataTag && U32At(h, 52) == size
  {
    DataChunkLayout(size);
    ChunkAt(front, DataChunkHeader(size), []);
    assert front + DataChunkHeader(size) + [] == front + DataChunkHeader(size);
  }

  lemma RiffChunkLayout(size: u32)
    ensures var c := RiffChunk(size);
            c[0..4] == RiffTag && U32At(c, 4) == size && c[8..12] == WaveTag
  {
    var c := RiffChunk(size);
    assert c[4..8] == U32Bytes(size);
    U32RoundTrip(size);
  }

  lemma FmtChunkLayout(numChannels: u16, sampleRate: u32, byteRate: u32)
    ensures var c := FmtChunk(numChannels, sampleRate, byteRate);
            c[0..4] == FmtTag && U32At(c, 4) == 16 && U16At(c, 8) == 3 && U16At(c, 10) == numChannels &&
            U32At(c, 12) == sampleRate && U32At(c, 16) == byteRate && U16At(c, 20) == 4 && U16At(c, 22) == 32
  {
    var c := FmtChunk(numChannels, sampleRate, byteRate);
    assert c[4..8] == U32Bytes(16);
    assert c[8..10] == U16Bytes(3);
    assert c[10..12] == U16Bytes(numChannels);
    assert c[12..16] == U32Bytes(sampleRate);
    assert c[16..20] == U32Bytes(byteRate);
    assert c[20..22] == U16Bytes(4);
    assert c[22] == 32 && c[23] == 0;
    assert c[22..24] == U16Bytes(32);
    U32RoundTrip(16);
    U16RoundTrip(3);
    U16RoundTrip(numChannels);
    U32RoundTrip(sampleRate);
    U32RoundTrip(byteRate);
    U16RoundTrip(4);
    U16RoundTrip(32);
  }

  lemma FactChunkLayout(n: u32)
    ensures var c := FactChunk(n);
            c[0..4] == FactTag && U32At(c, 4) == 4 && U32At(c, 8) == n
  {
    var c := FactChunk(n);
    assert c[4..8] == U32Bytes(4);
    assert c[8..12] == U32Bytes(n);
    U32RoundTrip(4);
    U32RoundTrip(n);
  }

  lemma DataChunkLayout(size: u32)
    ensures var c := DataChunkHeader(size);
            c[0..4] == DataTag && U32At(c, 4) == size
  {
    var c := DataChunkHeader(size);
    assert c[4..8] == U32Bytes(size);
    U32RoundTrip(size);
  }

  /** A chunk laid out after `p` keeps its fields, shifted by `|p|`. */
  lemma ChunkAt(p: seq<u8>, c: seq<u8>, q: seq<u8>)
    ensures forall i, j | 0 <= i <= j <= |c| :: (p + c + q)[|p| + i..|p| + j] == c[i..j]
    ensures forall k | 0 <= k && k + 2 <= |c| :: U16At(p + c + q, |p| + k) == U16At(c, k)
    ensures forall k | 0 <= k && k + 4 <= |c| :: U32At(p + c + q, |p| + k) == U32At(c, k)
  {
    var h := p + c + q;
    forall i, j | 0 <= i <= j <= |c| ensures h[|p| + i..|p| + j] == c[i..j] {
      assert forall t | 0 <= t < j - i :: h[|p| + i..|p| + j][t] == c[i..j][t];
    }
    forall k | 0 <= k && k + 2 <= |c| ensures U16At(h, |p| + k) == U16At(c, k) {
      assert h[|p| + k..|p| + k + 2] == c[k..k + 2];
    }
    forall k | 0 <= k && k + 4 <= |c| ensures U32At(h, |p| + k) == U32At(c, k) {
      assert h[|p| + k..|p| + k + 4] == c[k..k + 4];
    }
  }
}
