# NCW decoder model

This project models the decoding core of `src/main.rs`, the converter from
Native Instruments' compressed NCW sample format to WAV. For one input file
the converter does the following:

1. It reads a fixed header at offset 0x8: channel count, original bit depth,
   sample rate, sample count and first-frame offset.
2. It reads the frame table at 0x78. Slot `i` and slot `i + 1` give frame
   `i`'s start and end, relative to the first frame.
3. It decodes every frame. A frame has one block per channel. Each block is a
   16-byte sub-header followed by `bits * 512 / 8` bytes of packed deltas.
   The bits are read least significant first through the `get_bit` closure,
   and each delta is sign-extended from its top bit. The block's samples are
   the seed sample `start_sample` and then 511 running i32 sums.
4. It writes a 56-byte RIFF/WAVE header with a `fact` chunk.
5. It emits the samples for every index below the header's sample count.
   When the frame's mid/side flag is 0, it emits every channel's sample in
   channel order. Otherwise it emits `mid + side` and `mid - side`, where mid
   is channel 0 and side is channel 1.

Overflow is modelled as in a debug build, where checked arithmetic panics.
Each panic becomes an `Err` value:

| panic in the source | error in the model |
|---|---|
| checked-arithmetic overflow: the u32 addition `start + first_frame` and the u32 subtractions of the index, `bit << j` with `j >= 32`, `1 << 32`, `2_i32.pow(bitdepth - 1)`, the i32 running sum, `sample_rate * 4 * channels` | `ArithmeticOverflow` |
| a vector indexed past its end: `samples[0]`, `samples[1]`, `sidemid_flags[i / 512]`, `samples[c][i]` | `IndexOutOfBounds` |
| a short `read_exact` | `ShortRead` |
| the `"overflow"` panic of `get_bit` | `BitBufferExhausted` |

The model uses two styles:

- **Pure specification functions.** They state each step on the file's bytes.
  The header is read at fixed offsets; the index, the frames and the output
  loop are folds.
- **Imperative methods.** They follow the code:
  - a `Reader` class with the file position, for `seek`, `get_u16`,
    `get_u32` and `get_i32` (lines 33-53)
  - a `BitReader` class with the two offsets of `get_bit`
  - loops for the frame table, the bit gathering, the 511 deltas, the
    channel and frame loops, and the output loop

Each method is proved equal to its specification function. The lemmas then
state what the functions guarantee.

Three points of the code shape the model:

- **No padding between channel blocks.** The loop at lines 151-154,
  commented "advance to frame alignment", only advances the bit reader's
  local `buf_offset`, which is never read again. The file cursor is not
  moved, so the next channel's sub-header is read right after the bytes the
  single `read` delivered. `ChannelEnd` models exactly that position.
- **WAV sizes come from the decoded length.** The RIFF, fact and data sizes
  use `samples[0].len()`, which is 512 per frame. They do not use the
  header's sample count.
- **Samples are raw integers.** The source divides every decoded sample by
  `2^(bitdepth - 1)` into an `f32`, and mid/side is done in floating point.
  The model keeps the raw integer samples and exact integer sums. The
  division only matters through its exponent; `2_i32.pow(bitdepth - 1)` panics
  unless the bit depth is 1 to 31 (for 0 it is the u32 subtraction
  `bitdepth - 1` that panics), and the model keeps that check.

## Model

| member | source | states |
|---|---|---|
| Header.HeaderAt | src/main.rs:75-82 | the header is read iff the file reaches offset 0x20; otherwise ShortRead |
| Base.ToI32 | src/main.rs:147 | `as i32` of a u32 is the same value or the value minus 2^32 |
| LittleEndian.U16RoundTrip | src/main.rs:33-37 | decoding the little-endian bytes of a u16 gives it back |
| LittleEndian.U16Injective | src/main.rs:33-37 | every 2-byte pattern is the encoding of the u16 it decodes to |
| LittleEndian.U32RoundTrip | src/main.rs:39-43 | decoding the little-endian bytes of a u32 gives it back |
| LittleEndian.U32Injective | src/main.rs:39-43 | every 4-byte pattern is the encoding of the u32 it decodes to |
| FileCursor.Available | src/main.rs:117 | a single read returns all requested bytes or stops at the end of the file, never past it |
| FileCursor.Reader.Seek | src/main.rs:51-53 | an absolute seek sets the position, even past the end |
| FileCursor.Reader.ReadExact | src/main.rs:35 | succeeds iff the whole buffer lies inside the file; then the buffer holds those bytes and the cursor moves past them; otherwise ShortRead |
| FileCursor.Reader.Read | src/main.rs:117 | `f.read`: copies the available prefix, keeps the rest of the buffer, moves the cursor by the count delivered |
| FileCursor.Reader.GetU16 | src/main.rs:33-37 | succeeds iff 2 bytes remain; the little-endian u16 at the cursor; the cursor advances by 2 |
| FileCursor.Reader.GetU32 | src/main.rs:39-43 | succeeds iff 4 bytes remain; the little-endian u32 at the cursor; the cursor advances by 4 |
| FileCursor.Reader.GetI32 | src/main.rs:45-49 | succeeds iff 4 bytes remain; the two's complement i32 at the cursor; the cursor advances by 4 |
| Header.ParseHeader | src/main.rs:75-82 | the sequential reads after `seek(0x8)` return the fields at offsets 0x8, 0xA, 0xC, 0x10, 0x18 and 0x1C, skip 0x14, and stop at 0x20; ShortRead on a shorter file |
| Header.HeaderRoundTrip | src/main.rs:75-82 | parsing a laid-out header recovers every field, whatever the magic, the skipped word and the trailing bytes |
| FrameIndex.SlotCount | src/main.rs:84 | `(first_frame - 0x78) / 4` succeeds iff first_frame >= 0x78, else ArithmeticOverflow; the slots end within 4 bytes below first_frame |
| FrameIndex.EntryAt | src/main.rs:86-90 | entry i reads slots i and i+1 and fails with ShortRead exactly when they run past the end of the file; otherwise it succeeds exactly when `slot i + first_frame` fits a u32 and `slot i+1 - slot i - 0x10` does not underflow, and fails with ArithmeticOverflow when either overflows; its start is at least first_frame, and its length plus 0x10 spans from slot i to slot i+1 |
| FrameIndex.EntriesFrom | src/main.rs:86-91 | the table fold fails only on a short read or an overflow |
| FrameIndex.FrameIndexAt | src/main.rs:84-91 | the index fails only on a short read or an overflow |
| FrameIndex.ReadFrameIndex | src/main.rs:84-91 | the seek-and-read loop yields exactly the index of the table |
| FrameIndex.EntriesFromShape | src/main.rs:86-91 | the fold succeeds iff every entry in range does, and then it appends those entries in table order |
| FrameIndex.FrameIndexShape | src/main.rs:84-91 | succeeds iff the first-frame offset is at least 0x7C and every entry reads without overflow; then it has `(first_frame - 0x78) / 4 - 1` entries; entry `i` has start `slot i + first_frame` and length `slot i+1 - slot i - 0x10` |
| BitStream.BitReader.constructor | src/main.rs:118-119 | both offsets start at 0 |
| BitStream.BitReader.GetBit | src/main.rs:120-131 | fails with BitBufferExhausted iff the byte offset is at the end, leaving the cursor alone; otherwise returns buffer bit `8 * byte + bit` and advances one bit, carrying into the byte offset |
| Bits.AppendBit | src/main.rs:141 | `delta \|= bit << j` on a j-bit value sets bit j |
| Bits.OrDisjoint | src/main.rs:141 | or-ing bits above every bit of a value is addition |
| Bits.OrBound | src/main.rs:146 | or of two k-bit values is a k-bit value |
| Bits.RawFieldBound | src/main.rs:139-145 | a gathered w-bit field is below 2^w |
| Bits.BitOfIsBit | src/main.rs:124 | `(b >> k) & 1` is 0 or 1 |
| Bits.BitAtIsBit | src/main.rs:124 | every buffer bit is 0 or 1 |
| Bits.RawFieldTopBit | src/main.rs:142-146 | a field's top bit is set iff the field is at least 2^(w-1) |
| Bits.ExtendAsWritten | src/main.rs:146-147 | with last bit 0, a field below 2^31 comes back unchanged; the general case is Bits.SignExtendAsWritten |
| Bits.HighOnes | src/main.rs:146 | `!((1 << w) - 1)` is 2^32 - 2^w, the bits from w upwards |
| Bits.SignExtendAsWritten | src/main.rs:146-147 | the u32 mask-and-cast of line 146 equals two's complement sign extension of the w-bit field |
| Bits.SignExtendInverse | src/main.rs:146-147 | sign extension maps w-bit patterns into [-2^(w-1), 2^(w-1)) and `TwosComplement` undoes it |
| Bits.TwosComplementInverse | src/main.rs:146-147 | every value in the signed w-bit range is the sign extension of its pattern |
| DeltaDecoder.GatherBits | src/main.rs:137-145 | succeeds iff w <= 32 and w bits remain; returns the w-bit field at the cursor and its last bit; otherwise BitBufferExhausted when fewer than min(w, 33) bits remain, else ArithmeticOverflow |
| DeltaDecoder.ReadDelta | src/main.rs:137-147 | succeeds iff w < 32 and w bits remain; returns the sign-extended field; the error is chosen as in GatherBits |
| DeltaDecoder.GatherStep | src/main.rs:139-141 | one loop step appends the next buffer bit to the field |
| DeltaDecoder.ExtendField | src/main.rs:146 | for a gathered field and its last bit, line 146 yields the sign extension |
| DeltaDecoder.Accumulate | src/main.rs:136-150 | the running-sum fold ends with 512 samples that extend the given prefix; it fails only with BitBufferExhausted or ArithmeticOverflow |
| DeltaDecoder.ChannelSamples | src/main.rs:133-150 | a decoded channel needs a width below 32 and has 512 samples, the seed first; it fails only with BitBufferExhausted or ArithmeticOverflow |
| DeltaDecoder.DecodeChannel | src/main.rs:133-150 | the decoding loop yields `ChannelSamples` of the buffer; on success the reader consumed exactly 511 * bits bits, within the buffer |
| DeltaDecoder.ChannelShape | src/main.rs:133-150 | a decoded channel has width < 32, 512 samples, the seed first, and each next sample is the previous plus the next delta; the buffer holds the 511 deltas |
| DeltaDecoder.AccumulateShape | src/main.rs:136-150 | the running-sum fold keeps the seed-plus-delta chain up to 512 samples |
| DeltaDecoder.ChannelClosedForm | src/main.rs:133-150 | with room for 511 deltas, decoding never runs dry; it succeeds iff every partial sum fits an i32; sample k is the seed plus the first k deltas |
| DeltaDecoder.AccumulateClosedForm | src/main.rs:136-150 | the fold from any prefix of partial sums ends in the partial sums |
| DeltaDecoder.FrameBufferSuffices | src/main.rs:113-145 | a buffer of `bits * 512 / 8` bytes never exhausts the bit reader |
| DeltaDecoder.SilentChannel | src/main.rs:133-150 | an all-zero delta buffer decodes to 512 copies of the seed |
| DeltaDecoder.ZeroDelta | src/main.rs:137-147 | every delta of an all-zero buffer is 0 |
| DeltaDecoder.ZeroField | src/main.rs:139-145 | every field of an all-zero buffer is 0 |
| DeltaDecoder.BitOfZero | src/main.rs:124 | every bit of 0 is 0 |
| DeltaDecoder.SilentPrefix | src/main.rs:147 | with zero deltas every partial sum is the seed |
| FrameDecoder.ChannelAt | src/main.rs:104-135 | a block fails only with ShortRead or ArithmeticOverflow; a decoded block has a whole sub-header inside the file, a bit depth of 1 to 31, and 512 samples starting with the seed |
| FrameDecoder.ChannelEnd | src/main.rs:117 | the next block starts after the 16-byte sub-header and at most the `bits * 512 / 8` bytes read, never past the end of the file |
| FrameDecoder.ChannelsFrom | src/main.rs:103-155 | the channel fold keeps the channel count |
| FrameDecoder.FramesFrom | src/main.rs:101-156 | the frame fold keeps the channel count |
| FrameDecoder.ReadSubHeader | src/main.rs:104-111 | the five sub-header reads succeed exactly when 16 bytes remain, else ShortRead; they return the seed at +4, the width at +8 and the flag at +10 and advance the cursor by 16 |
| FrameDecoder.ReadChannel | src/main.rs:104-150 | the sub-header reads, the buffer read and the decode yield the block at the position and leave the cursor at its end, or the same error |
| FrameDecoder.DecodeFrame | src/main.rs:103-155 | the channel loop equals the channel fold from the frame start |
| FrameDecoder.DecodeFrames | src/main.rs:93-156 | the setup of empty channels and the frame loop equal `DecodeFramesSpec` |
| FrameDecoder.ReadIntoZeros | src/main.rs:116-117 | one read into a zeroed buffer gives the file bytes from the position, zero-padded past the end |
| FrameProperties.ChannelAtShape | src/main.rs:104-150 | a decoded block needs a bit depth of 1 to 31 and a width below 32; it carries the sub-header fields and 512 samples chained by the deltas of the zero-padded buffer |
| FrameProperties.WholeChannel | src/main.rs:113-117 | a block inside the file is read in full: the deltas are the file bytes and the next block starts right after them |
| FrameProperties.BlockDecoderWellBehaved | src/main.rs:104-150 | every block decode avoids exhaustion and yields 512 samples |
| FrameProperties.ChannelsFromBlocks | src/main.rs:103-111 | the channel loop from channel c appends to each channel k >= c the block decoded at its position (block k - c of the chain starting at the cursor), leaves the earlier channels alone, and adds the flag of the block at the cursor exactly when it starts at channel 0 |
| FrameProperties.ChannelsFromShape | src/main.rs:103-150 | with a decoder that never runs dry and yields 512-sample blocks, the channel loop never runs dry and each remaining channel gains exactly the 512 samples of its own block |
| FrameProperties.FlagsOf | src/main.rs:108-110 | one flag per remaining frame |
| FrameProperties.FramesFromLengths | src/main.rs:101-156 | the frame loop never runs dry and adds 512 samples per frame to every channel |
| FrameProperties.FramesFromBlocks | src/main.rs:101-156 | channel c gains block c of every frame, in frame order |
| FrameProperties.FramesFromFlags | src/main.rs:101-110 | the flags gain the flag of each frame's first block, in frame order, and stay unchanged without channels |
| FrameProperties.FramesFromDecoded | src/main.rs:101-156 | after a successful frame loop, every block of every frame decoded |
| FrameProperties.ChannelBlocksAt | src/main.rs:101-150 | when every frame contributes a 512-sample block, channel c has 512 samples per frame and frame j's block sits at `[512 j, 512 j + 512)` |
| FrameProperties.DecodeFramesShape | src/main.rs:93-156 | the decode never runs dry; one sequence per channel; every channel c has 512 samples per frame and is block c of every frame in frame order; the flags are one per frame, none without channels |
| FrameProperties.DecodedBlock | src/main.rs:101-150 | samples `[512 i, 512 i + 512)` of channel c are the block `ChannelAt` decodes at the position of block c of frame i, which is reached by stepping from the frame's start over the c blocks before it |
| FrameProperties.DecodedSamples | src/main.rs:101-150 | for every frame i and channel c, the first of samples `[512 i, 512 i + 512)` of channel c is the seed sample of that block's sub-header, and each next one is the previous plus the next delta of the zero-padded buffer after the sub-header |
| WavHeader.WavHeaderBytes | src/main.rs:166-183 | the RIFF, fmt, fact and data chunk headers together are 56 bytes |
| WavHeader.WavHeaderFor | src/main.rs:165-183 | succeeds iff there is a channel 0 and `sample_rate * 4 * channels` fits a u32; otherwise IndexOutOfBounds without channels, else ArithmeticOverflow; on success the 56-byte header holds the RIFF, WAVE, fmt, fact and data tags, the RIFF size `n*4 + 0x30`, fmt size 16, format 3, the channel count, the sample rate, the byte rate `rate*4*channels`, block align 4, 32 bits, fact size 4, the count n and the data size `n*4*channels`, where n is `samples[0].len()` and the sizes wrap modulo 2^32 |
| WavHeader.WavHeaderLayout | src/main.rs:166-183 | every field at its offset: tags, RIFF size `n*4 + 0x30`, fmt size 16, format 3, channels, rate, byte rate, block align 4, 32 bits, fact size 4, count n, data size `n*4*channels`, the sizes mod 2^32 |
| WavHeader.RiffFields | src/main.rs:166-168 | bytes 0-12 hold "RIFF", the wrapped RIFF size and "WAVE" |
| WavHeader.FmtFields | src/main.rs:168-176 | bytes 12-36 hold the fmt chunk fields |
| WavHeader.FactFields | src/main.rs:177-179 | bytes 36-48 hold "fact", 4 and the wrapped sample count |
| WavHeader.DataFields | src/main.rs:180-183 | bytes 48-56 hold "data" and the wrapped data size |
| Reconstruct.Row | src/main.rs:185-196 | an index emits a value per channel under flag 0, else two; it fails only on an out-of-range index |
| Reconstruct.ReconstructSpec | src/main.rs:184-197 | the output fails only on an out-of-range index |
| Reconstruct.ReconstructSamples | src/main.rs:184-197 | the output loop equals `ReconstructSpec` of the sample count |
| Reconstruct.ErrorPersists | src/main.rs:184-197 | a failing index fails every longer output |
| Reconstruct.RowShape | src/main.rs:185-196 | an index succeeds iff its frame has a flag and the channels it reads have sample i; flag 0 gives each channel's sample, otherwise two values whose sum and difference are twice mid and twice side |
| Reconstruct.ReconstructLayout | src/main.rs:184-197 | the rows of the indices below i come first, then row i |
| Reconstruct.ReconstructSucceeds | src/main.rs:184-197 | the output succeeds iff every index below the count has a row |
| Reconstruct.RowFails | src/main.rs:184-197 | a failed output has a failing index below the count |
| Reconstruct.UniformLength | src/main.rs:184-197 | rows of common width w give an output of count * w values |
| Reconstruct.UniformLayout | src/main.rs:184-197 | with rows of common width w, row i sits at `[i*w, i*w + w)` |
| Reconstruct.UniformRow | src/main.rs:184-197 | the same for one index |
| Reconstruct.DirectInterleaved | src/main.rs:185-188 | with every flag 0 the output interleaves the channels, sample i of each at `[i*n, i*n + n)` |
| Reconstruct.DirectSample | src/main.rs:185-188 | value `i*n + c` of such an output is channel c's sample i |
| Reconstruct.StereoPairs | src/main.rs:184-196 | for two channels there are two values per index: the channel samples under flag 0; otherwise values whose half sum and half difference are mid and side |
| Convert.ConvertSpec | src/main.rs:75-197 | the conversion never fails with BitBufferExhausted, and a successful one has a 56-byte header |
| Convert.ConvertFile | src/main.rs:75-197 | the whole conversion on a reader over the file equals `ConvertSpec` |
| Convert.ConvertShape | src/main.rs:75-197 | a successful conversion has a channel, a sample count within 512 per frame, and a 56-byte header recording the channel count, the rate and 512 * frames modulo 2^32 |
| Convert.CountBound | src/main.rs:184-191 | an output succeeds only for sample counts within channel 0's length |
| Convert.StereoLength | src/main.rs:184-196 | a stereo conversion emits two values per sample index |

## Left out

- The command line, directory walk, `rayon` parallelism, `println!` and output file names (lines 55-73, 158-164, 198) are left out: they are I/O around the decoder. `ConvertFile` takes the file's bytes.
- Writing the output: each `to_le_bytes` write is left out. The header is produced as bytes; the samples are produced as integer values in write order.
- Partial output lost on a panic is left out. The source has already written the WAV header when a panic in the output loop strikes. The model returns only the error.
- The normalisation to `f32` is left out: floating point is not modelled (only its `2_i32.pow` overflow check is kept). Samples remain raw i32 values.
- Reconstruct.Row: computes `mid + side` and `mid - side` as exact integers. The source does this in `f32` on normalised samples; the rounding is not modelled.
- The channel-alignment loop (lines 151-154) is left out, because it changes a variable that is never read again.
- A release build is not modelled. There the u32 and i32 operations listed above wrap silently instead of panicking, and the decode would go on with wrapped values.
- FileCursor.Reader.Read: models `f.read` as one call returning all requested bytes or everything up to the end of the file. An operating system may return fewer bytes from a file; that is not modelled.
- `usize` arithmetic in the WAV size expressions is modelled as unbounded: its products cannot exceed a 64-bit `usize` for a u16 channel count and a decoded length below 2^40. Only the truncating `as u32` casts are modelled.
