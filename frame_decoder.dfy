/** The frame loop of main.rs (lines 93-156): every frame holds one block per
    channel, a 16-byte sub-header followed by the packed deltas, and every
    block appends 512 samples to its channel. The first channel's block also
    records the frame's mid/side flag. */
module FrameDecoder {
  import opened Base
  import opened LittleEndian
  import opened FileCursor
  import opened Bits
  import opened DeltaDecoder
  import opened FrameIndex

  /** The 16-byte sub-header before each channel block (main.rs lines 104-111):
      an unused word, the seed, the width, the flag and another unused word. */
  const SubHeaderSize := 0x10

  /** A decoded channel block: the sub-header fields the decoder uses and
      the 512 samples. */
  datatype ChannelBlock = ChannelBlock(startSample: i32, bits: u16, flag: u16, samples: seq<i32>)

  /** What the decoder has built so far: one mid/side flag per frame and one
      sample sequence per channel. */
  datatype State = State(flags: seq<u16>, samples: seq<seq<i32>>)

  /** `bits_per_sample as u32 * 512 / 8`: the bytes read for one block. */
  function BufferSize(bits: u16): nat {
    bits * 512 / 8
  }

  /** The state before the first frame: no flags and one empty sequence per channel. */
  function Initial(n: nat): State {
    State([], seq(n, _ => []))
  }

  /** The decoded block at `pos`. The sub-header holds an unused i32, the seed
      sample, the width, the flag and another unused i32; the buffer is
      whatever one read delivers, zero-padded. The scale `2^(bit depth - 1)`
      is computed before the deltas and overflows unless the bit depth is
      between 1 and 31. */
  function ChannelAt(data: seq<u8>, pos: nat, bitDepth: u16): (r: Result<ChannelBlock>)
    ensures r.Err? ==> r.error == ShortRead || r.error == ArithmeticOverflow
    ensures r.Ok? ==> pos + SubHeaderSize <= |data| && 1 <= bitDepth <= 31 &&
                      |r.value.samples| == SamplesPerFrame && r.value.samples[0] == r.value.startSample
  {
    if pos + SubHeaderSize > |data| then Err(ShortRead)
    else
      var start := I32At(data, pos + 4);
      var bits := U16At(data, pos + 8);
      var flag := U16At(data, pos + 10);
      var buf := Filled(data, pos + SubHeaderSize, BufferSize(bits));
      FrameBufferSuffices(buf, bits, start);
      if bitDepth < 1 || bitDepth > 31 then Err(ArithmeticOverflow)
      else
        var samples :- ChannelSamples(buf, bits, start);
        Ok(ChannelBlock(start, bits, flag, samples))
  }

  /** The file position after the block at `pos`: past the sub-header and
      the bytes the read delivered. Nothing realigns the file cursor. */
  function ChannelEnd(data: seq<u8>, pos: nat): (e: nat)
    requires pos + SubHeaderSize <= |data|
    ensures pos + SubHeaderSize <= e <= pos + SubHeaderSize + BufferSize(U16At(data, pos + 8))
    ensures e <= |data|
  {
    pos + SubHeaderSize + Available(data, pos + SubHeaderSize, BufferSize(U16At(data, pos + 8)))
  }

  /** Appends a block to channel `c`; only channel 0 records the flag. */
  function Push(st: State, c: nat, b: ChannelBlock): State
    requires c < |st.samples|
  {
    State(if c == 0 then st.flags + [b.flag] else st.flags,
          st.samples[c := st.samples[c] + b.samples])
  }

  /** A decoded block and the file position after it. */
  datatype Step = Step(block: ChannelBlock, next: nat)

  /** Decodes the block at a file position. The frame loop only depends on
      this, so it is written for any such decoder. */
  type Decoder = nat -> Result<Step>

  /** The decoder main.rs uses: `ChannelAt` followed by `ChannelEnd`. */
  function BlockStep(data: seq<u8>, bitDepth: u16, pos: nat): Result<Step> {
    match ChannelAt(data, pos, bitDepth)
    case Err(e) => Err(e)
    case Ok(b) => Ok(Step(b, ChannelEnd(data, pos)))
  }

  /** `BlockStep` as a decoder. */
  function BlockDecoder(data: seq<u8>, bitDepth: u16): Decoder {
    (p: nat) => BlockStep(data, bitDepth, p)
  }

  /** `decode` is the decoder main.rs uses. The frame loops are proved for
      any such `decode`; they never need to look inside a block. */
  ghost predicate Implements(decode: Decoder, data: seq<u8>, bitDepth: u16) {
    forall p: nat {:trigger BlockStep(data, bitDepth, p)} :: decode(p) == BlockStep(data, bitDepth, p)
  }

  /** Blocks `c..` of one frame, the first of them at `pos`. */
  function ChannelsFrom(decode: Decoder, pos: nat, c: nat, st: State): (r: Result<State>)
    requires c <= |st.samples|
    ensures r.Ok? ==> |r.value.samples| == |st.samples|
    decreases |st.samples| - c
  {
    if c == |st.samples| then Ok(st)
    else
      var step :- decode(pos);
      ChannelsFrom(decode, step.next, c + 1, Push(st, c, step.block))
  }

  /** Frames `i..`, each starting at its absolute offset from the index. */
  function FramesFrom(decode: Decoder, frames: seq<FrameEntry>, i: nat, st: State): (r: Result<State>)
    ensures r.Ok? ==> |r.value.samples| == |st.samples|
    decreases |frames| - i
  {
    if i >= |frames| then Ok(st)
    else
      var st' :- ChannelsFrom(decode, frames[i].start, 0, st);
      FramesFrom(decode, frames, i + 1, st')
  }

  function DecodeFramesSpec(data: seq<u8>, frames: seq<FrameEntry>, numChannels: u16, bitDepth: u16): Result<State> {
    FramesFrom(BlockDecoder(data, bitDepth), frames, 0, Initial(numChannels))
  }

  /** One block: the sub-header reads, the buffer read, the scale check and
      the delta decoding. */
  method ReadChannel(f: Reader, bitDepth: u16) returns (r: Result<ChannelBlock>)
    modifies f
    ensures BlockStep(f.data, bitDepth, old(f.pos)) == if r.Ok? then Ok(Step(r.value, f.pos)) else Err(r.error)
  {
    ghost var pos := f.pos;
    var fields := ReadSubHeader(f);
    if fields.Err? {
      return Err(fields.error);
    }
    var (startSample, bits, flag) := fields.value;
    var buffSize: u32 := bits as int * 512 / 8;
    var buf := new u8[buffSize](_ => 0);
    ghost var zeros := buf[..];
    var m := f.Read(buf);
    ReadIntoZeros(f.data, pos + SubHeaderSize, zeros, m);
    ghost var filled := buf[..];
    BlockStepOf(f.data, pos, bitDepth, startSample, bits, flag, filled, f.pos);
    if bitDepth < 1 || bitDepth > 31 {
      // `2_i32.pow(original_bitdepth - 1)`
      return Err(ArithmeticOverflow);
    }
    var decoded, _ := DecodeChannel(buf, bits, startSample);
    assert decoded == ChannelSamples(filled, bits, startSample);
    if decoded.Err? {
      return Err(decoded.error);
    }
    r := Ok(ChannelBlock(startSample, bits, flag, decoded.value));
  }

  /** The five sub-header reads of main.rs lines 104-111: the seed, the width
      and the flag, between two unused words. */
  method ReadSubHeader(f: Reader) returns (r: Result<(i32, u16, u16)>)
    modifies f
    ensures r.Ok? <==> old(f.pos) + SubHeaderSize <= |f.data|
    ensures r.Err? ==> r.error == ShortRead
    ensures r.Ok? ==> f.pos == old(f.pos) + SubHeaderSize &&
                      r.value == (I32At(f.data, old(f.pos) + 4), U16At(f.data, old(f.pos) + 8), U16At(f.data, old(f.pos) + 10))
  {
    var _ :- f.GetI32();
    var startSample :- f.GetI32();
    var bits :- f.GetU16();
    var flag :- f.GetU16();
    var _ :- f.GetI32();
    r := Ok((startSample, bits, flag));
  }

  /** The channel loop of one frame, from the frame's first block at the
      file position. */
  method DecodeFrame(f: Reader, bitDepth: u16, ghost decode: Decoder, flags: seq<u16>, samples: seq<seq<i32>>)
    returns (r: Result<State>)
    requires Implements(decode, f.data, bitDepth)
    modifies f
    ensures r == ChannelsFrom(decode, old(f.pos), 0, State(flags, samples))
  {
    ghost var start := State(flags, samples);
    ghost var pos0 := f.pos;
    var flags, samples := flags, samples;
    for c := 0 to |samples|
      invariant |samples| == |start.samples|
      invariant ChannelsFrom(decode, f.pos, c, State(flags, samples)) == ChannelsFrom(decode, pos0, 0, start)
    {
      ghost var pos := f.pos;
      ghost var before := State(flags, samples);
      assert decode(pos) == BlockStep(f.data, bitDepth, pos);
      var b := ReadChannel(f, bitDepth);
      ChannelsStep(decode, pos, c, before);
      if b.Err? {
        return Err(b.error);
      }
      if c == 0 {
        flags := flags + [b.value.flag];
      }
      samples := samples[c := samples[c] + b.value.samples];
      assert State(flags, samples) == Push(before, c, b.value);
    }
    r := Ok(State(flags, samples));
  }

  /** The loop over frames, after one empty sample sequence per channel has
      been set up. */
  method DecodeFrames(f: Reader, frames: seq<FrameEntry>, numChannels: u16, bitDepth: u16) returns (r: Result<State>)
    modifies f
    ensures r == DecodeFramesSpec(f.data, frames, numChannels, bitDepth)
  {
    var samples := [];
    for c := 0 to numChannels
      invariant |samples| == c && forall k | 0 <= k < c :: samples[k] == []
    {
      samples := samples + [[]];
    }
    var st := State([], samples);
    assert st == Initial(numChannels);
    ghost var decode := BlockDecoder(f.data, bitDepth);
    assert Implements(decode, f.data, bitDepth);
    for i := 0 to |frames|
      invariant FramesFrom(decode, frames, i, st) == DecodeFramesSpec(f.data, frames, numChannels, bitDepth)
    {
      f.Seek(frames[i].start);
      st :- DecodeFrame(f, bitDepth, decode, st.flags, st.samples);
    }
    r := Ok(st);
  }

  /** One iteration of the channel fold. */
  lemma ChannelsStep(decode: Decoder, pos: nat, c: nat, st: State)
    requires c < |st.samples|
    ensures decode(pos).Err? ==> ChannelsFrom(decode, pos, c, st) == Err(decode(pos).error)
    ensures decode(pos).Ok? ==>
              ChannelsFrom(decode, pos, c, st) ==
              ChannelsFrom(decode, decode(pos).value.next, c + 1, Push(st, c, decode(pos).value.block))
  {
  }

  /** `BlockStep` once the sub-header fields, the buffer and the position
      after the read are known. */
  lemma BlockStepOf(data: seq<u8>, pos: nat, bitDepth: u16, start: i32, bits: u16, flag: u16, buf: seq<u8>, next: nat)
    requires pos + SubHeaderSize <= |data|
    requires start == I32At(data, pos + 4) && bits == U16At(data, pos + 8) && flag == U16At(data, pos + 10)
    requires buf == Filled(data, pos + SubHeaderSize, BufferSize(bits))
    requires next == pos + SubHeaderSize + Available(data, pos + SubHeaderSize, |buf|)
    ensures BlockStep(data, bitDepth, pos) ==
              if bitDepth < 1 || bitDepth > 31 then Err(ArithmeticOverflow)
              else match ChannelSamples(buf, bits, start)
                   case Err(e) => Err(e)
                   case Ok(s) => Ok(Step(ChannelBlock(start, bits, flag, s), next))
  {
  }

  /** A read into a zeroed buffer yields `Filled`. */
  lemma ReadIntoZeros(data: seq<u8>, pos: nat, zeros: seq<u8>, m: nat)
    requires m == Available(data, pos, |zeros|)
    requires forall i | 0 <= i < |zeros| :: zeros[i] == 0
    ensures Delivered(data, pos, m) + zeros[m..] == Filled(data, pos, |zeros|)
  {
    var b := Delivered(data, pos, m) + zeros[m..];
    assert forall i | 0 <= i < |zeros| :: b[i] == Filled(data, pos, |zeros|)[i] by {
      forall i | 0 <= i < |zeros| ensures b[i] == Filled(data, pos, |zeros|)[i] {
        if i < m {
          assert b[i] == Delivered(data, pos, m)[i] == data[pos + i];
        }
      }
    }
  }
}
