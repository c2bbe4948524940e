/** What the frame loop of main.rs (lines 93-156) guarantees about the decoded
    channels: every block is a full frame of 512 samples, the reader never runs
    dry, channel `c` holds block `c` of every frame in frame order, and the
    flags hold the flag of each frame's first block. */
module FrameProperties {
  import opened Base
  import opened LittleEndian
  import opened FileCursor
  import opened DeltaDecoder
  import opened FrameIndex
  import opened FrameDecoder

  /** A decoded block is the seed sample of its sub-header followed by 511
      running sums of the deltas in the zero-padded buffer; it needs a bit
      depth whose scale fits an i32 and a width below 32. */
  lemma ChannelAtShape(data: seq<u8>, pos: nat, bitDepth: u16)
    ensures ChannelAt(data, pos, bitDepth).Ok? ==>
              var b := ChannelAt(data, pos, bitDepth).value;
              var buf := Filled(data, pos + SubHeaderSize, BufferSize(b.bits));
              1 <= bitDepth <= 31 &&
              b.startSample == I32At(data, pos + 4) && b.bits == U16At(data, pos + 8) &&
              b.flag == U16At(data, pos + 10) && b.bits < 32 &&
              |b.samples| == SamplesPerFrame && b.samples[0] == b.startSample &&
              forall k | 0 <= k < SamplesPerFrame - 1 :: b.samples[k + 1] == b.samples[k] + Delta(buf, k, b.bits)
  {
    if pos + SubHeaderSize <= |data| {
      var bits := U16At(data, pos + 8);
      ChannelShape(Filled(data, pos + SubHeaderSize, BufferSize(bits)), bits, I32At(data, pos + 4));
    }
  }

  /** When the whole block lies inside the file, the read delivers it in full:
      the deltas are the file bytes after the sub-header and the cursor ends
      just past them. */
  lemma WholeChannel(data: seq<u8>, pos: nat, bitDepth: u16)
    requires pos + SubHeaderSize <= |data|
    requires pos + SubHeaderSize + BufferSize(U16At(data, pos + 8)) <= |data|
    ensures var n := BufferSize(U16At(data, pos + 8));
            ChannelEnd(data, pos) == pos + SubHeaderSize + n &&
            Filled(data, pos + SubHeaderSize, n) == data[pos + SubHeaderSize..pos + SubHeaderSize + n]
  {
    var n := BufferSize(U16At(data, pos + 8));
    var buf := Filled(data, pos + SubHeaderSize, n);
    var slice := data[pos + SubHeaderSize..pos + SubHeaderSize + n];
    assert forall i | 0 <= i < n :: buf[i] == slice[i];
  }

  /** The two facts the frame loops need about a decoder: it never reports
      an exhausted bit reader, and every block it decodes is a full frame. */
  ghost predicate WellBehaved(decode: Decoder) {
    forall p: nat :: decode(p) != Err(BitBufferExhausted) &&
      (decode(p).Ok? ==> |decode(p).value.block.samples| == SamplesPerFrame)
  }

  lemma BlockDecoderWellBehaved(data: seq<u8>, bitDepth: u16)
    ensures WellBehaved(BlockDecoder(data, bitDepth))
  {
    forall p: nat
      ensures BlockStep(data, bitDepth, p) != Err(BitBufferExhausted)
      ensures BlockStep(data, bitDepth, p).Ok? ==> |BlockStep(data, bitDepth, p).value.block.samples| == SamplesPerFrame
    {
    }
  }

  /** Where block `c` of a frame whose first block is at `pos` starts: each
      block of the frame starts where the one before it ended. */
  function BlockPos(decode: Decoder, pos: nat, c: nat): nat
    decreases c
  {
    if c == 0 then pos
    else match decode(pos)
         case Ok(step) => BlockPos(decode, step.next, c - 1)
         case Err(_) => pos
  }

  /** The samples of block `c` of the frame at `pos` (none if it fails). */
  function FrameBlock(decode: Decoder, pos: nat, c: nat): seq<i32> {
    match decode(BlockPos(decode, pos, c))
    case Ok(step) => step.block.samples
    case Err(_) => []
  }

  /** `st'` is `st` with the channels before `c` untouched and every channel
      `k` from `c` on extended by the block decoded at its position, block
      `k - c` of the frame whose block `c` is at `pos`. */
  ghost predicate Extended(decode: Decoder, pos: nat, st: State, st': State, c: nat) {
    |st'.samples| == |st.samples| &&
    forall k | 0 <= k < |st.samples| ::
      if k < c then st'.samples[k] == st.samples[k]
      else decode(BlockPos(decode, pos, k - c)).Ok? && st'.samples[k] == st.samples[k] + FrameBlock(decode, pos, k - c)
  }

  /** One frame's channel loop, from channel `c` on: each remaining channel
      gains the block decoded at its position, the earlier ones are left
      alone, and the flag of the block at `pos` is added exactly when the loop
      starts at channel 0. */
  lemma {:induction false} ChannelsFromBlocks(decode: Decoder, pos: nat, c: nat, st: State)
    requires c <= |st.samples|
    ensures ChannelsFrom(decode, pos, c, st).Ok? ==>
              var st' := ChannelsFrom(decode, pos, c, st).value;
              Extended(decode, pos, st, st', c) &&
              (c < |st.samples| ==> decode(pos).Ok?) &&
              st'.flags == if c == 0 && c < |st.samples| then st.flags + [decode(pos).value.block.flag] else st.flags
    decreases |st.samples| - c
  {
    if c < |st.samples| && decode(pos).Ok? && ChannelsFrom(decode, pos, c, st).Ok? {
      var step := decode(pos).value;
      var st1 := Push(st, c, step.block);
      ChannelsFromBlocks(decode, step.next, c + 1, st1);
      var st' := ChannelsFrom(decode, pos, c, st).value;
      assert st' == ChannelsFrom(decode, step.next, c + 1, st1).value;
      forall k | 0 <= k < |st.samples|
        ensures if k < c then st'.samples[k] == st.samples[k]
                else decode(BlockPos(decode, pos, k - c)).Ok? && st'.samples[k] == st.samples[k] + FrameBlock(decode, pos, k - c)
      {
        if k == c {
          assert BlockPos(decode, pos, 0) == pos;
        } else if k > c {
          assert BlockPos(decode, pos, k - c) == BlockPos(decode, step.next, k - (c + 1));
          assert st1.samples[k] == st.samples[k];
        }
      }
      assert Extended(decode, pos, st, st', c);
    }
  }

  /** With a well-behaved decoder the channel loop never fails on an
      exhausted reader, and each remaining channel gains exactly 512 samples:
      the block decoded at its position. */
  lemma {:induction false} ChannelsFromShape(decode: Decoder, pos: nat, c: nat, st: State)
    requires WellBehaved(decode) && c <= |st.samples|
    ensures ChannelsFrom(decode, pos, c, st) != Err(BitBufferExhausted)
    ensures ChannelsFrom(decode, pos, c, st).Ok? ==>
              var st' := ChannelsFrom(decode, pos, c, st).value;
              Extended(decode, pos, st, st', c) &&
              forall k | c <= k < |st.samples| :: |st'.samples[k]| == |st.samples[k]| + SamplesPerFrame
    decreases |st.samples| - c
  {
    ChannelsFromBlocks(decode, pos, c, st);
    if c < |st.samples| && decode(pos).Ok? {
      var step := decode(pos).value;
      ChannelsFromShape(decode, step.next, c + 1, Push(st, c, step.block));
    }
    if ChannelsFrom(decode, pos, c, st).Ok? {
      var st' := ChannelsFrom(decode, pos, c, st).value;
      assert Extended(decode, pos, st, st', c);
      forall k | c <= k < |st.samples| ensures |st'.samples[k]| == |st.samples[k]| + SamplesPerFrame {
        assert st'.samples[k] == st.samples[k] + FrameBlock(decode, pos, k - c);
      }
    }
  }

  /** Flags of the blocks at the frame offsets `i..`: what the first channel's
      sub-header of each frame records. */
  function FlagsOf(decode: Decoder, frames: seq<FrameEntry>, i: nat): (r: seq<u16>)
    ensures |r| == if i < |frames| then |frames| - i else 0
    decreases |frames| - i
  {
    if i >= |frames| then []
    else [match decode(frames[i].start) case Ok(step) => step.block.flag case Err(_) => 0] + FlagsOf(decode, frames, i + 1)
  }

  /** Block `c` of every frame from `i` on, concatenated: what channel `c`
      gains from those frames. */
  function ChannelBlocks(decode: Decoder, frames: seq<FrameEntry>, i: nat, c: nat): seq<i32>
    decreases |frames| - i
  {
    if i >= |frames| then []
    else FrameBlock(decode, frames[i].start, c) + ChannelBlocks(decode, frames, i + 1, c)
  }

  /** Frames `i..`: the frame loop never fails on an exhausted reader, and
      every channel grows by 512 samples per frame. */
  lemma {:induction false} FramesFromLengths(decode: Decoder, frames: seq<FrameEntry>, i: nat, st: State)
    requires WellBehaved(decode) && i <= |frames|
    ensures FramesFrom(decode, frames, i, st) != Err(BitBufferExhausted)
    ensures FramesFrom(decode, frames, i, st).Ok? ==>
              var st' := FramesFrom(decode, frames, i, st).value;
              |st'.samples| == |st.samples| &&
              (|st.samples| == 0 ==> st' == st) &&
              forall k | 0 <= k < |st.samples| ::
                |st'.samples[k]| == |st.samples[k]| + SamplesPerFrame * (|frames| - i)
    decreases |frames| - i
  {
    if i < |frames| {
      ChannelsFromShape(decode, frames[i].start, 0, st);
      if ChannelsFrom(decode, frames[i].start, 0, st).Ok? {
        var st1 := ChannelsFrom(decode, frames[i].start, 0, st).value;
        FramesFromLengths(decode, frames, i + 1, st1);
        if FramesFrom(decode, frames, i, st).Ok? {
          var st' := FramesFrom(decode, frames, i, st).value;
          assert st' == FramesFrom(decode, frames, i + 1, st1).value;
          forall k | 0 <= k < |st.samples|
            ensures |st'.samples[k]| == |st.samples[k]| + SamplesPerFrame * (|frames| - i)
          {
            assert |st1.samples[k]| == |st.samples[k]| + SamplesPerFrame;
          }
        }
      }
    }
  }

  /** Frames `i..`: channel `c` gains block `c` of each frame, in frame order. */
  lemma {:induction false} FramesFromBlocks(decode: Decoder, frames: seq<FrameEntry>, i: nat, st: State)
    requires i <= |frames|
    ensures FramesFrom(decode, frames, i, st).Ok? ==>
              var st' := FramesFrom(decode, frames, i, st).value;
              |st'.samples| == |st.samples| &&
              forall c | 0 <= c < |st.samples| :: st'.samples[c] == st.samples[c] + ChannelBlocks(decode, frames, i, c)
    decreases |frames| - i
  {
    if i < |frames| && FramesFrom(decode, frames, i, st).Ok? {
      var pos := frames[i].start;
      ChannelsFromBlocks(decode, pos, 0, st);
      var st1 := ChannelsFrom(decode, pos, 0, st).value;
      FramesFromBlocks(decode, frames, i + 1, st1);
      var st' := FramesFrom(decode, frames, i, st).value;
      assert st' == FramesFrom(decode, frames, i + 1, st1).value;
      forall c | 0 <= c < |st.samples|
        ensures st'.samples[c] == st.samples[c] + ChannelBlocks(decode, frames, i, c)
      {
        assert st1.samples[c] == st.samples[c] + FrameBlock(decode, pos, c);
        AppendTwice(st.samples[c], st1.samples[c], st'.samples[c], FrameBlock(decode, pos, c), ChannelBlocks(decode, frames, i + 1, c));
      }
    }
  }

  /** Frames `i..`: the flags gain the flag of each frame's first block, and
      stay as they are when there is no channel. */
  lemma {:induction false} FramesFromFlags(decode: Decoder, frames: seq<FrameEntry>, i: nat, st: State)
    requires i <= |frames|
    ensures FramesFrom(decode, frames, i, st).Ok? ==>
              FramesFrom(decode, frames, i, st).value.flags ==
                if |st.samples| == 0 then st.flags else st.flags + FlagsOf(decode, frames, i)
    decreases |frames| - i
  {
    if i < |frames| && FramesFrom(decode, frames, i, st).Ok? {
      var pos := frames[i].start;
      ChannelsFromBlocks(decode, pos, 0, st);
      var st1 := ChannelsFrom(decode, pos, 0, st).value;
      FramesFromFlags(decode, frames, i + 1, st1);
      var st' := FramesFrom(decode, frames, i, st).value;
      assert st' == FramesFrom(decode, frames, i + 1, st1).value;
      if |st.samples| > 0 {
        AppendTwice(st.flags, st1.flags, st'.flags, [decode(pos).value.block.flag], FlagsOf(decode, frames, i + 1));
      }
    }
  }

  /** Frames `i..`: when the loop succeeds, every block of every frame decoded. */
  lemma {:induction false} FramesFromDecoded(decode: Decoder, frames: seq<FrameEntry>, i: nat, st: State)
    requires i <= |frames|
    ensures FramesFrom(decode, frames, i, st).Ok? ==>
              forall j, c | i <= j < |frames| && 0 <= c < |st.samples| :: decode(BlockPos(decode, frames[j].start, c)).Ok?
    decreases |frames| - i
  {
    if i < |frames| && FramesFrom(decode, frames, i, st).Ok? {
      var pos := frames[i].start;
      ChannelsFromBlocks(decode, pos, 0, st);
      var st1 := ChannelsFrom(decode, pos, 0, st).value;
      FramesFromDecoded(decode, frames, i + 1, st1);
      forall j, c | i <= j < |frames| && 0 <= c < |st.samples|
        ensures decode(BlockPos(decode, frames[j].start, c)).Ok?
      {
        if j == i {
          assert Extended(decode, pos, st, st1, 0);
          assert st1.samples[c] == st.samples[c] + FrameBlock(decode, pos, c);
        }
      }
    }
  }

  /** Appending `head` and then `rest` appends `head + rest`. */
  lemma AppendTwice<T>(s0: seq<T>, s1: seq<T>, s2: seq<T>, head: seq<T>, rest: seq<T>)
    requires s1 == s0 + head && s2 == s1 + rest
    ensures s2 == s0 + (head + rest)
  {
    assert s0 + head + rest == s0 + (head + rest);
  }

  /** With every block of channel `c` a full frame, the channel holds
      `512 * frames` samples and frame `j`'s block sits at `[512 * j, 512 * j + 512)`. */
  lemma {:induction false} ChannelBlocksAt(decode: Decoder, frames: seq<FrameEntry>, i: nat, c: nat, j: nat)
    requires i <= j < |frames|
    requires forall k | i <= k < |frames| :: |FrameBlock(decode, frames[k].start, c)| == SamplesPerFrame
    ensures |ChannelBlocks(decode, frames, i, c)| == SamplesPerFrame * (|frames| - i)
    ensures SamplesPerFrame * (j - i) + SamplesPerFrame <= |ChannelBlocks(decode, frames, i, c)| &&
            ChannelBlocks(decode, frames, i, c)[SamplesPerFrame * (j - i)..SamplesPerFrame * (j - i) + SamplesPerFrame]
              == FrameBlock(decode, frames[j].start, c)
    decreases |frames| - i
  {
    var head := FrameBlock(decode, frames[i].start, c);
    var all := ChannelBlocks(decode, frames, i, c);
    var rest := ChannelBlocks(decode, frames, i + 1, c);
    assert all == head + rest;
    if i + 1 < |frames| {
      ChannelBlocksAt(decode, frames, i + 1, c, if j == i then i + 1 else j);
    }
    assert |rest| == SamplesPerFrame * (|frames| - i - 1);
    if j > i {
      var o := SamplesPerFrame * (j - i - 1);
      assert SamplesPerFrame * (j - i) == SamplesPerFrame + o;
      assert all[SamplesPerFrame + o..SamplesPerFrame + o + SamplesPerFrame] == rest[o..o + SamplesPerFrame];
    }
  }

  /** The whole frame loop: one sample sequence per channel, 512 samples per
      frame; channel `c` holds block `c` of every frame in frame order; the
      flags hold one entry per frame (none when there is no channel); the bit
      reader's exhaustion panic never fires. */
  lemma DecodeFramesShape(data: seq<u8>, frames: seq<FrameEntry>, numChannels: u16, bitDepth: u16)
    ensures DecodeFramesSpec(data, frames, numChannels, bitDepth) != Err(BitBufferExhausted)
    ensures DecodeFramesSpec(data, frames, numChannels, bitDepth).Ok? ==>
              var st := DecodeFramesSpec(data, frames, numChannels, bitDepth).value;
              var decode := BlockDecoder(data, bitDepth);
              |st.samples| == numChannels &&
              (forall c | 0 <= c < numChannels ::
                 |st.samples[c]| == SamplesPerFrame * |frames| && st.samples[c] == ChannelBlocks(decode, frames, 0, c)) &&
              st.flags == if numChannels == 0 then [] else FlagsOf(decode, frames, 0)
  {
    var decode := BlockDecoder(data, bitDepth);
    BlockDecoderWellBehaved(data, bitDepth);
    FramesFromLengths(decode, frames, 0, Initial(numChannels));
    FramesFromBlocks(decode, frames, 0, Initial(numChannels));
    FramesFromFlags(decode, frames, 0, Initial(numChannels));
    if DecodeFramesSpec(data, frames, numChannels, bitDepth).Ok? {
      var st := DecodeFramesSpec(data, frames, numChannels, bitDepth).value;
      forall c | 0 <= c < numChannels ensures st.samples[c] == ChannelBlocks(decode, frames, 0, c) {
        assert Initial(numChannels).samples[c] == [];
      }
    }
  }

  /** Frame `i` of channel `c`: its block is the one decoded at block position
      `c` of the frame, and its 512 samples are that sub-header's seed
      followed by the running sums of the deltas packed after it. */
  lemma DecodedBlock(data: seq<u8>, frames: seq<FrameEntry>, numChannels: u16, bitDepth: u16, i: nat, c: nat)
    requires DecodeFramesSpec(data, frames, numChannels, bitDepth).Ok? && i < |frames| && c < numChannels
    ensures var st := DecodeFramesSpec(data, frames, numChannels, bitDepth).value;
            var p := BlockPos(BlockDecoder(data, bitDepth), frames[i].start, c);
            |st.samples| == numChannels && ChannelAt(data, p, bitDepth).Ok? &&
            SamplesPerFrame * i + SamplesPerFrame <= |st.samples[c]| &&
            st.samples[c][SamplesPerFrame * i..SamplesPerFrame * i + SamplesPerFrame] == ChannelAt(data, p, bitDepth).value.samples
  {
    var decode := BlockDecoder(data, bitDepth);
    var st := DecodeFramesSpec(data, frames, numChannels, bitDepth).value;
    DecodeFramesShape(data, frames, numChannels, bitDepth);
    FramesFromDecoded(decode, frames, 0, Initial(numChannels));
    BlockDecoderWellBehaved(data, bitDepth);
    forall k | 0 <= k < |frames| ensures |FrameBlock(decode, frames[k].start, c)| == SamplesPerFrame {
      assert decode(BlockPos(decode, frames[k].start, c)).Ok?;
    }
    ChannelBlocksAt(decode, frames, 0, c, i);
    var p := BlockPos(decode, frames[i].start, c);
    assert decode(p) == BlockStep(data, bitDepth, p);
  }


  /** Frame `i` of channel `c`, in terms of the file: the seed sample of the
      sub-header of block `c` of the frame, then each sample the previous one
      plus the next delta of the zero-padded buffer after that sub-header. */
  lemma DecodedSamples(data: seq<u8>, frames: seq<FrameEntry>, numChannels: u16, bitDepth: u16, i: nat, c: nat, st: State, p: nat)
    requires DecodeFramesSpec(data, frames, numChannels, bitDepth) == Ok(st) && i < |frames| && c < numChannels
    requires p == BlockPos(BlockDecoder(data, bitDepth), frames[i].start, c)
    ensures p + SubHeaderSize <= |data| && |st.samples| == numChannels && SamplesPerFrame * i + SamplesPerFrame <= |st.samples[c]|
    ensures var block := st.samples[c][SamplesPerFrame * i..SamplesPerFrame * i + SamplesPerFrame];
            var bits := U16At(data, p + 8);
            var buf := Filled(data, p + SubHeaderSize, BufferSize(bits));
            block[0] == I32At(data, p + 4) &&
            forall k | 0 <= k < SamplesPerFrame - 1 :: block[k + 1] == block[k] + Delta(buf, k, bits)
  {
    DecodedBlock(data, frames, numChannels, bitDepth, i, c);
    BlockContents(data, p, bitDepth, st.samples[c][SamplesPerFrame * i..SamplesPerFrame * i + SamplesPerFrame]);
  }

  /** The samples of a decoded block, in terms of the file. */
  lemma BlockContents(data: seq<u8>, p: nat, bitDepth: u16, block: seq<i32>)
    requires ChannelAt(data, p, bitDepth).Ok? && block == ChannelAt(data, p, bitDepth).value.samples
    ensures p + SubHeaderSize <= |data| && |block| == SamplesPerFrame
    ensures var bits := U16At(data, p + 8);
            var buf := Filled(data, p + SubHeaderSize, BufferSize(bits));
            block[0] == I32At(data, p + 4) &&
            forall k | 0 <= k < SamplesPerFrame - 1 :: block[k + 1] == block[k] + Delta(buf, k, bits)
  {
    ChannelAtShape(data, p, bitDepth);
  }
}
