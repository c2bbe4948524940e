/** One channel of one frame (main.rs lines 133-150): a seed sample followed by
    511 sign-extended deltas of `bits` bits each, summed into a running i32. */
module DeltaDecoder {
  import opened Base
  import opened Bits
  import opened BitStream

  const SamplesPerFrame := 512

  /** Whether delta `k` of width `w` lies inside a buffer of `n` bytes. */
  predicate DeltaFits(n: nat, k: nat, w: nat) {
    (k + 1) * w <= 8 * n
  }

  /** Delta `k` of a channel: the `w`-bit field at bit `k * w`, sign-extended
      (0 for a delta outside the buffer, which no decoded channel uses). */
  function Delta(buf: seq<u8>, k: nat, w: nat): int {
    if DeltaFits(|buf|, k, w) then SignExtend(RawField(buf, k * w, w), w) else 0
  }

  /** Extends `samples` to a full frame, one delta at a time, failing when a
      delta runs past the buffer or a running sum leaves the i32 range. */
  function Accumulate(buf: seq<u8>, w: nat, samples: seq<i32>): (r: Result<seq<i32>>)
    requires w < 32 && 1 <= |samples| <= SamplesPerFrame
    ensures r.Ok? ==> |r.value| == SamplesPerFrame && r.value[..|samples|] == samples
    ensures r.Err? ==> r.error == BitBufferExhausted || r.error == ArithmeticOverflow
    decreases SamplesPerFrame - |samples|
  {
    if |samples| == SamplesPerFrame then Ok(samples)
    else
      var k := |samples| - 1;
      if !DeltaFits(|buf|, k, w) then Err(BitBufferExhausted)
      else
        var s := samples[k] + Delta(buf, k, w);
        if !IsI32(s) then Err(ArithmeticOverflow)
        else Accumulate(buf, w, samples + [s])
  }

  /** The decoded channel. A width of 32 or more overflows on the first delta
      (`bit << 32` or `1 << 32`), unless the reader runs dry first: it reads
      `min(w, 33)` bits before the shift fails. */
  function ChannelSamples(buf: seq<u8>, w: nat, start: i32): (r: Result<seq<i32>>)
    ensures r.Ok? ==> w < 32 && |r.value| == SamplesPerFrame && r.value[0] == start
    ensures r.Err? ==> r.error == BitBufferExhausted || r.error == ArithmeticOverflow
  {
    if w >= 32 then
      if 8 * |buf| < (if w < 33 then w else 33) then Err(BitBufferExhausted)
      else Err(ArithmeticOverflow)
    else Accumulate(buf, w, [start])
  }

  /** Reference definition: sample `k` is the seed plus the first `k` deltas. */
  function PartialSum(buf: seq<u8>, w: nat, start: int, k: nat): int {
    if k == 0 then start else PartialSum(buf, w, start, k - 1) + Delta(buf, k - 1, w)
  }

  /** The bit loop of main.rs lines 137-145: `w` bits gathered least
      significant first into `delta`, the last of them kept as `first_bit`.
      The shift `bit << j` overflows once `j` reaches 32. */
  method GatherBits(br: BitReader, w: u16) returns (r: Result<(nat, nat)>)
    requires br.Valid()
    modifies br
    ensures br.Valid()
    ensures r.Ok? <==> w <= 32 && old(br.Position()) + w <= 8 * br.buf.Length
    ensures r.Err? ==> r.error == (if old(br.Position()) + (if w < 33 then w else 33) > 8 * br.buf.Length
                                   then BitBufferExhausted else ArithmeticOverflow)
    ensures r.Ok? ==> br.Position() == old(br.Position()) + w &&
                      r.value.0 == RawField(br.buf[..], old(br.Position()), w) &&
                      r.value.1 == if 0 < w then BitAt(br.buf[..], old(br.Position()) + w - 1) else 0
  {
    ghost var p := br.Position();
    ghost var data := br.buf[..];
    var delta := 0;
    var firstBit := 0;
    var j := 0;
    while j < w
      invariant 0 <= j <= w && j <= 32
      invariant br.Valid() && br.Position() == p + j <= 8 * |data|
      invariant delta == RawField(data, p, j)
      invariant firstBit == if 0 < j == w then BitAt(data, p + j - 1) else 0
    {
      var bit := br.GetBit();
      if bit.Err? {
        return Err(bit.error);
      }
      if j >= 32 {
        // `bit << j`
        return Err(ArithmeticOverflow);
      }
      assert bit.value == BitAt(data, p + j);
      GatherStep(data, p, j);
      delta := Or(delta, Shl(bit.value, j));
      if j + 1 == w {
        firstBit := bit.value;
      }
      j := j + 1;
    }
    r := Ok((delta, firstBit));
  }

  /** One delta of main.rs lines 137-146: the gathered bits, sign-extended from
      the last of them; `1 << bits` overflows for a width of 32. */
  method ReadDelta(br: BitReader, w: u16) returns (r: Result<int>)
    requires br.Valid()
    modifies br
    ensures br.Valid()
    ensures r.Ok? <==> w < 32 && old(br.Position()) + w <= 8 * br.buf.Length
    ensures r.Err? ==> r.error == (if old(br.Position()) + (if w < 33 then w else 33) > 8 * br.buf.Length
                                   then BitBufferExhausted else ArithmeticOverflow)
    ensures r.Ok? ==> br.Position() == old(br.Position()) + w &&
                      r.value == SignExtend(RawField(br.buf[..], old(br.Position()), w), w)
  {
    ghost var p := br.Position();
    var field :- GatherBits(br, w);
    var (delta, firstBit) := field;
    if w >= 32 {
      // `1 << bits`
      return Err(ArithmeticOverflow);
    }
    ExtendField(br.buf[..], p, w, delta, firstBit);
    r := Ok(ExtendAsWritten(delta, w, firstBit));
  }

  /** `delta |= bit << j` appends bit `j` to the field. */
  lemma GatherStep(buf: seq<u8>, p: nat, j: nat)
    requires p + j < 8 * |buf|
    ensures Or(RawField(buf, p, j), Shl(BitAt(buf, p + j), j)) == RawField(buf, p, j + 1)
  {
    RawFieldBound(buf, p, j);
    BitAtIsBit(buf, p + j);
    AppendBit(RawField(buf, p, j), BitAt(buf, p + j), j);
  }

  /** What line 146 makes of a gathered field and its last bit. */
  lemma ExtendField(buf: seq<u8>, p: nat, w: nat, delta: nat, firstBit: nat)
    requires w < 32 && p + w <= 8 * |buf|
    requires delta == RawField(buf, p, w)
    requires firstBit == if 0 < w then BitAt(buf, p + w - 1) else 0
    ensures delta < 0x1_0000_0000 && firstBit <= 1
    ensures ExtendAsWritten(delta, w, firstBit) == SignExtend(delta, w)
  {
    RawFieldBound(buf, p, w);
    Pow2Monotone(w, 31);
    Pow2Constants();
    if w > 0 {
      RawFieldTopBit(buf, p, w);
      BitAtIsBit(buf, p + w - 1);
    }
    SignExtendAsWritten(delta, w, firstBit);
  }

  /** The decoding loop of main.rs over a fresh bit reader. Besides the
      samples it returns the reader's final bit position. */
  method DecodeChannel(buf: array<u8>, bits: u16, startSample: i32) returns (r: Result<seq<i32>>, bitsRead: nat)
    ensures r == ChannelSamples(buf[..], bits, startSample)
    ensures r.Ok? ==> bitsRead == 511 * bits && bitsRead <= 8 * buf.Length
  {
    var br := new BitReader(buf);
    ghost var data := buf[..];
    var sample: i32 := startSample;
    var samples: seq<i32> := [sample];
    var i := 0;
    while i < SamplesPerFrame - 1
      invariant 0 <= i <= SamplesPerFrame - 1 && |samples| == i + 1 && samples[i] == sample
      invariant br.buf == buf && buf[..] == data && br.Valid() && br.Position() == i * bits <= 8 * buf.Length
      invariant bits >= 32 ==> i == 0
      invariant bits < 32 ==> Accumulate(data, bits, samples) == ChannelSamples(data, bits, startSample)
    {
      assert (i + 1) * bits == i * bits + bits;
      var d := ReadDelta(br, bits);
      if d.Err? {
        return Err(d.error), br.Position();
      }
      if !IsI32(sample + d.value) {
        // `sample + delta as i32`
        return Err(ArithmeticOverflow), br.Position();
      }
      sample := sample + d.value;
      samples := samples + [sample];
      i := i + 1;
    }
    return Ok(samples), br.Position();
  }

  /** Every decoded channel is a full frame: the seed first, then each
      sample the previous one plus the next delta; it only ever succeeds with
      a width below 32 and a buffer that holds all 511 deltas. */
  lemma ChannelShape(buf: seq<u8>, w: nat, start: i32)
    ensures ChannelSamples(buf, w, start).Ok? ==>
              var s := ChannelSamples(buf, w, start).value;
              w < 32 && 511 * w <= 8 * |buf| && |s| == SamplesPerFrame && s[0] == start &&
              forall k | 0 <= k < SamplesPerFrame - 1 :: s[k + 1] == s[k] + Delta(buf, k, w)
  {
    if w < 32 {
      AccumulateShape(buf, w, [start]);
    }
  }

  lemma {:induction false} AccumulateShape(buf: seq<u8>, w: nat, samples: seq<i32>)
    requires w < 32 && 1 <= |samples| <= SamplesPerFrame
    requires |samples| > 1 ==> DeltaFits(|buf|, |samples| - 2, w)
    requires forall k | 0 <= k < |samples| - 1 :: samples[k + 1] == samples[k] + Delta(buf, k, w)
    ensures Accumulate(buf, w, samples).Ok? ==>
              var s := Accumulate(buf, w, samples).value;
              511 * w <= 8 * |buf| && |s| == SamplesPerFrame && s[..|samples|] == samples &&
              forall k | 0 <= k < SamplesPerFrame - 1 :: s[k + 1] == s[k] + Delta(buf, k, w)
    decreases SamplesPerFrame - |samples|
  {
    if |samples| < SamplesPerFrame {
      var k := |samples| - 1;
      if DeltaFits(|buf|, k, w) {
        var next := samples + [samples[k] + Delta(buf, k, w)];
        if IsI32(next[k + 1]) {
          AccumulateShape(buf, w, next);
        }
      }
    }
  }

  /** With room for all 511 deltas the reader never runs dry: the channel is
      decoded exactly when every running sum stays in the i32 range, and then
      sample `k` is the seed plus the first `k` deltas. */
  lemma ChannelClosedForm(buf: seq<u8>, w: nat, start: i32)
    requires w < 32 && 511 * w <= 8 * |buf|
    ensures ChannelSamples(buf, w, start) != Err(BitBufferExhausted)
    ensures ChannelSamples(buf, w, start).Ok? <==>
              forall k | 0 <= k < SamplesPerFrame :: IsI32(PartialSum(buf, w, start, k))
    ensures ChannelSamples(buf, w, start).Ok? ==>
              var s := ChannelSamples(buf, w, start).value;
              |s| == SamplesPerFrame && forall k | 0 <= k < SamplesPerFrame :: s[k] == PartialSum(buf, w, start, k)
  {
    AccumulateClosedForm(buf, w, start, [start]);
  }

  lemma {:induction false} AccumulateClosedForm(buf: seq<u8>, w: nat, start: i32, samples: seq<i32>)
    requires w < 32 && 511 * w <= 8 * |buf| && 1 <= |samples| <= SamplesPerFrame
    requires forall k | 0 <= k < |samples| :: samples[k] == PartialSum(buf, w, start, k)
    ensures Accumulate(buf, w, samples) != Err(BitBufferExhausted)
    ensures Accumulate(buf, w, samples).Ok? <==>
              forall k | |samples| <= k < SamplesPerFrame :: IsI32(PartialSum(buf, w, start, k))
    ensures Accumulate(buf, w, samples).Ok? ==>
              var s := Accumulate(buf, w, samples).value;
              |s| == SamplesPerFrame && forall k | 0 <= k < SamplesPerFrame :: s[k] == PartialSum(buf, w, start, k)
    decreases SamplesPerFrame - |samples|
  {
    if |samples| < SamplesPerFrame {
      var k := |samples| - 1;
      MulLe(k + 1, 511, w);
      assert DeltaFits(|buf|, k, w);
      var sum := samples[k] + Delta(buf, k, w);
      assert sum == PartialSum(buf, w, start, |samples|);
      if IsI32(sum) {
        var next := samples + [sum];
        forall j | 0 <= j < |next| ensures next[j] == PartialSum(buf, w, start, j) {
          if j < |samples| {
            assert next[j] == samples[j];
          }
        }
        AccumulateClosedForm(buf, w, start, next);
        assert Accumulate(buf, w, samples) == Accumulate(buf, w, next);
        SumsFitStep(buf, w, start, |samples|);
      } else {
        assert Accumulate(buf, w, samples) == Err(ArithmeticOverflow);
        assert !IsI32(PartialSum(buf, w, start, |samples|));
      }
    }
  }

  /** Every running sum from `n` on fits exactly when sum `n` fits and every one after it does. */
  lemma SumsFitStep(buf: seq<u8>, w: nat, start: int, n: nat)
    requires n < SamplesPerFrame && IsI32(PartialSum(buf, w, start, n))
    ensures (forall j | n <= j < SamplesPerFrame :: IsI32(PartialSum(buf, w, start, j))) <==>
            (forall j | n + 1 <= j < SamplesPerFrame :: IsI32(PartialSum(buf, w, start, j)))
  {
  }

  lemma MulLe(a: nat, b: nat, c: nat)
    requires a <= b
    ensures a * c <= b * c
  {
  }

  /** A buffer of `bits * 512 / 8` bytes, the size main.rs reads, always
      holds the bits the decoder asks for. */
  lemma FrameBufferSuffices(buf: seq<u8>, w: nat, start: i32)
    requires |buf| == w * 512 / 8
    ensures ChannelSamples(buf, w, start) != Err(BitBufferExhausted)
  {
    if w < 32 {
      ChannelClosedForm(buf, w, start);
    }
  }

  /** A buffer of zero bits encodes 511 zero deltas: every sample is the seed. */
  lemma SilentChannel(buf: seq<u8>, w: nat, start: i32)
    requires w < 32 && 511 * w <= 8 * |buf|
    requires forall i | 0 <= i < |buf| :: buf[i] == 0
    ensures ChannelSamples(buf, w, start) == Ok(seq(SamplesPerFrame, _ => start))
  {
    forall k | 0 <= k < SamplesPerFrame
      ensures PartialSum(buf, w, start, k) == start
    {
      SilentPrefix(buf, w, start, k);
    }
    ChannelClosedForm(buf, w, start);
    var s := ChannelSamples(buf, w, start).value;
    assert s == seq(SamplesPerFrame, _ => start);
  }

  lemma {:induction false} SilentPrefix(buf: seq<u8>, w: nat, start: int, k: nat)
    requires forall i | 0 <= i < |buf| :: buf[i] == 0
    ensures PartialSum(buf, w, start, k) == start
  {
    if k > 0 {
      SilentPrefix(buf, w, start, k - 1);
      ZeroDelta(buf, k - 1, w);
    }
  }

  lemma ZeroDelta(buf: seq<u8>, k: nat, w: nat)
    requires forall i | 0 <= i < |buf| :: buf[i] == 0
    ensures Delta(buf, k, w) == 0
  {
    if DeltaFits(|buf|, k, w) {
      var p := k * w;
      assert p + w <= 8 * |buf|;
      ZeroField(buf, p, w);
    }
  }

  lemma {:induction false} BitOfZero(k: nat)
    ensures BitOf(0, k) == 0
  {
    if k > 0 {
      BitOfZero(k - 1);
    }
  }

  lemma {:induction false} ZeroField(buf: seq<u8>, p: nat, w: nat)
    requires p + w <= 8 * |buf|
    requires forall i | 0 <= i < |buf| :: buf[i] == 0
    ensures RawField(buf, p, w) == 0
  {
    if w > 0 {
      ZeroField(buf, p, w - 1);
      assert buf[(p + w - 1) / 8] == 0;
      BitOfZero((p + w - 1) % 8);
    }
  }
}
