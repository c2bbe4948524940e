/** One file's conversion in main.rs (lines 71-197): parse the header, read
    the frame index, decode every frame, then produce the WAV header and the
    interleaved sample values. In a debug build any failing step aborts the
    conversion; here it yields its error. */
module Convert {
  import opened Base
  import opened LittleEndian
  import opened FileCursor
  import opened Header
  import opened FrameIndex
  import opened DeltaDecoder
  import opened FrameDecoder
  import opened FrameProperties
  import opened WavHeader
  import opened Reconstruct

  /** The converted file: the 56 header bytes and the sample values in the
      order they are written. */
  datatype Wav = Wav(header: seq<u8>, samples: seq<int>)

  /** The conversion of the bytes of one NCW file, in the order main.rs does
      it. It never fails on an exhausted bit reader, and its header is 56 bytes. */
  function ConvertSpec(data: seq<u8>): (r: Result<Wav>)
    ensures r != Err(BitBufferExhausted)
    ensures r.Ok? ==> |r.value.header| == WavHeaderSize
  {
    var h :- HeaderAt(data);
    var frames :- FrameIndexAt(data, h.firstFrame);
    DecodeFramesShape(data, frames, h.numChannels, h.originalBitDepth);
    var st :- DecodeFramesSpec(data, frames, h.numChannels, h.originalBitDepth);
    var header :- WavHeaderFor(st.samples, h.numChannels, h.sampleRate);
    var out :- ReconstructSpec(st.flags, st.samples, h.sampleCount);
    Ok(Wav(header, out))
  }

  /** The conversion as main.rs runs it, on one reader over the file. */
  method ConvertFile(data: seq<u8>) returns (r: Result<Wav>)
    ensures r == ConvertSpec(data)
  {
    var f := new Reader(data);
    var h :- ParseHeader(f);
    var frames :- ReadFrameIndex(f, h.firstFrame);
    var st :- DecodeFrames(f, frames, h.numChannels, h.originalBitDepth);
    var header :- WavHeaderFor(st.samples, h.numChannels, h.sampleRate);
    var out :- ReconstructSamples(st.flags, st.samples, h.sampleCount);
    r := Ok(Wav(header, out));
  }

  /** A successful conversion has at least one channel and a sample count no
      larger than the decoded samples per channel (512 per frame), and its
      header records the channel count, the sample rate and the decoded
      length of channel 0. */
  lemma ConvertShape(data: seq<u8>)
    ensures ConvertSpec(data).Ok? ==>
              HeaderAt(data).Ok? && FrameIndexAt(data, HeaderAt(data).value.firstFrame).Ok? &&
              var h := HeaderAt(data).value;
              var n := SamplesPerFrame * |FrameIndexAt(data, h.firstFrame).value|;
              var w := ConvertSpec(data).value;
              h.numChannels > 0 && h.sampleCount <= n &&
              |w.header| == WavHeaderSize &&
              U16At(w.header, 22) == h.numChannels && U32At(w.header, 24) == h.sampleRate &&
              U32At(w.header, 44) == n % 0x1_0000_0000
  {
    if ConvertSpec(data).Ok? {
      var h := HeaderAt(data).value;
      var frames := FrameIndexAt(data, h.firstFrame).value;
      var st := DecodeFramesSpec(data, frames, h.numChannels, h.originalBitDepth).value;
      DecodeFramesShape(data, frames, h.numChannels, h.originalBitDepth);
      CountBound(st.flags, st.samples, h.sampleCount);
    }
  }

  /** The output can only index samples that were decoded. */
  lemma CountBound(flags: seq<u16>, samples: seq<seq<i32>>, count: nat)
    requires |samples| > 0
    requires ReconstructSpec(flags, samples, count).Ok?
    ensures count <= |samples[0]|
  {
    if count > 0 {
      ReconstructLayout(flags, samples, count - 1, count);
      RowShape(flags, samples, count - 1);
    }
  }

  /** A stereo conversion emits exactly two values per sample index. */
  lemma StereoLength(data: seq<u8>)
    requires HeaderAt(data).Ok? && HeaderAt(data).value.numChannels == 2
    ensures ConvertSpec(data).Ok? ==> |ConvertSpec(data).value.samples| == 2 * HeaderAt(data).value.sampleCount
  {
    var h := HeaderAt(data).value;
    if ConvertSpec(data).Ok? {
      var frames := FrameIndexAt(data, h.firstFrame).value;
      DecodeFramesShape(data, frames, h.numChannels, h.originalBitDepth);
      var st := DecodeFramesSpec(data, frames, h.numChannels, h.originalBitDepth).value;
      StereoPairs(st.flags, st.samples, h.sampleCount);
    }
  }
}
