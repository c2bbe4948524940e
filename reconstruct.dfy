/** The output loop of main.rs (lines 184-196): for every sample index below
    the header's sample count, the frame's flag chooses between writing every
    channel's sample in channel order and writing the two values `mid + side`
    and `mid - side` rebuilt from channels 0 and 1. Samples are the raw
    decoded integers; the sums are exact. */
module Reconstruct {
  import opened Base
  import opened DeltaDecoder

  /** How many values one sample index emits. */
  function RowWidth(flag: u16, numChannels: nat): nat {
    if flag == 0 then numChannels else 2
  }

  /** Every channel has a sample at index `i`. */
  predicate Indexable(samples: seq<seq<i32>>, i: nat) {
    forall c | 0 <= c < |samples| :: i < |samples[c]|
  }

  /** Sample `i` of every channel, in channel order. */
  function Column(samples: seq<seq<i32>>, i: nat): (col: seq<int>)
    requires Indexable(samples, i)
    ensures |col| == |samples| && forall c | 0 <= c < |samples| :: col[c] == samples[c][i]
  {
    seq(|samples|, c requires 0 <= c < |samples| => samples[c][i] as int)
  }

  /** The values emitted for sample index `i`; any vector indexed past its
      end (`sidemid_flags[i / 512]`, `samples[c][i]`, a missing channel 1)
      fails. */
  function Row(flags: seq<u16>, samples: seq<seq<i32>>, i: nat): (r: Result<seq<int>>)
    ensures r.Ok? ==> i / SamplesPerFrame < |flags| && |r.value| == RowWidth(flags[i / SamplesPerFrame], |samples|)
    ensures r.Err? ==> r.error == IndexOutOfBounds
  {
    if i / SamplesPerFrame >= |flags| then Err(IndexOutOfBounds)
    else if flags[i / SamplesPerFrame] == 0 then
      if Indexable(samples, i) then Ok(Column(samples, i))
      else Err(IndexOutOfBounds)
    else if |samples| < 2 || i >= |samples[0]| || i >= |samples[1]| then Err(IndexOutOfBounds)
    else Ok([samples[0][i] as int + samples[1][i], samples[0][i] as int - samples[1][i]])
  }

  /** The rows of the indices `0..count`, in order. */
  function ReconstructSpec(flags: seq<u16>, samples: seq<seq<i32>>, count: nat): (r: Result<seq<int>>)
    ensures r.Err? ==> r.error == IndexOutOfBounds
  {
    if count == 0 then Ok([])
    else
      var prefix :- ReconstructSpec(flags, samples, count - 1);
      var row :- Row(flags, samples, count - 1);
      Ok(prefix + row)
  }

  /** The loop of main.rs, writing into a growing output sequence. */
  method ReconstructSamples(flags: seq<u16>, samples: seq<seq<i32>>, sampleCount: u32) returns (r: Result<seq<int>>)
    ensures r == ReconstructSpec(flags, samples, sampleCount)
  {
    var out := [];
    for i := 0 to sampleCount
      invariant ReconstructSpec(flags, samples, i) == Ok(out)
    {
      if i / SamplesPerFrame >= |flags| {
        ErrorPersists(flags, samples, i + 1, sampleCount);
        return Err(IndexOutOfBounds);
      }
      if flags[i / SamplesPerFrame] == 0 {
        ghost var before := out;
        for c := 0 to |samples|
          invariant |out| == |before| + c && out[..|before|] == before
          invariant forall k | 0 <= k < c :: i < |samples[k]| && out[|before| + k] == samples[k][i]
        {
          if i >= |samples[c]| {
            ErrorPersists(flags, samples, i + 1, sampleCount);
            return Err(IndexOutOfBounds);
          }
          out := out + [samples[c][i] as int];
        }
        assert out == before + Row(flags, samples, i).value;
      } else {
        if |samples| < 2 || i >= |samples[0]| || i >= |samples[1]| {
          ErrorPersists(flags, samples, i + 1, sampleCount);
          return Err(IndexOutOfBounds);
        }
        var mid: int := samples[0][i];
        var side: int := samples[1][i];
        out := out + [mid + side, mid - side];
      }
    }
    r := Ok(out);
  }

  /** A failure at some index is the failure of the whole output. */
  lemma {:induction false} ErrorPersists(flags: seq<u16>, samples: seq<seq<i32>>, i: nat, count: nat)
    requires i <= count && ReconstructSpec(flags, samples, i).Err?
    ensures ReconstructSpec(flags, samples, count) == ReconstructSpec(flags, samples, i)
    decreases count - i
  {
    if i < count {
      ErrorPersists(flags, samples, i, count - 1);
    }
  }

  /** A flag-0 index emits every channel's sample in channel order; any other
      flag emits exactly the two values `mid + side` and `mid - side`, which
      determine mid and side: their sum is twice mid and their difference
      twice side. */
  lemma RowShape(flags: seq<u16>, samples: seq<seq<i32>>, i: nat)
    ensures Row(flags, samples, i).Ok? <==>
              i / SamplesPerFrame < |flags| &&
              if flags[i / SamplesPerFrame] == 0 then Indexable(samples, i)
              else |samples| >= 2 && i < |samples[0]| && i < |samples[1]|
    ensures Row(flags, samples, i).Ok? ==>
              var row := Row(flags, samples, i).value;
              if flags[i / SamplesPerFrame] == 0 then
                |row| == |samples| && forall c | 0 <= c < |samples| :: row[c] == samples[c][i]
              else
                |row| == 2 && row[0] + row[1] == 2 * (samples[0][i] as int) && row[0] - row[1] == 2 * (samples[1][i] as int)
  {
  }

  /** The output succeeds exactly when every index below the count has a row,
      and the row of index `i` follows right after the rows before it. */
  lemma {:induction false} ReconstructLayout(flags: seq<u16>, samples: seq<seq<i32>>, i: nat, count: nat)
    requires i < count
    ensures ReconstructSpec(flags, samples, count).Ok? ==>
              var out := ReconstructSpec(flags, samples, count).value;
              ReconstructSpec(flags, samples, i).Ok? && Row(flags, samples, i).Ok? &&
              var before := ReconstructSpec(flags, samples, i).value;
              var row := Row(flags, samples, i).value;
              |before| + |row| <= |out| && out[..|before|] == before && out[|before|..|before| + |row|] == row
    decreases count - i
  {
    if ReconstructSpec(flags, samples, count).Ok? {
      var out := ReconstructSpec(flags, samples, count).value;
      var prefix := ReconstructSpec(flags, samples, count - 1).value;
      assert out == prefix + Row(flags, samples, count - 1).value;
      if i < count - 1 {
        ReconstructLayout(flags, samples, i, count - 1);
        var before := ReconstructSpec(flags, samples, i).value;
        var row := Row(flags, samples, i).value;
        assert out[..|before|] == prefix[..|before|];
        assert out[|before|..|before| + |row|] == prefix[|before|..|before| + |row|];
      }
    }
  }

  lemma ReconstructSucceeds(flags: seq<u16>, samples: seq<seq<i32>>, count: nat)
    ensures ReconstructSpec(flags, samples, count).Ok? <==> forall i | 0 <= i < count :: Row(flags, samples, i).Ok?
  {
    if ReconstructSpec(flags, samples, count).Ok? {
      forall i | 0 <= i < count ensures Row(flags, samples, i).Ok? {
        ReconstructLayout(flags, samples, i, count);
      }
    } else {
      RowFails(flags, samples, count);
    }
  }

  /** A failed output has an index whose row fails. */
  lemma {:induction false} RowFails(flags: seq<u16>, samples: seq<seq<i32>>, count: nat)
    requires ReconstructSpec(flags, samples, count).Err?
    ensures exists i :: 0 <= i < count && Row(flags, samples, i).Err?
  {
    if ReconstructSpec(flags, samples, count - 1).Err? {
      RowFails(flags, samples, count - 1);
    } else {
      assert Row(flags, samples, count - 1).Err?;
    }
  }

  /** When every row has the same width `w`, row `i` occupies the output
      from `i * w` to `i * w + w`. */
  lemma {:induction false} UniformLayout(flags: seq<u16>, samples: seq<seq<i32>>, count: nat, w: nat)
    requires forall i | 0 <= i < count :: Row(flags, samples, i).Ok? ==> |Row(flags, samples, i).value| == w
    ensures ReconstructSpec(flags, samples, count).Ok? ==>
              var out := ReconstructSpec(flags, samples, count).value;
              |out| == count * w &&
              forall i | 0 <= i < count ::
                Row(flags, samples, i).Ok? && 0 <= i * w <= i * w + w <= |out| &&
                out[i * w..i * w + w] == Row(flags, samples, i).value
  {
    UniformLength(flags, samples, count, w);
    if ReconstructSpec(flags, samples, count).Ok? {
      var out := ReconstructSpec(flags, samples, count).value;
      forall i | 0 <= i < count
        ensures Row(flags, samples, i).Ok? && 0 <= i * w <= i * w + w <= |out| &&
                out[i * w..i * w + w] == Row(flags, samples, i).value
      {
        UniformRow(flags, samples, count, w, i);
      }
    }
  }

  lemma {:induction false} UniformRow(flags: seq<u16>, samples: seq<seq<i32>>, count: nat, w: nat, i: nat)
    requires forall i | 0 <= i < count :: Row(flags, samples, i).Ok? ==> |Row(flags, samples, i).value| == w
    requires ReconstructSpec(flags, samples, count).Ok? && i < count
    ensures var out := ReconstructSpec(flags, samples, count).value;
            Row(flags, samples, i).Ok? && 0 <= i * w <= i * w + w <= |out| &&
            out[i * w..i * w + w] == Row(flags, samples, i).value
  {
    ReconstructLayout(flags, samples, i, count);
    UniformLength(flags, samples, i, w);
    UniformLength(flags, samples, count, w);
    MulLe(i + 1, count, w);
    assert (i + 1) * w == i * w + w;
  }

  lemma {:induction false} UniformLength(flags: seq<u16>, samples: seq<seq<i32>>, count: nat, w: nat)
    requires forall i | 0 <= i < count :: Row(flags, samples, i).Ok? ==> |Row(flags, samples, i).value| == w
    ensures ReconstructSpec(flags, samples, count).Ok? ==> |ReconstructSpec(flags, samples, count).value| == count * w
  {
    if count > 0 && ReconstructSpec(flags, samples, count).Ok? {
      UniformLength(flags, samples, count - 1, w);
      assert count * w == (count - 1) * w + w;
    }
  }

  /** With every frame left/right coded, the output interleaves the channels:
      the `n` values from `i * n` on are sample `i` of each channel in turn. */
  lemma DirectInterleaved(flags: seq<u16>, samples: seq<seq<i32>>, count: nat)
    requires forall i | 0 <= i < count && i / SamplesPerFrame < |flags| :: flags[i / SamplesPerFrame] == 0
    ensures ReconstructSpec(flags, samples, count).Ok? ==>
              var out := ReconstructSpec(flags, samples, count).value;
              var n := |samples|;
              |out| == count * n &&
              forall i | 0 <= i < count ::
                Indexable(samples, i) && 0 <= i * n <= i * n + n <= |out| && out[i * n..i * n + n] == Column(samples, i)
  {
    var n := |samples|;
    UniformLayout(flags, samples, count, n);
    if ReconstructSpec(flags, samples, count).Ok? {
      forall i | 0 <= i < count
        ensures Row(flags, samples, i).Ok? && Indexable(samples, i) && Row(flags, samples, i).value == Column(samples, i)
      {
        ReconstructSucceeds(flags, samples, count);
      }
    }
  }

  /** Value `i * n + c` of a left/right coded output is channel `c`'s sample `i`. */
  lemma DirectSample(flags: seq<u16>, samples: seq<seq<i32>>, count: nat, i: nat, c: nat)
    requires forall i | 0 <= i < count && i / SamplesPerFrame < |flags| :: flags[i / SamplesPerFrame] == 0
    requires ReconstructSpec(flags, samples, count).Ok? && i < count && c < |samples|
    ensures var out := ReconstructSpec(flags, samples, count).value;
            i * |samples| + c < |out| && i < |samples[c]| && out[i * |samples| + c] == samples[c][i]
  {
    DirectInterleaved(flags, samples, count);
    var out := ReconstructSpec(flags, samples, count).value;
    var n := |samples|;
    assert out[i * n..i * n + n][c] == Column(samples, i)[c];
  }

  /** A stereo file always emits two values per index. In a mid/side frame
      they are `mid + side` and `mid - side`, so halving their sum and their
      difference gives back channels 0 and 1. */
  lemma StereoPairs(flags: seq<u16>, samples: seq<seq<i32>>, count: nat)
    requires |samples| == 2
    ensures ReconstructSpec(flags, samples, count).Ok? ==>
              var out := ReconstructSpec(flags, samples, count).value;
              |out| == 2 * count &&
              forall i | 0 <= i < count ::
                Row(flags, samples, i).Ok? && i < |samples[0]| && i < |samples[1]| && 2 * i + 1 < |out| &&
                if flags[i / SamplesPerFrame] == 0 then out[2 * i] == samples[0][i] && out[2 * i + 1] == samples[1][i]
                else (out[2 * i] + out[2 * i + 1]) / 2 == samples[0][i] && (out[2 * i] - out[2 * i + 1]) / 2 == samples[1][i]
  {
    UniformLayout(flags, samples, count, 2);
    if ReconstructSpec(flags, samples, count).Ok? {
      var out := ReconstructSpec(flags, samples, count).value;
      forall i | 0 <= i < count
        ensures Row(flags, samples, i).Ok? && i < |samples[0]| && i < |samples[1]| && 2 * i + 1 < |out|
        ensures out[2 * i] == Row(flags, samples, i).value[0] && out[2 * i + 1] == Row(flags, samples, i).value[1]
      {
        RowShape(flags, samples, i);
        assert i * 2 == 2 * i;
        assert out[2 * i..2 * i + 2][0] == out[2 * i];
        assert out[2 * i..2 * i + 2][1] == out[2 * i + 1];
      }
    }
  }
}
