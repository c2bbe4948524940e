/** The frame table (main.rs lines 84-91). It starts at 0x78 and runs up to
    the first frame; slot i is a frame's start relative to the frame data and
    slot i+1 its end, so a table of `n` slots describes `n - 1` frames. */
module FrameIndex {
  import opened Base
  import opened LittleEndian
  import opened FileCursor

  const TableStart := 0x78
  /** The `0x10` that main.rs subtracts from a frame's extent to get its
      `len`; the decoder never reads `len`. */
  const LengthAdjust := 0x10

  /** `start` is an absolute file offset; `len` is never used by the decoder. */
  datatype FrameEntry = FrameEntry(start: u32, len: u32)

  /** Entry `i` of the table, with the debug-build overflow checks of
      `start + first_frame` and `end - start - 0x10`, evaluated in that order. */
  function EntryAt(data: seq<u8>, firstFrame: u32, i: nat): (r: Result<FrameEntry>)
    ensures r.Err? ==> r.error == ShortRead || r.error == ArithmeticOverflow
    ensures r == Err(ShortRead) <==> TableStart + 4 * i + 8 > |data|
    ensures r.Ok? <==> TableStart + 4 * i + 8 <= |data| &&
                       U32At(data, TableStart + 4 * i) + firstFrame <= 0xFFFF_FFFF &&
                       U32At(data, TableStart + 4 * i + 4) >= U32At(data, TableStart + 4 * i) + LengthAdjust
    ensures r.Ok? ==> TableStart + 4 * i + 8 <= |data| && firstFrame <= r.value.start &&
                      r.value.len + LengthAdjust + r.value.start - firstFrame == U32At(data, TableStart + 4 * i + 4)
  {
    var off := TableStart + 4 * i;
    if off + 8 > |data| then Err(ShortRead)
    else
      var start := U32At(data, off);
      var end := U32At(data, off + 4);
      if start + firstFrame > 0xFFFF_FFFF then Err(ArithmeticOverflow)
      else if end < start + LengthAdjust then Err(ArithmeticOverflow)
      else Ok(FrameEntry(start + firstFrame, end - start - LengthAdjust))
  }

  /** Entries `i..n` appended to `acc`, stopping at the first failing one. */
  function EntriesFrom(data: seq<u8>, firstFrame: u32, i: nat, n: nat, acc: seq<FrameEntry>): (r: Result<seq<FrameEntry>>)
    ensures r.Err? ==> r.error == ShortRead || r.error == ArithmeticOverflow
    decreases n - i
  {
    if i >= n then Ok(acc)
    else
      match EntryAt(data, firstFrame, i)
      case Err(e) => Err(e)
      case Ok(entry) => EntriesFrom(data, firstFrame, i + 1, n, acc + [entry])
  }

  /** Number of table slots, `(first_frame - 0x78) / 4`, failing on the u32
      underflow of the subtraction. */
  function SlotCount(firstFrame: u32): (r: Result<nat>)
    ensures r.Ok? <==> firstFrame >= TableStart
    ensures r.Err? ==> r.error == ArithmeticOverflow
    ensures r.Ok? ==> TableStart + 4 * r.value <= firstFrame < TableStart + 4 * r.value + 4
  {
    if firstFrame < TableStart then Err(ArithmeticOverflow)
    else Ok((firstFrame - TableStart) / 4)
  }

  /** The whole index: entries `0..slots - 1`, failing on the u32 underflow of
      `num_frames - 1` when there are no slots. */
  function FrameIndexAt(data: seq<u8>, firstFrame: u32): (r: Result<seq<FrameEntry>>)
    ensures r.Err? ==> r.error == ShortRead || r.error == ArithmeticOverflow
  {
    match SlotCount(firstFrame)
    case Err(e) => Err(e)
    case Ok(slots) =>
      if slots == 0 then Err(ArithmeticOverflow)
      else EntriesFrom(data, firstFrame, 0, slots - 1, [])
  }

  method ReadFrameIndex(f: Reader, firstFrame: u32) returns (r: Result<seq<FrameEntry>>)
    modifies f
    ensures r == FrameIndexAt(f.data, firstFrame)
  {
    if firstFrame < TableStart {
      return Err(ArithmeticOverflow);
    }
    var numFrames := (firstFrame - TableStart) / 4;
    if numFrames == 0 {
      return Err(ArithmeticOverflow);
    }
    var frames := [];
    for i := 0 to numFrames - 1
      invariant EntriesFrom(f.data, firstFrame, i, numFrames - 1, frames) == FrameIndexAt(f.data, firstFrame)
    {
      EntriesStep(f.data, firstFrame, i, numFrames - 1, frames);
      f.Seek(TableStart + i * 4);
      var start :- f.GetU32();
      var end :- f.GetU32();
      EntryOf(f.data, firstFrame, i, start, end);
      if start + firstFrame > 0xFFFF_FFFF {
        return Err(ArithmeticOverflow);
      }
      if end < start + LengthAdjust {
        return Err(ArithmeticOverflow);
      }
      frames := frames + [FrameEntry(start + firstFrame, end - start - LengthAdjust)];
    }
    r := Ok(frames);
  }

  /** One step of the entry fold. */
  lemma EntriesStep(data: seq<u8>, firstFrame: u32, i: nat, n: nat, acc: seq<FrameEntry>)
    requires i < n
    ensures EntriesFrom(data, firstFrame, i, n, acc) ==
              match EntryAt(data, firstFrame, i)
              case Err(e) => Err(e)
              case Ok(entry) => EntriesFrom(data, firstFrame, i + 1, n, acc + [entry])
  {
  }

  /** Entry `i` once its two slots have been read. */
  lemma EntryOf(data: seq<u8>, firstFrame: u32, i: nat, start: u32, end: u32)
    requires TableStart + 4 * i + 8 <= |data|
    requires start == U32At(data, TableStart + 4 * i) && end == U32At(data, TableStart + 4 * i + 4)
    ensures EntryAt(data, firstFrame, i) ==
              if start + firstFrame > 0xFFFF_FFFF then Err(ArithmeticOverflow)
              else if end < start + LengthAdjust then Err(ArithmeticOverflow)
              else Ok(FrameEntry(start + firstFrame, end - start - LengthAdjust))
  {
  }

  /** The fold succeeds exactly when every entry in range does, and then it
      appends those entries, in table order. */
  lemma {:induction false} EntriesFromShape(data: seq<u8>, firstFrame: u32, i: nat, n: nat, acc: seq<FrameEntry>)
    requires i <= n
    ensures EntriesFrom(data, firstFrame, i, n, acc).Ok?
            <==> forall j | i <= j < n :: EntryAt(data, firstFrame, j).Ok?
    ensures EntriesFrom(data, firstFrame, i, n, acc).Ok? ==>
              var es := EntriesFrom(data, firstFrame, i, n, acc).value;
              |es| == |acc| + n - i && es[..|acc|] == acc &&
              forall j | i <= j < n :: es[|acc| + j - i] == EntryAt(data, firstFrame, j).value
    decreases n - i
  {
    if i < n {
      var head := EntryAt(data, firstFrame, i);
      if head.Ok? {
        EntriesFromShape(data, firstFrame, i + 1, n, acc + [head.value]);
      }
    }
  }

  /** The index has one entry fewer than the table has slots, and entry `i`
      pairs slot `i` (shifted by the first-frame offset) with the distance to
      slot `i + 1` less the sub-header; it succeeds exactly when the slot count
      is positive and every such pair can be read without overflow. */
  lemma FrameIndexShape(data: seq<u8>, firstFrame: u32)
    ensures FrameIndexAt(data, firstFrame).Ok? <==>
              firstFrame >= TableStart + 4 &&
              forall i | 0 <= i < (firstFrame - TableStart) / 4 - 1 :: EntryAt(data, firstFrame, i).Ok?
    ensures FrameIndexAt(data, firstFrame).Ok? ==>
              var es := FrameIndexAt(data, firstFrame).value;
              |es| == (firstFrame - TableStart) / 4 - 1 &&
              forall i | 0 <= i < |es| ::
                TableStart + 4 * i + 8 <= |data| &&
                es[i].start == U32At(data, TableStart + 4 * i) + firstFrame &&
                es[i].len == U32At(data, TableStart + 4 * i + 4) - U32At(data, TableStart + 4 * i) - LengthAdjust
  {
    if firstFrame >= TableStart + 4 {
      var n := (firstFrame - TableStart) / 4 - 1;
      EntriesFromShape(data, firstFrame, 0, n, []);
      var r := EntriesFrom(data, firstFrame, 0, n, []);
      if r.Ok? {
        forall i | 0 <= i < n
          ensures TableStart + 4 * i + 8 <= |data|
          ensures r.value[i].start == U32At(data, TableStart + 4 * i) + firstFrame
          ensures r.value[i].len == U32At(data, TableStart + 4 * i + 4) - U32At(data, TableStart + 4 * i) - LengthAdjust
        {
          assert r.value[0 + i - 0] == EntryAt(data, firstFrame, i).value;
          EntryFields(data, firstFrame, i);
        }
      }
    }
  }

  /** The fields of an entry that reads. */
  lemma EntryFields(data: seq<u8>, firstFrame: u32, i: nat)
    requires EntryAt(data, firstFrame, i).Ok?
    ensures TableStart + 4 * i + 8 <= |data|
    ensures EntryAt(data, firstFrame, i).value.start == U32At(data, TableStart + 4 * i) + firstFrame
    ensures EntryAt(data, firstFrame, i).value.len == U32At(data, TableStart + 4 * i + 4) - U32At(data, TableStart + 4 * i) - LengthAdjust
  {
  }
}
