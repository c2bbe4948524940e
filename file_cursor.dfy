/** The input file as the decoder sees it: its bytes and a seekable read
    position. `seek` and the three field readers of main.rs work on this. */
module FileCursor {
  import opened Base
  import opened LittleEndian

  /** How many of `n` requested bytes a single `read` at `pos` returns: all of
      them, or what is left before the end of the file. */
  function Available(data: seq<u8>, pos: nat, n: nat): (m: nat)
    ensures m <= n && (m == n || pos + m >= |data|)
    ensures pos + m <= |data| || m == 0
  {
    if pos >= |data| then 0
    else if pos + n <= |data| then n
    else |data| - pos
  }

  /** The bytes a single `read` of `m` bytes at `pos` delivers. */
  function Delivered(data: seq<u8>, pos: nat, m: nat): (d: seq<u8>)
    requires m == 0 || pos + m <= |data|
    ensures |d| == m
  {
    if m == 0 then [] else data[pos..pos + m]
  }

  /** A zero-initialised buffer of `n` bytes after a `read` at `pos`: the
      file's bytes where it has them, zeros past its end. */
  function Filled(data: seq<u8>, pos: nat, n: nat): (b: seq<u8>) {
    seq(n, i requires 0 <= i => if pos + i < |data| then data[pos + i] else 0)
  }

  class Reader {
    /** The contents of the file. */
    const data: seq<u8>
    /** The file position (`Seek`'s cursor). It may lie past the end. */
    var pos: nat

    constructor (data: seq<u8>)
      ensures this.data == data && pos == 0
    {
      this.data := data;
      pos := 0;
    }

    /** Whether `n` bytes can be read at the cursor (reading nothing always works). */
    predicate Fits(n: nat)
      reads this
    {
      n == 0 || pos + n <= |data|
    }

    /** `seek(f, n)`: an absolute seek, which never fails on a file. */
    method Seek(n: nat)
      modifies this
      ensures pos == n
    {
      pos := n;
    }

    /** Fills `buf` completely from the cursor or fails; the cursor moves by
        `buf.Length` on success. */
    method ReadExact(buf: array<u8>) returns (r: Result<()>)
      modifies this, buf
      ensures r.Ok? <==> old(Fits(buf.Length))
      ensures r.Err? ==> r.error == ShortRead
      ensures r.Ok? ==> pos == old(pos) + buf.Length
      ensures r.Ok? && buf.Length > 0 ==> buf[..] == data[old(pos)..old(pos) + buf.Length]
    {
      if !Fits(buf.Length) {
        return Err(ShortRead);
      }
      forall i | 0 <= i < buf.Length {
        buf[i] := data[pos + i];
      }
      pos := pos + buf.Length;
      r := Ok(());
    }

    /** `f.read(&mut buf)`: one read, which may stop at the end of the file;
        the bytes it does not reach keep their old values. */
    method Read(buf: array<u8>) returns (m: nat)
      modifies this, buf
      ensures m == Available(data, old(pos), buf.Length)
      ensures pos == old(pos) + m
      ensures buf[..] == Delivered(data, old(pos), m) + old(buf[..])[m..]
    {
      ghost var before := buf[..];
      m := Available(data, pos, buf.Length);
      forall i | 0 <= i < m {
        buf[i] := data[pos + i];
      }
      assert forall i | 0 <= i < buf.Length :: buf[..][i] == (Delivered(data, pos, m) + before[m..])[i];
      pos := pos + m;
    }

    /** `get_u16`. */
    method GetU16() returns (r: Result<u16>)
      modifies this
      ensures r.Ok? <==> old(pos) + 2 <= |data|
      ensures r.Err? ==> r.error == ShortRead
      ensures r.Ok? ==> r.value == U16At(data, old(pos)) && pos == old(pos) + 2
    {
      var buffer := new u8[2](_ => 0);
      var _ :- ReadExact(buffer);
      r := Ok(U16Le(buffer[..]));
    }

    /** `get_u32`. */
    method GetU32() returns (r: Result<u32>)
      modifies this
      ensures r.Ok? <==> old(pos) + 4 <= |data|
      ensures r.Err? ==> r.error == ShortRead
      ensures r.Ok? ==> r.value == U32At(data, old(pos)) && pos == old(pos) + 4
    {
      var buffer := new u8[4](_ => 0);
      var _ :- ReadExact(buffer);
      r := Ok(U32Le(buffer[..]));
    }

    /** `get_i32`. */
    method GetI32() returns (r: Result<i32>)
      modifies this
      ensures r.Ok? <==> old(pos) + 4 <= |data|
      ensures r.Err? ==> r.error == ShortRead
      ensures r.Ok? ==> r.value == I32At(data, old(pos)) && pos == old(pos) + 4
    {
      var buffer := new u8[4](_ => 0);
      var _ :- ReadExact(buffer);
      r := Ok(I32Le(buffer[..]));
    }
  }
}
