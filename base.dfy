/** Machine integers, errors and a failure-compatible result type shared by
    every stage of the decoder. The decoder is modelled with the semantics of
    a debug build: every place where the program would panic becomes an `Err`. */
module Base {

  type u8 = x: int | 0 <= x < 0x100
  type u16 = x: int | 0 <= x < 0x1_0000
  type u32 = x: int | 0 <= x < 0x1_0000_0000
  type i32 = x: int | -0x8000_0000 <= x < 0x8000_0000

  /** Why decoding a file stops. */
  datatype Error =
    | ShortRead            // `read_exact`/`read` could not supply all requested bytes
    | ArithmeticOverflow   // a checked u32/i32 operation (or shift) overflowed
    | BitBufferExhausted   // the bit reader walked past its buffer (its "overflow" panic)
    | IndexOutOfBounds     // a vector was indexed past its length

  datatype Result<+T> = Ok(value: T) | Err(error: Error) {
    predicate IsFailure() { Err? }

    function PropagateFailure<U>(): Result<U>
      requires Err?
    {
      Err(error)
    }

    function Extract(): T
      requires Ok?
    {
      value
    }
  }

  predicate IsI32(x: int) {
    -0x8000_0000 <= x < 0x8000_0000
  }

  function Pow2(n: nat): (r: nat)
    ensures r >= 1
  {
    if n == 0 then 1 else 2 * Pow2(n - 1)
  }

  lemma {:induction false} Pow2Add(a: nat, b: nat)
    ensures Pow2(a + b) == Pow2(a) * Pow2(b)
  {
    if a > 0 {
      Pow2Add(a - 1, b);
    }
  }

  lemma {:induction false} Pow2Monotone(a: nat, b: nat)
    requires a <= b
    ensures Pow2(a) <= Pow2(b)
  {
    if a < b {
      Pow2Monotone(a, b - 1);
    }
  }

  lemma Pow2Constants()
    ensures Pow2(30) == 0x4000_0000 && Pow2(31) == 0x8000_0000 && Pow2(32) == 0x1_0000_0000
  {
    assert Pow2(2) == 4;
    Pow2Add(2, 2); Pow2Add(4, 4); Pow2Add(8, 8); Pow2Add(16, 16);
    Pow2Add(16, 14); Pow2Add(8, 6); Pow2Add(4, 2);
    Pow2Add(16, 15); Pow2Add(8, 7); Pow2Add(4, 3); Pow2Add(2, 1);
  }

  /** Reinterprets a u32 bit pattern as i32 (Rust's `x as i32`). */
  function ToI32(x: u32): (r: i32)
    ensures r == x || r == x - 0x1_0000_0000
  {
    if x < 0x8000_0000 then x else x - 0x1_0000_0000
  }
}
