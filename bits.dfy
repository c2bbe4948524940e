/** Bit-level arithmetic of the delta decoder: the u32 operators main.rs uses
    (`|`, `!`, `<<`), the order in which packed bits are read, and two's
    complement sign extension. */
module Bits {
  import opened Base

  /** Bitwise or of two naturals, one binary digit at a time. */
  function Or(a: nat, b: nat): nat
    decreases a + b
  {
    if a == 0 && b == 0 then 0
    else 2 * Or(a / 2, b / 2) + (if a % 2 == 1 || b % 2 == 1 then 1 else 0)
  }

  /** `!x` on a u32. */
  function Not32(x: u32): u32 {
    0xFFFF_FFFF - x
  }

  /** `x << k`, before any width check. */
  function Shl(x: nat, k: nat): nat {
    x * Pow2(k)
  }

  /** `(b >> k) & 1`: bit `k` of `b`. */
  function BitOf(b: nat, k: nat): nat {
    if k == 0 then b % 2 else BitOf(b / 2, k - 1)
  }

  /** Bit `p` of a buffer, counting from the least significant bit of byte 0. */
  function BitAt(buf: seq<u8>, p: nat): nat
    requires p < 8 * |buf|
  {
    BitOf(buf[p / 8], p % 8)
  }

  /** The unsigned `w`-bit field at bit position `p`: its bit `j` is buffer bit `p + j`. */
  function RawField(buf: seq<u8>, p: nat, w: nat): nat
    requires p + w <= 8 * |buf|
  {
    if w == 0 then 0 else RawField(buf, p, w - 1) + (if BitAt(buf, p + w - 1) == 1 then Pow2(w - 1) else 0)
  }

  /** Two's complement value of a `w`-bit pattern. */
  function SignExtend(v: nat, w: nat): int {
    if w > 0 && v >= Pow2(w - 1) then v - Pow2(w) else v
  }

  /** The sign extension exactly as main.rs line 146 writes it on u32:
      `delta | !((1 << w) - 1) * first_bit`, then `as i32`. */
  function ExtendAsWritten(delta: u32, w: nat, firstBit: nat): (r: i32)
    requires w < 32 && firstBit <= 1
    ensures firstBit == 0 && delta < 0x8000_0000 ==> r == delta
  {
    Pow2Monotone(w, 32);
    Pow2Constants();
    OrDisjoint(delta, 0, 32);
    var ones := Not32(Pow2(w) - 1) * firstBit;
    OrBound(delta, ones, 32);
    ToI32(Or(delta, ones))
  }

  /** The `w`-bit two's complement pattern of `x`, the inverse of `SignExtend`. */
  function TwosComplement(x: int, w: nat): int {
    if x < 0 then x + Pow2(w) else x
  }

  lemma {:induction false} OrZeroLeft(b: nat)
    ensures Or(0, b) == b
    decreases b
  {
    if b > 0 {
      OrZeroLeft(b / 2);
    }
  }

  /** Or-ing bits that lie above every bit of `a` is addition. */
  lemma {:induction false} OrDisjoint(a: nat, m: nat, k: nat)
    requires a < Pow2(k)
    ensures Or(a, m * Pow2(k)) == a + m * Pow2(k)
    decreases k
  {
    if k == 0 {
      OrZeroLeft(m);
    } else {
      var b := m * Pow2(k);
      assert b == 2 * (m * Pow2(k - 1));
      if a != 0 || b != 0 {
        OrDisjoint(a / 2, m, k - 1);
      }
    }
  }

  /** Or-ing a bit in just above a `j`-bit value sets bit `j`. */
  lemma AppendBit(field: nat, bit: nat, j: nat)
    requires field < Pow2(j) && bit <= 1
    ensures Or(field, Shl(bit, j)) == field + (if bit == 1 then Pow2(j) else 0)
  {
    OrDisjoint(field, bit, j);
    if bit == 0 {
      assert Shl(bit, j) == 0 * Pow2(j) == 0;
    } else {
      assert Shl(bit, j) == 1 * Pow2(j) == Pow2(j);
    }
  }

  lemma {:induction false} OrBound(a: nat, b: nat, k: nat)
    requires a < Pow2(k) && b < Pow2(k)
    ensures Or(a, b) < Pow2(k)
    decreases k
  {
    if k > 0 && (a != 0 || b != 0) {
      OrBound(a / 2, b / 2, k - 1);
    }
  }

  lemma {:induction false} RawFieldBound(buf: seq<u8>, p: nat, w: nat)
    requires p + w <= 8 * |buf|
    ensures RawField(buf, p, w) < Pow2(w)
  {
    if w > 0 {
      RawFieldBound(buf, p, w - 1);
    }
  }

  lemma {:induction false} BitOfIsBit(b: nat, k: nat)
    ensures BitOf(b, k) == 0 || BitOf(b, k) == 1
  {
    if k > 0 {
      BitOfIsBit(b / 2, k - 1);
    }
  }

  lemma BitAtIsBit(buf: seq<u8>, p: nat)
    requires p < 8 * |buf|
    ensures BitAt(buf, p) == 0 || BitAt(buf, p) == 1
  {
    BitOfIsBit(buf[p / 8], p % 8);
  }

  /** The most significant bit of a field is the last buffer bit it covers. */
  lemma RawFieldTopBit(buf: seq<u8>, p: nat, w: nat)
    requires 0 < w && p + w <= 8 * |buf|
    ensures RawField(buf, p, w) >= Pow2(w - 1) <==> BitAt(buf, p + w - 1) == 1
  {
    RawFieldBound(buf, p, w - 1);
    BitAtIsBit(buf, p + w - 1);
    if BitAt(buf, p + w - 1) == 0 {
      assert RawField(buf, p, w) == RawField(buf, p, w - 1);
    } else {
      assert RawField(buf, p, w) == RawField(buf, p, w - 1) + Pow2(w - 1);
    }
  }

  /** Line 146 sign-extends: for a field of width `w < 32` whose top bit is
      `firstBit`, the decoded i32 is the field when that bit is 0 and the field
      minus 2^w when it is 1 (and 0 when `w` is 0). */
  lemma SignExtendAsWritten(v: u32, w: nat, firstBit: nat)
    requires w < 32 && v < Pow2(w)
    requires firstBit == if w > 0 && v >= Pow2(w - 1) then 1 else 0
    ensures ExtendAsWritten(v, w, firstBit) == SignExtend(v, w)
  {
    Pow2Monotone(w, 32);
    Pow2Constants();
    if w == 0 {
      OrDisjoint(v, 0, 0);
    } else {
      var ones := Not32(Pow2(w) - 1) * firstBit;
      HighOnes(w, firstBit);
      OrDisjoint(v, firstBit * (Pow2(32 - w) - 1), w);
      assert Or(v, ones) == v + ones;
      Pow2Monotone(w - 1, 30);
      if firstBit == 1 {
        assert v + ones == v + 0x1_0000_0000 - Pow2(w);
        assert v + ones >= 0x8000_0000;
      } else {
        assert v + ones == v;
      }
    }
  }

  /** The mask of line 146 holds the bits from `w` upwards. */
  lemma HighOnes(w: nat, firstBit: nat)
    requires 0 < w < 32 && firstBit <= 1
    ensures Pow2(w) <= 0x1_0000_0000
    ensures Not32(Pow2(w) - 1) * firstBit == (firstBit * (Pow2(32 - w) - 1)) * Pow2(w)
    ensures Not32(Pow2(w) - 1) == 0x1_0000_0000 - Pow2(w)
  {
    Pow2Constants();
    Pow2Monotone(w, 32);
    Pow2Add(32 - w, w);
    var p := Pow2(w);
    var big := Pow2(32 - w);
    MulPred(big, p);
    var mask := Not32(p - 1);
    assert mask == (big - 1) * p;
    if firstBit == 0 {
      assert mask * firstBit == 0 && firstBit * (big - 1) == 0;
    } else {
      assert mask * firstBit == mask && firstBit * (big - 1) == big - 1;
    }
  }

  lemma MulPred(a: nat, b: nat)
    ensures (a - 1) * b == a * b - b
  {
  }

  /** Sign extension maps the `w`-bit patterns one to one onto the signed
      range [-2^(w-1), 2^(w-1)), and `TwosComplement` undoes it. */
  lemma SignExtendInverse(v: nat, w: nat)
    requires 0 < w && v < Pow2(w)
    ensures -(Pow2(w - 1) as int) <= SignExtend(v, w) < Pow2(w - 1)
    ensures TwosComplement(SignExtend(v, w), w) == v
  {
    assert Pow2(w) == 2 * Pow2(w - 1);
  }

  lemma TwosComplementInverse(x: int, w: nat)
    requires 0 < w && -(Pow2(w - 1) as int) <= x < Pow2(w - 1)
    ensures 0 <= TwosComplement(x, w) < Pow2(w)
    ensures SignExtend(TwosComplement(x, w), w) == x
  {
    assert Pow2(w) == 2 * Pow2(w - 1);
  }
}
