/** Laws that fix byte swaps, sign-extending loads and atomic updates in terms of bytes and of ordinary arithmetic. */
module SemanticsLaws {
  import opened Words
  import opened Isa
  import opened Semantics
  import Blinding

  // ---------------------------------------------------------------- byte order

  /** Byte `i` of `x`, counting from the least significant. */
  function Digit(x: nat, i: nat): nat
    decreases i
  {
    if i == 0 then x % 256 else Digit(x / 256, i - 1)
  }

  lemma ByteShift(k: nat)
    requires k > 0
    ensures Pow2(8 * k) == 256 * Pow2(8 * (k - 1))
  {
    hide Pow2;
    var j := 8 * (k - 1);
    Pow2Add(8, j);
    Pow2Widths();
    assert Pow2(8 * k) == Pow2(8 + j);
  }

  /** The bytes of a number with byte `d` put on top of its `k` bytes. */
  lemma {:induction false} DigitsOnTop(k: nat, d: nat, s: nat, i: nat)
    requires d < 256 && s < Pow2(8 * k) && i <= k
    ensures d * Pow2(8 * k) + s >= 0 && Digit(d * Pow2(8 * k) + s, i) == if i < k then Digit(s, i) else d
    decreases k
  {
    hide Pow2;
    var p := Pow2(8 * k);
    TopNonneg(d, p, s);
    if k == 0 {
      assert Pow2(0) == 1 by { Pow2Zero(); }
    } else {
      ByteShift(k);
      var q := Pow2(8 * (k - 1));
      TopDivides(d, q, s);
      if i > 0 {
        DigitsOnTop(k - 1, d, s / 256, i - 1);
      }
    }
  }

  lemma Pow2Zero()
    ensures Pow2(0) == 1
  {
  }

  lemma TopNonneg(d: nat, p: nat, s: nat)
    ensures d * p + s >= 0
  {
  }

  lemma TopDivides(d: nat, q: nat, s: nat)
    requires s < 256 * q
    ensures (d * (256 * q) + s) % 256 == s % 256 && (d * (256 * q) + s) / 256 == d * q + s / 256 && s / 256 < q
  {
    var t := d * q;
    assert d * (256 * q) == 256 * t;
    ModUnique(256 * t + s, 256, t + s / 256, s % 256);
  }

  /** Swapping reverses the bytes. */
  lemma {:induction false} SwapReverses(n: nat, x: nat, i: nat)
    requires i < n
    ensures Digit(SwapBytes(n, x), i) == Digit(x, n - 1 - i)
  {
    hide Pow2;
    DigitsOnTop(n - 1, x % 256, SwapBytes(n - 1, x / 256), i);
    if i < n - 1 {
      SwapReverses(n - 1, x / 256, i);
    }
  }

  /** Numbers of `n` bytes with the same bytes are equal. */
  lemma {:induction false} SameDigits(n: nat, x: nat, y: nat)
    requires x < Pow2(8 * n) && y < Pow2(8 * n) && forall i :: 0 <= i < n ==> Digit(x, i) == Digit(y, i)
    ensures x == y
    decreases n
  {
    hide Pow2;
    if n == 0 {
      Pow2Zero();
    } else {
      ByteShift(n);
      assert Digit(x, 0) == Digit(y, 0);
      forall i | 0 <= i < n - 1
        ensures Digit(x / 256, i) == Digit(y / 256, i)
      {
        assert Digit(x, i + 1) == Digit(y, i + 1);
      }
      SameDigits(n - 1, x / 256, y / 256);
    }
  }

  /** Swapping twice is the identity. */
  lemma SwapTwice(n: nat, x: nat)
    requires x < Pow2(8 * n)
    ensures SwapBytes(n, SwapBytes(n, x)) == x
  {
    hide Pow2, SwapBytes, Digit;
    var y := SwapBytes(n, x);
    forall i | 0 <= i < n
      ensures Digit(SwapBytes(n, y), i) == Digit(x, i)
    {
      SwapReverses(n, y, i);
      SwapReverses(n, x, n - 1 - i);
    }
    SameDigits(n, SwapBytes(n, y), x);
  }

  /** The conversions of 2, 4 and 8 bytes: truncation to little-endian, otherwise the truncated value's bytes reversed. */
  lemma EndValueBytes(kind: EndKind, imm: i32, a: u64, i: nat)
    requires imm in {16, 32, 64} && i < imm / 8
    ensures var t := if imm == 16 then ToU16(a) else if imm == 32 then ToU32(a) else a;
      && EndValue(ToLE, imm, a) == t
      && (kind != ToLE ==> Digit(EndValue(kind, imm, a), i) == Digit(t, imm / 8 - 1 - i))
      && (kind != ToLE ==> EndValue(kind, imm, EndValue(kind, imm, a)) == t)
  {
    hide SwapBytes, Digit, Pow2;
    Pow2Widths();
    var n: nat := imm / 8;
    var t := if imm == 16 then ToU16(a) else if imm == 32 then ToU32(a) else a;
    SwapReverses(n, t, i);
    SwapTwice(n, t);
    Narrow(imm, t);
  }

  /** A swapped value of 2 or 4 bytes still fits. */
  lemma Narrow(imm: i32, t: nat)
    requires imm in {16, 32, 64}
    ensures imm == 16 ==> SwapBytes(2, t) < 0x1_0000
    ensures imm == 32 ==> SwapBytes(4, t) < 0x1_0000_0000
  {
    hide SwapBytes;
    Pow2Widths();
  }

  // ---------------------------------------------------------------- loads and atomics

  /** A sign-extending load is a load followed by a sign-extending move. */
  lemma LoadSignedIsMove(m: Memory, a: u64, n: nat)
    requires n in {1, 2, 4}
    ensures LoadSigned(m, a, n) == MovValue(true, 8 * n, LoadWord(m, a, n))
  {
    hide Load;
  }

  /** The arithmetic of an atomic operation: the ALU operation of the same name, or replacement by the operand. */
  lemma AtomicIsAlu(wide: bool, code: nat, was: u64, val: u64, r0: u64)
    requires AtomicKnown(code)
    ensures var mov := AluValue(wide, OpMov, true, 0, was, val);
      AtomicValue(wide, code, was, val, r0) ==
        if code == 0 then AluValue(wide, OpAdd, true, 0, was, val)
        else if code == 4 then AluValue(wide, OpOr, true, 0, was, val)
        else if code == 5 then AluValue(wide, OpAnd, true, 0, was, val)
        else if code == 10 then AluValue(wide, OpXor, true, 0, was, val)
        else if code == 14 || !Taken(wide, JNE, was, r0) then mov
        else AluValue(wide, OpMov, true, 0, val, was)
  {
    hide Bitwise32, Bitwise64, Pow2, ToU32;
    if !wide && code == 0 {
      WrapBoth(was, val);
    }
  }

  lemma WrapBoth(a: u64, b: u64)
    ensures ToU32(ToU32(a) + ToU32(b)) == ToU32(a + b)
  {
    var q := a / 0x1_0000_0000;
    assert a == q * 0x1_0000_0000 + ToU32(a);
    Blinding.OffsetWraps(ToU32(a), b);
    Blinding.ShiftedWraps(ToU32(a) + b, q);
  }
}
