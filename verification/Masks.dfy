/**
  What XOR masks are for. A stored instruction word, and the first constant of blinded code, can stand for any instruction
  or constant at all, depending on the secret or random value; the rest of blinded code depends on that value alone.
  */
module Masks {
  import opened Words
  import opened Isa
  import opened ArithmeticLaws
  import opened CodeStore
  import X = X86
  import B = Blinding
  import A = Arm64
  import ArmConstants

  // ---------------------------------------------------------------- XOR

  lemma {:induction false} XorBack(n: nat, a: nat, b: nat)
    requires a < Pow2(n)
    ensures Bits(Xor, n, b, Bits(Xor, n, a, b)) == a
  {
    if n > 0 {
      XorDigit(n, a, b);
      XorDigit(n, b, Bits(Xor, n, a, b));
      XorBack(n - 1, a / 2, b / 2);
    }
  }

  lemma Back64(a: u64, b: u64)
    ensures Bitwise64(Xor, b, Bitwise64(Xor, a, b)) == a
  {
    Pow2Widths();
    hide Bits, Pow2;
    XorBack(64, a, b);
  }

  lemma Back32(a: u32, b: u32)
    ensures Bitwise32(Xor, b, Bitwise32(Xor, a, b)) == a
  {
    Pow2Widths();
    hide Bits, Pow2;
    XorBack(32, a, b);
  }

  // ---------------------------------------------------------------- stored code

  /** Each bit of a stored word is the instruction's, flipped by the base address and by the secret. */
  lemma StoredBits(w: u64, base: u64, secret: u64, k: nat)
    requires k < 64
    ensures BitOf(Masked(w, base, secret), k) == (BitOf(w, k) + BitOf(base, k) + BitOf(secret, k)) % 2
  {
    hide Bits, BitOf;
    BitsAt(Xor, 64, w, base, k);
    BitsAt(Xor, 64, Bitwise64(Xor, w, base), secret, k);
  }

  /** The secret under which `inst'` is stored as `inst` is under `secret`. */
  function OtherSecret(inst: Inst, inst': Inst, base: u64, secret: u64): u64
  {
    Bitwise64(Xor, Masked(WordOf(inst), base, secret), Bitwise64(Xor, WordOf(inst'), base))
  }

  /** A stored word can be any instruction's. */
  lemma StoredHides(inst: Inst, inst': Inst, base: u64, secret: u64)
    ensures Masked(WordOf(inst'), base, OtherSecret(inst, inst', base, secret)) == Masked(WordOf(inst), base, secret)
  {
    hide Bitwise64, WordOf;
    Back64(Masked(WordOf(inst), base, secret), Bitwise64(Xor, WordOf(inst'), base));
  }

  // ---------------------------------------------------------------- blinded constants

  /** The random value under which `v'` is blinded to what `v` is under `random`. */
  function Other64(v: u64, v': u64, random: u64): u64 { Bitwise64(Xor, Bitwise64(Xor, v, random), v') }

  function Other32(imm: i32, imm': i32, random: u32): u32 { Bitwise32(Xor, Bitwise32(Xor, ToU32(imm), random), ToU32(imm')) }

  lemma LoadHides(dst: X.Reg, v: u64, v': u64, random: u64)
    ensures B.LoadImmBlinded(dst, v', Other64(v, v', random))[0] == B.LoadImmBlinded(dst, v, random)[0]
    ensures B.LoadImmBlinded(dst, v', random)[1..] == B.LoadImmBlinded(dst, v, random)[1..]
  {
    hide Bitwise64;
    Back64(Bitwise64(Xor, v, random), v');
    LoadLength(dst, Bitwise64(Xor, v, random));
    LoadLength(dst, Bitwise64(Xor, v', random));
  }

  lemma LoadLength(dst: X.Reg, v: u64)
    ensures |B.LoadImm(dst, v)| == 1
  {
  }

  lemma BinaryHides(op: X.Binary, wide: bool, dst: X.Reg, imm: i32, imm': i32, random: u32)
    ensures B.BinaryBlinded(op, wide, dst, imm', Other32(imm, imm', random))[0] == B.BinaryBlinded(op, wide, dst, imm, random)[0]
    ensures B.BinaryBlinded(op, wide, dst, imm', random)[1..] == B.BinaryBlinded(op, wide, dst, imm, random)[1..]
  {
    hide Bitwise32, ToU32, Signed32;
    Back32(Bitwise32(Xor, ToU32(imm), random), ToU32(imm'));
  }

  lemma StoreHides(size: nat, base: X.Reg, offset: i32, imm: i32, imm': i32, random: u32)
    ensures B.StoreBlinded(size, base, offset, imm', Other32(imm, imm', random))[0] == B.StoreBlinded(size, base, offset, imm, random)[0]
    ensures B.StoreBlinded(size, base, offset, imm', random)[1..] == B.StoreBlinded(size, base, offset, imm, random)[1..]
  {
    hide Bitwise32, ToU32, Signed32;
    Back32(Bitwise32(Xor, ToU32(imm), random), ToU32(imm'));
  }

  /** On ARM64: the moves of the blinded constant, which any constant can have, then code for the random value alone. */
  lemma ArmHides(wide: bool, rd: A.Reg, v: u64, v': u64, random: u64)
    ensures var n := |ArmConstants.LoadConstant(wide, rd, Bitwise64(Xor, v, random))|;
      var n' := |ArmConstants.LoadConstant(wide, rd, Bitwise64(Xor, v', random))|;
      && n <= |ArmConstants.LoadBlinded(wide, rd, v', Other64(v, v', random))|
      && ArmConstants.LoadBlinded(wide, rd, v', Other64(v, v', random))[..n] == ArmConstants.LoadBlinded(wide, rd, v, random)[..n]
      && ArmConstants.LoadBlinded(wide, rd, v', random)[n'..] == ArmConstants.LoadBlinded(wide, rd, v, random)[n..]
  {
    hide Bitwise64, ArmConstants.LoadConstant;
    Back64(Bitwise64(Xor, v, random), v');
  }
}
