/** Constant blinding in the x86-64 back end: for every random value the blinded code does what the plain code does. */
module Blinding {
  import opened Words
  import opened Semantics
  import opened HostFlags
  import opened X86

  predicate FitsI32(v: u64) { -0x8000_0000 <= Signed64(v) < 0x8000_0000 }

  /** `emit_load_imm`. */
  function LoadImm(dst: Reg, v: u64): seq<XInst>
  {
    if FitsI32(v) then [Ri(MovOp, true, dst, Signed64(v))] else [MovAbs(dst, v)]
  }

  function Scratch(dst: Reg): Reg { if dst == R11 then R10 else R11 }

  /** `emit_load_imm_blinded`. */
  function LoadImmBlinded(dst: Reg, v: u64, random: u64): seq<XInst>
  {
    LoadImm(dst, Bitwise64(Xor, v, random)) +
    (if FitsI32(random) then [Ri(XorOp, true, dst, Signed64(random))]
     else [MovAbs(Scratch(dst), random), Rr(XorOp, true, dst, Scratch(dst))])
  }

  /** `(int32_t)((uint32_t)imm ^ random)`. */
  function BlindedImm(imm: i32, random: u32): i32 { Signed32(Bitwise32(Xor, ToU32(imm), random)) }

  /** Recovering a blinded immediate in the scratch register: the first two instructions of every blinded emitter. */
  function RecoverImm(wide: bool, temp: Reg, imm: i32, random: u32): seq<XInst>
  {
    [Ri(MovOp, wide, temp, BlindedImm(imm, random)), Ri(XorOp, wide, temp, Signed32(random))]
  }

  /** The blinded forms of an ALU, compare or test instruction with an immediate: the same operation from a register. */
  function BinaryBlinded(op: Binary, wide: bool, dst: Reg, imm: i32, random: u32): seq<XInst>
  {
    RecoverImm(wide, Scratch(dst), imm, random) + [Rr(op, wide, dst, Scratch(dst))]
  }

  /** `emit_store_imm32_blinded`; the immediate is recovered in 64 bits only for an 8-byte store. */
  function StoreBlinded(size: nat, base: Reg, offset: i32, imm: i32, random: u32): seq<XInst>
  {
    RecoverImm(size == 8, R11, imm, random) + [StoreReg(size, R11, base, offset)]
  }

  // ---------------------------------------------------------------- sign extension commutes with XOR

  lemma XorTwice64(v: u64, k: u64)
    ensures Bitwise64(Xor, Bitwise64(Xor, v, k), k) == v
  {
    Pow2Widths();
    XorTwice(64, v, k);
  }

  lemma XorTwice32(v: u32, k: u32)
    ensures Bitwise32(Xor, Bitwise32(Xor, v, k), k) == v
  {
    Pow2Widths();
    XorTwice(32, v, k);
  }

  /** A number of `n` bits followed by `h` copies of bit `t`. */
  function Extended(n: nat, h: nat, low: nat, t: int): nat
  {
    low + Pow2(n) * (if t == 1 then Pow2(h) - 1 else 0)
  }

  /** XOR works on the low bits and on the copies separately. */
  lemma {:induction false} XorExtended(n: nat, h: nat, a: nat, s: int, b: nat, t: int)
    requires a < Pow2(n) && b < Pow2(n) && 0 <= s <= 1 && 0 <= t <= 1
    ensures Bits(Xor, n + h, Extended(n, h, a, s), Extended(n, h, b, t))
            == Extended(n, h, Bits(Xor, n, a, b), Bit(Xor, s, t))
    decreases n
  {
    if n == 0 {
      XorCopies(h, s, t);
    } else {
      var x, y := Extended(n, h, a, s), Extended(n, h, b, t);
      HalfExtended(n, h, a, s);
      HalfExtended(n, h, b, t);
      XorExtended(n - 1, h, a / 2, s, b / 2, t);
      var r := Bits(Xor, n, a, b);
      HalfExtended(n, h, r, Bit(Xor, s, t));
      HalfOfDigit(Bit(Xor, a % 2, b % 2), Bits(Xor, n - 1, a / 2, b / 2));
    }
  }

  lemma HalfExtended(n: nat, h: nat, a: nat, s: int)
    requires n > 0 && a < Pow2(n)
    ensures Extended(n, h, a, s) % 2 == a % 2
    ensures Extended(n, h, a, s) / 2 == Extended(n - 1, h, a / 2, s)
  {
    var c := if s == 1 then Pow2(h) - 1 else 0;
    var p := Pow2(n - 1);
    HalfSum(a, p, c);
  }

  lemma HalfSum(a: nat, p: nat, c: nat)
    ensures (a + (2 * p) * c) % 2 == a % 2 && (a + (2 * p) * c) / 2 == a / 2 + p * c
  {
    var t := p * c;
    assert (2 * p) * c == 2 * t;
    ModUnique(a + 2 * t, 2, a / 2 + t, a % 2);
  }

  lemma {:induction false} XorCopies(h: nat, s: int, t: int)
    requires 0 <= s <= 1 && 0 <= t <= 1
    ensures Bits(Xor, h, if s == 1 then Pow2(h) - 1 else 0, if t == 1 then Pow2(h) - 1 else 0)
            == if Bit(Xor, s, t) == 1 then Pow2(h) - 1 else 0
  {
    if h > 0 {
      XorCopies(h - 1, s, t);
      HalfOfDigit(1, Pow2(h - 1) - 1);
    }
  }

  lemma Pow2Near32()
    ensures Pow2(31) == 0x8000_0000 && Pow2(33) == 0x2_0000_0000 && Pow2(1) == 2
  {
    Pow2Widths();
    var n: nat := 32;
    assert Pow2(n) == 2 * Pow2(n - 1) && Pow2(n + 1) == 2 * Pow2(n);
  }

  /** A 32-bit word and its 64-bit sign extension, split at the sign bit. */
  lemma SplitAtSign(x: u32)
    ensures x == Extended(31, 1, x % 0x8000_0000, x / 0x8000_0000)
    ensures ToU64(Signed32(x)) == Extended(31, 33, x % 0x8000_0000, x / 0x8000_0000)
    ensures 0 <= x / 0x8000_0000 <= 1
  {
    Pow2Near32();
  }

  lemma JoinAtSign(low: nat, t: int)
    requires low < 0x8000_0000 && 0 <= t <= 1
    ensures var x := Extended(31, 1, low, t);
      x < 0x1_0000_0000 && x % 0x8000_0000 == low && x / 0x8000_0000 == t
  {
    Pow2Near32();
  }

  /** Sign extension from 32 to 64 bits commutes with XOR. */
  lemma SignExtendXor(x: u32, y: u32)
    ensures ToU64(Signed32(Bitwise32(Xor, x, y))) == Bitwise64(Xor, ToU64(Signed32(x)), ToU64(Signed32(y)))
  {
    Pow2Near32();
    var a, s, b, t := x % 0x8000_0000, x / 0x8000_0000, y % 0x8000_0000, y / 0x8000_0000;
    SplitAtSign(x);
    SplitAtSign(y);
    var r, u := Bits(Xor, 31, a, b), Bit(Xor, s, t);
    XorExtended(31, 1, a, s, b, t);
    XorExtended(31, 33, a, s, b, t);
    JoinAtSign(r, u);
    SplitAtSign(Extended(31, 1, r, u));
  }

  lemma WrapImm(imm: i32)
    ensures Signed32(ToU32(imm)) == imm && ToU32(ToU64(imm)) == ToU32(imm)
  {
  }

  lemma WrapU32(r: u32)
    ensures ToU32(ToU64(Signed32(r))) == r
  {
  }

  // ---------------------------------------------------------------- the blinded emitters

  lemma RecoveredValue(wide: bool, imm: i32, random: u32)
    ensures BinaryValue(XorOp, wide, Low(wide, ToU64(BlindedImm(imm, random))), ToU64(Signed32(random)))
            == Low(wide, ToU64(imm))
  {
    hide Bitwise32, Bitwise64, ToU32, ToU64, Signed32;
    var u := ToU32(imm);
    var x := Bitwise32(Xor, u, random);
    WrapImm(imm);
    XorTwice32(u, random);
    WrapU32(x);
    WrapU32(random);
    SignExtendXor(x, random);
    Idempotent32(x);
  }

  lemma Idempotent32(x: u32)
    ensures ToU32(x) == x
  {
  }

  /** The scratch register ends up holding the immediate; nothing else but flags changes. */
  lemma RecoveredImm(wide: bool, temp: Reg, imm: i32, random: u32, m: Machine, junk: Flags)
    ensures var o := Exec(RecoverImm(wide, temp, imm, random), m, junk);
      && o.Some? && o.value.regs == m.regs[temp := Low(wide, ToU64(imm))]
      && o.value.stack == m.stack && o.value.mem == m.mem
  {
    hide BlindedImm, BinaryValue, BinaryFlags, Low, ToU64, Signed32;
    RecoveredValue(wide, imm, random);
    MovIsLow(wide);
    var i1, i2 := Ri(MovOp, wide, temp, BlindedImm(imm, random)), Ri(XorOp, wide, temp, Signed32(random));
    ExecOne(i1, [i2], m, junk);
    ExecOne(i2, [], Do(i1, m, junk).value, junk);
    assert [i1] + [i2] == RecoverImm(wide, temp, imm, random) && [i2] + [] == [i2];
  }

  lemma MovIsLow(wide: bool)
    ensures forall a, b :: BinaryValue(MovOp, wide, a, b) == Low(wide, b)
  {
  }

  /** An operation reads its second operand only through the operand width. */
  lemma OperandWidth(op: Binary, wide: bool, a: u64, b: u64, was: Flags)
    ensures BinaryValue(op, wide, a, Low(wide, b)) == BinaryValue(op, wide, a, b)
    ensures BinaryFlags(op, wide, a, Low(wide, b), was) == BinaryFlags(op, wide, a, b, was)
  {
    hide Bitwise32, Bitwise64, ToU32, Signed32, Signed64, LogicFlags, Modulus;
    if !wide {
      Idempotent32(ToU32(b));
      OffsetWraps(a, b);
    }
  }

  lemma OffsetWraps(a: u64, b: u64)
    ensures ToU32(a + ToU32(b)) == ToU32(a + b) && ToU32(a - ToU32(b)) == ToU32(a - b)
  {
    var w, q := 0x1_0000_0000, b / 0x1_0000_0000;
    assert b == q * w + ToU32(b);
    ShiftedWraps(a + ToU32(b), q);
    ShiftedWraps(a - b, q);
  }

  lemma ShiftedWraps(v: int, q: int)
    ensures ToU32(v + q * 0x1_0000_0000) == ToU32(v)
  {
    var w := 0x1_0000_0000;
    assert v == (v / w) * w + v % w;
    ModUnique(v + q * w, w, v / w + q, v % w);
  }

  /** Everything but the scratch register agrees; after a compare or test (or arithmetic) so do the flags. */
  predicate SameBut(temp: Reg, flagsToo: bool, p: Option<Machine>, q: Option<Machine>)
  {
    && p.Some? && q.Some?
    && (forall r: Reg :: r != temp ==> p.value.regs[r] == q.value.regs[r])
    && p.value.stack == q.value.stack && p.value.mem == q.value.mem
    && (flagsToo ==> p.value.flags == q.value.flags)
  }

  /** Blinded arithmetic, compares and tests: same destination, same flags, same other registers. */
  lemma BinaryBlindedAgrees(op: Binary, wide: bool, dst: Reg, imm: i32, random: u32, m: Machine, junk: Flags)
    ensures SameBut(Scratch(dst), op != MovOp,
                    Exec(BinaryBlinded(op, wide, dst, imm, random), m, junk), Exec([Ri(op, wide, dst, imm)], m, junk))
  {
    hide BinaryValue, BinaryFlags, RecoverImm, ToU64, Low;
    var temp := Scratch(dst);
    RecoveredImm(wide, temp, imm, random, m, junk);
    var m1 := Exec(RecoverImm(wide, temp, imm, random), m, junk).value;
    ExecAppend(RecoverImm(wide, temp, imm, random), [Rr(op, wide, dst, temp)], m, junk);
    ExecOne(Rr(op, wide, dst, temp), [], m1, junk);
    ExecOne(Ri(op, wide, dst, imm), [], m, junk);
    assert forall i: XInst :: [i] + [] == [i];
    OperandWidth(op, wide, m.regs[dst], ToU64(imm), m1.flags);
    OperandWidth(op, wide, m.regs[dst], ToU64(imm), m.flags);
    FlagsForget(op, wide, m.regs[dst], ToU64(imm), m1.flags, m.flags);
  }

  lemma FlagsForget(op: Binary, wide: bool, a: u64, b: u64, f: Flags, g: Flags)
    ensures op != MovOp ==> BinaryFlags(op, wide, a, b, f) == BinaryFlags(op, wide, a, b, g)
  {
  }

  /** A loaded immediate. */
  lemma LoadImmLoads(dst: Reg, v: u64, m: Machine, junk: Flags)
    ensures Exec(LoadImm(dst, v), m, junk) == Some(Set(m, dst, v))
  {
    ExecOne(LoadImm(dst, v)[0], [], m, junk);
    assert forall i: XInst :: [i] + [] == [i];
  }

  /** A blinded load gives the same register; only the scratch register and flags differ. */
  lemma LoadImmBlindedAgrees(dst: Reg, v: u64, random: u64, m: Machine, junk: Flags)
    ensures SameBut(Scratch(dst), false, Exec(LoadImmBlinded(dst, v, random), m, junk), Exec(LoadImm(dst, v), m, junk))
  {
    hide Bitwise64, LoadImm, Exec, Do, Signed64;
    var masked, temp := Bitwise64(Xor, v, random), Scratch(dst);
    LoadImmLoads(dst, v, m, junk);
    LoadImmLoads(dst, masked, m, junk);
    var m1 := Set(m, dst, masked);
    XorTwice64(v, random);
    assert forall i: XInst :: [i] + [] == [i];
    ExecDone(junk);
    if FitsI32(random) {
      var i := Ri(XorOp, true, dst, Signed64(random));
      ExecAppend(LoadImm(dst, masked), [i], m, junk);
      ExecOne(i, [], m1, junk);
      XorImmDoes(dst, random, m1, junk);
    } else {
      var i, j := MovAbs(temp, random), Rr(XorOp, true, dst, temp);
      ExecAppend(LoadImm(dst, masked), [i, j], m, junk);
      ExecOne(i, [j], m1, junk);
      assert [i] + [j] == [i, j];
      XorScratchDoes(dst, random, m1, junk);
      ExecOne(j, [], Set(m1, temp, random), junk);
    }
  }

  lemma ExecDone(junk: Flags)
    ensures forall m: Machine :: Exec([], m, junk) == Some(m)
  {
  }

  lemma XorImmDoes(dst: Reg, random: u64, m: Machine, junk: Flags)
    requires FitsI32(random)
    ensures var o := Do(Ri(XorOp, true, dst, Signed64(random)), m, junk);
      o.Some? && o.value.(flags := m.flags) == Set(m, dst, Bitwise64(Xor, m.regs[dst], random))
  {
    hide Bitwise64, LogicFlags;
    assert ToU64(Signed64(random)) == random;
  }

  lemma XorScratchDoes(dst: Reg, random: u64, m: Machine, junk: Flags)
    ensures var temp := Scratch(dst); Do(MovAbs(temp, random), m, junk) == Some(Set(m, temp, random))
    ensures var temp := Scratch(dst); var m1 := Set(m, temp, random); var o := Do(Rr(XorOp, true, dst, temp), m1, junk);
      o.Some? && o.value.(flags := m.flags) == Set(m1, dst, Bitwise64(Xor, m.regs[dst], random))
  {
    hide Bitwise64, LogicFlags;
  }

  /** A store of `n` bytes depends on the value only modulo 2^(8n). */
  lemma {:induction false} StoreLow(mem: Memory, a: int, v: nat, w: nat, n: nat)
    requires v % Pow2(8 * n) == w % Pow2(8 * n)
    ensures Store(mem, a, v, n) == Store(mem, a, w, n)
    decreases n
  {
    if n > 0 {
      var p := Pow2(8 * (n - 1));
      Pow2Add(8, 8 * (n - 1));
      Pow2Widths();
      ModByte(v, p);
      ModByte(w, p);
      StoreLow(mem[ToU64(a) := v % 256], a + 1, v / 256, w / 256, n - 1);
    }
  }

  lemma ModByte(v: nat, p: nat)
    requires p > 0
    ensures (v % (256 * p)) % 256 == v % 256 && (v % (256 * p)) / 256 == (v / 256) % p
  {
    var q, r := (v / 256) / p, (v / 256) % p;
    assert v / 256 == q * p + r;
    assert v == q * (256 * p) + (256 * r + v % 256);
    ModUnique(v, 256 * p, q, 256 * r + v % 256);
  }

  lemma StoreNarrow(mem: Memory, a: int, v: u64, size: nat)
    requires size in {1, 2, 4, 8}
    ensures Store(mem, a, Low(size == 8, v), size) == Store(mem, a, v, size)
  {
    if size != 8 {
      var p, k := Pow2(8 * size), Pow2(32 - 8 * size);
      Pow2Add(8 * size, 32 - 8 * size);
      Pow2Widths();
      ModMod(v, p, k);
      StoreLow(mem, a, ToU32(v), v, size);
    }
  }

  lemma ModMod(v: nat, p: nat, k: nat)
    requires p > 0 && k > 0
    ensures (v % (p * k)) % p == v % p
  {
    var q, r := v / (p * k), v % (p * k);
    assert v == (p * k) * q + r;
    assert v == p * (k * q) + r;
    assert r == p * (r / p) + r % p;
    ModUnique(v, p, k * q + r / p, r % p);
  }

  /** A blinded store writes the same bytes and keeps every register but the scratch. */
  lemma StoreBlindedAgrees(size: nat, base: Reg, offset: i32, imm: i32, random: u32, m: Machine, junk: Flags)
    requires size in {1, 2, 4, 8} && base != R11
    ensures SameBut(R11, false, Exec(StoreBlinded(size, base, offset, imm, random), m, junk),
                    Exec([StoreImm(size, base, offset, imm)], m, junk))
  {
    hide RecoverImm, ToU64, Low, Store;
    RecoveredImm(size == 8, R11, imm, random, m, junk);
    var m1 := Exec(RecoverImm(size == 8, R11, imm, random), m, junk).value;
    ExecAppend(RecoverImm(size == 8, R11, imm, random), [StoreReg(size, R11, base, offset)], m, junk);
    ExecOne(StoreReg(size, R11, base, offset), [], m1, junk);
    ExecOne(StoreImm(size, base, offset, imm), [], m, junk);
    assert forall i: XInst :: [i] + [] == [i];
    StoreNarrow(m.mem, ToU64(m.regs[base] + offset), ToU64(imm), size);
  }

  /** No eBPF register lives in the scratch register of a blinded instruction on a mapped destination. */
  lemma ScratchIsFree(dst: Reg)
    ensures Mapped(dst) ==> Scratch(dst) == R11 && !Mapped(R11)
  {
    assert REGISTER_MAP == [0, 7, 6, 2, 10, 8, 3, 12, 13, 14, 15];
  }
}
