/** The A64 instructions the ARM64 back end uses for constants, arithmetic, compares and stores. */
module Arm64 {
  import opened Words
  import opened Semantics
  import opened HostFlags

  /** Register 31 reads as zero here; no sequence below writes it except to discard a result. */
  type Reg = r: int | 0 <= r < 32

  const RZ: Reg := 31
  const TEMP: Reg := 24
  const TEMP_DIV: Reg := 25

  /** eBPF r0 to r10. */
  const ARM_REGISTER_MAP: seq<Reg> := [5, 0, 1, 2, 3, 4, 19, 20, 21, 22, 23]

  predicate Mapped(r: Reg) { r in ARM_REGISTER_MAP }

  lemma MappedIsNotScratch(r: Reg)
    requires Mapped(r)
    ensures r !in {TEMP, TEMP_DIV, RZ}
  {
    assert ARM_REGISTER_MAP == [5, 0, 1, 2, 3, 4, 19, 20, 21, 22, 23];
  }

  type ARegs = r: seq<u64> | |r| == 32 witness seq(32, i => 0)

  datatype Arm = Arm(regs: ARegs, flags: Flags, mem: Memory)

  datatype MoveOp = MovN | MovZ | MovK

  /** The operations with two register operands, including the two with a third addend of zero. */
  datatype RegOp = AAdd | ASub | AAnd | AOrr | AEor | ALsl | ALsr | AAsr | AUdiv | ASdiv | AMul

  datatype AInst =
    | MoveWide(wide: bool, mop: MoveOp, rd: Reg, block: nat, imm16: u16)
    | Op3(wide: bool, op: RegOp, rd: Reg, rn: Reg, rm: Reg)
    | AddSubImm(wide: bool, sub: bool, rd: Reg, rn: Reg, imm12: nat)
    | MSub(wide: bool, rd: Reg, rn: Reg, rm: Reg, ra: Reg)
    | SignExtend(wide: bool, bits: nat, rd: Reg, rn: Reg)
    | ZeroExtend(bits: nat, rd: Reg, rn: Reg)
    | Reverse(wide: bool, group: nat, rd: Reg, rn: Reg)
    | Compare(wide: bool, rn: Reg, rm: Reg)
    | CompareImm(wide: bool, rn: Reg, imm12: nat)
    | TestBits(wide: bool, rn: Reg, rm: Reg)
    | StoreA(size: nat, rt: Reg, rn: Reg, offset: int)

  function Get(m: Arm, r: Reg): u64 { if r == RZ then 0 else m.regs[r] }

  /** A 32-bit result is zero-extended. */
  function Put(m: Arm, wide: bool, r: Reg, v: u64): Arm
  {
    if r == RZ then m else m.(regs := m.regs[r := Low(wide, v)])
  }

  /** 2^(16 * block). */
  function Weight(block: nat): int
  {
    if block == 0 then 1 else if block == 1 then 0x1_0000 else if block == 2 then 0x1_0000_0000 else 0x1_0000_0000_0000
  }

  /** The 16 bits of `v` at position 16 * `block`. */
  function Block(v: u64, block: nat): u16
  {
    if block == 0 then v % 0x1_0000
    else if block == 1 then v / 0x1_0000 % 0x1_0000
    else if block == 2 then v / 0x1_0000 / 0x1_0000 % 0x1_0000
    else v / 0x1_0000 / 0x1_0000 / 0x1_0000 % 0x1_0000
  }

  /** MOVZ clears the other blocks, MOVN sets them (and its own to the complement), MOVK keeps them. */
  function MoveValue(mop: MoveOp, wide: bool, was: u64, block: nat, imm16: u16): u64
  {
    match mop
    case MovZ => ToU64(imm16 * Weight(block))
    case MovN => ToU64(-1 - imm16 * Weight(block))
    case MovK => ToU64(was + (imm16 - Block(was, block)) * Weight(block))
  }

  /** UDIV and SDIV give 0 for a zero divisor; SDIV of the least value by -1 wraps to itself. */
  function OpValue(op: RegOp, wide: bool, a: u64, b: u64): u64
  {
    var x, y, k := Low(wide, a), Low(wide, b), Pow2(if wide then b % 64 else b % 32);
    match op
    case AAdd => ToU64(x + y)
    case ASub => ToU64(x - y)
    case AAnd => if wide then Bitwise64(And, x, y) else Bitwise32(And, x, y)
    case AOrr => if wide then Bitwise64(Or, x, y) else Bitwise32(Or, x, y)
    case AEor => if wide then Bitwise64(Xor, x, y) else Bitwise32(Xor, x, y)
    case ALsl => ToU64(x * k)
    case ALsr => ShiftRight(x, k)
    case AAsr => ToU64(SignedLow(wide, a) / k)
    case AUdiv => UDiv(x, y)
    case ASdiv => ToU64(SDiv(-Modulus(wide) / 2, SignedLow(wide, a), SignedLow(wide, b)))
    case AMul => ToU64(x * y)
  }

  /** REV16, REV32 and REV: the bytes of each group of two, four or eight bytes reversed. */
  function ReverseGroups(wide: bool, group: nat, x: u64): u64
  {
    Pow2Widths();
    if group == 2 then
      SwapBytes(2, Block(x, 0)) + 0x1_0000 * SwapBytes(2, Block(x, 1)) +
      if wide then 0x1_0000_0000 * SwapBytes(2, Block(x, 2)) + 0x1_0000_0000_0000 * SwapBytes(2, Block(x, 3)) else 0
    else if group == 4 then SwapBytes(4, ToU32(x)) + if wide then 0x1_0000_0000 * SwapBytes(4, ToU32(x / 0x1_0000_0000)) else 0
    else SwapBytes(8, x)
  }

  function Do(i: AInst, m: Arm): Arm
  {
    match i
    case MoveWide(wide, mop, rd, block, imm16) => Put(m, wide, rd, MoveValue(mop, wide, Get(m, rd), block, imm16))
    case Op3(wide, op, rd, rn, rm) => Put(m, wide, rd, OpValue(op, wide, Get(m, rn), Get(m, rm)))
    case AddSubImm(wide, sub, rd, rn, imm12) => 
      Put(m, wide, rd, if sub then ToU64(Get(m, rn) - imm12) else ToU64(Get(m, rn) + imm12))
    case MSub(wide, rd, rn, rm, ra) => Put(m, wide, rd, ToU64(Get(m, ra) - Get(m, rn) * Get(m, rm)))
    case SignExtend(wide, bits, rd, rn) =>
      var v := Get(m, rn);
      Put(m, wide, rd, ToU64(if bits == 8 then Signed8(v % 0x100) else if bits == 16 then Signed16(ToU16(v)) else Signed32(ToU32(v))))
    case ZeroExtend(bits, rd, rn) => Put(m, true, rd, if bits == 16 then ToU16(Get(m, rn)) else ToU32(Get(m, rn)))
    case Reverse(wide, group, rd, rn) =>
      Put(m, wide, rd, ReverseGroups(wide, group, Low(wide, Get(m, rn))))
    case Compare(wide, rn, rm) => m.(flags := SubFlags(wide, Get(m, rn), Get(m, rm)))
    case CompareImm(wide, rn, imm12) => m.(flags := SubFlags(wide, Get(m, rn), ToU64(imm12)))
    case TestBits(wide, rn, rm) => m.(flags := TestFlags(wide, Get(m, rn), Get(m, rm)).(borrow := true))
    case StoreA(size, rt, rn, offset) => m.(mem := Store(m.mem, ToU64(Get(m, rn) + offset), Get(m, rt), size))
  }

  /**
    What an A64 processor tests for a condition code: the low bit inverts, except that code 15 is like 14. The carry of
    a subtraction is set when there is no borrow, and ANDS clears it.
    */
  predicate CodeHolds(code: nat, f: Flags)
  {
    var test := match code / 2 % 8
                case 0 => f.zero
                case 1 => !f.borrow
                case 2 => f.sign
                case 3 => f.overflow
                case 4 => !f.borrow && !f.zero
                case 5 => f.sign == f.overflow
                case 6 => f.sign == f.overflow && !f.zero
                case _ => true;
    if code / 2 % 8 == 7 then true else test != (code % 2 == 1)
  }

  function Exec(code: seq<AInst>, m: Arm): Arm
  {
    if code == [] then m else Exec(code[1..], Do(code[0], m))
  }

  lemma {:induction false} ExecAppend(c: seq<AInst>, d: seq<AInst>, m: Arm)
    ensures Exec(c + d, m) == Exec(d, Exec(c, m))
    decreases |c|
  {
    if c == [] {
      assert c + d == d;
    } else {
      assert (c + d)[1..] == c[1..] + d;
      ExecAppend(c[1..], d, Do(c[0], m));
    }
  }

  lemma ExecOne(i: AInst, rest: seq<AInst>, m: Arm)
    ensures Exec([i] + rest, m) == Exec(rest, Do(i, m)) && Exec([i], m) == Do(i, m)
  {
    assert ([i] + rest)[1..] == rest;
  }
}
