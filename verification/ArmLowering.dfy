/** The ARM64 lowering of ALU, compare and store-immediate instructions keeps the interpreter's meaning, except where shown. */
module ArmLowering {
  import opened Words
  import opened Isa
  import opened Semantics
  import opened HostFlags
  import opened Arm64
  import opened ArmConstants
  import Blinding

  // ---------------------------------------------------------------- lowering

  /** A constant, blinded with the given random value if there is one. */
  function LoadImm(wide: bool, rd: Reg, imm: i32, blind: Option<u64>): seq<AInst>
  {
    match blind
    case None => LoadConstant(wide, rd, ToU64(imm))
    case Some(random) => LoadBlinded(wide, rd, ToU64(imm), random)
  }

  /** `divmod`: the quotient, and for a modulo the dividend less divisor times quotient. */
  function DivMod(wide: bool, isMod: bool, offset: i16, rd: Reg, rn: Reg, rm: Reg): seq<AInst>
  {
    var q := if isMod then TEMP_DIV else rd;
    [Op3(wide, if offset == 1 then ASdiv else AUdiv, q, rn, rm)] + if isMod then [MSub(wide, rd, rm, q, rn)] else []
  }

  function MovCode(wide: bool, offset: i16, dst: Reg, src: Reg): seq<AInst>
  {
    if offset == 8 then [SignExtend(wide, 8, dst, src)]
    else if offset == 16 then [SignExtend(wide, 16, dst, src)]
    else if offset == 32 && wide then [SignExtend(true, 32, dst, src)]
    else [Op3(wide, AOrr, dst, RZ, src)]
  }

  function RegOpOf(alu: AluOp): RegOp
  {
    match alu
    case OpSub => ASub
    case OpMul => AMul
    case OpOr => AOrr
    case OpAnd => AAnd
    case OpXor => AEor
    case OpLsh => ALsl
    case OpRsh => ALsr
    case OpArsh => AAsr
    case _ => AAdd
  }

  function RegCode(wide: bool, alu: AluOp, offset: i16, dst: Reg, src: Reg): seq<AInst>
  {
    match alu
    case OpDiv => DivMod(wide, false, offset, dst, dst, src)
    case OpMod => DivMod(wide, true, offset, dst, dst, src)
    case OpMov => MovCode(wide, offset, dst, src)
    case OpNeg => [Op3(wide, ASub, dst, RZ, dst)]
    case _ => [Op3(wide, RegOpOf(alu), dst, dst, src)]
  }

  /** A byte-order conversion; the three widths are the ones the validator lets through. */
  function EndCode(kind: EndKind, imm: i32, dst: Reg): seq<AInst>
    requires imm in {16, 32, 64}
  {
    (if kind == ToLE then [] else [Reverse(kind == Swap || imm == 64, imm / 8, dst, dst)]) +
    (if imm == 16 then [ZeroExtend(16, dst, dst)]
     else if imm == 32 && kind != ToBE then [ZeroExtend(32, dst, dst)] else [])
  }

  /** A non-negative 12-bit immediate goes into the instruction unless constants are blinded. */
  predicate Simple(imm: i32, blind: Option<u64>) { 0 <= imm < 0x1000 && blind.None? }

  /** Any other immediate is first loaded into the temporary register and the register form is used. */
  function AluCode(wide: bool, alu: AluOp, fromReg: bool, offset: i16, dst: Reg, src: Reg, imm: i32, blind: Option<u64>): seq<AInst>
  {
    if fromReg || alu == OpNeg then RegCode(wide, alu, offset, dst, src)
    else if alu == OpMov then LoadImm(wide, dst, imm, blind)
    else if (alu == OpAdd || alu == OpSub) && Simple(imm, blind) then [AddSubImm(wide, alu == OpSub, dst, dst, imm)]
    else LoadImm(wide, TEMP, imm, blind) + RegCode(wide, alu, offset, dst, TEMP)
  }

  /** `to_condition`: the condition code of the branch. */
  function ToCondition(cond: Cond): (code: nat)
    ensures code < 14
  {
    match cond
    case JEQ => 0
    case JNE => 1
    case JSET => 1
    case JGE => 2
    case JLT => 3
    case JGT => 8
    case JLE => 9
    case JSGE => 10
    case JSLT => 11
    case JSGT => 12
    case JSLE => 13
  }

  lemma CodeIsCondition(cond: Cond, f: Flags)
    ensures CodeHolds(ToCondition(cond), f) <==> ConditionHolds(cond, f)
  {
  }

  /** The flag-setting part of a conditional jump; the branch then tests `ToCondition(cond)`. */
  function JumpCode(wide: bool, cond: Cond, fromReg: bool, dst: Reg, src: Reg, imm: i32, blind: Option<u64>): seq<AInst>
  {
    if fromReg then [if cond == JSET then TestBits(wide, dst, src) else Compare(wide, dst, src)]
    else if cond != JSET && Simple(imm, blind) then [CompareImm(wide, dst, imm)]
    else LoadImm(wide, TEMP, imm, blind) + [if cond == JSET then TestBits(wide, dst, TEMP) else Compare(wide, dst, TEMP)]
  }

  const OFFSET_REGISTER: Reg := 26

  /** Where the context is kept for helper calls: the same register. */
  const CONTEXT: Reg := 26

  function Magnitude(offset: i16): nat
  {
    var n: int := offset;
    if n < 0 then -n else n
  }

  /** A store to `[base + offset]`: offsets the instruction cannot hold are first added to a temporary register. */
  function StoreTo(size: nat, rt: Reg, base: Reg, offset: i16, blind: Option<u64>): seq<AInst>
  {
    var sub, magnitude := offset < 0, Magnitude(offset);
    if -256 <= offset < 256 then [StoreA(size, rt, base, offset)]
    else if magnitude < 0x1000 then [AddSubImm(true, sub, TEMP_DIV, base, magnitude), StoreA(size, rt, TEMP_DIV, 0)]
    else
      LoadImm(true, OFFSET_REGISTER, magnitude, blind) +
      [Op3(true, if sub then ASub else AAdd, TEMP_DIV, base, OFFSET_REGISTER), StoreA(size, rt, TEMP_DIV, 0)]
  }

  /** A store of an immediate: the constant is always loaded with a 32-bit move. */
  function StoreCode(size: nat, dst: Reg, offset: i16, imm: i32, blind: Option<u64>): seq<AInst>
  {
    LoadImm(false, TEMP, imm, blind) + StoreTo(size, TEMP, dst, offset, blind)
  }

  // ---------------------------------------------------------------- loading the immediate

  /** The target register holds the value; the other registers, except possibly the division temporary, are unchanged. */
  predicate Loaded(wide: bool, rd: Reg, v: u64, m: Arm, m': Arm)
  {
    && m'.regs[rd] == Low(wide, v) && m'.mem == m.mem && m'.flags == m.flags
    && (forall r: Reg :: r != rd && r != TEMP_DIV ==> m'.regs[r] == m.regs[r])
  }

  lemma LoadImmLoads(wide: bool, rd: Reg, imm: i32, blind: Option<u64>, m: Arm)
    requires rd != RZ && rd != TEMP_DIV
    ensures Loaded(wide, rd, ToU64(imm), m, Exec(LoadImm(wide, rd, imm, blind), m))
  {
    hide LoadConstant, LoadBlinded, Exec, Low;
    match blind
    case None => LoadConstantLoads(wide, rd, ToU64(imm), m);
    case Some(random) => LoadBlindedLoads(wide, rd, ToU64(imm), random, m);
  }

  // ---------------------------------------------------------------- values

  lemma LowTwice(wide: bool, b: u64)
    ensures Low(wide, Low(wide, b)) == Low(wide, b)
  {
  }

  /** Operations read their operands only in the operation width. */
  lemma OpWidth(op: RegOp, wide: bool, a: u64, b: u64)
    ensures OpValue(op, wide, a, Low(wide, b)) == OpValue(op, wide, a, b)
  {
    if !wide {
      Mod32(b);
    }
    hide Bitwise32, Bitwise64, Pow2, UDiv, SDiv;
  }

  lemma Mod32(b: u64)
    ensures ToU32(b) % 32 == b % 32
  {
  }

  lemma MulLow(a: u64, b: u64)
    ensures ToU32(ToU64(ToU32(a) * ToU32(b))) == ToU32(a * b)
  {
    var w, p, q := 0x1_0000_0000, a / 0x1_0000_0000, b / 0x1_0000_0000;
    ModTimes(a, ToU32(a), p, b, ToU32(b), q, w);
    Wrap32(ToU32(a) * ToU32(b));
  }

  lemma Wrap32(v: int)
    ensures ToU32(ToU64(v)) == ToU32(v)
  {
  }

  predicate Plain(alu: AluOp) { alu !in {OpDiv, OpMod, OpMov, OpNeg} }

  /** Each register operation computes the interpreter's value in the operation width. */
  lemma OpComputes(wide: bool, alu: AluOp, fromReg: bool, offset: i16, a: u64, b: u64)
    requires Plain(alu)
    ensures Low(wide, OpValue(RegOpOf(alu), wide, a, b)) == AluValue(wide, alu, fromReg, offset, a, b)
  {
    SumComputes(wide, a, b);
    LogicComputes(wide, a, b);
    ShiftComputes(wide, a, b);
    SameEither(wide, alu, fromReg, offset, a, b);
    hide AluValue, OpValue, Low;
  }

  lemma SameEither(wide: bool, alu: AluOp, fromReg: bool, offset: i16, a: u64, b: u64)
    requires Plain(alu)
    ensures AluValue(wide, alu, fromReg, offset, a, b) == AluValue(wide, alu, true, 0, a, b)
  {
    hide Bitwise32, Bitwise64, Pow2, ShiftRight;
  }

  lemma SumWraps(a: u64, b: u64)
    ensures ToU32(ToU32(a) + ToU32(b)) == ToU32(a + b) && ToU32(ToU32(a) - ToU32(b)) == ToU32(a - b)
  {
    var q := a / 0x1_0000_0000;
    assert a == q * 0x1_0000_0000 + ToU32(a);
    Blinding.OffsetWraps(ToU32(a), b);
    Blinding.ShiftedWraps(ToU32(a) + b, q);
    Blinding.ShiftedWraps(ToU32(a) - b, q);
  }

  lemma SumComputes(wide: bool, a: u64, b: u64)
    ensures Low(wide, OpValue(AAdd, wide, a, b)) == AluValue(wide, OpAdd, true, 0, a, b)
    ensures Low(wide, OpValue(ASub, wide, a, b)) == AluValue(wide, OpSub, true, 0, a, b)
    ensures Low(wide, OpValue(AMul, wide, a, b)) == AluValue(wide, OpMul, true, 0, a, b)
  {
    hide Bitwise32, Bitwise64, Pow2, ShiftRight, UDiv, SDiv, ToU32, ToU64;
    SumWraps(a, b);
    Wrap32(ToU32(a) + ToU32(b));
    Wrap32(ToU32(a) - ToU32(b));
    MulLow(a, b);
  }

  lemma LogicComputes(wide: bool, a: u64, b: u64)
    ensures Low(wide, OpValue(AAnd, wide, a, b)) == AluValue(wide, OpAnd, true, 0, a, b)
    ensures Low(wide, OpValue(AOrr, wide, a, b)) == AluValue(wide, OpOr, true, 0, a, b)
    ensures Low(wide, OpValue(AEor, wide, a, b)) == AluValue(wide, OpXor, true, 0, a, b)
  {
    hide Bitwise32, Bitwise64, Pow2, ShiftRight, UDiv, SDiv;
  }

  lemma ShiftComputes(wide: bool, a: u64, b: u64)
    ensures Low(wide, OpValue(ALsl, wide, a, b)) == AluValue(wide, OpLsh, true, 0, a, b)
    ensures Low(wide, OpValue(ALsr, wide, a, b)) == AluValue(wide, OpRsh, true, 0, a, b)
    ensures Low(wide, OpValue(AAsr, wide, a, b)) == AluValue(wide, OpArsh, true, 0, a, b)
  {
    hide Pow2, Bitwise32, Bitwise64, ToU32, ToU64, Signed32, Signed64, ShiftRight, Modulus, UDiv, SDiv;
    var k := Pow2(ShiftAmount(wide, b));
    Wrap32(ToU32(a) * k);
    Wrap32(Signed32(ToU32(a)) / k);
    LowTwice(wide, a);
    SmallLow(wide, Low(wide, a), ShiftRight(Low(wide, a), k));
  }

  lemma SmallLow(wide: bool, a: u64, v: nat)
    requires v <= a && Low(wide, a) == a
    ensures Low(wide, v) == v
  {
  }

  lemma {:induction false} OrZero(n: nat, b: nat)
    requires b < Pow2(n)
    ensures Bits(Or, n, 0, b) == b
  {
    if n > 0 {
      OrZero(n - 1, b / 2);
    }
  }

  lemma OrZeroWords(b: u64)
    ensures Bitwise64(Or, 0, b) == b && Bitwise32(Or, 0, ToU32(b)) == ToU32(b)
  {
    Pow2Widths();
    hide Bits, Pow2;
    OrZero(64, b);
    OrZero(32, ToU32(b));
  }

  lemma ZeroLow()
    ensures ToU32(0) == 0 && ToU64(0) == 0
  {
  }

  lemma MovComputes(wide: bool, b: u64)
    ensures Low(wide, OpValue(AOrr, wide, 0, b)) == Low(wide, b)
  {
    hide Bitwise64, Bitwise32, Pow2, UDiv, SDiv, ShiftRight, ToU32, ToU64;
    OrZeroWords(b);
    ZeroLow();
    LowTwice(wide, b);
  }

  lemma NegComputes(wide: bool, b: u64)
    ensures Low(wide, OpValue(ASub, wide, 0, b)) == AluValue(wide, OpNeg, true, 0, b, b)
  {
    hide Bitwise64, Bitwise32, Pow2, UDiv, SDiv, ShiftRight, ToU32, ToU64;
    ZeroLow();
    SumWraps(0, b);
    Wrap32(0 - ToU32(b));
  }

  // ---------------------------------------------------------------- division

  lemma DivComputes(wide: bool, offset: i16, a: u64, b: u64)
    requires 0 <= offset <= 1
    ensures Low(wide, OpValue(if offset == 1 then ASdiv else AUdiv, wide, a, b)) == DivValue(wide, offset, a, b)
  {
    hide Bitwise32, Bitwise64, Pow2, ShiftRight, SDiv;
    SmallLow(wide, Low(wide, a), UDiv(Low(wide, a), Low(wide, b)));
    var x, y := SignedLow(wide, a), SignedLow(wide, b);
    Wrap32(SDiv(-Modulus(wide) / 2, x, y));
  }

  /** A difference of congruent terms is congruent. */
  lemma ModMinus(a: int, x: int, p: int, u: int, v: int, w: int)
    requires w > 0 && a == x + p * w && u % w == v % w
    ensures (a - u) % w == (x - v) % w
  {
    var k := u / w - v / w;
    assert u == (u / w) * w + u % w && v == (v / w) * w + v % w;
    assert u - v == k * w;
    assert a - u == (x - v) + (p - k) * w;
    ModShift(x - v, p - k, w);
  }

  /** The remainder from the quotient, all modulo the width: dividend `a`, divisor `b`, quotient register `q`. */
  lemma RemainderWraps(w: int, a: int, b: int, q: int, x: int, y: int, s: int)
    requires w > 0 && a % w == x % w && b % w == y % w && q % w == s % w
    ensures (a - b * q) % w == (x - y * s) % w
  {
    var p, r, t := a / w - x / w, b / w - y / w, q / w - s / w;
    assert a == (a / w) * w + a % w && x == (x / w) * w + x % w;
    assert a == x + p * w;
    assert b == (b / w) * w + b % w && y == (y / w) * w + y % w;
    assert b == y + r * w;
    assert q == (q / w) * w + q % w && s == (s / w) * w + s % w;
    assert q == s + t * w;
    ModTimes(b, y, r, q, s, t, w);
    ModMinus(a, x, p, b * q, y * s, w);
  }

  /** Dividend less divisor times quotient is the remainder, zero divisors and overflow included. */
  lemma RemainderIs(wide: bool, offset: i16, a: u64, b: u64)
    requires 0 <= offset <= 1
    ensures var w := Modulus(wide); var x, y := SignedLow(wide, a), SignedLow(wide, b);
      ModValue(wide, offset, a, b) ==
        if offset == 1 then (x - y * SDiv(-w / 2, x, y)) % w
        else (Low(wide, a) - Low(wide, b) * UDiv(Low(wide, a), Low(wide, b))) % w
  {
    var w, x, y := Modulus(wide), SignedLow(wide, a), SignedLow(wide, b);
    if offset == 1 {
      SignedRemainder(w, x, y);
    } else {
      UnsignedRemainder(Low(wide, a), Low(wide, b), w);
    }
    hide CDiv, UDiv, SDiv;
  }

  lemma SignedRemainder(w: int, x: int, y: int)
    requires w > 0 && w % 2 == 0
    ensures SMod(-w / 2, x, y) % w == (x - y * SDiv(-w / 2, x, y)) % w
  {
    if y != 0 && x == -w / 2 && y == -1 {
      assert x - y * SDiv(-w / 2, x, y) == 0 + (-1) * w;
      ModShift(0, -1, w);
    }
  }

  lemma UnsignedRemainder(x: nat, y: nat, w: int)
    requires x < w
    ensures UMod(x, y) == (x - y * UDiv(x, y)) % w
  {
    if y != 0 {
      assert x == y * (x / y) + x % y;
    }
  }

  lemma CongruentLow(wide: bool, a: u64)
    ensures a % Modulus(wide) == Low(wide, a) % Modulus(wide) == SignedLow(wide, a) % Modulus(wide)
    ensures forall v: int :: Low(wide, ToU64(v)) == v % Modulus(wide)
  {
  }

  /** MSUB with the computed quotient leaves the interpreter's remainder. */
  lemma ModComputes(wide: bool, offset: i16, a: u64, b: u64)
    requires 0 <= offset <= 1
    ensures var q := Low(wide, OpValue(if offset == 1 then ASdiv else AUdiv, wide, a, b));
      Low(wide, ToU64(a - b * q)) == ModValue(wide, offset, a, b)
  {
    hide OpValue, ModValue, UDiv, SDiv, Low, SignedLow, Modulus, ToU64;
    var w, q := Modulus(wide), DivValue(wide, offset, a, b);
    DivComputes(wide, offset, a, b);
    RemainderIs(wide, offset, a, b);
    CongruentLow(wide, a);
    CongruentLow(wide, b);
    var x, y := SignedLow(wide, a), SignedLow(wide, b);
    QuotientResidue(wide, offset, a, b);
    PositiveModulus(wide);
    if offset == 1 {
      RemainderWraps(w, a, b, q, x, y, SDiv(-w / 2, x, y));
    } else {
      RemainderWraps(w, a, b, q, Low(wide, a), Low(wide, b), UDiv(Low(wide, a), Low(wide, b)));
    }
  }

  lemma PositiveModulus(wide: bool)
    ensures Modulus(wide) > 0
  {
  }

  lemma QuotientResidue(wide: bool, offset: i16, a: u64, b: u64)
    requires 0 <= offset <= 1
    ensures var w := Modulus(wide);
      DivValue(wide, offset, a, b) % w ==
        (if offset == 1 then SDiv(-w / 2, SignedLow(wide, a), SignedLow(wide, b)) else UDiv(Low(wide, a), Low(wide, b))) % w
  {
    hide CDiv, UDiv, SDiv;
  }

  // ---------------------------------------------------------------- whole instructions

  /** Destination set, every other mapped register and memory unchanged. */
  predicate Computes(dst: Reg, v: u64, m: Arm, m': Arm)
  {
    && m'.regs[dst] == v && m'.mem == m.mem
    && (forall r: Reg :: r !in {dst, TEMP, TEMP_DIV} ==> m'.regs[r] == m.regs[r])
  }

  lemma DivModRuns(wide: bool, isMod: bool, offset: i16, dst: Reg, src: Reg, m: Arm)
    requires dst !in {RZ, TEMP_DIV} && src !in {RZ, TEMP_DIV} && 0 <= offset <= 1
    ensures var v := m.regs[src];
      Computes(dst, if isMod then ModValue(wide, offset, m.regs[dst], v) else DivValue(wide, offset, m.regs[dst], v),
               m, Exec(DivMod(wide, isMod, offset, dst, dst, src), m))
  {
    hide OpValue, ModValue, DivValue, Low, ToU64, Exec;
    var a, v, op := m.regs[dst], m.regs[src], if offset == 1 then ASdiv else AUdiv;
    var q := if isMod then TEMP_DIV else dst;
    var i, j := Op3(wide, op, q, dst, src), MSub(wide, dst, src, q, dst);
    DivComputes(wide, offset, a, v);
    ModComputes(wide, offset, a, v);
    ExecOne(i, if isMod then [j] else [], m);
    assert [i] + [] == [i];
    ExecOne(j, [], Do(i, m));
  }

  lemma RegCodeRuns(wide: bool, alu: AluOp, fromReg: bool, offset: i16, dst: Reg, src: Reg, m: Arm)
    requires dst !in {RZ, TEMP_DIV} && src !in {RZ, TEMP_DIV} && (alu == OpDiv || alu == OpMod ==> 0 <= offset <= 1)
    requires alu == OpMov ==> fromReg
    ensures Computes(dst, AluValue(wide, alu, fromReg, offset, m.regs[dst], m.regs[src]), m, Exec(RegCode(wide, alu, offset, dst, src), m))
  {
    hide Exec, AluValue, OpValue, Low;
    var a, b := m.regs[dst], m.regs[src];
    match alu
    case OpDiv => DivModRuns(wide, false, offset, dst, src, m); DivModValues(wide, fromReg, offset, a, b);
    case OpMod => DivModRuns(wide, true, offset, dst, src, m); DivModValues(wide, fromReg, offset, a, b);
    case OpMov => MovRuns(wide, offset, dst, src, m);
    case OpNeg =>
      ExecOne(Op3(wide, ASub, dst, RZ, dst), [], m);
      NegComputes(wide, a);
      NegIgnores(wide, fromReg, offset, a, b);
    case _ =>
      ExecOne(Op3(wide, RegOpOf(alu), dst, dst, src), [], m);
      OpComputes(wide, alu, fromReg, offset, a, b);
  }

  lemma DivModValues(wide: bool, fromReg: bool, offset: i16, a: u64, b: u64)
    ensures AluValue(wide, OpDiv, fromReg, offset, a, b) == DivValue(wide, offset, a, b)
    ensures AluValue(wide, OpMod, fromReg, offset, a, b) == ModValue(wide, offset, a, b)
  {
  }

  lemma NegIgnores(wide: bool, fromReg: bool, offset: i16, a: u64, b: u64)
    ensures AluValue(wide, OpNeg, fromReg, offset, a, b) == AluValue(wide, OpNeg, true, 0, a, a)
  {
  }

  lemma MovRuns(wide: bool, offset: i16, dst: Reg, src: Reg, m: Arm)
    requires dst != RZ && src != RZ
    ensures Computes(dst, AluValue(wide, OpMov, true, offset, m.regs[dst], m.regs[src]), m, Exec(MovCode(wide, offset, dst, src), m))
  {
    hide Exec, OpValue, Signed8, Signed16, Signed32, ToU64, ToU32, ToU16, Bitwise32, Bitwise64, Pow2;
    var b := m.regs[src];
    MovComputes(wide, b);
    ExecOne(MovCode(wide, offset, dst, src)[0], [], m);
    if offset == 8 || offset == 16 || (offset == 32 && wide) {
      assert MovCode(wide, offset, dst, src) == [SignExtend(wide, offset, dst, src)];
    } else {
      assert MovCode(wide, offset, dst, src) == [Op3(wide, AOrr, dst, RZ, src)];
    }
  }

  /** The operand matters only in the operation width, except for sign-extending moves. */
  lemma AluWidth(wide: bool, alu: AluOp, offset: i16, a: u64, b: u64)
    requires alu != OpMov && (alu == OpDiv || alu == OpMod ==> 0 <= offset <= 1)
    ensures AluValue(wide, alu, false, offset, a, Low(wide, b)) == AluValue(wide, alu, false, offset, a, b)
  {
    if Plain(alu) {
      OpComputes(wide, alu, false, offset, a, b);
      OpComputes(wide, alu, false, offset, a, Low(wide, b));
      OpWidth(RegOpOf(alu), wide, a, b);
    } else {
      LowTwice(wide, b);
    }
    hide OpValue, Bitwise32, Bitwise64, UDiv, SDiv, UMod, SMod;
  }

  /**
    Every ALU instruction, register or immediate, of either width, blinded or not: the emitted code leaves the
    interpreter's value in the destination and keeps every other mapped register and memory.
    */
  lemma AluLowered(wide: bool, alu: AluOp, fromReg: bool, offset: i16, dst: Reg, src: Reg, imm: i32, blind: Option<u64>, m: Arm)
    requires Mapped(dst) && Mapped(src) && (alu == OpDiv || alu == OpMod ==> 0 <= offset <= 1)
    ensures var m' := Exec(AluCode(wide, alu, fromReg, offset, dst, src, imm, blind), m);
      && m'.regs[dst] == AluValue(wide, alu, fromReg, offset, m.regs[dst], if fromReg then m.regs[src] else ToU64(imm))
      && m'.mem == m.mem && (forall r: Reg :: Mapped(r) && r != dst ==> m'.regs[r] == m.regs[r])
  {
    hide Exec, AluValue, RegCode, LoadImm, Low, ToU64;
    var a, b := m.regs[dst], ToU64(imm);
    forall r: Reg | Mapped(r) { MappedIsNotScratch(r); }
    if fromReg || alu == OpNeg {
      RegCodeRuns(wide, alu, fromReg || alu == OpMov, offset, dst, src, m);
      NegIgnores(wide, fromReg, offset, a, m.regs[src]);
      NegIgnores(wide, fromReg, offset, a, b);
    } else if alu == OpMov {
      LoadImmLoads(wide, dst, imm, blind, m);
      MovImm(wide, offset, a, b);
    } else if (alu == OpAdd || alu == OpSub) && Simple(imm, blind) {
      ExecOne(AddSubImm(wide, alu == OpSub, dst, dst, imm), [], m);
      AddImm(wide, offset, a, imm);
    } else {
      LoadImmLoads(wide, TEMP, imm, blind, m);
      var m1 := Exec(LoadImm(wide, TEMP, imm, blind), m);
      ExecAppend(LoadImm(wide, TEMP, imm, blind), RegCode(wide, alu, offset, dst, TEMP), m);
      RegCodeRuns(wide, alu, false, offset, dst, TEMP, m1);
      AluWidth(wide, alu, offset, a, b);
    }
  }

  function Reversed(wide: bool, imm: nat, a: u64): u64
  {
    Low(wide, ReverseGroups(wide, imm / 8, Low(wide, a)))
  }

  /** The first group of a reversal. */
  lemma FirstHalfword(wide: bool, a: u64)
    ensures ToU16(Reversed(wide, 16, a)) == SwapBytes(2, ToU16(a))
  {
    hide SwapBytes, Pow2;
    Pow2Widths();
    var x := Low(wide, a);
    assert Block(x, 0) == ToU16(a);
    var d, e := SwapBytes(2, Block(x, 0)), SwapBytes(2, Block(x, 1));
    var rest := e + if wide then 0x1_0000 * SwapBytes(2, Block(x, 2)) + 0x1_0000_0000 * SwapBytes(2, Block(x, 3)) else 0;
    hide Block;
    assert ReverseGroups(wide, 2, x) == d + 0x1_0000 * rest;
    assert Low(wide, d + 0x1_0000 * rest) == d + 0x1_0000 * rest;
    ModUnique(d + 0x1_0000 * rest, 0x1_0000, rest, d);
  }

  lemma FirstWord(wide: bool, a: u64)
    ensures ToU32(Reversed(wide, 32, a)) == SwapBytes(4, ToU32(a)) && (!wide ==> Reversed(wide, 32, a) == SwapBytes(4, ToU32(a)))
  {
    hide SwapBytes, Pow2;
    Pow2Widths();
    var x := Low(wide, a);
    assert ToU32(x) == ToU32(a);
    var d, rest := SwapBytes(4, ToU32(x)), if wide then SwapBytes(4, ToU32(x / 0x1_0000_0000)) else 0;
    assert ReverseGroups(wide, 4, x) == d + 0x1_0000_0000 * rest;
    ModUnique(d + 0x1_0000_0000 * rest, 0x1_0000_0000, rest, d);
  }

  lemma EndComputes(kind: EndKind, imm: i32, a: u64)
    requires imm in {16, 32, 64}
    ensures var r := if kind == ToLE then a else Reversed(kind == Swap || imm == 64, imm, a);
      EndValue(kind, imm, a) == if imm == 16 then ToU16(r) else if imm == 32 && kind != ToBE then ToU32(r) else r
  {
    hide ReverseGroups, SwapBytes, Pow2, Reversed, ToU16, ToU32;
    FirstHalfword(kind == Swap, a);
    FirstWord(kind == Swap, a);
    WholeReversed(a);
  }

  lemma WholeReversed(a: u64)
    ensures Reversed(true, 64, a) == SwapBytes(8, a)
  {
  }

  lemma ReverseDoes(wide: bool, imm: i32, dst: Reg, m: Arm)
    requires dst != RZ && imm in {16, 32, 64}
    ensures Do(Reverse(wide, imm / 8, dst, dst), m) == m.(regs := m.regs[dst := Reversed(wide, imm, m.regs[dst])])
  {
    hide ReverseGroups, Low;
  }

  lemma ExtendDoes(imm: i32, dst: Reg, m: Arm)
    requires dst != RZ && imm in {16, 32, 64}
    ensures var a := m.regs[dst];
      Do(ZeroExtend(imm, dst, dst), m) == m.(regs := m.regs[dst := if imm == 16 then ToU16(a) else ToU32(a)])
  {
  }

  /** Every byte-order conversion leaves the interpreter's value and changes nothing else. */
  lemma EndLowered(kind: EndKind, imm: i32, dst: Reg, m: Arm)
    requires Mapped(dst) && imm in {16, 32, 64}
    ensures var m' := Exec(EndCode(kind, imm, dst), m);
      && m'.regs[dst] == EndValue(kind, imm, m.regs[dst])
      && m'.mem == m.mem && m'.flags == m.flags && (forall r: Reg :: r != dst ==> m'.regs[r] == m.regs[r])
  {
    MappedIsNotScratch(dst);
    hide Reversed, EndValue, Exec, ToU16, ToU32, Do, Mapped;
    EndComputes(kind, imm, m.regs[dst]);
    var wide := kind == Swap || imm == 64;
    var i, j := Reverse(wide, imm / 8, dst, dst), ZeroExtend(imm, dst, dst);
    ExecNone(m);
    if kind == ToLE {
      ExecOne(j, [], m);
      ExtendDoes(imm, dst, m);
    } else {
      assert EndCode(kind, imm, dst) == [i] + if imm == 16 || (imm == 32 && kind != ToBE) then [j] else [];
      assert [i] + [] == [i];
      ExecOne(i, [j], m);
      ExecOne(j, [], Do(i, m));
      ReverseDoes(wide, imm, dst, m);
      ExtendDoes(imm, dst, Do(i, m));
    }
  }

  lemma ExecNone(m: Arm)
    ensures Exec([], m) == m
  {
  }

  lemma MovImm(wide: bool, offset: i16, a: u64, b: u64)
    ensures AluValue(wide, OpMov, false, offset, a, b) == Low(wide, b)
  {
  }

  lemma AddImm(wide: bool, offset: i16, a: u64, imm: i32)
    requires 0 <= imm < 0x1000
    ensures Low(wide, ToU64(a + imm)) == AluValue(wide, OpAdd, false, offset, a, ToU64(imm))
    ensures Low(wide, ToU64(a - imm)) == AluValue(wide, OpSub, false, offset, a, ToU64(imm))
  {
    hide ToU32, Bitwise32, Bitwise64, Pow2;
    Wrap32(a + imm);
    Wrap32(a - imm);
    assert ToU64(imm) == imm;
  }

  // ---------------------------------------------------------------- conditional jumps

  lemma FlagsWidth(wide: bool, a: u64, b: u64)
    ensures SubFlags(wide, a, Low(wide, b)) == SubFlags(wide, a, b) && TestFlags(wide, a, Low(wide, b)) == TestFlags(wide, a, b)
  {
    hide Bitwise32, Bitwise64, LogicFlags;
    LowTwice(wide, b);
  }

  /**
    Every conditional jump: the condition code of the branch holds exactly when the interpreter takes the jump; mapped
    registers stay.
    */
  lemma JumpLowered(wide: bool, cond: Cond, fromReg: bool, dst: Reg, src: Reg, imm: i32, blind: Option<u64>, m: Arm)
    requires Mapped(dst) && Mapped(src)
    ensures var m' := Exec(JumpCode(wide, cond, fromReg, dst, src, imm, blind), m);
      && (CodeHolds(ToCondition(cond), m'.flags) <==> Taken(wide, cond, m.regs[dst], if fromReg then m.regs[src] else ToU64(imm)))
      && m'.mem == m.mem && (forall r: Reg :: Mapped(r) ==> m'.regs[r] == m.regs[r])
  {
    hide Exec, Taken, CodeHolds, ToCondition, SubFlags, TestFlags, LoadImm, Low, ToU64;
    forall r: Reg | Mapped(r) { MappedIsNotScratch(r); }
    var a, b := m.regs[dst], ToU64(imm);
    ConditionAgrees(wide, cond, a, if fromReg then m.regs[src] else b);
    CodeIsCondition(cond, Exec(JumpCode(wide, cond, fromReg, dst, src, imm, blind), m).flags);
    if fromReg {
      ExecOne(JumpCode(wide, cond, fromReg, dst, src, imm, blind)[0], [], m);
    } else if cond != JSET && Simple(imm, blind) {
      ExecOne(CompareImm(wide, dst, imm), [], m);
    } else {
      LoadImmLoads(wide, TEMP, imm, blind, m);
      var m1 := Exec(LoadImm(wide, TEMP, imm, blind), m);
      var i := if cond == JSET then TestBits(wide, dst, TEMP) else Compare(wide, dst, TEMP);
      ExecAppend(LoadImm(wide, TEMP, imm, blind), [i], m);
      ExecOne(i, [], m1);
      FlagsWidth(wide, a, b);
    }
  }

  // ---------------------------------------------------------------- stores of immediates

  /** What a store writes, whatever its offset; only the two temporary registers may change. */
  lemma StoreToRuns(size: nat, rt: Reg, base: Reg, offset: i16, blind: Option<u64>, m: Arm)
    requires Mapped(base) && rt !in {TEMP_DIV, OFFSET_REGISTER, RZ}
    ensures var m' := Exec(StoreTo(size, rt, base, offset, blind), m);
      && m'.mem == Store(m.mem, ToU64(m.regs[base] + offset), m.regs[rt], size)
      && (forall r: Reg :: r !in {TEMP_DIV, OFFSET_REGISTER} ==> m'.regs[r] == m.regs[r])
      && m'.regs[OFFSET_REGISTER] == if Magnitude(offset) < 0x1000 then m.regs[OFFSET_REGISTER] else Magnitude(offset)
  {
    hide Exec, Store, StoreTo, ToU64;
    assert ARM_REGISTER_MAP == [5, 0, 1, 2, 3, 4, 19, 20, 21, 22, 23];
    if Magnitude(offset) < 0x1000 {
      StoreNear(size, rt, base, offset, blind, m);
    } else {
      StoreFar(size, rt, base, offset, blind, m);
    }
  }

  lemma StoreNear(size: nat, rt: Reg, base: Reg, offset: i16, blind: Option<u64>, m: Arm)
    requires base !in {TEMP_DIV, OFFSET_REGISTER, RZ} && rt !in {TEMP_DIV, OFFSET_REGISTER, RZ} && Magnitude(offset) < 0x1000
    ensures var m' := Exec(StoreTo(size, rt, base, offset, blind), m);
      && m'.mem == Store(m.mem, ToU64(m.regs[base] + offset), m.regs[rt], size)
      && (forall r: Reg :: r != TEMP_DIV ==> m'.regs[r] == m.regs[r])
  {
    hide Exec, LoadImm, Store, ToU64;
    if -256 <= offset < 256 {
      ExecOne(StoreA(size, rt, base, offset), [], m);
    } else {
      var add, store := AddSubImm(true, offset < 0, TEMP_DIV, base, Magnitude(offset)), StoreA(size, rt, TEMP_DIV, 0);
      assert [add] + [store] == [add, store];
      ExecOne(add, [store], m);
      OffsetAdded(base, offset, m);
      WrapsOnce(m.regs[base] + offset);
      ExecOne(store, [], Do(add, m));
    }
  }

  lemma SmallMagnitude(offset: i16)
    ensures ToU64(Magnitude(offset)) == Magnitude(offset)
  {
  }

  lemma WrapsOnce(v: int)
    ensures ToU64(ToU64(v) + 0) == ToU64(v)
  {
  }

  lemma OffsetAdded(base: Reg, offset: i16, m: Arm)
    requires base != RZ
    ensures Do(AddSubImm(true, offset < 0, TEMP_DIV, base, Magnitude(offset)), m) ==
            m.(regs := m.regs[TEMP_DIV := ToU64(m.regs[base] + offset)])
  {
  }

  /**
    A store keeps the context that later helper calls pass on exactly when its offset is below 4096 either way, or the
    context happens to be the offset: otherwise the offset is put in the context's register.
    */
  lemma ContextKept(size: nat, rt: Reg, base: Reg, offset: i16, blind: Option<u64>, m: Arm)
    requires Mapped(base) && rt !in {TEMP_DIV, OFFSET_REGISTER, RZ}
    ensures Exec(StoreTo(size, rt, base, offset, blind), m).regs[CONTEXT] == m.regs[CONTEXT] <==>
            Magnitude(offset) < 0x1000 || m.regs[CONTEXT] == Magnitude(offset)
  {
    hide Exec, StoreTo, Store;
    StoreToRuns(size, rt, base, offset, blind, m);
  }

  lemma StoreFar(size: nat, rt: Reg, base: Reg, offset: i16, blind: Option<u64>, m: Arm)
    requires base !in {TEMP_DIV, OFFSET_REGISTER, RZ} && rt !in {TEMP_DIV, OFFSET_REGISTER, RZ} && Magnitude(offset) >= 0x1000
    ensures var m' := Exec(StoreTo(size, rt, base, offset, blind), m);
      && m'.mem == Store(m.mem, ToU64(m.regs[base] + offset), m.regs[rt], size)
      && (forall r: Reg :: r !in {TEMP_DIV, OFFSET_REGISTER} ==> m'.regs[r] == m.regs[r])
      && m'.regs[OFFSET_REGISTER] == Magnitude(offset)
  {
    hide Exec, LoadImm, Store, OpValue, ToU64;
    var sub, magnitude, store := offset < 0, Magnitude(offset), StoreA(size, rt, TEMP_DIV, 0);
    var load := LoadImm(true, OFFSET_REGISTER, magnitude, blind);
    var add := Op3(true, if sub then ASub else AAdd, TEMP_DIV, base, OFFSET_REGISTER);
    var m1 := Exec(load, m);
    LoadImmLoads(true, OFFSET_REGISTER, magnitude, blind, m);
    ExecAppend(load, [add, store], m);
    assert [add] + [store] == [add, store];
    ExecOne(add, [store], m1);
    ExecOne(store, [], Do(add, m1));
    SmallMagnitude(offset);
    AddressIs(m.regs[base], magnitude, sub);
    WrapsOnce(m.regs[base] + offset);
  }

  lemma AddressIs(a: u64, b: u64, sub: bool)
    ensures OpValue(if sub then ASub else AAdd, true, a, b) == ToU64(if sub then a - b else a + b)
  {
    hide Bitwise64, Bitwise32, Pow2, UDiv, SDiv;
  }

  /** What a store of an immediate writes: the zero-extended low 32 bits of the constant. */
  lemma StoreRuns(size: nat, dst: Reg, offset: i16, imm: i32, blind: Option<u64>, m: Arm)
    requires Mapped(dst)
    ensures var m' := Exec(StoreCode(size, dst, offset, imm, blind), m);
      && m'.mem == Store(m.mem, ToU64(m.regs[dst] + offset), ToU32(ToU64(imm)), size)
      && (forall r: Reg :: Mapped(r) ==> m'.regs[r] == m.regs[r])
  {
    hide Exec, LoadImm, ToU64, Store, ToU32, StoreTo;
    forall r: Reg | Mapped(r)
      ensures r !in {TEMP, TEMP_DIV, OFFSET_REGISTER}
    {
      assert ARM_REGISTER_MAP == [5, 0, 1, 2, 3, 4, 19, 20, 21, 22, 23];
    }
    LoadImmLoads(false, TEMP, imm, blind, m);
    ExecAppend(LoadImm(false, TEMP, imm, blind), StoreTo(size, TEMP, dst, offset, blind), m);
    StoreToRuns(size, TEMP, dst, offset, blind, Exec(LoadImm(false, TEMP, imm, blind), m));
  }

  /**
    The store writes what the interpreter writes if and only if it is narrower than eight bytes or the immediate
    is not negative: an eight-byte store of a negative immediate loses its sign extension.
    */
  lemma StoreImmediateAgrees(size: nat, dst: Reg, offset: i16, imm: i32, blind: Option<u64>, m: Arm)
    requires Mapped(dst) && size in {1, 2, 4, 8} && 0 <= m.regs[dst] + offset <= 0x1_0000_0000_0000_0000 - size
    ensures Exec(StoreCode(size, dst, offset, imm, blind), m).mem == Store(m.mem, m.regs[dst] + offset, ToU64(imm), size)
            <==> size != 8 || imm >= 0
  {
    hide Exec, StoreCode, Store, ToU32;
    var addr: int := m.regs[dst] + offset;
    StoreRuns(size, dst, offset, imm, blind, m);
    assert ToU64(addr) == addr;
    StoredValues(m.mem, addr, imm, size);
  }

  lemma StoredValues(mem: Memory, addr: int, imm: i32, size: nat)
    requires size in {1, 2, 4, 8} && 0 <= addr <= 0x1_0000_0000_0000_0000 - size
    ensures Store(mem, addr, ToU32(ToU64(imm)), size) == Store(mem, addr, ToU64(imm), size) <==> size != 8 || imm >= 0
  {
    hide Store;
    if size != 8 {
      Blinding.StoreNarrow(mem, addr, ToU64(imm), size);
    } else if imm < 0 {
      DifferentWords(mem, addr, ToU64(imm), ToU32(ToU64(imm)), size);
    }
  }

  lemma DifferentWords(mem: Memory, addr: int, v: u64, w: u64, size: nat)
    requires size == 8 && 0 <= addr <= 0x1_0000_0000_0000_0000 - size && v != w
    ensures Store(mem, addr, v, size) != Store(mem, addr, w, size)
  {
    hide Store, Load, Pow2;
    Pow2Widths();
    LoadStored(mem, addr, v, size);
    LoadStored(mem, addr, w, size);
  }
}
