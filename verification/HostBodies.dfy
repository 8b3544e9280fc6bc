/**
  The x86-64 code of arithmetic and conditional jumps, run on the host registers, has the effect the call protocol takes
  the code of an ordinary instruction to have.
  */
module HostBodies {
  import opened Words
  import opened Isa
  import opened Semantics
  import opened HostFlags
  import opened X86
  import opened Blinding
  import opened MulDivMod
  import opened MulDivModProof
  import M = Machine
  import P = CallProtocol

  /** Host registers that hold the eBPF registers. */
  predicate Mirrors(regs: M.Regs, m: Machine) { forall r :: 0 <= r < 11 ==> m.regs[REGISTER_MAP[r]] == regs[r] }

  lemma MapIsInjective(r: nat, s: nat)
    requires r < 11 && s < 11
    ensures |REGISTER_MAP| == 11 && Mapped(REGISTER_MAP[r]) && (REGISTER_MAP[r] == REGISTER_MAP[s] ==> r == s)
    ensures REGISTER_MAP[r] != RCX && REGISTER_MAP[r] != R11
  {
    assert REGISTER_MAP == [0, 7, 6, 2, 10, 8, 3, 12, 13, 14, 15];
  }

  lemma MirrorsSet(regs: M.Regs, m: Machine, m': Machine, dst: u4, v: u64)
    requires Mirrors(regs, m) && dst < 11 && m'.regs[REGISTER_MAP[dst]] == v
    requires forall r: Reg :: Mapped(r) && r != REGISTER_MAP[dst] ==> m'.regs[r] == m.regs[r]
    ensures Mirrors(regs[dst := v], m')
  {
    hide Mapped;
    forall r | 0 <= r < 11
      ensures m'.regs[REGISTER_MAP[r]] == regs[dst := v][r]
    {
      MapIsInjective(r, dst);
    }
  }

  // ---------------------------------------------------------------- the code

  function BinaryOf(alu: AluOp): Binary
  {
    match alu
    case OpAdd => AddOp
    case OpSub => SubOp
    case OpOr => OrOp
    case OpAnd => AndOp
    case _ => XorOp
  }

  predicate IsBinary(alu: AluOp) { alu in {OpAdd, OpSub, OpOr, OpAnd, OpXor} }

  function KindOf(alu: AluOp): Kind
  {
    match alu case OpMul => KMul case OpDiv => KDiv case _ => KMod
  }

  predicate IsMulDivMod(alu: AluOp) { alu in {OpMul, OpDiv, OpMod} }

  /** An operation with a register or an immediate, blinded with the given random value if there is one. */
  function BinaryCode(op: Binary, wide: bool, fromReg: bool, dst: Reg, src: Reg, imm: i32, blind: Option<u64>): seq<XInst>
  {
    if fromReg then [Rr(op, wide, dst, src)]
    else match blind
      case None => [Ri(op, wide, dst, imm)]
      case Some(random) => BinaryBlinded(op, wide, dst, imm, ToU32(random))
  }

  function SourceOf(fromReg: bool, src: Reg, imm: i32, blind: Option<u64>): Source
  {
    if fromReg then FromReg(src)
    else match blind case None => FromImm(imm) case Some(random) => FromBlinded(imm, random)
  }

  /** What is emitted for these instructions, without the jump itself. */
  function BodyCode(inst: Inst, blind: Option<u64>): seq<XInst>
    requires inst.dst < 11 && inst.src < 11
  {
    var dst, src := REGISTER_MAP[inst.dst], REGISTER_MAP[inst.src];
    match Decode(inst.opcode)
    case Alu(wide, alu, fromReg) =>
      (if IsMulDivMod(alu) then Code(KindOf(alu), wide, alu != OpMul && inst.offset == 1, SourceOf(fromReg, src, inst.imm, blind), dst)
       else BinaryCode(BinaryOf(alu), wide, fromReg, dst, src, inst.imm, blind)) + Truncate(wide, dst)
    case Jcc(wide, cond, fromReg) => BinaryCode(if cond == JSET then TestOp else CmpOp, wide, fromReg, dst, src, inst.imm, blind)
    case _ => []
  }

  predicate Covered(inst: Inst)
  {
    && inst.dst < 11 && inst.src < 11
    && match Decode(inst.opcode)
       case Alu(_, alu, _) => IsBinary(alu) || (IsMulDivMod(alu) && 0 <= inst.offset <= 1)
       case Jcc(_, _, _) => true
       case _ => false
  }

  // ---------------------------------------------------------------- running it

  /** The operation's value and flags, everything else as before, the scratch register possibly excepted. */
  lemma BinaryRuns(op: Binary, wide: bool, fromReg: bool, dst: Reg, src: Reg, imm: i32, blind: Option<u64>, m: Machine, junk: Flags)
    requires Mapped(dst) && op != MovOp
    ensures var o, b := Exec(BinaryCode(op, wide, fromReg, dst, src, imm, blind), m, junk), if fromReg then m.regs[src] else ToU64(imm);
      && o.Some? && o.value.stack == m.stack && o.value.mem == m.mem
      && o.value.flags == BinaryFlags(op, wide, m.regs[dst], b, m.flags)
      && o.value.regs[dst] == (if op in {CmpOp, TestOp} then m.regs[dst] else BinaryValue(op, wide, m.regs[dst], b))
      && (forall r: Reg :: Mapped(r) && r != dst ==> o.value.regs[r] == m.regs[r])
  {
    hide BinaryFlags, BinaryValue, Exec, BinaryBlinded, ToU64, ToU32, Mapped;
    NotMapped();
    var i := if fromReg then Rr(op, wide, dst, src) else Ri(op, wide, dst, imm);
    ExecOne(i, [], m, junk);
    ExecDone(junk);
    assert [i] + [] == [i];
    if !fromReg && blind.Some? {
      BinaryBlindedAgrees(op, wide, dst, imm, ToU32(blind.value), m, junk);
    }
  }

  lemma BinaryIsAlu(alu: AluOp, wide: bool, fromReg: bool, offset: i16, a: u64, b: u64)
    requires IsBinary(alu)
    ensures Low(wide, BinaryValue(BinaryOf(alu), wide, a, b)) == AluValue(wide, alu, fromReg, offset, a, b)
  {
    hide Bitwise32, Bitwise64;
  }

  lemma KindIsAlu(alu: AluOp, wide: bool, fromReg: bool, offset: i16, a: u64, b: u64)
    requires IsMulDivMod(alu) && 0 <= offset <= 1
    ensures AluValue(wide, AluOf(KindOf(alu)), true, if alu != OpMul && offset == 1 then 1 else 0, a, b) ==
            AluValue(wide, alu, fromReg, offset, a, b)
  {
  }

  lemma AluRuns(inst: Inst, blind: Option<u64>, m: Machine, junk: Flags)
    requires Covered(inst) && Decode(inst.opcode).Alu?
    ensures var o, op := Exec(BodyCode(inst, blind), m, junk), Decode(inst.opcode);
      var dst, b := REGISTER_MAP[inst.dst], if op.fromReg then m.regs[REGISTER_MAP[inst.src]] else ToU64(inst.imm);
      && o.Some? && o.value.stack == m.stack && o.value.mem == m.mem
      && o.value.regs[dst] == AluValue(op.wide, op.alu, op.fromReg, inst.offset, m.regs[dst], b)
      && (forall r: Reg :: Mapped(r) && r != dst ==> o.value.regs[r] == m.regs[r])
  {
    hide Exec, Code, BinaryCode, AluValue, BinaryValue, BinaryFlags, Low, ToU64, Mapped, Decode;
    MapIsInjective(inst.dst, inst.src);
    var op, dst, src := Decode(inst.opcode), REGISTER_MAP[inst.dst], REGISTER_MAP[inst.src];
    var b := if op.fromReg then m.regs[src] else ToU64(inst.imm);
    if IsMulDivMod(op.alu) {
      LoweringComputesResult(KindOf(op.alu), op.wide, op.alu != OpMul && inst.offset == 1,
                             SourceOf(op.fromReg, src, inst.imm, blind), dst, m, junk);
      KindIsAlu(op.alu, op.wide, op.fromReg, inst.offset, m.regs[dst], b);
    } else {
      var c := BinaryCode(BinaryOf(op.alu), op.wide, op.fromReg, dst, src, inst.imm, blind);
      BinaryRuns(BinaryOf(op.alu), op.wide, op.fromReg, dst, src, inst.imm, blind, m, junk);
      ExecAppend(c, Truncate(op.wide, dst), m, junk);
      TruncateRuns(op.wide, dst, Exec(c, m, junk).value, junk);
      BinaryIsAlu(op.alu, op.wide, op.fromReg, inst.offset, m.regs[dst], b);
    }
  }

  /**
    The code of additions, subtractions, bitwise operations, multiplications, divisions, modulos and conditional jumps,
    blinded or not, started with the eBPF registers in their host registers: it ends with the registers and memory the
    protocol's step has, with the stack as it was, and for a jump with flags on which the emitted condition holds
    exactly when the protocol jumps.
    */
  lemma BodyAgrees(env: M.Env, i: nat, h: P.Host, blind: Option<u64>, m: Machine, junk: Flags)
    requires i < |env.prog| <= 65535 && Covered(env.prog[i]) && Mirrors(h.regs, m) && m.mem == h.mem
    ensures var o, t, op := Exec(BodyCode(env.prog[i], blind), m, junk), P.DoBody(env, i, h), Decode(env.prog[i].opcode);
      && o.Some? && o.value.stack == m.stack
      && (op.Alu? ==> t.Some?) && (t.Some? ==> Mirrors(t.value.regs, o.value) && o.value.mem == t.value.mem)
      && (op.Jcc? ==> (JccHolds(ToJcc(op.cond), o.value.flags) <==> P.JumpsAway(env, i, h.regs)))
  {
    hide Exec, BodyCode, AluValue, BinaryFlags, ToU64, Mapped, JccHolds, ToJcc, Taken, Mirrors, Decode;
    var inst, op := env.prog[i], Decode(env.prog[i].opcode);
    MirrorsAt(h.regs, m, inst.dst);
    MirrorsAt(h.regs, m, inst.src);
    if op.Alu? {
      AluRuns(inst, blind, m, junk);
      MirrorsSet(h.regs, m, Exec(BodyCode(inst, blind), m, junk).value, inst.dst,
                 AluValue(op.wide, op.alu, op.fromReg, inst.offset, h.regs[inst.dst], M.Operand(op.fromReg, inst, h.regs)));
    } else {
      JumpRuns(inst, blind, m, junk);
      MirrorsKept(h.regs, m, Exec(BodyCode(inst, blind), m, junk).value);
    }
  }

  lemma MirrorsAt(regs: M.Regs, m: Machine, r: u4)
    requires Mirrors(regs, m) && r < 11
    ensures m.regs[REGISTER_MAP[r]] == regs[r]
  {
  }

  lemma MirrorsKept(regs: M.Regs, m: Machine, m': Machine)
    requires Mirrors(regs, m) && forall r: Reg :: Mapped(r) ==> m'.regs[r] == m.regs[r]
    ensures Mirrors(regs, m')
  {
    hide Mapped;
    forall r | 0 <= r < 11
      ensures m'.regs[REGISTER_MAP[r]] == regs[r]
    {
      MapIsInjective(r, r);
    }
  }

  lemma JumpRuns(inst: Inst, blind: Option<u64>, m: Machine, junk: Flags)
    requires Covered(inst) && Decode(inst.opcode).Jcc?
    ensures var o, op := Exec(BodyCode(inst, blind), m, junk), Decode(inst.opcode);
      var a, b := m.regs[REGISTER_MAP[inst.dst]], if op.fromReg then m.regs[REGISTER_MAP[inst.src]] else ToU64(inst.imm);
      && o.Some? && o.value.stack == m.stack && o.value.mem == m.mem
      && (JccHolds(ToJcc(op.cond), o.value.flags) <==> Taken(op.wide, op.cond, a, b))
      && (forall r: Reg :: Mapped(r) ==> o.value.regs[r] == m.regs[r])
  {
    hide Exec, BinaryCode, BinaryValue, SubFlags, TestFlags, ToU64, Mapped, JccHolds, ToJcc, Taken, Decode;
    MapIsInjective(inst.dst, inst.src);
    var op, dst, src := Decode(inst.opcode), REGISTER_MAP[inst.dst], REGISTER_MAP[inst.src];
    BinaryRuns(if op.cond == JSET then TestOp else CmpOp, op.wide, op.fromReg, dst, src, inst.imm, blind, m, junk);
    LoweredJumpAgrees(op.wide, op.cond, m.regs[dst], if op.fromReg then m.regs[src] else ToU64(inst.imm));
  }
}
