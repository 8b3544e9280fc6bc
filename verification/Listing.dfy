/** What a line of the disassembler says about an arbitrary slot, in terms of how the machine reads that slot. */
module Listing {
  import opened Words
  import opened Isa
  import opened Machine
  import opened AsmRecords
  import opened AsmLabels
  import Assembler
  import CodeStore

  /** The second operand, a register or the immediate as an unsigned number. */
  predicate Shows(o: AsmOperand, inst: Inst, fromReg: bool)
  {
    if fromReg then o == RegOperand(inst.src) else o == ImmOperand(ToU32(inst.imm))
  }

  /** The record is the instruction the machine reads: operation, registers, operand, offset and immediate. */
  predicate Describes(r: Rec, inst: Inst, next: Option<Inst>)
  {
    match Decode(inst.opcode)
    case Alu(wide, alu, fromReg) =>
      if alu.OpNeg? then r == Neg(wide, inst.dst)
      else
        && r.Binary? && r.wide == wide && r.op <= 12 && AluOfCode(r.op) == alu && r.dst == inst.dst
        && Shows(r.operand, inst, fromReg) && (r.signed <==> (alu.OpDiv? || alu.OpMod?) && inst.offset == 1)
    case End(kind) =>
      r == Endian(match kind case ToLE => LittleEndian case ToBE => BigEndian case Swap => ByteSwap, ToU32(inst.imm), inst.dst)
    case Ldx(size, sx) => r.Load? && r.size < 4 && SizeOfCode(r.size) == size && r == Load(r.size, sx, inst.dst, inst.src, inst.offset)
    case St(size) => r.StoreImm? && r.size < 4 && SizeOfCode(r.size) == size && r == StoreImm(r.size, inst.dst, inst.offset, ToU32(inst.imm))
    case Stx(size) => r.StoreReg? && r.size < 4 && SizeOfCode(r.size) == size && r == StoreReg(r.size, inst.dst, inst.offset, inst.src)
    case Lddw => next.Some? && r == LoadWide(inst.dst, WideImmediate(inst, next.value))
    case Ja => r == Jump(inst.offset)
    case Ja32 => r == Jump(inst.imm)
    case Jcc(wide, cond, fromReg) =>
      && (if wide then r.CompareJump? else r.CompareJump32?) && (1 <= r.op <= 7 || 10 <= r.op <= 13) && CondOfCode(r.op) == cond
      && r.dst == inst.dst && Shows(r.operand, inst, fromReg) && r.off == inst.offset
    case Call => r == if inst.src == 1 then CallLocal(ToU32(inst.imm)) else CallHelper(ToU32(inst.imm))
    case Exit => r.ExitProgram?
    case Atomic(_) => false
    case Unknown => false
  }

  function NextInst(next: Option<Raw>): Option<Inst>
  {
    match next case None => None case Some(n) => Some(InstOf(n))
  }

  /**
    A line describes the instruction the machine reads, except that atomics are listed as plain stores, the jump with
    a 32-bit distance as a comparison, and an LDDW with a source field not at all.
    */
  lemma LineDescribes(a: Raw, next: Option<Raw>)
    requires !Decode(a.opcode).Unknown? && !Raises(a, next)
    ensures Describes(DisassembleOne(a, next).rec, InstOf(a), NextInst(next)) <==>
            !(Decode(a.opcode).Atomic? || Decode(a.opcode).Ja32? || (Decode(a.opcode).Lddw? && a.regs / 16 != 0))
  {
    var clz := a.opcode % 8;
    if clz == 4 || clz == 7 {
      AluDescribes(a, next);
    } else if clz == 5 || clz == 6 {
      JumpDescribes(a, next);
    } else {
      MemoryDescribes(a, next);
    }
  }

  lemma AluDescribes(a: Raw, next: Option<Raw>)
    requires !Decode(a.opcode).Unknown? && a.opcode % 8 in {4, 7}
    ensures Describes(DisassembleOne(a, next).rec, InstOf(a), NextInst(next))
    ensures Decode(a.opcode).Alu? || Decode(a.opcode).End?
  {
    SignedWord(a.imm);
    SignedOffset(a.off);
    hide DecodeMem, DecodeJmp, Signed32, ToU32, Signed16, ToU16, Leftover;
  }

  lemma SignedOffset(x: u16)
    ensures ToU16(Signed16(x)) == x && (Signed16(x) == 1 <==> x == 1)
  {
  }

  /** Both jump classes: conditions with their operands, jumps, calls and EXIT. */
  lemma JumpDescribes(a: Raw, next: Option<Raw>)
    requires !Decode(a.opcode).Unknown? && a.opcode % 8 in {5, 6}
    ensures Describes(DisassembleOne(a, next).rec, InstOf(a), NextInst(next)) <==> !Decode(a.opcode).Ja32?
    ensures var op := Decode(a.opcode); op.Jcc? || op.Ja? || op.Ja32? || op.Call? || op.Exit?
  {
    SignedWord(a.imm);
    hide DecodeMem, DecodeAlu, Signed32, ToU32, Signed16, ToU16, Leftover;
  }

  lemma MemoryDescribes(a: Raw, next: Option<Raw>)
    requires !Decode(a.opcode).Unknown? && a.opcode % 8 < 4 && !Raises(a, next)
    ensures var op := Decode(a.opcode);
      Describes(DisassembleOne(a, next).rec, InstOf(a), NextInst(next)) <==> !(op.Atomic? || (op.Lddw? && a.regs / 16 != 0))
    ensures !Decode(a.opcode).Ja32?
  {
    SignedWord(a.imm);
    if next.Some? {
      SignedWord(next.value.imm);
    }
    hide DecodeJmp, DecodeAlu, Signed32, ToU32, Signed16, ToU16, Leftover;
  }

  /** Slots whose line can be assembled again: known, not in the 32-bit jump class, not an atomic, widths that have names. */
  predicate Listed(a: Raw)
  {
    var op := Decode(a.opcode);
    !op.Unknown? && !op.Atomic? && !op.Ja32? && !(op.Jcc? && !op.wide) && (op.End? ==> a.imm in {16, 32, 64})
  }

  /** The fields that the record of a line keeps; `call local` alone keeps its source register although it warns. */
  predicate Complete(l: Line, a: Raw)
  {
    if l.rec.CallLocal? then !Leftover(a, false, false, true, true) else !l.warned
  }

  /** A line that leaves no field out is assembled to the slot it was made from. */
  lemma ListedReassembles(a: Raw, next: Option<Raw>)
    requires Listed(a) && !Raises(a, next) && Complete(DisassembleOne(a, next), a)
    ensures var r := DisassembleOne(a, next).rec;
      Assemblable(r) && AssembleOne(r)[0] == a && (r.LoadWide? ==> next.Some? && AssembleOne(r)[1] == Raw(0, 0, 0, next.value.imm))
  {
    var clz := a.opcode % 8;
    Unsigned(a);
    if clz == 4 || clz == 7 {
      AluReassembles(a, next);
    } else if clz == 5 || clz == 6 {
      JumpReassembles(a, next);
    } else if clz == 0 {
      WideReassembles(a, next);
    } else {
      MemoryReassembles(a, next);
    }
  }

  lemma Unsigned(a: Raw)
    ensures ToU16(Signed16(a.off)) == a.off && ToU32(a.imm) == a.imm && ToU16(a.off) == a.off
    ensures ToU16(0) == 0 && ToU16(1) == 1 && ToU32(0) == 0 && a.regs == a.regs % 16 + 16 * (a.regs / 16)
  {
  }

  lemma AluReassembles(a: Raw, next: Option<Raw>)
    requires Listed(a) && a.opcode % 8 in {4, 7} && Complete(DisassembleOne(a, next), a)
    ensures var r := DisassembleOne(a, next).rec; !r.LoadWide? && Assemblable(r) && AssembleOne(r)[0] == a
  {
    hide ToU32, Signed16, ToU16;
    Unsigned(a);
    if a.opcode / 16 in {8, 13} {
      hide DecodeMem, DecodeJmp;
    } else {
      BinaryReassembles(a, next);
    }
  }

  lemma BinaryReassembles(a: Raw, next: Option<Raw>)
    requires a.opcode % 8 in {4, 7} && a.opcode / 16 < 13 && a.opcode / 16 != 8 && !DisassembleOne(a, next).warned
    ensures var r := DisassembleOne(a, next).rec; r.Binary? && Assemblable(r) && AssembleOne(r)[0] == a
  {
    hide ToU32, Signed16, ToU16;
    Unsigned(a);
    OpcodeWhole(a.opcode);
  }

  lemma OpcodeWhole(b: u8)
    ensures b == b % 8 + 8 * (b / 8 % 2) + 16 * (b / 16)
  {
  }

  lemma JumpReassembles(a: Raw, next: Option<Raw>)
    requires Listed(a) && a.opcode % 8 in {5, 6} && Complete(DisassembleOne(a, next), a)
    ensures var r := DisassembleOne(a, next).rec; !r.LoadWide? && Assemblable(r) && AssembleOne(r)[0] == a
  {
    hide ToU32, Signed16, ToU16;
    Unsigned(a);
    OpcodeWhole(a.opcode);
    hide DecodeMem, DecodeAlu;
  }

  lemma MemoryReassembles(a: Raw, next: Option<Raw>)
    requires Listed(a) && a.opcode % 8 in {1, 2, 3} && Complete(DisassembleOne(a, next), a)
    ensures var r := DisassembleOne(a, next).rec; !r.LoadWide? && Assemblable(r) && AssembleOne(r)[0] == a
  {
    Unsigned(a);
    hide DecodeJmp, DecodeAlu, ToU32, Signed16, ToU16;
  }

  lemma WideReassembles(a: Raw, next: Option<Raw>)
    requires Listed(a) && a.opcode % 8 == 0 && !Raises(a, next) && Complete(DisassembleOne(a, next), a)
    ensures var r := DisassembleOne(a, next).rec;
      r.LoadWide? && next.Some? && AssembleOne(r)[0] == a && AssembleOne(r)[1] == Raw(0, 0, 0, next.value.imm)
  {
    Unsigned(a);
  }

  function Four(a: int, b: int, c: int, d: int): int { a + 0x100 * b + 0x1_0000 * c + 0x100_0000 * d }

  /** The eight bytes the assembler writes for a slot are the word the machine stores for it, least significant first. */
  lemma WrittenIsLoaded(a: Raw)
    ensures var b := Assembler.SlotBytes(a);
      CodeStore.WordOf(InstOf(a)) ==
      Four(b[0], b[1], b[2], b[3]) + 0x1_0000_0000 * Four(b[4], b[5], b[6], b[7])
  {
    SignedOffset(a.off);
    SignedWord(a.imm);
    Unsigned(a);
    hide Signed16, Signed32, ToU16, ToU32;
    var x: int := a.imm;
    assert x == x % 256 + 256 * (x / 256 % 256) + 0x1_0000 * (x / 256 / 256 % 256) + 0x100_0000 * (x / 256 / 256 / 256);
  }
}
