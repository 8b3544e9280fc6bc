/** eBPF instruction records and the decoding of the opcode byte (section 3 of RFC 9669). */
module Isa {
  import opened Words

  const MAX_INSTS: nat := 65536
  const MAX_CALL_DEPTH: nat := 8
  const MAX_EXT_FUNCS: nat := 64
  const LOCAL_FUNCTION_STACK_SIZE: u16 := 256

  datatype Inst = Inst(opcode: u8, dst: u4, src: u4, offset: i16, imm: i32)

  datatype AluOp =
    | OpAdd | OpSub | OpMul | OpDiv | OpOr | OpAnd | OpLsh | OpRsh | OpNeg | OpMod | OpXor | OpMov | OpArsh

  datatype Cond = JEQ | JGT | JGE | JSET | JNE | JSGT | JSGE | JLT | JLE | JSLT | JSLE

  datatype EndKind = ToLE | ToBE | Swap

  /** What an opcode byte asks for. `wide` is the 64-bit class; sizes are in bytes. */
  datatype Op =
    | Alu(wide: bool, alu: AluOp, fromReg: bool)
    | End(kind: EndKind)
    | Ldx(size: nat, signExtend: bool)
    | St(size: nat)
    | Stx(size: nat)
    | Lddw
    | Ja
    | Ja32
    | Jcc(wide: bool, cond: Cond, fromReg: bool)
    | Call
    | Exit
    | Atomic(size: nat)
    | Unknown

  function AluOfCode(hi: nat): AluOp
    requires hi <= 12
  {
    [OpAdd, OpSub, OpMul, OpDiv, OpOr, OpAnd, OpLsh, OpRsh, OpNeg, OpMod, OpXor, OpMov, OpArsh][hi]
  }

  function CondOfCode(hi: nat): Cond
    requires 1 <= hi <= 7 || 10 <= hi <= 13
  {
    [JEQ, JEQ, JGT, JGE, JSET, JNE, JSGT, JSGE, JEQ, JEQ, JLT, JLE, JSLT, JSLE][hi]
  }

  function SizeOfCode(c: nat): nat
    requires c < 4
  {
    [4, 2, 1, 8][c]
  }

  function DecodeMem(cls: nat, mode: nat, size: nat): Op
  {
    if cls == 1 && mode == 3 then Ldx(size, false)
    else if cls == 1 && mode == 4 && size != 8 then Ldx(size, true)
    else if cls == 2 && mode == 3 then St(size)
    else if cls == 3 && mode == 3 then Stx(size)
    else if cls == 3 && mode == 6 && (size == 4 || size == 8) then Atomic(size)
    else Unknown
  }

  function DecodeAlu(wide: bool, reg: bool, hi: nat): Op
  {
    if hi == 8 && reg then Unknown
    else if hi <= 12 then Alu(wide, AluOfCode(hi), reg)
    else if hi == 13 && !wide then End(if reg then ToBE else ToLE)
    else if hi == 13 && !reg then End(Swap)
    else Unknown
  }

  function DecodeJmp(wide: bool, reg: bool, hi: nat): Op
  {
    if 1 <= hi <= 7 || 10 <= hi <= 13 then Jcc(wide, CondOfCode(hi), reg)
    else if hi == 0 && !reg then (if wide then Ja else Ja32)
    else if hi == 8 && !reg && wide then Call
    else if hi == 9 && !reg && wide then Exit
    else Unknown
  }

  function Decode(b: u8): Op
  {
    var cls, reg, hi := b % 8, (b / 8) % 2 == 1, b / 16;
    if cls == 4 || cls == 7 then DecodeAlu(cls == 7, reg, hi)
    else if cls == 5 || cls == 6 then DecodeJmp(cls == 5, reg, hi)
    else if cls == 0 then (if b == 0x18 then Lddw else Unknown)
    else DecodeMem(cls, b / 32, SizeOfCode((b / 8) % 4))
  }

  /** The opcode byte of each operation, as the header composes it from class, source bit, mode and code. */
  function AluCode(op: AluOp): (r: nat)
    ensures r <= 12
  {
    match op
    case OpAdd => 0 case OpSub => 1 case OpMul => 2 case OpDiv => 3 case OpOr => 4 case OpAnd => 5
    case OpLsh => 6 case OpRsh => 7 case OpNeg => 8 case OpMod => 9 case OpXor => 10 case OpMov => 11
    case OpArsh => 12
  }

  function CondCode(c: Cond): (r: nat)
    ensures 1 <= r <= 7 || 10 <= r <= 13
  {
    match c
    case JEQ => 1 case JGT => 2 case JGE => 3 case JSET => 4 case JNE => 5 case JSGT => 6 case JSGE => 7
    case JLT => 10 case JLE => 11 case JSLT => 12 case JSLE => 13
  }

  function SizeCode(size: nat): (r: nat)
    ensures r <= 3
  {
    if size == 4 then 0 else if size == 2 then 1 else if size == 1 then 2 else 3
  }

  function Encode(op: Op): u8
  {
    match op
    case Alu(wide, alu, reg) => (if wide then 7 else 4) + (if reg then 8 else 0) + 16 * AluCode(alu)
    case End(ToLE) => 0xd4
    case End(ToBE) => 0xdc
    case End(Swap) => 0xd7
    case Ldx(size, sx) => (if sx then 0x81 else 0x61) + 8 * SizeCode(size)
    case St(size) => 0x62 + 8 * SizeCode(size)
    case Stx(size) => 0x63 + 8 * SizeCode(size)
    case Lddw => 0x18
    case Ja => 0x05
    case Ja32 => 0x06
    case Jcc(wide, cond, reg) => (if wide then 5 else 6) + (if reg then 8 else 0) + 16 * CondCode(cond)
    case Call => 0x85
    case Exit => 0x95
    case Atomic(size) => 0xc3 + 8 * SizeCode(size)
    case Unknown => 0
  }

  /** Decoding loses nothing: a known opcode is recovered from its operation, so no two bytes decode alike. */
  lemma DecodeEncode(b: u8)
    requires !Decode(b).Unknown?
    ensures Encode(Decode(b)) == b
  {
    OpcodeFields(b);
    var cls, reg, hi := b % 8, (b / 8) % 2, b / 16;
    if cls == 4 || cls == 7 {
      EncodeAlu(cls == 7, reg == 1, hi);
    } else if cls == 5 || cls == 6 {
      EncodeJmp(cls == 5, reg == 1, hi);
    } else if cls != 0 {
      EncodeMem(cls, b / 32, (b / 8) % 4);
    }
  }

  lemma OpcodeFields(b: u8)
    ensures b / 16 < 16 && b == b % 8 + 8 * ((b / 8) % 2) + 16 * (b / 16)
    ensures b / 32 < 8 && b == b % 8 + 8 * ((b / 8) % 4) + 32 * (b / 32)
  {
  }

  lemma EncodeAlu(wide: bool, reg: bool, hi: nat)
    requires hi < 16 && !DecodeAlu(wide, reg, hi).Unknown?
    ensures Encode(DecodeAlu(wide, reg, hi)) == (if wide then 7 else 4) + (if reg then 8 else 0) + 16 * hi
  {
  }

  lemma EncodeJmp(wide: bool, reg: bool, hi: nat)
    requires hi < 16 && !DecodeJmp(wide, reg, hi).Unknown?
    ensures Encode(DecodeJmp(wide, reg, hi)) == (if wide then 5 else 6) + (if reg then 8 else 0) + 16 * hi
  {
  }

  lemma EncodeMem(cls: nat, mode: nat, code: nat)
    requires 1 <= cls <= 3 && mode < 8 && code < 4
    requires !DecodeMem(cls, mode, SizeOfCode(code)).Unknown?
    ensures Encode(DecodeMem(cls, mode, SizeOfCode(code))) == cls + 8 * code + 32 * mode
  {
  }

  /** The access sizes a memory opcode can have. */
  lemma DecodeSizes(b: u8)
    ensures var op := Decode(b);
      && (op.Ldx? ==> op.size in {1, 2, 4, 8} && (op.signExtend ==> op.size != 8))
      && (op.St? || op.Stx? ==> op.size in {1, 2, 4, 8})
      && (op.Atomic? ==> op.size in {4, 8})
  {
    assert SizeOfCode((b / 8) % 4) in {1, 2, 4, 8};
  }
}
