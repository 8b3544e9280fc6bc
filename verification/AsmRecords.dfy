/** Instruction records of the assembler and disassembler, and their eight-byte encoding. */
module AsmRecords {
  import opened Words

  datatype AsmOperand = RegOperand(reg: u4) | ImmOperand(value: int)

  datatype EndianKind = LittleEndian | BigEndian | ByteSwap

  /**
    An instruction with its operands, offsets and immediates as the source text gives them (any integers).
    `size` is the assembler's size code: 0 word, 1 half word, 2 byte, 3 double word.
    */
  datatype Rec =
    | Load(size: nat, sx: bool, dst: u4, src: u4, off: int)
    | LoadWide(dst: u4, imm: int)
    | StoreImm(size: nat, dst: u4, off: int, imm: int)
    | StoreReg(size: nat, dst: u4, off: int, src: u4)
    | Neg(wide: bool, dst: u4)
    | Binary(wide: bool, op: nat, signed: bool, dst: u4, operand: AsmOperand)
    | Endian(kind: EndianKind, bits: int, dst: u4)
    | CompareJump(op: nat, dst: u4, operand: AsmOperand, off: int)
    | CompareJump32(op: nat, dst: u4, operand: AsmOperand, off: int)  // only ever disassembled
    | Jump(off: int)
    | CallHelper(imm: int)
    | CallLocal(imm: int)
    | ExitProgram
    | Unsupported

  /** The fields of one eight-byte slot, unsigned as `struct` unpacks them. */
  datatype Raw = Raw(opcode: u8, regs: u8, off: u16, imm: u32)

  /** Records the assembler can produce. */
  predicate Assemblable(r: Rec)
  {
    match r
    case Load(size, sx, _, _, _) => size <= 3 && (sx ==> size != 3)
    case StoreImm(size, _, _, _) => size <= 3
    case StoreReg(size, _, _, _) => size <= 3
    case Binary(_, op, signed, _, _) => op <= 12 && op != 8 && (signed ==> op == 3 || op == 9)
    case Endian(_, bits, _) => bits in {16, 32, 64}
    case CompareJump(op, _, _, _) => op in {1, 2, 3, 4, 5, 6, 7, 10, 11, 12, 13}
    case CompareJump32(_, _, _, _) => false
    case Unsupported => false
    case _ => true
  }

  // ---------------------------------------------------------------- assembling one record

  function Pack(opcode: u8, dst: u4, src: u4, off: int, imm: int): Raw
  {
    Raw(opcode, dst + 16 * src, ToU16(off), ToU32(imm))
  }

  function PackBinary(opcode: u8, dst: u4, operand: AsmOperand, off: int): Raw
    requires opcode / 8 % 2 == 0
  {
    match operand
    case ImmOperand(v) => Pack(opcode, dst, 0, off, v)
    case RegOperand(src) => Pack(opcode + 8, dst, src, off, 0)
  }

  /** `assemble_one`: one slot, or two for LDDW. */
  function AssembleOne(r: Rec): (slots: seq<Raw>)
    requires Assemblable(r)
    ensures |slots| == if r.LoadWide? then 2 else 1
  {
    match r
    case Load(size, sx, dst, src, off) => [Pack((if sx then 0x81 else 0x61) + 8 * size, dst, src, off, 0)]
    case LoadWide(dst, imm) => [Pack(0x18, dst, 0, 0, imm), Pack(0, 0, 0, 0, imm / 0x1_0000_0000)]
    case StoreImm(size, dst, off, imm) => [Pack(0x62 + 8 * size, dst, 0, off, imm)]
    case StoreReg(size, dst, off, src) => [Pack(0x63 + 8 * size, dst, src, off, 0)]
    case Neg(wide, dst) => [Pack(if wide then 0x87 else 0x84, dst, 0, 0, 0)]
    case Binary(wide, op, signed, dst, operand) =>
      [PackBinary((if wide then 7 else 4) + 16 * op, dst, operand, if signed then 1 else 0)]
    case Endian(kind, bits, dst) =>
      [Pack(match kind case LittleEndian => 0xd4 case BigEndian => 0xdc case ByteSwap => 0xd7, dst, 0, 0, bits)]
    case CompareJump(op, dst, operand, off) => [PackBinary(5 + 16 * op, dst, operand, off)]
    case Jump(off) => [Pack(0x05, 0, 0, off, 0)]
    case CallHelper(imm) => [Pack(0x85, 0, 0, 0, imm)]
    case CallLocal(imm) => [Pack(0x85, 0, 1, 0, imm)]
    case ExitProgram => [Pack(0x95, 0, 0, 0, 0)]
  }

  // ---------------------------------------------------------------- disassembling one slot

  /** A disassembled line: the record, the slots it took, and whether an unused field had a value. */
  datatype Line = Line(rec: Rec, slots: nat, warned: bool)

  /** Some field not among the used ones is nonzero. */
  predicate Leftover(a: Raw, off: bool, dst: bool, src: bool, imm: bool)
  {
    (!off && a.off != 0) || (!dst && a.regs % 16 != 0) || (!src && a.regs / 16 != 0) || (!imm && a.imm != 0)
  }

  function AluLine(a: Raw): Line
  {
    var wide, source, op := a.opcode % 8 == 7, a.opcode / 8 % 2, a.opcode / 16;
    var dst, src := a.regs % 16, a.regs / 16;
    var signed := (op == 3 || op == 9) && a.off == 1;
    if op == 13 then
      Line(Endian(if wide then ByteSwap else if source == 1 then BigEndian else LittleEndian, a.imm, dst), 1,
           Leftover(a, signed, true, false, true))
    else if op == 8 then Line(Neg(wide, dst), 1, Leftover(a, signed, true, false, false))
    else if source == 0 then Line(Binary(wide, op, signed, dst, ImmOperand(a.imm)), 1, Leftover(a, signed, true, false, true))
    else Line(Binary(wide, op, signed, dst, RegOperand(src)), 1, Leftover(a, signed, true, true, false))
  }

  /** In the 32-bit class every operation has a name of its own, so all of them are printed as comparisons. */
  function JumpLine(a: Raw): Line
  {
    var source, op, dst, src := a.opcode / 8 % 2, a.opcode / 16, a.regs % 16, a.regs / 16;
    if a.opcode % 8 == 6 then
      Line(CompareJump32(op, dst, if source == 0 then ImmOperand(a.imm) else RegOperand(src), Signed16(a.off)), 1,
           Leftover(a, true, true, source != 0, source == 0))
    else if op == 9 then Line(ExitProgram, 1, Leftover(a, false, false, false, false))
    else if op == 8 then
      Line(if src == 1 then CallLocal(a.imm) else CallHelper(a.imm), 1, Leftover(a, false, false, false, true))
    else if op == 0 then Line(Jump(Signed16(a.off)), 1, Leftover(a, true, false, false, false))
    else if source == 0 then
      Line(CompareJump(op, dst, ImmOperand(a.imm), Signed16(a.off)), 1, Leftover(a, true, true, false, true))
    else Line(CompareJump(op, dst, RegOperand(src), Signed16(a.off)), 1, Leftover(a, true, true, true, false))
  }

  function MemoryLine(a: Raw): Line
  {
    var clz, size, mode, dst, src := a.opcode % 8, a.opcode / 8 % 4, a.opcode / 32, a.regs % 16, a.regs / 16;
    if clz == 1 then Line(Load(size, mode == 4, dst, src, Signed16(a.off)), 1, Leftover(a, true, true, true, false))
    else if clz == 2 then Line(StoreImm(size, dst, Signed16(a.off), a.imm), 1, Leftover(a, true, true, false, true))
    else Line(StoreReg(size, dst, Signed16(a.off), src), 1, Leftover(a, true, true, true, false))
  }

  /** Reading an LDDW without its second slot is an error, and so is giving a nameless operation its 32-bit suffix. */
  predicate Raises(a: Raw, next: Option<Raw>)
  {
    || (a.opcode % 8 == 0 && a.opcode / 8 % 4 == 3 && a.regs / 16 == 0 && next.None?)
    || ((a.opcode % 8 == 4 || a.opcode % 8 == 6) && a.opcode / 16 > 13)
  }

  /** `disassemble_one` on the slot `a` with `next` behind it. */
  function DisassembleOne(a: Raw, next: Option<Raw>): (l: Line)
    ensures 1 <= l.slots <= if next.Some? then 2 else 1
  {
    var clz := a.opcode % 8;
    if clz == 7 || clz == 4 then AluLine(a)
    else if clz == 5 || clz == 6 then JumpLine(a)
    else if clz == 0 then
      if a.opcode / 8 % 4 == 3 && a.regs / 16 == 0 && next.Some? then
        Line(LoadWide(a.regs % 16, a.imm + 0x1_0000_0000 * next.value.imm), 2, Leftover(a, false, true, false, true))
      else Line(Unsupported, 1, Leftover(a, false, false, false, false))
    else MemoryLine(a)
  }

  // ---------------------------------------------------------------- round trip of one record

  function NormalOperand(o: AsmOperand): AsmOperand
  {
    match o case RegOperand(r) => o case ImmOperand(v) => ImmOperand(ToU32(v))
  }

  /** Immediates modulo 2^32 (2^64 for LDDW), offsets as signed 16-bit numbers. */
  function Normal(r: Rec): Rec
  {
    match r
    case Load(size, sx, dst, src, off) => Load(size, sx, dst, src, Signed16(ToU16(off)))
    case LoadWide(dst, imm) => LoadWide(dst, ToU64(imm))
    case StoreImm(size, dst, off, imm) => StoreImm(size, dst, Signed16(ToU16(off)), ToU32(imm))
    case StoreReg(size, dst, off, src) => StoreReg(size, dst, Signed16(ToU16(off)), src)
    case Binary(wide, op, signed, dst, operand) => Binary(wide, op, signed, dst, NormalOperand(operand))
    case CompareJump(op, dst, operand, off) => CompareJump(op, dst, NormalOperand(operand), Signed16(ToU16(off)))
    case Jump(off) => Jump(Signed16(ToU16(off)))
    case CallHelper(imm) => CallHelper(ToU32(imm))
    case CallLocal(imm) => CallLocal(ToU32(imm))
    case _ => r
  }

  lemma RegisterNibbles(dst: u4, src: u4)
    ensures (dst + 16 * src) % 16 == dst && (dst + 16 * src) / 16 == src
  {
  }

  lemma OpcodeParts(c: nat, s: nat, op: nat)
    requires c < 8 && s < 2 && op < 16
    ensures var b := c + 8 * s + 16 * op; b < 256 && b % 8 == c && b / 8 % 2 == s && b / 16 == op
  {
  }

  lemma SizeParts(c: nat, size: nat, mode: nat)
    requires c < 8 && size < 4 && mode < 8
    ensures var b := c + 8 * size + 32 * mode; b < 256 && b % 8 == c && b / 8 % 4 == size && b / 32 == mode
  {
  }

  lemma SmallWraps()
    ensures ToU16(0) == 0 && ToU16(1) == 1 && ToU32(0) == 0
  {
  }

  lemma MemoryRoundTrip(r: Rec, next: Option<Raw>)
    requires Assemblable(r) && (r.Load? || r.StoreImm? || r.StoreReg?)
    ensures !Raises(AssembleOne(r)[0], next) && DisassembleOne(AssembleOne(r)[0], next) == Line(Normal(r), 1, false)
  {
    SmallWraps();
    hide ToU16, ToU32, Signed16;
    RegisterNibbles(r.dst, if r.StoreImm? then 0 else r.src);
    SizeParts(if r.Load? then 1 else if r.StoreImm? then 2 else 3, r.size, if r.Load? && r.sx then 4 else 3);
  }

  /** Disassembling an assembled record gives it back, normalised; only a local call draws a warning. */
  lemma RecordRoundTrip(r: Rec, next: Option<Raw>)
    requires Assemblable(r)
    ensures var slots := AssembleOne(r);
      && !Raises(slots[0], if r.LoadWide? then Some(slots[1]) else next)
      && DisassembleOne(slots[0], if r.LoadWide? then Some(slots[1]) else next) == Line(Normal(r), |slots|, r.CallLocal?)
  {
    match r
    case LoadWide(dst, imm) => WideRoundTrip(dst, imm);
    case Binary(wide, op, signed, dst, operand) => BinaryRoundTrip(wide, op, signed, dst, operand, next);
    case CompareJump(op, dst, operand, off) => CompareRoundTrip(op, dst, operand, off, next);
    case Load(_, _, _, _, _) => MemoryRoundTrip(r, next);
    case StoreImm(_, _, _, _) => MemoryRoundTrip(r, next);
    case StoreReg(_, _, _, _) => MemoryRoundTrip(r, next);
    case _ => OtherRoundTrip(r, next);
  }

  lemma OtherRoundTrip(r: Rec, next: Option<Raw>)
    requires Assemblable(r) && (r.Neg? || r.Endian? || r.Jump? || r.CallHelper? || r.CallLocal? || r.ExitProgram?)
    ensures !Raises(AssembleOne(r)[0], next) && DisassembleOne(AssembleOne(r)[0], next) == Line(Normal(r), 1, r.CallLocal?)
  {
    SmallWraps();
  }

  lemma WideRoundTrip(dst: u4, imm: int)
    ensures var slots := AssembleOne(LoadWide(dst, imm));
      DisassembleOne(slots[0], Some(slots[1])) == Line(Normal(LoadWide(dst, imm)), 2, false)
  {
    WideSplit(imm);
    RegisterNibbles(dst, 0);
    SmallWraps();
    hide ToU16, ToU32, ToU64;
  }

  /** The low 64 bits are the low 32 and the next 32. */
  lemma WideSplit(imm: int)
    ensures ToU64(imm) == ToU32(imm) + 0x1_0000_0000 * ToU32(imm / 0x1_0000_0000)
  {
    var w, q := 0x1_0000_0000, imm / 0x1_0000_0000;
    var r, low := q % w, imm % w;
    assert imm == q * w + low && q == (q / w) * w + r;
    assert imm == (q / w) * 0x1_0000_0000_0000_0000 + (r * w + low);
    ModUnique(imm, 0x1_0000_0000_0000_0000, q / w, r * w + low);
  }

  lemma BinaryRoundTrip(wide: bool, op: nat, signed: bool, dst: u4, operand: AsmOperand, next: Option<Raw>)
    requires Assemblable(Binary(wide, op, signed, dst, operand))
    ensures var r := Binary(wide, op, signed, dst, operand);
      !Raises(AssembleOne(r)[0], next) && DisassembleOne(AssembleOne(r)[0], next) == Line(Normal(r), 1, false)
  {
    hide ToU16, ToU32, Signed16, JumpLine, MemoryLine;
    SmallWraps();
    OpcodeParts(if wide then 7 else 4, if operand.RegOperand? then 1 else 0, op);
    RegisterNibbles(dst, if operand.RegOperand? then operand.reg else 0);
  }

  lemma CompareRoundTrip(op: nat, dst: u4, operand: AsmOperand, off: int, next: Option<Raw>)
    requires Assemblable(CompareJump(op, dst, operand, off))
    ensures var r := CompareJump(op, dst, operand, off);
      !Raises(AssembleOne(r)[0], next) && DisassembleOne(AssembleOne(r)[0], next) == Line(Normal(r), 1, false)
  {
    SmallWraps();
    hide ToU16, ToU32, Signed16;
    OpcodeParts(5, if operand.RegOperand? then 1 else 0, op);
    RegisterNibbles(dst, if operand.RegOperand? then operand.reg else 0);
  }

  lemma WrapsAgain(v: int)
    ensures ToU16(Signed16(ToU16(v))) == ToU16(v) && ToU32(ToU32(v)) == ToU32(v)
    ensures ToU32(ToU64(v)) == ToU32(v) && ToU32(ToU64(v) / 0x1_0000_0000) == ToU32(v / 0x1_0000_0000)
  {
    var w := 0x1_0000_0000_0000_0000;
    assert v == (v / w) * w + ToU64(v);
    assert v / 0x1_0000_0000 == (v / w) * 0x1_0000_0000 + ToU64(v) / 0x1_0000_0000;
  }

  /** Normalising does not change the bytes. */
  lemma NormalAssembles(r: Rec)
    requires Assemblable(r)
    ensures Assemblable(Normal(r)) && AssembleOne(Normal(r)) == AssembleOne(r)
  {
    hide ToU16, ToU32, ToU64, Signed16;
    match r
    case Load(_, _, _, _, off) => WrapsAgain(off);
    case LoadWide(_, imm) => WrapsAgain(imm);
    case StoreImm(_, _, off, imm) => WrapsAgain(off); WrapsAgain(imm);
    case StoreReg(_, _, off, _) => WrapsAgain(off);
    case Binary(_, _, _, _, operand) => if operand.ImmOperand? { WrapsAgain(operand.value); }
    case CompareJump(_, _, operand, off) => WrapsAgain(off); if operand.ImmOperand? { WrapsAgain(operand.value); }
    case Jump(off) => WrapsAgain(off);
    case CallHelper(imm) => WrapsAgain(imm);
    case CallLocal(imm) => WrapsAgain(imm);
    case _ =>
  }
}
