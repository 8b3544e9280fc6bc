/** A decoder for the A64 instructions in calls, prologues and exits of compiled code, and what they do. */
module ArmWords {
  import opened Words
  import opened Relocation
  import opened Semantics
  import opened HostFlags
  import opened ArmBranches
  import opened ArmEmission
  import ArmProgram
  import A = Arm64

  const LR: A.Reg := 30
  const SP: A.Reg := 31

  /** Register 31 is SP in immediate additions and as a base, and zero in `Plain` instructions. */
  datatype Insn =
    | Plain(inst: A.AInst)
    | AddImm(rd: A.Reg, rn: A.Reg, v: int)
    | TestImm(rd: A.Reg, rn: A.Reg, imm: nat)
    | LoadReg(rt: A.Reg, rn: A.Reg, offset: int)
    | StoreReg(rt: A.Reg, rn: A.Reg, offset: int)
    | LoadPair(rt: A.Reg, ru: A.Reg, rn: A.Reg, offset: int)
    | StorePair(rt: A.Reg, ru: A.Reg, rn: A.Reg, offset: int)
    | CallReg(rn: A.Reg)
    | Return(rn: A.Reg)
    | Branch(link: bool, rel: int)
    | BranchIf(code: nat, rel: int)
    | LoadLiteral(rt: A.Reg, rel: int)
    | AddressOf(rd: A.Reg, rel: int)

  /** A two's-complement field of `bits` bits. */
  function SignedField(v: nat, size: nat): int { if v >= size / 2 then v - size else v }

  /** 64-bit operations with two register operands and no shift: the upper bits, and bits 10 to 15. */
  function DecodeRegisters(top: nat, low: nat): Option<A.RegOp>
  {
    if low == 0 then
      if top == 0x458 then Some(A.AAdd) else if top == 0x658 then Some(A.ASub)
      else if top == 0x550 then Some(A.AOrr) else if top == 0x650 then Some(A.AEor) else None
    else if top == 0x4d6 && low == 8 then Some(A.ALsl)
    else None
  }

  function DecodeMove(top: nat): Option<A.MoveOp>
  {
    if top == 0xa5 then Some(A.MovZ) else if top == 0x25 then Some(A.MovN) else if top == 0xe5 then Some(A.MovK) else None
  }

  /** Everything but branches and literals, from bits 21 to 31, 16 to 20, 10 to 15, 5 to 9 and 0 to 4. */
  function DecodeParts(top: nat, m: A.Reg, low: nat, n: A.Reg, d: A.Reg): Option<Insn>
    requires top < 0x800 && low < 64
  {
    if top == 0x6b1 && m == 31 && low == 0 && d == 0 then Some(CallReg(n))
    else if top == 0x6b2 && m == 31 && low == 0 && d == 0 then Some(Return(n))
    else if top == 0x7c2 && low % 4 == 0 then Some(LoadReg(d, n, SignedField(low / 4 + 16 * m, 0x200)))
    else if top == 0x7c0 && low % 4 == 0 then Some(StoreReg(d, n, SignedField(low / 4 + 16 * m, 0x200)))
    else if top / 2 == 0x2a5 then Some(LoadPair(d, low % 32, n, 8 * SignedField(low / 32 + 2 * m + 64 * (top % 2), 0x80)))
    else if top / 2 == 0x2a4 then Some(StorePair(d, low % 32, n, 8 * SignedField(low / 32 + 2 * m + 64 * (top % 2), 0x80)))
    else if DecodeMove(top / 4 % 0x100).Some? then
      Some(Plain(A.MoveWide(top >= 0x400, DecodeMove(top / 4 % 0x100).value, d, top % 4, n + 32 * low + 2048 * m)))
    else if DecodeRegisters(top, low).Some? then Some(Plain(A.Op3(true, DecodeRegisters(top, low).value, d, n, m)))
    else if top / 2 == 0x244 then Some(AddImm(d, n, low + 64 * m + 2048 * (top % 2)))
    else if top / 2 == 0x344 then Some(AddImm(d, n, -(low + 64 * m + 2048 * (top % 2))))
    else if top / 2 == 0x3c4 then Some(TestImm(d, n, low + 64 * m + 2048 * (top % 2)))
    else None
  }

  function DecodeWord(w: u32): Option<Insn>
  {
    if w / 0x400_0000 == 0x05 then Some(Branch(false, Displacement(Unconditional, w)))
    else if w / 0x400_0000 == 0x25 then Some(Branch(true, Displacement(Unconditional, w)))
    else if w / 0x100_0000 == 0x54 && w / 16 % 2 == 0 then Some(BranchIf(w % 16, Displacement(Conditional, w)))
    else if w / 0x100_0000 == 0x58 then Some(LoadLiteral(w % 32, Displacement(Conditional, w)))
    else if w / 0x100_0000 == 0x10 then Some(AddressOf(w % 32, Displacement(Conditional, w)))
    else DecodeParts(w / 0x20_0000, w / 0x1_0000 % 32, w / 0x400 % 64, w / 32 % 32, w % 32)
  }

  /** A word put together from its parts is decoded by them. */
  lemma PartsDecode(w: u32, top: nat, m: A.Reg, low: nat, n: A.Reg, d: A.Reg)
    requires top < 0x800 && low < 64 && w == 0x20_0000 * top + 0x1_0000 * m + 0x400 * low + 32 * n + d
    requires top / 32 !in {0x05, 0x25} && top / 8 !in {0x54, 0x58, 0x10}
    ensures DecodeWord(w) == DecodeParts(top, m, low, n, d)
  {
    hide Displacement, DecodeParts;
    ModUnique(w, 32, 0x1_0000 * top + 0x800 * m + 32 * low + n, d);
    ModUnique(w / 32, 32, 0x800 * top + 64 * m + low, n);
    ModUnique(w, 0x400, 0x800 * top + 64 * m + low, 32 * n + d);
    ModUnique(w / 0x400, 64, 32 * top + m, low);
    ModUnique(w, 0x1_0000, 32 * top + m, 0x400 * low + 32 * n + d);
    ModUnique(w / 0x1_0000, 32, top, m);
    ModUnique(w, 0x20_0000, top, 0x1_0000 * m + 0x400 * low + 32 * n + d);
    UpperParts(w, top);
  }

  lemma UpperParts(w: u32, top: nat)
    requires w / 0x20_0000 == top
    ensures w / 0x100_0000 == top / 8 && w / 0x400_0000 == top / 32
  {
  }

  // ---------------------------------------------------------------- encodings

  /** What the words of a constant load are decoded to is what they were encoded from. */
  lemma LoadDecodes(i: A.AInst)
    requires (i.MoveWide? && i.block < 4) || (i.Op3? && i.wide && i.op.AEor?)
    ensures DecodeWord(ArmProgram.EncodeLoad(i)) == Some(Plain(i))
  {
    hide DecodeWord;
    if i.MoveWide? {
      MoveDecodes(i);
    } else {
      PartsDecode(ArmProgram.EncodeLoad(i), 0x650, i.rm, 0, i.rn, i.rd);
    }
  }

  lemma MoveDecodes(i: A.AInst)
    requires i.MoveWide? && i.block < 4
    ensures DecodeWord(EncodeMove(i)) == Some(Plain(i))
  {
    hide DecodeWord, DecodeParts;
    var high := (if i.wide then 0x100 else 0) + match i.mop case MovN => 0x25 case MovZ => 0xa5 case MovK => 0xe5;
    var m, low, n := i.imm16 / 2048, i.imm16 / 32 % 64, i.imm16 % 32;
    ImmediateParts(i.imm16);
    PartsDecode(EncodeMove(i), 4 * high + i.block, m, low, n, i.rd);
    MoveParts(high, i.block, m, low, n, i.rd);
  }

  lemma MoveParts(high: nat, block: nat, m: A.Reg, low: nat, n: A.Reg, d: A.Reg)
    requires high in {0x25, 0xa5, 0xe5, 0x125, 0x1a5, 0x1e5} && block < 4 && low < 64
    ensures DecodeParts(4 * high + block, m, low, n, d) ==
            Some(Plain(A.MoveWide(high >= 0x100, DecodeMove(high % 0x100).value, d, block, n + 32 * low + 2048 * m)))
  {
  }

  lemma ImmediateParts(v: u16)
    ensures v == v % 32 + 32 * (v / 32 % 64) + 2048 * (v / 2048) && v / 2048 < 32
  {
  }

  /** What a field's instruction is when it is patched for a displacement. */
  function FieldInsn(kind: Kind, base: u32, rel: int): Insn
  {
    match kind
    case JumpKind => if ReadForm(kind, base).Conditional? then BranchIf(base % 16, rel) else Branch(base == 0x9400_0000, rel)
    case CallKind => Branch(true, rel)
    case LoadKind => LoadLiteral(base % 32, rel)
    case LeaKind => AddressOf(base % 32, rel)
  }

  /** A patched field is still the instruction that was emitted, an ADR if the displacement is in range. */
  lemma FieldDecodes(kind: Kind, base: u32, rel: int)
    requires BaseOk(kind, base) && rel % 4 == 0 && (kind.LeaKind? ==> rel >= 0 && InRange(Conditional, rel))
    ensures var w := FixedWord(kind, base, rel);
      DecodeWord(w) == Some(FieldInsn(kind, base, Displacement(ReadForm(kind, base), w)))
  {
    hide Displacement, FixedWord, InRange, Pow2, FormOf, DecodeWord;
    Pow2Fields();
    FieldKeeps(kind, base, rel);
    BaseForms(kind, base);
    if kind.JumpKind? { JumpForms(base); }
    var f := CutField(ReadForm(kind, base), rel);
    if ReadForm(kind, base).Unconditional? { LongDecodes(base, f); } else { ShortDecodes(base, f); }
  }

  lemma LongDecodes(base: u32, f: nat)
    requires base in {0x1400_0000, 0x9400_0000} && f < 0x400_0000
    ensures DecodeWord(base + f) == Some(Branch(base == 0x9400_0000, Displacement(Unconditional, base + f)))
  {
    hide Displacement, DecodeParts;
    ModUnique(base + f, 0x400_0000, if base == 0x1400_0000 then 0x05 else 0x25, f);
  }

  /** B.cond, LDR of a literal and ADR. */
  lemma ShortDecodes(base: u32, f: nat)
    requires f < 0x8_0000 && (0x5400_0000 <= base < 0x5400_0010 || 0x5800_0000 <= base < 0x5800_0020 || 0x1000_0000 <= base < 0x1000_0020)
    ensures var w, top := base + 32 * f, base / 0x100_0000;
      DecodeWord(w) == Some(if top == 0x54 then BranchIf(base % 16, Displacement(Conditional, w))
                            else if top == 0x58 then LoadLiteral(base % 32, Displacement(Conditional, w))
                            else AddressOf(base % 32, Displacement(Conditional, w)))
  {
    hide Displacement, DecodeParts;
    var top, low := base / 0x100_0000, base % 0x100_0000;
    assert low < 32 && top in {0x54, 0x58, 0x10} && (top == 0x54 ==> low < 16);
    ModUnique(base + 32 * f, 0x100_0000, top, low + 32 * f);
    ModUnique(base + 32 * f, 0x400_0000, top / 4, 0x100_0000 * (top % 4) + low + 32 * f);
    LowParts(top, low, f, base);
  }

  lemma LowParts(top: nat, low: nat, f: nat, base: nat)
    requires low < 32 && base == 0x100_0000 * top + low
    ensures base % 32 == low && base % 16 == low % 16
    ensures (base + 32 * f) % 32 == low && (base + 32 * f) % 16 == low % 16 && (base + 32 * f) / 16 % 2 == low / 16
  {
    ModUnique(base, 32, 0x8_0000 * top, low);
    ModUnique(base, 16, 0x10_0000 * top + low / 16, low % 16);
    ModUnique(base + 32 * f, 32, 0x8_0000 * top + f, low);
    ModUnique(base + 32 * f, 16, 0x10_0000 * top + 2 * f + low / 16, low % 16);
    ModUnique((base + 32 * f) / 16, 2, 0x8_0000 * top + f, low / 16);
  }

  lemma FieldKeeps(kind: Kind, base: u32, rel: int)
    requires BaseOk(kind, base) && rel % 4 == 0 && (kind.LeaKind? ==> rel >= 0 && InRange(Conditional, rel))
    ensures var form := ReadForm(kind, base); FixedWord(kind, base, rel) == base + Pow2(FieldAt(form)) * CutField(form, rel)
  {
    hide Displacement, Fixed, FixedAdr, Unresolved, FormOf, Pow2;
    var form := ReadForm(kind, base);
    BaseForms(kind, base);
    FixedField(form, base, rel);
    if kind.LeaKind? {
      Pow2Fields();
      AdrIsFixed(base, rel);
    }
  }

  // ---------------------------------------------------------------- the words of calls, prologues and exits

  lemma LoadTop()
    ensures DecodeWord(0xf840_03f8) == Some(LoadReg(24, SP, 0))
  {
    hide DecodeWord;
    PartsDecode(0xf840_03f8, 0x7c2, 0, 0, 31, 24);
  }

  lemma LowerR10()
    ensures DecodeWord(0xcb18_02f7) == Some(Plain(A.Op3(true, A.ASub, 23, 23, 24)))
  {
    hide DecodeWord;
    PartsDecode(0xcb18_02f7, 0x658, 24, 0, 23, 23);
  }

  lemma ReserveSix()
    ensures DecodeWord(0xd100_c3ff) == Some(AddImm(SP, SP, -48))
  {
    hide DecodeWord;
    PartsDecode(0xd100_c3ff, 0x688, 0, 48, 31, 31);
  }

  lemma StoreLr()
    ensures DecodeWord(0xf800_03fe) == Some(StoreReg(LR, SP, 0))
  {
    hide DecodeWord;
    PartsDecode(0xf800_03fe, 0x7c0, 0, 0, 31, 30);
  }

  lemma StoreUsage()
    ensures DecodeWord(0xf800_83f8) == Some(StoreReg(24, SP, 8))
  {
    hide DecodeWord;
    PartsDecode(0xf800_83f8, 0x7c0, 0, 32, 31, 24);
  }

  lemma StoreR6R7()
    ensures DecodeWord(0xa901_53f3) == Some(StorePair(19, 20, SP, 16))
  {
    hide DecodeWord;
    PartsDecode(0xa901_53f3, 0x548, 1, 20, 31, 19);
  }

  lemma StoreR8R9()
    ensures DecodeWord(0xa902_5bf5) == Some(StorePair(21, 22, SP, 32))
  {
    hide DecodeWord;
    PartsDecode(0xa902_5bf5, 0x548, 2, 22, 31, 21);
  }

  lemma LoadLr()
    ensures DecodeWord(0xf840_03fe) == Some(LoadReg(LR, SP, 0))
  {
    hide DecodeWord;
    PartsDecode(0xf840_03fe, 0x7c2, 0, 0, 31, 30);
  }

  lemma LoadUsage()
    ensures DecodeWord(0xf840_83f8) == Some(LoadReg(24, SP, 8))
  {
    hide DecodeWord;
    PartsDecode(0xf840_83f8, 0x7c2, 0, 32, 31, 24);
  }

  lemma LoadR6R7()
    ensures DecodeWord(0xa941_53f3) == Some(LoadPair(19, 20, SP, 16))
  {
    hide DecodeWord;
    PartsDecode(0xa941_53f3, 0x54a, 1, 20, 31, 19);
  }

  lemma LoadR8R9()
    ensures DecodeWord(0xa942_5bf5) == Some(LoadPair(21, 22, SP, 32))
  {
    hide DecodeWord;
    PartsDecode(0xa942_5bf5, 0x54a, 2, 22, 31, 21);
  }

  lemma ReleaseSix()
    ensures DecodeWord(0x9100_c3ff) == Some(AddImm(SP, SP, 48))
  {
    hide DecodeWord;
    PartsDecode(0x9100_c3ff, 0x488, 0, 48, 31, 31);
  }

  lemma RaiseR10()
    ensures DecodeWord(0x8b18_02f7) == Some(Plain(A.Op3(true, A.AAdd, 23, 23, 24)))
  {
    hide DecodeWord;
    PartsDecode(0x8b18_02f7, 0x458, 24, 0, 23, 23);
  }

  lemma ReserveTwo()
    ensures DecodeWord(0xd100_43ff) == Some(AddImm(SP, SP, -16))
  {
    hide DecodeWord;
    PartsDecode(0xd100_43ff, 0x688, 0, 16, 31, 31);
  }

  lemma StoreTwice()
    ensures DecodeWord(0xa900_63f8) == Some(StorePair(24, 24, SP, 0))
  {
    hide DecodeWord;
    PartsDecode(0xa900_63f8, 0x548, 0, 24, 31, 24);
  }

  lemma ReleaseTwo()
    ensures DecodeWord(0x9100_43ff) == Some(AddImm(SP, SP, 16))
  {
    hide DecodeWord;
    PartsDecode(0x9100_43ff, 0x488, 0, 16, 31, 31);
  }

  lemma ReturnToLr()
    ensures DecodeWord(0xd65f_03c0) == Some(Return(LR))
  {
    hide DecodeWord;
    PartsDecode(0xd65f_03c0, 0x6b2, 31, 0, 30, 0);
  }

  lemma TestAddress()
    ensures DecodeWord(0xf100_0318) == Some(TestImm(24, 24, 0))
  {
    hide DecodeWord;
    PartsDecode(0xf100_0318, 0x788, 0, 0, 24, 24);
  }

  lemma ThreeToR6()
    ensures DecodeWord(0xd280_0066) == Some(Plain(A.MoveWide(true, A.MovZ, 6, 0, 3)))
  {
    hide DecodeWord;
    MoveDecodes(A.MoveWide(true, A.MovZ, 6, 0, 3));
  }

  lemma ScaleIndex()
    ensures DecodeWord(0x9ac6_20a5) == Some(Plain(A.Op3(true, A.ALsl, 5, 5, 6)))
  {
    hide DecodeWord;
    PartsDecode(0x9ac6_20a5, 0x4d6, 6, 8, 5, 5);
  }

  lemma ClearAddress()
    ensures DecodeWord(0xd280_0018) == Some(Plain(A.MoveWide(true, A.MovZ, 24, 0, 0)))
  {
    hide DecodeWord;
    MoveDecodes(A.MoveWide(true, A.MovZ, 24, 0, 0));
  }

  lemma AddIndex()
    ensures DecodeWord(0x8b05_0318) == Some(Plain(A.Op3(true, A.AAdd, 24, 24, 5)))
  {
    hide DecodeWord;
    PartsDecode(0x8b05_0318, 0x458, 5, 0, 24, 24);
  }

  lemma LoadEntry()
    ensures DecodeWord(0xf840_0318) == Some(LoadReg(24, 24, 0))
  {
    hide DecodeWord;
    PartsDecode(0xf840_0318, 0x7c2, 0, 0, 24, 24);
  }

  lemma ContextToR5()
    ensures DecodeWord(0xaa1a_03e5) == Some(Plain(A.Op3(true, A.AOrr, 5, 31, 26)))
  {
    hide DecodeWord;
    PartsDecode(0xaa1a_03e5, 0x550, 26, 0, 31, 5);
  }

  lemma ContextToR6()
    ensures DecodeWord(0xaa1a_03e6) == Some(Plain(A.Op3(true, A.AOrr, 6, 31, 26)))
  {
    hide DecodeWord;
    PartsDecode(0xaa1a_03e6, 0x550, 26, 0, 31, 6);
  }

  lemma CallAddress()
    ensures DecodeWord(0xd63f_0300) == Some(CallReg(24))
  {
    hide DecodeWord;
    PartsDecode(0xd63f_0300, 0x6b1, 31, 0, 24, 0);
  }

  lemma ResultToR5()
    ensures DecodeWord(0xaa00_03e5) == Some(Plain(A.Op3(true, A.AOrr, 5, 31, 0)))
  {
    hide DecodeWord;
    PartsDecode(0xaa00_03e5, 0x550, 0, 0, 31, 5);
  }

  lemma TestResult()
    ensures DecodeWord(0xf100_00bf) == Some(TestImm(31, 5, 0))
  {
    hide DecodeWord;
    PartsDecode(0xf100_00bf, 0x788, 0, 0, 5, 31);
  }

  // ---------------------------------------------------------------- runs

  /** A core running code that stands at address `o`; `regs[31]` is SP. */
  datatype Core = Core(pc: int, regs: A.ARegs, flags: Flags, mem: Memory)

  /** The eight bytes at an address. */
  function DWord(m: Memory, a: int): u64
  {
    Pow2Widths();
    Load(m, ToU64(a), 8)
  }

  function Set(s: Core, r: A.Reg, v: u64): Core { s.(regs := s.regs[r := v]) }

  /** A register that is loaded or stored, not an address: there 31 is the zero register. */
  function Data(s: Core, r: A.Reg): u64 { if r == 31 then 0 else s.regs[r] }

  function WithData(s: Core, r: A.Reg, v: u64): Core { if r == 31 then s else Set(s, r, v) }

  function Do(i: Insn, s: Core): Core
  {
    var next := s.(pc := s.pc + 4);
    match i
    case Plain(inst) =>
      var m := A.Do(inst, A.Arm(s.regs, s.flags, s.mem));
      next.(regs := m.regs, flags := m.flags, mem := m.mem)
    case AddImm(rd, rn, v) => Set(next, rd, ToU64(s.regs[rn] + v))
    case TestImm(rd, rn, imm) =>
      var t := next.(flags := SubFlags(true, s.regs[rn], ToU64(imm)));
      if rd == 31 then t else Set(t, rd, ToU64(s.regs[rn] - imm))
    case LoadReg(rt, rn, offset) => WithData(next, rt, DWord(s.mem, s.regs[rn] + offset))
    case StoreReg(rt, rn, offset) => next.(mem := Store(s.mem, ToU64(s.regs[rn] + offset), Data(s, rt), 8))
    case LoadPair(rt, ru, rn, offset) =>
      WithData(WithData(next, rt, DWord(s.mem, s.regs[rn] + offset)), ru, DWord(s.mem, s.regs[rn] + offset + 8))
    case StorePair(rt, ru, rn, offset) =>
      next.(mem := Store(Store(s.mem, ToU64(s.regs[rn] + offset), Data(s, rt), 8), ToU64(s.regs[rn] + offset + 8), Data(s, ru), 8))
    case CallReg(rn) => Set(s, LR, ToU64(s.pc + 4)).(pc := s.regs[rn])
    case Return(rn) => s.(pc := s.regs[rn])
    case Branch(link, rel) => (if link then Set(s, LR, ToU64(s.pc + 4)) else s).(pc := s.pc + rel)
    case BranchIf(code, rel) => s.(pc := if A.CodeHolds(code, s.flags) then s.pc + rel else s.pc + 4)
    case LoadLiteral(rt, rel) => WithData(next, rt, DWord(s.mem, s.pc + rel))
    case AddressOf(rd, rel) => WithData(next, rd, ToU64(s.pc + rel))
  }

  lemma DoAddSub(sub: bool, d: A.Reg, n: A.Reg, m: A.Reg, s: Core)
    requires d != 31 && n != 31 && m != 31
    ensures Do(Plain(A.Op3(true, if sub then A.ASub else A.AAdd, d, n, m)), s) ==
            s.(pc := s.pc + 4, regs := s.regs[d := ToU64(if sub then s.regs[n] as int - s.regs[m] else s.regs[n] as int + s.regs[m])])
  {
    hide Pow2;
  }

  /** Stores that do not wrap around the address space. */
  lemma DoStores(r: A.Reg, u: A.Reg, n: A.Reg, offset: int, s: Core)
    requires r != 31 && u != 31 && 0 <= s.regs[n] + offset && s.regs[n] + offset + 16 <= 0x1_0000_0000_0000_0000
    ensures Do(StoreReg(r, n, offset), s) == s.(pc := s.pc + 4, mem := Store(s.mem, s.regs[n] + offset, s.regs[r], 8))
    ensures Do(StorePair(r, u, n, offset), s) ==
            s.(pc := s.pc + 4, mem := Store(Store(s.mem, s.regs[n] + offset, s.regs[r], 8), s.regs[n] + offset + 8, s.regs[u], 8))
  {
    hide Store;
  }

  lemma DoLoad(r: A.Reg, n: A.Reg, s: Core)
    requires r != 31
    ensures Do(LoadReg(r, n, 0), s) == s.(pc := s.pc + 4, regs := s.regs[r := DWord(s.mem, s.regs[n])])
  {
    hide DWord;
  }

  lemma DoAddress(r: A.Reg, rel: int, s: Core)
    requires r != 31 && 0 <= s.pc + rel < 0x1_0000_0000_0000_0000
    ensures Do(AddressOf(r, rel), s) == s.(pc := s.pc + 4, regs := s.regs[r := s.pc + rel])
  {
  }

  lemma DoBranch(rel: int, s: Core)
    ensures Do(Branch(false, rel), s) == s.(pc := s.pc + rel)
  {
  }

  lemma DoMoveSp(v: int, s: Core)
    requires 0 <= s.regs[SP] + v < 0x1_0000_0000_0000_0000
    ensures Do(AddImm(SP, SP, v), s) == s.(pc := s.pc + 4, regs := s.regs[SP := s.regs[SP] + v])
  {
  }

  /** ORR with the zero register copies. */
  lemma DoCopy(d: A.Reg, m: A.Reg, s: Core)
    requires d != 31 && m != 31
    ensures Do(Plain(A.Op3(true, A.AOrr, d, 31, m)), s) == s.(pc := s.pc + 4, regs := s.regs[d := s.regs[m]])
  {
    Pow2Widths();
    OrWithNothing(64, s.regs[m]);
    hide Pow2, Bits;
  }

  lemma {:induction false} OrWithNothing(n: nat, a: nat)
    requires a < Pow2(n)
    ensures Bits(Or, n, 0, a) == a
  {
    if n > 0 {
      OrWithNothing(n - 1, a / 2);
    }
  }

  lemma DoMove(d: A.Reg, v: u16, s: Core)
    requires d != 31
    ensures Do(Plain(A.MoveWide(true, A.MovZ, d, 0, v)), s) == s.(pc := s.pc + 4, regs := s.regs[d := v])
  {
  }

  /** A test against zero, and what B.EQ and B.NE make of it. */
  lemma DoTest(rd: A.Reg, n: A.Reg, s: Core)
    requires n != 31 && (rd == n || rd == 31)
    ensures var t := Do(TestImm(rd, n, 0), s);
      && t == s.(pc := s.pc + 4, flags := t.flags)
      && (A.CodeHolds(0, t.flags) <==> s.regs[n] == 0) && (A.CodeHolds(1, t.flags) <==> s.regs[n] != 0)
  {
  }

  /** LSLV by three. */
  lemma DoScale(d: A.Reg, m: A.Reg, s: Core)
    requires d != 31 && m != 31 && s.regs[m] == 3 && s.regs[d] < 0x1_0000_0000
    ensures Do(Plain(A.Op3(true, A.ALsl, d, d, m)), s) == s.(pc := s.pc + 4, regs := s.regs[d := 8 * s.regs[d]])
  {
    assert Pow2(0) == 1 && Pow2(1) == 2 && Pow2(2) == 4 && Pow2(3) == 8;
  }

  /** The instruction at `pc` in code that stands at `o`. */
  function Fetched(b: seq<u32>, o: nat, pc: int): Option<Insn>
  {
    var k := (pc - o) / 4;
    if 0 <= k < |b| && pc == o + 4 * k then DecodeWord(b[k]) else None
  }

  lemma FetchedAt(b: seq<u32>, o: nat, n: nat)
    requires n < |b|
    ensures Fetched(b, o, o + 4 * n) == DecodeWord(b[n])
  {
    hide DecodeWord;
  }

  function Run(b: seq<u32>, o: nat, s: Core, n: nat): Option<Core>
  {
    if n == 0 then Some(s)
    else match Run(b, o, s, n - 1)
         case None => None
         case Some(t) => match Fetched(b, o, t.pc) case None => None case Some(i) => Some(Do(i, t))
  }

  lemma {:induction false} RunRuns(b: seq<u32>, o: nat, s: Core, n: nat, m: nat)
    requires Run(b, o, s, n).Some?
    ensures Run(b, o, s, n + m) == Run(b, o, Run(b, o, s, n).value, m)
  {
    hide Do, Fetched;
    if m > 0 {
      RunRuns(b, o, s, n, m - 1);
    }
  }

  lemma RunNone(b: seq<u32>, o: nat, s: Core)
    ensures Run(b, o, s, 0) == Some(s)
  {
  }

  /** One more step, the `k`-th word of the code being the next. */
  lemma RunNext(b: seq<u32>, o: nat, s: Core, n: nat, t: Core, k: nat, i: Insn)
    requires Run(b, o, s, n) == Some(t) && k < |b| && t.pc == o + 4 * k && DecodeWord(b[k]) == Some(i)
    ensures Run(b, o, s, n + 1) == Some(Do(i, t))
  {
    hide Do, DecodeWord;
    FetchedAt(b, o, k);
  }
}
