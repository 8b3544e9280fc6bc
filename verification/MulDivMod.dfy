/** The x86-64 lowering of multiplication, division and modulo, including zero divisors and signed overflow. */
module MulDivMod {
  import opened Words
  import opened Isa
  import opened X86
  import opened Blinding

  /** How the divisor reaches RCX: from a register, a plain immediate or a blinded one. */
  datatype Source = FromReg(src: Reg) | FromImm(imm: i32) | FromBlinded(imm: i32, random: u64)

  datatype Kind = KMul | KDiv | KMod

  function SaveScratch(dst: Reg): seq<XInst>
  {
    (if dst != RAX then [Push(RAX)] else []) + (if dst != RDX then [Push(RDX)] else [])
  }

  function LoadOperands(source: Source, dst: Reg): seq<XInst>
  {
    (match source
     case FromReg(src) => [Rr(MovOp, true, RCX, src)]
     case FromImm(imm) => LoadImm(RCX, ToU64(imm))
     case FromBlinded(imm, random) => LoadImmBlinded(RCX, ToU64(imm), random)) + [Rr(MovOp, true, RAX, dst)]
  }

  /** Test the divisor, saving the dividend if the modulo will need it. */
  function TestDivisor(kind: Kind, wide: bool): seq<XInst>
  {
    if kind.KMod? then [Rr(TestOp, wide, RCX, RCX), Push(RAX)] else [Rr(TestOp, wide, RCX, RCX)]
  }

  /** Save the outcome of the test, replace a zero divisor by 1 and extend the dividend into RDX. */
  function FixDivisor(wide: bool, signed: bool): seq<XInst>
  {
    [Pushfq, Ri(MovOp, true, RDX, 1), CmovZero(RCX, RDX),
     if signed then SignExtendRax(wide) else Rr(XorOp, false, RDX, RDX)]
  }

  function PrepareDivide(kind: Kind, wide: bool, signed: bool): seq<XInst>
  {
    TestDivisor(kind, wide) + FixDivisor(wide, signed)
  }

  /** The guard around IDIV: the most negative dividend over -1 is answered without dividing. */
  function GuardedIdiv(kind: Kind, wide: bool): seq<XInst>
  {
    var fix := if kind.KMod? then [Rr(XorOp, false, RDX, RDX)] else [];
    var least := if wide then [MovAbs(R11, 0x8000_0000_0000_0000), Rr(CmpOp, true, RAX, R11)]
                 else [Ri(CmpOp, false, RAX, -0x8000_0000)];
    var body := fix + [JmpOver(1)];
    [Ri(CmpOp, wide, RCX, -1), JneOver(|least| + 1 + |body|)] + least + [JneOver(|body|)] + body + [Div(wide, true, RCX)]
  }

  function Operate(kind: Kind, wide: bool, signed: bool): seq<XInst>
  {
    if kind.KMul? then [Mul(wide, RCX)]
    else if signed then GuardedIdiv(kind, wide)
    else [Div(wide, false, RCX)]
  }

  /** Put in the zero-divisor result if the saved test says so. */
  function SelectResult(kind: Kind): seq<XInst>
  {
    if kind.KDiv? then [Popfq, Ri(MovOp, true, RCX, 0), CmovZero(RAX, RCX)]
    else [Popfq, Pop(RCX), CmovZero(RDX, RCX)]
  }

  function Finish(kind: Kind, dst: Reg): seq<XInst>
  {
    (if dst != RDX then (if kind.KMod? then [Rr(MovOp, true, dst, RDX)] else []) + [Pop(RDX)] else []) +
    (if dst != RAX then (if kind.KMod? then [] else [Rr(MovOp, true, dst, RAX)]) + [Pop(RAX)] else [])
  }

  predicate ZeroImmediate(source: Source) { !source.FromReg? && source.imm == 0 }

  /** The instructions of `emit_muldivmod`. */
  function Code(kind: Kind, wide: bool, signed: bool, source: Source, dst: Reg): seq<XInst>
  {
    if ZeroImmediate(source) then
      if kind.KMod? then [Rr(MovOp, true, dst, dst)] else [Rr(XorOp, false, dst, dst)]
    else
      SaveScratch(dst) + LoadOperands(source, dst) +
      (if kind.KMul? then [] else PrepareDivide(kind, wide, signed)) + Operate(kind, wide, signed) +
      (if kind.KMul? then [] else SelectResult(kind)) + Finish(kind, dst)
  }

  /** The truncation `translate` adds after every 32-bit ALU instruction: an AND of the low half with all ones. */
  function Truncate(wide: bool, dst: Reg): seq<XInst> { if wide then [] else [Ri(AndOp, false, dst, -1)] }

  function OperandOf(source: Source, m: Machine): u64
  {
    match source
    case FromReg(src) => m.regs[src]
    case FromImm(imm) => ToU64(imm)
    case FromBlinded(imm, _) => ToU64(imm)
  }

  function AluOf(kind: Kind): AluOp { match kind case KMul => OpMul case KDiv => OpDiv case KMod => OpMod }

  // ---------------------------------------------------------------- emission

  /** `emit_muldivmod`: append instruction by instruction, then patch the forward jumps once their targets are known. */
  method Emit(kind: Kind, wide: bool, signed: bool, source: Source, dst: Reg) returns (code: seq<XInst>)
    requires kind.KMul? ==> !signed
    ensures code == Code(kind, wide, signed, source, dst)
  {
    hide LoadOperands, PrepareDivide, GuardedIdiv, SelectResult, Finish;
    code := [];
    if ZeroImmediate(source) {
      code := code + [if kind.KMod? then Rr(MovOp, true, dst, dst) else Rr(XorOp, false, dst, dst)];
      return;
    }
    if dst != RAX { code := code + [Push(RAX)]; }
    if dst != RDX { code := code + [Push(RDX)]; }
    assert code == SaveScratch(dst);
    code := code + LoadOperands(source, dst);
    if !kind.KMul? {
      code := code + PrepareDivide(kind, wide, signed);
    }
    if !kind.KMul? && signed {
      code := EmitGuardedIdiv(kind, wide, code);
    } else {
      code := code + [if kind.KMul? then Mul(wide, RCX) else Div(wide, false, RCX)];
    }
    if !kind.KMul? {
      code := code + SelectResult(kind);
    }
    code := code + Finish(kind, dst);
  }

  /** The overflow guard, with its two JNEs and its JMP emitted before their targets are known. */
  method EmitGuardedIdiv(kind: Kind, wide: bool, head: seq<XInst>) returns (code: seq<XInst>)
    requires !kind.KMul?
    ensures code == head + GuardedIdiv(kind, wide)
  {
    var guard := [Ri(CmpOp, wide, RCX, -1), JneOver(0)];
    if wide {
      guard := guard + [MovAbs(R11, 0x8000_0000_0000_0000), Rr(CmpOp, true, RAX, R11)];
    } else {
      guard := guard + [Ri(CmpOp, false, RAX, -0x8000_0000)];
    }
    guard := guard + [JneOver(0)];
    var jne2 := |guard| - 1;
    if kind.KMod? {
      guard := guard + [Rr(XorOp, false, RDX, RDX)];
    }
    guard := guard + [JmpOver(0)];
    var jmp := |guard| - 1;
    guard := guard[1 := JneOver(|guard| - 1 - 1)];
    guard := guard[jne2 := JneOver(|guard| - jne2 - 1)];
    guard := guard + [Div(wide, true, RCX)];
    guard := guard[jmp := JmpOver(|guard| - jmp - 1)];
    assert guard == GuardedIdiv(kind, wide);
    code := head + guard;
  }
}
