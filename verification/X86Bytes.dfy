/**
  A decoder for the x86-64 instructions in calls, prologues and the retpoline (prefix, opcode, ModR/M, SIB, displacement
  and immediate), and what those instructions do.
  */
module X86Bytes {
  import opened Words
  import opened Relocation

  type Reg = r: int | 0 <= r < 16

  const RAX: Reg := 0
  const RCX: Reg := 1
  const RDX: Reg := 2
  const RBX: Reg := 3
  const RSP: Reg := 4
  const RBP: Reg := 5
  const RSI: Reg := 6
  const RDI: Reg := 7
  const R8: Reg := 8
  const R9: Reg := 9
  const R10: Reg := 10
  const R11: Reg := 11
  const R15: Reg := 15

  datatype Insn =
    | Push(r: Reg)
    | Pop(r: Reg)
    | AluImm(code: nat, r: Reg, v: i32)   // 64-bit ADD (0), SUB (5) or CMP (7) with a sign-extended immediate
    | MovImm(wide: bool, r: Reg, v: i32)
    | MovAbs(r: Reg, value: u64)
    | MovReg(dst: Reg, src: Reg)
    | AddReg(dst: Reg, src: Reg)
    | ShiftLeft(r: Reg, n: nat)
    | AddTop(r: Reg)                      // add r, [rsp]
    | SubTop(r: Reg)                      // sub r, [rsp]
    | StoreTop(r: Reg)                    // mov [rsp], r
    | StoreTopImm(v: i32)                 // mov qword [rsp], v
    | Load(dst: Reg, src: Reg)            // mov dst, [src]
    | LoadAt(r: Reg, at: int)             // mov r, [rip + displacement]
    | AddressOf(r: Reg, at: int)          // lea r, [rip + displacement]
    | Call(to: int)
    | Jump(to: int)
    | JumpIf(code: nat, to: int)
    | Return
    | Pause

  /** A decoded instruction and where the next one starts. */
  datatype Decoded = Decoded(insn: Insn, next: nat)

  function Imm32(b: seq<u8>, p: nat): i32
    requires p + 4 <= |b|
  {
    Signed32(Word4(b[p..p + 4]))
  }

  /** An opcode with a ModR/M byte at `p`; `r` and `x` are the upper bits of its two register numbers. */
  function DecodeModRm(b: seq<u8>, op: u8, wide: bool, r: nat, x: nat, p: nat): Option<Decoded>
    requires r <= 1 && x <= 1
  {
    if p >= |b| then None
    else
      var mode, reg, rm := b[p] / 64, b[p] / 8 % 8, b[p] % 8;
      var dst: Reg, src: Reg := 8 * x + rm, 8 * r + reg;
      if mode == 3 then
        if op == 0x81 && wide && reg in {0, 5, 7} && p + 5 <= |b| then Some(Decoded(AluImm(reg, dst, Imm32(b, p + 1)), p + 5))
        else if op == 0xc7 && reg == 0 && p + 5 <= |b| then Some(Decoded(MovImm(wide, dst, Imm32(b, p + 1)), p + 5))
        else if op == 0xc1 && wide && reg == 4 && p + 2 <= |b| then Some(Decoded(ShiftLeft(dst, b[p + 1] % 64), p + 2))
        else if op == 0x89 && wide then Some(Decoded(MovReg(dst, src), p + 1))
        else if op == 0x01 && wide then Some(Decoded(AddReg(dst, src), p + 1))
        else None
      else if mode == 0 && wide && rm == 4 && p + 2 <= |b| && b[p + 1] == 0x24 && x == 0 then
        if op == 0x03 then Some(Decoded(AddTop(src), p + 2))
        else if op == 0x2b then Some(Decoded(SubTop(src), p + 2))
        else if op == 0x89 then Some(Decoded(StoreTop(src), p + 2))
        else if op == 0xc7 && reg == 0 && p + 6 <= |b| then Some(Decoded(StoreTopImm(Imm32(b, p + 2)), p + 6))
        else None
      else if mode == 0 && wide && rm == 5 && p + 5 <= |b| then
        if op == 0x8b then Some(Decoded(LoadAt(src, Lands(b, p + 1)), p + 5))
        else if op == 0x8d then Some(Decoded(AddressOf(src, Lands(b, p + 1)), p + 5))
        else None
      else if mode == 0 && wide && rm != 4 && rm != 5 && op == 0x8b then Some(Decoded(Load(src, dst), p + 1))
      else None
  }

  /** Opcodes without a ModR/M byte, then those with one; `rex` is the low half of the prefix. */
  function DecodeOpcode(b: seq<u8>, rex: nat, p: nat): Option<Decoded>
    requires rex < 16
  {
    if p >= |b| then None
    else
      var op, wide, r, x := b[p], rex / 8 == 1, rex / 4 % 2, rex % 2;
      if 0x50 <= op < 0x58 then Some(Decoded(Push(8 * x + op - 0x50), p + 1))
      else if 0x58 <= op < 0x60 then Some(Decoded(Pop(8 * x + op - 0x58), p + 1))
      else if 0xb8 <= op < 0xc0 && wide && p + 9 <= |b| then
        Some(Decoded(MovAbs(8 * x + op - 0xb8, Word4(b[p + 1..p + 5]) + 0x1_0000_0000 * Word4(b[p + 5..p + 9])), p + 9))
      else if op == 0xc3 then Some(Decoded(Return, p + 1))
      else if op == 0xe8 && p + 5 <= |b| then Some(Decoded(Call(Lands(b, p + 1)), p + 5))
      else if op == 0xe9 && p + 5 <= |b| then Some(Decoded(Jump(Lands(b, p + 1)), p + 5))
      else if op == 0xeb && p + 2 <= |b| then Some(Decoded(Jump(LandsNear(b, p + 1)), p + 2))
      else if op == 0x0f && p + 6 <= |b| && 0x80 <= b[p + 1] < 0x90 then
        Some(Decoded(JumpIf(b[p + 1] - 0x80, Lands(b, p + 2)), p + 6))
      else if op == 0xf3 && p + 2 <= |b| && b[p + 1] == 0x90 then Some(Decoded(Pause, p + 2))
      else DecodeModRm(b, op, wide, r, x, p + 1)
  }

  function DecodeInsn(b: seq<u8>, p: nat): Option<Decoded>
  {
    if p >= |b| then None
    else if 0x40 <= b[p] < 0x50 then DecodeOpcode(b, b[p] - 0x40, p + 1)
    else DecodeOpcode(b, 0, p)
  }

  // ---------------------------------------------------------------- the encodings that occur

  /** The given bytes stand at `p`. */
  predicate BytesAt(b: seq<u8>, p: nat, bytes: seq<u8>)
  {
    p + |bytes| <= |b| && forall i :: 0 <= i < |bytes| ==> b[p + i] == bytes[i]
  }

  lemma BytesAre(b: seq<u8>, p: nat, bytes: seq<u8>)
    requires p + |bytes| <= |b| && b[p..p + |bytes|] == bytes
    ensures BytesAt(b, p, bytes)
  {
    forall i | 0 <= i < |bytes|
      ensures b[p + i] == bytes[i]
    {
      assert b[p + i] == b[p..p + |bytes|][i];
    }
  }

  /** Part of what stands at `p`. */
  lemma PartAt(b: seq<u8>, p: nat, bytes: seq<u8>, i: nat, part: seq<u8>)
    requires BytesAt(b, p, bytes) && i + |part| <= |bytes| && bytes[i..i + |part|] == part
    ensures BytesAt(b, p + i, part)
  {
    forall j | 0 <= j < |part|
      ensures b[p + i + j] == part[j]
    {
      assert part[j] == bytes[i + j];
    }
  }

  lemma ImmAt(b: seq<u8>, p: nat, v: u32)
    requires BytesAt(b, p, Bytes4(v))
    ensures Imm32(b, p) == Signed32(v) && Word4(b[p..p + 4]) == v
  {
    assert b[p..p + 4] == Bytes4(v);
    hide Word4, Bytes4;
    Word4Bytes4(v);
  }

  lemma OneByte(b: seq<u8>, p: nat, x: u8)
    requires BytesAt(b, p, [x])
    ensures b[p] == x
  {
    assert [x][0] == x;
  }

  lemma TwoBytes(b: seq<u8>, p: nat, x: u8, y: u8)
    requires BytesAt(b, p, [x, y])
    ensures b[p] == x && b[p + 1] == y
  {
    assert [x, y][0] == x && [x, y][1] == y;
  }

  lemma ThreeBytes(b: seq<u8>, p: nat, x: u8, y: u8, z: u8)
    requires BytesAt(b, p, [x, y, z])
    ensures b[p] == x && b[p + 1] == y && b[p + 2] == z
  {
    assert [x, y, z][0] == x && [x, y, z][1] == y && [x, y, z][2] == z;
  }

  lemma FourBytes(b: seq<u8>, p: nat, x: u8, y: u8, z: u8, u: u8)
    requires BytesAt(b, p, [x, y, z, u])
    ensures b[p] == x && b[p + 1] == y && b[p + 2] == z && b[p + 3] == u
  {
    var s := [x, y, z, u];
    assert s[0] == x && s[1] == y && s[2] == z && s[3] == u;
  }

  /** One to four of the bytes that stand at `p`. */
  lemma OneOf(b: seq<u8>, p: nat, bytes: seq<u8>, i: nat, x: u8)
    requires BytesAt(b, p, bytes) && i < |bytes| && bytes[i] == x
    ensures BytesAt(b, p + i, [x])
  {
  }

  lemma TwoOf(b: seq<u8>, p: nat, bytes: seq<u8>, i: nat, x: u8, y: u8)
    requires BytesAt(b, p, bytes) && i + 2 <= |bytes| && bytes[i] == x && bytes[i + 1] == y
    ensures BytesAt(b, p + i, [x, y])
  {
    assert b[p + (i + 1)] == y;
  }

  lemma ThreeOf(b: seq<u8>, p: nat, bytes: seq<u8>, i: nat, x: u8, y: u8, z: u8)
    requires BytesAt(b, p, bytes) && i + 3 <= |bytes| && bytes[i] == x && bytes[i + 1] == y && bytes[i + 2] == z
    ensures BytesAt(b, p + i, [x, y, z])
  {
    assert b[p + (i + 1)] == y && b[p + (i + 2)] == z;
  }

  lemma FourOf(b: seq<u8>, p: nat, bytes: seq<u8>, i: nat, x: u8, y: u8, z: u8, u: u8)
    requires BytesAt(b, p, bytes) && i + 4 <= |bytes|
    requires bytes[i] == x && bytes[i + 1] == y && bytes[i + 2] == z && bytes[i + 3] == u
    ensures BytesAt(b, p + i, [x, y, z, u])
  {
    assert b[p + (i + 1)] == y && b[p + (i + 2)] == z && b[p + (i + 3)] == u;
  }

  lemma SmallImm(b: seq<u8>, p: nat, v: u8)
    requires v < 128 && BytesAt(b, p, [v, 0, 0, 0])
    ensures Imm32(b, p) == v && Word4(b[p..p + 4]) == v
  {
    FourBytes(b, p, v, 0, 0, 0);
  }

  lemma PushAt(b: seq<u8>, p: nat, r: Reg)
    requires if r < 8 then BytesAt(b, p, [0x50 + r]) else BytesAt(b, p, [0x41, 0x48 + r])
    ensures DecodeInsn(b, p) == Some(Decoded(Push(r), if r < 8 then p + 1 else p + 2))
  {
    hide DecodeModRm;
    if r < 8 { OneByte(b, p, 0x50 + r); } else { TwoBytes(b, p, 0x41, 0x48 + r); }
  }

  lemma PopAt(b: seq<u8>, p: nat, r: Reg)
    requires if r < 8 then BytesAt(b, p, [0x58 + r]) else BytesAt(b, p, [0x41, 0x50 + r])
    ensures DecodeInsn(b, p) == Some(Decoded(Pop(r), if r < 8 then p + 1 else p + 2))
  {
    hide DecodeModRm;
    if r < 8 { OneByte(b, p, 0x58 + r); } else { TwoBytes(b, p, 0x41, 0x50 + r); }
  }

  lemma SubTopAt(b: seq<u8>, p: nat)
    requires BytesAt(b, p, [0x4c, 0x2b, 0x3c, 0x24])
    ensures DecodeInsn(b, p) == Some(Decoded(SubTop(R15), p + 4))
  {
    FourBytes(b, p, 0x4c, 0x2b, 0x3c, 0x24);
  }

  lemma AddTopAt(b: seq<u8>, p: nat)
    requires BytesAt(b, p, [0x4c, 0x03, 0x3c, 0x24])
    ensures DecodeInsn(b, p) == Some(Decoded(AddTop(R15), p + 4))
  {
    FourBytes(b, p, 0x4c, 0x03, 0x3c, 0x24);
  }

  lemma StoreTopAt(b: seq<u8>, p: nat)
    requires BytesAt(b, p, [0x48, 0x89, 0x04, 0x24])
    ensures DecodeInsn(b, p) == Some(Decoded(StoreTop(RAX), p + 4))
  {
    FourBytes(b, p, 0x48, 0x89, 0x04, 0x24);
  }

  /** 64-bit ADD, SUB and CMP with a small immediate; `m` is the ModR/M byte. */
  lemma AluImmAt(b: seq<u8>, p: nat, m: u8, v: u8)
    requires m in {0xc4, 0xec, 0xf8} && v < 128 && BytesAt(b, p, [0x48, 0x81, m]) && BytesAt(b, p + 3, [v, 0, 0, 0])
    ensures DecodeInsn(b, p) ==
            Some(Decoded(if m == 0xc4 then AluImm(0, RSP, v) else if m == 0xec then AluImm(5, RSP, v) else AluImm(7, RAX, v), p + 7))
  {
    ThreeBytes(b, p, 0x48, 0x81, m);
    SmallImm(b, p + 3, v);
    hide Imm32;
  }

  lemma StoreUsageAt(b: seq<u8>, p: nat, v: u32)
    requires BytesAt(b, p, [0x48, 0xc7, 0x04, 0x24]) && BytesAt(b, p + 4, Bytes4(v))
    ensures DecodeInsn(b, p) == Some(Decoded(StoreTopImm(Signed32(v)), p + 8))
  {
    FourBytes(b, p, 0x48, 0xc7, 0x04, 0x24);
    ImmAt(b, p + 4, v);
    hide Imm32, Bytes4, Signed32;
  }

  lemma BranchAt(b: seq<u8>, p: nat)
    requires p + 5 <= |b|
    ensures b[p] == 0xe8 ==> DecodeInsn(b, p) == Some(Decoded(Call(Lands(b, p + 1)), p + 5))
    ensures b[p] == 0xe9 ==> DecodeInsn(b, p) == Some(Decoded(Jump(Lands(b, p + 1)), p + 5))
    ensures b[p] == 0xeb ==> DecodeInsn(b, p) == Some(Decoded(Jump(LandsNear(b, p + 1)), p + 2))
    ensures p + 6 <= |b| && b[p] == 0x0f && b[p + 1] in {0x84, 0x85} ==>
              DecodeInsn(b, p) == Some(Decoded(JumpIf(b[p + 1] - 0x80, Lands(b, p + 2)), p + 6))
  {
    hide Lands, LandsNear, DecodeModRm;
  }

  lemma ReturnAt(b: seq<u8>, p: nat)
    requires BytesAt(b, p, [0xc3])
    ensures DecodeInsn(b, p) == Some(Decoded(Return, p + 1))
  {
    OneByte(b, p, 0xc3);
    hide DecodeModRm;
  }

  lemma MoveAt(b: seq<u8>, p: nat)
    ensures BytesAt(b, p, [0x4c, 0x89, 0xd1]) ==> DecodeInsn(b, p) == Some(Decoded(MovReg(RCX, R10), p + 3))
    ensures BytesAt(b, p, [0x4d, 0x89, 0xd9]) ==> DecodeInsn(b, p) == Some(Decoded(MovReg(R9, R11), p + 3))
  {
    if BytesAt(b, p, [0x4c, 0x89, 0xd1]) { ThreeBytes(b, p, 0x4c, 0x89, 0xd1); }
    if BytesAt(b, p, [0x4d, 0x89, 0xd9]) { ThreeBytes(b, p, 0x4d, 0x89, 0xd9); }
  }

  lemma IndexAt(b: seq<u8>, p: nat)
    ensures BytesAt(b, p, [0x4c, 0x01, 0xd0]) ==> DecodeInsn(b, p) == Some(Decoded(AddReg(RAX, R10), p + 3))
    ensures BytesAt(b, p, [0x48, 0x8b, 0x00]) ==> DecodeInsn(b, p) == Some(Decoded(Load(RAX, RAX), p + 3))
    ensures BytesAt(b, p, [0x48, 0xc1, 0xe0, 3]) ==> DecodeInsn(b, p) == Some(Decoded(ShiftLeft(RAX, 3), p + 4))
  {
    if BytesAt(b, p, [0x4c, 0x01, 0xd0]) { ThreeBytes(b, p, 0x4c, 0x01, 0xd0); }
    if BytesAt(b, p, [0x48, 0x8b, 0x00]) { ThreeBytes(b, p, 0x48, 0x8b, 0x00); }
    if BytesAt(b, p, [0x48, 0xc1, 0xe0, 3]) { FourBytes(b, p, 0x48, 0xc1, 0xe0, 3); }
  }

  lemma RelativeAt(b: seq<u8>, p: nat)
    requires p + 7 <= |b|
    ensures BytesAt(b, p, [0x48, 0x8b, 0x05]) ==> DecodeInsn(b, p) == Some(Decoded(LoadAt(RAX, Lands(b, p + 3)), p + 7))
    ensures BytesAt(b, p, [0x4c, 0x8d, 0x15]) ==> DecodeInsn(b, p) == Some(Decoded(AddressOf(R10, Lands(b, p + 3)), p + 7))
  {
    hide Lands;
    if BytesAt(b, p, [0x48, 0x8b, 0x05]) { ThreeBytes(b, p, 0x48, 0x8b, 0x05); }
    if BytesAt(b, p, [0x4c, 0x8d, 0x15]) { ThreeBytes(b, p, 0x4c, 0x8d, 0x15); }
  }

  lemma LoadRaxAt(b: seq<u8>, p: nat, v: u32)
    requires BytesAt(b, p, [0xc7, 0xc0]) && BytesAt(b, p + 2, Bytes4(v))
    ensures DecodeInsn(b, p) == Some(Decoded(MovImm(false, RAX, Signed32(v)), p + 6))
  {
    TwoBytes(b, p, 0xc7, 0xc0);
    ImmAt(b, p + 2, v);
    hide Signed32, Imm32, Bytes4;
  }

  lemma LoadR9At(b: seq<u8>, p: nat, v: u32)
    ensures BytesAt(b, p, [0x49, 0xc7, 0xc1]) && BytesAt(b, p + 3, Bytes4(v)) ==>
              DecodeInsn(b, p) == Some(Decoded(MovImm(true, R9, Signed32(v)), p + 7))
    ensures BytesAt(b, p, [0x49, 0xb9]) && BytesAt(b, p + 2, Bytes4(v)) && BytesAt(b, p + 6, [0, 0, 0, 0]) ==>
              DecodeInsn(b, p) == Some(Decoded(MovAbs(R9, v), p + 10))
  {
    hide Signed32, Imm32, Word4, Bytes4;
    if BytesAt(b, p, [0x49, 0xc7, 0xc1]) && BytesAt(b, p + 3, Bytes4(v)) {
      ThreeBytes(b, p, 0x49, 0xc7, 0xc1);
      ImmAt(b, p + 3, v);
    }
    if BytesAt(b, p, [0x49, 0xb9]) && BytesAt(b, p + 2, Bytes4(v)) && BytesAt(b, p + 6, [0, 0, 0, 0]) {
      TwoBytes(b, p, 0x49, 0xb9);
      ImmAt(b, p + 2, v);
      SmallImm(b, p + 6, 0);
    }
  }

  // ---------------------------------------------------------------- runs

  type Regs = r: seq<u64> | |r| == 16 witness seq(16, _ => 0)

  /** Registers other than RSP, the words on the stack with the top last, and the zero flag. */
  datatype Host = Host(ip: int, regs: Regs, stack: seq<u64>, zero: bool)

  /** Still in the code, or gone to an address outside or inside it by a return. */
  datatype Outcome = In(h: Host) | Gone(to: u64, h: Host) | Stuck

  /** The little-endian word at `at`. */
  function WordAt(b: seq<u8>, at: int): Option<u64>
  {
    if 0 <= at && at + 8 <= |b| then Some(Word4(b[at..at + 4]) + 0x1_0000_0000 * Word4(b[at + 4..at + 8])) else None
  }

  /** A result that also sets the zero flag. */
  function Result(h: Host, r: Reg, v: u64): Host { h.(regs := h.regs[r := v], zero := v == 0) }

  /** One instruction of code `b`, which stands at address `origin`. */
  function Do(b: seq<u8>, origin: u64, d: Decoded, h: Host): Outcome
  {
    var next, n := h.(ip := d.next), |h.stack|;
    match d.insn
    case Push(r) => In(next.(stack := h.stack + [h.regs[r]]))
    case Pop(r) => if n == 0 then Stuck else In(next.(stack := h.stack[..n - 1], regs := h.regs[r := h.stack[n - 1]]))
    case AluImm(code, r, v) => if code == 7 then In(next.(zero := h.regs[r] == ToU64(v))) else Stuck
    case MovImm(wide, r, v) => In(next.(regs := h.regs[r := if wide then ToU64(v) else ToU32(v)]))
    case MovAbs(r, v) => In(next.(regs := h.regs[r := v]))
    case MovReg(dst, src) => In(next.(regs := h.regs[dst := h.regs[src]]))
    case AddReg(dst, src) => In(Result(next, dst, ToU64(h.regs[dst] as int + h.regs[src])))
    case ShiftLeft(r, k) => In(if k == 0 then next else Result(next, r, ToU64(h.regs[r] * Pow2(k))))
    case StoreTop(r) => if n == 0 then Stuck else In(next.(stack := h.stack[n - 1 := h.regs[r]]))
    case Load(dst, src) =>
      (match WordAt(b, h.regs[src] - origin) case None => Stuck case Some(v) => In(next.(regs := h.regs[dst := v])))
    case LoadAt(r, at) => (match WordAt(b, at) case None => Stuck case Some(v) => In(next.(regs := h.regs[r := v])))
    case AddressOf(r, at) => In(next.(regs := h.regs[r := ToU64(origin + at)]))
    case Call(to) => In(h.(ip := to, stack := h.stack + [ToU64(origin + d.next)]))
    case Jump(to) => In(h.(ip := to))
    case JumpIf(code, to) =>
      if code == 4 then In(h.(ip := if h.zero then to else d.next))
      else if code == 5 then In(h.(ip := if h.zero then d.next else to))
      else Stuck
    case Return => if n == 0 then Stuck else Gone(h.stack[n - 1], h.(stack := h.stack[..n - 1]))
    case _ => Stuck
  }

  function Step(b: seq<u8>, origin: u64, h: Host): Outcome
  {
    if h.ip < 0 then Stuck
    else match DecodeInsn(b, h.ip) case None => Stuck case Some(d) => Do(b, origin, d, h)
  }

  function Run(b: seq<u8>, origin: u64, h: Host, n: nat): Outcome
  {
    if n == 0 then In(h)
    else match Run(b, origin, h, n - 1) case In(t) => Step(b, origin, t) case o => o
  }

  lemma {:induction false} RunRuns(b: seq<u8>, origin: u64, h: Host, n: nat, m: nat)
    requires Run(b, origin, h, n).In?
    ensures Run(b, origin, h, n + m) == Run(b, origin, Run(b, origin, h, n).h, m)
  {
    hide Step;
    if m > 0 {
      RunRuns(b, origin, h, n, m - 1);
    }
  }

  /** One more step. */
  lemma RunNext(b: seq<u8>, origin: u64, h: Host, n: nat, t: Host, d: Decoded)
    requires Run(b, origin, h, n) == In(t) && t.ip >= 0 && DecodeInsn(b, t.ip) == Some(d)
    ensures Run(b, origin, h, n + 1) == Do(b, origin, d, t)
  {
    hide Do, DecodeInsn;
  }
}
