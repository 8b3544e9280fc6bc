/**
  The part of an x86-64 machine the JIT's arithmetic and blinding sequences use: registers, flags, the
  host stack as a sequence of words with the top last, and byte memory. RSP is the length of the stack.
  */
module X86 {
  import opened Words
  import opened Semantics
  import opened HostFlags

  type Reg = r: int | 0 <= r < 16

  const RAX: Reg := 0
  const RCX: Reg := 1
  const RDX: Reg := 2
  const R10: Reg := 10
  const R11: Reg := 11

  /** The registers of the SysV register map: eBPF r0 to r10. */
  const REGISTER_MAP: seq<Reg> := [0, 7, 6, 2, 10, 8, 3, 12, 13, 14, 15]

  predicate Mapped(r: Reg) { r in REGISTER_MAP }

  type Regs = r: seq<u64> | |r| == 16 witness seq(16, i => 0)

  datatype Word = Value(v: u64) | SavedFlags(f: Flags)

  datatype Machine = Machine(regs: Regs, stack: seq<Word>, flags: Flags, mem: Memory)

  datatype Binary = AddOp | OrOp | AndOp | SubOp | XorOp | CmpOp | TestOp | MovOp

  /** `wide` selects 64-bit operation; a 32-bit result is zero-extended. Immediates are sign-extended 32-bit. */
  datatype XInst =
    | Rr(op: Binary, wide: bool, dst: Reg, src: Reg)
    | Ri(op: Binary, wide: bool, dst: Reg, imm: i32)
    | MovAbs(dst: Reg, value: u64)
    | Push(reg: Reg)
    | Pop(reg: Reg)
    | Pushfq
    | Popfq
    | CmovZero(dst: Reg, src: Reg)
    | SignExtendRax(wide: bool)
    | Mul(wide: bool, src: Reg)
    | Div(wide: bool, signed: bool, src: Reg)
    | JneOver(count: nat)
    | JmpOver(count: nat)
    | StoreReg(size: nat, src: Reg, base: Reg, offset: i32)
    | StoreImm(size: nat, base: Reg, offset: i32, imm: i32)

  function Set(m: Machine, r: Reg, v: u64): Machine { m.(regs := m.regs[r := v]) }

  function BinaryValue(op: Binary, wide: bool, a: u64, b: u64): u64
  {
    match op
    case AddOp => if wide then ToU64(a + b) else ToU32(a + b)
    case SubOp => if wide then ToU64(a - b) else ToU32(a - b)
    case OrOp => if wide then Bitwise64(Or, a, b) else Bitwise32(Or, ToU32(a), ToU32(b))
    case AndOp => if wide then Bitwise64(And, a, b) else Bitwise32(And, ToU32(a), ToU32(b))
    case XorOp => if wide then Bitwise64(Xor, a, b) else Bitwise32(Xor, ToU32(a), ToU32(b))
    case MovOp => Low(wide, b)
    case CmpOp => a
    case TestOp => a
  }

  /** Carry and overflow of an addition; the other flags follow from its result. */
  function AddFlags(wide: bool, a: u64, b: u64): Flags
  {
    var x, y, d := Low(wide, a), Low(wide, b), SignedLow(wide, a) + SignedLow(wide, b);
    var r, half := (x + y) % Modulus(wide), Modulus(wide) / 2;
    Flags(r == 0, x + y >= Modulus(wide), r >= half, d < -half || d >= half)
  }

  function BinaryFlags(op: Binary, wide: bool, a: u64, b: u64, was: Flags): Flags
  {
    match op
    case AddOp => AddFlags(wide, a, b)
    case SubOp => SubFlags(wide, a, b)
    case CmpOp => SubFlags(wide, a, b)
    case TestOp => TestFlags(wide, a, b)
    case MovOp => was
    case _ => LogicFlags(wide, BinaryValue(op, wide, a, b))
  }

  function Binary2(m: Machine, op: Binary, wide: bool, dst: Reg, b: u64): Machine
  {
    var a := m.regs[dst];
    var m1 := m.(flags := BinaryFlags(op, wide, a, b, m.flags));
    if op == CmpOp || op == TestOp then m1 else Set(m1, dst, BinaryValue(op, wide, a, b))
  }

  /** MUL: the double-width product in RDX:RAX. */
  function MulStep(m: Machine, wide: bool, b: u64, junk: Flags): Machine
  {
    var w := Modulus(wide);
    var p := Low(wide, m.regs[RAX]) * Low(wide, b);
    var hi, lo := (p / w) % w, p % w;
    m.(regs := m.regs[RAX := lo][RDX := hi], flags := junk)
  }

  /** DIV and IDIV of RDX:RAX; a zero divisor or a quotient that does not fit is a divide error. */
  function DivStep(m: Machine, wide: bool, signed: bool, b: u64, junk: Flags): Option<Machine>
  {
    var w := Modulus(wide);
    var hi := if signed then SignedLow(wide, m.regs[RDX]) else Low(wide, m.regs[RDX]);
    var n, d := hi * w + Low(wide, m.regs[RAX]), if signed then SignedLow(wide, b) else Low(wide, b);
    if d == 0 then None
    else
      var q, r := CDiv(n, d), CMod(n, d);
      var fits := if signed then -w / 2 <= q < w / 2 else 0 <= q < w;
      if !fits then None else Some(m.(regs := m.regs[RAX := q % w][RDX := r % w], flags := junk))
  }

  /** One straight-line instruction; `junk` stands for the flags an instruction leaves undefined. */
  function Do(i: XInst, m: Machine, junk: Flags): Option<Machine>
  {
    match i
    case Rr(op, wide, dst, src) => Some(Binary2(m, op, wide, dst, m.regs[src]))
    case Ri(op, wide, dst, imm) => Some(Binary2(m, op, wide, dst, ToU64(imm)))
    case MovAbs(dst, v) => Some(Set(m, dst, v))
    case Push(r) => Some(m.(stack := m.stack + [Value(m.regs[r])]))
    case Pop(r) =>
      var n := |m.stack|;
      if n == 0 || !m.stack[n - 1].Value? then None
      else Some(Set(m.(stack := m.stack[..n - 1]), r, m.stack[n - 1].v))
    case Pushfq => Some(m.(stack := m.stack + [SavedFlags(m.flags)]))
    case Popfq =>
      var n := |m.stack|;
      if n == 0 || !m.stack[n - 1].SavedFlags? then None
      else Some(m.(stack := m.stack[..n - 1], flags := m.stack[n - 1].f))
    case CmovZero(dst, src) => Some(if m.flags.zero then Set(m, dst, m.regs[src]) else m)
    case SignExtendRax(wide) =>
      Some(Set(m, RDX, if SignedLow(wide, m.regs[RAX]) >= 0 then 0 else Modulus(wide) - 1))
    case Mul(wide, src) => Some(MulStep(m, wide, m.regs[src], junk))
    case Div(wide, signed, src) => DivStep(m, wide, signed, m.regs[src], junk)
    case StoreReg(size, src, base, offset) =>
      Some(m.(mem := Store(m.mem, ToU64(m.regs[base] + offset), m.regs[src], size)))
    case StoreImm(size, base, offset, imm) =>
      Some(m.(mem := Store(m.mem, ToU64(m.regs[base] + offset), ToU64(imm), size)))
    case JneOver(_) => Some(m)
    case JmpOver(_) => Some(m)
  }

  /** How many of the instructions after `i` it jumps over. */
  function Skipped(i: XInst, m: Machine): nat
  {
    match i
    case JneOver(n) => if m.flags.zero then 0 else n
    case JmpOver(n) => n
    case _ => 0
  }

  /** Runs a code sequence; nothing if it faults or jumps past its own end. */
  function Exec(code: seq<XInst>, m: Machine, junk: Flags): Option<Machine>
    decreases |code|
  {
    if code == [] then Some(m)
    else
      var k := 1 + Skipped(code[0], m);
      if k > |code| then None
      else
        match Do(code[0], m, junk)
        case None => None
        case Some(m') => Exec(code[k..], m', junk)
  }

  lemma ExecOne(i: XInst, rest: seq<XInst>, m: Machine, junk: Flags)
    requires !i.JneOver? && !i.JmpOver?
    ensures Exec([i] + rest, m, junk) ==
              match Do(i, m, junk) case None => None case Some(m') => Exec(rest, m', junk)
  {
    assert ([i] + rest)[1..] == rest;
  }

  /** The instruction at position `i` of a sequence. */
  lemma ExecAt(code: seq<XInst>, i: nat, m: Machine, junk: Flags)
    requires i < |code| && !code[i].JneOver? && !code[i].JmpOver?
    ensures Exec(code[i..], m, junk) ==
              match Do(code[i], m, junk) case None => None case Some(m') => Exec(code[i + 1..], m', junk)
  {
    assert code[i..] == [code[i]] + code[i + 1..];
    ExecOne(code[i], code[i + 1..], m, junk);
  }

  lemma ExecJumpAt(code: seq<XInst>, i: nat, m: Machine, junk: Flags)
    requires i < |code| && (code[i].JneOver? || code[i].JmpOver?) && i + 1 + code[i].count <= |code|
    ensures Exec(code[i..], m, junk) ==
              Exec(code[i + 1 + (if code[i].JneOver? && m.flags.zero then 0 else code[i].count)..], m, junk)
  {
    assert code[i..][0] == code[i];
    assert code[i..][1 + Skipped(code[i], m)..] == code[i + 1 + Skipped(code[i], m)..];
  }

  /** Code that does not jump past its end can be followed by more code. */
  lemma {:induction false} ExecAppend(c: seq<XInst>, d: seq<XInst>, m: Machine, junk: Flags)
    requires Exec(c, m, junk).Some?
    ensures Exec(c + d, m, junk) == Exec(d, Exec(c, m, junk).value, junk)
    decreases |c|
  {
    if c == [] {
      assert c + d == d;
    } else {
      var k := 1 + Skipped(c[0], m);
      assert (c + d)[k..] == c[k..] + d;
      ExecAppend(c[k..], d, Do(c[0], m, junk).value, junk);
    }
  }
}
