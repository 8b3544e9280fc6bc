/** The state of a running program and the pieces of a step that concern control flow and call frames. */
module Machine {
  import opened Words
  import opened Isa
  import opened Semantics

  type Regs = r: seq<u64> | |r| == 16 witness seq(16, i => 0)

  /** A saved call frame: the caller's stack usage, the return address and r6 to r9. */
  datatype Frame = Frame(usage: u16, ret: u16, r6: u64, r7: u64, r8: u64, r9: u64)

  type Frames = f: seq<Frame> | |f| == MAX_CALL_DEPTH witness seq(MAX_CALL_DEPTH, i => Frame(0, 0, 0, 0, 0, 0))

  type Depth = d: int | 0 <= d <= MAX_CALL_DEPTH

  datatype State = State(pc: u16, regs: Regs, frames: Frames, depth: Depth, limit: int, mem: Memory)

  datatype Perms = Perms(read: bool, write: bool, atomic: bool)

  datatype RegionKind = PointerRegion | HandleRegion

  /** A registered region; `end` is one past its last byte. */
  datatype Region = Region(id: u32, base: u64, end: u64, kind: RegionKind, perms: Perms)

  datatype ResultKind = ScalarResult | PointerResult | HandleResult

  datatype HelperMeta = HelperMeta(kind: ResultKind, id: u32, size: u64)

  datatype HelperReturn = HelperReturn(value: u64, mem: Memory)

  /**
    Everything a run takes from the VM and from its caller. Helpers are deterministic functions of
    the helper index, r1 to r5 and memory; `callable` says which indices have a helper behind them;
    `accepts` is the registered bounds-check callback.
    */
  datatype Env = Env(
    prog: seq<Inst>,
    funcs: set<int>,
    usage: u16 -> u16,
    limit: int,
    unwind: int,
    callable: int -> bool,
    helper: (int, seq<u64>, Memory) -> HelperReturn,
    mem: u64, memLen: u64, stack: u64, stackLen: u64,
    boundsChecked: bool,
    accepts: (u64, nat) -> bool,
    regions: seq<Option<Region>>,
    helpers: seq<Option<HelperMeta>>)

  datatype Error =
    | PcPastEnd | LimitExceeded | UnknownOpcode | UnknownAtomic | AddressWraps | OutOfBounds
    | CallTooDeep | CallByBtfId
    | NotPermitted | BadPointerArithmetic | BadHelper
    | Undefined  // what the C code leaves undefined: a fetch past the program or a call through a null helper

  datatype Checked<+T> = Ok(value: T) | Err(error: Error)

  datatype Outcome<+S> = Next(state: S) | Done(value: u64, mem: Memory) | Fail(error: Error)

  function SetReg(s: State, r: u4, v: u64): State { s.(regs := s.regs[r := v]) }

  /** The start of every iteration: count the instruction, note the stack usage at a function entry, advance. */
  function Enter(env: Env, s: State): State
  {
    var frames: Frames :=
      if (s.pc == 0 || s.pc in env.funcs) && s.depth < MAX_CALL_DEPTH
      then s.frames[s.depth := s.frames[s.depth].(usage := env.usage(s.pc))]
      else s.frames;
    s.(pc := ToU16(s.pc + 1), frames := frames, limit := if env.limit != 0 then s.limit - 1 else s.limit)
  }

  function Jump(s: State, delta: int): State { s.(pc := ToU16(s.pc + delta)) }

  function PushFrame(s: State, delta: int): State
    requires s.depth < MAX_CALL_DEPTH
  {
    var f := Frame(s.frames[s.depth].usage, s.pc, s.regs[6], s.regs[7], s.regs[8], s.regs[9]);
    var r10 := ToU64(s.regs[10] - f.usage);
    s.(frames := s.frames[s.depth := f], regs := s.regs[10 := r10], depth := s.depth + 1, pc := ToU16(s.pc + delta))
  }

  function PopFrame(s: State): State
    requires s.depth > 0
  {
    var f := s.frames[s.depth - 1];
    var r10 := ToU64(s.regs[10] + f.usage);
    s.(depth := s.depth - 1, pc := f.ret,
       regs := s.regs[6 := f.r6][7 := f.r7][8 := f.r8][9 := f.r9][10 := r10])
  }

  /** `reg[base] + offset`, or nothing when it leaves the 64-bit address space. */
  function EffectiveAddress(base: u64, offset: i16): Option<u64>
  {
    var a := base + offset;
    if 0 <= a < 0x1_0000_0000_0000_0000 then Some(a) else None
  }

  /** The second operand of an ALU or jump instruction. */
  function Operand(fromReg: bool, inst: Inst, regs: Regs): u64
  {
    if fromReg then regs[inst.src] else ToU64(inst.imm)
  }

  /** The 64-bit constant of an LDDW pair. */
  function WideImmediate(low: Inst, high: Inst): u64
  {
    ToU32(low.imm) + 0x1_0000_0000 * ToU32(high.imm)
  }

  function WithAtomicResult(s: State, inst: Inst, addr: u64, size: nat): State
    requires size == 4 || size == 8
  {
    var code := AtomicCode(inst.imm);
    var was := LoadWord(s.mem, addr, size);
    var now := AtomicValue(size == 8, code, was, s.regs[inst.src], s.regs[0]);
    var s1 := s.(mem := Store(s.mem, addr, now, size));
    if AtomicFetch(inst.imm) then SetReg(s1, if code == 15 then 0 else inst.src, was) else s1
  }

  function HelperArgs(s: State): seq<u64> { s.regs[1..6] }

  /** r1, r2 and r10 are set by the caller; the other registers start with whatever they hold. */
  function Initial(env: Env, regs: Regs, mem: Memory): State
  {
    State(0, regs[1 := env.mem][2 := env.memLen][10 := ToU64(env.stack + env.stackLen)],
          seq(MAX_CALL_DEPTH, i => Frame(0, 0, 0, 0, 0, 0)), 0, env.limit, mem)
  }

  /** An instruction that writes its destination register does not name r10. */
  predicate DstNotR10(inst: Inst)
  {
    var op := Decode(inst.opcode);
    op.Alu? || op.End? || op.Ldx? || op.Lddw? ==> inst.dst != 10
  }

  predicate KeepsR10(prog: seq<Inst>) { forall i :: 0 <= i < |prog| ==> DstNotR10(prog[i]) }

  /** A fetching atomic writes its source register (r0 for compare-and-exchange); this one does not write r10. */
  predicate FetchNotR10(inst: Inst)
  {
    Decode(inst.opcode).Atomic? && AtomicFetch(inst.imm) && AtomicCode(inst.imm) != 15 ==> inst.src != 10
  }

  predicate NoFetchIntoR10(prog: seq<Inst>) { forall i :: 0 <= i < |prog| ==> FetchNotR10(prog[i]) }
}
