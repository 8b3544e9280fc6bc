/** The legacy interpreter. */
module Legacy {
  import opened Words
  import opened Isa
  import opened Semantics
  import opened Machine

  predicate Inside(addr: u64, size: nat, base: u64, len: u64)
  {
    base + len < 0x1_0000_0000_0000_0000 && base <= addr && addr + size <= base + len
  }

  /** `bounds_check`: input, then stack, then the registered callback. */
  predicate BoundsOk(env: Env, addr: u64, size: nat)
  {
    || !env.boundsChecked
    || (&& addr + size < 0x1_0000_0000_0000_0000
        && (|| (env.mem != 0 && Inside(addr, size, env.mem, env.memLen))
            || Inside(addr, size, env.stack, env.stackLen)
            || env.accepts(addr, size)))
  }

  function Access(env: Env, base: u64, offset: i16, size: nat): Checked<u64>
  {
    match EffectiveAddress(base, offset)
    case None => Err(AddressWraps)
    case Some(addr) => if BoundsOk(env, addr, size) then Ok(addr) else Err(OutOfBounds)
  }

  function Step(env: Env, s: State): Outcome<State>
  {
    if s.pc >= |env.prog| then Fail(PcPastEnd)
    else if env.limit != 0 && s.limit <= 0 then Fail(LimitExceeded)
    else Execute(env, Enter(env, s), env.prog[s.pc])
  }

  /** One instruction, with `s.pc` already past its first slot. */
  function Execute(env: Env, s: State, inst: Inst): Outcome<State>
  {
    var a := s.regs[inst.dst];
    DecodeSizes(inst.opcode);
    match Decode(inst.opcode)
    case Alu(wide, alu, fromReg) =>
      Next(SetReg(s, inst.dst, AluValue(wide, alu, fromReg, inst.offset, a, Operand(fromReg, inst, s.regs))))
    case End(kind) => Next(SetReg(s, inst.dst, EndValue(kind, inst.imm, a)))
    case Ldx(size, sx) =>
      (match Access(env, s.regs[inst.src], inst.offset, size)
       case Err(e) => Fail(e)
       case Ok(addr) =>
         Next(SetReg(s, inst.dst, if sx then LoadSigned(s.mem, addr, size) else LoadWord(s.mem, addr, size))))
    case St(size) => StoreTo(env, s, a, inst.offset, size, ToU64(inst.imm))
    case Stx(size) => StoreTo(env, s, a, inst.offset, size, s.regs[inst.src])
    case Lddw =>
      if s.pc >= |env.prog| then Fail(Undefined)
      else Next(SetReg(s.(pc := ToU16(s.pc + 1)), inst.dst, WideImmediate(inst, env.prog[s.pc])))
    case Ja => Next(Jump(s, inst.offset))
    case Ja32 => Next(Jump(s, inst.imm))
    case Jcc(wide, cond, fromReg) =>
      Next(if Taken(wide, cond, a, Operand(fromReg, inst, s.regs)) then Jump(s, inst.offset) else s)
    case Exit => if s.depth > 0 then Next(PopFrame(s)) else Done(s.regs[0], s.mem)
    case Call => CallStep(env, s, inst)
    case Atomic(size) =>
      (match Access(env, a, inst.offset, size)
       case Err(e) => Fail(e)
       case Ok(addr) =>
         if AtomicKnown(AtomicCode(inst.imm)) then Next(WithAtomicResult(s, inst, addr, size)) else Fail(UnknownAtomic))
    case Unknown => Fail(UnknownOpcode)
  }

  function StoreTo(env: Env, s: State, base: u64, offset: i16, size: nat, v: u64): Outcome<State>
  {
    match Access(env, base, offset, size)
    case Err(e) => Fail(e)
    case Ok(addr) => Next(s.(mem := Store(s.mem, addr, v, size)))
  }

  function CallStep(env: Env, s: State, inst: Inst): Outcome<State>
  {
    if inst.src == 0 then
      if !env.callable(inst.imm) then Fail(Undefined)
      else
        var r := env.helper(inst.imm, HelperArgs(s), s.mem);
        if inst.imm == env.unwind && r.value == 0 then Done(0, r.mem)
        else Next(SetReg(s, 0, r.value).(mem := r.mem))
    else if inst.src == 1 then
      if s.depth >= MAX_CALL_DEPTH then Fail(CallTooDeep) else Next(PushFrame(s, inst.imm))
    else if inst.src == 2 then Fail(CallByBtfId)
    else Next(s)
  }

  /** The state after `n` iterations of the run loop. */
  function Run(env: Env, s: State, n: nat): Outcome<State>
  {
    if n == 0 then Next(s)
    else
      match Run(env, s, n - 1)
      case Next(t) => Step(env, t)
      case Done(v, m) => Done(v, m)
      case Fail(e) => Fail(e)
  }
}
