/** The legacy run loop over mutable registers, frames and memory, proved to be the step function. */
module Interpreter {
  import opened Words
  import opened Isa
  import opened Semantics
  import opened Machine
  import opened Legacy
  import ControlFlow

  /** How an instruction leaves the loop body. */
  datatype Signal = Continue | Return(value: u64) | Abort(error: Error)

  function Result(sig: Signal, s: State): Outcome<State>
  {
    match sig
    case Continue => Next(s)
    case Return(v) => Done(v, s.mem)
    case Abort(e) => Fail(e)
  }

  class LegacyInterpreter {
    var pc: u16
    var depth: Depth
    var limit: int
    var mem: Memory
    const regs: array<u64>
    const frames: array<Frame>

    ghost predicate Valid()
      reads this
    {
      regs.Length == 16 && frames.Length == MAX_CALL_DEPTH
    }

    ghost function Snapshot(): State
      reads this, regs, frames
      requires Valid()
    {
      State(pc, regs[..], frames[..], depth, limit, mem)
    }

    constructor (env: Env, start: Regs, memory: Memory)
      ensures Valid() && fresh(regs) && fresh(frames) && Snapshot() == Initial(env, start, memory)
    {
      pc, depth, limit, mem := 0, 0, env.limit, memory;
      regs := new u64[16](i requires 0 <= i < 16 => start[i]);
      frames := new Frame[MAX_CALL_DEPTH](_ => Frame(0, 0, 0, 0, 0, 0));
      new;
      regs[1], regs[2], regs[10] := env.mem, env.memLen, ToU64(env.stack + env.stackLen);
    }

    method SetRegister(r: u4, v: u64)
      requires Valid()
      modifies regs
      ensures Snapshot() == SetReg(old(Snapshot()), r, v)
    {
      regs[r] := v;
    }

    /** Count the instruction, note the stack usage at a function entry, advance the 16-bit counter. */
    method EnterInstruction(env: Env)
      requires Valid()
      modifies this`pc, this`limit, frames
      ensures Snapshot() == Enter(env, old(Snapshot()))
    {
      if env.limit != 0 {
        limit := limit - 1;
      }
      if (pc == 0 || pc in env.funcs) && depth < MAX_CALL_DEPTH {
        frames[depth] := frames[depth].(usage := env.usage(pc));
      }
      pc := ToU16(pc + 1);
    }

    method Load(env: Env, inst: Inst, size: nat, sx: bool) returns (sig: Signal)
      requires Valid() && Decode(inst.opcode) == Ldx(size, sx) && size in {1, 2, 4, 8}
      modifies regs
      ensures Result(sig, Snapshot()) == Legacy.Execute(env, old(Snapshot()), inst)
    {
      hide Decode, LoadWord, LoadSigned;
      var a := Access(env, regs[inst.src], inst.offset, size);
      if a.Err? {
        return Abort(a.error);
      }
      SetRegister(inst.dst, if sx then LoadSigned(mem, a.value, size) else LoadWord(mem, a.value, size));
      return Continue;
    }

    method StoreWord(env: Env, addr: u64, offset: i16, size: nat, v: u64) returns (sig: Signal)
      requires Valid()
      modifies this`mem
      ensures Result(sig, Snapshot()) == StoreTo(env, old(Snapshot()), addr, offset, size, v)
    {
      var a := Access(env, addr, offset, size);
      if a.Err? {
        return Abort(a.error);
      }
      mem := Store(mem, a.value, v, size);
      return Continue;
    }

    /** Read-modify-write; a fetching form leaves the old word in the source register, or r0 for compare-and-exchange. */
    method AtomicUpdate(env: Env, inst: Inst, size: nat) returns (sig: Signal)
      requires Valid() && Decode(inst.opcode) == Atomic(size) && (size == 4 || size == 8)
      modifies this`mem, regs
      ensures Result(sig, Snapshot()) == Legacy.Execute(env, old(Snapshot()), inst)
    {
      hide Decode, LoadWord, AtomicValue, Store;
      var a := Access(env, regs[inst.dst], inst.offset, size);
      if a.Err? {
        return Abort(a.error);
      }
      var code := AtomicCode(inst.imm);
      if !AtomicKnown(code) {
        return Abort(UnknownAtomic);
      }
      var was := LoadWord(mem, a.value, size);
      mem := Store(mem, a.value, AtomicValue(size == 8, code, was, regs[inst.src], regs[0]), size);
      if AtomicFetch(inst.imm) {
        SetRegister(if code == 15 then 0 else inst.src, was);
      }
      return Continue;
    }

    method LocalCall(delta: int)
      requires Valid() && depth < MAX_CALL_DEPTH
      modifies this`pc, this`depth, regs, frames
      ensures Snapshot() == PushFrame(old(Snapshot()), delta)
    {
      frames[depth] := Frame(frames[depth].usage, pc, regs[6], regs[7], regs[8], regs[9]);
      regs[10] := ToU64(regs[10] - frames[depth].usage);
      depth := depth + 1;
      pc := ToU16(pc + delta);
    }

    method ReturnFromCall()
      requires Valid() && depth > 0
      modifies this`pc, this`depth, regs
      ensures Snapshot() == PopFrame(old(Snapshot()))
    {
      depth := depth - 1;
      pc := frames[depth].ret;
      regs[6], regs[7], regs[8], regs[9] := frames[depth].r6, frames[depth].r7, frames[depth].r8, frames[depth].r9;
      regs[10] := ToU64(regs[10] + frames[depth].usage);
    }

    method Call(env: Env, inst: Inst) returns (sig: Signal)
      requires Valid()
      modifies this`pc, this`depth, this`mem, regs, frames
      ensures Result(sig, Snapshot()) == CallStep(env, old(Snapshot()), inst)
    {
      hide PushFrame;
      if inst.src == 0 {
        if !env.callable(inst.imm) {
          return Abort(Undefined);
        }
        var r := env.helper(inst.imm, regs[1..6], mem);
        mem := r.mem;
        if inst.imm == env.unwind && r.value == 0 {
          return Return(0);
        }
        SetRegister(0, r.value);
      } else if inst.src == 1 {
        if depth >= MAX_CALL_DEPTH {
          return Abort(CallTooDeep);
        }
        LocalCall(inst.imm);
      } else if inst.src == 2 {
        return Abort(CallByBtfId);
      }
      return Continue;
    }

    /** Jumps, LDDW and EXIT. */
    method Control(env: Env, inst: Inst) returns (sig: Signal)
      requires Valid()
      requires var op := Decode(inst.opcode); op.Ja? || op.Ja32? || op.Jcc? || op.Lddw? || op.Exit?
      modifies this`pc, this`depth, regs
      ensures Result(sig, Snapshot()) == Legacy.Execute(env, old(Snapshot()), inst)
    {
      hide Decode, Taken, WideImmediate, PopFrame;
      sig := Continue;
      match Decode(inst.opcode)
      case Ja => pc := ToU16(pc + inst.offset);
      case Ja32 => pc := ToU16(pc + inst.imm);
      case Jcc(wide, cond, fromReg) =>
        if Taken(wide, cond, regs[inst.dst], if fromReg then regs[inst.src] else ToU64(inst.imm)) {
          pc := ToU16(pc + inst.offset);
        }
      case Lddw =>
        if pc >= |env.prog| {
          return Abort(Undefined);
        }
        var second := env.prog[pc];
        pc := ToU16(pc + 1);
        SetRegister(inst.dst, WideImmediate(inst, second));
      case Exit =>
        if depth == 0 {
          return Return(regs[0]);
        }
        ReturnFromCall();
    }

    method Execute(env: Env, inst: Inst) returns (sig: Signal)
      requires Valid()
      modifies this, regs, frames
      ensures Result(sig, Snapshot()) == Legacy.Execute(env, old(Snapshot()), inst)
    {
      DecodeSizes(inst.opcode);
      hide Decode, AluValue, EndValue, Taken, Access, WithAtomicResult, WideImmediate, LoadWord, LoadSigned, PushFrame, PopFrame;
      match Decode(inst.opcode)
      case Alu(wide, alu, fromReg) =>
        SetRegister(inst.dst, AluValue(wide, alu, fromReg, inst.offset, regs[inst.dst],
                                       if fromReg then regs[inst.src] else ToU64(inst.imm)));
        sig := Continue;
      case End(kind) =>
        SetRegister(inst.dst, EndValue(kind, inst.imm, regs[inst.dst]));
        sig := Continue;
      case Ldx(size, sx) => sig := Load(env, inst, size, sx);
      case St(size) => sig := StoreWord(env, regs[inst.dst], inst.offset, size, ToU64(inst.imm));
      case Stx(size) => sig := StoreWord(env, regs[inst.dst], inst.offset, size, regs[inst.src]);
      case Atomic(size) => sig := AtomicUpdate(env, inst, size);
      case Call => sig := Call(env, inst);
      case Unknown => sig := Abort(UnknownOpcode);
      case _ => sig := Control(env, inst);
    }

    /** One iteration of the run loop. */
    method Step(env: Env) returns (sig: Signal)
      requires Valid()
      modifies this, regs, frames
      ensures Result(sig, Snapshot()) == Legacy.Step(env, old(Snapshot()))
    {
      hide Legacy.Execute, Enter;
      if pc >= |env.prog| {
        return Abort(PcPastEnd);
      }
      if env.limit != 0 && limit <= 0 {
        return Abort(LimitExceeded);
      }
      var inst := env.prog[pc];
      EnterInstruction(env);
      sig := Execute(env, inst);
    }

    /** The first `n` iterations of the loop, with or without an instruction limit, or fewer if the run ends. */
    method RunFor(env: Env, n: nat) returns (sig: Signal)
      requires Valid()
      modifies this, regs, frames
      ensures Result(sig, Snapshot()) == Legacy.Run(env, old(Snapshot()), n)
    {
      hide Legacy.Step;
      sig := Continue;
      for i := 0 to n
        invariant Result(sig, Snapshot()) == Legacy.Run(env, old(Snapshot()), i)
      {
        if sig.Continue? {
          sig := Step(env);
        }
      }
    }

    /** The run loop under a positive instruction limit: it ends, and the result is that of the step function's run. */
    method Run(env: Env) returns (sig: Signal, ghost n: nat)
      requires Valid() && env.limit > 0
      modifies this, regs, frames
      ensures !sig.Continue? && Result(sig, Snapshot()) == Legacy.Run(env, old(Snapshot()), n)
    {
      hide Legacy.Step;
      n := 0;
      sig := Continue;
      while sig.Continue?
        invariant Result(sig, Snapshot()) == Legacy.Run(env, old(Snapshot()), n)
        decreases if sig.Continue? then 1 else 0, limit
      {
        ghost var s := Snapshot();
        sig := Step(env);
        n := n + 1;
        if sig.Continue? {
          ControlFlow.StepCounts(env, s);
        }
      }
    }
  }
}
