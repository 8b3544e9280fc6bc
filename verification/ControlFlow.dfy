/** What the validator's acceptance buys the run loop: where control can go, for every run of every accepted program. */
module ControlFlow {
  import opened Words
  import opened Isa
  import opened Semantics
  import opened Machine
  import opened SubPrograms
  import opened Validator
  import opened Legacy

  /** The VM holds an accepted program and marks exactly its local-call targets as function entries. */
  ghost predicate Loaded(env: Env)
  {
    Accepts(env.callable, env.usage, env.prog) && env.funcs == LocalTargets(env.prog)
  }

  /** The first slot of an instruction, or the end of the program. */
  predicate FirstOrEnd(prog: seq<Inst>, p: int)
  {
    p == |prog| || (0 <= p < |prog| && prog[p].opcode != 0)
  }

  ghost predicate PcInv(env: Env, s: State)
  {
    && s.pc <= |env.prog|
    && (FirstOrEnd(env.prog, s.pc) || s.pc in env.funcs)
    && (forall d :: 0 <= d < s.depth ==> FirstOrEnd(env.prog, s.frames[d].ret))
  }

  /** The next program counter in unbounded integer arithmetic. */
  function IntegerPc(env: Env, s: State): int
    requires s.pc < |env.prog|
  {
    var i, inst := s.pc, env.prog[s.pc];
    match Decode(inst.opcode)
    case Ja => i + 1 + inst.offset
    case Ja32 => i + 1 + inst.imm
    case Jcc(wide, cond, fromReg) =>
      if Taken(wide, cond, s.regs[inst.dst], Operand(fromReg, inst, s.regs)) then i + 1 + inst.offset else i + 1
    case Lddw => i + 2
    case Call => if inst.src == 1 then i + 1 + inst.imm else i + 1
    case Exit => if s.depth > 0 then s.frames[s.depth - 1].ret else i + 1
    case _ => i + 1
  }

  /** The next instruction is a local call. */
  predicate AtLocalCall(env: Env, s: State) { IsLocalCall(env.prog, s.pc) }

  lemma AcceptedSlot(env: Env, i: nat)
    requires Loaded(env) && i < |env.prog| && env.prog[i].opcode != 0
    ensures |env.prog| < MAX_INSTS && InstOk(env.callable, env.usage, env.prog, i)
    ensures FirstOrEnd(env.prog, i + Width(env.prog[i]))
  {
    hide InstOk, SelfContained;
    FirstSlots(env.callable, env.usage, env.prog, 0, i);
    NextSlot(env.callable, env.usage, env.prog, 0, i);
  }

  lemma LocalCallDecodes(prog: seq<Inst>, i: nat)
    requires i < |prog|
    ensures IsLocalCall(prog, i) <==> Decode(prog[i].opcode).Call? && prog[i].src == 1
  {
    if Decode(prog[i].opcode).Call? {
      DecodeEncode(prog[i].opcode);
    }
    assert Decode(0x85).Call?;
  }

  /** The integer successor of a first slot: never outside the program, and a first slot unless the step is a local call. */
  lemma SuccessorOk(env: Env, s: State)
    requires Loaded(env) && PcInv(env, s) && s.pc < |env.prog| && env.prog[s.pc].opcode != 0
    requires !(Decode(env.prog[s.pc].opcode).Exit? && s.depth == 0)
    ensures 0 <= IntegerPc(env, s) <= |env.prog| <= 65535
    ensures AtLocalCall(env, s) ==> IntegerPc(env, s) in env.funcs
    ensures !AtLocalCall(env, s) ==> FirstOrEnd(env.prog, IntegerPc(env, s))
  {
    AcceptedSlot(env, s.pc);
    LocalCallDecodes(env.prog, s.pc);
    if AtLocalCall(env, s) {
      TargetIn(env.prog, |env.prog|, s.pc);
    }
    hide Loaded, Decode, Taken, AtomicOk, FieldsOk, IsLocalCall, InstOk, PcInv;
    if Decode(env.prog[s.pc].opcode).Exit? {
      ReturnTarget(env, s);
    } else {
      CheckedTarget(env, s);
    }
  }

  lemma ReturnTarget(env: Env, s: State)
    requires PcInv(env, s) && s.pc < |env.prog| && Decode(env.prog[s.pc].opcode).Exit? && s.depth > 0
    ensures FirstOrEnd(env.prog, IntegerPc(env, s))
  {
    hide Decode;
  }

  /** The target of an instruction whose fields were checked. */
  lemma CheckedTarget(env: Env, s: State)
    requires s.pc < |env.prog| < MAX_INSTS && InstOk(env.callable, env.usage, env.prog, s.pc)
    requires FirstOrEnd(env.prog, s.pc + Width(env.prog[s.pc])) && !Decode(env.prog[s.pc].opcode).Exit?
    ensures 0 <= IntegerPc(env, s) <= |env.prog|
    ensures var inst := env.prog[s.pc];
      if Decode(inst.opcode).Call? && inst.src == 1 then IntegerPc(env, s) == CallTarget(env.prog, s.pc)
      else FirstOrEnd(env.prog, IntegerPc(env, s))
  {
    hide Decode, Taken, AtomicOk, FieldsOk;
  }

  // ---------------------------------------------------------------- one step

  lemma WrapOnce(a: int, d: int)
    ensures ToU16(ToU16(a) + d) == ToU16(a + d)
  {
  }

  /** Every step's 16-bit program counter is the integer one modulo 2^16. */
  lemma StepPc(env: Env, s: State)
    requires Step(env, s).Next?
    ensures Step(env, s).state.pc == ToU16(IntegerPc(env, s))
  {
    hide Decode, AluValue, EndValue, Taken, Access, WithAtomicResult, WideImmediate, ToU16;
    var inst := env.prog[s.pc];
    WrapOnce(s.pc + 1, inst.offset);
    WrapOnce(s.pc + 1, inst.imm);
    WrapOnce(s.pc + 1, 1);
    DecodeSizes(inst.opcode);
    FixedU16(s.frames);
    match Decode(inst.opcode)
    case Atomic(size) => AtomicKeepsControl(env, Enter(env, s), inst, size);
    case _ =>
  }

  lemma FixedU16(frames: Frames)
    ensures forall d :: 0 <= d < MAX_CALL_DEPTH ==> ToU16(frames[d].ret) == frames[d].ret
  {
  }

  lemma AtomicKeepsControl(env: Env, s: State, inst: Inst, size: nat)
    requires size == 4 || size == 8
    ensures forall addr: u64 :: var t := WithAtomicResult(s, inst, addr, size);
      t.pc == s.pc && t.depth == s.depth && t.frames == s.frames && t.limit == s.limit
  {
  }

  /** How a step changes the call depth and the frames below it. */
  ghost predicate FramesFollow(env: Env, s: State, t: State)
    requires s.pc < |env.prog|
  {
    && t.depth == (if AtLocalCall(env, s) then s.depth + 1
                   else if Decode(env.prog[s.pc].opcode).Exit? then s.depth - 1 else s.depth)
    && (forall d :: 0 <= d < t.depth && d < s.depth ==> t.frames[d] == s.frames[d])
    && (AtLocalCall(env, s) ==>
          t.frames[s.depth] == Frame(Enter(env, s).frames[s.depth].usage, ToU16(s.pc + 1),
                                     s.regs[6], s.regs[7], s.regs[8], s.regs[9]))
  }

  lemma StepFrames(env: Env, s: State)
    requires Step(env, s).Next?
    ensures FramesFollow(env, s, Step(env, s).state)
  {
    hide Decode, AluValue, EndValue, Taken, Access, WithAtomicResult, WideImmediate, ToU16;
    var inst := env.prog[s.pc];
    LocalCallDecodes(env.prog, s.pc);
    DecodeSizes(inst.opcode);
    match Decode(inst.opcode)
    case Atomic(size) => AtomicKeepsControl(env, Enter(env, s), inst, size);
    case _ =>
  }

  lemma StepKnown(env: Env, s: State)
    requires Step(env, s).Next?
    ensures s.pc < |env.prog| && !Decode(env.prog[s.pc].opcode).Unknown? && env.prog[s.pc].opcode != 0
    ensures Decode(env.prog[s.pc].opcode).Exit? ==> s.depth > 0
  {
    assert Decode(0).Unknown?;
    hide Decode, AluValue, EndValue, Taken, Access, WithAtomicResult, WideImmediate;
  }

  /** A step of an accepted program: the 16-bit counter equals the integer one and the invariant is kept. */
  lemma StepKeepsPc(env: Env, s: State)
    requires Loaded(env) && PcInv(env, s) && Step(env, s).Next?
    ensures var t := Step(env, s).state;
      && t.pc == IntegerPc(env, s) && PcInv(env, t)
      && (!AtLocalCall(env, s) ==> FirstOrEnd(env.prog, t.pc))
  {
    hide Step, Loaded, Decode, Taken, IntegerPc, AtLocalCall, FramesFollow;
    StepKnown(env, s);
    SuccessorOk(env, s);
    StepPc(env, s);
    StepReturns(env, s);
  }

  lemma StepReturns(env: Env, s: State)
    requires Loaded(env) && PcInv(env, s) && Step(env, s).Next?
    ensures var t := Step(env, s).state; forall d :: 0 <= d < t.depth ==> FirstOrEnd(env.prog, t.frames[d].ret)
  {
    hide Step, Loaded, Decode, IsLocalCall;
    StepKnown(env, s);
    StepFrames(env, s);
    AcceptedSlot(env, s.pc);
    CallWidth(env.prog, s.pc);
  }

  lemma CallWidth(prog: seq<Inst>, i: nat)
    requires i < |prog|
    ensures IsLocalCall(prog, i) ==> Width(prog[i]) == 1
  {
    LocalCallDecodes(prog, i);
  }

  /** An accepted program never reaches what the C code leaves undefined, a BTF call or an unknown atomic. */
  lemma StepDefined(env: Env, s: State)
    requires Loaded(env) && PcInv(env, s)
    ensures Step(env, s) !in {Fail(Undefined), Fail(CallByBtfId), Fail(UnknownAtomic)}
    ensures Step(env, s) == Fail(UnknownOpcode) ==>
              s.pc < |env.prog| && env.prog[s.pc].opcode == 0 && s.pc in env.funcs
  {
    hide Execute, Loaded, InstOk;
    if s.pc < |env.prog| {
      if env.prog[s.pc].opcode == 0 {
        ZeroSlot(env, Enter(env, s), env.prog[s.pc]);
      } else {
        AcceptedSlot(env, s.pc);
        DefinedSlot(env, Enter(env, s), s.pc);
      }
    }
  }

  lemma ZeroSlot(env: Env, s: State, inst: Inst)
    requires inst.opcode == 0
    ensures Execute(env, s, inst) == Fail(UnknownOpcode)
  {
    assert Decode(0).Unknown?;
    hide Decode;
  }

  lemma DefinedSlot(env: Env, s: State, i: nat)
    requires i < |env.prog| < MAX_INSTS && InstOk(env.callable, env.usage, env.prog, i) && s.pc == i + 1
    ensures Execute(env, s, env.prog[i]) !in {Fail(Undefined), Fail(CallByBtfId), Fail(UnknownAtomic), Fail(UnknownOpcode)}
  {
    hide Decode, AluValue, EndValue, Taken, BoundsOk, WithAtomicResult, WideImmediate, FieldsOk, JumpOk, AtomicCode,
         AtomicFetch;
    DecodeSizes(env.prog[i].opcode);
  }

  // ---------------------------------------------------------------- whole runs

  lemma InitialPc(env: Env, regs: Regs, mem: Memory)
    requires Loaded(env)
    ensures PcInv(env, Initial(env, regs, mem))
  {
    hide InstOk, SelfContained;
    if env.prog != [] {
      KnownOpcode(env.callable, env.usage, env.prog, 0);
    }
  }

  /** Control flow of every run of every accepted program. */
  lemma {:induction false} ReachablePc(env: Env, regs: Regs, mem: Memory, n: nat)
    requires Loaded(env)
    ensures var o := Run(env, Initial(env, regs, mem), n);
      && (o.Next? ==> PcInv(env, o.state) && o.state.pc <= |env.prog| <= 65535)
      && o !in {Fail(Undefined), Fail(CallByBtfId), Fail(UnknownAtomic)}
  {
    hide Step, PcInv, Initial;
    InitialPc(env, regs, mem);
    PcBound(env, Initial(env, regs, mem));
    if n > 0 {
      ReachablePc(env, regs, mem, n - 1);
      var o := Run(env, Initial(env, regs, mem), n - 1);
      if o.Next? {
        StepDefined(env, o.state);
        if Step(env, o.state).Next? {
          StepKeepsPc(env, o.state);
          PcBound(env, Step(env, o.state).state);
        }
      }
    }
  }

  lemma PcBound(env: Env, s: State)
    requires Loaded(env) && PcInv(env, s)
    ensures s.pc <= |env.prog| <= 65535
  {
  }

  /**
    The unknown-opcode error of an accepted program has one cause: the step before was a local call whose
    target is the second slot of an LDDW.
    */
  lemma UnknownOpcodeCause(env: Env, regs: Regs, mem: Memory, n: nat)
    requires Loaded(env)
    requires var o := Run(env, Initial(env, regs, mem), n); o.Next? && Step(env, o.state) == Fail(UnknownOpcode)
    ensures n > 0
    ensures var p := Run(env, Initial(env, regs, mem), n - 1); var s := Run(env, Initial(env, regs, mem), n).state;
      && p.Next? && AtLocalCall(env, p.state) && s.pc == CallTarget(env.prog, p.state.pc)
      && 0 < s.pc < |env.prog| && Decode(env.prog[s.pc - 1].opcode).Lddw?
  {
    hide Step, Initial, Decode, AtLocalCall;
    ReachablePc(env, regs, mem, n);
    var s := Run(env, Initial(env, regs, mem), n).state;
    StepDefined(env, s);
    assert !FirstOrEnd(env.prog, s.pc);
    if n == 0 {
      InitialIsFirst(env, regs, mem);
    } else {
      ReachablePc(env, regs, mem, n - 1);
      var p := Run(env, Initial(env, regs, mem), n - 1).state;
      StepKnown(env, p);
      StepKeepsPc(env, p);
      CallPc(env, p);
      SecondSlot(env, s.pc);
    }
  }

  /** Local calls go to first slots. */
  predicate CallsHitFirstSlots(prog: seq<Inst>)
  {
    forall i :: 0 <= i < |prog| && IsLocalCall(prog, i) ==>
      0 <= CallTarget(prog, i) < |prog| && prog[CallTarget(prog, i)].opcode != 0
  }

  /** If local calls enter instructions at their first slots, no run of an accepted program ends in that error. */
  lemma {:induction false} NoUnknownOpcode(env: Env, regs: Regs, mem: Memory, n: nat)
    requires Loaded(env) && CallsHitFirstSlots(env.prog)
    ensures Run(env, Initial(env, regs, mem), n) != Fail(UnknownOpcode)
  {
    hide Step, Initial, Loaded, Decode;
    if n > 0 {
      NoUnknownOpcode(env, regs, mem, n - 1);
      var o := Run(env, Initial(env, regs, mem), n - 1);
      if o.Next? && Step(env, o.state) == Fail(UnknownOpcode) {
        UnknownOpcodeCause(env, regs, mem, n - 1);
        ReachablePc(env, regs, mem, n - 1);
        StepDefined(env, o.state);
      }
    }
  }

  /** A local call into a second slot is followed by that error, and no other local call is. */
  lemma ErrorAfterCall(env: Env, s: State)
    requires Loaded(env) && PcInv(env, s) && AtLocalCall(env, s) && Step(env, s).Next?
    ensures var t := Step(env, s).state;
      && t.pc == CallTarget(env.prog, s.pc) && t.pc < |env.prog|
      && (env.limit == 0 || t.limit > 0 ==> (Step(env, t) == Fail(UnknownOpcode) <==> env.prog[t.pc].opcode == 0))
  {
    hide Execute, Loaded, Decode;
    StepKnown(env, s);
    StepKeepsPc(env, s);
    CallPc(env, s);
    AcceptedSlot(env, s.pc);
    CallInside(env, s.pc);
    var t := Step(env, s).state;
    StepDefined(env, t);
    ZeroSlot(env, Enter(env, t), Inst(0, env.prog[t.pc].dst, env.prog[t.pc].src, env.prog[t.pc].offset, env.prog[t.pc].imm));
  }

  lemma CallInside(env: Env, i: nat)
    requires i < |env.prog| < MAX_INSTS && InstOk(env.callable, env.usage, env.prog, i) && IsLocalCall(env.prog, i)
    ensures 0 <= CallTarget(env.prog, i) < |env.prog|
  {
    LocalCallDecodes(env.prog, i);
    hide Decode, FieldsOk;
  }

  lemma InitialIsFirst(env: Env, regs: Regs, mem: Memory)
    requires Loaded(env)
    ensures FirstOrEnd(env.prog, Initial(env, regs, mem).pc)
  {
    hide InstOk, SelfContained;
    if env.prog != [] {
      KnownOpcode(env.callable, env.usage, env.prog, 0);
    }
  }

  lemma CallPc(env: Env, s: State)
    requires s.pc < |env.prog|
    ensures AtLocalCall(env, s) ==> IntegerPc(env, s) == CallTarget(env.prog, s.pc)
  {
    LocalCallDecodes(env.prog, s.pc);
  }

  lemma SecondSlot(env: Env, i: nat)
    requires Loaded(env) && i < |env.prog| && env.prog[i].opcode == 0
    ensures 0 < i && Decode(env.prog[i - 1].opcode).Lddw?
  {
    hide InstOk, SelfContained, Decode;
    FirstSlots(env.callable, env.usage, env.prog, 0, i);
  }

  /** A positive instruction limit bounds the run: after `limit` instructions it has stopped. */
  lemma {:induction false} LimitBoundsRun(env: Env, regs: Regs, mem: Memory, n: nat)
    requires env.limit > 0
    ensures var o := Run(env, Initial(env, regs, mem), n); o.Next? ==> n <= env.limit && o.state.limit == env.limit - n
  {
    hide Step;
    if n > 0 {
      LimitBoundsRun(env, regs, mem, n - 1);
      var o := Run(env, Initial(env, regs, mem), n - 1);
      if o.Next? && Step(env, o.state).Next? {
        StepCounts(env, o.state);
      }
    }
  }

  lemma StepCounts(env: Env, s: State)
    requires env.limit != 0 && Step(env, s).Next?
    ensures s.limit > 0 && Step(env, s).state.limit == s.limit - 1
  {
    hide Decode, AluValue, EndValue, Taken, Access, WithAtomicResult, WideImmediate;
    DecodeSizes(env.prog[s.pc].opcode);
    match Decode(env.prog[s.pc].opcode)
    case Atomic(size) => AtomicKeepsControl(env, Enter(env, s), env.prog[s.pc], size);
    case _ =>
  }
}
