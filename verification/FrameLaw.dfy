/** The call-frame law: r10 is the stack top minus what the live frames use, and calls and returns cancel out. */
module FrameLaw {
  import opened Words
  import opened Isa
  import opened Semantics
  import opened Machine
  import opened SubPrograms
  import opened Validator
  import opened Legacy
  import opened ControlFlow

  /** Acceptance keeps every register-writing instruction away from r10, except a fetching atomic. */
  lemma AcceptedKeepsR10(env: Env)
    requires Loaded(env)
    ensures KeepsR10(env.prog)
  {
    forall i | 0 <= i < |env.prog|
      ensures DstNotR10(env.prog[i])
    {
      if env.prog[i].opcode == 0 {
        assert Decode(0).Unknown?;
      } else {
        AcceptedSlot(env, i);
        SlotKeepsR10(env, i);
      }
    }
  }

  lemma SlotKeepsR10(env: Env, i: nat)
    requires i < |env.prog| < MAX_INSTS && InstOk(env.callable, env.usage, env.prog, i)
    ensures DstNotR10(env.prog[i])
  {
    hide Decode, LddwOk, CallOk, JumpOk, AtomicOk;
  }

  /** The stack space of the frames below depth `d`. */
  function LiveUsage(frames: Frames, d: Depth): nat
    decreases d
  {
    if d == 0 then 0 else LiveUsage(frames, d - 1) + frames[d - 1].usage
  }

  lemma {:induction false} LiveUsageSame(f: Frames, g: Frames, d: Depth)
    requires forall k :: 0 <= k < d ==> f[k].usage == g[k].usage
    ensures LiveUsage(f, d) == LiveUsage(g, d)
    decreases d
  {
    if d > 0 {
      LiveUsageSame(f, g, d - 1);
    }
  }

  lemma {:induction false} LiveUsageAligned(f: Frames, d: Depth)
    requires forall k :: 0 <= k < MAX_CALL_DEPTH ==> f[k].usage % 16 == 0
    ensures LiveUsage(f, d) % 16 == 0
    decreases d
  {
    if d > 0 {
      LiveUsageAligned(f, d - 1);
    }
  }

  ghost predicate FrameInv(env: Env, s: State)
  {
    && s.regs[10] == ToU64(env.stack + env.stackLen - LiveUsage(s.frames, s.depth))
    && (forall k :: 0 <= k < MAX_CALL_DEPTH ==> s.frames[k].usage % 16 == 0)
  }

  /** What a step does to r10. */
  lemma StepR10(env: Env, s: State)
    requires Step(env, s).Next? && KeepsR10(env.prog) && NoFetchIntoR10(env.prog)
    ensures Step(env, s).state.regs[10] ==
              if AtLocalCall(env, s) && s.depth < MAX_CALL_DEPTH
              then ToU64(s.regs[10] - Enter(env, s).frames[s.depth].usage)
              else if Decode(env.prog[s.pc].opcode).Exit? && s.depth > 0
              then ToU64(s.regs[10] + Enter(env, s).frames[s.depth - 1].usage)
              else s.regs[10]
  {
    var inst := env.prog[s.pc];
    assert DstNotR10(inst) && FetchNotR10(inst);
    hide Decode, Execute, ToU64, KeepsR10, NoFetchIntoR10, DstNotR10, FetchNotR10, Enter;
    LocalCallDecodes(env.prog, s.pc);
    EnterKeeps(env, s);
    if Decode(inst.opcode).Exit? || Decode(inst.opcode).Call? {
      CallExitR10(env, Enter(env, s), inst);
    } else {
      OtherR10(env, Enter(env, s), inst);
    }
  }

  lemma EnterKeeps(env: Env, s: State)
    ensures Enter(env, s).regs == s.regs && Enter(env, s).depth == s.depth
  {
  }

  lemma CallExitR10(env: Env, s: State, inst: Inst)
    requires (Decode(inst.opcode).Exit? || Decode(inst.opcode).Call?) && Execute(env, s, inst).Next?
    ensures Execute(env, s, inst).state.regs[10] ==
              if Decode(inst.opcode).Call? && inst.src == 1 && s.depth < MAX_CALL_DEPTH
              then ToU64(s.regs[10] - s.frames[s.depth].usage)
              else if Decode(inst.opcode).Exit? && s.depth > 0 then ToU64(s.regs[10] + s.frames[s.depth - 1].usage)
              else s.regs[10]
  {
    hide Decode, ToU64, ToU16;
  }

  lemma OtherR10(env: Env, s: State, inst: Inst)
    requires !Decode(inst.opcode).Exit? && !Decode(inst.opcode).Call? && Execute(env, s, inst).Next?
    requires DstNotR10(inst) && FetchNotR10(inst)
    ensures Execute(env, s, inst).state.regs[10] == s.regs[10]
  {
    hide Decode, AluValue, EndValue, Taken, Access, WithAtomicResult, WideImmediate, ToU64, ToU16, Store, FetchNotR10, Load;
    DecodeSizes(inst.opcode);
    match Decode(inst.opcode)
    case Atomic(size) => AtomicR10(s, inst, size);
    case _ =>
  }

  lemma AtomicR10(s: State, inst: Inst, size: nat)
    requires (size == 4 || size == 8) && FetchNotR10(inst) && Decode(inst.opcode).Atomic?
    ensures forall addr: u64 :: WithAtomicResult(s, inst, addr, size).regs[10] == s.regs[10]
  {
    hide Decode, LoadWord, AtomicValue, Store;
  }

  /** Every frame's recorded usage is one the validator checked. */
  lemma EnterAligned(env: Env, s: State)
    requires Loaded(env) && FrameInv(env, s)
    ensures forall k :: 0 <= k < MAX_CALL_DEPTH ==> Enter(env, s).frames[k].usage % 16 == 0
  {
    if s.pc in env.funcs {
      var i := TargetOf(env.prog, |env.prog|, s.pc);
      AcceptedSlot(env, i);
      LocalCallDecodes(env.prog, i);
    }
  }

  lemma StepUsages(env: Env, s: State)
    requires Step(env, s).Next?
    ensures forall k :: 0 <= k < MAX_CALL_DEPTH ==> Step(env, s).state.frames[k].usage == Enter(env, s).frames[k].usage
  {
    hide Decode, AluValue, EndValue, Taken, Access, WithAtomicResult, WideImmediate, ToU64, ToU16;
    var inst := env.prog[s.pc];
    DecodeSizes(inst.opcode);
    match Decode(inst.opcode)
    case Atomic(size) => AtomicKeepsControl(env, Enter(env, s), inst, size);
    case _ =>
  }

  lemma WrapMinus(a: int, d: int)
    ensures ToU64(ToU64(a) - d) == ToU64(a - d) && ToU64(ToU64(a) + d) == ToU64(a + d)
  {
  }

  lemma EnterFrames(env: Env, s: State)
    ensures forall k :: 0 <= k < MAX_CALL_DEPTH && k != s.depth ==> Enter(env, s).frames[k] == s.frames[k]
  {
  }

  /** A call adds the caller's usage to the live total and a return takes it off again. */
  lemma StepLiveUsage(env: Env, s: State)
    requires Step(env, s).Next?
    ensures var t, e := Step(env, s).state, Enter(env, s);
      LiveUsage(t.frames, t.depth) ==
        if AtLocalCall(env, s) && s.depth < MAX_CALL_DEPTH then LiveUsage(s.frames, s.depth) + e.frames[s.depth].usage
        else if Decode(env.prog[s.pc].opcode).Exit? && s.depth > 0
        then LiveUsage(s.frames, s.depth) - e.frames[s.depth - 1].usage
        else LiveUsage(s.frames, s.depth)
  {
    hide Step, Decode, IsLocalCall, Enter;
    StepKnown(env, s);
    StepFrames(env, s);
    StepUsages(env, s);
    EnterFrames(env, s);
    var t, e := Step(env, s).state, Enter(env, s);
    LiveUsageSame(t.frames, e.frames, t.depth);
    LiveUsageSame(e.frames, s.frames, s.depth);
    if t.depth < s.depth {
      LiveUsageSame(e.frames, s.frames, t.depth);
    }
  }

  lemma StepKeepsFrames(env: Env, s: State)
    requires Loaded(env) && NoFetchIntoR10(env.prog) && FrameInv(env, s) && Step(env, s).Next?
    ensures FrameInv(env, Step(env, s).state)
  {
    hide Step, Loaded, KeepsR10, NoFetchIntoR10, Decode, IsLocalCall, Enter, ToU64, LiveUsage;
    AcceptedKeepsR10(env);
    StepKnown(env, s);
    StepR10(env, s);
    StepLiveUsage(env, s);
    StepUsages(env, s);
    EnterAligned(env, s);
    var e, live := Enter(env, s), env.stack + env.stackLen - LiveUsage(s.frames, s.depth);
    if AtLocalCall(env, s) && s.depth < MAX_CALL_DEPTH {
      WrapMinus(live, e.frames[s.depth].usage);
    } else if s.depth > 0 {
      WrapMinus(live, e.frames[s.depth - 1].usage);
    }
  }

  /**
    In every reachable state of an accepted program without a fetching atomic into r10, r10 is the stack top
    minus the live frames' usages (mod 2^64), so it keeps the stack top's alignment, and the depth is at most 8.
    */
  lemma {:induction false} ReachableFrames(env: Env, regs: Regs, mem: Memory, n: nat)
    requires Loaded(env) && NoFetchIntoR10(env.prog)
    ensures var o := Run(env, Initial(env, regs, mem), n);
      o.Next? ==>
        && o.state.depth <= 8
        && o.state.regs[10] == ToU64(env.stack + env.stackLen - LiveUsage(o.state.frames, o.state.depth))
        && o.state.regs[10] % 16 == (env.stack + env.stackLen) % 16
        && FrameInv(env, o.state)
  {
    hide Step, Loaded, NoFetchIntoR10;
    var s0 := Initial(env, regs, mem);
    assert FrameInv(env, s0);
    if n > 0 {
      ReachableFrames(env, regs, mem, n - 1);
      var o := Run(env, s0, n - 1);
      if o.Next? && Step(env, o.state).Next? {
        StepKeepsFrames(env, o.state);
      }
    }
    var o := Run(env, s0, n);
    if o.Next? {
      LiveUsageAligned(o.state.frames, o.state.depth);
      ResidueKept(env.stack + env.stackLen, LiveUsage(o.state.frames, o.state.depth));
    }
  }

  lemma ResidueKept(top: int, used: int)
    requires used % 16 == 0
    ensures ToU64(top - used) % 16 == top % 16
  {
    var w, v := 0x1_0000_0000_0000_0000, top - used;
    assert v == (v / w) * w + ToU64(v);
    var q := used / 16 + (v / w) * (w / 16);
    assert top == 16 * q + ToU64(v);
    ModUnique(top, 16, q + ToU64(v) / 16, ToU64(v) % 16);
  }

  // ---------------------------------------------------------------- matched calls and returns

  /** After the first step, the next `m - 1` steps all run deeper than depth `d`. */
  ghost predicate StaysDeeper(env: Env, s: State, m: nat, d: int)
  {
    forall j :: 1 <= j <= m ==> Run(env, s, j).Next? && Run(env, s, j).state.depth > d
  }

  /** While execution stays deeper, the frames up to the caller's are untouched. */
  lemma {:induction false} CallerFrameKept(env: Env, s: State, m: nat)
    requires m >= 1 && StaysDeeper(env, s, m, s.depth)
    ensures forall k :: 0 <= k <= s.depth && k < MAX_CALL_DEPTH ==>
              Run(env, s, m).state.frames[k] == Run(env, s, 1).state.frames[k]
  {
    hide Step;
    if m > 1 {
      assert StaysDeeper(env, s, m - 1, s.depth);
      CallerFrameKept(env, s, m - 1);
      var p := Run(env, s, m - 1).state;
      assert Run(env, s, m).Next? && p.depth > s.depth && Run(env, s, m).state.depth > s.depth;
      StepKnown(env, p);
      StepFrames(env, p);
    }
  }

  /**
    A matched call and return. If a reachable state calls a local function, execution then stays deeper for any
    number of steps, and the step after that comes back to the caller's depth, then r6 to r10 are what they were
    at the call and execution continues right after it.
    */
  lemma CallThenReturn(env: Env, regs: Regs, mem: Memory, n: nat, m: nat)
    requires Loaded(env) && NoFetchIntoR10(env.prog) && m >= 1
    requires Run(env, Initial(env, regs, mem), n).Next?
    requires var s := Run(env, Initial(env, regs, mem), n).state;
      && AtLocalCall(env, s) && StaysDeeper(env, s, m, s.depth)
      && Run(env, s, m + 1).Next? && Run(env, s, m + 1).state.depth == s.depth
    ensures var s := Run(env, Initial(env, regs, mem), n).state; var t := Run(env, s, m + 1).state;
      && t.pc == s.pc + 1
      && (forall r :: 6 <= r <= 10 ==> t.regs[r] == s.regs[r])
  {
    hide Step, Loaded, NoFetchIntoR10, Initial, Decode, FramesFollow, StaysDeeper, FrameInv, LiveUsage, ToU64;
    var s0 := Initial(env, regs, mem);
    var s := Run(env, s0, n).state;
    ReachablePc(env, regs, mem, n);
    CalleeSaves(env, s, m);
    RunRuns(env, s0, n, m + 1);
    ReachableFrames(env, regs, mem, n);
    ReachableFrames(env, regs, mem, n + (m + 1));
    LiveUsageSame(Run(env, s, m + 1).state.frames, s.frames, s.depth);
  }

  /** The frame part of the matched return, for any state and any program. */
  lemma CalleeSaves(env: Env, s: State, m: nat)
    requires m >= 1 && AtLocalCall(env, s) && StaysDeeper(env, s, m, s.depth) && s.pc < 65535
    requires Run(env, s, m + 1).Next? && Run(env, s, m + 1).state.depth == s.depth
    ensures var t := Run(env, s, m + 1).state;
      && t.pc == s.pc + 1
      && (forall r :: 6 <= r <= 9 ==> t.regs[r] == s.regs[r])
      && (forall k :: 0 <= k < s.depth ==> t.frames[k] == s.frames[k])
  {
    hide Step, Decode, IsLocalCall;
    assert Run(env, s, 1) == Step(env, s) by { assert Run(env, s, 0) == Next(s); }
    assert Run(env, s, 1).Next? && Run(env, s, m).Next? && Run(env, s, m).state.depth > s.depth;
    var c, u := Run(env, s, 1).state, Run(env, s, m).state;
    StepKnown(env, s);
    StepFrames(env, s);
    CallerFrameKept(env, s, m);
    StepKnown(env, u);
    StepFrames(env, u);
    ReturnRestores(env, u);
  }

  lemma ReturnRestores(env: Env, u: State)
    requires Step(env, u).Next? && u.depth > 0 && Decode(env.prog[u.pc].opcode).Exit?
    ensures var t, f := Step(env, u).state, u.frames[u.depth - 1];
      t.pc == f.ret && t.regs[6] == f.r6 && t.regs[7] == f.r7 && t.regs[8] == f.r8 && t.regs[9] == f.r9
  {
    hide Decode;
  }

  lemma {:induction false} RunRuns(env: Env, s: State, n: nat, m: nat)
    requires Run(env, s, n).Next?
    ensures Run(env, s, n + m) == Run(env, Run(env, s, n).state, m)
  {
    hide Step;
    if m > 0 {
      RunRuns(env, s, n, m - 1);
    }
  }

  // ---------------------------------------------------------------- the excluded instruction

  /**
    The condition is exact: wherever a fetching atomic into r10 executes, some contents of memory make that
    very step break the law.
    */
  lemma FetchIntoR10BreaksLaw(env: Env, s: State) returns (m: Memory)
    requires FrameInv(env, s) && Step(env, s).Next? && !FetchNotR10(env.prog[s.pc])
    ensures Step(env, s.(mem := m)).Next? && !FrameInv(env, Step(env, s.(mem := m)).state)
  {
    hide Execute, Decode, Load, LiveUsage, Store, AtomicValue, BoundsOk, ToU16, ToU64;
    var inst := env.prog[s.pc];
    var size := Decode(inst.opcode).size;
    AtomicStep(env, s);
    var addr := Access(env, s.regs[inst.dst], inst.offset, size).value;
    m := if s.regs[10] == 0 then map[addr := 1] else map[];
    LoadNothing(addr, size);
    LoadOne(addr, size);
    AtomicStep(env, s.(mem := m));
    LiveUsageSame(Enter(env, s).frames, s.frames, s.depth);
  }

  /** A fetching atomic into r10 leaves there the word it found. */
  lemma AtomicStep(env: Env, s: State)
    requires s.pc < |env.prog| && !FetchNotR10(env.prog[s.pc])
    ensures var inst := env.prog[s.pc]; var size := Decode(inst.opcode).size;
      var a := Access(env, s.regs[inst.dst], inst.offset, size);
      && size in {4, 8}
      && (Step(env, s).Next? ==>
            a.Ok? && AtomicKnown(AtomicCode(inst.imm)) && (env.limit != 0 ==> s.limit > 0))
      && (a.Ok? && AtomicKnown(AtomicCode(inst.imm)) && (env.limit != 0 ==> s.limit > 0) ==>
            && Step(env, s).Next?
            && var t := Step(env, s).state;
               t.regs[10] == LoadWord(s.mem, a.value, size) && t.frames == Enter(env, s).frames && t.depth == s.depth)
  {
    var inst := env.prog[s.pc];
    DecodeSizes(inst.opcode);
    hide Decode, Access, LoadWord, Store, AtomicValue, ToU16;
  }

  lemma {:induction false} LoadNothing(a: int, n: nat)
    ensures Load(map[], a, n) == 0
    decreases n
  {
    if n > 0 {
      LoadNothing(a + 1, n - 1);
    }
  }

  lemma LoadOne(a: u64, n: nat)
    requires 1 <= n <= 8
    ensures Load(map[a := 1], a, n) == 1
  {
    hide Load, Pow2;
    LoadDepends(map[a := 1], map[], a + 1, n - 1);
    LoadNothing(a + 1, n - 1);
    LoadUnfolds(map[a := 1], a, n);
  }

  lemma LoadUnfolds(m: Memory, a: int, n: nat)
    requires n > 0
    ensures Load(m, a, n) == ByteAt(m, a) + 256 * Load(m, a + 1, n - 1)
  {
  }

  /** An atomic fetch-and-add on the top word of the stack with r10 as its source, and an EXIT. */
  const FETCH_INTO_R10: seq<Inst> := [Inst(0xdb, 10, 10, -8, 1), Inst(0x95, 0, 0, 0, 0)]

  lemma FetchIntoR10IsAccepted(callable: int -> bool, usage: u16 -> u16)
    requires usage(0) % 16 == 0
    ensures Accepts(callable, usage, FETCH_INTO_R10) && LocalTargets(FETCH_INTO_R10) == {}
  {
    var p := FETCH_INTO_R10;
    FetchDecodes();
    assert LocalTargets(p) == {} by { assert Targets(p, 0) == {} && Targets(p, 1) == {}; }
    hide Decode, Targets;
    assert Walk(callable, usage, p, 1) by { assert Walk(callable, usage, p, 2); }
  }

  lemma FetchDecodes()
    ensures Decode(0xdb) == Atomic(8) && Decode(0x95) == Exit
    ensures AtomicKnown(AtomicCode(1)) && AtomicCode(1) < 14 && AtomicFetch(1)
  {
  }

  /** This program runs, and after its first step the law holds exactly if the word it found was the stack top itself. */
  lemma FetchIntoR10Runs(env: Env, regs: Regs, mem: Memory)
    requires env.prog == FETCH_INTO_R10 && env.funcs == {} && env.limit == 0 && env.usage(0) % 16 == 0
    requires env.stackLen >= 8 && env.stack + env.stackLen < 0x1_0000_0000_0000_0000
    ensures Loaded(env) && FrameInv(env, Initial(env, regs, mem))
    ensures var o, top := Run(env, Initial(env, regs, mem), 1), env.stack + env.stackLen;
      && o.Next? && (FrameInv(env, o.state) <==> LoadWord(mem, top - 8, 8) == top)
      && (mem == map[] ==> !FrameInv(env, o.state))
  {
    hide Accepts, Decode, LoadWord, Load, Execute;
    FetchIntoR10IsAccepted(env.callable, env.usage);
    FetchDecodes();
    var s, top := Initial(env, regs, mem), env.stack + env.stackLen;
    assert Run(env, s, 0) == Next(s);
    assert Access(env, s.regs[10], -8, 8) == Ok(top - 8);
    assert LiveUsage(s.frames, 0) == 0 && LiveUsage(Enter(env, s).frames, 0) == 0;
    AtomicStep(env, s);
    StepUsages(env, s);
    EnterAligned(env, s);
    NothingLoaded(top - 8);
  }

  lemma NothingLoaded(a: u64)
    ensures LoadWord(map[], a, 8) == 0
  {
    LoadNothing(a, 8);
  }
}
