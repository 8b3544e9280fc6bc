/** The host stack of the x86-64 code always represents the interpreter's frame array. */
module CallRefinement {
  import opened Words
  import opened Isa
  import opened Semantics
  import opened Machine
  import opened SubPrograms
  import opened Validator
  import opened Legacy
  import opened ControlFlow
  import opened SubProgramRuns
  import opened CallProtocol

  /** Accepted, entered only at instruction starts, and never running off the end of a sub-program. */
  ghost predicate Suitable(env: Env)
  {
    env.prog != [] && Loaded(env) && CallsHitFirstSlots(env.prog) && Closed(env.prog)
  }

  lemma SuitableRange(env: Env)
    requires Suitable(env)
    ensures |env.prog| <= 65535 && CallsInRange(env.prog)
  {
  }

  /** The stack usage of the function slot `pc` belongs to. */
  function UsageAt(env: Env, pc: u16): u16 { env.usage(StartOf(Starts(env.prog), pc)) }

  /** The host words of one saved frame: caller's usage, r6 to r9, and the address after the call instruction. */
  function FrameWords(env: Env, f: Frame): seq<Slot>
  {
    [Num(f.usage), Num(f.r6), Num(f.r7), Num(f.r8), Num(f.r9),
     Address(if 0 < f.ret <= |env.prog| then PcLoc(env, f.ret - 1) + 6 else 0)]
  }

  /** The host words of the frames below depth `d`, under the address of the exit stub. */
  function Below(env: Env, frames: Frames, d: Depth): seq<Slot>
    decreases d
  {
    if d == 0 then [Address(EXIT_STUB)] else Below(env, frames, d - 1) + FrameWords(env, frames[d - 1])
  }

  /** A return address: right after a local call, inside that call's own function, with that function's usage saved. */
  predicate ReturnOk(env: Env, f: Frame)
  {
    && 0 < f.ret < |env.prog| && IsLocalCall(env.prog, f.ret - 1)
    && f.ret !in env.funcs && f.usage == UsageAt(env, f.ret)
  }

  /** What the frame array holds at every instruction: each frame's usage is its function's. */
  ghost predicate FramesOk(env: Env, s: State)
  {
    && (forall k :: 0 <= k < s.depth ==> ReturnOk(env, s.frames[k]))
    && (s.depth < MAX_CALL_DEPTH ==> IsEntry(env, s.pc) || s.frames[s.depth].usage == UsageAt(env, s.pc))
  }

  /** Same registers and memory, the host stack is the frame array with the running function's usage on top. */
  ghost predicate Related(env: Env, s: State, h: Host)
  {
    && s.pc < |env.prog| && env.prog[s.pc].opcode != 0 && h.ip == PcLoc(env, s.pc)
    && h.regs == s.regs && h.mem == s.mem
    && h.stack == Below(env, s.frames, s.depth) + [Num(UsageAt(env, s.pc))]
  }

  /** RSP as a 64-bit address below a 16-byte aligned start. */
  function Rsp(start: int, h: Host): int { start - 8 * |h.stack| }

  lemma {:induction false} BelowLength(env: Env, frames: Frames, d: Depth)
    ensures |Below(env, frames, d)| == 1 + 6 * d
    decreases d
  {
    if d > 0 {
      BelowLength(env, frames, d - 1);
    }
  }

  lemma {:induction false} BelowSame(env: Env, f: Frames, g: Frames, d: Depth)
    requires forall k :: 0 <= k < d ==> f[k] == g[k]
    ensures Below(env, f, d) == Below(env, g, d)
    decreases d
  {
    if d > 0 {
      BelowSame(env, f, g, d - 1);
    }
  }

  // ---------------------------------------------------------------- intervals

  lemma EntryIsStart(env: Env, i: u16)
    requires Loaded(env) && IsEntry(env, i)
    ensures UsageAt(env, i) == env.usage(i)
  {
  }

  /** Two slots of one sub-program share the usage, and only its first slot is an entry. */
  lemma SameFunction(env: Env, i: u16, j: u16)
    requires Loaded(env) && StartOf(Starts(env.prog), i) == StartOf(Starts(env.prog), j)
    ensures UsageAt(env, i) == UsageAt(env, j)
    ensures i < j ==> !IsEntry(env, j)
  {
  }

  /** The slot after a local call is in the caller's sub-program. */
  lemma AfterCall(env: Env, i: nat)
    requires Suitable(env) && i < |env.prog| && IsLocalCall(env.prog, i)
    ensures i + 1 < |env.prog| && env.prog[i + 1].opcode != 0
    ensures StartOf(Starts(env.prog), i + 1) == StartOf(Starts(env.prog), i)
  {
    LocalCallDecodes(env.prog, i);
    CallWidth(env.prog, i);
    AcceptedSlot(env, i);
    EndWithin(Starts(env.prog), |env.prog|, i);
    hide Loaded, Decode, StartOf, EndOf, Starts, InstOk;
    StartBelow(Starts(env.prog), i);
    SameInterval(Starts(env.prog), |env.prog|, i, i + 1);
  }

  // ---------------------------------------------------------------- ordinary instructions

  predicate Ordinary(env: Env, i: nat)
    requires i < |env.prog|
  {
    env.prog[i].opcode != 0 && !IsLocalCall(env.prog, i) && !Decode(env.prog[i].opcode).Exit?
  }

  /** Registers, memory and pc do not depend on frames, depth or limit; those stay as they are. */
  ghost predicate SameEffect(e: State, a: Outcome<State>, b: Outcome<State>)
  {
    match (a, b)
    case (Next(t), Next(u)) =>
      t.pc == u.pc && t.regs == u.regs && t.mem == u.mem && t.frames == e.frames && t.depth == e.depth
    case (Done(v, m), Done(w, n)) => v == w && m == n
    case (Fail(x), Fail(y)) => x == y
    case _ => false
  }

  lemma BodyEffect(env: Env, e: State, v: State, inst: Inst)
    requires e.pc == v.pc && e.regs == v.regs && e.mem == v.mem
    requires !Decode(inst.opcode).Exit? && !(Decode(inst.opcode).Call? && inst.src == 1)
    ensures SameEffect(e, Execute(env, e, inst), Execute(env, v, inst))
  {
    hide Decode, Execute, SameEffect;
    var op := Decode(inst.opcode);
    DecodeSizes(inst.opcode);
    if op.Ldx? || op.St? || op.Stx? || op.Atomic? {
      MemoryEffect(env, e, v, inst);
    } else {
      OtherEffect(env, e, v, inst);
    }
  }

  lemma MemoryEffect(env: Env, e: State, v: State, inst: Inst)
    requires e.pc == v.pc && e.regs == v.regs && e.mem == v.mem
    requires var op := Decode(inst.opcode); op.Ldx? || op.St? || op.Stx? || op.Atomic?
    ensures SameEffect(e, Execute(env, e, inst), Execute(env, v, inst))
  {
    hide Decode, Access, LoadWord, LoadSigned, ToU64, ToU16, Store, AtomicValue;
    DecodeSizes(inst.opcode);
  }

  lemma OtherEffect(env: Env, e: State, v: State, inst: Inst)
    requires e.pc == v.pc && e.regs == v.regs && e.mem == v.mem
    requires var op := Decode(inst.opcode); !op.Ldx? && !op.St? && !op.Stx? && !op.Atomic? && !op.Exit? && !(op.Call? && inst.src == 1)
    ensures SameEffect(e, Execute(env, e, inst), Execute(env, v, inst))
  {
    hide Decode, AluValue, EndValue, Taken, WideImmediate, ToU64, ToU16;
  }

  /** The next slot in order starts where the code of an ordinary instruction ends. */
  lemma FallsThrough(env: Env, i: nat)
    requires Loaded(env) && i < |env.prog| && env.prog[i].opcode != 0 && i + Width(env.prog[i]) < |env.prog|
    requires Ordinary(env, i) && !IsEntry(env, i + Width(env.prog[i]))
    ensures PcLoc(env, i) + 1 == PcLoc(env, i + Width(env.prog[i]))
  {
    AcceptedSlot(env, i);
    hide Loaded, Decode;
    if Width(env.prog[i]) == 2 {
      assert env.prog[i + 1].opcode == 0;
      assert Offset(env, i + 2) == Offset(env, i + 1);
    }
  }

  // ---------------------------------------------------------------- host code at a slot

  lemma StepOwn(env: Env, i: nat, j: nat, h: Host)
    requires |env.prog| <= 65535 && CallsInRange(env.prog)
    requires i < |env.prog| && j < OwnLength(env, i) && h.ip == PcLoc(env, i) + j
    ensures j < |Own(env, i)| && HostStep(env, h) == Do(env, Own(env, i)[j], h)
  {
    hide Own, OwnLength, Do, Prefix, PrefixLength;
    CodeAt(env, |env.prog|, i);
    PartLengths(env, i);
    var c := Code(env, |env.prog|);
    assert c[PcLoc(env, i)..Offset(env, i + 1)][j] == c[h.ip];
  }

  lemma StepPrefix(env: Env, i: nat, j: nat, h: Host)
    requires |env.prog| <= 65535 && CallsInRange(env.prog)
    requires i < |env.prog| && j < PrefixLength(env, i) && h.ip == Offset(env, i) + j
    ensures j < |Prefix(env, i)| && HostStep(env, h) == Do(env, Prefix(env, i)[j], h)
  {
    hide Own, OwnLength, Do, Prefix, PrefixLength;
    CodeAt(env, |env.prog|, i);
    PartLengths(env, i);
    var c := Code(env, |env.prog|);
    assert c[Offset(env, i)..PcLoc(env, i)][j] == c[h.ip];
  }

  /** From a function's entry, the prologue puts its stack usage on top and reaches its recorded location. */
  lemma PrologueRuns(env: Env, i: nat, h: Host)
    requires |env.prog| <= 65535 && CallsInRange(env.prog)
    requires i < |env.prog| && env.prog[i].opcode != 0 && IsEntry(env, i) && h.ip == EntryLoc(env, i)
    ensures HostRun(env, h, 2) == Some(h.(ip := PcLoc(env, i), stack := h.stack + [Num(env.usage(i))]))
  {
    hide HostStep, Offset;
    var j := if HasBypass(env, i) then 1 else 0;
    StepPrefix(env, i, j, h);
    var h1 := Pushed(h.(ip := h.ip + 1), Garbage);
    StepPrefix(env, i, j + 1, h1);
    assert h1.stack[..|h1.stack| - 1] == h.stack;
    assert HostRun(env, h, 0) == Some(h);
    assert HostRun(env, h, 1) == Some(h1);
  }

  lemma PushStep(env: Env, i: nat, j: nat, h: Host, r: u4)
    requires |env.prog| <= 65535 && CallsInRange(env.prog)
    requires i < |env.prog| && IsLocalCall(env.prog, i) && h.ip == PcLoc(env, i) + j && 1 <= j <= 4 && r == j + 5
    ensures HostStep(env, h) == Some(h.(ip := h.ip + 1, stack := h.stack + [Num(h.regs[r])]))
  {
    hide HostStep, PcLoc, EntryLoc;
    StepOwn(env, i, j, h);
  }

  lemma PopStep(env: Env, i: nat, j: nat, h: Host, r: u4, base: seq<Slot>, v: u64)
    requires |env.prog| <= 65535 && CallsInRange(env.prog)
    requires i < |env.prog| && IsLocalCall(env.prog, i) && h.ip == PcLoc(env, i) + j && 6 <= j <= 9 && r == 15 - j
    requires h.stack == base + [Num(v)]
    ensures HostStep(env, h) == Some(h.(ip := h.ip + 1, stack := base, regs := h.regs[r := v]))
  {
    hide HostStep, PcLoc, EntryLoc;
    StepOwn(env, i, j, h);
    assert h.stack[..|h.stack| - 1] == base;
  }

  /** A local call up to the callee's entry: r10 lowered by the top word, r6 to r9 and the return address pushed. */
  lemma CallOwnRuns(env: Env, i: nat, h: Host, pre: seq<Slot>, u: u64)
    requires |env.prog| <= 65535 && CallsInRange(env.prog)
    requires i < |env.prog| && IsLocalCall(env.prog, i) && h.ip == PcLoc(env, i) && h.stack == pre + [Num(u)]
    requires EntryLoc(env, CallTarget(env.prog, i)) >= 0
    ensures HostRun(env, h, 6) ==
      Some(h.(ip := EntryLoc(env, CallTarget(env.prog, i)), regs := h.regs[10 := ToU64(h.regs[10] - u)],
              stack := h.stack + [Num(h.regs[6]), Num(h.regs[7]), Num(h.regs[8]), Num(h.regs[9]), Address(PcLoc(env, i) + 6)]))
  {
    hide HostStep, PcLoc, EntryLoc, ToU64;
    var h1 := h.(ip := h.ip + 1, regs := h.regs[10 := ToU64(h.regs[10] - u)]);
    StepOwn(env, i, 0, h);
    var h2 := h1.(ip := h1.ip + 1, stack := h1.stack + [Num(h.regs[6])]);
    PushStep(env, i, 1, h1, 6);
    var h3 := h2.(ip := h2.ip + 1, stack := h2.stack + [Num(h.regs[7])]);
    PushStep(env, i, 2, h2, 7);
    var h4 := h3.(ip := h3.ip + 1, stack := h3.stack + [Num(h.regs[8])]);
    PushStep(env, i, 3, h3, 8);
    var h5 := h4.(ip := h4.ip + 1, stack := h4.stack + [Num(h.regs[9])]);
    PushStep(env, i, 4, h4, 9);
    StepOwn(env, i, 5, h5);
    assert HostRun(env, h, 0) == Some(h);
    assert HostRun(env, h, 1) == Some(h1);
    assert HostRun(env, h, 2) == Some(h2);
    assert HostRun(env, h, 3) == Some(h3);
    assert HostRun(env, h, 4) == Some(h4);
    assert HostRun(env, h, 5) == Some(h5);
    assert h5.stack + [Address(h5.ip + 1)] ==
      h.stack + [Num(h.regs[6]), Num(h.regs[7]), Num(h.regs[8]), Num(h.regs[9]), Address(PcLoc(env, i) + 6)];
  }

  lemma CallRuns(env: Env, i: nat, h: Host, pre: seq<Slot>, u: u64)
    requires |env.prog| <= 65535 && CallsInRange(env.prog)
    requires i < |env.prog| && IsLocalCall(env.prog, i) && h.ip == PcLoc(env, i) && h.stack == pre + [Num(u)]
    requires var t := CallTarget(env.prog, i); IsEntry(env, t) && env.prog[t].opcode != 0
    ensures var t := CallTarget(env.prog, i);
      HostRun(env, h, 8) ==
        Some(h.(ip := PcLoc(env, t), regs := h.regs[10 := ToU64(h.regs[10] - u)],
                stack := h.stack + [Num(h.regs[6]), Num(h.regs[7]), Num(h.regs[8]), Num(h.regs[9]), Address(PcLoc(env, i) + 6)]
                         + [Num(env.usage(t))]))
  {
    var t := CallTarget(env.prog, i);
    assert EntryLoc(env, t) >= 0;
    hide HostStep, PcLoc, EntryLoc, ToU64, HostRun;
    CallOwnRuns(env, i, h, pre, u);
    PrologueRuns(env, t, HostRun(env, h, 6).value);
    HostRunRuns(env, h, 6, 2);
  }

  /** Back after a local call: r9 to r6 popped, r10 raised by the caller's usage. */
  lemma ReturnRuns(env: Env, i: nat, h: Host, pre: seq<Slot>, f: Frame)
    requires |env.prog| <= 65535 && CallsInRange(env.prog)
    requires i < |env.prog| && IsLocalCall(env.prog, i) && h.ip == PcLoc(env, i) + 6
    requires h.stack == pre + [Num(f.usage), Num(f.r6), Num(f.r7), Num(f.r8), Num(f.r9)]
    ensures HostRun(env, h, 5) ==
      Some(h.(ip := PcLoc(env, i) + 11, stack := pre + [Num(f.usage)],
              regs := h.regs[6 := f.r6][7 := f.r7][8 := f.r8][9 := f.r9][10 := ToU64(h.regs[10] + f.usage)]))
  {
    hide HostStep, PcLoc, EntryLoc, ToU64;
    var s0 := pre + [Num(f.usage)];
    var s1 := s0 + [Num(f.r6)];
    var s2 := s1 + [Num(f.r7)];
    var s3 := s2 + [Num(f.r8)];
    assert h.stack == s3 + [Num(f.r9)];
    var h1 := h.(ip := h.ip + 1, stack := s3, regs := h.regs[9 := f.r9]);
    PopStep(env, i, 6, h, 9, s3, f.r9);
    var h2 := h1.(ip := h1.ip + 1, stack := s2, regs := h1.regs[8 := f.r8]);
    PopStep(env, i, 7, h1, 8, s2, f.r8);
    var h3 := h2.(ip := h2.ip + 1, stack := s1, regs := h2.regs[7 := f.r7]);
    PopStep(env, i, 8, h2, 7, s1, f.r7);
    var h4 := h3.(ip := h3.ip + 1, stack := s0, regs := h3.regs[6 := f.r6]);
    PopStep(env, i, 9, h3, 6, s0, f.r6);
    StepOwn(env, i, 10, h4);
    assert HostRun(env, h, 0) == Some(h);
    assert HostRun(env, h, 1) == Some(h1);
    assert HostRun(env, h, 2) == Some(h2);
    assert HostRun(env, h, 3) == Some(h3);
    assert HostRun(env, h, 4) == Some(h4);
    assert h4.regs == h.regs[6 := f.r6][7 := f.r7][8 := f.r8][9 := f.r9];
  }

  /** EXIT drops the usage word and returns to the address under it. */
  lemma ExitRuns(env: Env, i: nat, h: Host, pre: seq<Slot>, a: nat, u: u64)
    requires |env.prog| <= 65535 && CallsInRange(env.prog)
    requires i < |env.prog| && env.prog[i].opcode != 0 && Decode(env.prog[i].opcode).Exit? && h.ip == PcLoc(env, i)
    requires h.stack == pre + [Address(a)] + [Num(u)]
    ensures HostRun(env, h, 2) == Some(h.(ip := a, stack := pre))
  {
    hide HostStep, PcLoc, Decode;
    LocalCallDecodes(env.prog, i);
    var h1 := h.(ip := h.ip + 1, stack := pre + [Address(a)]);
    assert h.stack[..|h.stack| - 1] == h1.stack && h1.stack[..|h1.stack| - 1] == pre;
    StepOwn(env, i, 0, h);
    StepOwn(env, i, 1, h1);
    assert HostRun(env, h, 0) == Some(h);
    assert HostRun(env, h, 1) == Some(h1);
  }

  // ---------------------------------------------------------------- the three kinds of step

  lemma CallStepIs(env: Env, s: State)
    requires Step(env, s).Next? && AtLocalCall(env, s)
    ensures s.depth < MAX_CALL_DEPTH && Step(env, s) == Next(PushFrame(Enter(env, s), env.prog[s.pc].imm))
  {
    hide Decode;
    LocalCallDecodes(env.prog, s.pc);
  }

  lemma ExitStepIs(env: Env, s: State)
    requires !Step(env, s).Fail? && s.pc < |env.prog| && Decode(env.prog[s.pc].opcode).Exit?
    ensures Step(env, s) == if s.depth > 0 then Next(PopFrame(Enter(env, s))) else Done(s.regs[0], s.mem)
  {
    hide Decode;
  }

  /** On entering an instruction the current frame records the running function's usage. */
  lemma EnterUsage(env: Env, s: State)
    requires Loaded(env) && FramesOk(env, s) && s.depth < MAX_CALL_DEPTH
    ensures Enter(env, s).frames[s.depth].usage == UsageAt(env, s.pc)
  {
    if IsEntry(env, s.pc) {
      EntryIsStart(env, s.pc);
    }
  }

  /** The frames after a call: the caller's is the new one, with its own function's usage. */
  lemma CallFrames(env: Env, s: State)
    requires Suitable(env) && PcInv(env, s) && FramesOk(env, s) && Step(env, s).Next? && AtLocalCall(env, s)
    ensures 0 <= CallTarget(env.prog, s.pc) < |env.prog| <= 65535
    ensures var t, target := Step(env, s).state, CallTarget(env.prog, s.pc);
      && IsEntry(env, target) && env.prog[target].opcode != 0 && s.depth < MAX_CALL_DEPTH
      && t == s.(pc := target, depth := s.depth + 1, frames := t.frames, limit := t.limit,
                 regs := s.regs[10 := ToU64(s.regs[10] - UsageAt(env, s.pc))])
      && t.frames[s.depth] == Frame(UsageAt(env, s.pc), s.pc + 1, s.regs[6], s.regs[7], s.regs[8], s.regs[9])
      && (forall k :: 0 <= k < s.depth ==> t.frames[k] == s.frames[k])
  {
    hide Step, Decode, UsageAt, Closed, IntegerPc, StartOf, PcInv, ToU64;
    SuitableRange(env);
    CallStepIs(env, s);
    StepKeepsPc(env, s);
    CallPc(env, s);
    TargetIn(env.prog, |env.prog|, s.pc);
    EnterUsage(env, s);
  }

  lemma CallKeepsFramesOk(env: Env, s: State)
    requires Suitable(env) && PcInv(env, s) && FramesOk(env, s) && Step(env, s).Next? && AtLocalCall(env, s)
    ensures FramesOk(env, Step(env, s).state)
  {
    hide Step, Loaded, Decode, UsageAt, Closed, StartOf, PcInv, ToU64, CallsHitFirstSlots;
    CallFrames(env, s);
    AfterCall(env, s.pc);
    SameFunction(env, s.pc, s.pc + 1);
  }

  lemma CallSimulates(env: Env, s: State, h: Host)
    requires Suitable(env) && PcInv(env, s) && FramesOk(env, s) && Related(env, s, h)
    requires Step(env, s).Next? && AtLocalCall(env, s)
    ensures |env.prog| <= 65535 && CallsInRange(env.prog)
    ensures var t, o := Step(env, s).state, HostRun(env, h, 8);
      FramesOk(env, t) && o.Some? && Related(env, t, o.value)
  {
    hide Step, Loaded, Decode, HostRun, UsageAt, Closed, PcLoc, StartOf, PcInv, FramesOk, ToU64, CallsHitFirstSlots, IsLocalCall, CallsInRange, Below;
    SuitableRange(env);
    CallFrames(env, s);
    CallKeepsFramesOk(env, s);
    var t, target := Step(env, s).state, CallTarget(env.prog, s.pc);
    EntryIsStart(env, target);
    CallRuns(env, s.pc, h, Below(env, s.frames, s.depth), UsageAt(env, s.pc));
    CallStack(env, s, t, h);
  }

  /**
    The emitted code makes every local call. The interpreter makes it exactly when it is below the greatest depth and the
    instruction limit is not used up: the emitted code checks neither.
    */
  lemma CallsAreUnchecked(env: Env, s: State, h: Host)
    requires Suitable(env) && PcInv(env, s) && Related(env, s, h) && AtLocalCall(env, s)
    ensures |env.prog| <= 65535 && CallsInRange(env.prog) && 0 <= CallTarget(env.prog, s.pc) < |env.prog|
    ensures HostRun(env, h, 8).Some? && HostRun(env, h, 8).value.ip == PcLoc(env, CallTarget(env.prog, s.pc))
    ensures Step(env, s).Next? <==> s.depth < MAX_CALL_DEPTH && !(env.limit != 0 && s.limit <= 0)
  {
    hide Decode, HostRun, UsageAt, Closed, PcLoc, StartOf, ToU64, Below, PcInv, InstOk, Walk, SelfContained;
    SuitableRange(env);
    LocalCallDecodes(env.prog, s.pc);
    TargetIn(env.prog, |env.prog|, s.pc);
    CallRuns(env, s.pc, h, Below(env, s.frames, s.depth), UsageAt(env, s.pc));
  }

  /** What a call pushes is the caller's frame. */
  lemma CallStack(env: Env, s: State, t: State, h: Host)
    requires s.depth < MAX_CALL_DEPTH && t.depth == s.depth + 1 && s.pc < |env.prog| <= 65535
    requires h.stack == Below(env, s.frames, s.depth) + [Num(UsageAt(env, s.pc))]
    requires t.frames[s.depth] == Frame(UsageAt(env, s.pc), s.pc + 1, h.regs[6], h.regs[7], h.regs[8], h.regs[9])
    requires forall k :: 0 <= k < s.depth ==> t.frames[k] == s.frames[k]
    ensures h.stack + [Num(h.regs[6]), Num(h.regs[7]), Num(h.regs[8]), Num(h.regs[9]), Address(PcLoc(env, s.pc) + 6)]
            == Below(env, t.frames, t.depth)
  {
    hide UsageAt, PcLoc;
    BelowSame(env, t.frames, s.frames, s.depth);
  }

  lemma PoppedFrame(env: Env, s: State)
    requires s.depth > 0
    ensures var t, f := PopFrame(Enter(env, s)), s.frames[s.depth - 1];
      && t == s.(pc := f.ret, depth := s.depth - 1, frames := t.frames, limit := t.limit,
                 regs := s.regs[6 := f.r6][7 := f.r7][8 := f.r8][9 := f.r9][10 := ToU64(s.regs[10] + f.usage)])
      && (forall k :: 0 <= k < s.depth ==> t.frames[k] == s.frames[k])
  {
    hide ToU64;
  }

  lemma PoppedOk(env: Env, s: State)
    requires s.depth > 0 && FramesOk(env, s)
    ensures ReturnOk(env, s.frames[s.depth - 1]) && FramesOk(env, PopFrame(Enter(env, s)))
  {
    hide UsageAt, IsLocalCall, ToU64;
    PoppedFrame(env, s);
  }

  /** The return sequence, from the callee's EXIT to the slot after the call. */
  lemma ReturnSequence(env: Env, i: nat, h: Host, pre: seq<Slot>, f: Frame, u: u16)
    requires |env.prog| <= 65535 && CallsInRange(env.prog)
    requires i < |env.prog| && env.prog[i].opcode != 0 && Decode(env.prog[i].opcode).Exit? && h.ip == PcLoc(env, i)
    requires 0 < f.ret < |env.prog| && IsLocalCall(env.prog, f.ret - 1) && !IsEntry(env, f.ret)
    requires h.stack == pre + FrameWords(env, f) + [Num(u)]
    ensures HostRun(env, h, 7) ==
      Some(h.(ip := PcLoc(env, f.ret), stack := pre + [Num(f.usage)],
              regs := h.regs[6 := f.r6][7 := f.r7][8 := f.r8][9 := f.r9][10 := ToU64(h.regs[10] + f.usage)]))
  {
    hide Decode, HostRun, PcLoc, ToU64, IsLocalCall, CallsInRange;
    var a := PcLoc(env, f.ret - 1) + 6;
    var words := [Num(f.usage), Num(f.r6), Num(f.r7), Num(f.r8), Num(f.r9)];
    assert h.stack == (pre + words) + [Address(a)] + [Num(u)];
    ExitRuns(env, i, h, pre + words, a, u);
    var h1 := h.(ip := a, stack := pre + words);
    ReturnRuns(env, f.ret - 1, h1, pre, f);
    HostRunRuns(env, h, 2, 5);
    NextLoc(env, f.ret - 1);
  }

  lemma ExitSimulates(env: Env, s: State, h: Host)
    requires s.pc < |env.prog| && Decode(env.prog[s.pc].opcode).Exit? && Step(env, s).Next?
    requires Suitable(env) && FramesOk(env, s) && Related(env, s, h)
    ensures |env.prog| <= 65535 && CallsInRange(env.prog)
    ensures var t, o := Step(env, s).state, HostRun(env, h, 7);
      FramesOk(env, t) && o.Some? && Related(env, t, o.value)
  {
    hide Step, Loaded, Decode, HostRun, UsageAt, Closed, PcLoc, StartOf, ToU64, CallsHitFirstSlots, FramesOk, IsLocalCall, CallsInRange,
         PopFrame, FrameWords;
    SuitableRange(env);
    StepKnown(env, s);
    ExitStepIs(env, s);
    PoppedOk(env, s);
    PoppedFrame(env, s);
    var t, k := PopFrame(Enter(env, s)), s.depth - 1;
    var f := s.frames[k];
    AfterCall(env, f.ret - 1);
    ReturnSequence(env, s.pc, h, Below(env, s.frames, k), f, UsageAt(env, s.pc));
    BelowSame(env, t.frames, s.frames, k);
  }

  lemma NextLoc(env: Env, i: nat)
    requires i + 1 < |env.prog| && IsLocalCall(env.prog, i) && !IsEntry(env, i + 1)
    ensures PcLoc(env, i) + 11 == PcLoc(env, i + 1)
  {
  }

  /** The final EXIT leaves at the stub with the stack as the program found it. */
  lemma FinalExit(env: Env, s: State, h: Host)
    requires Suitable(env) && Related(env, s, h) && Step(env, s).Done? && Decode(env.prog[s.pc].opcode).Exit?
    ensures |env.prog| <= 65535 && CallsInRange(env.prog)
    ensures Step(env, s) == Done(h.regs[0], h.mem)
    ensures HostRun(env, h, 2) == Some(h.(ip := EXIT_STUB, stack := []))
  {
    SuitableRange(env);
    ExitStepIs(env, s);
    hide Step, Decode, HostRun, UsageAt, Loaded, Closed, PcLoc;
    assert h.stack == [] + [Address(EXIT_STUB)] + [Num(UsageAt(env, s.pc))];
    ExitRuns(env, s.pc, h, [], EXIT_STUB, UsageAt(env, s.pc));
  }

  /** Without a taken jump the next slot in order follows. */
  lemma InOrder(env: Env, s: State)
    requires s.pc < |env.prog| && Ordinary(env, s.pc)
    ensures !JumpsAway(env, s.pc, s.regs) ==> IntegerPc(env, s) == s.pc + Width(env.prog[s.pc])
  {
    hide Decode, Taken;
    LocalCallDecodes(env.prog, s.pc);
  }

  /** An ordinary step in terms of its effect on the registers and memory alone. */
  lemma OrdinaryEffect(env: Env, s: State)
    requires s.pc < |env.prog| && Ordinary(env, s.pc) && !Step(env, s).Fail?
    ensures SameEffect(Enter(env, s), Step(env, s), Execute(env, View(s.pc, s.regs, s.mem), env.prog[s.pc]))
  {
    hide Execute, Decode;
    LocalCallDecodes(env.prog, s.pc);
    BodyEffect(env, Enter(env, s), View(s.pc, s.regs, s.mem), env.prog[s.pc]);
  }

  /** The code of an ordinary instruction is its body alone. */
  lemma BodyStep(env: Env, i: nat, h: Host)
    requires |env.prog| <= 65535 && CallsInRange(env.prog)
    requires i < |env.prog| && Ordinary(env, i) && h.ip == PcLoc(env, i)
    ensures HostRun(env, h, 1) == DoBody(env, i, h)
  {
    hide HostStep, PcLoc, DoBody, Decode;
    StepOwn(env, i, 0, h);
    assert HostRun(env, h, 0) == Some(h);
  }

  /** Where an ordinary step of a suitable program goes: another first slot of the same function. */
  lemma OrdinaryTarget(env: Env, s: State)
    requires s.pc < |env.prog| && Ordinary(env, s.pc) && Step(env, s).Next?
    requires Suitable(env) && PcInv(env, s)
    ensures var t := Step(env, s).state;
      && t.pc < |env.prog| && env.prog[t.pc].opcode != 0 && UsageAt(env, t.pc) == UsageAt(env, s.pc)
      && (!JumpsAway(env, s.pc, s.regs) ==> PcLoc(env, t.pc) == PcLoc(env, s.pc) + 1)
  {
    hide Step, Loaded, Decode, UsageAt, Closed, PcLoc, StartOf, IntegerPc, JumpsAway, CallsHitFirstSlots;
    StepKeepsPc(env, s);
    ClosedStep(env, s);
    InOrder(env, s);
    var t := Step(env, s).state;
    SameFunction(env, s.pc, t.pc);
    if !JumpsAway(env, s.pc, s.regs) {
      FallsThrough(env, s.pc);
    }
  }

  lemma OrdinaryKeepsFramesOk(env: Env, s: State)
    requires s.pc < |env.prog| && Ordinary(env, s.pc) && Step(env, s).Next?
    requires Suitable(env) && PcInv(env, s) && FramesOk(env, s)
    ensures FramesOk(env, Step(env, s).state)
  {
    hide Step, Loaded, Decode, UsageAt, Closed, Execute, PcInv, CallsHitFirstSlots;
    OrdinaryTarget(env, s);
    OrdinaryEffect(env, s);
    if s.depth < MAX_CALL_DEPTH {
      EnterUsage(env, s);
    }
  }

  lemma OrdinarySimulates(env: Env, s: State, h: Host)
    requires s.pc < |env.prog| && Ordinary(env, s.pc) && Step(env, s).Next?
    requires Suitable(env) && PcInv(env, s) && Related(env, s, h)
    ensures |env.prog| <= 65535 && CallsInRange(env.prog)
    ensures var t, o := Step(env, s).state, HostRun(env, h, 1); o.Some? && Related(env, t, o.value)
  {
    hide Step, Loaded, Decode, UsageAt, Closed, Execute, PcInv, PcLoc, HostRun, JumpsAway, CallsHitFirstSlots;
    SuitableRange(env);
    OrdinaryTarget(env, s);
    OrdinaryEffect(env, s);
    BodyStep(env, s.pc, h);
    BelowSame(env, Enter(env, s).frames, s.frames, s.depth);
  }

  /** An unwinding helper leaves at the stub with the helper's result. */
  lemma UnwindLeaves(env: Env, s: State, h: Host)
    requires s.pc < |env.prog| && Ordinary(env, s.pc) && Step(env, s).Done?
    requires Suitable(env) && Related(env, s, h)
    ensures |env.prog| <= 65535 && CallsInRange(env.prog)
    ensures var o := HostRun(env, h, 1);
      o.Some? && o.value.ip == EXIT_STUB && o.value.stack == [] && Step(env, s) == Done(o.value.regs[0], o.value.mem)
  {
    hide Step, Loaded, Decode, UsageAt, Closed, Execute, PcLoc, HostRun, JumpsAway, CallsHitFirstSlots;
    SuitableRange(env);
    OrdinaryEffect(env, s);
    BodyStep(env, s.pc, h);
  }

  // ---------------------------------------------------------------- whole runs

  /** Entering the JIT-compiled program: the registers the interpreter starts with and an empty protocol stack. */
  function HostInitial(env: Env, regs: Regs, mem: Memory): Host { Host(0, Initial(env, regs, mem).regs, [], mem) }

  lemma SetupRuns(env: Env, regs: Regs, mem: Memory)
    requires Suitable(env)
    ensures |env.prog| <= 65535 && CallsInRange(env.prog)
    ensures var o := HostRun(env, HostInitial(env, regs, mem), 3);
      o.Some? && Related(env, Initial(env, regs, mem), o.value) && FramesOk(env, Initial(env, regs, mem))
  {
    hide Loaded, Decode, Closed, UsageAt, CallsHitFirstSlots, HostRun, HostStep, IsLocalCall, CallsInRange;
    SuitableRange(env);
    InitialIsFirst(env, regs, mem);
    EntryIsStart(env, 0);
    var h := HostInitial(env, regs, mem);
    FirstStep(env, h);
    var h1 := Pushed(h, Address(1)).(ip := SETUP);
    FirstEntry(env);
    PrologueRuns(env, 0, h1);
    HostRunRuns(env, h, 1, 2);
    assert h1.stack == [Address(EXIT_STUB)];
  }

  lemma FirstEntry(env: Env)
    requires env.prog != [] && env.prog[0].opcode != 0
    ensures EntryLoc(env, 0) == SETUP
  {
  }

  lemma {:induction false} CodeBegins(env: Env, n: nat)
    requires n <= |env.prog| <= 65535 && CallsInRange(env.prog)
    ensures |Code(env, n)| >= 2 && Code(env, n)[0] == CallTo(SETUP) && Code(env, n)[1] == Leave
  {
    hide Prefix, Own;
    if n > 0 {
      CodeBegins(env, n - 1);
    }
  }

  lemma FirstStep(env: Env, h: Host)
    requires |env.prog| <= 65535 && CallsInRange(env.prog) && h.ip == 0
    ensures HostRun(env, h, 1) == Some(Pushed(h, Address(1)).(ip := SETUP))
  {
    CodeBegins(env, |env.prog|);
    assert HostRun(env, h, 0) == Some(h);
    hide Code;
  }

  /** The host at a state the interpreter has reached, or at the exit stub once the interpreter is done. */
  ghost predicate Follows(env: Env, start: int, o: Outcome<State>, h: Option<Host>)
  {
    match o
    case Next(s) =>
      && h.Some? && Related(env, s, h.value) && FramesOk(env, s)
      && |h.value.stack| == 2 + 6 * s.depth && Rsp(start, h.value) % 16 == 0
    case Done(v, mem) =>
      h.Some? && h.value.ip == EXIT_STUB && h.value.regs[0] == v && h.value.mem == mem && h.value.stack == []
    case Fail(_) => true
  }

  lemma FollowsNext(env: Env, start: int, s: State, h: Host)
    requires start % 16 == 0 && Related(env, s, h) && FramesOk(env, s)
    ensures Follows(env, start, Next(s), Some(h))
  {
    hide FramesOk;
    BelowLength(env, s.frames, s.depth);
  }

  /** One interpreter step, followed by the host in one, two, seven or eight instructions. */
  lemma StepFollowed(env: Env, start: int, s: State, h: Host) returns (m: nat)
    requires start % 16 == 0 && Suitable(env) && PcInv(env, s) && Related(env, s, h) && FramesOk(env, s)
    ensures |env.prog| <= 65535 && CallsInRange(env.prog)
    ensures Follows(env, start, Step(env, s), HostRun(env, h, m))
  {
    hide Step, Suitable, Decode, PcInv, FramesOk, PcLoc, HostRun, UsageAt, Below;
    SuitableRange(env);
    m := 1;
    if Step(env, s).Next? {
      if AtLocalCall(env, s) {
        m := 8;
        CallSimulates(env, s, h);
      } else if Decode(env.prog[s.pc].opcode).Exit? {
        m := 7;
        ExitSimulates(env, s, h);
      } else {
        OrdinarySimulates(env, s, h);
        OrdinaryKeepsFramesOk(env, s);
      }
      FollowsNext(env, start, Step(env, s).state, HostRun(env, h, m).value);
    } else if Step(env, s).Done? {
      CallNotDone(env, s);
      if Decode(env.prog[s.pc].opcode).Exit? {
        m := 2;
        FinalExit(env, s, h);
      } else {
        UnwindLeaves(env, s, h);
      }
    }
  }

  lemma CallNotDone(env: Env, s: State)
    ensures Step(env, s).Done? ==> !AtLocalCall(env, s)
  {
    hide Decode;
    if s.pc < |env.prog| {
      LocalCallDecodes(env.prog, s.pc);
    }
  }

  lemma {:induction false} FramesFollowed(env: Env, regs: Regs, mem: Memory, start: int, n: nat) returns (m: nat)
    requires Suitable(env) && start % 16 == 0
    ensures |env.prog| <= 65535 && CallsInRange(env.prog)
    ensures Follows(env, start, Run(env, Initial(env, regs, mem), n), HostRun(env, HostInitial(env, regs, mem), m))
  {
    hide Step, Suitable, Decode, PcInv, HostStep, HostRun, Follows, Related, FramesOk, Initial, HostInitial;
    SuitableRange(env);
    var s0, h0 := Initial(env, regs, mem), HostInitial(env, regs, mem);
    if n == 0 {
      m := 3;
      SetupRuns(env, regs, mem);
      FollowsNext(env, start, s0, HostRun(env, h0, 3).value);
    } else {
      var k := FramesFollowed(env, regs, mem, start, n - 1);
      var o := Run(env, s0, n - 1);
      m := k;
      if o.Next? {
        SuitableLoaded(env);
        ReachablePc(env, regs, mem, n - 1);
        FollowsIs(env, start, o.state, HostRun(env, h0, k));
        var j := StepFollowed(env, start, o.state, HostRun(env, h0, k).value);
        HostRunRuns(env, h0, k, j);
        m := k + j;
      } else if o.Fail? {
        FailFollows(env, start, o.error, HostRun(env, h0, k));
      }
    }
  }

  /** Callee-saved registers the setup pushes: RBP, RBX and R12 to R15. */
  const SAVED_REGISTERS: nat := 6

  const EBPF_STACK_SIZE: nat := MAX_CALL_DEPTH * 512

  /**
    RSP behind the setup code, given RSP at its start: the saved registers are pushed, eight bytes are added if their
    number is even, and the program's stack is allocated unless the caller provides one.
    */
  function SetupRsp(entry: int, ownStack: bool): int
  {
    entry - 8 * SAVED_REGISTERS - (if SAVED_REGISTERS % 2 == 0 then 8 else 0) - (if ownStack then EBPF_STACK_SIZE else 0)
  }

  /**
    For every run of the interpreter there is a run of the emitted code that follows it: at each eBPF
    instruction the registers and memory agree, the host stack is the frame array with the running
    function's usage on top, and RSP is 16-byte aligned if it was so in front of the call that started the code;
    when the program ends, the code arrives at the exit stub with the same result and memory and with its stack empty.
    */
  lemma HostStackRefinesFrames(env: Env, regs: Regs, mem: Memory, entry: int, ownStack: bool, n: nat) returns (m: nat)
    requires Suitable(env) && entry % 16 == 8
    ensures |env.prog| <= 65535 && CallsInRange(env.prog)
    ensures Follows(env, SetupRsp(entry, ownStack), Run(env, Initial(env, regs, mem), n), HostRun(env, HostInitial(env, regs, mem), m))
  {
    hide Suitable, Follows, HostRun, Run, Initial, HostInitial;
    m := FramesFollowed(env, regs, mem, SetupRsp(entry, ownStack), n);
  }

  lemma SuitableLoaded(env: Env)
    requires Suitable(env)
    ensures Loaded(env)
  {
  }

  lemma FollowsIs(env: Env, start: int, s: State, h: Option<Host>)
    requires Follows(env, start, Next(s), h)
    ensures h.Some? && Related(env, s, h.value) && FramesOk(env, s)
  {
  }

  lemma FailFollows(env: Env, start: int, e: Error, h: Option<Host>)
    ensures Follows(env, start, Fail(e), h)
  {
  }
}
