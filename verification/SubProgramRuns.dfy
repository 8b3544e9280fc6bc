/** How runs of accepted programs move between sub-programs, and what the end-of-sub-program test lets through. */
module SubProgramRuns {
  import opened Words
  import opened Isa
  import opened Semantics
  import opened Machine
  import opened SubPrograms
  import opened Validator
  import opened Legacy
  import opened ControlFlow

  lemma {:induction false} SameIntervalBelow(starts: set<int>, j: nat, k: nat)
    requires StartOf(starts, j) <= k <= j
    ensures StartOf(starts, k) == StartOf(starts, j)
  {
    if k < j {
      SameIntervalBelow(starts, j - 1, k);
    }
  }

  lemma {:induction false} SameInterval(starts: set<int>, n: nat, j: nat, k: nat)
    requires j < n && StartOf(starts, j) <= k < EndOf(starts, n, j)
    ensures StartOf(starts, k) == StartOf(starts, j)
    decreases n - j
  {
    if k <= j {
      SameIntervalBelow(starts, j, k);
    } else {
      SameInterval(starts, n, j + 1, k);
    }
  }

  lemma {:induction false} OneInterval(j: nat)
    ensures StartOf({0}, j) == 0
  {
    if j > 0 {
      OneInterval(j - 1);
    }
  }

  lemma JumpOpcodes(b: u8)
    ensures var op := Decode(b);
      && (op.Ja? || op.Ja32? || op.Jcc? ==> (b % 8 == 5 || b % 8 == 6) && b != 0x85 && b != 0x95)
      && (op.Ja32? <==> b == 0x06)
  {
    if !Decode(b).Unknown? {
      DecodeEncode(b);
    }
  }

  /** The next slot in order, when the instruction does not transfer control. */
  function NextInOrder(prog: seq<Inst>, i: nat): nat
    requires i < |prog|
  {
    i + Width(prog[i])
  }

  /** A step that stays in the same sub-program, or leaves it in one of the allowed ways. */
  ghost predicate IntervalRule(env: Env, s: State, t: State)
    requires s.pc < |env.prog|
  {
    var starts := Starts(env.prog);
    || StartOf(starts, t.pc) == StartOf(starts, s.pc)
    || AtLocalCall(env, s)
    || Decode(env.prog[s.pc].opcode).Exit?
    || (t.pc == NextInOrder(env.prog, s.pc) && EndOf(starts, |env.prog|, s.pc) <= t.pc)
  }

  /** On an accepted program a jump's target is in the jump's own sub-program. */
  lemma JumpsStay(env: Env, i: nat)
    requires Loaded(env) && i < |env.prog| && IsJump(env.prog[i]) && 0 <= JumpTarget(env.prog, i) < |env.prog|
    ensures StartOf(Starts(env.prog), JumpTarget(env.prog, i)) == StartOf(Starts(env.prog), i)
  {
    var starts, k := Starts(env.prog), JumpTarget(env.prog, i);
    if LocalTargets(env.prog) == {} {
      OneInterval(i);
      OneInterval(k);
      assert starts == {0};
    } else {
      assert SlotOk(env.prog, i);
      SameInterval(starts, |env.prog|, i, k);
    }
  }

  /** A run changes sub-program only by a local call, a return, or running off the end of one. */
  lemma StepInterval(env: Env, s: State)
    requires Loaded(env) && PcInv(env, s) && Step(env, s).Next?
    ensures s.pc < |env.prog| && IntervalRule(env, s, Step(env, s).state)
  {
    hide Step, Loaded, Decode, Taken, StartOf, EndOf, Starts;
    StepKnown(env, s);
    StepKeepsPc(env, s);
    var inst, t, n := env.prog[s.pc], Step(env, s).state, |env.prog|;
    JumpOpcodes(inst.opcode);
    SuccessorOk(env, s);
    LocalCallDecodes(env.prog, s.pc);
    AcceptedSlot(env, s.pc);
    var starts := Starts(env.prog);
    if t.pc == NextInOrder(env.prog, s.pc) {
      if t.pc < EndOf(starts, n, s.pc) {
        StartBelow(starts, s.pc);
        SameInterval(starts, n, s.pc, t.pc);
      }
    } else if !AtLocalCall(env, s) && !Decode(inst.opcode).Exit? {
      TakenJump(env, s);
      JumpsStay(env, s.pc);
    }
  }

  lemma StartBelow(starts: set<int>, j: nat)
    ensures StartOf(starts, j) <= j
  {
  }

  /** Whatever leaves the sequential order without calling or returning is a jump inside the program. */
  lemma TakenJump(env: Env, s: State)
    requires s.pc < |env.prog| < MAX_INSTS && InstOk(env.callable, env.usage, env.prog, s.pc)
    requires !AtLocalCall(env, s) && !Decode(env.prog[s.pc].opcode).Exit?
    requires IntegerPc(env, s) != NextInOrder(env.prog, s.pc)
    ensures IsJump(env.prog[s.pc]) && JumpTarget(env.prog, s.pc) == IntegerPc(env, s)
    ensures 0 <= JumpTarget(env.prog, s.pc) < |env.prog|
  {
    hide Decode, Taken, FieldsOk, LddwOk, CallOk, AtomicOk;
    JumpOpcodes(env.prog[s.pc].opcode);
    LocalCallDecodes(env.prog, s.pc);
  }

  /** The same for every reachable state. */
  lemma RunIntervals(env: Env, regs: Regs, mem: Memory, n: nat)
    requires Loaded(env) && Run(env, Initial(env, regs, mem), n + 1).Next?
    ensures Run(env, Initial(env, regs, mem), n).Next?
    ensures var s := Run(env, Initial(env, regs, mem), n).state;
      s.pc < |env.prog| && IntervalRule(env, s, Run(env, Initial(env, regs, mem), n + 1).state)
  {
    hide Step, Loaded, Initial, IntervalRule;
    ReachablePc(env, regs, mem, n);
    StepInterval(env, Run(env, Initial(env, regs, mem), n).state);
  }

  // ---------------------------------------------------------------- running off the end

  /** Every sub-program's last instruction is an EXIT or an unconditional jump. */
  predicate Closed(prog: seq<Inst>)
  {
    forall i :: 0 <= i < |prog| && prog[i].opcode != 0 && EndOf(Starts(prog), |prog|, i) <= NextInOrder(prog, i) ==>
      Decode(prog[i].opcode).Exit? || Decode(prog[i].opcode).Ja? || Decode(prog[i].opcode).Ja32?
  }

  /** A step into another sub-program or past the end of the program. */
  ghost predicate Leaves(env: Env, s: State, t: State)
  {
    t.pc >= |env.prog| || StartOf(Starts(env.prog), t.pc) != StartOf(Starts(env.prog), s.pc)
  }

  lemma {:induction false} StartAtLeast(starts: set<int>, e: nat, k: nat)
    requires e in starts && e <= k
    ensures StartOf(starts, k) >= e
  {
    if e < k {
      StartAtLeast(starts, e, k - 1);
    }
  }

  lemma {:induction false} EndIsStart(starts: set<int>, n: nat, j: nat)
    requires j < n
    ensures EndOf(starts, n, j) == n || EndOf(starts, n, j) in starts
    decreases n - j
  {
    if j + 1 < n {
      EndIsStart(starts, n, j + 1);
    }
  }

  /**
    A step that neither calls nor returns leaves its sub-program exactly when it goes on in order from the last
    instruction: the end of the sub-program is not behind the next slot.
    */
  lemma LeavesExactly(env: Env, s: State)
    requires Loaded(env) && PcInv(env, s) && Step(env, s).Next?
    requires !AtLocalCall(env, s) && !Decode(env.prog[s.pc].opcode).Exit?
    ensures Leaves(env, s, Step(env, s).state) <==>
            IntegerPc(env, s) == NextInOrder(env.prog, s.pc) && EndOf(Starts(env.prog), |env.prog|, s.pc) <= NextInOrder(env.prog, s.pc)
  {
    hide Step, Loaded, Decode, Taken, IntegerPc, StartOf, EndOf, Starts;
    StepKnown(env, s);
    StepKeepsPc(env, s);
    AcceptedSlot(env, s.pc);
    StepInterval(env, s);
    var t, n, starts := Step(env, s).state, |env.prog|, Starts(env.prog);
    EndWithin(starts, n, s.pc);
    EndIsStart(starts, n, s.pc);
    StartBelow(starts, s.pc);
    if t.pc != NextInOrder(env.prog, s.pc) {
      TakenJump(env, s);
    } else if EndOf(starts, n, s.pc) <= t.pc < n {
      StartAtLeast(starts, EndOf(starts, n, s.pc), t.pc);
    }
  }

  /** In a closed program a step that neither calls nor returns stays in its sub-program. */
  lemma ClosedStep(env: Env, s: State)
    requires Loaded(env) && Closed(env.prog) && PcInv(env, s) && Step(env, s).Next?
    ensures s.pc < |env.prog|
    ensures !AtLocalCall(env, s) && !Decode(env.prog[s.pc].opcode).Exit? ==>
              Step(env, s).state.pc < |env.prog|
              && StartOf(Starts(env.prog), Step(env, s).state.pc) == StartOf(Starts(env.prog), s.pc)
  {
    hide Step, Loaded, Decode, Taken, StartOf, EndOf, Starts;
    StepKnown(env, s);
    StepKeepsPc(env, s);
    AcceptedSlot(env, s.pc);
    StepInterval(env, s);
    var inst, t, n := env.prog[s.pc], Step(env, s).state, |env.prog|;
    if !AtLocalCall(env, s) && !Decode(inst.opcode).Exit? {
      if Decode(inst.opcode).Ja? || Decode(inst.opcode).Ja32? {
        AlwaysJumps(env, s);
        JumpsStay(env, s.pc);
      } else if t.pc == NextInOrder(env.prog, s.pc) {
        EndWithin(Starts(env.prog), n, s.pc);
      } else {
        TakenJump(env, s);
      }
    }
  }

  lemma EndWithin(starts: set<int>, n: nat, j: nat)
    requires j < n
    ensures j < EndOf(starts, n, j) <= n
  {
  }

  lemma AlwaysJumps(env: Env, s: State)
    requires s.pc < |env.prog| < MAX_INSTS && InstOk(env.callable, env.usage, env.prog, s.pc)
    requires Decode(env.prog[s.pc].opcode).Ja? || Decode(env.prog[s.pc].opcode).Ja32?
    ensures IsJump(env.prog[s.pc]) && JumpTarget(env.prog, s.pc) == IntegerPc(env, s)
    ensures 0 <= JumpTarget(env.prog, s.pc) < |env.prog|
  {
    hide Decode, Taken, FieldsOk, LddwOk, CallOk, AtomicOk;
    JumpOpcodes(env.prog[s.pc].opcode);
  }

  // ---------------------------------------------------------------- what acceptance does not exclude

  const CALL_3: Inst := Inst(0x85, 0, 1, 0, 2)
  const JUMP_0: Inst := Inst(0x05, 0, 0, 0, 0)
  const MOV_R0: Inst := Inst(0xb7, 0, 0, 0, 0)
  const WIDE_R0: Inst := Inst(0x18, 0, 0, 0, 0)
  const SECOND: Inst := Inst(0x00, 0, 0, 0, 0)
  const EXIT: Inst := Inst(0x95, 0, 0, 0, 0)

  /** Calls slot 3; the first sub-program ends with a jump and then a move, so execution can fall into the second. */
  const FALL_THROUGH: seq<Inst> := [CALL_3, JUMP_0, MOV_R0, EXIT]

  /** Calls slot 3, which is the second half of the LDDW at slot 2. */
  const INTO_LDDW: seq<Inst> := [CALL_3, JUMP_0, WIDE_R0, SECOND, EXIT]

  lemma OpcodesOfExamples()
    ensures Decode(0x85) == Call && Decode(0x05) == Ja && Decode(0xb7) == Alu(true, OpMov, false)
    ensures Decode(0x18) == Lddw && Decode(0x00) == Unknown && Decode(0x95) == Exit
  {
  }

  lemma ExampleTargets(p: seq<Inst>)
    requires |p| >= 4 && p[0] == CALL_3 && forall i :: 1 <= i < |p| ==> p[i].opcode != 0x85
    ensures Starts(p) == {0, 3} && LocalTargets(p) != {}
  {
    assert Targets(p, 1) == {3} by { assert Targets(p, 0) == {}; }
    SameTargets(p, |p|);
  }

  lemma {:induction false} SameTargets(p: seq<Inst>, n: nat)
    requires 1 <= n <= |p| && forall i :: 1 <= i < |p| ==> p[i].opcode != 0x85
    ensures Targets(p, n) == Targets(p, 1)
  {
    if n > 1 {
      SameTargets(p, n - 1);
    }
  }

  lemma ExampleIntervals(n: nat)
    requires 4 <= n <= 5
    ensures StartOf({0, 3}, 0) == 0 && StartOf({0, 3}, 1) == 0 && StartOf({0, 3}, 2) == 0
    ensures StartOf({0, 3}, 3) == 3 && StartOf({0, 3}, 4) == 3
    ensures EndOf({0, 3}, n, 0) == 3 && EndOf({0, 3}, n, 1) == 3 && EndOf({0, 3}, n, 2) == 3 && EndOf({0, 3}, n, 3) == n
    ensures n == 5 ==> EndOf({0, 3}, n, 4) == 5
  {
    assert StartOf({0, 3}, 1) == 0;
    assert EndOf({0, 3}, n, 2) == 3 && EndOf({0, 3}, n, 1) == 3;
  }

  /** The end-of-sub-program test looks one slot too early: this program is accepted although it falls through. */
  lemma FallThroughIsAccepted(callable: int -> bool, usage: u16 -> u16)
    requires usage(0) % 16 == 0 && usage(3) % 16 == 0
    ensures Accepts(callable, usage, FALL_THROUGH) && !Closed(FALL_THROUGH) && LocalTargets(FALL_THROUGH) == {3}
  {
    OpcodesOfExamples();
    var p := FALL_THROUGH;
    hide Decode;
    ExampleTargets(p);
    assert LocalTargets(p) == {3} by { SameTargets(p, 4); assert Targets(p, 0) == {}; }
    ExampleIntervals(4);
    hide Targets;
    assert SelfContained(p);
    assert NextInOrder(p, 2) == 3 && p[2].opcode != 0 && !Closed(p);
    hide StartOf, EndOf, SelfContained, Closed;
    assert Walk(callable, usage, p, 3) by { assert Walk(callable, usage, p, 4); }
    assert Walk(callable, usage, p, 1) by { assert Walk(callable, usage, p, 2); }
    assert NextInOrder(p, 2) == 3 && p[2].opcode != 0;
  }

  /** It does fall through when it is run: the call, its return and the jump, and then the move, at depth 0, into slot 3. */
  lemma FallThroughRuns(env: Env, regs: Regs, mem: Memory)
    requires env.prog == FALL_THROUGH && env.funcs == {3} && env.limit == 0
    requires env.usage(0) % 16 == 0 && env.usage(3) % 16 == 0
    ensures Loaded(env)
    ensures var o, o' := Run(env, Initial(env, regs, mem), 3), Run(env, Initial(env, regs, mem), 4);
      && o.Next? && o.state.pc == 2 && o.state.depth == 0 && !AtLocalCall(env, o.state)
      && o'.Next? && o'.state.pc == 3 && o'.state.depth == 0 && Leaves(env, o.state, o'.state)
  {
    hide Decode, Accepts, LocalTargets, Step;
    FallThroughIsAccepted(env.callable, env.usage);
    ExampleIntervals(4);
    assert Starts(env.prog) == {0, 3};
    hide StartOf, EndOf;
    var s0 := Initial(env, regs, mem);
    assert Run(env, s0, 0) == Next(s0);
    FallThroughStep(env, s0);
    FallThroughStep(env, Run(env, s0, 1).state);
    FallThroughStep(env, Run(env, s0, 2).state);
    FallThroughStep(env, Run(env, s0, 3).state);
  }

  /** One step of the example at each of its slots. */
  lemma FallThroughStep(env: Env, s: State)
    requires env.prog == FALL_THROUGH && env.limit == 0 && s.pc <= 3
    requires s.depth == if s.pc == 3 then 1 else 0
    ensures var o := Step(env, s);
      && o.Next? && o.state.depth == (if s.pc == 0 then 1 else 0)
      && (s.pc == 0 ==> o.state.pc == 3 && o.state.frames[0].ret == 1) && (s.pc == 1 ==> o.state.pc == 2)
      && (s.pc == 2 ==> o.state.pc == 3) && (s.pc == 3 ==> o.state.pc == s.frames[0].ret)
  {
    hide Decode, AluValue;
    OpcodesOfExamples();
  }

  lemma IntoLddwIsAccepted(callable: int -> bool, usage: u16 -> u16)
    requires usage(0) % 16 == 0 && usage(3) % 16 == 0
    ensures Accepts(callable, usage, INTO_LDDW) && LocalTargets(INTO_LDDW) == {3}
  {
    OpcodesOfExamples();
    var p := INTO_LDDW;
    ExampleTargets(p);
    ExampleIntervals(5);
    assert SelfContained(p) by { hide Decode; }
    assert LocalTargets(p) == {3} by { SameTargets(p, 5); assert Targets(p, 0) == {}; }
    hide Decode, Targets;
    assert Walk(callable, usage, p, 4) by { assert Walk(callable, usage, p, 5); }
    assert Walk(callable, usage, p, 1) by { assert Walk(callable, usage, p, 2); }
  }

  /** A local call into the second half of an LDDW is accepted, and running it ends in the unknown-opcode error. */
  lemma CallIntoLddwFails(env: Env, regs: Regs, mem: Memory)
    requires env.prog == INTO_LDDW && env.funcs == {3} && env.limit == 0
    requires env.usage(0) % 16 == 0 && env.usage(3) % 16 == 0
    ensures Loaded(env) && Run(env, Initial(env, regs, mem), 2) == Fail(UnknownOpcode)
  {
    hide Decode, Accepts, LocalTargets;
    OpcodesOfExamples();
    IntoLddwIsAccepted(env.callable, env.usage);
    assert Run(env, Initial(env, regs, mem), 0) == Next(Initial(env, regs, mem));
    assert Run(env, Initial(env, regs, mem), 1).state.pc == 3;
  }
}
