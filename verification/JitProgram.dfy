/** The plan of a program: what the translator emits for each slot, and where its calls and jumps go once compiled. */
module JitProgram {
  import opened Words
  import opened Isa
  import opened Machine
  import opened SubPrograms
  import opened Validator
  import opened ControlFlow
  import opened Relocation
  import opened JitEmission
  import opened JitPlan
  import opened EmissionPlan
  import CallProtocol

  type JOp = JitPlan.Op

  // ---------------------------------------------------------------- calls

  /** `emit_load_imm` of a helper index into R9. */
  function LoadIndex(idx: u32): (b: seq<u8>)
    ensures |b| == if idx < 0x8000_0000 then 7 else 10
  {
    if idx < 0x8000_0000 then [0x49, 0xc7, 0xc1] + Bytes4(idx) else [0x49, 0xb9] + Bytes4(idx) + [0, 0, 0, 0]
  }

  /** The default dispatcher: the helper's address from the table, and the context as sixth argument. */
  function DefaultArm(idx: u32): seq<JOp>
  {
    [JOp.Raw([0xc7, 0xc0] + Bytes4(idx) + [0x48, 0xc1, 0xe0, 3]), LeaOp([0x4c, 0x8d, 0x15]),
     JOp.Raw([0x4c, 0x01, 0xd0, 0x48, 0x8b, 0x00, 0x4d, 0x89, 0xd9])]
  }

  /**
    `emit_dispatched_external_helper_call` with the register move in front of it and the test for the unwinding helper
    behind it: load the dispatcher's address, take the external arm if there is one, and call through the retpoline.
    */
  function HelperCall(idx: u32, unwinds: bool): seq<Step>
  {
    [One(JOp.Raw([0x4c, 0x89, 0xd1, 0x41, 0x53, 0x41, 0x53])),
     One(LoadOp([0x48, 0x8b, 0x05])),
     One(JOp.Raw([0x48, 0x81, 0xf8, 0, 0, 0, 0])),
     Step.Either([0x0f, 0x85], DefaultArm(idx), [0xe9], [JOp.Raw(LoadIndex(idx))]),
     One(JumpOp([0xe8], SpecialTarget(ToRetpoline))),
     One(JOp.Raw([0x41, 0x5b, 0x41, 0x5b]))] +
    if unwinds then [One(JOp.Raw([0x48, 0x81, 0xf8, 0, 0, 0, 0])), One(JumpOp([0x0f, 0x84], SpecialTarget(ToExit)))] else []
  }

  /** `emit_local_call`. */
  function LocalCall(target: nat): seq<Step>
  {
    [One(JOp.Raw([0x4c, 0x2b, 0x3c, 0x24, 0x53, 0x41, 0x54, 0x41, 0x55, 0x41, 0x56])),
     One(CallOp(target)),
     One(JOp.Raw([0x41, 0x5e, 0x41, 0x5d, 0x41, 0x5c, 0x5b, 0x4c, 0x03, 0x3c, 0x24]))]
  }

  function StepLength(s: Step): nat { if s.One? then OpLength(s.op) else Joined(0, s) }

  function StepsLength(steps: seq<Step>, k: nat): nat
    requires k <= |steps|
  {
    if k == 0 then 0 else StepsLength(steps, k - 1) + StepLength(steps[k - 1])
  }

  lemma StepLengthIs(c: Code, s: Step)
    ensures |AfterStep(c, s).bytes| == |c.bytes| + StepLength(s)
  {
    hide AfterOps, OpsLength;
    if s.Either? {
      var c0 := WithField(c, s.skip, JumpKind, Forward(SecondArm(|c.bytes|, s)));
      var c1 := AfterOps(c0, s.first);
      OpsLengthIs(c0, s.first);
      OpsLengthIs(WithField(c1, s.join, JumpKind, Forward(Joined(|c.bytes|, s))), s.second);
    }
  }

  lemma {:induction false} StepsLengthIs(c: Code, steps: seq<Step>, k: nat)
    requires k <= |steps|
    ensures |AfterSteps(c, steps[..k]).bytes| == |c.bytes| + StepsLength(steps, k)
    decreases k
  {
    hide AfterStep, StepLength;
    if k > 0 {
      StepsLengthIs(c, steps, k - 1);
      assert steps[..k][..k - 1] == steps[..k - 1];
      StepLengthIs(AfterSteps(c, steps[..k - 1]), steps[k - 1]);
    }
  }

  /** Where step `k` of a slot begins. */
  lemma StepLocated(c: Code, setup: seq<JOp>, plan: seq<Plan>, i: nat, k: nat)
    requires i < |plan| && plan[i].Slot? && k <= |plan[i].steps|
    ensures |UpToStep(c, setup, plan, i, k).bytes| ==
            |UpToStep(c, setup, plan, i, 0).bytes| + StepsLength(plan[i].steps, k)
  {
    hide AfterSteps, AfterStart, AfterSlots;
    var start := AfterStart(UpTo(c, setup, plan, i), i, plan[i].entry, plan[i].bypass, plan[i].usage);
    StepsLengthIs(start, plan[i].steps, 0);
    StepsLengthIs(start, plan[i].steps, k);
  }

  lemma DefaultArmLength(idx: u32)
    ensures OpsLength(DefaultArm(idx)) == 26 && OpsLength([JOp.Raw(LoadIndex(idx))]) == |LoadIndex(idx)|
  {
    var ops := DefaultArm(idx);
    assert ops[..2][..1] == ops[..1] && ops[..1][..0] == [];
    assert OpsLength(ops[..1]) == OpsLength([]) + OpLength(ops[0]) == 10;
    assert OpsLength(ops[..2]) == OpsLength(ops[..1]) + OpLength(ops[1]) == 17;
    var one := [JOp.Raw(LoadIndex(idx))];
    assert one[..0] == [] && OpsLength(one) == OpsLength([]) + OpLength(one[0]);
  }

  lemma DefaultArmFields(n: nat, idx: u32)
    ensures OpsFields(n, DefaultArm(idx)) == [(LeaKind, Entry(n + 13, SpecialTarget(ToHelperTable)))]
  {
    var ops := DefaultArm(idx);
    assert ops[..2][..1] == ops[..1] && ops[..1][..0] == [];
    assert OpsLength(ops[..1]) == OpsLength([]) + OpLength(ops[0]) == 10;
    assert OpsFields(n, ops[..1]) == OpsFields(n, []) + OpFields(n, ops[0]) == [];
    assert OpsFields(n, ops[..2]) == OpsFields(n, ops[..1]) + OpFields(n + 10, ops[1]);
    assert OpsFields(n, ops) == OpsFields(n, ops[..2]) + OpFields(n + OpsLength(ops[..2]), ops[2]);
  }

  /** The length of a helper call's steps, the fourth being the choice of dispatcher. */
  lemma HelperCallLengths(idx: u32, unwinds: bool)
    ensures var steps, m := HelperCall(idx, unwinds), 58 + |LoadIndex(idx)|;
      && StepsLength(steps, 1) == 7 && StepsLength(steps, 3) == 21 && StepsLength(steps, 4) == m
      && (unwinds ==> StepsLength(steps, 7) == m + 16)
  {
    hide LoadIndex, DefaultArm, OpsLength;
    var steps := HelperCall(idx, unwinds);
    DefaultArmLength(idx);
    assert StepsLength(steps, 0) == 0 && StepsLength(steps, 1) == 7;
    assert StepsLength(steps, 2) == 14;
    assert StepLength(steps[3]) == 37 + |LoadIndex(idx)|;
    if unwinds {
      assert StepsLength(steps, 5) == StepsLength(steps, 4) + 5 && StepsLength(steps, 6) == StepsLength(steps, 5) + 4;
    }
  }

  /** The fields of the choice of dispatcher, emitted at `n`. */
  lemma ChoiceFields(n: nat, idx: u32)
    ensures var s, m := HelperCall(idx, false)[3], n + 37 + |LoadIndex(idx)|;
      && (JumpKind, Entry(n + 2, Forward(n + 37))) in StepFields(n, s)
      && (LeaKind, Entry(n + 19, SpecialTarget(ToHelperTable))) in StepFields(n, s)
      && (JumpKind, Entry(n + 33, Forward(m))) in StepFields(n, s)
  {
    hide LoadIndex, DefaultArm, OpsLength, OpsFields;
    DefaultArmLength(idx);
    DefaultArmFields(n + 6, idx);
    var s := HelperCall(idx, false)[3];
    assert SecondArm(n, s) == n + 37 && Joined(n, s) == n + 37 + |LoadIndex(idx)|;
    var f1, f2, f3 := (JumpKind, Entry(n + 2, Forward(n + 37))), (LeaKind, Entry(n + 19, SpecialTarget(ToHelperTable))),
                      (JumpKind, Entry(n + 33, Forward(Joined(n, s))));
    assert StepFields(n, s) == [f1] + [f2] + [f3] + OpsFields(n + 37, s.second);
    assert StepFields(n, s)[0] == f1 && StepFields(n, s)[1] == f2 && StepFields(n, s)[2] == f3;
  }

  /**
    A compiled helper call at `n`: the dispatcher's address is loaded from its location; the jump taken when there is
    one lands on the external arm, which puts the index in R9; the default arm takes the helper table's address and
    jumps over the external arm to the call; the call goes to the retpoline; and the test behind an unwinding helper
    goes to the exit.
    */
  lemma HelperCallLands(c: Code, setup: seq<JOp>, plan: seq<Plan>, tail: Tail, i: nat, idx: u32, unwinds: bool,
                        b: seq<u8>, entries: map<nat, u16>)
    requires i < |plan| && plan[i].Slot? && plan[i].steps == HelperCall(idx, unwinds)
    requires Linked(Planned(c, setup, plan, tail).tables, b, entries)
    ensures var t, n := Planned(c, setup, plan, tail).tables, |UpToStep(c, setup, plan, i, 0).bytes|;
      var call := n + 58 + |LoadIndex(idx)|;
      && call + 5 <= |b| && (unwinds ==> call + 22 <= |b|)
      && Lands(b, n + 10) == t.dispatcherLoc && Lands(b, n + 23) == n + 58
      && Lands(b, n + 40) == t.helperLoc && Lands(b, n + 54) == call && Lands(b, call + 1) == t.retpolineLoc
      && (unwinds ==> Lands(b, call + 18) == t.exitLoc)
  {
    hide Planned, UpToStep, HasPrologue, Lands, Linked, LoadIndex, HelperCall, StepsLength, StepFields;
    var n, m := |UpToStep(c, setup, plan, i, 0).bytes|, 58 + |LoadIndex(idx)|;
    HelperCallLengths(idx, unwinds);
    HelperCallSteps(n, idx, unwinds);
    ChoiceFields(n + 21, idx);
    StepReaches(c, setup, plan, tail, i, 1, (LoadKind, Entry(n + 10, SpecialTarget(ToDispatcher))), b, entries);
    StepReaches(c, setup, plan, tail, i, 3, (JumpKind, Entry(n + 23, Forward(n + 58))), b, entries);
    StepReaches(c, setup, plan, tail, i, 3, (LeaKind, Entry(n + 40, SpecialTarget(ToHelperTable))), b, entries);
    StepReaches(c, setup, plan, tail, i, 3, (JumpKind, Entry(n + 54, Forward(n + m))), b, entries);
    StepReaches(c, setup, plan, tail, i, 4, (JumpKind, Entry(n + m + 1, SpecialTarget(ToRetpoline))), b, entries);
    if unwinds {
      StepReaches(c, setup, plan, tail, i, 7, (JumpKind, Entry(n + m + 18, SpecialTarget(ToExit))), b, entries);
    }
  }

  lemma StepReaches(c: Code, setup: seq<JOp>, plan: seq<Plan>, tail: Tail, i: nat, k: nat, f: (Kind, Entry),
                    b: seq<u8>, entries: map<nat, u16>)
    requires i < |plan| && plan[i].Slot? && k < |plan[i].steps|
    requires Linked(Planned(c, setup, plan, tail).tables, b, entries)
    requires f in StepFields(|UpToStep(c, setup, plan, i, 0).bytes| + StepsLength(plan[i].steps, k), plan[i].steps[k])
    ensures f.1.at + 4 <= |b| && Reaches(Planned(c, setup, plan, tail).tables, b, f.0, f.1)
  {
    hide Planned, UpToStep, Reaches, StepFields, StepsLength, Linked;
    StepLocated(c, setup, plan, i, k);
    EveryOperationReaches(c, setup, plan, tail, i, k, f, b, entries);
  }

  lemma HelperCallSteps(n: nat, idx: u32, unwinds: bool)
    ensures var steps, m := HelperCall(idx, unwinds), n + 58 + |LoadIndex(idx)|;
      && |steps| == (if unwinds then 8 else 6) && steps[3] == HelperCall(idx, false)[3]
      && steps[4] == One(JumpOp([0xe8], SpecialTarget(ToRetpoline)))
      && (LoadKind, Entry(n + 10, SpecialTarget(ToDispatcher))) in StepFields(n + 7, steps[1])
      && (JumpKind, Entry(m + 1, SpecialTarget(ToRetpoline))) in StepFields(m, steps[4])
      && (unwinds ==> (JumpKind, Entry(m + 18, SpecialTarget(ToExit))) in StepFields(m + 16, steps[7]))
  {
    hide LoadIndex, DefaultArm;
    SingleJump(n + 58 + |LoadIndex(idx)|, [0xe8], SpecialTarget(ToRetpoline));
    SingleJump(n + 74 + |LoadIndex(idx)|, [0x0f, 0x84], SpecialTarget(ToExit));
  }

  lemma SingleJump(n: nat, opcode: seq<u8>, target: Target)
    ensures (JumpKind, Entry(n + |opcode|, target)) in StepFields(n, One(JumpOp(opcode, target)))
  {
  }

  /** What stands where those jumps land: the index going to R9, and the call. */
  lemma HelperCallBytes(c: Code, setup: seq<JOp>, plan: seq<Plan>, tail: Tail, i: nat, idx: u32, unwinds: bool)
    requires i < |plan| && plan[i].Slot? && plan[i].steps == HelperCall(idx, unwinds)
    ensures var n, code := |UpToStep(c, setup, plan, i, 0).bytes|, Planned(c, setup, plan, tail).bytes;
      var call := n + 58 + |LoadIndex(idx)|;
      call < |code| && code[n + 58..call] == LoadIndex(idx) && code[call] == 0xe8
  {
    hide Planned, UpToStep, LoadIndex, HelperCall, StepsLength, AfterOps, Extends, AfterOp, StepFields;
    var n, steps := |UpToStep(c, setup, plan, i, 0).bytes|, HelperCall(idx, unwinds);
    var call := n + 58 + |LoadIndex(idx)|;
    HelperCallLengths(idx, unwinds);
    HelperCallSteps(n, idx, unwinds);
    StepLocated(c, setup, plan, i, 3);
    StepLocated(c, setup, plan, i, 4);
    NextStep(c, setup, plan, i, 3);
    NextStep(c, setup, plan, i, 4);
    var d3, d4, d5 := UpToStep(c, setup, plan, i, 3), UpToStep(c, setup, plan, i, 4), UpToStep(c, setup, plan, i, 5);
    ChoiceEnds(d3, idx);
    assert d5 == WithField(d4, [0xe8], JumpKind, SpecialTarget(ToRetpoline)) by {
      assert steps[4] == One(JumpOp([0xe8], SpecialTarget(ToRetpoline)));
      CallStep(d4);
    }
    StepKept(c, setup, plan, tail, i, 5);
    KeptBytes(d5, Planned(c, setup, plan, tail), n + 58, call);
    assert d5.bytes[n + 58..call] == d4.bytes[n + 58..call];
  }

  lemma CallStep(c: Code)
    ensures AfterStep(c, One(JumpOp([0xe8], SpecialTarget(ToRetpoline)))) ==
            WithField(c, [0xe8], JumpKind, SpecialTarget(ToRetpoline))
  {
  }

  lemma KeptBytes(c: Code, d: Code, from: nat, to: nat)
    requires Extends(c, d) && from <= to < |c.bytes|
    ensures to < |d.bytes| && d.bytes[from..to] == c.bytes[from..to] && d.bytes[to] == c.bytes[to]
  {
  }

  /** The choice of dispatcher ends with the external arm. */
  lemma ChoiceEnds(c: Code, idx: u32)
    ensures var d, n := AfterStep(c, HelperCall(idx, false)[3]), |c.bytes|;
      |d.bytes| == n + 37 + |LoadIndex(idx)| && d.bytes[n + 37..] == LoadIndex(idx)
  {
    hide LoadIndex, DefaultArm, OpsLength;
    var s := HelperCall(idx, false)[3];
    var c0 := WithField(c, s.skip, JumpKind, Forward(SecondArm(|c.bytes|, s)));
    var c1 := AfterOps(c0, s.first);
    var c2 := WithField(c1, s.join, JumpKind, Forward(Joined(|c.bytes|, s)));
    DefaultArmLength(idx);
    OpsLengthIs(c0, s.first);
    assert s.second[..0] == [] && AfterOps(c2, []) == c2;
    assert AfterOps(c2, s.second).bytes == c2.bytes + LoadIndex(idx);
  }

  // ---------------------------------------------------------------- programs

  predicate IsHelperCall(inst: Inst) { inst.opcode == 0x85 && inst.src == 0 }

  /**
    What slot `i` emits. `code` gives the plain bytes of an instruction other than a call or EXIT and, for a jump, those
    in front of it; `jump` the opcode of the jump itself.
    */
  function StepsOf(env: Env, code: nat -> seq<u8>, jump: nat -> seq<u8>, i: nat): seq<Step>
    requires i < |env.prog|
  {
    var inst := env.prog[i];
    if IsHelperCall(inst) then HelperCall(ToU32(inst.imm), inst.imm == env.unwind)
    else if IsLocalCall(env.prog, i) then
      if CallTarget(env.prog, i) < 0 then [] else LocalCall(CallTarget(env.prog, i))
    else if inst.opcode == 0x95 then [One(JOp.Raw([0x48, 0x81, 0xc4, 8, 0, 0, 0, 0xc3]))]
    else if IsJump(inst) then
      if JumpTarget(env.prog, i) < 0 then []
      else [One(JOp.Raw(code(i))), One(JumpOp(jump(i), Regular(JumpTarget(env.prog, i), 0, false)))]
    else [One(JOp.Raw(code(i)))]
  }

  function PlanOf(env: Env, code: nat -> seq<u8>, jump: nat -> seq<u8>): (plan: seq<Plan>)
    requires |env.prog| <= 65535
    ensures |plan| == |env.prog|
  {
    seq(|env.prog|, i requires 0 <= i < |env.prog| =>
      if env.prog[i].opcode == 0 then SecondHalf
      else Slot(CallProtocol.IsEntry(env, i), CallProtocol.HasBypass(env, i), env.usage(i), StepsOf(env, code, jump, i)))
  }

  /** The plan of an accepted program can be compiled. */
  lemma PlanOfOk(env: Env, code: nat -> seq<u8>, jump: nat -> seq<u8>)
    requires Loaded(env)
    ensures |env.prog| < MAX_INSTS
    ensures forall i :: 0 <= i < |env.prog| ==> PlanOk(PlanOf(env, code, jump)[i])
  {
    hide InstOk, SelfContained, HelperCall;
    assert |env.prog| < MAX_INSTS;
    forall i | 0 <= i < |env.prog| && env.prog[i].opcode != 0
      ensures StepsOk(StepsOf(env, code, jump, i))
    {
      AcceptedSlot(env, i);
      HelperCallOk(ToU32(env.prog[i].imm), env.prog[i].imm == env.unwind);
      TargetsInside(env, i);
    }
    hide StepsOk, StepsOf, Loaded;
    forall i | 0 <= i < |env.prog|
      ensures PlanOk(PlanOf(env, code, jump)[i])
    {
      if env.prog[i].opcode != 0 {
        PlanSlot(env, code, jump, i);
      }
    }
  }

  lemma HelperCallOk(idx: u32, unwinds: bool)
    ensures StepsOk(HelperCall(idx, unwinds))
  {
  }

  /** Accepted targets are slots of the program, and a jump's is the first slot of an instruction. */
  lemma TargetsInside(env: Env, i: nat)
    requires Loaded(env) && i < |env.prog| && env.prog[i].opcode != 0
    ensures IsLocalCall(env.prog, i) ==> 0 <= CallTarget(env.prog, i) < |env.prog|
    ensures IsJump(env.prog[i]) ==> 0 <= JumpTarget(env.prog, i) < |env.prog| && env.prog[JumpTarget(env.prog, i)].opcode != 0
  {
    AcceptedSlot(env, i);
    LocalCallDecodes(env.prog, i);
    JumpDecodes(env.prog[i]);
    hide Accepts, SelfContained, Decode, FieldsOk, AtomicOk, LddwOk;
  }

  lemma JumpDecodes(inst: Inst)
    ensures var op := Decode(inst.opcode); IsJump(inst) && !op.Unknown? ==> op.Ja? || op.Ja32? || op.Jcc?
    ensures Decode(inst.opcode).Ja32? <==> inst.opcode == 0x06
  {
    if !Decode(inst.opcode).Unknown? {
      DecodeEncode(inst.opcode);
    }
    assert Decode(0x06).Ja32?;
  }

  /** The code compiled from a program that was accepted and is entered only at instruction starts. */
  ghost predicate Compiled(env: Env, code: nat -> seq<u8>, jump: nat -> seq<u8>, setup: seq<JOp>, tail: Tail,
                           b: seq<u8>, entries: map<nat, u16>)
  {
    Loaded(env) && CallsHitFirstSlots(env.prog) && LinkedPlan(PlanOf(env, code, jump), setup, tail, b, entries)
  }

  ghost predicate LinkedPlan(plan: seq<Plan>, setup: seq<JOp>, tail: Tail, b: seq<u8>, entries: map<nat, u16>)
  {
    && Linked(Planned(Start(), setup, plan, tail).tables, b, entries) && Holds(b, Planned(Start(), setup, plan, tail))
    && EntriesFollow(plan, |plan|, entries)
  }

  function Start(): Code { Code(NoTables(), []) }

  /** The position of slot `i`'s own code. */
  function SlotAt(env: Env, code: nat -> seq<u8>, jump: nat -> seq<u8>, setup: seq<JOp>, i: nat): nat
  {
    if i < |env.prog| <= 65535 && env.prog[i].opcode != 0
    then |UpToStep(Start(), setup, PlanOf(env, code, jump), i, 0).bytes| else 0
  }

  lemma PlanSlot(env: Env, code: nat -> seq<u8>, jump: nat -> seq<u8>, i: nat)
    requires i < |env.prog| <= 65535 && env.prog[i].opcode != 0
    ensures PlanOf(env, code, jump)[i] ==
            Slot(CallProtocol.IsEntry(env, i), CallProtocol.HasBypass(env, i), env.usage(i), StepsOf(env, code, jump, i))
  {
    hide StepsOf;
  }

  /** The field at `at` leads to a prologue that stores the usage of the function slot `i` calls. */
  ghost predicate PrologueReached(env: Env, b: seq<u8>, i: nat, at: nat)
    ensures PrologueReached(env, b, i, at) ==> at + 4 <= |b| && i < |env.prog| && 0 <= CallTarget(env.prog, i)
  {
    && i < |env.prog| && 0 <= CallTarget(env.prog, i) < |env.prog| <= 65535 && at + 4 <= |b|
    && 0 <= Lands(b, at) && Lands(b, at) + PROLOGUE_SIZE <= |b|
    && b[Lands(b, at)..Lands(b, at) + PROLOGUE_SIZE] == Prologue(env.usage(CallTarget(env.prog, i)))
  }

  /** Every local call of the compiled program lands on the prologue of its callee, which stores the callee's usage. */
  lemma LocalCallsLand(env: Env, code: nat -> seq<u8>, jump: nat -> seq<u8>, setup: seq<JOp>, tail: Tail,
                       b: seq<u8>, entries: map<nat, u16>, i: nat)
    requires Compiled(env, code, jump, setup, tail, b, entries) && IsLocalCall(env.prog, i)
    ensures PrologueReached(env, b, i, SlotAt(env, code, jump, setup, i) + 12)
    ensures Lands(b, SlotAt(env, code, jump, setup, i) + 12) + PROLOGUE_SIZE ==
            SlotAt(env, code, jump, setup, CallTarget(env.prog, i))
  {
    hide Planned, UpToStep, Lands, InstOk, SelfContained, LocalTargets, Prologue, StepFields, StepsLength, HelperCall, Walk;
    var plan, target := PlanOf(env, code, jump), CallTarget(env.prog, i);
    PlanSlot(env, code, jump, i);
    PlanSlot(env, code, jump, target);
    hide PlanOf;
    LocalCallField(|UpToStep(Start(), setup, plan, i, 0).bytes|, target);
    var e := Entry(SlotAt(env, code, jump, setup, i) + 12, Regular(target, 0, false));
    StepReaches(Start(), setup, plan, tail, i, 1, (CallKind, e), b, entries);
    SlotLocated(Start(), setup, plan, tail, target);
    TargetIsEntry(env, i);
    assert IsEntry(plan, target);
    assert HasPrologue(Planned(Start(), setup, plan, tail).tables, b, target, entries[target]);
  }

  lemma LocalCallField(n: nat, target: nat)
    ensures (CallKind, Entry(n + 12, Regular(target, 0, false))) in StepFields(n + StepsLength(LocalCall(target), 1), LocalCall(target)[1])
  {
    var steps := LocalCall(target);
    assert StepsLength(steps, 0) == 0 && StepsLength(steps, 1) == 11;
  }

  lemma TargetIsEntry(env: Env, i: nat)
    requires Loaded(env) && IsLocalCall(env.prog, i) && 0 <= CallTarget(env.prog, i)
    ensures CallProtocol.IsEntry(env, CallTarget(env.prog, i))
  {
    hide Accepts;
    TargetIn(env.prog, |env.prog|, i);
  }

  /** Every jump of the compiled program lands on the first byte of its target's own code. */
  lemma JumpsLand(env: Env, code: nat -> seq<u8>, jump: nat -> seq<u8>, setup: seq<JOp>, tail: Tail,
                  b: seq<u8>, entries: map<nat, u16>, i: nat)
    requires Compiled(env, code, jump, setup, tail, b, entries)
    requires i < |env.prog| && env.prog[i].opcode != 0 && IsJump(env.prog[i])
    ensures 0 <= JumpTarget(env.prog, i) < |env.prog|
    ensures var at := SlotAt(env, code, jump, setup, i) + |code(i)| + |jump(i)|;
      at + 4 <= |b| && Lands(b, at) == SlotAt(env, code, jump, setup, JumpTarget(env.prog, i))
  {
    hide Planned, UpToStep, Lands, InstOk, SelfContained, LocalTargets, StepFields, StepsLength, HelperCall, Walk, Linked;
    var plan, target := PlanOf(env, code, jump), JumpTarget(env.prog, i);
    TargetsInside(env, i);
    PlanSlot(env, code, jump, i);
    PlanSlot(env, code, jump, target);
    hide PlanOf;
    JumpField(|UpToStep(Start(), setup, plan, i, 0).bytes|, code(i), jump(i), target);
    var at := SlotAt(env, code, jump, setup, i) + |code(i)| + |jump(i)|;
    StepLocated(Start(), setup, plan, i, 1);
    BranchesLandOnSlots(Start(), setup, plan, tail, i, 1, target, at, b, entries);
  }

  lemma JumpField(n: nat, code: seq<u8>, jump: seq<u8>, target: nat)
    ensures var steps := [One(JOp.Raw(code)), One(JumpOp(jump, Regular(target, 0, false)))];
      (JumpKind, Entry(n + |code| + |jump|, Regular(target, 0, false))) in StepFields(n + StepsLength(steps, 1), steps[1])
  {
    var steps := [One(JOp.Raw(code)), One(JumpOp(jump, Regular(target, 0, false)))];
    assert StepsLength(steps, 0) == 0 && StepsLength(steps, 1) == |code|;
    SingleJump(n + |code|, jump, Regular(target, 0, false));
  }
}
