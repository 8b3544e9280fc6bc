/** The ARM64 plan of a program: what is emitted for each slot, and where its calls and jumps go once compiled. */
module ArmProgram {
  import opened Words
  import opened Isa
  import opened Machine
  import opened SubPrograms
  import opened Validator
  import opened ControlFlow
  import opened Relocation
  import opened ArmBranches
  import opened ArmEmission
  import opened ArmLayout
  import A = Arm64
  import ArmConstants
  import ArmLowering
  import CallProtocol
  import JitProgram

  type AOp = ArmEmission.Op

  function AsWords(words: seq<u32>): (ops: seq<AOp>)
    ensures |ops| == |words| && forall i :: 0 <= i < |ops| ==> ops[i] == AOp.Word(words[i])
  {
    seq(|words|, i requires 0 <= i < |words| => AOp.Word(words[i]))
  }

  // ---------------------------------------------------------------- calls

  /** The encoding of the instructions of a constant load, blinded or not. */
  function EncodeLoad(i: A.AInst): u32
  {
    if i.Op3? then 0xca00_0000 + 0x1_0000 * i.rm + 32 * i.rn + i.rd else EncodeMove(i)
  }

  /** The index of a helper into R5, blinded with the given random value if there is one. */
  function LoadIndex(idx: u32, blind: Option<u64>): seq<u32>
  {
    var load := match blind
                case None => ArmConstants.LoadConstant(true, 5, idx)
                case Some(random) => ArmConstants.LoadBlinded(true, 5, idx, random);
    seq(|load|, i requires 0 <= i < |load| => EncodeLoad(load[i]))
  }

  lemma LoadIndexLength(idx: u32, blind: Option<u64>)
    ensures |LoadIndex(idx, blind)| <= 9
    ensures blind.None? && idx < 0x1_0000 ==> |LoadIndex(idx, blind)| == 1
  {
    hide ArmConstants.LoadConstant;
    if idx < 0x1_0000 { ArmConstants.SmallConstantIs(5, idx); }
    match blind
    case None => ConstantLength(5, idx);
    case Some(random) =>
      ConstantLength(5, Bitwise64(Xor, idx, random));
      ConstantLength(ArmConstants.BlindScratch(5), random);
  }

  lemma ConstantLength(rd: A.Reg, v: u64)
    ensures |ArmConstants.LoadConstant(true, rd, v)| <= 4
  {
    var b := ArmConstants.Split(v);
    ArmConstants.StrategyLength(true, rd, b, ArmConstants.Inverts(true, b));
    hide ArmConstants.Strategy, ArmConstants.Count;
  }

  /**
    `emit_dispatched_external_helper_call` with the test for the unwinding helper behind it. The two arms load the
    index on their own, since each blinds it anew.
    */
  function HelperCall(load1: seq<u32>, load2: seq<u32>, unwinds: bool): (ops: seq<AOp>)
    ensures |ops| == 18 + |load1| + |load2| + if unwinds then 2 else 0
  {
    [AOp.Word(0xd100_43ff), AOp.Word(0xf800_03fe), Field(LoadKind, 0x5800_0018, ToPlace(ToDispatcher)),
     AOp.Word(0xf100_0318), Field(JumpKind, 0x5400_0001, ToWord(9 + |load1|))] +
    AsWords(load1) +
    [AOp.Word(0xd280_0066), AOp.Word(0x9ac6_20a5), AOp.Word(0xd280_0018), Field(LeaKind, 0x1000_0018, ToPlace(ToHelperTable)),
     AOp.Word(0x8b05_0318), AOp.Word(0xf840_0318), AOp.Word(0xaa1a_03e5), Field(JumpKind, 0x1400_0000, ToWord(2 + |load2|))] +
    AsWords(load2) +
    [AOp.Word(0xaa1a_03e6), AOp.Word(0xd63f_0300), AOp.Word(0xaa00_03e5), AOp.Word(0xf840_03fe), AOp.Word(0x9100_43ff)] +
    if unwinds then [AOp.Word(0xf100_00bf), Field(JumpKind, 0x5400_0000, ToPlace(ToExit))] else []
  }

  /** `emit_local_call`. */
  function LocalCall(target: nat): seq<AOp>
  {
    [AOp.Word(0xf840_03f8), AOp.Word(0xcb18_02f7), AOp.Word(0xd100_c3ff), AOp.Word(0xf800_03fe), AOp.Word(0xf800_83f8),
     AOp.Word(0xa901_53f3), AOp.Word(0xa902_5bf5), Field(CallKind, 0x9400_0000, ToSlot(target)),
     AOp.Word(0xf840_03fe), AOp.Word(0xf840_83f8), AOp.Word(0xa941_53f3), AOp.Word(0xa942_5bf5), AOp.Word(0x9100_c3ff),
     AOp.Word(0x8b18_02f7)]
  }

  /** The operations of a helper call that matter to where it goes. */
  lemma HelperCallOps(load1: seq<u32>, load2: seq<u32>, unwinds: bool)
    ensures var ops, l, m := HelperCall(load1, load2, unwinds), |load1|, |load1| + |load2|;
      && ops[2] == Field(LoadKind, 0x5800_0018, ToPlace(ToDispatcher))
      && ops[4] == Field(JumpKind, 0x5400_0001, ToWord(9 + l))
      && ops[8 + l] == Field(LeaKind, 0x1000_0018, ToPlace(ToHelperTable))
      && ops[12 + l] == Field(JumpKind, 0x1400_0000, ToWord(2 + |load2|))
      && ops[14 + m] == AOp.Word(0xd63f_0300)
      && (forall j :: 0 <= j < |load2| ==> ops[13 + l + j] == AOp.Word(load2[j]))
      && (unwinds ==> ops[19 + m] == Field(JumpKind, 0x5400_0000, ToPlace(ToExit)))
  {
    hide AsWords;
  }

  lemma HelperCallOk(load1: seq<u32>, load2: seq<u32>, unwinds: bool)
    ensures OpsOk(HelperCall(load1, load2, unwinds)) && StaysInside(HelperCall(load1, load2, unwinds))
  {
    hide AsWords;
  }

  /** Where operation `k` of a slot is. */
  lemma OpLocated(c: Code, setup: seq<AOp>, plan: seq<Plan>, i: nat, k: nat)
    requires i < |plan| && plan[i].Slot? && k <= |plan[i].ops|
    ensures |UpToOp(c, setup, plan, i, k).words| == |UpToOp(c, setup, plan, i, 0).words| + k
  {
    hide AfterOps, AfterStart, AfterSlots;
    var start := AfterStart(UpTo(c, setup, plan, i), i, plan[i].entry, plan[i].bypass, plan[i].usage);
    OpsLength(start, plan[i].ops[..k]);
    OpsLength(start, plan[i].ops[..0]);
  }

  /** The field of operation `k` of slot `i`, `k` words into the slot's own code, goes to `to` exactly when that is in range. */
  ghost predicate Goes(c: Code, setup: seq<AOp>, plan: seq<Plan>, tail: Tail, b: seq<u32>, i: nat, k: nat, to: int)
    requires i < |plan| && plan[i].Slot? && k < |plan[i].ops| && plan[i].ops[k].Field?
  {
    var w, at, op := Planned(c, setup, plan, tail), |UpToOp(c, setup, plan, i, 0).words| + k, plan[i].ops[k];
    && at < |w.words| <= |b|
    && (Reads(w, b, op.kind, 4 * at) == to <==> InRange(ReadForm(op.kind, op.base), to - 4 * at))
  }

  lemma FieldGoes(c: Code, setup: seq<AOp>, plan: seq<Plan>, tail: Tail, b: seq<u32>, i: nat, k: nat)
    requires Compiled(c, setup, plan, tail, b)
    requires i < |plan| && plan[i].Slot? && k < |plan[i].ops| && plan[i].ops[k].Field?
    ensures var w, at, op := Planned(c, setup, plan, tail), |UpToOp(c, setup, plan, i, 0).words| + k, plan[i].ops[k];
      && Destination(w, op.kind, ArmEmission.TargetOf(at, op.to)).Some?
      && Goes(c, setup, plan, tail, b, i, k, Destination(w, op.kind, ArmEmission.TargetOf(at, op.to)).value)
  {
    hide Compiled, UpToOp, Planned, Destination, ArmEmission.TargetOf, Reads, InRange, ReadForm;
    EveryFieldReaches(c, setup, plan, tail, b, i, k);
    OpLocated(c, setup, plan, i, k);
  }

  lemma ShortRanges(rel: int)
    ensures InRange(Unconditional, rel) <==> -0x800_0000 <= rel < 0x800_0000
    ensures InRange(Conditional, rel) <==> -0x10_0000 <= rel < 0x10_0000
  {
    Pow2Fields();
    hide Pow2;
  }

  /**
    A compiled helper call whose own code starts at word `n`: the branch taken when there is an external dispatcher lands
    on the arm that loads the index for it, the other arm jumps over that one to the call, and the dispatcher's address,
    the helper table and the exit are reached exactly when they are less than a megabyte away.
    */
  lemma HelperCallLands(c: Code, setup: seq<AOp>, plan: seq<Plan>, tail: Tail, b: seq<u32>, i: nat,
                        idx: u32, blind1: Option<u64>, blind2: Option<u64>, unwinds: bool)
    requires Compiled(c, setup, plan, tail, b) && i < |plan| && plan[i].Slot?
    requires plan[i].ops == HelperCall(LoadIndex(idx, blind1), LoadIndex(idx, blind2), unwinds)
    ensures var w, n := Planned(c, setup, plan, tail), |UpToOp(c, setup, plan, i, 0).words|;
      var l, m := |LoadIndex(idx, blind1)|, |LoadIndex(idx, blind1)| + |LoadIndex(idx, blind2)|;
      && n + |plan[i].ops| <= |w.words| <= |b|
      && Reads(w, b, JumpKind, 4 * (n + 4)) == 4 * (n + 13 + l) && b[n + 13 + l..n + 13 + m] == LoadIndex(idx, blind2)
      && Reads(w, b, JumpKind, 4 * (n + 12 + l)) == 4 * (n + 14 + m) && b[n + 14 + m] == 0xd63f_0300
      && (Reads(w, b, LoadKind, 4 * (n + 2)) == w.tables.dispatcherLoc <==> -0x10_0000 <= w.tables.dispatcherLoc - 4 * (n + 2) < 0x10_0000)
      && (Reads(w, b, LeaKind, 4 * (n + 8 + l)) == w.tables.helperLoc <==> -0x10_0000 <= w.tables.helperLoc - 4 * (n + 8 + l) < 0x10_0000)
      && (unwinds ==> (Reads(w, b, JumpKind, 4 * (n + 19 + m)) == w.tables.exitLoc <==> -0x10_0000 <= w.tables.exitLoc - 4 * (n + 19 + m) < 0x10_0000))
  {
    hide Compiled, UpToOp, Planned, Reads, InRange, LoadIndex, HelperCall;
    var w, n := Planned(c, setup, plan, tail), |UpToOp(c, setup, plan, i, 0).words|;
    var load1, load2 := LoadIndex(idx, blind1), LoadIndex(idx, blind2);
    var l, m := |load1|, |load1| + |load2|;
    LoadIndexLength(idx, blind1);
    LoadIndexLength(idx, blind2);
    HelperCallOps(load1, load2, unwinds);
    SlotInside(c, setup, plan, tail, b, i);
    FieldGoes(c, setup, plan, tail, b, i, 2);
    FieldGoes(c, setup, plan, tail, b, i, 4);
    FieldGoes(c, setup, plan, tail, b, i, 8 + l);
    FieldGoes(c, setup, plan, tail, b, i, 12 + l);
    ShortRanges(w.tables.dispatcherLoc - 4 * (n + 2));
    ShortRanges(4 * (9 + l));
    ShortRanges(w.tables.helperLoc - 4 * (n + 8 + l));
    ShortRanges(4 * (2 + m - l));
    if unwinds {
      FieldGoes(c, setup, plan, tail, b, i, 19 + m);
      ShortRanges(w.tables.exitLoc - 4 * (n + 19 + m));
    }
    ArmStays(c, setup, plan, tail, b, i, idx, blind1, blind2, unwinds);
  }

  /** The code of a slot is inside the buffer. */
  lemma SlotInside(c: Code, setup: seq<AOp>, plan: seq<Plan>, tail: Tail, b: seq<u32>, i: nat)
    requires Compiled(c, setup, plan, tail, b) && i < |plan| && plan[i].Slot?
    ensures |UpToOp(c, setup, plan, i, 0).words| + |plan[i].ops| <= |Planned(c, setup, plan, tail).words| <= |b|
  {
    hide UpToOp, Planned, Sound, OpsOk, PlanOk;
    OpLocated(c, setup, plan, i, |plan[i].ops|);
    OpKept(c, setup, plan, tail, i, |plan[i].ops|);
  }

  /** The external arm and the call behind it are in place. */
  lemma ArmStays(c: Code, setup: seq<AOp>, plan: seq<Plan>, tail: Tail, b: seq<u32>, i: nat,
                 idx: u32, blind1: Option<u64>, blind2: Option<u64>, unwinds: bool)
    requires Compiled(c, setup, plan, tail, b) && i < |plan| && plan[i].Slot?
    requires plan[i].ops == HelperCall(LoadIndex(idx, blind1), LoadIndex(idx, blind2), unwinds)
    ensures var n, l, load2 := |UpToOp(c, setup, plan, i, 0).words|, |LoadIndex(idx, blind1)|, LoadIndex(idx, blind2);
      n + 14 + l + |load2| < |b| && b[n + 13 + l..n + 13 + l + |load2|] == load2 && b[n + 14 + l + |load2|] == 0xd63f_0300
  {
    hide Compiled, UpToOp, LoadIndex, HelperCall;
    var n, load1, load2 := |UpToOp(c, setup, plan, i, 0).words|, LoadIndex(idx, blind1), LoadIndex(idx, blind2);
    var l := |load1|;
    HelperCallOps(load1, load2, unwinds);
    WordStays(c, setup, plan, tail, b, i, 14 + l + |load2|);
    forall j | 0 <= j < |load2|
      ensures b[n + 13 + l + j] == load2[j]
    {
      assert plan[i].ops[13 + l + j] == AOp.Word(load2[j]);
      WordStays(c, setup, plan, tail, b, i, 13 + l + j);
    }
  }

  lemma WordStays(c: Code, setup: seq<AOp>, plan: seq<Plan>, tail: Tail, b: seq<u32>, i: nat, k: nat)
    requires Compiled(c, setup, plan, tail, b)
    requires i < |plan| && plan[i].Slot? && k < |plan[i].ops| && plan[i].ops[k].Word?
    ensures var at := |UpToOp(c, setup, plan, i, 0).words| + k; at < |b| && b[at] == plan[i].ops[k].word
  {
    hide Compiled, UpToOp;
    EveryWordStays(c, setup, plan, tail, b, i, k);
    OpLocated(c, setup, plan, i, k);
  }

  // ---------------------------------------------------------------- programs

  /** B for the unconditional jumps, and B.cond with the condition of a conditional one. */
  function JumpBase(inst: Inst): u32
  {
    match Decode(inst.opcode)
    case Jcc(_, cond, _) => 0x5400_0000 + ArmLowering.ToCondition(cond)
    case _ => 0x1400_0000
  }

  /**
    What slot `i` emits. `code` gives what stands in front of a jump, and all there is for the other instructions except
    calls and EXIT; `blind` the random values for the two loads of a helper's index, if constants are blinded.
    */
  function OpsOf(env: Env, code: nat -> seq<AOp>, blind: nat -> (Option<u64>, Option<u64>), i: nat): seq<AOp>
    requires i < |env.prog|
  {
    var inst := env.prog[i];
    if inst.opcode == 0x85 then
      if inst.src == 0 then
        HelperCall(LoadIndex(ToU32(inst.imm), blind(i).0), LoadIndex(ToU32(inst.imm), blind(i).1), inst.imm == env.unwind)
      else if inst.src == 1 then
        if CallTarget(env.prog, i) < 0 then [] else LocalCall(CallTarget(env.prog, i))
      else [Field(JumpKind, 0x1400_0000, ToPlace(ToExit))]
    else if inst.opcode == 0x95 then [AOp.Word(0x9100_43ff), AOp.Word(0xd65f_03c0)]
    else if IsJump(inst) then
      if JumpTarget(env.prog, i) < 0 then [] else code(i) + [Field(JumpKind, JumpBase(inst), ToSlot(JumpTarget(env.prog, i)))]
    else code(i)
  }

  function PlanOf(env: Env, code: nat -> seq<AOp>, blind: nat -> (Option<u64>, Option<u64>)): (plan: seq<Plan>)
    requires |env.prog| <= 65535
    ensures |plan| == |env.prog|
  {
    seq(|env.prog|, i requires 0 <= i < |env.prog| =>
      if env.prog[i].opcode == 0 then SecondHalf
      else Slot(CallProtocol.IsEntry(env, i), CallProtocol.HasBypass(env, i), env.usage(i), OpsOf(env, code, blind, i)))
  }

  /** Code the translator can emit for an instruction: its jumps stay inside, and it is not long. */
  ghost predicate CodeOk(code: nat -> seq<AOp>)
  {
    forall i :: OpsOk(code(i)) && StaysInside(code(i)) && |code(i)| <= 500
  }

  lemma PlanSlot(env: Env, code: nat -> seq<AOp>, blind: nat -> (Option<u64>, Option<u64>), i: nat)
    requires i < |env.prog| <= 65535 && env.prog[i].opcode != 0
    ensures PlanOf(env, code, blind)[i] ==
            Slot(CallProtocol.IsEntry(env, i), CallProtocol.HasBypass(env, i), env.usage(i), OpsOf(env, code, blind, i))
  {
    hide OpsOf;
  }

  lemma OpsOfOk(env: Env, code: nat -> seq<AOp>, blind: nat -> (Option<u64>, Option<u64>), i: nat)
    requires Loaded(env) && CodeOk(code) && i < |env.prog| && env.prog[i].opcode != 0
    ensures OpsOk(OpsOf(env, code, blind, i)) && StaysInside(OpsOf(env, code, blind, i)) && |OpsOf(env, code, blind, i)| <= 501
  {
    hide Loaded, InstOk, HelperCall, LoadIndex, JumpBase, LocalCall;
    var inst := env.prog[i];
    var load1, load2 := LoadIndex(ToU32(inst.imm), blind(i).0), LoadIndex(ToU32(inst.imm), blind(i).1);
    LoadIndexLength(ToU32(inst.imm), blind(i).0);
    LoadIndexLength(ToU32(inst.imm), blind(i).1);
    HelperCallOk(load1, load2, inst.imm == env.unwind);
    AcceptedSlot(env, i);
    JitProgram.TargetsInside(env, i);
    JumpBaseOk(inst);
    if IsLocalCall(env.prog, i) { LocalCallOk(CallTarget(env.prog, i)); }
    assert OpsOk(code(i)) && StaysInside(code(i)) && |code(i)| <= 500;
    hide CodeOk, BaseOk;
  }

  lemma LocalCallOk(target: nat)
    requires target <= MAX_INSTS
    ensures OpsOk(LocalCall(target)) && StaysInside(LocalCall(target)) && |LocalCall(target)| == 14
  {
  }

  lemma JumpBaseOk(inst: Inst)
    ensures BaseOk(JumpKind, JumpBase(inst))
    ensures ReadForm(JumpKind, JumpBase(inst)) == if Decode(inst.opcode).Jcc? then Conditional else Unconditional
  {
    hide Decode, ArmLowering.ToCondition;
    JumpForms(JumpBase(inst));
  }

  /** The plan of an accepted program can be compiled. */
  lemma PlanOfOk(env: Env, code: nat -> seq<AOp>, blind: nat -> (Option<u64>, Option<u64>))
    requires Loaded(env) && CodeOk(code)
    ensures |env.prog| < MAX_INSTS
    ensures forall i :: 0 <= i < |env.prog| ==> PlanOk(PlanOf(env, code, blind)[i])
  {
    assert |env.prog| < MAX_INSTS;
    hide Loaded, OpsOf, CodeOk, OpsOk, StaysInside;
    forall i | 0 <= i < |env.prog|
      ensures PlanOk(PlanOf(env, code, blind)[i])
    {
      if env.prog[i].opcode != 0 {
        PlanSlot(env, code, blind, i);
        OpsOfOk(env, code, blind, i);
      }
    }
  }

  /** The code compiled from an accepted program, the setup in front of it not being long either. */
  ghost predicate CompiledProgram(env: Env, code: nat -> seq<AOp>, blind: nat -> (Option<u64>, Option<u64>),
                                  setup: seq<AOp>, tail: Tail, b: seq<u32>)
  {
    && Loaded(env) && CodeOk(code) && |setup| <= 1000
    && Compiled(Start(), setup, PlanOf(env, code, blind), tail, b)
  }

  /** The word of slot `i`'s own code. */
  function SlotAt(env: Env, code: nat -> seq<AOp>, blind: nat -> (Option<u64>, Option<u64>), setup: seq<AOp>, i: nat): nat
  {
    if i < |env.prog| <= 65535 && env.prog[i].opcode != 0
    then |UpToOp(Start(), setup, PlanOf(env, code, blind), i, 0).words| else 0
  }

  /** Code up to a slot, if no slot has more than 501 operations. */
  lemma {:induction false} SlotsShort(c: Code, plan: seq<Plan>, n: nat)
    requires n <= |plan| && forall i :: 0 <= i < n && plan[i].Slot? ==> |plan[i].ops| <= 501
    ensures |AfterSlots(c, plan, n).words| <= |c.words| + 505 * n
    decreases n
  {
    hide AfterSlot;
    if n > 0 {
      SlotsShort(c, plan, n - 1);
      SlotLength(AfterSlots(c, plan, n - 1), n - 1, plan[n - 1]);
    }
  }

  /** No slot starts beyond the reach of an unconditional branch. */
  lemma SlotNear(env: Env, code: nat -> seq<AOp>, blind: nat -> (Option<u64>, Option<u64>), setup: seq<AOp>, i: nat)
    requires Loaded(env) && CodeOk(code) && |setup| <= 1000
    ensures SlotAt(env, code, blind, setup, i) <= 0x1ff_0000
  {
    assert |env.prog| < MAX_INSTS;
    if i < |env.prog| && env.prog[i].opcode != 0 {
      hide Loaded, CodeOk, AfterOps, AfterSlots, OpsOf;
      var plan := PlanOf(env, code, blind);
      forall j | 0 <= j < i && plan[j].Slot?
        ensures |plan[j].ops| <= 501
      {
        PlanSlot(env, code, blind, j);
        OpsOfOk(env, code, blind, j);
      }
      SetupLength(Start(), setup);
      SlotsShort(AfterSetup(Start(), setup), plan, i);
      StartNear(UpTo(Start(), setup, plan, i), i, plan[i]);
    }
  }

  lemma StartNear(c: Code, i: nat, p: Plan)
    requires p.Slot?
    ensures |AfterOps(AfterStart(c, i, p.entry, p.bypass, p.usage), p.ops[..0]).words| <= |c.words| + 4
  {
    PrologueWords(p.usage);
    hide ArmPrologue;
  }

  /** Every local call of the compiled program lands on the prologue of its callee, which stores the callee's usage. */
  lemma LocalCallsLand(env: Env, code: nat -> seq<AOp>, blind: nat -> (Option<u64>, Option<u64>),
                       setup: seq<AOp>, tail: Tail, b: seq<u32>, i: nat)
    requires CompiledProgram(env, code, blind, setup, tail, b) && CallsHitFirstSlots(env.prog) && IsLocalCall(env.prog, i)
    ensures 0 <= CallTarget(env.prog, i) < |env.prog| <= 65535
    ensures var w, target := Planned(Start(), setup, PlanOf(env, code, blind), tail), CallTarget(env.prog, i);
      var n, m := SlotAt(env, code, blind, setup, i) + 7, SlotAt(env, code, blind, setup, target);
      && n < |w.words| <= |b| && 3 <= m <= |b|
      && Reads(w, b, CallKind, 4 * n) == 4 * (m - 3) && b[m - 3..m] == ArmPrologue(env.usage(target))
  {
    hide Planned, UpToOp, Reads, InstOk, SelfContained, LocalTargets, ArmPrologue, Walk, InRange, CodeOk, Sound, OpsOk, PlanOk, Resolved;
    var plan, target := PlanOf(env, code, blind), CallTarget(env.prog, i);
    AcceptedSlot(env, i);
    JitProgram.TargetsInside(env, i);
    PlanSlot(env, code, blind, i);
    PlanSlot(env, code, blind, target);
    JitProgram.TargetIsEntry(env, i);
    SlotNear(env, code, blind, setup, i);
    SlotNear(env, code, blind, setup, target);
    hide PlanOf, Loaded;
    assert plan[i].ops == LocalCall(target) && plan[i].ops[7] == Field(CallKind, 0x9400_0000, ToSlot(target));
    CallsLandOnPrologue(Start(), setup, plan, tail, b, i, 7);
    OpLocated(Start(), setup, plan, i, 7);
    ShortRanges(4 * (SlotAt(env, code, blind, setup, target) - 3) - 4 * (SlotAt(env, code, blind, setup, i) + 7));
  }

  /**
    Every jump of the compiled program lands on the first word of its target's own code, a conditional one exactly when
    that is less than a megabyte away.
    */
  lemma JumpsLand(env: Env, code: nat -> seq<AOp>, blind: nat -> (Option<u64>, Option<u64>),
                  setup: seq<AOp>, tail: Tail, b: seq<u32>, i: nat)
    requires CompiledProgram(env, code, blind, setup, tail, b)
    requires i < |env.prog| && env.prog[i].opcode != 0 && IsJump(env.prog[i])
    ensures 0 <= JumpTarget(env.prog, i) < |env.prog| <= 65535
    ensures var w := Planned(Start(), setup, PlanOf(env, code, blind), tail);
      var n, m := SlotAt(env, code, blind, setup, i) + |code(i)|, SlotAt(env, code, blind, setup, JumpTarget(env.prog, i));
      && n < |w.words| <= |b|
      && (Reads(w, b, JumpKind, 4 * n) == 4 * m <==>
          (Decode(env.prog[i].opcode).Jcc? ==> -0x10_0000 <= 4 * m - 4 * n < 0x10_0000))
  {
    hide Planned, UpToOp, Reads, InstOk, SelfContained, LocalTargets, Walk, InRange, Sound, OpsOk, PlanOk, Resolved, Decode, JumpBase;
    var plan, target := PlanOf(env, code, blind), JumpTarget(env.prog, i);
    AcceptedSlot(env, i);
    JitProgram.TargetsInside(env, i);
    PlanSlot(env, code, blind, i);
    PlanSlot(env, code, blind, target);
    SlotNear(env, code, blind, setup, i);
    SlotNear(env, code, blind, setup, target);
    JumpBaseOk(env.prog[i]);
    assert |code(i)| <= 500;
    hide PlanOf, Loaded, CodeOk, BaseOk, ReadForm;
    var k := |code(i)|;
    assert plan[i].ops[k] == Field(JumpKind, JumpBase(env.prog[i]), ToSlot(target));
    JumpsLandOnSlots(Start(), setup, plan, tail, b, i, k);
    OpLocated(Start(), setup, plan, i, k);
    ShortRanges(4 * SlotAt(env, code, blind, setup, target) - 4 * (SlotAt(env, code, blind, setup, i) + k));
  }
}
