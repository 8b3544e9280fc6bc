/**
  Exactly when the safe profile stops a run: where the legacy interpreter stops too, or where a provenance rule is
  broken. The rules are stated on intervals of addresses, without the order of checks or saturating bounds.
  */
module Refusals {
  import opened Words
  import opened Isa
  import opened Semantics
  import opened Machine
  import opened Safe
  import opened SafeInvariant
  import opened Erasure
  import Legacy

  /** The accessed block lies in the pointer's window, which grants what is needed. */
  predicate AccessAllowed(tag: Tag, addr: u64, offset: i16, size: nat, need: Perms)
  {
    && tag.Pointer? && Grants(tag.perms, need)
    && tag.base <= addr + offset && addr + offset + size <= tag.base + tag.size < 0x1_0000_0000_0000_0000
  }

  lemma AccessExact(tag: Tag, addr: u64, offset: i16, size: nat, need: Perms)
    ensures ComputeAccess(tag, addr, offset, size, need).Ok? <==> AccessAllowed(tag, addr, offset, size, need)
    ensures AccessAllowed(tag, addr, offset, size, need) ==>
              ComputeAccess(tag, addr, offset, size, need) == Ok(addr + offset)
  {
  }

  function Slack(tag: Tag): nat { if tag.Pointer? && tag.id == STACK_ID then STACK_SLACK else 0 }

  /** A value the pointer may take: within its window or one past it, with some slack for stack pointers. */
  predicate MayPoint(tag: Tag, v: u64)
  {
    && tag.Pointer? && tag.base + tag.size < 0x1_0000_0000_0000_0000
    && tag.base - Slack(tag) <= v <= tag.base + tag.size + Slack(tag)
  }

  /** Pointers move by scalars, two pointers of one root can be subtracted, and all other arithmetic is on scalars. */
  predicate ArithmeticAllowed(wide: bool, alu: AluOp, fromReg: bool, offset: i16, dst: Tag, src: Tag, result: u64)
  {
    var operand := if fromReg then src else Scalar;
    || !wide
    || (alu.OpMov? && (offset == 0 || operand.Scalar?))
    || (!alu.OpMov? && dst.Scalar? && operand.Scalar?)
    || ((alu.OpAdd? || alu.OpSub?) && operand.Scalar? && MayPoint(dst, result))
    || (alu.OpAdd? && dst.Scalar? && MayPoint(operand, result))
    || (alu.OpSub? && dst.Pointer? && operand.Pointer? && dst.id == operand.id)
  }

  lemma ArithmeticExact(wide: bool, alu: AluOp, fromReg: bool, offset: i16, dst: Tag, src: Tag, result: u64)
    ensures AluTag(wide, alu, fromReg, offset, dst, src, result).Ok? <==>
              ArithmeticAllowed(wide, alu, fromReg, offset, dst, src, result)
  {
  }

  /** The helper has metadata whose region is registered, and unless it unwinds, its result is a window of that region. */
  predicate HelperAllowed(env: Env, s: SafeState, index: int)
  {
    && 0 <= index < |env.helpers| && env.helpers[index].Some?
    && var meta := env.helpers[index].value;
       meta.kind.ScalarResult? ||
       var region := FindRegion(env.regions, meta.id);
       var v := env.helper(index, HelperArgs(s.core), s.core.mem).value;
       region.Some? &&
       ((index == env.unwind && v == 0) ||
        (&& meta.kind.PointerResult? == region.value.kind.PointerRegion?
         && region.value.base <= v && v + meta.size <= region.value.end))
  }

  predicate Respects(env: Env, s: SafeState, inst: Inst)
  {
    var r, t := s.core.regs, s.tags;
    DecodeSizes(inst.opcode);
    match Decode(inst.opcode)
    case Alu(wide, alu, fromReg) =>
      ArithmeticAllowed(wide, alu, fromReg, inst.offset, t[inst.dst], t[inst.src],
                        AluValue(wide, alu, fromReg, inst.offset, r[inst.dst], Operand(fromReg, inst, r)))
    case End(kind) => kind == Swap ==> t[inst.dst].Scalar?
    case Ldx(size, _) => AccessAllowed(t[inst.src], r[inst.src], inst.offset, size, READ)
    case St(size) => AccessAllowed(t[inst.dst], r[inst.dst], inst.offset, size, WRITE)
    case Stx(size) => AccessAllowed(t[inst.dst], r[inst.dst], inst.offset, size, WRITE)
    case Atomic(size) => AccessAllowed(t[inst.dst], r[inst.dst], inst.offset, size, WRITE_ATOMIC)
    case Call => inst.src == 0 ==> HelperAllowed(env, s, inst.imm)
    case _ => true
  }

  /** The instruction about to run breaks a provenance rule. */
  predicate BreaksRule(env: Env, s: SafeState)
  {
    s.core.pc < |env.prog| && !Respects(env, s, env.prog[s.core.pc])
  }

  // ---------------------------------------------------------------- one step

  lemma AccessRefused(env: Env, s: SafeState, inst: Inst)
    requires Decode(inst.opcode).Ldx? || Decode(inst.opcode).St? || Decode(inst.opcode).Stx?
    ensures SafeExecute(env, s, inst).Fail? <==> !Respects(env, s, inst)
  {
    DecodeSizes(inst.opcode);
    var size, r := Decode(inst.opcode).size, if Decode(inst.opcode).Ldx? then inst.src else inst.dst;
    AccessExact(s.tags[r], s.core.regs[r], inst.offset, size, if Decode(inst.opcode).Ldx? then READ else WRITE);
    hide Decode, ComputeAccess, AccessAllowed, LoadWord, LoadSigned, Store, IsStackPointer, Invalidate;
  }

  lemma AtomicRefused(env: Env, s: SafeState, inst: Inst)
    requires Decode(inst.opcode).Atomic?
    ensures SafeExecute(env, s, inst).Fail? <==> !Respects(env, s, inst) || !AtomicKnown(AtomicCode(inst.imm))
    ensures !AtomicKnown(AtomicCode(inst.imm)) ==> Legacy.Execute(env, s.core, inst).Fail?
  {
    DecodeSizes(inst.opcode);
    AccessExact(s.tags[inst.dst], s.core.regs[inst.dst], inst.offset, Decode(inst.opcode).size, WRITE_ATOMIC);
    hide Decode, ComputeAccess, AccessAllowed, WithAtomicResult, Invalidate, Legacy.Access, AtomicKnown, AtomicCode;
  }

  lemma CallRefused(env: Env, s: SafeState, inst: Inst)
    requires Decode(inst.opcode).Call?
    ensures SafeExecute(env, s, inst).Fail? <==>
              !Respects(env, s, inst) || Legacy.Execute(env, s.core, inst).Fail?
  {
    hide Decode, FindRegion, PushFrame, HelperArgs, ScratchTags;
  }

  lemma AluRefused(env: Env, s: SafeState, inst: Inst)
    requires Decode(inst.opcode).Alu? || Decode(inst.opcode).End?
    ensures SafeExecute(env, s, inst).Fail? <==> !Respects(env, s, inst)
  {
    var op, r, t := Decode(inst.opcode), s.core.regs, s.tags;
    if op.Alu? {
      ArithmeticExact(op.wide, op.alu, op.fromReg, inst.offset, t[inst.dst], t[inst.src],
                      AluValue(op.wide, op.alu, op.fromReg, inst.offset, r[inst.dst], Operand(op.fromReg, inst, r)));
    }
    hide Decode, AluTag, AluValue, EndValue, Operand, ArithmeticAllowed;
  }

  lemma ExecuteRefused(env: Env, s: SafeState, inst: Inst)
    requires CallbackAcceptsRegions(env) && Inv(env, s)
    ensures SafeExecute(env, s, inst).Fail? <==>
              !Respects(env, s, inst) || Legacy.Execute(env, s.core, inst).Fail?
  {
    ExecuteErases(env, s, inst);
    hide Decode, Inv, AluTag, AluValue, EndValue, Taken, Operand, SafeLoad, SafeStore, SafeAtomic, SafeCall, PopFrame,
         Legacy.Access, Legacy.StoreTo, Legacy.CallStep, CallbackAcceptsRegions, WideImmediate, HelperAllowed,
         ArithmeticAllowed, AccessAllowed, AtomicKnown, AtomicCode;
    match Decode(inst.opcode)
    case Alu(_, _, _) => AluRefused(env, s, inst);
    case End(_) => AluRefused(env, s, inst);
    case Ldx(_, _) => AccessRefused(env, s, inst);
    case St(_) => AccessRefused(env, s, inst);
    case Stx(_) => AccessRefused(env, s, inst);
    case Atomic(_) => AtomicRefused(env, s, inst);
    case Call => CallRefused(env, s, inst);
    case _ =>
  }

  /** The rules look at registers, tags and memory only, not at the counter, the limit or the frames. */
  lemma RulesIgnoreEnter(env: Env, s: SafeState, inst: Inst)
    ensures Respects(env, s.(core := Enter(env, s.core)), inst) == Respects(env, s, inst)
  {
    hide Decode, ArithmeticAllowed, AccessAllowed, AluValue, Operand, FindRegion;
  }

  /** A step stops exactly where the legacy step stops or a rule is broken. */
  lemma StepRefused(env: Env, s: SafeState)
    requires CallbackAcceptsRegions(env) && Inv(env, s)
    ensures SafeStep(env, s).Fail? <==> BreaksRule(env, s) || Legacy.Step(env, s.core).Fail?
  {
    hide SafeExecute, Legacy.Execute, TagOk, SavedOk, SlotInStack, CallbackAcceptsRegions, Respects;
    if s.core.pc < |env.prog| {
      var inst := env.prog[s.core.pc];
      ExecuteRefused(env, s.(core := Enter(env, s.core)), inst);
      RulesIgnoreEnter(env, s, inst);
    }
  }

  // ---------------------------------------------------------------- whole runs

  /** Some step before the `n`th of the safe run breaks a rule. */
  ghost predicate RunBreaksRule(env: Env, s: SafeState, n: nat)
  {
    exists k: nat :: k < n && SafeRun(env, s, k).Next? && BreaksRule(env, SafeRun(env, s, k).state)
  }

  /**
    The safe profile refuses a run exactly when the legacy interpreter does or some step of it breaks a provenance
    rule. So a program that respects the rules behaves in the safe profile just as it does in the legacy one.
    */
  lemma {:induction false} RunRefused(env: Env, regs: Regs, mem: Memory, n: nat)
    requires NoReservedIds(env.regions) && CallbackAcceptsRegions(env)
    ensures SafeRun(env, SafeInitial(env, regs, mem), n).Fail? <==>
              RunBreaksRule(env, SafeInitial(env, regs, mem), n) || Legacy.Run(env, Initial(env, regs, mem), n).Fail?
  {
    hide SafeStep, Legacy.Step, Inv, Initial, SafeInitial, NoReservedIds, CallbackAcceptsRegions, BreaksRule;
    var s0 := SafeInitial(env, regs, mem);
    if n > 0 {
      RunRefused(env, regs, mem, n - 1);
      RunErases(env, regs, mem, n - 1);
      var o := SafeRun(env, s0, n - 1);
      if o.Next? {
        ReachableInv(env, regs, mem, n - 1);
        StepRefused(env, o.state);
        StepErases(env, o.state);
      }
    }
  }
}
