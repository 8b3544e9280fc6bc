/**
  Erasing the tags of a safe-profile run gives a legacy run: whatever the safe profile computes,
  the legacy interpreter computes too, in the same number of steps and with the same memory.
  */
module Erasure {
  import opened Words
  import opened Isa
  import opened Semantics
  import opened Machine
  import opened Safe
  import opened SafeInvariant
  import Legacy

  predicate InsidePointerRegion(slot: Option<Region>, a: u64, n: nat)
  {
    slot.Some? && slot.value.kind.PointerRegion? && slot.value.base <= a && a + n <= slot.value.end
  }

  /** The legacy bounds-check callback lets a program reach every registered pointer region. */
  ghost predicate CallbackAcceptsRegions(env: Env)
  {
    forall i, a: u64, n: nat ::
      0 <= i < |env.regions| && InsidePointerRegion(env.regions[i], a, n) ==> env.accepts(a, n)
  }

  lemma {:induction false} FoundIsRegistered(regions: seq<Option<Region>>, id: u32)
    requires FindRegion(regions, id).Some?
    ensures exists i :: 0 <= i < |regions| && regions[i] == FindRegion(regions, id)
  {
    if regions[0].Some? && regions[0].value.id == id {
      assert regions[0] == FindRegion(regions, id);
    } else {
      FoundIsRegistered(regions[1..], id);
      var i :| 0 <= i < |regions[1..]| && regions[1..][i] == FindRegion(regions, id);
      assert regions[i + 1] == FindRegion(regions, id);
    }
  }

  /** An access the safe profile allows also passes the legacy checks, at the same address. */
  lemma AccessPassesLegacy(env: Env, t: Tag, base: u64, offset: i16, size: nat, need: Perms)
    requires CallbackAcceptsRegions(env) && TagOk(env, t)
    requires ComputeAccess(t, base, offset, size, need).Ok?
    ensures Legacy.Access(env, base, offset, size) == Ok(ComputeAccess(t, base, offset, size, need).value)
  {
    var addr := ComputeAccess(t, base, offset, size, need).value;
    if t.id != STACK_ID && t.id != INPUT_ID {
      FoundIsRegistered(env.regions, t.id);
      var i :| 0 <= i < |env.regions| && env.regions[i] == FindRegion(env.regions, t.id);
      assert InsidePointerRegion(env.regions[i], addr, size);
      assert env.accepts(addr, size);
    }
  }

  /** What erasing an outcome of the safe profile must leave. */
  predicate Matches(o: Outcome<SafeState>, l: Outcome<State>)
  {
    match o
    case Next(t) => l == Next(t.core)
    case Done(v, m) => l == Done(v, m)
    case Fail(_) => true
  }

  lemma LoadErases(env: Env, s: SafeState, inst: Inst)
    requires CallbackAcceptsRegions(env) && Inv(env, s) && Decode(inst.opcode).Ldx?
    ensures Matches(SafeExecute(env, s, inst), Legacy.Execute(env, s.core, inst))
  {
    DecodeSizes(inst.opcode);
    hide Decode, TagOk, ComputeAccess, Legacy.BoundsOk, LoadWord, LoadSigned, IsStackPointer;
    var op := Decode(inst.opcode);
    if ComputeAccess(s.tags[inst.src], s.core.regs[inst.src], inst.offset, op.size, READ).Ok? {
      AccessPassesLegacy(env, s.tags[inst.src], s.core.regs[inst.src], inst.offset, op.size, READ);
    }
  }

  lemma StoreErases(env: Env, s: SafeState, inst: Inst, size: nat, v: u64, keepTag: bool)
    requires CallbackAcceptsRegions(env) && Inv(env, s)
    ensures Matches(SafeStore(env, s, inst, size, v, keepTag),
                    Legacy.StoreTo(env, s.core, s.core.regs[inst.dst], inst.offset, size, v))
  {
    hide TagOk, ComputeAccess, Legacy.BoundsOk, Store, IsStackPointer, Invalidate;
    if ComputeAccess(s.tags[inst.dst], s.core.regs[inst.dst], inst.offset, size, WRITE).Ok? {
      AccessPassesLegacy(env, s.tags[inst.dst], s.core.regs[inst.dst], inst.offset, size, WRITE);
    }
  }

  lemma AtomicErases(env: Env, s: SafeState, inst: Inst)
    requires CallbackAcceptsRegions(env) && Inv(env, s) && Decode(inst.opcode).Atomic?
    ensures Matches(SafeExecute(env, s, inst), Legacy.Execute(env, s.core, inst))
  {
    DecodeSizes(inst.opcode);
    hide Decode, TagOk, ComputeAccess, Legacy.BoundsOk, WithAtomicResult, Invalidate;
    var op := Decode(inst.opcode);
    if ComputeAccess(s.tags[inst.dst], s.core.regs[inst.dst], inst.offset, op.size, WRITE_ATOMIC).Ok? {
      AccessPassesLegacy(env, s.tags[inst.dst], s.core.regs[inst.dst], inst.offset, op.size, WRITE_ATOMIC);
    }
  }

  lemma CallErases(env: Env, s: SafeState, inst: Inst)
    ensures Matches(SafeCall(env, s, inst), Legacy.CallStep(env, s.core, inst))
  {
    hide FindRegion, PushFrame, HelperTag;
  }

  lemma ExecuteErases(env: Env, s: SafeState, inst: Inst)
    requires CallbackAcceptsRegions(env) && Inv(env, s)
    ensures Matches(SafeExecute(env, s, inst), Legacy.Execute(env, s.core, inst))
  {
    DecodeSizes(inst.opcode);
    hide Decode, Inv, AluTag, AluValue, EndValue, Taken, Operand, SafeLoad, SafeStore, SafeAtomic, SafeCall, PopFrame,
         Legacy.Access, Legacy.StoreTo, Legacy.CallStep, CallbackAcceptsRegions, WideImmediate;
    match Decode(inst.opcode)
    case Ldx(_, _) => LoadErases(env, s, inst);
    case St(size) => StoreErases(env, s, inst, size, ToU64(inst.imm), false);
    case Stx(size) => StoreErases(env, s, inst, size, s.core.regs[inst.src], size == 8);
    case Atomic(_) => AtomicErases(env, s, inst);
    case Call => CallErases(env, s, inst);
    case _ =>
  }

  lemma StepErases(env: Env, s: SafeState)
    requires CallbackAcceptsRegions(env) && Inv(env, s)
    ensures Matches(SafeStep(env, s), Legacy.Step(env, s.core))
  {
    hide SafeExecute, Legacy.Execute, TagOk, SavedOk, SlotInStack, CallbackAcceptsRegions;
    if s.core.pc < |env.prog| {
      ExecuteErases(env, s.(core := Enter(env, s.core)), env.prog[s.core.pc]);
    }
  }

  /**
    A safe-profile run of any length is matched, step for step, by a legacy run of the same program from
    the same registers and memory; in particular, if it succeeds with a value then so does the legacy run,
    with the same value and the same final memory.
    */
  lemma {:induction false} RunErases(env: Env, regs: Regs, mem: Memory, n: nat)
    requires NoReservedIds(env.regions) && CallbackAcceptsRegions(env)
    ensures Matches(SafeRun(env, SafeInitial(env, regs, mem), n), Legacy.Run(env, Initial(env, regs, mem), n))
  {
    hide SafeStep, Legacy.Step, Inv, Initial, NoReservedIds, CallbackAcceptsRegions;
    if n > 0 {
      RunErases(env, regs, mem, n - 1);
      ReachableInv(env, regs, mem, n - 1);
      var o := SafeRun(env, SafeInitial(env, regs, mem), n - 1);
      if o.Next? {
        StepErases(env, o.state);
      }
    }
  }
}
