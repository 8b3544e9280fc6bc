/** A value tagged as a pointer outside the stack always lies between its window's base and one past its end. */
module PointerWindows {
  import opened Words
  import opened Isa
  import opened Semantics
  import opened Machine
  import opened Safe
  import opened SafeInvariant
  import opened Spill

  predicate InWindow(t: Tag, v: u64)
  {
    t.Pointer? && t.id != STACK_ID ==> t.base <= v <= t.base + t.size
  }

  predicate SavedInWindow(f: SavedTags, g: Frame)
  {
    InWindow(f.t6, g.r6) && InWindow(f.t7, g.r7) && InWindow(f.t8, g.r8) && InWindow(f.t9, g.r9)
  }

  ghost predicate RegsInWindow(s: SafeState)
  {
    && (forall r :: 0 <= r < 16 ==> InWindow(s.tags[r], s.core.regs[r]))
    && (s.tags[10].Scalar? || (s.tags[10].Pointer? && s.tags[10].id == STACK_ID))
  }

  ghost predicate FramesInWindow(s: SafeState)
  {
    forall d :: 0 <= d < s.core.depth ==> SavedInWindow(s.saved[d], s.core.frames[d])
  }

  predicate SlotInWindow(env: Env, s: SafeState, k: int)
  {
    SlotView(env, s, k).Some? ==> InWindow(SlotView(env, s, k).value.tag, SlotView(env, s, k).value.value)
  }

  ghost predicate WindowInv(env: Env, s: SafeState)
  {
    RegsInWindow(s) && FramesInWindow(s) && (forall k :: SlotInStack(env, k) ==> SlotInWindow(env, s, k))
  }

  lemma AluInWindow(wide: bool, alu: AluOp, fromReg: bool, offset: i16, dst: Tag, src: Tag, a: u64, b: u64, imm: u64)
    requires InWindow(dst, a) && InWindow(src, b)
    ensures var v := AluValue(wide, alu, fromReg, offset, a, if fromReg then b else imm);
      var t := AluTag(wide, alu, fromReg, offset, dst, src, v);
      t.Ok? ==> InWindow(t.value, v)
  {
    hide DivValue, ModValue, Bitwise64, Bitwise32, ShiftAmount, Pow2;
  }

  lemma LoadRegs(env: Env, s: SafeState, inst: Inst, size: nat, sx: bool)
    requires Inv(env, s) && WindowInv(env, s) && size <= 8 && inst.dst != 10
    ensures var o := SafeLoad(env, s, inst, size, sx); o.Next? ==> RegsInWindow(o.state) && FramesInWindow(o.state)
  {
    hide Load, TagOk, SlotInStack;
    var c := ComputeAccess(s.tags[inst.src], s.core.regs[inst.src], inst.offset, size, READ);
    if c.Ok? {
      var k := (c.value - env.stack) / 8;
      if k in s.spills {
        assert SlotInWindow(env, s, k);
        assert (c.value - env.stack) % 8 == 0 ==> SlotAddress(env, k) == c.value;
      }
    }
    hide ComputeAccess;
  }

  lemma AtomicRegs(env: Env, s: SafeState, inst: Inst, size: nat)
    requires RegsInWindow(s) && FramesInWindow(s) && (size == 4 || size == 8)
    ensures var o := SafeAtomic(env, s, inst, size); o.Next? ==> RegsInWindow(o.state) && FramesInWindow(o.state)
  {
    hide ComputeAccess, Load, Store, AtomicValue, Invalidate, SavedInWindow;
  }

  lemma StoreRegs(env: Env, s: SafeState, inst: Inst, size: nat, v: u64, keepTag: bool)
    requires RegsInWindow(s) && FramesInWindow(s)
    ensures var o := SafeStore(env, s, inst, size, v, keepTag); o.Next? ==> RegsInWindow(o.state) && FramesInWindow(o.state)
  {
    hide ComputeAccess, Store, Invalidate, SavedInWindow, InWindow;
  }

  lemma CallRegs(env: Env, s: SafeState, inst: Inst)
    requires RegsInWindow(s) && FramesInWindow(s)
    ensures var o := SafeCall(env, s, inst); o.Next? ==> RegsInWindow(o.state) && FramesInWindow(o.state)
  {
    if inst.src == 0 {
      hide FindRegion, SavedInWindow;
    } else {
      hide SafeHelper;
    }
  }

  lemma ReturnRegs(s: SafeState)
    requires RegsInWindow(s) && FramesInWindow(s) && s.core.depth > 0
    ensures RegsInWindow(SafeReturn(s)) && FramesInWindow(SafeReturn(s))
  {
    assert SavedInWindow(s.saved[s.core.depth - 1], s.core.frames[s.core.depth - 1]);
  }

  lemma ExecuteRegs(env: Env, s: SafeState, inst: Inst)
    requires DstNotR10(inst) && Inv(env, s) && WindowInv(env, s) && SafeExecute(env, s, inst).Next?
    ensures var t := SafeExecute(env, s, inst).state; RegsInWindow(t) && FramesInWindow(t)
  {
    DecodeSizes(inst.opcode);
    hide Decode, Inv, AluTag, AluValue, EndValue, Taken, SafeLoad, SafeStore, SafeAtomic, SafeReturn, SafeCall,
         WideImmediate, SlotInWindow, SavedInWindow;
    match Decode(inst.opcode)
    case Alu(wide, alu, fromReg) =>
      AluInWindow(wide, alu, fromReg, inst.offset, s.tags[inst.dst], s.tags[inst.src],
                  s.core.regs[inst.dst], s.core.regs[inst.src], ToU64(inst.imm));
    case Ldx(size, sx) => LoadRegs(env, s, inst, size, sx);
    case St(size) => StoreRegs(env, s, inst, size, ToU64(inst.imm), false);
    case Stx(size) => StoreRegs(env, s, inst, size, s.core.regs[inst.src], size == 8);
    case Atomic(size) => AtomicRegs(env, s, inst, size);
    case Exit => ReturnRegs(s);
    case Call => CallRegs(env, s, inst);
    case _ =>
  }

  lemma StepKeepsWindows(env: Env, s: SafeState)
    requires StackIsolated(env) && HelpersKeepStack(env) && KeepsR10(env.prog)
    requires Inv(env, s) && WindowInv(env, s) && SafeStep(env, s).Next?
    ensures WindowInv(env, SafeStep(env, s).state)
  {
    hide SafeExecute, TagOk, SavedOk, SlotInStack, InWindow, StackIsolated, HelpersKeepStack, EffectOf, Load;
    var t, inst := s.(core := Enter(env, s.core)), env.prog[s.core.pc];
    EnterKeepsWindows(env, s);
    assert DstNotR10(inst);
    ExecuteRegs(env, t, inst);
    var u := SafeStep(env, s).state;
    forall k | SlotInStack(env, k)
      ensures SlotInWindow(env, u, k)
    {
      StepOnSlot(env, s, k);
      assert SlotInWindow(env, s, k);
      EffectInWindow(env, s, inst, k);
    }
  }

  lemma EnterKeepsWindows(env: Env, s: SafeState)
    requires WindowInv(env, s)
    ensures WindowInv(env, s.(core := Enter(env, s.core)))
  {
    var t := s.(core := Enter(env, s.core));
    hide InWindow, Load, SlotInStack;
    forall k | SlotInStack(env, k)
      ensures SlotInWindow(env, t, k)
    {
      assert SlotInWindow(env, s, k);
    }
  }

  lemma EffectInWindow(env: Env, s: SafeState, inst: Inst, k: int)
    requires RegsInWindow(s)
    ensures var e := EffectOf(env, s, inst, k); e.Spills? ==> InWindow(e.tag, e.value)
  {
  }

  /**
    In every reachable state of a program that leaves r10 alone, each register, each register saved by a live
    call and each valid spill slot that is tagged as a pointer outside the stack holds an address from its
    window's base to one past its end.
    */
  lemma {:induction false} ReachableWindows(env: Env, regs: Regs, mem: Memory, n: nat)
    requires NoReservedIds(env.regions) && StackIsolated(env) && HelpersKeepStack(env) && KeepsR10(env.prog)
    ensures var o := SafeRun(env, SafeInitial(env, regs, mem), n); o.Next? ==> WindowInv(env, o.state)
  {
    hide SafeStep, Inv, NoReservedIds, StackIsolated, HelpersKeepStack, KeepsR10, Load, SlotInStack;
    if n > 0 {
      ReachableWindows(env, regs, mem, n - 1);
      ReachableInv(env, regs, mem, n - 1);
      var o := SafeRun(env, SafeInitial(env, regs, mem), n - 1);
      if o.Next? && SafeStep(env, o.state).Next? {
        StepKeepsWindows(env, o.state);
      }
    }
  }
}
