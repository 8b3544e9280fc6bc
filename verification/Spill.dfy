/**
  Spilled pointers. The interpreter's spill-slot bookkeeping is compared with the plain reading of the run:
  the last write that touched a stack word, and whether it was an aligned 64-bit register store.
  */
module Spill {
  import opened Words
  import opened Isa
  import opened Semantics
  import opened Machine
  import opened Safe
  import opened SafeInvariant
  import opened MemorySafety

  /** The stack does not wrap and no other root overlaps it. */
  ghost predicate StackIsolated(env: Env)
  {
    && env.stack + env.stackLen < 0x1_0000_0000_0000_0000
    && (forall id: u32 :: id != STACK_ID && RootOf(env, id).Some? ==>
          RootOf(env, id).value.end <= env.stack || env.stack + env.stackLen <= RootOf(env, id).value.base)
  }

  /** Helpers do not write the stack. */
  ghost predicate HelpersKeepStack(env: Env)
  {
    forall i: int, args: seq<u64>, m: Memory, x: u64 ::
      env.stack <= x < env.stack + env.stackLen ==> ByteAt(env.helper(i, args, m).mem, x) == ByteAt(m, x)
  }

  datatype SlotEffect = Keep | Spills(value: u64, tag: Tag) | Clobbers

  function SlotAddress(env: Env, k: int): int { env.stack + 8 * k }

  /** What an instruction does to stack word `k`, read off the instruction and its address alone. */
  function EffectOf(env: Env, s: SafeState, inst: Inst, k: int): SlotEffect
  {
    var access, w := AccessOf(s, inst), SlotAddress(env, k);
    if access.None? || !access.value.need.write then Keep
    else if access.value.addr + access.value.size <= w || w + 8 <= access.value.addr then Keep
    else if Decode(inst.opcode) == Stx(8) && access.value.addr == w then Spills(s.core.regs[inst.src], s.tags[inst.src])
    else Clobbers
  }

  function EffectOn(env: Env, s: SafeState, k: int): SlotEffect
  {
    if s.core.pc < |env.prog| then EffectOf(env, s, env.prog[s.core.pc], k) else Keep
  }

  datatype Spilled = Spilled(value: u64, tag: Tag)

  /** The register spilled to word `k` by the last write that touched it in the first `n` steps, if it was a spill. */
  function LastSpill(env: Env, s: SafeState, n: nat, k: int): Option<Spilled>
  {
    if n == 0 then None
    else
      var o := SafeRun(env, s, n - 1);
      if !o.Next? then None
      else
        match EffectOn(env, o.state, k)
        case Keep => LastSpill(env, s, n - 1, k)
        case Spills(v, t) => Some(Spilled(v, t))
        case Clobbers => None
  }

  /** The interpreter's view of word `k`: its tag if the slot is valid, with the bytes now in memory. */
  function SlotView(env: Env, s: SafeState, k: int): Option<Spilled>
  {
    if k in s.spills then Some(Spilled(ToU64(Load(s.core.mem, SlotAddress(env, k), 8)), s.spills[k])) else None
  }

  function Effect(e: SlotEffect, before: Option<Spilled>): Option<Spilled>
  {
    match e
    case Keep => before
    case Spills(v, t) => Some(Spilled(v, t))
    case Clobbers => None
  }

  // ---------------------------------------------------------------- one step

  lemma StackFits(env: Env)
    requires StackIsolated(env)
    ensures env.stack + env.stackLen < 0x1_0000_0000_0000_0000
  {
  }

  /** A write that overlaps the stack goes through a stack tag. */
  lemma OverlapIsStack(env: Env, s: SafeState, r: u4, offset: i16, size: nat, need: Perms)
    requires StackIsolated(env) && Inv(env, s) && size > 0
    requires ComputeAccess(s.tags[r], s.core.regs[r], offset, size, need).Ok?
    ensures var addr := ComputeAccess(s.tags[r], s.core.regs[r], offset, size, need).value;
      addr + size < 0x1_0000_0000_0000_0000 &&
      if s.tags[r].id == STACK_ID
      then IsStackPointer(env, s.tags[r]) && env.stack <= addr && addr + size <= env.stack + env.stackLen
      else addr + size <= env.stack || env.stack + env.stackLen <= addr
  {
    assert TagOk(env, s.tags[r]);
    hide Inv, FindRegion;
  }

  /** Invalidation drops exactly the slots the bytes fall in. */
  lemma InvalidateSlots(env: Env, spills: map<int, Tag>, addr: u64, size: nat, k: int)
    requires env.stack + env.stackLen < 0x1_0000_0000_0000_0000 && size > 0 && SlotInStack(env, k)
    requires addr + size < 0x1_0000_0000_0000_0000
    requires if env.stack <= addr < env.stack + env.stackLen then addr + size <= env.stack + env.stackLen
             else addr + size <= env.stack || env.stack + env.stackLen <= addr
    ensures var w := SlotAddress(env, k); var r := Invalidate(env, spills, addr, size);
      if addr + size <= w || w + 8 <= addr then (k in r <==> k in spills) && (k in spills ==> r[k] == spills[k])
      else k !in r
  {
  }

  lemma StoreOnSlot(env: Env, s: SafeState, inst: Inst, size: nat, v: u64, keepTag: bool, k: int)
    requires StackIsolated(env) && Inv(env, s) && SlotInStack(env, k) && size > 0 && keepTag == (keepTag && size == 8)
    requires SafeStore(env, s, inst, size, v, keepTag).Next?
    ensures ComputeAccess(s.tags[inst.dst], s.core.regs[inst.dst], inst.offset, size, WRITE).Ok?
    ensures var t := SafeStore(env, s, inst, size, v, keepTag).state;
      var addr := ComputeAccess(s.tags[inst.dst], s.core.regs[inst.dst], inst.offset, size, WRITE).value;
      var w := SlotAddress(env, k);
      SlotView(env, t, k) ==
        if addr + size <= w || w + 8 <= addr then SlotView(env, s, k)
        else if keepTag && addr == w then Some(Spilled(v, s.tags[inst.src]))
        else None
  {
    hide Inv, StackIsolated, ComputeAccess, Load, Store, Invalidate, Pow2;
    OverlapIsStack(env, s, inst.dst, inst.offset, size, WRITE);
    StackFits(env);
    var addr := ComputeAccess(s.tags[inst.dst], s.core.regs[inst.dst], inst.offset, size, WRITE).value;
    var w := SlotAddress(env, k);
    InvalidateSlots(env, s.spills, addr, size, k);
    if addr + size <= w || w + 8 <= addr {
      LoadOutsideStore(s.core.mem, addr, v, size, w, 8);
      assert IsStackPointer(env, s.tags[inst.dst]) && keepTag && (addr - env.stack) % 8 == 0
             ==> (addr - env.stack) / 8 != k;
    } else if keepTag && addr == w {
      Pow2Widths();
      LoadStored(s.core.mem, addr, v, 8);
    }
  }

  lemma AtomicOnSlot(env: Env, s: SafeState, inst: Inst, size: nat, k: int)
    requires StackIsolated(env) && Inv(env, s) && SlotInStack(env, k) && (size == 4 || size == 8)
    requires SafeAtomic(env, s, inst, size).Next?
    ensures ComputeAccess(s.tags[inst.dst], s.core.regs[inst.dst], inst.offset, size, WRITE_ATOMIC).Ok?
    ensures var t := SafeAtomic(env, s, inst, size).state;
      var addr := ComputeAccess(s.tags[inst.dst], s.core.regs[inst.dst], inst.offset, size, WRITE_ATOMIC).value;
      var w := SlotAddress(env, k);
      SlotView(env, t, k) == if addr + size <= w || w + 8 <= addr then SlotView(env, s, k) else None
  {
    hide Inv, StackIsolated, ComputeAccess, Load, Store, Invalidate, AtomicValue;
    OverlapIsStack(env, s, inst.dst, inst.offset, size, WRITE_ATOMIC);
    StackFits(env);
    var addr := ComputeAccess(s.tags[inst.dst], s.core.regs[inst.dst], inst.offset, size, WRITE_ATOMIC).value;
    var w := SlotAddress(env, k);
    InvalidateSlots(env, s.spills, addr, size, k);
    if addr + size <= w || w + 8 <= addr {
      var was := LoadWord(s.core.mem, addr, size);
      var now := AtomicValue(size == 8, AtomicCode(inst.imm), was, s.core.regs[inst.src], s.core.regs[0]);
      LoadOutsideStore(s.core.mem, addr, now, size, w, 8);
    }
  }

  lemma HelperOnSlot(env: Env, s: SafeState, inst: Inst, k: int)
    requires StackIsolated(env) && HelpersKeepStack(env) && SlotInStack(env, k)
    requires SafeCall(env, s, inst).Next?
    ensures SlotView(env, SafeCall(env, s, inst).state, k) == SlotView(env, s, k)
  {
    hide ByteAt, FindRegion, HelperTag, Load;
    if inst.src == 0 {
      var m' := env.helper(inst.imm, HelperArgs(s.core), s.core.mem).mem;
      LoadDepends(m', s.core.mem, SlotAddress(env, k), 8);
    }
  }

  lemma PlainOnSlot(env: Env, s: SafeState, inst: Inst, k: int)
    requires var op := Decode(inst.opcode); !op.St? && !op.Stx? && !op.Atomic? && !op.Call?
    requires SafeExecute(env, s, inst).Next?
    ensures SlotView(env, SafeExecute(env, s, inst).state, k) == SlotView(env, s, k)
  {
    hide Decode, AluTag, AluValue, EndValue, Taken, Operand, ComputeAccess, LoadWord, LoadSigned, Load, WideImmediate,
         IsStackPointer;
  }

  lemma ExecuteOnSlot(env: Env, s: SafeState, inst: Inst, k: int)
    requires StackIsolated(env) && HelpersKeepStack(env) && Inv(env, s) && SlotInStack(env, k)
    requires SafeExecute(env, s, inst).Next?
    ensures SlotView(env, SafeExecute(env, s, inst).state, k) == Effect(EffectOf(env, s, inst, k), SlotView(env, s, k))
  {
    hide Decode, Inv, StackIsolated, HelpersKeepStack, ComputeAccess, SafeStore, SafeAtomic, SafeCall, SafeLoad, Load,
         SlotInStack, SlotView, AluTag, AluValue, EndValue, Taken, Operand, SafeReturn, Tagged, WideImmediate;
    DecodeSizes(inst.opcode);
    match Decode(inst.opcode)
    case St(size) => StoreOnSlot(env, s, inst, size, ToU64(inst.imm), false, k);
    case Stx(size) => StoreOnSlot(env, s, inst, size, s.core.regs[inst.src], size == 8, k);
    case Atomic(size) => AtomicOnSlot(env, s, inst, size, k);
    case Call => HelperOnSlot(env, s, inst, k);
    case _ => PlainOnSlot(env, s, inst, k);
  }

  lemma StepOnSlot(env: Env, s: SafeState, k: int)
    requires StackIsolated(env) && HelpersKeepStack(env) && Inv(env, s) && SlotInStack(env, k)
    requires SafeStep(env, s).Next?
    ensures SlotView(env, SafeStep(env, s).state, k) == Effect(EffectOn(env, s, k), SlotView(env, s, k))
  {
    hide SafeExecute, StackIsolated, HelpersKeepStack, TagOk, SavedOk, SlotInStack, Decode, ComputeAccess, Load;
    var t, inst := s.(core := Enter(env, s.core)), env.prog[s.core.pc];
    assert EffectOf(env, t, inst, k) == EffectOf(env, s, inst, k);
    ExecuteOnSlot(env, t, inst, k);
  }

  // ---------------------------------------------------------------- whole runs

  /**
    Spill agreement. After any run, stack word `k` is a valid spill slot exactly when the last write that
    touched it was an aligned 64-bit register store, and then its tag and the eight bytes in memory are the
    tag and value that store wrote.
    */
  lemma {:induction false} SlotsAgreeWithRun(env: Env, regs: Regs, mem: Memory, n: nat, k: int)
    requires NoReservedIds(env.regions) && StackIsolated(env) && HelpersKeepStack(env) && SlotInStack(env, k)
    ensures var s0 := SafeInitial(env, regs, mem); var o := SafeRun(env, s0, n);
      o.Next? ==> SlotView(env, o.state, k) == LastSpill(env, s0, n, k)
  {
    hide SafeStep, EffectOn, Inv, StackIsolated, HelpersKeepStack, NoReservedIds, SlotInStack, Initial;
    var s0 := SafeInitial(env, regs, mem);
    if n > 0 {
      var o := SafeRun(env, s0, n - 1);
      SlotsAgreeWithRun(env, regs, mem, n - 1, k);
      ReachableInv(env, regs, mem, n - 1);
      if o.Next? && SafeStep(env, o.state).Next? {
        StepOnSlot(env, o.state, k);
      }
    }
  }

  /** The next step is a 64-bit load of stack word `k` through a stack tag. */
  predicate Reloads(env: Env, s: SafeState, k: int)
  {
    && s.core.pc < |env.prog|
    && var inst := env.prog[s.core.pc];
       && Decode(inst.opcode) == Ldx(8, false)
       && IsStackPointer(env, s.tags[inst.src])
       && ComputeAccess(s.tags[inst.src], s.core.regs[inst.src], inst.offset, 8, READ) == Ok(SlotAddress(env, k))
  }

  /**
    Reloading a spilled register. In any run, an aligned 64-bit load from the stack into another register
    gives back the last spilled value with its tag, or a scalar if anything else wrote the word since;
    a load that overwrites its own base register always gives a scalar.
    */
  lemma ReloadGivesLastSpill(env: Env, regs: Regs, mem: Memory, n: nat, k: int)
    requires NoReservedIds(env.regions) && StackIsolated(env) && HelpersKeepStack(env)
    requires var o := SafeRun(env, SafeInitial(env, regs, mem), n);
      o.Next? && Reloads(env, o.state, k) && SafeStep(env, o.state).Next?
    ensures var s0 := SafeInitial(env, regs, mem); var s := SafeRun(env, s0, n).state;
      var t, inst, last := SafeStep(env, s).state, env.prog[s.core.pc], LastSpill(env, s0, n, k);
      if inst.dst == inst.src || last.None? then t.tags[inst.dst] == Scalar
      else t.tags[inst.dst] == last.value.tag && t.core.regs[inst.dst] == last.value.value
  {
    var s := SafeRun(env, SafeInitial(env, regs, mem), n).state;
    ReachableInv(env, regs, mem, n);
    var inst := env.prog[s.core.pc];
    StackSlot(env, s, inst.src, inst.offset, READ);
    assert (SlotAddress(env, k) - env.stack) / 8 == k && (SlotAddress(env, k) - env.stack) % 8 == 0;
    SlotsAgreeWithRun(env, regs, mem, n, k);
    ReloadStep(env, s, k);
    hide *;
  }

  lemma ReloadStep(env: Env, s: SafeState, k: int)
    requires Reloads(env, s, k) && SafeStep(env, s).Next?
    ensures var t, inst, view := SafeStep(env, s).state, env.prog[s.core.pc], SlotView(env, s, k);
      if inst.dst == inst.src || view.None? then t.tags[inst.dst] == Scalar
      else t.tags[inst.dst] == view.value.tag && t.core.regs[inst.dst] == view.value.value
  {
    hide Decode, ComputeAccess, Load;
    var inst := env.prog[s.core.pc];
    assert Load(s.core.mem, SlotAddress(env, k), 8) == LoadWord(s.core.mem, SlotAddress(env, k), 8);
  }
}
