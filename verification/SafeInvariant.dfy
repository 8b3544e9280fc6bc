/**
  Memory safety of the safe profile: in every reachable state every pointer tag is a window of one
  root (input, stack or a registered region) with that root's permissions, and every access stays inside.
  */
module SafeInvariant {
  import opened Words
  import opened Isa
  import opened Semantics
  import opened Machine
  import opened Safe

  /** A block of memory a program may be given access to; `end` is one past its last byte. */
  datatype Root = Root(base: int, end: int, perms: Perms)

  function RootOf(env: Env, id: u32): Option<Root>
  {
    if id == STACK_ID then Some(Root(env.stack, env.stack + env.stackLen, ALL_PERMS))
    else if id == INPUT_ID then
      if env.mem != 0 && env.memLen > 0 then Some(Root(env.mem, env.mem + env.memLen, ALL_PERMS)) else None
    else
      match FindRegion(env.regions, id)
      case None => None
      case Some(g) => if g.kind.PointerRegion? then Some(Root(g.base, g.end, g.perms)) else None
  }

  /** Reserved ids are never registered, so a lookup of one finds nothing. */
  ghost predicate NoReservedIds(regions: seq<Option<Region>>)
  {
    forall i :: 0 <= i < |regions| && regions[i].Some? ==> regions[i].value.id !in {INPUT_ID, STACK_ID}
  }

  ghost predicate TagOk(env: Env, t: Tag)
  {
    t.Pointer? ==>
      var root := RootOf(env, t.id);
      && root.Some?
      && root.value.base <= t.base
      && t.base + t.size <= root.value.end
      && t.perms == root.value.perms
      && (t.id in {INPUT_ID, STACK_ID} ==> t.base == root.value.base && t.base + t.size == root.value.end)
  }

  ghost predicate SavedOk(env: Env, f: SavedTags)
  {
    TagOk(env, f.t6) && TagOk(env, f.t7) && TagOk(env, f.t8) && TagOk(env, f.t9)
  }

  /** A spill slot is a whole aligned word of the stack. */
  predicate SlotInStack(env: Env, k: int) { 0 <= k && 8 * k + 8 <= env.stackLen }

  ghost predicate Inv(env: Env, s: SafeState)
  {
    && (forall r :: 0 <= r < 16 ==> TagOk(env, s.tags[r]))
    && (forall k :: k in s.spills ==> SlotInStack(env, k) && TagOk(env, s.spills[k]))
    && (forall d :: 0 <= d < s.core.depth ==> SavedOk(env, s.saved[d]))
  }

  lemma InitialInv(env: Env, regs: Regs, mem: Memory)
    ensures Inv(env, SafeInitial(env, regs, mem))
  {
  }

  lemma {:induction false} FindReserved(regions: seq<Option<Region>>, id: u32)
    requires NoReservedIds(regions)
    ensures FindRegion(regions, id).Some? ==> FindRegion(regions, id).value.id == id && id !in {INPUT_ID, STACK_ID}
  {
    if regions != [] {
      FindReserved(regions[1..], id);
    }
  }

  lemma AluTagOk(env: Env, wide: bool, alu: AluOp, fromReg: bool, offset: i16, dst: Tag, src: Tag, v: u64)
    requires TagOk(env, dst) && TagOk(env, src)
    ensures var t := AluTag(wide, alu, fromReg, offset, dst, src, v); t.Ok? ==> TagOk(env, t.value)
  {
  }

  lemma HelperTagOk(env: Env, meta: HelperMeta, v: u64)
    requires NoReservedIds(env.regions)
    requires meta.kind.ScalarResult? || FindRegion(env.regions, meta.id).Some?
    ensures var t := HelperTag(meta, FindRegion(env.regions, meta.id), v); t.Ok? ==> TagOk(env, t.value)
  {
    FindReserved(env.regions, meta.id);
  }

  lemma LoadKeepsInv(env: Env, s: SafeState, inst: Inst, size: nat, sx: bool)
    requires Inv(env, s) && size <= 8
    ensures var o := SafeLoad(env, s, inst, size, sx); o.Next? ==> Inv(env, o.state)
  {
    hide TagOk, LoadWord, LoadSigned;
    assert TagOk(env, Scalar) by { TagOkScalar(env); }
  }

  lemma TagOkScalar(env: Env)
    ensures TagOk(env, Scalar)
  {
  }

  /** The access a stack tag allows lies in whole slots of the stack. */
  lemma StackSlot(env: Env, s: SafeState, r: u4, offset: i16, need: Perms)
    requires Inv(env, s) && IsStackPointer(env, s.tags[r])
    ensures var c := ComputeAccess(s.tags[r], s.core.regs[r], offset, 8, need);
      c.Ok? && (c.value - env.stack) % 8 == 0 ==> SlotInStack(env, (c.value - env.stack) / 8)
  {
  }

  lemma StoreKeepsInv(env: Env, s: SafeState, inst: Inst, size: nat, v: u64, keepTag: bool)
    requires Inv(env, s)
    ensures var o := SafeStore(env, s, inst, size, v, keepTag); o.Next? ==> Inv(env, o.state)
  {
    if IsStackPointer(env, s.tags[inst.dst]) {
      StackSlot(env, s, inst.dst, inst.offset, WRITE);
    }
    hide TagOk, Store, SlotInStack;
  }

  lemma AtomicKeepsInv(env: Env, s: SafeState, inst: Inst, size: nat)
    requires Inv(env, s) && (size == 4 || size == 8)
    ensures var o := SafeAtomic(env, s, inst, size); o.Next? ==> Inv(env, o.state)
  {
    TagOkScalar(env);
    hide TagOk, ComputeAccess, SlotInStack, AtomicValue;
  }

  lemma ReturnKeepsInv(env: Env, s: SafeState)
    requires Inv(env, s) && s.core.depth > 0
    ensures Inv(env, SafeReturn(s))
  {
    TagOkScalar(env);
    assert SavedOk(env, s.saved[s.core.depth - 1]);
    hide TagOk, SlotInStack;
  }

  lemma CallKeepsInv(env: Env, s: SafeState, inst: Inst)
    requires NoReservedIds(env.regions) && Inv(env, s)
    ensures var o := SafeCall(env, s, inst); o.Next? ==> Inv(env, o.state)
  {
    if inst.src == 0 && SafeHelper(env, s, inst).Next? {
      HelperTagOk(env, env.helpers[inst.imm].value, env.helper(inst.imm, HelperArgs(s.core), s.core.mem).value);
    }
    TagOkScalar(env);
    hide TagOk, SlotInStack, HelperTag;
  }

  lemma ExecuteKeepsInv(env: Env, s: SafeState, inst: Inst)
    requires NoReservedIds(env.regions)
    requires Inv(env, s) && SafeExecute(env, s, inst).Next?
    ensures Inv(env, SafeExecute(env, s, inst).state)
  {
    TagOkScalar(env);
    DecodeSizes(inst.opcode);
    hide TagOk, SafeLoad, SafeStore, SafeAtomic, SafeReturn, SafeCall, AluTag, AluValue, EndValue, SlotInStack, Taken;
    match Decode(inst.opcode)
    case Alu(wide, alu, fromReg) =>
      var v := AluValue(wide, alu, fromReg, inst.offset, s.core.regs[inst.dst], Operand(fromReg, inst, s.core.regs));
      AluTagOk(env, wide, alu, fromReg, inst.offset, s.tags[inst.dst], s.tags[inst.src], v);
    case Ldx(size, sx) => LoadKeepsInv(env, s, inst, size, sx);
    case St(size) => StoreKeepsInv(env, s, inst, size, ToU64(inst.imm), false);
    case Stx(size) => StoreKeepsInv(env, s, inst, size, s.core.regs[inst.src], size == 8);
    case Atomic(size) => AtomicKeepsInv(env, s, inst, size);
    case Exit => ReturnKeepsInv(env, s);
    case Call => CallKeepsInv(env, s, inst);
    case _ =>
  }

  lemma StepKeepsInv(env: Env, s: SafeState)
    requires NoReservedIds(env.regions)
    requires Inv(env, s) && SafeStep(env, s).Next?
    ensures Inv(env, SafeStep(env, s).state)
  {
    hide SafeExecute, TagOk, SavedOk, SlotInStack;
    ExecuteKeepsInv(env, s.(core := Enter(env, s.core)), env.prog[s.core.pc]);
  }

  /** Every reachable state satisfies the invariant. */
  lemma {:induction false} ReachableInv(env: Env, regs: Regs, mem: Memory, n: nat)
    requires NoReservedIds(env.regions)
    ensures var o := SafeRun(env, SafeInitial(env, regs, mem), n); o.Next? ==> Inv(env, o.state)
  {
    hide SafeStep, Inv, SafeInitial;
    InitialInv(env, regs, mem);
    if n > 0 {
      ReachableInv(env, regs, mem, n - 1);
      var o := SafeRun(env, SafeInitial(env, regs, mem), n - 1);
      if o.Next? && SafeStep(env, o.state).Next? {
        StepKeepsInv(env, o.state);
      }
    }
  }
}
