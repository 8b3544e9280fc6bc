/**
  What a step of the safe profile does to the provenance tags, told by the opcode byte and stated on registers and tags
  alone; what follows for copies of a pointer, and what a program can reach at first.
  */
module TagLaws {
  import opened Words
  import opened Isa
  import opened Semantics
  import opened Machine
  import opened Safe
  import opened Refusals
  import L = InstructionLaws
  import Legacy

  /** There is an instruction to execute and the limit allows it. */
  predicate SafeReady(env: Env, s: SafeState) { L.Ready(env, s.core) }

  function Current(env: Env, s: SafeState): Inst
    requires SafeReady(env, s)
  {
    env.prog[s.core.pc]
  }

  lemma SafeStepIs(env: Env, s: SafeState)
    requires SafeReady(env, s)
    ensures SafeStep(env, s) == SafeExecute(env, s.(core := Enter(env, s.core)), Current(env, s))
    ensures Enter(env, s.core).regs == s.core.regs && Enter(env, s.core).mem == s.core.mem && Enter(env, s.core).depth == s.core.depth
  {
    hide SafeExecute;
  }

  /** Only the tag of register `r` may change. */
  predicate OnlyTag(s: SafeState, t: SafeState, r: int)
  {
    (forall k :: 0 <= k < 16 && k != r ==> t.tags[k] == s.tags[k]) && t.spills == s.spills && t.saved == s.saved
  }

  // ---------------------------------------------------------------- arithmetic

  /**
    The tag arithmetic leaves: a register move copies its source's, a pointer moved by a scalar stays that pointer,
    in whichever operand of an addition it stands, and everything else is a scalar.
    */
  function ResultTag(o: u8, offset: i16, dst: Tag, src: Tag): Tag
  {
    var reg := L.FromRegister(o);
    if L.Class(o) == 4 then Scalar
    else if L.Code(o) == 11 then (if reg && offset == 0 then src else Scalar)
    else if L.Code(o) == 0 then (if dst.Pointer? then dst else if reg && src.Pointer? then src else Scalar)
    else if L.Code(o) == 1 then (if dst.Pointer? && !(reg && src.Pointer?) then dst else Scalar)
    else Scalar
  }

  lemma ArithmeticTag(env: Env, s: SafeState)
    requires SafeReady(env, s) && L.IsArithmetic(Current(env, s).opcode) && SafeStep(env, s).Next?
    ensures var inst, t := Current(env, s), SafeStep(env, s).state;
      OnlyTag(s, t, inst.dst) && t.tags[inst.dst] == ResultTag(inst.opcode, inst.offset, s.tags[inst.dst], s.tags[inst.src])
  {
    SafeStepIs(env, s);
    L.ArithmeticDecodes(Current(env, s).opcode);
    hide Decode, SafeStep, AluValue, Enter, Operand;
  }

  /** A 64-bit register move leaves the source's value and tag in the destination. */
  lemma MoveCopies(env: Env, s: SafeState)
    requires SafeReady(env, s) && Current(env, s).opcode == 0xbf && Current(env, s).offset == 0
    ensures SafeStep(env, s).Next?
    ensures var inst, t := Current(env, s), SafeStep(env, s).state;
      && t.core.regs[inst.dst] == s.core.regs[inst.src] && t.tags[inst.dst] == s.tags[inst.src] && OnlyTag(s, t, inst.dst)
      && t.core.mem == s.core.mem && (forall k :: 0 <= k < 16 && k != inst.dst ==> t.core.regs[k] == s.core.regs[k])
  {
    assert Decode(0xbf) == Alu(true, OpMov, true);
    SafeStepIs(env, s);
    hide Decode, SafeStep, Enter;
  }

  /** What the profile allows: pointers moved by scalars within their window, differences of one root's pointers, scalars. */
  predicate Permitted(o: u8, offset: i16, dst: Tag, src: Tag, result: u64)
  {
    var operand := if L.FromRegister(o) then src else Scalar;
    || L.Class(o) == 4
    || (if L.Code(o) == 11 then offset == 0 || operand.Scalar?
        else
          || (dst.Scalar? && operand.Scalar?)
          || (L.Code(o) in {0, 1} && operand.Scalar? && MayPoint(dst, result))
          || (L.Code(o) == 0 && dst.Scalar? && MayPoint(operand, result))
          || (L.Code(o) == 1 && dst.Pointer? && operand.Pointer? && dst.id == operand.id))
  }

  /** Arithmetic is refused exactly where that is not so of the value the legacy interpreter computes, which is the result. */
  lemma ArithmeticRefused(env: Env, s: SafeState)
    requires SafeReady(env, s) && L.IsArithmetic(Current(env, s).opcode)
    ensures Legacy.Step(env, s.core).Next?
    ensures var inst := Current(env, s); var result := Legacy.Step(env, s.core).state.regs[inst.dst];
      if Permitted(inst.opcode, inst.offset, s.tags[inst.dst], s.tags[inst.src], result)
      then SafeStep(env, s).Next? && SafeStep(env, s).state.core == Legacy.Step(env, s.core).state
      else SafeStep(env, s) == Fail(BadPointerArithmetic)
  {
    var inst, e := Current(env, s), Enter(env, s.core);
    var wide, alu, reg := L.Class(inst.opcode) == 7, AluOfCode(L.Code(inst.opcode)), L.FromRegister(inst.opcode);
    L.ArithmeticDecodes(inst.opcode);
    SafeStepIs(env, s);
    L.StepIs(env, s.core);
    hide Decode, SafeStep, AluValue, Enter, Operand, AluTag, ArithmeticAllowed, MayPoint;
    var v := AluValue(wide, alu, reg, inst.offset, e.regs[inst.dst], Operand(reg, inst, e.regs));
    ArithmeticExact(wide, alu, reg, inst.offset, s.tags[inst.dst], s.tags[inst.src], v);
    PermittedIs(inst.opcode, inst.offset, s.tags[inst.dst], s.tags[inst.src], v);
    OneError(wide, alu, reg, inst.offset, s.tags[inst.dst], s.tags[inst.src], v);
    assert Legacy.Step(env, s.core) == Outcome.Next(SetReg(e, inst.dst, v));
  }

  lemma PermittedIs(o: u8, offset: i16, dst: Tag, src: Tag, v: u64)
    requires L.IsArithmetic(o)
    ensures ArithmeticAllowed(L.Class(o) == 7, AluOfCode(L.Code(o)), L.FromRegister(o), offset, dst, src, v) <==>
            Permitted(o, offset, dst, src, v)
  {
    hide MayPoint;
  }

  lemma OneError(wide: bool, alu: AluOp, reg: bool, offset: i16, dst: Tag, src: Tag, v: u64)
    ensures var c := AluTag(wide, alu, reg, offset, dst, src, v); c.Err? ==> c.error == BadPointerArithmetic
  {
  }

  // ---------------------------------------------------------------- accesses

  predicate IsAccess(o: u8) { L.IsLoad(o) || L.IsStore(o) || o in {0xc3, 0xdb} }

  function Base(inst: Inst): u4 { if L.IsLoad(inst.opcode) then inst.src else inst.dst }

  function Needs(o: u8): Perms
  {
    if L.IsLoad(o) then Perms(true, false, false)
    else if L.IsStore(o) then Perms(false, true, false)
    else Perms(false, true, true)
  }

  /** The bytes accessed lie in the window of the base register's pointer, which grants what is needed. */
  predicate Reachable(inst: Inst, tag: Tag, address: u64)
  {
    AccessAllowed(tag, address, inst.offset, L.SizeOf(inst.opcode), Needs(inst.opcode))
  }

  lemma AccessDecodes(o: u8)
    requires IsAccess(o)
    ensures var op := Decode(o);
      && (L.IsLoad(o) ==> op == Ldx(L.SizeOf(o), o >= 0x81))
      && (L.IsStore(o) ==> op == if L.Class(o) == 2 then St(L.SizeOf(o)) else Stx(L.SizeOf(o)))
      && (o in {0xc3, 0xdb} ==> op == Atomic(L.SizeOf(o)))
      && L.SizeOf(o) in {1, 2, 4, 8}
  {
    if L.IsLoad(o) {
      L.LoadDecodes(o);
    } else if L.IsStore(o) {
      L.StoreDecodes(o);
    } else {
      L.AtomicDecodes(o);
    }
  }

  /** Every load, store and atomic operation is let through exactly when its bytes are reachable through the base register. */
  lemma AccessPasses(env: Env, s: SafeState)
    requires SafeReady(env, s) && IsAccess(Current(env, s).opcode)
    requires Current(env, s).opcode in {0xc3, 0xdb} ==> L.KnownAtomic(Current(env, s).imm)
    ensures var inst := Current(env, s);
      SafeStep(env, s).Next? <==> Reachable(inst, s.tags[Base(inst)], s.core.regs[Base(inst)])
  {
    var inst := Current(env, s);
    SafeStepIs(env, s);
    AccessDecodes(inst.opcode);
    L.KnownIs(inst.imm);
    hide Decode, SafeStep, Enter, ComputeAccess, AccessAllowed, IsAccess, L.SizeOf, AtomicKnown, AtomicCode, L.KnownAtomic, L.Class,
         LoadWord, LoadSigned, Store, WithAtomicResult, Invalidate, IsStackPointer;
    AccessExact(s.tags[Base(inst)], s.core.regs[Base(inst)], inst.offset, L.SizeOf(inst.opcode), Needs(inst.opcode));
  }

  /** The same access through another base register. */
  function Through(inst: Inst, r: u4): Inst { if L.IsLoad(inst.opcode) then inst.(src := r) else inst.(dst := r) }

  /**
    After `mov`, an access through the copy passes exactly when the same access through the original does: the program
    with the one in place of the other goes on in the same states.
    */
  lemma CopyReaches(env: Env, s: SafeState, inst: Inst)
    requires s.core.pc + 1 < |env.prog| <= 65535 && (env.limit == 0 || s.core.limit > 1)
    requires env.prog[s.core.pc].opcode == 0xbf && env.prog[s.core.pc].offset == 0
    requires IsAccess(inst.opcode) && (inst.opcode in {0xc3, 0xdb} ==> L.KnownAtomic(inst.imm))
    ensures SafeStep(env, s).Next?
    ensures var copy, t := env.prog[s.core.pc], SafeStep(env, s).state;
      var one, other := env.(prog := env.prog[s.core.pc + 1 := Through(inst, copy.dst)]),
                        env.(prog := env.prog[s.core.pc + 1 := Through(inst, copy.src)]);
      SafeStep(one, t).Next? <==> SafeStep(other, t).Next?
  {
    var copy := env.prog[s.core.pc];
    MoveCopies(env, s);
    MoveAdvances(env, s);
    var t := SafeStep(env, s).state;
    var one, other := env.(prog := env.prog[s.core.pc + 1 := Through(inst, copy.dst)]),
                      env.(prog := env.prog[s.core.pc + 1 := Through(inst, copy.src)]);
    hide SafeStep, AccessAllowed, L.KnownAtomic;
    assert Base(Through(inst, copy.dst)) == copy.dst && Base(Through(inst, copy.src)) == copy.src;
    AccessPasses(one, t);
    AccessPasses(other, t);
  }

  lemma MoveAdvances(env: Env, s: SafeState)
    requires SafeReady(env, s) && Current(env, s).opcode == 0xbf && Current(env, s).offset == 0
    ensures SafeStep(env, s).Next?
    ensures var t := SafeStep(env, s).state;
      t.core.pc == (s.core.pc + 1) % 0x1_0000 && t.core.limit == if env.limit == 0 then s.core.limit else s.core.limit - 1
  {
    assert Decode(0xbf) == Alu(true, OpMov, true);
    SafeStepIs(env, s);
    hide Decode, SafeStep, AluValue, Operand;
  }

  // ---------------------------------------------------------------- loads, stores and atomics

  /** The load of a whole spilled word through a pointer to the whole stack. */
  predicate Reloads(env: Env, s: SafeState, inst: Inst)
  {
    var tag, a := s.tags[inst.src], s.core.regs[inst.src] + inst.offset;
    && inst.opcode == 0x79 && inst.dst != inst.src
    && tag.Pointer? && tag.id == STACK_ID && tag.base == env.stack && tag.size == env.stackLen
    && (a - env.stack) % 8 == 0 && (a - env.stack) / 8 in s.spills
  }

  /** A load leaves the spilled tag for such a word and a scalar otherwise. */
  predicate LoadLeaves(env: Env, s: SafeState, inst: Inst, t: SafeState)
  {
    var a := s.core.regs[inst.src] + inst.offset;
    && OnlyTag(s, t, inst.dst)
    && t.tags[inst.dst] == if Reloads(env, s, inst) then s.spills[(a - env.stack) / 8] else Scalar
  }

  lemma LoadTag(env: Env, s: SafeState)
    requires SafeReady(env, s) && L.IsLoad(Current(env, s).opcode) && SafeStep(env, s).Next?
    ensures LoadLeaves(env, s, Current(env, s), SafeStep(env, s).state)
  {
    hide Decode, SafeStep, SafeExecute, Enter, L.SizeOf, LoadLeaves, SafeLoad, L.IsLoad;
    var inst, e := Current(env, s), s.(core := Enter(env, s.core));
    SafeStepIs(env, s);
    L.LoadDecodes(inst.opcode);
    ExecuteLoads(env, e, inst, L.SizeOf(inst.opcode), inst.opcode >= 0x81);
    WordLoad(inst.opcode);
    SafeLoadTag(env, e, inst, L.SizeOf(inst.opcode), inst.opcode >= 0x81);
    LoadLeavesIgnores(env, s, e, inst, SafeStep(env, s).state);
  }

  lemma WordLoad(o: u8)
    requires L.IsLoad(o)
    ensures o == 0x79 <==> L.SizeOf(o) == 8
    ensures L.SizeOf(o) == 8 ==> o < 0x81
  {
  }

  lemma ExecuteLoads(env: Env, s: SafeState, inst: Inst, n: nat, sx: bool)
    requires n <= 8 && Decode(inst.opcode) == Ldx(n, sx)
    ensures SafeExecute(env, s, inst) == SafeLoad(env, s, inst, n, sx)
  {
    hide Decode, SafeLoad;
  }

  lemma LoadLeavesIgnores(env: Env, s: SafeState, e: SafeState, inst: Inst, t: SafeState)
    requires e.core.regs == s.core.regs && e.tags == s.tags && e.spills == s.spills && e.saved == s.saved
    requires LoadLeaves(env, e, inst, t)
    ensures LoadLeaves(env, s, inst, t)
  {
  }

  lemma SafeLoadTag(env: Env, s: SafeState, inst: Inst, n: nat, sx: bool)
    requires n <= 8 && (n == 8 <==> inst.opcode == 0x79) && (n == 8 ==> !sx) && SafeLoad(env, s, inst, n, sx).Next?
    ensures LoadLeaves(env, s, inst, SafeLoad(env, s, inst, n, sx).state)
  {
    hide ComputeAccess, AccessAllowed, LoadWord, LoadSigned;
    AccessExact(s.tags[inst.src], s.core.regs[inst.src], inst.offset, n, READ);
  }

  /** Stores keep every register's tag, and atomic operations all but that of the register they fetch into. */
  lemma StoreTags(env: Env, s: SafeState)
    requires SafeReady(env, s) && SafeStep(env, s).Next?
    requires L.IsStore(Current(env, s).opcode) || Current(env, s).opcode in {0xc3, 0xdb}
    ensures var inst, t := Current(env, s), SafeStep(env, s).state;
      var r := if L.IsStore(inst.opcode) then L.NONE else L.Fetched(inst);
      && t.saved == s.saved && (forall k :: 0 <= k < 16 ==> t.tags[k] == if k == r then Scalar else s.tags[k])
  {
    var inst := Current(env, s);
    SafeStepIs(env, s);
    if L.IsStore(inst.opcode) { L.StoreDecodes(inst.opcode); } else { L.AtomicDecodes(inst.opcode); }
    hide Decode, SafeStep, Enter, ComputeAccess, Store, WithAtomicResult, Invalidate, IsStackPointer, L.SizeOf;
  }

  // ---------------------------------------------------------------- everything else

  /** Conversions, constants and jumps: the destination of the first two is a scalar, and no other tag changes. */
  lemma PlainTags(env: Env, s: SafeState)
    requires SafeReady(env, s) && SafeStep(env, s).Next?
    requires var o := Current(env, s).opcode; o in {0xd4, 0xdc, 0xd7, 0x18, 0x05, 0x06} || L.IsConditional(o)
    ensures var inst, t := Current(env, s), SafeStep(env, s).state;
      if inst.opcode in {0xd4, 0xdc, 0xd7, 0x18} then OnlyTag(s, t, inst.dst) && t.tags[inst.dst].Scalar? else OnlyTag(s, t, L.NONE)
  {
    var inst := Current(env, s);
    SafeStepIs(env, s);
    L.ConversionDecodes();
    assert Decode(0x05) == Ja && Decode(0x06) == Ja32 && Decode(0x18) == Lddw;
    if L.IsConditional(inst.opcode) { L.ConditionalDecodes(inst.opcode); }
    hide Decode, SafeStep, Enter, EndValue, Taken, Operand, WideImmediate;
  }

  /** A local call changes no tag and saves those of r6 to r9. */
  lemma CallTags(env: Env, s: SafeState)
    requires SafeReady(env, s) && Current(env, s).opcode == 0x85 && Current(env, s).src == 1 && s.core.depth < MAX_CALL_DEPTH
    ensures SafeStep(env, s).Next?
    ensures var t := SafeStep(env, s).state;
      && t.tags == s.tags && t.spills == s.spills
      && t.saved == s.saved[s.core.depth := SavedTags(s.tags[6], s.tags[7], s.tags[8], s.tags[9])]
  {
    SafeStepIs(env, s);
    assert Decode(0x85) == Call;
    hide Decode, SafeStep, Enter;
  }

  /** A return gives r6 to r9 the saved tags, makes r1 to r5 scalars and keeps the other tags. */
  lemma ReturnTags(env: Env, s: SafeState)
    requires SafeReady(env, s) && Current(env, s).opcode == 0x95 && s.core.depth > 0
    ensures SafeStep(env, s).Next?
    ensures var t, f := SafeStep(env, s).state, s.saved[s.core.depth - 1];
      && t.spills == s.spills && t.saved == s.saved
      && t.tags[6] == f.t6 && t.tags[7] == f.t7 && t.tags[8] == f.t8 && t.tags[9] == f.t9
      && (forall k :: 1 <= k <= 5 ==> t.tags[k].Scalar?)
      && (forall k :: k == 0 || 10 <= k < 16 ==> t.tags[k] == s.tags[k])
  {
    SafeStepIs(env, s);
    assert Decode(0x95) == Exit;
    hide Decode, SafeStep, Enter;
  }

  /** The first registered region with the id. */
  lemma {:induction false} FindsFirst(regions: seq<Option<Region>>, id: u32)
    ensures var found := FindRegion(regions, id);
      if found.None? then forall i :: 0 <= i < |regions| && regions[i].Some? ==> regions[i].value.id != id
      else exists i :: 0 <= i < |regions| && regions[i] == found && found.value.id == id &&
             forall j :: 0 <= j < i && regions[j].Some? ==> regions[j].value.id != id
    decreases |regions|
  {
    if regions != [] && !(regions[0].Some? && regions[0].value.id == id) {
      var rest := regions[1..];
      FindsFirst(rest, id);
      var found := FindRegion(rest, id);
      if found.Some? {
        var i :| 0 <= i < |rest| && rest[i] == found && found.value.id == id &&
                 forall j :: 0 <= j < i && rest[j].Some? ==> rest[j].value.id != id;
        assert regions[i + 1] == found;
        forall j | 0 <= j < i + 1 && regions[j].Some?
          ensures regions[j].value.id != id
        {
          if j > 0 { assert rest[j - 1] == regions[j]; }
        }
      } else {
        forall i | 0 <= i < |regions| && regions[i].Some?
          ensures regions[i].value.id != id
        {
          if i > 0 { assert rest[i - 1] == regions[i]; }
        }
      }
    }
  }

  /** The tag of a helper's result: a scalar, or a window of the announced size at the value, inside the region, with its permissions. */
  predicate ResultTagged(meta: HelperMeta, region: Option<Region>, v: u64, tag: Tag)
  {
    match meta.kind
    case ScalarResult => tag == Scalar
    case PointerResult =>
      && region.Some? && region.value.kind.PointerRegion? && region.value.base <= v && v + meta.size <= region.value.end
      && tag == Pointer(meta.id, region.value.perms, v, meta.size)
    case HandleResult =>
      && region.Some? && region.value.kind.HandleRegion? && region.value.base <= v && v + meta.size <= region.value.end
      && tag == Handle(meta.id, region.value.perms, v, meta.size)
  }

  /** A helper call that succeeds: r0 gets the result and its tag, r1 to r5 become scalars, no other tag changes. */
  lemma HelperTags(env: Env, s: SafeState)
    requires SafeReady(env, s) && Current(env, s).opcode == 0x85 && Current(env, s).src == 0 && SafeStep(env, s).Next?
    ensures var imm, g, t := Current(env, s).imm, s.core.regs, SafeStep(env, s).state;
      var r := env.helper(imm, [g[1], g[2], g[3], g[4], g[5]], s.core.mem);
      && 0 <= imm < |env.helpers| && env.helpers[imm].Some? && env.callable(imm)
      && ResultTagged(env.helpers[imm].value, FindRegion(env.regions, env.helpers[imm].value.id), r.value, t.tags[0])
      && t.core.regs[0] == r.value && t.core.mem == r.mem && t.spills == s.spills && t.saved == s.saved
      && (forall k :: 1 <= k < 16 ==> t.core.regs[k] == g[k])
      && (forall k :: 1 <= k < 16 ==> t.tags[k] == if k <= 5 then Scalar else s.tags[k])
  {
    var imm, g := Current(env, s).imm, s.core.regs;
    SafeStepIs(env, s);
    assert Decode(0x85) == Call;
    var e := s.(core := Enter(env, s.core));
    assert HelperArgs(e.core) == [g[1], g[2], g[3], g[4], g[5]];
    hide Decode, SafeStep, Enter, FindRegion, HelperArgs;
  }

  /** A helper that returns its `k`th argument leaves the old register `k` in r0. */
  lemma HelperSeesArgument(env: Env, s: SafeState, k: nat)
    requires SafeReady(env, s) && Current(env, s).opcode == 0x85 && Current(env, s).src == 0 && SafeStep(env, s).Next? && 1 <= k <= 5
    requires forall args: seq<u64>, m: Memory :: |args| == 5 ==> env.helper(Current(env, s).imm, args, m).value == args[k - 1]
    ensures SafeStep(env, s).state.core.regs[0] == s.core.regs[k]
  {
    HelperTags(env, s);
    hide SafeStep, FindRegion, ResultTagged;
  }

  // ---------------------------------------------------------------- what a program can reach at first

  predicate Covers(base: u64, len: u64, a: int, n: nat)
  {
    base <= a && a + n <= base + len < 0x1_0000_0000_0000_0000
  }

  /**
    The first access of a program is let through exactly if it goes through r1 into the input, if there is one, or
    through r10 into the stack, whether it loads, stores or updates atomically.
    */
  lemma FirstAccess(env: Env, regs: Regs, mem: Memory)
    requires var s := SafeInitial(env, regs, mem);
      && SafeReady(env, s) && IsAccess(Current(env, s).opcode)
      && (Current(env, s).opcode in {0xc3, 0xdb} ==> L.KnownAtomic(Current(env, s).imm))
    ensures var s := SafeInitial(env, regs, mem); var inst := Current(env, s);
      var n, r := L.SizeOf(inst.opcode), Base(inst);
      SafeStep(env, s).Next? <==>
        || (r == 1 && env.mem != 0 && env.memLen > 0 && Covers(env.mem, env.memLen, env.mem + inst.offset, n))
        || (r == 10 && Covers(env.stack, env.stackLen, ToU64(env.stack + env.stackLen) + inst.offset, n))
  {
    hide SafeStep, IsAccess, L.SizeOf, L.KnownAtomic, L.IsLoad, L.IsStore, SafeReady, Reachable, ToU64;
    var s := SafeInitial(env, regs, mem);
    AccessPasses(env, s);
    FirstReaches(env, regs, mem, Current(env, s));
  }

  lemma FirstReaches(env: Env, regs: Regs, mem: Memory, inst: Inst)
    ensures var s, n, r := SafeInitial(env, regs, mem), L.SizeOf(inst.opcode), Base(inst);
      Reachable(inst, s.tags[r], s.core.regs[r]) <==>
        || (r == 1 && env.mem != 0 && env.memLen > 0 && Covers(env.mem, env.memLen, env.mem + inst.offset, n))
        || (r == 10 && Covers(env.stack, env.stackLen, ToU64(env.stack + env.stackLen) + inst.offset, n))
  {
    hide L.SizeOf, L.IsLoad, L.IsStore, ToU64;
  }
}
