/** What a step of the safe profile may read and write, and that it always lies inside one root. */
module MemorySafety {
  import opened Words
  import opened Isa
  import opened Semantics
  import opened Machine
  import opened Safe
  import opened SafeInvariant

  datatype Access = Access(id: u32, addr: int, size: nat, need: Perms)

  function AccessBy(s: SafeState, r: u4, offset: i16, size: nat, need: Perms): Option<Access>
  {
    match ComputeAccess(s.tags[r], s.core.regs[r], offset, size, need)
    case Err(_) => None
    case Ok(addr) => Some(Access(s.tags[r].id, addr, size, need))
  }

  /** The memory access an instruction makes, if it is a load, store or atomic that gets that far. */
  function AccessOf(s: SafeState, inst: Inst): Option<Access>
  {
    match Decode(inst.opcode)
    case Ldx(size, _) => AccessBy(s, inst.src, inst.offset, size, READ)
    case St(size) => AccessBy(s, inst.dst, inst.offset, size, WRITE)
    case Stx(size) => AccessBy(s, inst.dst, inst.offset, size, WRITE)
    case Atomic(size) => AccessBy(s, inst.dst, inst.offset, size, WRITE_ATOMIC)
    case _ => None
  }

  function NextAccess(env: Env, s: SafeState): Option<Access>
  {
    if s.core.pc < |env.prog| then AccessOf(s, env.prog[s.core.pc]) else None
  }

  predicate Covers(a: Option<Access>, x: int) { a.Some? && a.value.addr <= x < a.value.addr + a.value.size }

  predicate CallsHelper(env: Env, s: SafeState)
  {
    s.core.pc < |env.prog| && Decode(env.prog[s.core.pc].opcode).Call? && env.prog[s.core.pc].src == 0
  }

  /** An access is a block of bytes inside the root its tag names, and that root grants what the access needs. */
  predicate InsideRoot(env: Env, a: Access)
  {
    var root := RootOf(env, a.id);
    && root.Some? && Grants(root.value.perms, a.need)
    && root.value.base <= a.addr && a.addr + a.size <= root.value.end
    && a.addr + a.size < 0x1_0000_0000_0000_0000
  }

  lemma AccessInsideRoot(env: Env, s: SafeState)
    requires Inv(env, s) && NextAccess(env, s).Some?
    ensures InsideRoot(env, NextAccess(env, s).value)
  {
    hide RootOf;
  }

  lemma StoreChanges(m: Memory, a: u64, v: u64, n: nat)
    requires a + n < 0x1_0000_0000_0000_0000
    ensures forall x: u64 :: ByteAt(Store(m, a, v, n), x) != ByteAt(m, x) ==> a <= x < a + n
  {
    forall x: u64 | x < a || a + n <= x
      ensures ByteAt(Store(m, a, v, n), x) == ByteAt(m, x)
    {
      StoreFrame(m, a, v, n, x);
    }
  }

  /** Every byte that differs after an instruction is covered by its access. */
  ghost predicate ChangesCovered(m: Memory, m': Memory, a: Option<Access>)
  {
    forall x: u64 :: ByteAt(m', x) != ByteAt(m, x) ==> Covers(a, x) && a.value.need.write
  }

  lemma StoreWrites(env: Env, s: SafeState, inst: Inst, size: nat, v: u64, keepTag: bool)
    requires SafeStore(env, s, inst, size, v, keepTag).Next?
    ensures ChangesCovered(s.core.mem, SafeStore(env, s, inst, size, v, keepTag).state.core.mem,
                           AccessBy(s, inst.dst, inst.offset, size, WRITE))
  {
    var a := ComputeAccess(s.tags[inst.dst], s.core.regs[inst.dst], inst.offset, size, WRITE);
    StoreChanges(s.core.mem, a.value, v, size);
    hide Store, ByteAt, Invalidate, IsStackPointer;
  }

  lemma AtomicWrites(env: Env, s: SafeState, inst: Inst, size: nat)
    requires (size == 4 || size == 8) && SafeAtomic(env, s, inst, size).Next?
    ensures ChangesCovered(s.core.mem, SafeAtomic(env, s, inst, size).state.core.mem,
                           AccessBy(s, inst.dst, inst.offset, size, WRITE_ATOMIC))
  {
    var c := s.core;
    var a := ComputeAccess(s.tags[inst.dst], c.regs[inst.dst], inst.offset, size, WRITE_ATOMIC);
    var was := LoadWord(c.mem, a.value, size);
    StoreChanges(c.mem, a.value, AtomicValue(size == 8, AtomicCode(inst.imm), was, c.regs[inst.src], c.regs[0]), size);
    hide Store, ByteAt, Invalidate, AtomicValue, LoadWord;
  }

  lemma ExecuteWrites(env: Env, s: SafeState, inst: Inst)
    requires SafeExecute(env, s, inst).Next? && !(Decode(inst.opcode).Call? && inst.src == 0)
    ensures ChangesCovered(s.core.mem, SafeExecute(env, s, inst).state.core.mem, AccessOf(s, inst))
  {
    hide Decode, SafeStore, SafeAtomic, SafeHelper, ComputeAccess, AluTag, AluValue, EndValue, Taken, LoadWord, LoadSigned,
         ByteAt, Covers, WideImmediate, Operand, IsStackPointer;
    DecodeSizes(inst.opcode);
    match Decode(inst.opcode)
    case St(size) => StoreWrites(env, s, inst, size, ToU64(inst.imm), false);
    case Stx(size) => StoreWrites(env, s, inst, size, s.core.regs[inst.src], size == 8);
    case Atomic(size) => AtomicWrites(env, s, inst, size);
    case _ =>
  }

  /** A step other than a helper call changes no byte outside its own access, and none at all unless it needs WRITE. */
  lemma StepWrites(env: Env, s: SafeState)
    requires SafeStep(env, s).Next? && !CallsHelper(env, s)
    ensures ChangesCovered(s.core.mem, SafeStep(env, s).state.core.mem, NextAccess(env, s))
  {
    hide SafeExecute, Decode, ComputeAccess, ChangesCovered;
    var t, inst := s.(core := Enter(env, s.core)), env.prog[s.core.pc];
    assert AccessOf(t, inst) == AccessOf(s, inst);
    ExecuteWrites(env, t, inst);
  }

  function WithMemory(s: SafeState, m: Memory): SafeState { s.(core := s.core.(mem := m)) }

  /** Two outcomes that agree on everything but memory. */
  predicate SameBesidesMemory(o: Outcome<SafeState>, p: Outcome<SafeState>)
  {
    o.Next? && p.Next? && WithMemory(o.state, map[]) == WithMemory(p.state, map[])
  }

  lemma LoadReads(env: Env, s: SafeState, inst: Inst, size: nat, sx: bool, m: Memory)
    requires size <= 8 && SafeLoad(env, s, inst, size, sx).Next?
    requires var a := AccessBy(s, inst.src, inst.offset, size, READ).value;
      Load(m, a.addr, size) == Load(s.core.mem, a.addr, size)
    ensures SameBesidesMemory(SafeLoad(env, WithMemory(s, m), inst, size, sx), SafeLoad(env, s, inst, size, sx))
  {
    hide ComputeAccess, Load, IsStackPointer;
  }

  lemma AtomicReads(env: Env, s: SafeState, inst: Inst, size: nat, m: Memory)
    requires (size == 4 || size == 8) && SafeAtomic(env, s, inst, size).Next?
    requires var a := AccessBy(s, inst.dst, inst.offset, size, WRITE_ATOMIC).value;
      Load(m, a.addr, size) == Load(s.core.mem, a.addr, size)
    ensures SameBesidesMemory(SafeAtomic(env, WithMemory(s, m), inst, size), SafeAtomic(env, s, inst, size))
  {
    hide ComputeAccess, Load, Store, AtomicValue, Invalidate;
  }

  lemma StoreReads(env: Env, s: SafeState, inst: Inst, size: nat, v: u64, keepTag: bool, m: Memory)
    requires SafeStore(env, s, inst, size, v, keepTag).Next?
    ensures SameBesidesMemory(SafeStore(env, WithMemory(s, m), inst, size, v, keepTag),
                              SafeStore(env, s, inst, size, v, keepTag))
  {
    hide ComputeAccess, Store, Invalidate, IsStackPointer;
  }

  lemma ExecuteReads(env: Env, s: SafeState, inst: Inst, m: Memory)
    requires SafeExecute(env, s, inst).Next? && !(Decode(inst.opcode).Call? && inst.src == 0)
    requires var op := Decode(inst.opcode);
      var a := if op.Ldx? then AccessBy(s, inst.src, inst.offset, op.size, READ)
               else if op.Atomic? then AccessBy(s, inst.dst, inst.offset, op.size, WRITE_ATOMIC) else None;
      a.Some? ==> Load(m, a.value.addr, a.value.size) == Load(s.core.mem, a.value.addr, a.value.size)
    ensures SameBesidesMemory(SafeExecute(env, WithMemory(s, m), inst), SafeExecute(env, s, inst))
  {
    hide Decode, AluTag, AluValue, EndValue, Taken, Load, ComputeAccess, SafeLoad, SafeStore, SafeAtomic, SafeCall,
         SafeReturn, Tagged;
    DecodeSizes(inst.opcode);
    match Decode(inst.opcode)
    case Ldx(size, sx) => LoadFails(env, s, inst, size, sx); LoadReads(env, s, inst, size, sx, m);
    case St(size) => StoreReads(env, s, inst, size, ToU64(inst.imm), false, m);
    case Stx(size) => StoreReads(env, s, inst, size, s.core.regs[inst.src], size == 8, m);
    case Atomic(size) => AtomicFails(env, s, inst, size); AtomicReads(env, s, inst, size, m);
    case _ => RegisterOnly(env, s, inst, m);
  }

  lemma RegisterOnly(env: Env, s: SafeState, inst: Inst, m: Memory)
    requires var op := Decode(inst.opcode); !op.Ldx? && !op.St? && !op.Stx? && !op.Atomic?
    requires SafeExecute(env, s, inst).Next? && !(Decode(inst.opcode).Call? && inst.src == 0)
    ensures SameBesidesMemory(SafeExecute(env, WithMemory(s, m), inst), SafeExecute(env, s, inst))
  {
    hide Decode, AluTag, AluValue, EndValue, Taken, SafeHelper, WideImmediate, Operand, ToU16, ToU64, PushFrame, PopFrame;
    match Decode(inst.opcode)
    case Exit => PopReads(s, m);
    case Call => PushReads(s, inst.imm, m);
    case _ =>
  }

  lemma PopReads(s: SafeState, m: Memory)
    requires s.core.depth > 0
    ensures PopFrame(s.core.(mem := m)) == PopFrame(s.core).(mem := m)
  {
  }

  lemma PushReads(s: SafeState, delta: int, m: Memory)
    ensures s.core.depth < MAX_CALL_DEPTH ==> PushFrame(s.core.(mem := m), delta) == PushFrame(s.core, delta).(mem := m)
  {
  }

  /**
    A step other than a helper call reads no byte outside its own access: on any memory that agrees there,
    it does the same thing to everything except memory.
    */
  lemma StepReads(env: Env, s: SafeState, m: Memory)
    requires SafeStep(env, s).Next? && !CallsHelper(env, s)
    requires forall x: int :: Covers(NextAccess(env, s), x) ==> ByteAt(m, x) == ByteAt(s.core.mem, x)
    ensures SameBesidesMemory(SafeStep(env, WithMemory(s, m)), SafeStep(env, s))
  {
    hide ByteAt, Load, ComputeAccess, SafeExecute, Decode, SameBesidesMemory;
    var inst := env.prog[s.core.pc];
    var na := NextAccess(env, s);
    if na.Some? {
      forall x | na.value.addr <= x < na.value.addr + na.value.size
        ensures ByteAt(s.core.mem, x) == ByteAt(m, x)
      {
        assert Covers(na, x);
      }
      LoadDepends(s.core.mem, m, na.value.addr, na.value.size);
    }
    var t := s.(core := Enter(env, s.core));
    assert WithMemory(s, m).(core := Enter(env, WithMemory(s, m).core)) == WithMemory(t, m);
    ExecuteReads(env, t, inst, m);
  }

  lemma LoadFails(env: Env, s: SafeState, inst: Inst, size: nat, sx: bool)
    requires size <= 8
    ensures SafeLoad(env, s, inst, size, sx).Next? ==> AccessBy(s, inst.src, inst.offset, size, READ).Some?
  {
  }

  lemma AtomicFails(env: Env, s: SafeState, inst: Inst, size: nat)
    requires size == 4 || size == 8
    ensures SafeAtomic(env, s, inst, size).Next? ==> AccessBy(s, inst.dst, inst.offset, size, WRITE_ATOMIC).Some?
  {
  }

  /**
    Memory safety of whole runs. After any number of steps of any program from any registers and memory,
    the next step's access lies inside one root with the permission it needs; the step then reads and
    writes no other byte, unless it hands control to a helper.
    */
  lemma RunsAreMemorySafe(env: Env, regs: Regs, mem: Memory, n: nat, m: Memory)
    requires NoReservedIds(env.regions)
    requires SafeRun(env, SafeInitial(env, regs, mem), n).Next?
    ensures var s := SafeRun(env, SafeInitial(env, regs, mem), n).state;
      var na := NextAccess(env, s);
      && (na.Some? ==> InsideRoot(env, na.value))
      && (SafeStep(env, s).Next? && !CallsHelper(env, s) ==>
            && ChangesCovered(s.core.mem, SafeStep(env, s).state.core.mem, na)
            && ((forall x: int :: Covers(na, x) ==> ByteAt(m, x) == ByteAt(s.core.mem, x)) ==>
                  SameBesidesMemory(SafeStep(env, WithMemory(s, m)), SafeStep(env, s))))
  {
    hide SafeStep, SafeInitial, Inv, NextAccess, InsideRoot, Covers, ByteAt, WithMemory, SameBesidesMemory, ChangesCovered;
    var s := SafeRun(env, SafeInitial(env, regs, mem), n).state;
    ReachableInv(env, regs, mem, n);
    if NextAccess(env, s).Some? {
      AccessInsideRoot(env, s);
    }
    if SafeStep(env, s).Next? && !CallsHelper(env, s) {
      StepWrites(env, s);
      if forall x: int :: Covers(NextAccess(env, s), x) ==> ByteAt(m, x) == ByteAt(s.core.mem, x) {
        StepReads(env, s, m);
      }
    }
  }
}
