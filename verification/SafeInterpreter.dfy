/** The safe-profile run loop over mutable registers, tags, spill slots, frames and memory, proved to be the step function. */
module SafeInterpreter {
  import opened Words
  import opened Isa
  import opened Semantics
  import opened Machine
  import opened Safe
  import opened Interpreter

  function SafeResult(sig: Signal, s: SafeState): Outcome<SafeState>
  {
    match sig
    case Continue => Next(s)
    case Return(v) => Done(v, s.core.mem)
    case Abort(e) => Fail(e)
  }

  /** The valid slots of a spill array. */
  function SlotMap(slots: seq<Option<Tag>>): map<int, Tag>
  {
    map k | 0 <= k < |slots| && slots[k].Some? :: slots[k].value
  }

  /** One slot for every eight bytes of stack, the last one possibly partial, and never none. */
  function SlotCount(stackLen: u64): nat { if stackLen == 0 then 1 else (stackLen + 7) / 8 }

  lemma SlotMapSet(slots: seq<Option<Tag>>, k: nat, t: Tag)
    requires k < |slots|
    ensures SlotMap(slots[k := Some(t)]) == SlotMap(slots)[k := t]
  {
  }

  lemma EmptySlots(slots: seq<Option<Tag>>)
    requires forall k :: 0 <= k < |slots| ==> slots[k].None?
    ensures SlotMap(slots) == map[]
  {
  }

  /** Under an instruction limit every step uses one instruction up. */
  lemma SafeStepCounts(env: Env, s: SafeState)
    requires env.limit != 0 && SafeStep(env, s).Next?
    ensures s.core.limit > 0 && SafeStep(env, s).state.core.limit == s.core.limit - 1
  {
    hide Decode, AluValue, EndValue, AluTag, Taken, ComputeAccess, LoadWord, LoadSigned, Store, AtomicValue, WideImmediate, FindRegion, HelperTag,
         Invalidate;
    DecodeSizes(env.prog[s.core.pc].opcode);
  }

  class SafeMachine {
    var pc: u16
    var depth: Depth
    var limit: int
    var mem: Memory
    const regs: array<u64>
    const frames: array<Frame>
    const tags: array<Tag>
    const slots: array<Option<Tag>>
    const saved: array<SavedTags>

    ghost predicate Valid(env: Env)
      reads this
    {
      && regs.Length == 16 && tags.Length == 16 && frames.Length == MAX_CALL_DEPTH && saved.Length == MAX_CALL_DEPTH
      && slots.Length == SlotCount(env.stackLen) && env.stack + env.stackLen < 0x1_0000_0000_0000_0000
    }

    ghost function Core(): State
      reads this, regs, frames
      requires regs.Length == 16 && frames.Length == MAX_CALL_DEPTH
    {
      State(pc, regs[..], frames[..], depth, limit, mem)
    }

    ghost function Snapshot(): SafeState
      reads this, regs, frames, tags, slots, saved
      requires regs.Length == 16 && tags.Length == 16 && frames.Length == MAX_CALL_DEPTH && saved.Length == MAX_CALL_DEPTH
    {
      SafeState(Core(), tags[..], SlotMap(slots[..]), saved[..])
    }

    constructor (env: Env, start: Regs, memory: Memory)
      requires env.stack + env.stackLen < 0x1_0000_0000_0000_0000
      ensures Valid(env) && Snapshot() == SafeInitial(env, start, memory)
      ensures fresh(regs) && fresh(frames) && fresh(tags) && fresh(slots) && fresh(saved)
    {
      pc, depth, limit, mem := 0, 0, env.limit, memory;
      regs := new u64[16](i requires 0 <= i < 16 => start[i]);
      frames := new Frame[MAX_CALL_DEPTH](_ => Frame(0, 0, 0, 0, 0, 0));
      tags := new Tag[16](_ => Scalar);
      slots := new Option<Tag>[SlotCount(env.stackLen)](_ => None);
      saved := new SavedTags[MAX_CALL_DEPTH](_ => SavedTags(Scalar, Scalar, Scalar, Scalar));
      new;
      EmptySlots(slots[..]);
      assert regs[..] == start && tags[..] == seq(16, _ => Scalar);
      InitialValues(env);
    }

    /** r1, r2 and r10 and their tags. */
    method InitialValues(env: Env)
      requires regs.Length == 16 && tags.Length == 16
      modifies regs, tags
      ensures regs[..] == old(regs[..])[1 := env.mem][2 := env.memLen][10 := ToU64(env.stack + env.stackLen)]
      ensures tags[..] == (if env.mem != 0 && env.memLen > 0
                           then old(tags[..])[1 := Pointer(INPUT_ID, ALL_PERMS, env.mem, env.memLen)] else old(tags[..]))
                          [10 := Pointer(STACK_ID, ALL_PERMS, env.stack, env.stackLen)]
    {
      regs[1], regs[2], regs[10] := env.mem, env.memLen, ToU64(env.stack + env.stackLen);
      if env.mem != 0 && env.memLen > 0 {
        tags[1] := Pointer(INPUT_ID, ALL_PERMS, env.mem, env.memLen);
      }
      tags[10] := Pointer(STACK_ID, ALL_PERMS, env.stack, env.stackLen);
    }

    method EnterInstruction(env: Env)
      requires Valid(env)
      modifies this`pc, this`limit, frames
      ensures Snapshot() == old(Snapshot()).(core := Enter(env, old(Core())))
    {
      if env.limit != 0 {
        limit := limit - 1;
      }
      if (pc == 0 || pc in env.funcs) && depth < MAX_CALL_DEPTH {
        frames[depth] := frames[depth].(usage := env.usage(pc));
      }
      pc := ToU16(pc + 1);
    }

    /** Set a register with its tag, or stop on a tag error. */
    method SetTagged(env: Env, r: u4, v: u64, tag: Checked<Tag>) returns (sig: Signal)
      requires Valid(env)
      modifies regs, tags
      ensures SafeResult(sig, Snapshot()) == Tagged(old(Snapshot()), r, v, tag)
    {
      if tag.Err? {
        return Abort(tag.error);
      }
      regs[r] := v;
      tags[r] := tag.value;
      return Continue;
    }

    /** The loop that marks every slot an access touches as not valid; every index is inside the array. */
    method InvalidateSlots(env: Env, addr: u64, size: nat)
      requires Valid(env) && 1 <= size <= 8
      modifies slots
      ensures SlotMap(slots[..]) == Invalidate(env, old(SlotMap(slots[..])), addr, size)
    {
      var end, stackEnd := ToU64(addr + size), ToU64(env.stack + env.stackLen);
      if addr < env.stack || end < addr || end > stackEnd {
        return;
      }
      var first, last := (addr - env.stack) / 8, (end - 1 - env.stack) / 8;
      ghost var was := slots[..];
      var slot := first;
      while slot <= last
        invariant first <= slot <= last + 1
        invariant forall k :: 0 <= k < slots.Length ==> slots[k] == if first <= k < slot then None else was[k]
      {
        slots[slot] := None;
        slot := slot + 1;
      }
    }

    method SafeLoadInto(env: Env, inst: Inst, size: nat, sx: bool) returns (sig: Signal)
      requires Valid(env) && size in {1, 2, 4, 8}
      modifies regs, tags
      ensures SafeResult(sig, Snapshot()) == SafeLoad(env, old(Snapshot()), inst, size, sx)
    {
      hide LoadWord, LoadSigned;
      var a := ComputeAccess(tags[inst.src], regs[inst.src], inst.offset, size, READ);
      if a.Err? {
        return Abort(a.error);
      }
      regs[inst.dst] := if sx then LoadSigned(mem, a.value, size) else LoadWord(mem, a.value, size);
      tags[inst.dst] := Scalar;
      if !sx && size == 8 && IsStackPointer(env, tags[inst.src]) && (a.value - env.stack) % 8 == 0 {
        var slot := (a.value - env.stack) / 8;
        if slots[slot].Some? {
          tags[inst.dst] := slots[slot].value;
        }
      }
      return Continue;
    }

    method SafeStoreFrom(env: Env, inst: Inst, size: nat, v: u64, keepTag: bool) returns (sig: Signal)
      requires Valid(env) && size in {1, 2, 4, 8}
      modifies this`mem, slots
      ensures SafeResult(sig, Snapshot()) == SafeStore(env, old(Snapshot()), inst, size, v, keepTag)
    {
      hide Store, Invalidate;
      var a := ComputeAccess(tags[inst.dst], regs[inst.dst], inst.offset, size, WRITE);
      if a.Err? {
        return Abort(a.error);
      }
      mem := Store(mem, a.value, v, size);
      if IsStackPointer(env, tags[inst.dst]) {
        InvalidateSlots(env, a.value, size);
        if keepTag && size == 8 && (a.value - env.stack) % 8 == 0 {
          var slot := (a.value - env.stack) / 8;
          ghost var was := slots[..];
          SlotMapSet(was, slot, tags[inst.src]);
          slots[slot] := Some(tags[inst.src]);
          assert slots[..] == was[slot := Some(tags[inst.src])];
        }
      }
      return Continue;
    }

    method SafeAtomicUpdate(env: Env, inst: Inst, size: nat) returns (sig: Signal)
      requires Valid(env) && (size == 4 || size == 8)
      modifies this`mem, regs, tags, slots
      ensures SafeResult(sig, Snapshot()) == SafeAtomic(env, old(Snapshot()), inst, size)
    {
      hide LoadWord, AtomicValue, Store, Invalidate, ComputeAccess;
      var a := ComputeAccess(tags[inst.dst], regs[inst.dst], inst.offset, size, WRITE_ATOMIC);
      if a.Err? {
        return Abort(a.error);
      }
      var code := AtomicCode(inst.imm);
      if !AtomicKnown(code) {
        return Abort(UnknownAtomic);
      }
      var was := LoadWord(mem, a.value, size);
      mem := Store(mem, a.value, AtomicValue(size == 8, code, was, regs[inst.src], regs[0]), size);
      InvalidateSlots(env, a.value, size);
      if AtomicFetch(inst.imm) {
        var r := if code == 15 then 0 else inst.src;
        regs[r] := was;
        tags[r] := Scalar;
      }
      return Continue;
    }

    method ScratchSomeTags()
      requires tags.Length == 16
      modifies tags
      ensures tags[..] == ScratchTags(old(tags[..]))
    {
      for i := 1 to 6
        invariant forall k :: 0 <= k < 16 ==> tags[k] == if 1 <= k < i then Scalar else old(tags[k])
      {
        tags[i] := Scalar;
      }
    }

    method ReturnFromCall(env: Env)
      requires Valid(env) && depth > 0
      modifies this`pc, this`depth, regs, tags
      ensures Snapshot() == SafeReturn(old(Snapshot()))
    {
      hide ScratchTags;
      ScratchSomeTags();
      depth := depth - 1;
      var f, t := frames[depth], saved[depth];
      pc := f.ret;
      regs[6], regs[7], regs[8], regs[9] := f.r6, f.r7, f.r8, f.r9;
      regs[10] := ToU64(regs[10] + f.usage);
      tags[6], tags[7], tags[8], tags[9] := t.t6, t.t7, t.t8, t.t9;
    }

    method LocalCall(env: Env, delta: int)
      requires Valid(env) && depth < MAX_CALL_DEPTH
      modifies this`pc, this`depth, regs, frames, saved
      ensures Snapshot() == old(Snapshot()).(
                core := PushFrame(old(Core()), delta),
                saved := old(saved[..])[old(depth) := SavedTags(tags[6], tags[7], tags[8], tags[9])])
    {
      saved[depth] := SavedTags(tags[6], tags[7], tags[8], tags[9]);
      frames[depth] := Frame(frames[depth].usage, pc, regs[6], regs[7], regs[8], regs[9]);
      regs[10] := ToU64(regs[10] - frames[depth].usage);
      depth := depth + 1;
      pc := ToU16(pc + delta);
    }

    /** The linear search for a region by id. */
    method LookUp(regions: seq<Option<Region>>, id: u32) returns (g: Option<Region>)
      ensures g == FindRegion(regions, id)
    {
      var i := 0;
      assert regions[0..] == regions;
      while i < |regions|
        invariant 0 <= i <= |regions| && FindRegion(regions, id) == FindRegion(regions[i..], id)
      {
        assert regions[i..][1..] == regions[i + 1..];
        if regions[i].Some? && regions[i].value.id == id {
          return regions[i];
        }
        i := i + 1;
      }
      return None;
    }

    method Helper(env: Env, inst: Inst) returns (sig: Signal)
      requires Valid(env)
      modifies this`mem, regs, tags
      ensures SafeResult(sig, Snapshot()) == SafeHelper(env, old(Snapshot()), inst)
    {
      hide FindRegion, HelperTag, ScratchTags;
      if inst.imm < 0 || inst.imm >= |env.helpers| || env.helpers[inst.imm].None? {
        return Abort(BadHelper);
      }
      var meta := env.helpers[inst.imm].value;
      var region := LookUp(env.regions, meta.id);
      if !meta.kind.ScalarResult? && region.None? {
        return Abort(BadHelper);
      }
      if !env.callable(inst.imm) {
        return Abort(Undefined);
      }
      var r := env.helper(inst.imm, regs[1..6], mem);
      mem := r.mem;
      if inst.imm == env.unwind && r.value == 0 {
        return Return(0);
      }
      var t := HelperTag(meta, region, r.value);
      if t.Err? {
        return Abort(t.error);
      }
      regs[0] := r.value;
      ScratchSomeTags();
      tags[0] := t.value;
      return Continue;
    }

    method Call(env: Env, inst: Inst) returns (sig: Signal)
      requires Valid(env)
      modifies this`pc, this`depth, this`mem, regs, frames, tags, saved
      ensures SafeResult(sig, Snapshot()) == SafeCall(env, old(Snapshot()), inst)
    {
      hide PushFrame, SafeHelper;
      if inst.src == 0 {
        sig := Helper(env, inst);
        return;
      } else if inst.src == 1 {
        if depth >= MAX_CALL_DEPTH {
          return Abort(CallTooDeep);
        }
        LocalCall(env, inst.imm);
      } else if inst.src == 2 {
        return Abort(CallByBtfId);
      }
      return Continue;
    }

    /** Jumps, LDDW and EXIT. */
    method Control(env: Env, inst: Inst) returns (sig: Signal)
      requires Valid(env)
      requires var op := Decode(inst.opcode); op.Ja? || op.Ja32? || op.Jcc? || op.Lddw? || op.Exit?
      modifies this`pc, this`depth, regs, tags
      ensures SafeResult(sig, Snapshot()) == SafeExecute(env, old(Snapshot()), inst)
    {
      hide Decode, Taken, WideImmediate, SafeReturn, SlotMap;
      sig := Continue;
      match Decode(inst.opcode)
      case Ja => pc := ToU16(pc + inst.offset);
      case Ja32 => pc := ToU16(pc + inst.imm);
      case Jcc(wide, cond, fromReg) =>
        if Taken(wide, cond, regs[inst.dst], if fromReg then regs[inst.src] else ToU64(inst.imm)) {
          pc := ToU16(pc + inst.offset);
        }
      case Lddw =>
        if pc >= |env.prog| {
          return Abort(Undefined);
        }
        var second := env.prog[pc];
        pc := ToU16(pc + 1);
        regs[inst.dst] := WideImmediate(inst, second);
        tags[inst.dst] := Scalar;
      case Exit =>
        if depth == 0 {
          return Return(regs[0]);
        }
        ReturnFromCall(env);
    }

    method Execute(env: Env, inst: Inst) returns (sig: Signal)
      requires Valid(env)
      modifies this, regs, frames, tags, slots, saved
      ensures SafeResult(sig, Snapshot()) == SafeExecute(env, old(Snapshot()), inst)
    {
      DecodeSizes(inst.opcode);
      hide Decode, AluValue, EndValue, AluTag, Tagged, SafeLoad, SafeStore, SafeAtomic, SafeCall, SlotMap, Taken, WideImmediate, SafeReturn;
      match Decode(inst.opcode)
      case Alu(wide, alu, fromReg) =>
        var v := AluValue(wide, alu, fromReg, inst.offset, regs[inst.dst], if fromReg then regs[inst.src] else ToU64(inst.imm));
        sig := SetTagged(env, inst.dst, v, AluTag(wide, alu, fromReg, inst.offset, tags[inst.dst], tags[inst.src], v));
      case End(kind) =>
        sig := SetTagged(env, inst.dst, EndValue(kind, inst.imm, regs[inst.dst]),
                         if kind == Swap && !tags[inst.dst].Scalar? then Err(BadPointerArithmetic) else Ok(Scalar));
      case Ldx(size, sx) => sig := SafeLoadInto(env, inst, size, sx);
      case St(size) => sig := SafeStoreFrom(env, inst, size, ToU64(inst.imm), false);
      case Stx(size) => sig := SafeStoreFrom(env, inst, size, regs[inst.src], size == 8);
      case Atomic(size) => sig := SafeAtomicUpdate(env, inst, size);
      case Call => sig := Call(env, inst);
      case Unknown => sig := Abort(UnknownOpcode);
      case _ => sig := Control(env, inst);
    }

    /** The first `n` iterations of the loop, with or without an instruction limit, or fewer if the run ends. */
    method RunFor(env: Env, n: nat) returns (sig: Signal)
      requires Valid(env)
      modifies this, regs, frames, tags, slots, saved
      ensures SafeResult(sig, Snapshot()) == SafeRun(env, old(Snapshot()), n)
    {
      hide SafeStep, SlotMap;
      sig := Continue;
      for i := 0 to n
        invariant SafeResult(sig, Snapshot()) == SafeRun(env, old(Snapshot()), i)
      {
        if sig.Continue? {
          sig := Step(env);
        }
      }
    }

    /** One iteration of the run loop. */
    method Step(env: Env) returns (sig: Signal)
      requires Valid(env)
      modifies this, regs, frames, tags, slots, saved
      ensures SafeResult(sig, Snapshot()) == SafeStep(env, old(Snapshot()))
    {
      hide SafeExecute, Enter, SlotMap;
      if pc >= |env.prog| {
        return Abort(PcPastEnd);
      }
      if env.limit != 0 && limit <= 0 {
        return Abort(LimitExceeded);
      }
      var inst := env.prog[pc];
      EnterInstruction(env);
      sig := Execute(env, inst);
    }
  
    /** The run loop under a positive instruction limit: it ends, with the result of the step function's run. */
    method Run(env: Env) returns (sig: Signal, ghost n: nat)
      requires Valid(env) && env.limit > 0
      modifies this, regs, frames, tags, slots, saved
      ensures !sig.Continue? && SafeResult(sig, Snapshot()) == SafeRun(env, old(Snapshot()), n)
    {
      hide SafeStep, SlotMap;
      n := 0;
      sig := Continue;
      while sig.Continue?
        invariant SafeResult(sig, Snapshot()) == SafeRun(env, old(Snapshot()), n)
        decreases if sig.Continue? then 1 else 0, limit
      {
        ghost var s := Snapshot();
        sig := Step(env);
        n := n + 1;
        if sig.Continue? {
          SafeStepCounts(env, s);
        }
      }
    }
  }
}
