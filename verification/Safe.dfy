/** The safe-profile interpreter: every register, spilled word and saved register carries a provenance tag. */
module Safe {
  import opened Words
  import opened Isa
  import opened Semantics
  import opened Machine

  const INPUT_ID: u32 := 0xffff_fffe
  const STACK_ID: u32 := 0xffff_ffff
  const STACK_SLACK: nat := 32767

  const ALL_PERMS: Perms := Perms(true, true, true)
  const READ: Perms := Perms(true, false, false)
  const WRITE: Perms := Perms(false, true, false)
  const WRITE_ATOMIC: Perms := Perms(false, true, true)

  datatype Tag =
    | Scalar
    | Pointer(id: u32, perms: Perms, base: u64, size: u64)
    | Handle(id: u32, perms: Perms, base: u64, size: u64)

  type Tags = t: seq<Tag> | |t| == 16 witness seq(16, i => Scalar)

  datatype SavedTags = SavedTags(t6: Tag, t7: Tag, t8: Tag, t9: Tag)

  type SavedFrames = f: seq<SavedTags> | |f| == MAX_CALL_DEPTH
    witness seq(MAX_CALL_DEPTH, i => SavedTags(Scalar, Scalar, Scalar, Scalar))

  /** `spills` holds the valid spill slots, keyed by their 8-byte slot number in the stack. */
  datatype SafeState = SafeState(core: State, tags: Tags, spills: map<int, Tag>, saved: SavedFrames)

  predicate Grants(have: Perms, need: Perms)
  {
    (need.read ==> have.read) && (need.write ==> have.write) && (need.atomic ==> have.atomic)
  }

  /** `ubpf_safe_compute_access`. */
  function ComputeAccess(tag: Tag, addr: u64, offset: i16, size: nat, need: Perms): Checked<u64>
  {
    if !tag.Pointer? || !Grants(tag.perms, need) then Err(NotPermitted)
    else
      match EffectiveAddress(addr, offset)
      case None => Err(AddressWraps)
      case Some(eff) =>
        var end := tag.base + tag.size;
        if end >= 0x1_0000_0000_0000_0000 then Err(OutOfBounds)
        else if eff < tag.base || eff > end then Err(OutOfBounds)
        else if size > tag.size || eff > end - size then Err(OutOfBounds)
        else Ok(eff)
  }

  predicate IsStackPointer(env: Env, tag: Tag)
  {
    tag.Pointer? && tag.id == STACK_ID && tag.base == env.stack && tag.size == env.stackLen
  }

  /** `ubpf_safe_invalidate_stack_spill_tags`. */
  function Invalidate(env: Env, spills: map<int, Tag>, addr: u64, size: nat): map<int, Tag>
  {
    var end, stackEnd := ToU64(addr + size), ToU64(env.stack + env.stackLen);
    if addr < env.stack || end < addr || end > stackEnd then spills
    else
      var first, last := (addr - env.stack) / 8, (end - 1 - env.stack) / 8;
      map k | k in spills && !(first <= k <= last) :: spills[k]
  }

  /** `ubpf_safe_apply_pointer_offset`. */
  function PointerOffset(tag: Tag, result: u64): Checked<Tag>
    requires tag.Pointer?
  {
    var end := tag.base + tag.size;
    if end >= 0x1_0000_0000_0000_0000 then Err(BadPointerArithmetic)
    else
      var stack := tag.id == STACK_ID;
      var lower := if !stack then tag.base else if tag.base > STACK_SLACK then tag.base - STACK_SLACK else 0;
      var upper := if !stack then end
                   else if end > 0xffff_ffff_ffff_ffff - STACK_SLACK then 0xffff_ffff_ffff_ffff
                   else end + STACK_SLACK;
      if result < lower || result > upper then Err(BadPointerArithmetic) else Ok(tag)
  }

  /** `ubpf_safe_apply_alu` for the arithmetic opcodes: the destination's tag after the instruction. */
  function AluTag(wide: bool, alu: AluOp, fromReg: bool, offset: i16, dst: Tag, src: Tag, result: u64): Checked<Tag>
  {
    if !wide then Ok(Scalar)
    else
      match alu
      case OpMov =>
        if !fromReg then Ok(Scalar)
        else if offset != 0 && !src.Scalar? then Err(BadPointerArithmetic)
        else Ok(if offset == 0 then src else Scalar)
      case OpAdd =>
        if dst.Pointer? && (!fromReg || src.Scalar?) then PointerOffset(dst, result)
        else if fromReg && dst.Scalar? && src.Pointer? then PointerOffset(src, result)
        else if dst.Scalar? && (!fromReg || src.Scalar?) then Ok(Scalar)
        else Err(BadPointerArithmetic)
      case OpSub =>
        if dst.Pointer? && (!fromReg || src.Scalar?) then PointerOffset(dst, result)
        else if fromReg && dst.Pointer? && src.Pointer? && dst.id == src.id then Ok(Scalar)
        else if dst.Scalar? && (!fromReg || src.Scalar?) then Ok(Scalar)
        else Err(BadPointerArithmetic)
      case _ =>
        if dst.Scalar? && (!fromReg || src.Scalar?) then Ok(Scalar) else Err(BadPointerArithmetic)
  }

  /** `ubpf_safe_find_region_by_id`: the first slot in use with that id. */
  function FindRegion(regions: seq<Option<Region>>, id: u32): Option<Region>
  {
    if regions == [] then None
    else if regions[0].Some? && regions[0].value.id == id then regions[0]
    else FindRegion(regions[1..], id)
  }

  function SafeStep(env: Env, s: SafeState): Outcome<SafeState>
  {
    if s.core.pc >= |env.prog| then Fail(PcPastEnd)
    else if env.limit != 0 && s.core.limit <= 0 then Fail(LimitExceeded)
    else SafeExecute(env, s.(core := Enter(env, s.core)), env.prog[s.core.pc])
  }

  function SafeExecute(env: Env, s: SafeState, inst: Inst): Outcome<SafeState>
  {
    var c := s.core;
    var a := c.regs[inst.dst];
    DecodeSizes(inst.opcode);
    match Decode(inst.opcode)
    case Alu(wide, alu, fromReg) =>
      var v := AluValue(wide, alu, fromReg, inst.offset, a, Operand(fromReg, inst, c.regs));
      Tagged(s, inst.dst, v, AluTag(wide, alu, fromReg, inst.offset, s.tags[inst.dst], s.tags[inst.src], v))
    case End(kind) =>
      var v := EndValue(kind, inst.imm, a);
      Tagged(s, inst.dst, v, if kind == Swap && !s.tags[inst.dst].Scalar? then Err(BadPointerArithmetic) else Ok(Scalar))
    case Ldx(size, sx) => SafeLoad(env, s, inst, size, sx)
    case St(size) => SafeStore(env, s, inst, size, ToU64(inst.imm), false)
    case Stx(size) => SafeStore(env, s, inst, size, c.regs[inst.src], size == 8)
    case Lddw =>
      if c.pc >= |env.prog| then Fail(Undefined)
      else
        var v := WideImmediate(inst, env.prog[c.pc]);
        Next(s.(core := SetReg(c.(pc := ToU16(c.pc + 1)), inst.dst, v), tags := s.tags[inst.dst := Scalar]))
    case Ja => Next(s.(core := Jump(c, inst.offset)))
    case Ja32 => Next(s.(core := Jump(c, inst.imm)))
    case Jcc(wide, cond, fromReg) =>
      Next(if Taken(wide, cond, a, Operand(fromReg, inst, c.regs)) then s.(core := Jump(c, inst.offset)) else s)
    case Exit => if c.depth > 0 then Next(SafeReturn(s)) else Done(c.regs[0], c.mem)
    case Call => SafeCall(env, s, inst)
    case Atomic(size) => SafeAtomic(env, s, inst, size)
    case Unknown => Fail(UnknownOpcode)
  }

  function Tagged(s: SafeState, r: u4, v: u64, tag: Checked<Tag>): Outcome<SafeState>
  {
    match tag
    case Err(e) => Fail(e)
    case Ok(t) => Next(s.(core := SetReg(s.core, r, v), tags := s.tags[r := t]))
  }

  /** SAFE_LOAD. The destination's tag is reset before the source's tag is looked at. */
  function SafeLoad(env: Env, s: SafeState, inst: Inst, size: nat, sx: bool): Outcome<SafeState>
    requires size <= 8
  {
    var c := s.core;
    match ComputeAccess(s.tags[inst.src], c.regs[inst.src], inst.offset, size, READ)
    case Err(e) => Fail(e)
    case Ok(addr) =>
      var v := if sx then LoadSigned(c.mem, addr, size) else LoadWord(c.mem, addr, size);
      var tags: Tags := s.tags[inst.dst := Scalar];
      var slot := (addr - env.stack) / 8;
      var reload := !sx && size == 8 && IsStackPointer(env, tags[inst.src]) && (addr - env.stack) % 8 == 0
                    && slot in s.spills;
      Next(s.(core := SetReg(c, inst.dst, v), tags := if reload then tags[inst.dst := s.spills[slot]] else tags))
  }

  /** SAFE_STORE. */
  function SafeStore(env: Env, s: SafeState, inst: Inst, size: nat, v: u64, keepTag: bool): Outcome<SafeState>
  {
    var c := s.core;
    match ComputeAccess(s.tags[inst.dst], c.regs[inst.dst], inst.offset, size, WRITE)
    case Err(e) => Fail(e)
    case Ok(addr) =>
      var s1 := s.(core := c.(mem := Store(c.mem, addr, v, size)));
      if !IsStackPointer(env, s.tags[inst.dst]) then Next(s1)
      else
        var spills := Invalidate(env, s.spills, addr, size);
        if keepTag && size == 8 && (addr - env.stack) % 8 == 0
        then Next(s1.(spills := spills[(addr - env.stack) / 8 := s.tags[inst.src]]))
        else Next(s1.(spills := spills))
  }

  function SafeAtomic(env: Env, s: SafeState, inst: Inst, size: nat): Outcome<SafeState>
    requires size == 4 || size == 8
  {
    var c := s.core;
    match ComputeAccess(s.tags[inst.dst], c.regs[inst.dst], inst.offset, size, WRITE_ATOMIC)
    case Err(e) => Fail(e)
    case Ok(addr) =>
      var code := AtomicCode(inst.imm);
      if !AtomicKnown(code) then Fail(UnknownAtomic)
      else
        var tags: Tags := if AtomicFetch(inst.imm) then s.tags[(if code == 15 then 0 else inst.src) := Scalar] else s.tags;
        Next(s.(core := WithAtomicResult(c, inst, addr, size), tags := tags,
                spills := Invalidate(env, s.spills, addr, size)))
  }

  function ScratchTags(tags: Tags): Tags
  {
    tags[1 := Scalar][2 := Scalar][3 := Scalar][4 := Scalar][5 := Scalar]
  }

  function SafeReturn(s: SafeState): SafeState
    requires s.core.depth > 0
  {
    var f := s.saved[s.core.depth - 1];
    s.(core := PopFrame(s.core), tags := ScratchTags(s.tags)[6 := f.t6][7 := f.t7][8 := f.t8][9 := f.t9])
  }

  function SafeCall(env: Env, s: SafeState, inst: Inst): Outcome<SafeState>
  {
    var c := s.core;
    if inst.src == 0 then SafeHelper(env, s, inst)
    else if inst.src == 1 then
      if c.depth >= MAX_CALL_DEPTH then Fail(CallTooDeep)
      else
        var f := SavedTags(s.tags[6], s.tags[7], s.tags[8], s.tags[9]);
        Next(s.(core := PushFrame(c, inst.imm), saved := s.saved[c.depth := f]))
    else if inst.src == 2 then Fail(CallByBtfId)
    else Next(s)
  }

  function SafeHelper(env: Env, s: SafeState, inst: Inst): Outcome<SafeState>
  {
    var c := s.core;
    if inst.imm < 0 || inst.imm >= |env.helpers| || env.helpers[inst.imm].None? then Fail(BadHelper)
    else
      var meta := env.helpers[inst.imm].value;
      var region := FindRegion(env.regions, meta.id);
      if !meta.kind.ScalarResult? && region.None? then Fail(BadHelper)
      else if !env.callable(inst.imm) then Fail(Undefined)
      else
        var r := env.helper(inst.imm, HelperArgs(c), c.mem);
        if inst.imm == env.unwind && r.value == 0 then Done(0, r.mem)
        else
          match HelperTag(meta, region, r.value)
          case Err(e) => Fail(e)
          case Ok(t) => Next(s.(core := SetReg(c, 0, r.value).(mem := r.mem), tags := ScratchTags(s.tags)[0 := t]))
  }

  /** The tag of a helper's result: a window of `meta.size` bytes at the returned address. */
  function HelperTag(meta: HelperMeta, region: Option<Region>, value: u64): Checked<Tag>
    requires meta.kind.ScalarResult? || region.Some?
  {
    if meta.kind.ScalarResult? then Ok(Scalar)
    else
      var g := region.value;
      if meta.kind.PointerResult? != g.kind.PointerRegion? then Err(BadHelper)
      else if value < g.base || value > g.end || meta.size > g.end - value then Err(BadHelper)
      else if meta.kind.PointerResult? then Ok(Pointer(meta.id, g.perms, value, meta.size))
      else Ok(Handle(meta.id, g.perms, value, meta.size))
  }

  function SafeInitial(env: Env, regs: Regs, mem: Memory): SafeState
  {
    var tags := seq(16, i => Scalar);
    var tags1 := if env.mem != 0 && env.memLen > 0
                 then tags[1 := Pointer(INPUT_ID, ALL_PERMS, env.mem, env.memLen)] else tags;
    SafeState(Initial(env, regs, mem), tags1[10 := Pointer(STACK_ID, ALL_PERMS, env.stack, env.stackLen)], map[],
              seq(MAX_CALL_DEPTH, i => SavedTags(Scalar, Scalar, Scalar, Scalar)))
  }

  function SafeRun(env: Env, s: SafeState, n: nat): Outcome<SafeState>
  {
    if n == 0 then Next(s)
    else
      match SafeRun(env, s, n - 1)
      case Next(t) => SafeStep(env, t)
      case Done(v, m) => Done(v, m)
      case Fail(e) => Fail(e)
  }
}
