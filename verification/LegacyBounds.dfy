/** What the legacy bounds check keeps: bytes outside input, stack and callback-accepted ranges never change. */
module LegacyBounds {
  import opened Words
  import opened Isa
  import opened Semantics
  import opened Machine
  import opened Legacy

  /** A byte of the input or the stack, or of a range the callback accepts. */
  ghost predicate Reachable(env: Env, x: int)
  {
    || (env.mem != 0 && env.mem <= x < env.mem + env.memLen)
    || env.stack <= x < env.stack + env.stackLen
    || exists a: u64, n: nat :: env.accepts(a, n) && a <= x < a + n
  }

  /** A passed access lies within the address space and touches only reachable bytes. */
  lemma AccessIsReachable(env: Env, base: u64, offset: i16, size: nat, x: int)
    requires env.boundsChecked && Access(env, base, offset, size).Ok?
    requires var a := Access(env, base, offset, size).value; a <= x < a + size
    ensures Access(env, base, offset, size).value == base + offset && 0 <= x < 0x1_0000_0000_0000_0000 && Reachable(env, x)
  {
    var a: u64 := base + offset;
    assert BoundsOk(env, a, size);
  }

  /** Conversely, an access inside the input or the stack passes. */
  lemma InsideIsAccepted(env: Env, base: u64, offset: i16, size: nat)
    requires 0 <= base + offset && base + offset + size < 0x1_0000_0000_0000_0000
    requires (env.mem != 0 && Inside(base + offset, size, env.mem, env.memLen)) || Inside(base + offset, size, env.stack, env.stackLen)
    ensures Access(env, base, offset, size) == Ok(base + offset)
  {
  }

  /** Helpers write only reachable bytes. */
  ghost predicate HelpersStayInside(env: Env)
  {
    forall i: int, args: seq<u64>, m: Memory, x: u64 ::
      ByteAt(env.helper(i, args, m).mem, x) != ByteAt(m, x) ==> Reachable(env, x)
  }

  /** Bytes that are not reachable are the same in both memories. */
  ghost predicate KeepsOutside(env: Env, m: Memory, m': Memory)
  {
    forall x: u64 :: ByteAt(m', x) != ByteAt(m, x) ==> Reachable(env, x)
  }

  lemma StoreKeepsOutside(env: Env, m: Memory, base: u64, offset: i16, size: nat, v: nat)
    requires env.boundsChecked && Access(env, base, offset, size).Ok? && size <= 8
    ensures KeepsOutside(env, m, Store(m, Access(env, base, offset, size).value, v, size))
  {
    hide Access, Store, ByteAt, Reachable;
    var a := Access(env, base, offset, size).value;
    AccessFits(env, base, offset, size);
    forall x: u64 | ByteAt(Store(m, a, v, size), x) != ByteAt(m, x)
      ensures Reachable(env, x)
    {
      if !(a <= x < a + size) {
        StoreFrame(m, a, v, size, x);
      } else {
        AccessIsReachable(env, base, offset, size, x);
      }
    }
  }

  lemma AccessFits(env: Env, base: u64, offset: i16, size: nat)
    requires env.boundsChecked && Access(env, base, offset, size).Ok?
    ensures Access(env, base, offset, size).value + size < 0x1_0000_0000_0000_0000
  {
  }

  lemma ExecuteKeepsOutside(env: Env, s: State, inst: Inst)
    requires env.boundsChecked && HelpersStayInside(env)
    ensures match Execute(env, s, inst)
      case Next(t) => KeepsOutside(env, s.mem, t.mem)
      case Done(_, m) => KeepsOutside(env, s.mem, m)
      case Fail(_) => true
  {
    hide Decode, AluValue, EndValue, Taken, Access, WideImmediate, LoadWord, LoadSigned, Store, AtomicValue, ByteAt, Reachable, ToU64;
    DecodeSizes(inst.opcode);
    match Decode(inst.opcode)
    case St(size) => StoreToKeeps(env, s, s.regs[inst.dst], inst.offset, size, ToU64(inst.imm));
    case Stx(size) => StoreToKeeps(env, s, s.regs[inst.dst], inst.offset, size, s.regs[inst.src]);
    case Atomic(size) =>
      if Access(env, s.regs[inst.dst], inst.offset, size).Ok? {
        AtomicKeepsOutside(env, s, inst, size);
      }
    case _ =>
  }

  lemma StoreToKeeps(env: Env, s: State, base: u64, offset: i16, size: nat, v: u64)
    requires env.boundsChecked && size <= 8
    ensures var o := StoreTo(env, s, base, offset, size, v); o.Next? ==> KeepsOutside(env, s.mem, o.state.mem)
  {
    hide Access, Store, KeepsOutside;
    if Access(env, base, offset, size).Ok? {
      StoreKeepsOutside(env, s.mem, base, offset, size, v);
    }
  }

  lemma AtomicKeepsOutside(env: Env, s: State, inst: Inst, size: nat)
    requires env.boundsChecked && (size == 4 || size == 8) && Access(env, s.regs[inst.dst], inst.offset, size).Ok?
    ensures KeepsOutside(env, s.mem, WithAtomicResult(s, inst, Access(env, s.regs[inst.dst], inst.offset, size).value, size).mem)
  {
    hide Access, Store, KeepsOutside, LoadWord, AtomicValue;
    var was := LoadWord(s.mem, Access(env, s.regs[inst.dst], inst.offset, size).value, size);
    StoreKeepsOutside(env, s.mem, s.regs[inst.dst], inst.offset, size,
                      AtomicValue(size == 8, AtomicCode(inst.imm), was, s.regs[inst.src], s.regs[0]));
  }

  lemma EnterKeepsMemory(env: Env, s: State)
    ensures Enter(env, s).mem == s.mem
  {
  }

  /** With bounds checking on, no run of any program changes a byte outside what it may reach. */
  lemma {:induction false} RunsStayInside(env: Env, regs: Regs, mem: Memory, n: nat)
    requires env.boundsChecked && HelpersStayInside(env)
    ensures match Run(env, Initial(env, regs, mem), n)
      case Next(t) => KeepsOutside(env, mem, t.mem)
      case Done(_, m) => KeepsOutside(env, mem, m)
      case Fail(_) => true
  {
    hide Execute, Reachable, ByteAt, HelpersStayInside, Enter;
    var s0 := Initial(env, regs, mem);
    assert s0.mem == mem;
    if n > 0 {
      RunsStayInside(env, regs, mem, n - 1);
      var o := Run(env, s0, n - 1);
      if o.Next? && o.state.pc < |env.prog| {
        EnterKeepsMemory(env, o.state);
        ExecuteKeepsOutside(env, Enter(env, o.state), env.prog[o.state.pc]);
      }
    }
  }
}
