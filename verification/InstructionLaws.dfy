/**
  What one step does, told by the opcode byte and the fields of the instruction and stated on numbers, bits and bytes:
  the tables of sections 4 and 5 of RFC 9669, for every state.
  */
module InstructionLaws {
  import opened Words
  import opened Isa
  import opened Semantics
  import opened Machine
  import opened SemanticsLaws
  import opened ArithmeticLaws
  import opened Legacy

  /** There is an instruction to execute and the limit allows it. */
  predicate Ready(env: Env, s: State) { s.pc < |env.prog| && (env.limit == 0 || s.limit > 0) }

  function At(env: Env, s: State): Inst
    requires s.pc < |env.prog|
  {
    env.prog[s.pc]
  }

  /** The upper half of the opcode byte, its source bit and its class. */
  function Code(o: u8): nat { o / 16 }

  predicate FromRegister(o: u8) { (o / 8) % 2 == 1 }

  function Class(o: u8): nat { o % 8 }

  /** The second operand: a register, or the immediate modulo 2^64. */
  predicate Second(inst: Inst, regs: Regs, b: u64)
  {
    if FromRegister(inst.opcode) then b == regs[inst.src] else Congruent(b, inst.imm, 0x1_0000_0000_0000_0000)
  }

  /** The limit counted down if there is one, and at a function entry the usage noted in the current frame. */
  ghost predicate Counted(env: Env, s: State, t: State)
  {
    && t.limit == (if env.limit == 0 then s.limit else s.limit - 1)
    && (forall k :: 0 <= k < MAX_CALL_DEPTH && k != s.depth ==> t.frames[k] == s.frames[k])
    && (s.depth < MAX_CALL_DEPTH ==>
          t.frames[s.depth] ==
          if s.pc == 0 || s.pc in env.funcs then s.frames[s.depth].(usage := env.usage(s.pc)) else s.frames[s.depth])
  }

  const NONE := 16

  /** Nothing else changes: counter at `pc`, all registers but `r` and memory as before. */
  ghost predicate Only(env: Env, s: State, t: State, pc: int, r: int)
  {
    && Congruent(t.pc, pc, 0x1_0000) && t.depth == s.depth && t.mem == s.mem && Counted(env, s, t)
    && (forall k :: 0 <= k < 16 && k != r ==> t.regs[k] == s.regs[k])
  }

  lemma EnterCounts(env: Env, s: State)
    ensures var e := Enter(env, s);
      && e.regs == s.regs && e.mem == s.mem && e.depth == s.depth && Counted(env, s, e) && e.pc == (s.pc + 1) % 0x1_0000
  {
  }

  lemma StepIs(env: Env, s: State)
    requires Ready(env, s)
    ensures Step(env, s) == Execute(env, Enter(env, s), At(env, s))
  {
    hide Execute, Enter;
  }

  lemma PcWraps(pc: int, delta: int)
    ensures Congruent((pc % 0x1_0000 + delta) % 0x1_0000, pc + delta, 0x1_0000) && Congruent(pc % 0x1_0000, pc, 0x1_0000)
  {
    Wraps(pc % 0x1_0000 + delta, 0x1_0000);
    Wraps(pc, 0x1_0000);
    var k := pc / 0x1_0000;
    assert pc % 0x1_0000 + delta == pc + delta + (-k) * 0x1_0000;
    CongruentShift((pc % 0x1_0000 + delta) % 0x1_0000, pc + delta, -k, 0x1_0000);
  }

  lemma OperandIs(inst: Inst, regs: Regs)
    ensures Second(inst, regs, Operand(FromRegister(inst.opcode), inst, regs))
  {
    Wraps(inst.imm, 0x1_0000_0000_0000_0000);
  }

  // ---------------------------------------------------------------- arithmetic

  predicate IsArithmetic(o: u8) { Class(o) in {4, 7} && Code(o) <= 12 && !(Code(o) == 8 && FromRegister(o)) }

  /** Every arithmetic instruction: the destination holds the result the law determines, and nothing else changes. */
  lemma ArithmeticStep(env: Env, s: State)
    requires Ready(env, s) && IsArithmetic(At(env, s).opcode)
    ensures Step(env, s).Next?
    ensures var inst, t := At(env, s), Step(env, s).state; var o, wide := inst.opcode, Class(inst.opcode) == 7;
      && Only(env, s, t, s.pc + 1, inst.dst)
      && exists b: u64 :: Second(inst, s.regs, b) &&
           Results(Code(o), wide, FromRegister(o), inst.offset, Low(wide, s.regs[inst.dst]), Low(wide, b), t.regs[inst.dst])
  {
    var inst, e := At(env, s), Enter(env, s);
    var o, wide, a := inst.opcode, Class(inst.opcode) == 7, s.regs[inst.dst];
    var b := Operand(FromRegister(o), inst, s.regs);
    EnterCounts(env, s);
    OperandIs(inst, s.regs);
    AluResults(Code(o), wide, FromRegister(o), inst.offset, a, b);
    ArithmeticDecodes(o);
    hide Results, AluValue, Second, Operand, Only, Enter, Decode, AluOfCode;
    var v := AluValue(wide, AluOfCode(Code(o)), FromRegister(o), inst.offset, a, b);
    OnlySet(env, s, inst.dst, v);
    assert Step(env, s) == Next(SetReg(e, inst.dst, v));
  }

  /** A step that only sets one register. */
  lemma OnlySet(env: Env, s: State, r: u4, v: u64)
    ensures var t := SetReg(Enter(env, s), r, v); Only(env, s, t, s.pc + 1, r) && t.regs[r] == v
  {
    hide Counted, Congruent, Enter;
    EnterCounts(env, s);
    PcWraps(s.pc + 1, 0);
    CountedSame(env, s, Enter(env, s), SetReg(Enter(env, s), r, v));
  }

  lemma CountedSame(env: Env, s: State, e: State, t: State)
    requires Counted(env, s, e) && t.limit == e.limit && t.frames == e.frames
    ensures Counted(env, s, t)
  {
  }

  lemma ArithmeticDecodes(o: u8)
    requires IsArithmetic(o)
    ensures Decode(o) == Alu(Class(o) == 7, AluOfCode(Code(o)), FromRegister(o))
  {
  }

  // ---------------------------------------------------------------- byte order

  /** Byte-order conversions of 16, 32 and 64 bits: the low bytes, kept (0xd4) or in reverse order, and zeros above. */
  lemma ConversionStep(env: Env, s: State, i: nat)
    requires Ready(env, s) && At(env, s).opcode in {0xd4, 0xdc, 0xd7} && At(env, s).imm in {16, 32, 64} && i < 8
    ensures Step(env, s).Next?
    ensures var inst, t := At(env, s), Step(env, s).state; var n := inst.imm / 8;
      && Only(env, s, t, s.pc + 1, inst.dst)
      && Digit(t.regs[inst.dst], i) ==
         if i >= n then 0 else Digit(s.regs[inst.dst], if inst.opcode == 0xd4 then i else n - 1 - i)
  {
    var inst, e := At(env, s), Enter(env, s);
    var a, n := s.regs[inst.dst], inst.imm / 8;
    ConversionDecodes();
    EnterCounts(env, s);
    var kind := if inst.opcode == 0xd4 then ToLE else if inst.opcode == 0xdc then ToBE else Swap;
    EndDigits(kind, inst.imm, a, i);
    hide EndValue, Only, Enter, Decode, Digit;
    OnlySet(env, s, inst.dst, EndValue(kind, inst.imm, a));
    assert Step(env, s) == Next(SetReg(e, inst.dst, EndValue(kind, inst.imm, a)));
  }

  lemma ConversionDecodes()
    ensures Decode(0xd4) == End(ToLE) && Decode(0xdc) == End(ToBE) && Decode(0xd7) == End(Swap)
  {
  }

  lemma {:induction false} DigitsAbove(n: nat, x: nat, i: nat)
    requires x < Pow2(8 * n) && i >= n
    ensures Digit(x, i) == 0
    decreases n
  {
    hide Pow2;
    if n == 0 {
      Pow2Zero();
      ZeroDigits(i);
    } else {
      ByteShift(n);
      DigitsAbove(n - 1, x / 256, i - 1);
    }
  }

  lemma {:induction false} ZeroDigits(i: nat)
    ensures Digit(0, i) == 0
  {
    if i > 0 {
      ZeroDigits(i - 1);
    }
  }

  lemma {:induction false} DigitsBelow(n: nat, x: nat, i: nat)
    requires i < n
    ensures Digit(x % Pow2(8 * n), i) == Digit(x, i)
    decreases n
  {
    hide Pow2;
    ByteShift(n);
    LowByte(x, Pow2(8 * (n - 1)));
    if i > 0 {
      DigitsBelow(n - 1, x / 256, i - 1);
    }
  }

  lemma LowByte(x: nat, p: nat)
    requires p > 0
    ensures x % (256 * p) % 256 == x % 256 && x % (256 * p) / 256 == x / 256 % p
  {
    var q, r := x / 256 / p, x / 256 % p;
    assert x / 256 == q * p + r && x == 256 * (x / 256) + x % 256;
    assert 256 * (q * p) == q * (256 * p);
    ModUnique(x, 256 * p, q, 256 * r + x % 256);
  }

  lemma TruncatedDigits(imm: i32, a: u64, j: nat)
    requires imm in {16, 32, 64} && j < imm / 8
    ensures Digit(if imm == 16 then ToU16(a) else if imm == 32 then ToU32(a) else a, j) == Digit(a, j)
  {
    hide Pow2, Digit;
    Pow2Widths();
    DigitsBelow(imm / 8, a, j);
  }

  lemma EndDigits(kind: EndKind, imm: i32, a: u64, i: nat)
    requires imm in {16, 32, 64} && i < 8
    ensures Digit(EndValue(kind, imm, a), i) ==
            if i >= imm / 8 then 0 else Digit(a, if kind == ToLE then i else imm / 8 - 1 - i)
  {
    hide Pow2, Digit, SwapBytes;
    var n := imm / 8;
    if i < n {
      EndValueBytes(kind, imm, a, i);
      TruncatedDigits(imm, a, i);
      TruncatedDigits(imm, a, n - 1 - i);
    } else {
      Pow2Widths();
      Narrow(imm, ToU32(a));
      Narrow(imm, ToU16(a));
      DigitsAbove(n, EndValue(kind, imm, a), i);
    }
  }

  // ---------------------------------------------------------------- jumps

  predicate BothSet(a: nat, b: nat, i: nat) { BitOf(a, i) == 1 && BitOf(b, i) == 1 }

  ghost predicate ShareBit(n: nat, a: nat, b: nat) { exists i :: 0 <= i < n && BothSet(a, b, i) }

  /** The comparison with code `hi` on numbers of the given width; the last four and 6, 7 read them with a sign. */
  ghost predicate Compares(hi: nat, wide: bool, a: nat, b: nat)
  {
    var x, y := TwosComplement(Span(wide), a), TwosComplement(Span(wide), b);
    if hi == 1 then a == b
    else if hi == 2 then a > b
    else if hi == 3 then a >= b
    else if hi == 4 then ShareBit(Width(wide), a, b)
    else if hi == 5 then a != b
    else if hi == 6 then x > y
    else if hi == 7 then x >= y
    else if hi == 10 then a < b
    else if hi == 11 then a <= b
    else if hi == 12 then x < y
    else x <= y
  }

  predicate IsConditional(o: u8) { Class(o) in {5, 6} && (1 <= Code(o) <= 7 || 10 <= Code(o) <= 13) }

  lemma ConditionalDecodes(o: u8)
    requires IsConditional(o)
    ensures Decode(o) == Jcc(Class(o) == 5, CondOfCode(Code(o)), FromRegister(o))
  {
  }

  lemma TakenCompares(hi: nat, wide: bool, a: u64, b: u64)
    requires 1 <= hi <= 7 || 10 <= hi <= 13
    ensures Taken(wide, CondOfCode(hi), a, b) <==> Compares(hi, wide, Low(wide, a), Low(wide, b))
  {
    LowIs(wide, a);
    LowIs(wide, b);
    hide Low, ToU32;
    if hi == 4 {
      CommonBit(wide, a, b);
      hide Taken;
      assert CondOfCode(4) == JSET;
    } else if hi in {6, 7, 12, 13} {
      SignedIs(wide, a);
      SignedIs(wide, b);
      hide TwosComplement, Signed32, Signed64;
    }
  }

  lemma LowIs(wide: bool, a: u64)
    ensures Low(wide, a) == if wide then a else ToU32(a)
  {
  }

  /** The AND of two words is not zero exactly when they have a bit in common. */
  lemma CommonBit(wide: bool, a: u64, b: u64)
    ensures Taken(wide, JSET, a, b) <==> ShareBit(Width(wide), Low(wide, a), Low(wide, b))
  {
    hide BitOf, Bitwise32, Bitwise64;
    var x, y, r := Low(wide, a), Low(wide, b), if wide then Bitwise64(And, a, b) else Bitwise32(And, ToU32(a), ToU32(b));
    assert Taken(wide, JSET, a, b) == (r != 0) by { JsetTaken(wide, a, b); }
    forall i | 0 <= i < Width(wide)
      ensures BitOf(r, i) == 1 <==> BothSet(x, y, i)
    {
      BitwiseResults(And, wide, a, b, i);
    }
    if i :| 0 <= i < Width(wide) && BothSet(x, y, i) {
      ZeroBits(i);
      assert BitOf(r, i) == 1;
    } else {
      forall i | 0 <= i < Width(wide)
        ensures BitOf(r, i) != 1 && BitOf(0, i) != 1
      {
        assert !BothSet(x, y, i);
        ZeroBits(i);
      }
      BitwiseUnique(wide, r, 0);
    }
  }

  lemma JsetTaken(wide: bool, a: u64, b: u64)
    ensures Taken(wide, JSET, a, b) == ((if wide then Bitwise64(And, a, b) else Bitwise32(And, ToU32(a), ToU32(b))) != 0)
  {
  }

  lemma {:induction false} ZeroBits(i: nat)
    ensures BitOf(0, i) == 0
  {
    if i > 0 {
      ZeroBits(i - 1);
    }
  }

  /** Every conditional jump: it goes on by its offset exactly when the comparison holds. */
  lemma ConditionalStep(env: Env, s: State)
    requires Ready(env, s) && IsConditional(At(env, s).opcode)
    ensures Step(env, s).Next?
    ensures var inst, t := At(env, s), Step(env, s).state; var o, wide := inst.opcode, Class(inst.opcode) == 5;
      exists b: u64 :: Second(inst, s.regs, b) &&
        Only(env, s, t, s.pc + 1 + (if Compares(Code(o), wide, Low(wide, s.regs[inst.dst]), Low(wide, b)) then inst.offset else 0), NONE)
  {
    hide Step, Taken, Second, Operand, Only, Enter, Decode, Compares, Low, Execute, Counted, CondOfCode;
    var inst, e := At(env, s), Enter(env, s);
    var o, wide, a := inst.opcode, Class(inst.opcode) == 5, s.regs[inst.dst];
    var b := Operand(FromRegister(o), inst, s.regs);
    StepIs(env, s);
    EnterCounts(env, s);
    OperandIs(inst, s.regs);
    ConditionalDecodes(o);
    TakenCompares(Code(o), wide, a, b);
    ExecuteConditional(env, e, inst);
    OnlyJumps(env, s, if Compares(Code(o), wide, Low(wide, a), Low(wide, b)) then inst.offset else 0);
  }

  lemma ExecuteConditional(env: Env, e: State, inst: Inst)
    requires Decode(inst.opcode).Jcc?
    ensures var op := Decode(inst.opcode);
      Execute(env, e, inst) ==
      Next(Jump(e, if Taken(op.wide, op.cond, e.regs[inst.dst], Operand(op.fromReg, inst, e.regs)) then inst.offset else 0))
  {
    hide Decode, Taken, Operand;
  }

  /** A step that only moves the counter. */
  lemma OnlyJumps(env: Env, s: State, delta: int)
    ensures Only(env, s, Jump(Enter(env, s), delta), s.pc + 1 + delta, NONE)
  {
    hide Counted, Congruent, Enter;
    EnterCounts(env, s);
    PcWraps(s.pc + 1, delta);
    CountedSame(env, s, Enter(env, s), Jump(Enter(env, s), delta));
  }

  /** The two unconditional jumps, by offset and by immediate. */
  lemma AlwaysStep(env: Env, s: State)
    requires Ready(env, s) && At(env, s).opcode in {0x05, 0x06}
    ensures Step(env, s).Next?
    ensures var inst := At(env, s);
      Only(env, s, Step(env, s).state, s.pc + 1 + (if inst.opcode == 0x05 then inst.offset else inst.imm), NONE)
  {
    assert Decode(0x05) == Ja && Decode(0x06) == Ja32;
    hide Enter, Decode, Only;
    OnlyJumps(env, s, if At(env, s).opcode == 0x05 then At(env, s).offset else At(env, s).imm);
  }

  // ---------------------------------------------------------------- memory

  function SizeOf(o: u8): nat
  {
    if (o / 8) % 4 == 0 then 4 else if (o / 8) % 4 == 1 then 2 else if (o / 8) % 4 == 2 then 1 else 8
  }

  /** The accessed bytes lie in a block that does not wrap. */
  predicate InBlock(a: int, n: nat, base: u64, len: u64)
  {
    base + len < 0x1_0000_0000_0000_0000 && base <= a && a + n <= base + len
  }

  /** What the legacy interpreter lets through. */
  predicate Fits(env: Env, a: int, n: nat)
  {
    && 0 <= a < 0x1_0000_0000_0000_0000
    && (env.boundsChecked ==>
          a + n < 0x1_0000_0000_0000_0000 &&
          ((env.mem != 0 && InBlock(a, n, env.mem, env.memLen)) || InBlock(a, n, env.stack, env.stackLen) || env.accepts(a, n)))
  }

  lemma AccessFits(env: Env, base: u64, offset: i16, n: nat)
    ensures Access(env, base, offset, n) ==
            if Fits(env, base + offset, n) then Ok(base + offset)
            else Err(if 0 <= base + offset < 0x1_0000_0000_0000_0000 then OutOfBounds else AddressWraps)
  {
  }

  /** `v` is the number whose little-endian bytes are the `n` bytes at `a`. */
  ghost predicate ReadsAs(m: Memory, a: int, n: nat, v: nat)
  {
    v < Pow2(8 * n) && forall i :: 0 <= i < n ==> Digit(v, i) == ByteAt(m, a + i)
  }

  lemma ReadsUnique(m: Memory, a: int, n: nat, v: nat, v': nat)
    requires ReadsAs(m, a, n, v) && ReadsAs(m, a, n, v')
    ensures v == v'
  {
    SameDigits(n, v, v');
  }

  lemma {:induction false} LoadDigit(m: Memory, a: int, n: nat, i: nat)
    requires i < n
    ensures Digit(Load(m, a, n), i) == ByteAt(m, a + i)
    decreases n
  {
    var d, rest := ByteAt(m, a), Load(m, a + 1, n - 1);
    ModUnique(d + 256 * rest, 256, rest, d);
    if i > 0 {
      LoadDigit(m, a + 1, n - 1, i - 1);
    }
  }

  lemma LoadReads(m: Memory, a: int, n: nat)
    ensures ReadsAs(m, a, n, Load(m, a, n))
  {
    forall i | 0 <= i < n
      ensures Digit(Load(m, a, n), i) == ByteAt(m, a + i)
    {
      LoadDigit(m, a, n, i);
    }
  }

  lemma {:induction false} StoreDigit(m: Memory, a: int, v: nat, n: nat, i: nat)
    requires 0 <= a && a + n <= 0x1_0000_0000_0000_0000 && i < n
    ensures ByteAt(Store(m, a, v, n), a + i) == Digit(v, i)
    decreases n
  {
    var m1 := m[ToU64(a) := v % 256];
    if i > 0 {
      StoreDigit(m1, a + 1, v / 256, n - 1, i - 1);
    } else {
      StoreFrame(m1, a + 1, v / 256, n - 1, a);
      assert ByteAt(m1, a) == v % 256;
    }
  }

  /** Memory after a store of the low `n` bytes of `v` at `a`: those bytes there, every other byte as before. */
  ghost predicate Written(m: Memory, m': Memory, a: int, n: nat, v: nat)
  {
    && (forall i :: 0 <= i < n ==> ByteAt(m', a + i) == Digit(v, i))
    && (forall x :: 0 <= x < 0x1_0000_0000_0000_0000 && !(a <= x < a + n) ==> ByteAt(m', x) == ByteAt(m, x))
  }

  lemma StoreWrites(m: Memory, a: int, v: nat, n: nat)
    requires 0 <= a && a + n <= 0x1_0000_0000_0000_0000
    ensures Written(m, Store(m, a, v, n), a, n, v)
  {
    forall i | 0 <= i < n
      ensures ByteAt(Store(m, a, v, n), a + i) == Digit(v, i)
    {
      StoreDigit(m, a, v, n, i);
    }
    forall x | 0 <= x < 0x1_0000_0000_0000_0000 && !(a <= x < a + n)
      ensures ByteAt(Store(m, a, v, n), x) == ByteAt(m, x)
    {
      StoreFrame(m, a, v, n, x);
    }
  }

  predicate IsLoad(o: u8) { o in {0x61, 0x69, 0x71, 0x79, 0x81, 0x89, 0x91} }

  lemma LoadDecodes(o: u8)
    requires IsLoad(o)
    ensures Decode(o) == Ldx(SizeOf(o), o >= 0x81) && SizeOf(o) in {1, 2, 4, 8} && (o >= 0x81 ==> SizeOf(o) != 8)
  {
  }

  /** The value of a load: the bytes read as a number, with a sign for the three opcodes from 0x81 on. */
  ghost predicate Loads(m: Memory, a: int, n: nat, sx: bool, r: u64)
  {
    exists v :: ReadsAs(m, a, n, v) && if sx then Congruent(r, TwosComplement(Pow2(8 * n), v), 0x1_0000_0000_0000_0000) else r == v
  }

  lemma LoadValue(m: Memory, a: u64, n: nat, sx: bool)
    requires n in {1, 2, 4, 8} && (sx ==> n != 8)
    ensures Loads(m, a, n, sx, if sx then LoadSigned(m, a, n) else LoadWord(m, a, n))
  {
    hide ReadsAs, Pow2, Load, Congruent;
    Pow2Widths();
    var v: int := Load(m, a, n);
    LoadReads(m, a, n);
    if sx {
      Wraps(TwosComplement(Pow2(8 * n), v), 0x1_0000_0000_0000_0000);
      SmallValue(v, n);
    }
  }

  lemma SmallValue(v: nat, n: nat)
    requires n in {1, 2, 4} && v < (if n == 1 then 0x100 else if n == 2 then 0x1_0000 else 0x1_0000_0000)
    ensures n == 1 ==> Signed8(v % 0x100) == TwosComplement(0x100, v)
    ensures n == 2 ==> Signed16(v % 0x1_0000) == TwosComplement(0x1_0000, v)
    ensures n == 4 ==> Signed32(v % 0x1_0000_0000) == TwosComplement(0x1_0000_0000, v)
  {
  }

  /** Every load. */
  lemma LoadStep(env: Env, s: State)
    requires Ready(env, s) && IsLoad(At(env, s).opcode)
    ensures var inst := At(env, s); var n, a := SizeOf(inst.opcode), s.regs[inst.src] + inst.offset;
      if !Fits(env, a, n) then Step(env, s).Fail?
      else
        && Step(env, s).Next?
        && Only(env, s, Step(env, s).state, s.pc + 1, inst.dst)
        && Loads(s.mem, a, n, inst.opcode >= 0x81, Step(env, s).state.regs[inst.dst])
  {
    hide Step, Access, Only, Enter, Decode, Loads, LoadSigned, LoadWord, SizeOf, Execute, Counted, Fits, IsLoad;
    var inst, e := At(env, s), Enter(env, s);
    var n, a := SizeOf(inst.opcode), s.regs[inst.src] + inst.offset;
    StepIs(env, s);
    LoadDecodes(inst.opcode);
    EnterCounts(env, s);
    AccessFits(env, s.regs[inst.src], inst.offset, n);
    FitsAddress(env, a, n);
    ExecuteLoad(env, e, inst, n, inst.opcode >= 0x81);
    if Fits(env, a, n) {
      LoadValue(s.mem, a, n, inst.opcode >= 0x81);
      OnlySet(env, s, inst.dst, if inst.opcode >= 0x81 then LoadSigned(s.mem, a, n) else LoadWord(s.mem, a, n));
    }
  }

  predicate IsStore(o: u8) { o in {0x62, 0x6a, 0x72, 0x7a, 0x63, 0x6b, 0x73, 0x7b} }

  lemma StoreDecodes(o: u8)
    requires IsStore(o)
    ensures Decode(o) == (if Class(o) == 2 then St(SizeOf(o)) else Stx(SizeOf(o))) && SizeOf(o) in {1, 2, 4, 8}
  {
  }

  /** Registers, depth and frames as before, the counter one further. */
  ghost predicate OnlyMemory(env: Env, s: State, t: State)
  {
    Only(env, s, t.(mem := s.mem), s.pc + 1, NONE)
  }

  lemma OnlyEnters(env: Env, s: State, m: Memory)
    ensures OnlyMemory(env, s, Enter(env, s).(mem := m))
  {
    hide Counted, Congruent, Enter;
    EnterCounts(env, s);
    PcWraps(s.pc + 1, 0);
    CountedSame(env, s, Enter(env, s), Enter(env, s).(mem := s.mem));
  }

  lemma ExecuteStore(env: Env, e: State, inst: Inst, n: nat, v: u64)
    requires (Decode(inst.opcode) == St(n) && v == ToU64(inst.imm)) || (Decode(inst.opcode) == Stx(n) && v == e.regs[inst.src])
    ensures Execute(env, e, inst) == StoreTo(env, e, e.regs[inst.dst], inst.offset, n, v)
  {
    hide Decode, StoreTo, ToU64;
  }

  /** Every store that does not wrap around the address space: of the immediate modulo 2^64, or of the source register. */
  lemma StoreStep(env: Env, s: State)
    requires Ready(env, s) && IsStore(At(env, s).opcode)
    ensures var inst := At(env, s); var n, a := SizeOf(inst.opcode), s.regs[inst.dst] + inst.offset;
      if !Fits(env, a, n) then Step(env, s).Fail?
      else
        && Step(env, s).Next? && OnlyMemory(env, s, Step(env, s).state)
        && (a + n <= 0x1_0000_0000_0000_0000 ==>
              exists v: u64 :: Written(s.mem, Step(env, s).state.mem, a, n, v) &&
                if Class(inst.opcode) == 2 then Congruent(v, inst.imm, 0x1_0000_0000_0000_0000) else v == s.regs[inst.src])
  {
    hide Step, Access, OnlyMemory, Enter, Decode, Congruent, SizeOf, Written, Store, Execute, Fits, Counted, IsStore, Class;
    var inst, e := At(env, s), Enter(env, s);
    var n, a := SizeOf(inst.opcode), s.regs[inst.dst] + inst.offset;
    StepIs(env, s);
    StoreDecodes(inst.opcode);
    EnterCounts(env, s);
    AccessFits(env, s.regs[inst.dst], inst.offset, n);
    FitsAddress(env, a, n);
    Wraps(inst.imm, 0x1_0000_0000_0000_0000);
    var v := if Class(inst.opcode) == 2 then ToU64(inst.imm) else s.regs[inst.src];
    ExecuteStore(env, e, inst, n, v);
    if Fits(env, a, n) {
      OnlyEnters(env, s, Store(s.mem, a, v, n));
      if a + n <= 0x1_0000_0000_0000_0000 {
        StoreWrites(s.mem, a, v, n);
      }
    }
  }

  /** A 64-bit constant from the immediates of two slots. */
  lemma WideStep(env: Env, s: State)
    requires Ready(env, s) && At(env, s).opcode == 0x18 && s.pc + 1 < |env.prog| <= 65535
    ensures Step(env, s).Next?
    ensures var inst, t := At(env, s), Step(env, s).state; var r := t.regs[inst.dst];
      && Only(env, s, t, s.pc + 2, inst.dst)
      && Congruent(r, inst.imm, 0x1_0000_0000) && Congruent(r / 0x1_0000_0000, env.prog[s.pc + 1].imm, 0x1_0000_0000)
  {
    var inst, e := At(env, s), Enter(env, s);
    assert Decode(0x18) == Lddw;
    EnterCounts(env, s);
    PcWraps(s.pc + 1, 1);
    var low, high: int := ToU32(inst.imm), ToU32(env.prog[s.pc + 1].imm);
    var v := low + 0x1_0000_0000 * high;
    Wraps(inst.imm, 0x1_0000_0000);
    Wraps(env.prog[s.pc + 1].imm, 0x1_0000_0000);
    CongruentShift(v, inst.imm, 0, 0x1_0000_0000) by { WideLowHalf(inst.imm, low, high); }
    ModUnique(v, 0x1_0000_0000, high, low);
    hide Counted, Congruent, Enter, Decode, ToU32;
    var t := SetReg(e.(pc := ToU16(e.pc + 1)), inst.dst, v);
    assert Step(env, s) == Next(t);
    CountedSame(env, s, e, t);
  }

  lemma WideLowHalf(imm: i32, low: int, high: int)
    requires Congruent(low, imm, 0x1_0000_0000)
    ensures Congruent(low + 0x1_0000_0000 * high, imm + 0 * 0x1_0000_0000, 0x1_0000_0000)
  {
    ModShift(low - imm, high, 0x1_0000_0000);
  }

  // ---------------------------------------------------------------- atomics

  /** What an atomic operation leaves where it found `was`; `val` and `r0` are taken in the operation's width. */
  ghost predicate Updates(code: nat, wide: bool, was: nat, val: nat, r0: nat, now: nat)
  {
    if code == 14 then now == val
    else if code == 15 then now == (if was == r0 then val else was)
    else Results(code, wide, true, 0, was, val, now)
  }

  lemma AtomicUpdates(code: nat, wide: bool, was: u64, val: u64, r0: u64)
    requires code in {0, 4, 5, 10, 14, 15} && was < Span(wide)
    ensures Updates(code, wide, was, Low(wide, val), Low(wide, r0), AtomicValue(wide, code, was, val, r0))
  {
    if code in {0, 4, 5, 10} {
      AtomicArithmetic(code, wide, was, val, r0);
      hide AtomicValue;
    } else {
      hide Results, Bitwise32, Bitwise64;
    }
  }

  lemma AtomicArithmetic(code: nat, wide: bool, was: u64, val: u64, r0: u64)
    requires code in {0, 4, 5, 10} && was < Span(wide)
    ensures Results(code, wide, true, 0, was, Low(wide, val), AtomicValue(wide, code, was, val, r0))
  {
    hide Results, AluValue, AtomicValue, Low, Span;
    LowOfShort(wide, was);
    AtomicIsAlu(wide, code, was, val, r0);
    AluResults(code, wide, true, 0, was, val);
  }

  lemma LowOfShort(wide: bool, v: u64)
    requires v < Span(wide)
    ensures Low(wide, v) == v
  {
  }

  /** The register a fetching operation returns the old word in: r0 for a compare-and-exchange, else the source. */
  function Fetched(inst: Inst): int
  {
    if inst.imm % 2 == 0 then NONE else if inst.imm / 16 % 16 == 15 then 0 else inst.src
  }

  /** Memory and registers after an atomic operation on `n` bytes at `a`. */
  ghost predicate AtomicEffect(inst: Inst, n: nat, a: int, s: State, t: State)
  {
    var wide := n == 8;
    exists was, now ::
      && ReadsAs(s.mem, a, n, was) && Written(s.mem, t.mem, a, n, now)
      && Updates(inst.imm / 16 % 16, wide, was, Low(wide, s.regs[inst.src]), Low(wide, s.regs[0]), now)
      && (Fetched(inst) != NONE ==> 0 <= Fetched(inst) < 16 && t.regs[Fetched(inst)] == was)
  }

  /** Every atomic operation on a word that does not wrap around the address space. */
  lemma AtomicStep(env: Env, s: State)
    requires Ready(env, s) && At(env, s).opcode in {0xc3, 0xdb}
    ensures var inst := At(env, s); var n, a := if inst.opcode == 0xdb then 8 else 4, s.regs[inst.dst] + inst.offset;
      if !Fits(env, a, n) || !KnownAtomic(inst.imm) then Step(env, s).Fail?
      else
        && Step(env, s).Next? && Only(env, s, Step(env, s).state.(mem := s.mem), s.pc + 1, Fetched(inst))
        && (a + n <= 0x1_0000_0000_0000_0000 ==> AtomicEffect(inst, n, a, s, Step(env, s).state))
  {
    hide Step, Enter, Only, AtomicEffect, WithAtomicResult, Fits, KnownAtomic, Counted, Fetched;
    var inst, e := At(env, s), Enter(env, s);
    var n, a := if inst.opcode == 0xdb then 8 else 4, s.regs[inst.dst] + inst.offset;
    AtomicDoes(env, s, n);
    EnterCounts(env, s);
    FitsAddress(env, a, n);
    if Fits(env, a, n) && KnownAtomic(inst.imm) {
      AtomicOnly(env, s, inst, a, n);
      if a + n <= 0x1_0000_0000_0000_0000 {
        AtomicHas(inst, n, a, s, e);
      }
    }
  }

  /** The codes of the six operations: ADD, OR, AND, XOR, exchange and compare-and-exchange. */
  predicate KnownAtomic(imm: i32) { imm / 16 % 16 in {0, 4, 5, 10, 14, 15} }

  lemma KnownIs(imm: i32)
    ensures AtomicKnown(AtomicCode(imm)) <==> KnownAtomic(imm)
  {
  }

  lemma AtomicDecodes(o: u8)
    requires o in {0xc3, 0xdb}
    ensures Decode(o) == Atomic(if o == 0xdb then 8 else 4)
  {
  }

  lemma AtomicDoes(env: Env, s: State, n: nat)
    requires Ready(env, s) && At(env, s).opcode in {0xc3, 0xdb} && n == if At(env, s).opcode == 0xdb then 8 else 4
    ensures var inst := At(env, s); var a := s.regs[inst.dst] + inst.offset;
      if Fits(env, a, n) && KnownAtomic(inst.imm)
      then Step(env, s) == Next(WithAtomicResult(Enter(env, s), inst, a, n)) else Step(env, s).Fail?
  {
    hide Step, Access, Enter, Decode, WithAtomicResult, Fits, AtomicKnown, AtomicCode, KnownAtomic, Counted, Execute;
    var inst := At(env, s);
    AtomicDecodes(inst.opcode);
    StepIs(env, s);
    EnterCounts(env, s);
    AccessFits(env, s.regs[inst.dst], inst.offset, n);
    KnownIs(inst.imm);
    ExecuteAtomic(env, Enter(env, s), inst, n);
    FitsAddress(env, s.regs[inst.dst] + inst.offset, n);
  }

  lemma ExecuteAtomic(env: Env, e: State, inst: Inst, n: nat)
    requires (n == 4 || n == 8) && Decode(inst.opcode) == Atomic(n)
    ensures Execute(env, e, inst) ==
            match Access(env, e.regs[inst.dst], inst.offset, n)
            case Err(x) => Fail(x)
            case Ok(a) => if AtomicKnown(AtomicCode(inst.imm)) then Next(WithAtomicResult(e, inst, a, n)) else Fail(UnknownAtomic)
  {
    hide Decode, Access, WithAtomicResult, AtomicKnown, AtomicCode;
  }

  lemma ExecuteLoad(env: Env, e: State, inst: Inst, n: nat, sx: bool)
    requires n <= 8 && Decode(inst.opcode) == Ldx(n, sx)
    ensures Execute(env, e, inst) ==
            match Access(env, e.regs[inst.src], inst.offset, n)
            case Err(x) => Fail(x)
            case Ok(a) => Next(SetReg(e, inst.dst, if sx then LoadSigned(e.mem, a, n) else LoadWord(e.mem, a, n)))
  {
    hide Decode, Access, LoadSigned, LoadWord;
  }

  lemma FitsAddress(env: Env, a: int, n: nat)
    ensures Fits(env, a, n) ==> 0 <= a < 0x1_0000_0000_0000_0000
  {
  }

  lemma AtomicOnly(env: Env, s: State, inst: Inst, a: u64, n: nat)
    requires n == 4 || n == 8
    ensures Only(env, s, WithAtomicResult(Enter(env, s), inst, a, n).(mem := s.mem), s.pc + 1, Fetched(inst))
  {
    hide Counted, Congruent, Enter, Store, AtomicValue;
    EnterCounts(env, s);
    PcWraps(s.pc + 1, 0);
    var e := Enter(env, s);
    CountedSame(env, s, e, WithAtomicResult(e, inst, a, n).(mem := s.mem));
  }

  lemma AtomicHas(inst: Inst, n: nat, a: u64, s: State, e: State)
    requires (n == 4 || n == 8) && a + n <= 0x1_0000_0000_0000_0000 && KnownAtomic(inst.imm)
    requires e.regs == s.regs && e.mem == s.mem
    ensures AtomicEffect(inst, n, a, s, WithAtomicResult(e, inst, a, n))
  {
    hide ReadsAs, Written, Updates, AtomicValue, Load, Store, Low, Pow2;
    var wide, code, was := n == 8, inst.imm / 16 % 16, LoadWord(s.mem, a, n);
    WordBelow(s.mem, a, n);
    LoadReads(s.mem, a, n);
    AtomicUpdates(code, wide, was, s.regs[inst.src], s.regs[0]);
    var now := AtomicValue(wide, code, was, s.regs[inst.src], s.regs[0]);
    StoreWrites(s.mem, a, now, n);
    var t := WithAtomicResult(e, inst, a, n);
    assert t.mem == Store(s.mem, a, now, n);
    assert Fetched(inst) != NONE ==> t.regs[Fetched(inst)] == was;
  }

  lemma WordBelow(m: Memory, a: u64, n: nat)
    requires n == 4 || n == 8
    ensures LoadWord(m, a, n) == Load(m, a, n) < Span(n == 8)
  {
    hide Load, Pow2;
    Pow2Widths();
  }

  // ---------------------------------------------------------------- calls and exits

  /** A helper call: r1 to r5 and memory go in, r0 and memory come out, and the unwinding helper ends the run with 0. */
  lemma HelperStep(env: Env, s: State)
    requires Ready(env, s) && At(env, s).opcode == 0x85 && At(env, s).src == 0 && env.callable(At(env, s).imm)
    ensures var inst, g := At(env, s), s.regs; var r := env.helper(inst.imm, [g[1], g[2], g[3], g[4], g[5]], s.mem);
      if inst.imm == env.unwind && r.value == 0 then Step(env, s) == Done(0, r.mem)
      else
        && Step(env, s).Next? && Only(env, s, Step(env, s).state.(mem := s.mem), s.pc + 1, 0)
        && Step(env, s).state.regs[0] == r.value && Step(env, s).state.mem == r.mem
  {
    var inst, g, e := At(env, s), s.regs, Enter(env, s);
    assert Decode(0x85) == Call;
    EnterCounts(env, s);
    assert HelperArgs(e) == [g[1], g[2], g[3], g[4], g[5]];
    var r := env.helper(inst.imm, [g[1], g[2], g[3], g[4], g[5]], s.mem);
    OnlySet(env, s, 0, r.value);
    hide Enter, Decode, HelperArgs;
    if !(inst.imm == env.unwind && r.value == 0) {
      assert Step(env, s) == Next(SetReg(e, 0, r.value).(mem := r.mem));
      assert SetReg(e, 0, r.value).(mem := r.mem).(mem := s.mem) == SetReg(e, 0, r.value);
    }
  }

  /** A helper that returns its `k`th argument leaves the old register `k` in r0. */
  lemma HelperSeesArgument(env: Env, s: State, k: nat)
    requires Ready(env, s) && At(env, s).opcode == 0x85 && At(env, s).src == 0 && env.callable(At(env, s).imm) && 1 <= k <= 5
    requires At(env, s).imm != env.unwind
    requires forall args: seq<u64>, m: Memory :: |args| == 5 ==> env.helper(At(env, s).imm, args, m).value == args[k - 1]
    ensures Step(env, s).Next? && Step(env, s).state.regs[0] == s.regs[k]
  {
    hide Only;
    HelperStep(env, s);
  }

  /** The other registers do not reach the helper. */
  lemma HelperIgnoresOthers(env: Env, s: State, s': State)
    requires Ready(env, s) && At(env, s).opcode == 0x85 && At(env, s).src == 0 && env.callable(At(env, s).imm)
    requires s'.pc == s.pc && s'.limit == s.limit && s'.mem == s.mem && forall k :: 1 <= k <= 5 ==> s'.regs[k] == s.regs[k]
    ensures Step(env, s).Next? <==> Step(env, s').Next?
    ensures Step(env, s).Next? ==>
              Step(env, s').state.regs[0] == Step(env, s).state.regs[0] && Step(env, s').state.mem == Step(env, s).state.mem
  {
    hide Only;
    HelperStep(env, s);
    HelperStep(env, s');
  }

  /** A local call below the greatest depth: the frame saved, r10 lowered by the caller's usage, the counter moved. */
  lemma LocalCallStep(env: Env, s: State)
    requires Ready(env, s) && At(env, s).opcode == 0x85 && At(env, s).src == 1
    ensures s.depth == 8 <==> Step(env, s) == Fail(CallTooDeep)
    ensures s.depth < 8 ==>
      && Step(env, s).Next?
      && var t, imm := Step(env, s).state, At(env, s).imm;
         var usage := if s.pc == 0 || s.pc in env.funcs then env.usage(s.pc) else s.frames[s.depth].usage;
         && Congruent(t.pc, s.pc + 1 + imm, 0x1_0000) && t.depth == s.depth + 1 && t.mem == s.mem
         && t.limit == (if env.limit == 0 then s.limit else s.limit - 1)
         && t.frames == s.frames[s.depth := Frame(usage, ToU16(s.pc + 1), s.regs[6], s.regs[7], s.regs[8], s.regs[9])]
         && Congruent(t.regs[10], s.regs[10] - usage, 0x1_0000_0000_0000_0000)
         && (forall k :: 0 <= k < 16 && k != 10 ==> t.regs[k] == s.regs[k])
  {
    hide Step, Execute, Enter, Congruent, Counted, ToU16, ToU64;
    StepIs(env, s);
    EnterCounts(env, s);
    ExecuteLocalCall(env, Enter(env, s), At(env, s));
    if s.depth < MAX_CALL_DEPTH {
      LocalCallFrame(env, s, At(env, s).imm);
    }
  }

  lemma ExecuteLocalCall(env: Env, e: State, inst: Inst)
    requires inst.opcode == 0x85 && inst.src == 1
    ensures Execute(env, e, inst) == if e.depth >= MAX_CALL_DEPTH then Fail(CallTooDeep) else Next(PushFrame(e, inst.imm))
  {
    assert Decode(0x85) == Call;
    hide Decode, PushFrame;
  }

  lemma LocalCallFrame(env: Env, s: State, imm: i32)
    requires s.depth < MAX_CALL_DEPTH
    ensures var t := PushFrame(Enter(env, s), imm);
      var usage := if s.pc == 0 || s.pc in env.funcs then env.usage(s.pc) else s.frames[s.depth].usage;
      && Congruent(t.pc, s.pc + 1 + imm, 0x1_0000) && t.depth == s.depth + 1 && t.mem == s.mem
      && t.limit == (if env.limit == 0 then s.limit else s.limit - 1)
      && t.frames == s.frames[s.depth := Frame(usage, ToU16(s.pc + 1), s.regs[6], s.regs[7], s.regs[8], s.regs[9])]
      && Congruent(t.regs[10], s.regs[10] - usage, 0x1_0000_0000_0000_0000)
      && (forall k :: 0 <= k < 16 && k != 10 ==> t.regs[k] == s.regs[k])
  {
    hide Congruent;
    PcWraps(s.pc + 1, imm);
    var usage := if s.pc == 0 || s.pc in env.funcs then env.usage(s.pc) else s.frames[s.depth].usage;
    Wraps(s.regs[10] - usage, 0x1_0000_0000_0000_0000);
  }

  /** The other kinds of call. */
  lemma OtherCallStep(env: Env, s: State)
    requires Ready(env, s) && At(env, s).opcode == 0x85 && At(env, s).src > 1
    ensures if At(env, s).src == 2 then Step(env, s) == Fail(CallByBtfId)
            else Step(env, s).Next? && Only(env, s, Step(env, s).state, s.pc + 1, NONE)
  {
    assert Decode(0x85) == Call;
    OnlyEnters(env, s, s.mem);
    EnterCounts(env, s);
    hide Decode, Only, Enter;
    assert Enter(env, s).(mem := s.mem) == Enter(env, s);
  }

  /** EXIT: back to the caller with r6 to r9 restored and r10 raised, or the end of the run with r0. */
  lemma ExitStep(env: Env, s: State)
    requires Ready(env, s) && At(env, s).opcode == 0x95
    ensures s.depth == 0 ==> Step(env, s) == Done(s.regs[0], s.mem)
    ensures s.depth > 0 ==>
      && Step(env, s).Next?
      && var t, f := Step(env, s).state, s.frames[s.depth - 1];
         && t.pc == f.ret && t.depth == s.depth - 1 && t.mem == s.mem && Counted(env, s, t)
         && t.regs[6] == f.r6 && t.regs[7] == f.r7 && t.regs[8] == f.r8 && t.regs[9] == f.r9
         && Congruent(t.regs[10], s.regs[10] + f.usage, 0x1_0000_0000_0000_0000)
         && (forall k :: 0 <= k < 16 && !(6 <= k <= 10) ==> t.regs[k] == s.regs[k])
  {
    assert Decode(0x95) == Exit;
    EnterCounts(env, s);
    hide Decode, Congruent;
    if s.depth > 0 {
      Wraps(s.regs[10] + s.frames[s.depth - 1].usage, 0x1_0000_0000_0000_0000);
    }
  }

  // ---------------------------------------------------------------- nothing else

  predicate IsKnown(o: u8)
  {
    || IsArithmetic(o) || IsConditional(o) || IsLoad(o) || IsStore(o)
    || o in {0xd4, 0xdc, 0xd7, 0x05, 0x06, 0x18, 0x85, 0x95, 0xc3, 0xdb}
  }

  /** Where there is no such instruction the run stops: past the end, at the limit, or at any other opcode byte. */
  lemma StepStops(env: Env, s: State)
    ensures s.pc >= |env.prog| ==> Step(env, s) == Fail(PcPastEnd)
    ensures s.pc < |env.prog| && !Ready(env, s) ==> Step(env, s) == Fail(LimitExceeded)
    ensures Ready(env, s) && !IsKnown(At(env, s).opcode) ==> Step(env, s) == Fail(UnknownOpcode)
  {
    if Ready(env, s) && !IsKnown(At(env, s).opcode) {
      UnknownDecodes(At(env, s).opcode);
      hide Decode;
    }
  }

  lemma UnknownDecodes(o: u8)
    requires !IsKnown(o)
    ensures Decode(o) == Unknown
  {
    OpcodeFields(o);
  }

  /** What a program finds in its registers: the address and length of its input, the stack's end, and the given values. */
  lemma EntryValues(env: Env, regs: Regs, mem: Memory, k: u4)
    requires env.prog == [Inst(0xbf, 0, k, 0, 0), Inst(0x95, 0, 0, 0, 0)] && env.limit == 0
    ensures Run(env, Initial(env, regs, mem), 2).Done? && Run(env, Initial(env, regs, mem), 2).mem == mem
    ensures var v := Run(env, Initial(env, regs, mem), 2).value;
      if k == 1 then v == env.mem else if k == 2 then v == env.memLen
      else if k == 10 then Congruent(v, env.stack + env.stackLen, 0x1_0000_0000_0000_0000)
      else v == regs[k]
  {
    var s := Initial(env, regs, mem);
    Wraps(env.stack + env.stackLen, 0x1_0000_0000_0000_0000);
    assert Ready(env, s) && IsArithmetic(0xbf);
    ArithmeticStep(env, s);
    var t := Step(env, s).state;
    assert t.pc == 1 && t.depth == 0;
    ExitStep(env, t);
    assert Run(env, s, 0) == Next(s) && Run(env, s, 1) == Step(env, s) && Run(env, s, 2) == Step(env, t);
  }
}
