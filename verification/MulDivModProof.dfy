/** The lowering computes the interpreter's result and restores every other mapped register and the host stack. */
module MulDivModProof {
  import opened Words
  import opened Isa
  import opened Semantics
  import opened HostFlags
  import opened X86
  import opened Blinding
  import opened MulDivMod

  /** Memory and the registers outside the sequence's own RAX, RCX, RDX and R11 are unchanged. */
  predicate Keeps(m: Machine, m': Machine)
  {
    && m'.mem == m.mem
    && (forall r: Reg :: r !in {RAX, RCX, RDX, R11} ==> m'.regs[r] == m.regs[r])
  }

  function Saved(dst: Reg, m: Machine): seq<Word>
  {
    (if dst != RAX then [Value(m.regs[RAX])] else []) + (if dst != RDX then [Value(m.regs[RDX])] else [])
  }

  lemma Singletons()
    ensures forall i: XInst :: [i] + [] == [i]
    ensures forall i: XInst, j: XInst :: [i] + [j] == [i, j]
  {
  }

  // ---------------------------------------------------------------- segments

  lemma SaveScratchRuns(dst: Reg, m: Machine, junk: Flags)
    ensures Exec(SaveScratch(dst), m, junk) == Some(m.(stack := m.stack + Saved(dst, m)))
  {
    var code := SaveScratch(dst);
    assert code[0..] == code && code[|code|..] == [];
    ExecAt(code, 0, m, junk);
    var m1 := Do(code[0], m, junk).value;
    if |code| == 2 {
      ExecAt(code, 1, m1, junk);
      assert m.stack + [Value(m.regs[RAX])] + [Value(m.regs[RDX])] == m.stack + Saved(dst, m);
    } else {
      assert Saved(dst, m) == [Value(m.regs[code[0].reg])];
    }
  }

  lemma LoadOperandsRuns(source: Source, dst: Reg, m: Machine, junk: Flags)
    requires dst != RCX && dst != R11
    ensures var o := Exec(LoadOperands(source, dst), m, junk);
      && o.Some? && o.value.stack == m.stack && Keeps(m, o.value)
      && o.value.regs[RCX] == OperandOf(source, m) && o.value.regs[RAX] == m.regs[dst] && o.value.regs[RDX] == m.regs[RDX]
  {
    Singletons();
    hide LoadImm, LoadImmBlinded;
    var mv := Rr(MovOp, true, RAX, dst);
    match source
    case FromReg(src) =>
      ExecOne(Rr(MovOp, true, RCX, src), [mv], m, junk);
      ExecOne(mv, [], Set(m, RCX, m.regs[src]), junk);
    case FromImm(imm) =>
      LoadImmLoads(RCX, ToU64(imm), m, junk);
      ExecAppend(LoadImm(RCX, ToU64(imm)), [mv], m, junk);
      ExecOne(mv, [], Set(m, RCX, ToU64(imm)), junk);
    case FromBlinded(imm, random) =>
      LoadImmLoads(RCX, ToU64(imm), m, junk);
      LoadImmBlindedAgrees(RCX, ToU64(imm), random, m, junk);
      var c := LoadImmBlinded(RCX, ToU64(imm), random);
      var m1 := Exec(c, m, junk).value;
      ExecAppend(c, [mv], m, junk);
      ExecOne(mv, [], m1, junk);
      assert m1.regs[dst] == m.regs[dst] && m1.regs[RDX] == m.regs[RDX];
  }

  lemma {:induction false} AndSelf(n: nat, a: nat)
    requires a < Pow2(n)
    ensures Bits(And, n, a, a) == a && Bits(Xor, n, a, a) == 0
  {
    if n > 0 {
      AndSelf(n - 1, a / 2);
    }
  }

  lemma AndSelfWords(a: u64)
    ensures Bitwise64(And, a, a) == a && Bitwise32(And, ToU32(a), ToU32(a)) == ToU32(a)
    ensures Bitwise32(Xor, ToU32(a), ToU32(a)) == 0
  {
    Pow2Widths();
    hide Bits, Pow2;
    AndSelf(64, a);
    AndSelf(32, ToU32(a));
  }

  /** TEST of a register with itself sets the zero flag exactly on zero; XOR with itself clears it. */
  lemma SelfOperations(wide: bool, a: u64)
    ensures TestFlags(wide, a, a).zero <==> Low(wide, a) == 0
    ensures BinaryValue(XorOp, false, a, a) == 0
  {
    hide Bitwise64, Bitwise32;
    AndSelfWords(a);
  }

  /** A zero divisor is replaced by 1. */
  function FixedDivisor(wide: bool, b: u64): u64 { if Low(wide, b) == 0 then 1 else b }

  function ExtendedHigh(wide: bool, signed: bool, a: u64): u64
  {
    if signed && SignedLow(wide, a) < 0 then Modulus(wide) - 1 else 0
  }

  lemma TestDivisorRuns(kind: Kind, wide: bool, m: Machine, junk: Flags)
    ensures var b := m.regs[RCX];
      Exec(TestDivisor(kind, wide), m, junk) ==
        Some(m.(flags := TestFlags(wide, b, b), stack := m.stack + if kind.KMod? then [Value(m.regs[RAX])] else []))
  {
    hide TestFlags, Exec;
    var code := TestDivisor(kind, wide);
    assert code[0..] == code && code[|code|..] == [];
    ExecAt(code, 0, m, junk);
    var m1 := Do(code[0], m, junk).value;
    if kind.KMod? {
      ExecAt(code, 1, m1, junk);
      ExecNothing(Do(code[1], m1, junk).value, junk);
    } else {
      ExecNothing(m1, junk);
      assert m.stack + [] == m.stack;
    }
  }

  lemma FixDivisorRuns(wide: bool, signed: bool, m: Machine, junk: Flags)
    ensures var o := Exec(FixDivisor(wide, signed), m, junk);
      && o.Some? && Keeps(m, o.value) && o.value.regs[RAX] == m.regs[RAX]
      && o.value.regs[RCX] == (if m.flags.zero then 1 else m.regs[RCX])
      && o.value.regs[RDX] == ExtendedHigh(wide, signed, m.regs[RAX])
      && o.value.stack == m.stack + [SavedFlags(m.flags)]
  {
    hide Exec, Do, ExtendedHigh;
    var code := FixDivisor(wide, signed);
    var m1 := m.(stack := m.stack + [SavedFlags(m.flags)]);
    var m2 := Set(m1, RDX, 1);
    var m3 := if m.flags.zero then Set(m2, RCX, 1) else m2;
    DoMovImm(RDX, 1, m1, junk);
    DoCmov(RCX, RDX, m2, junk);
    LastExtends(wide, signed, m3, junk);
    assert code[0..] == code && code[4..] == [];
    ExecAt(code, 0, m, junk);
    DoPushfq(m, junk);
    ExecAt(code, 1, m1, junk);
    ExecAt(code, 2, m2, junk);
    ExecAt(code, 3, m3, junk);
    ExecNothing(Do(code[3], m3, junk).value, junk);
  }

  lemma DoPushfq(m: Machine, junk: Flags)
    ensures Do(Pushfq, m, junk) == Some(m.(stack := m.stack + [SavedFlags(m.flags)]))
  {
  }

  lemma DoCmov(dst: Reg, src: Reg, m: Machine, junk: Flags)
    ensures Do(CmovZero(dst, src), m, junk) == Some(if m.flags.zero then Set(m, dst, m.regs[src]) else m)
  {
  }

  lemma DoMovImm(r: Reg, imm: i32, m: Machine, junk: Flags)
    ensures Do(Ri(MovOp, true, r, imm), m, junk) == Some(Set(m, r, ToU64(imm)))
  {
  }

  /** The last instruction of the fix: CQO or CDQ when signed, otherwise clearing EDX. */
  lemma LastExtends(wide: bool, signed: bool, m: Machine, junk: Flags)
    ensures var o := Do(FixDivisor(wide, signed)[3], m, junk);
      o.Some? && o.value.(flags := m.flags) == Set(m, RDX, ExtendedHigh(wide, signed, m.regs[RAX]))
  {
    SelfOperations(false, m.regs[RDX]);
    hide BinaryValue, BinaryFlags;
  }

  lemma PrepareDivideRuns(kind: Kind, wide: bool, signed: bool, m: Machine, junk: Flags)
    ensures var o := Exec(PrepareDivide(kind, wide, signed), m, junk);
      var a, b := m.regs[RAX], m.regs[RCX];
      && o.Some? && Keeps(m, o.value) && o.value.regs[RAX] == a
      && o.value.regs[RCX] == FixedDivisor(wide, b) && o.value.regs[RDX] == ExtendedHigh(wide, signed, a)
      && o.value.stack == m.stack + (if kind.KMod? then [Value(a)] else []) + [SavedFlags(TestFlags(wide, b, b))]
  {
    hide TestDivisor, FixDivisor, TestFlags, Exec, ExtendedHigh, Low;
    TestDivisorRuns(kind, wide, m, junk);
    var m1 := Exec(TestDivisor(kind, wide), m, junk).value;
    ExecAppend(TestDivisor(kind, wide), FixDivisor(wide, signed), m, junk);
    FixDivisorRuns(wide, signed, m1, junk);
    SelfOperations(wide, m.regs[RCX]);
  }

  lemma ExecNothing(m: Machine, junk: Flags)
    ensures Exec([], m, junk) == Some(m)
  {
  }

  // ---------------------------------------------------------------- the divide instructions

  lemma UnsignedDivide(wide: bool, m: Machine, junk: Flags)
    requires m.regs[RDX] == 0 && Low(wide, m.regs[RCX]) != 0
    ensures var x, y := Low(wide, m.regs[RAX]), Low(wide, m.regs[RCX]);
      && 0 <= x / y <= x && 0 <= x % y <= x
      && Do(Div(wide, false, RCX), m, junk) == Some(m.(regs := m.regs[RAX := x / y][RDX := x % y], flags := junk))
  {
    var x, y, w := Low(wide, m.regs[RAX]), Low(wide, m.regs[RCX]), Modulus(wide);
    DivShrinks(x, y);
    assert CDiv(x, y) == x / y && CMod(x, y) == x % y;
    assert UMod(x, y) == x % y;
    assert 0 * w + x == x;
    SmallMod(x / y, w);
    SmallMod(x % y, w);
    hide CDiv, CMod;
  }

  lemma SmallMod(a: nat, w: int)
    requires a < w
    ensures a % w == a
  {
  }

  /** The quotient is no larger in size than the dividend, and as large only for a divisor of 1 or -1. */
  lemma QuotientFits(half: int, x: int, y: int)
    requires half > 0 && -half <= x < half && y != 0 && !(x == -half && y == -1)
    ensures -half <= CDiv(x, y) < half
  {
    var a, b := if x < 0 then -x else x, if y < 0 then -y else y;
    DivShrinks(a, b);
    DivSign(a, y);
    if b >= 2 {
      HalfQuotient(a, b);
    }
  }

  lemma DivSign(a: nat, y: int)
    requires y != 0
    ensures y < 0 ==> a / y == -(a / -y)
  {
    if y < 0 {
      ModUnique(a, -y, a / -y, a % -y);
    }
  }

  lemma HalfQuotient(a: nat, b: nat)
    requires b >= 2
    ensures 2 * (a / b) <= a
  {
    var q, r := a / b, a % b;
    assert a == b * q + r;
    MulAtLeast(b - 1, q);
    assert b * q == (b - 1) * q + q;
  }

  /** RDX:RAX after sign extension is the signed dividend itself. */
  lemma ExtendedDividend(wide: bool, a: u64)
    ensures SignedLow(wide, ExtendedHigh(wide, true, a)) * Modulus(wide) + Low(wide, a) == SignedLow(wide, a)
  {
  }

  lemma SignedDivide(wide: bool, m: Machine, junk: Flags)
    requires m.regs[RDX] == ExtendedHigh(wide, true, m.regs[RAX])
    requires var x, y := SignedLow(wide, m.regs[RAX]), SignedLow(wide, m.regs[RCX]);
      y != 0 && !(x == -Modulus(wide) / 2 && y == -1)
    ensures var x, y, w := SignedLow(wide, m.regs[RAX]), SignedLow(wide, m.regs[RCX]), Modulus(wide);
      Do(Div(wide, true, RCX), m, junk) ==
        Some(m.(regs := m.regs[RAX := CDiv(x, y) % w][RDX := CMod(x, y) % w], flags := junk))
  {
    var x, y, w := SignedLow(wide, m.regs[RAX]), SignedLow(wide, m.regs[RCX]), Modulus(wide);
    ExtendedDividend(wide, m.regs[RAX]);
    assert -w / 2 <= x < w / 2;
    QuotientFits(w / 2, x, y);
    hide CDiv, CMod, ExtendedHigh;
  }

  /** What the guarded IDIV leaves: quotient or remainder, with the overflowing case wrapped around. */
  ghost predicate Divided(kind: Kind, wide: bool, m: Machine, m': Machine)
  {
    var x, y, w := SignedLow(wide, m.regs[RAX]), SignedLow(wide, m.regs[RCX]), Modulus(wide);
    && Keeps(m, m') && m'.stack == m.stack
    && (kind.KDiv? ==> Low(wide, m'.regs[RAX]) == SDiv(-w / 2, x, y) % w)
    && (kind.KMod? ==> Low(wide, m'.regs[RDX]) == SMod(-w / 2, x, y) % w)
  }

  lemma CompareMinusOne(wide: bool, a: u64)
    ensures SubFlags(wide, a, ToU64(-1)).zero <==> SignedLow(wide, a) == -1
  {
  }

  lemma CompareLeast(wide: bool, a: u64)
    ensures SubFlags(wide, a, if wide then 0x8000_0000_0000_0000 else ToU64(-0x8000_0000)).zero
            <==> SignedLow(wide, a) == -Modulus(wide) / 2
  {
  }

  /** The position of the IDIV and the path through it. */
  lemma IdivPath(kind: Kind, wide: bool, m: Machine, junk: Flags)
    requires kind.KDiv? || kind.KMod?
    requires m.regs[RDX] == ExtendedHigh(wide, true, m.regs[RAX])
    requires var x, y := SignedLow(wide, m.regs[RAX]), SignedLow(wide, m.regs[RCX]);
      y != 0 && !(x == -Modulus(wide) / 2 && y == -1)
    ensures var code := GuardedIdiv(kind, wide); var o := Exec(code[|code| - 1..], m, junk);
      o.Some? && Divided(kind, wide, m, o.value)
  {
    var code := GuardedIdiv(kind, wide);
    var n := |code|;
    ExecAt(code, n - 1, m, junk);
    SignedDivide(wide, m, junk);
    ExecNothing(Do(Div(wide, true, RCX), m, junk).value, junk);
    assert code[n..] == [];
    hide Exec, CDiv, CMod, SignedLow, ExtendedHigh, Do;
    LowOfMod(wide);
  }

  lemma LowOfMod(wide: bool)
    ensures forall v: int :: 0 <= v % Modulus(wide) < 0x1_0000_0000_0000_0000 && Low(wide, v % Modulus(wide)) == v % Modulus(wide)
  {
  }

  /** Comparing the dividend with the least value: position of the second JNE, and the machine there. */
  lemma LeastCompared(kind: Kind, wide: bool, m: Machine, junk: Flags) returns (m': Machine)
    ensures var code := GuardedIdiv(kind, wide); var p := if wide then 4 else 3;
      Exec(code[2..], m, junk) == Exec(code[p..], m', junk)
    ensures m'.regs[RAX] == m.regs[RAX] && m'.regs[RCX] == m.regs[RCX] && m'.regs[RDX] == m.regs[RDX]
    ensures Keeps(m, m') && m'.stack == m.stack
    ensures m'.flags.zero <==> SignedLow(wide, m.regs[RAX]) == -Modulus(wide) / 2
  {
    hide Exec, Do, SubFlags, SignedLow;
    var code := GuardedIdiv(kind, wide);
    CompareLeast(wide, m.regs[RAX]);
    if wide {
      var m1 := Set(m, R11, 0x8000_0000_0000_0000);
      ExecAt(code, 2, m, junk);
      DoMovAbs(R11, 0x8000_0000_0000_0000, m, junk);
      ExecAt(code, 3, m1, junk);
      DoCompare(RAX, R11, m1, junk);
      m' := m1.(flags := SubFlags(true, m.regs[RAX], 0x8000_0000_0000_0000));
    } else {
      ExecAt(code, 2, m, junk);
      DoCompareImm(false, RAX, -0x8000_0000, m, junk);
      m' := m.(flags := SubFlags(false, m.regs[RAX], ToU64(-0x8000_0000)));
    }
  }

  lemma DoMovAbs(r: Reg, v: u64, m: Machine, junk: Flags)
    ensures Do(MovAbs(r, v), m, junk) == Some(Set(m, r, v))
  {
  }

  lemma DoCompare(a: Reg, b: Reg, m: Machine, junk: Flags)
    ensures Do(Rr(CmpOp, true, a, b), m, junk) == Some(m.(flags := SubFlags(true, m.regs[a], m.regs[b])))
  {
  }

  lemma DoCompareImm(wide: bool, a: Reg, imm: i32, m: Machine, junk: Flags)
    ensures Do(Ri(CmpOp, wide, a, imm), m, junk) == Some(m.(flags := SubFlags(wide, m.regs[a], ToU64(imm))))
  {
  }

  /** The overflowing case skips the IDIV: the quotient is the dividend, the remainder is set to 0. */
  lemma OverflowPath(kind: Kind, wide: bool, m: Machine, junk: Flags)
    requires kind.KDiv? || kind.KMod?
    requires SignedLow(wide, m.regs[RAX]) == -Modulus(wide) / 2 && SignedLow(wide, m.regs[RCX]) == -1
    ensures var code := GuardedIdiv(kind, wide); var p := if wide then 5 else 4;
      var o := Exec(code[p..], m, junk);
      o.Some? && Divided(kind, wide, m, o.value)
  {
    hide Exec, Do, SignedLow, SDiv, SMod, Low;
    OverflowValues(wide, m.regs[RAX], m.regs[RCX]);
    var code := GuardedIdiv(kind, wide);
    var n := |code|;
    assert code[n..] == [];
    if kind.KMod? {
      LastExtends(wide, false, m, junk);
      ExecAt(code, n - 3, m, junk);
      var m1 := Do(code[n - 3], m, junk).value;
      ExecJumpAt(code, n - 2, m1, junk);
      ExecNothing(m1, junk);
    } else {
      ExecJumpAt(code, n - 2, m, junk);
      ExecNothing(m, junk);
    }
  }

  lemma OverflowValues(wide: bool, a: u64, b: u64)
    requires SignedLow(wide, a) == -Modulus(wide) / 2 && SignedLow(wide, b) == -1
    ensures Low(wide, a) == SDiv(-Modulus(wide) / 2, SignedLow(wide, a), SignedLow(wide, b)) % Modulus(wide)
    ensures Low(wide, 0) == SMod(-Modulus(wide) / 2, SignedLow(wide, a), SignedLow(wide, b)) % Modulus(wide)
  {
  }

  lemma GuardedIdivRuns(kind: Kind, wide: bool, m: Machine, junk: Flags)
    requires kind.KDiv? || kind.KMod?
    requires m.regs[RDX] == ExtendedHigh(wide, true, m.regs[RAX]) && SignedLow(wide, m.regs[RCX]) != 0
    ensures var o := Exec(GuardedIdiv(kind, wide), m, junk); o.Some? && Divided(kind, wide, m, o.value)
  {
    hide Exec, SubFlags, SignedLow, ExtendedHigh, SDiv, SMod;
    var code := GuardedIdiv(kind, wide);
    var n, p := |code|, if wide then 4 else 3;
    assert code[0..] == code;
    var m1 := m.(flags := SubFlags(wide, m.regs[RCX], ToU64(-1)));
    CompareMinusOne(wide, m.regs[RCX]);
    ExecAt(code, 0, m, junk);
    ExecJumpAt(code, 1, m1, junk);
    if !m1.flags.zero {
      IdivPath(kind, wide, m1, junk);
    } else {
      var m2 := LeastCompared(kind, wide, m1, junk);
      ExecJumpAt(code, p, m2, junk);
      if !m2.flags.zero {
        IdivPath(kind, wide, m2, junk);
      } else {
        OverflowPath(kind, wide, m2, junk);
      }
    }
  }

  /** The value a division leaves, as a function of the original operands. */
  function Quotient(kind: Kind, wide: bool, signed: bool, a: u64, b: u64): int
    requires !kind.KMul? && Low(wide, b) != 0
  {
    var x, y, w := SignedLow(wide, a), SignedLow(wide, b), Modulus(wide);
    if kind.KDiv? then (if signed then SDiv(-w / 2, x, y) % w else Low(wide, a) / Low(wide, b))
    else (if signed then SMod(-w / 2, x, y) % w else Low(wide, a) % Low(wide, b))
  }

  function Result(kind: Kind, m: Machine): u64 { if kind.KMod? then m.regs[RDX] else m.regs[RAX] }

  lemma SignedZero(wide: bool, b: u64)
    ensures SignedLow(wide, b) == 0 <==> Low(wide, b) == 0
  {
  }

  lemma DivideRuns(kind: Kind, wide: bool, signed: bool, m: Machine, junk: Flags)
    requires !kind.KMul? && Low(wide, m.regs[RCX]) != 0
    requires m.regs[RDX] == ExtendedHigh(wide, signed, m.regs[RAX])
    ensures var o := Exec(Operate(kind, wide, signed), m, junk);
      && o.Some? && Keeps(m, o.value) && o.value.stack == m.stack
      && Low(wide, Result(kind, o.value)) == Quotient(kind, wide, signed, m.regs[RAX], m.regs[RCX])
  {
    hide GuardedIdiv, Exec, Do, SDiv, SMod, SignedLow, Low;
    SignedZero(wide, m.regs[RCX]);
    if signed {
      GuardedIdivRuns(kind, wide, m, junk);
    } else {
      UnsignedDivide(wide, m, junk);
      Singletons();
      ExecOne(Div(wide, false, RCX), [], m, junk);
      ExecNothing(Do(Div(wide, false, RCX), m, junk).value, junk);
      LowOfSmaller(wide, m.regs[RAX], Low(wide, m.regs[RAX]) / Low(wide, m.regs[RCX]));
      LowOfSmaller(wide, m.regs[RAX], Low(wide, m.regs[RAX]) % Low(wide, m.regs[RCX]));
    }
  }

  lemma LowOfSmaller(wide: bool, a: u64, v: nat)
    requires v <= Low(wide, a)
    ensures Low(wide, v) == v
  {
  }

  lemma SelectResultRuns(kind: Kind, a: u64, f: Flags, base: seq<Word>, m: Machine, junk: Flags)
    requires !kind.KMul? && m.stack == base + (if kind.KMod? then [Value(a)] else []) + [SavedFlags(f)]
    ensures var o := Exec(SelectResult(kind), m, junk);
      && o.Some? && Keeps(m, o.value) && o.value.stack == base
      && Result(kind, o.value) == if !f.zero then Result(kind, m) else if kind.KMod? then a else 0
  {
    hide Exec, Do;
    var code := SelectResult(kind);
    assert code[0..] == code && code[3..] == [];
    var rest := base + (if kind.KMod? then [Value(a)] else []);
    var m1 := m.(stack := rest, flags := f);
    DoPopfq(rest, f, m, junk);
    ExecAt(code, 0, m, junk);
    ExecAt(code, 1, m1, junk);
    var m2 := if kind.KMod? then Set(m1.(stack := base), RCX, a) else Set(m1, RCX, 0);
    if kind.KMod? {
      PopWord(base, a, RCX, m1, junk);
    } else {
      assert rest == base;
      DoMovImm(RCX, 0, m1, junk);
    }
    ExecAt(code, 2, m2, junk);
    var target := if kind.KMod? then RDX else RAX;
    DoCmov(target, RCX, m2, junk);
    ExecNothing(if f.zero then Set(m2, target, m2.regs[RCX]) else m2, junk);
  }

  lemma DoPopfq(base: seq<Word>, f: Flags, m: Machine, junk: Flags)
    requires m.stack == base + [SavedFlags(f)]
    ensures Do(Popfq, m, junk) == Some(m.(stack := base, flags := f))
  {
    assert m.stack[..|m.stack| - 1] == base;
  }

  /** A zero divisor gives 0 for division and the dividend for modulo; otherwise the quotient stands. */
  lemma DivideValue(kind: Kind, wide: bool, signed: bool, a: u64, b: u64)
    requires !kind.KMul?
    ensures var v := AluValue(wide, AluOf(kind), true, if signed then 1 else 0, a, b);
      v == if Low(wide, b) != 0 then Quotient(kind, wide, signed, a, b)
           else if kind.KMod? then Low(wide, a) else 0
  {
    hide CDiv, CMod;
  }

  lemma MulMod32(a: u64, b: u64)
    ensures ToU32(ToU32(a) * ToU32(b)) == ToU32(a * b)
  {
    var w, p, q := 0x1_0000_0000, a / 0x1_0000_0000, b / 0x1_0000_0000;
    var x, y := ToU32(a), ToU32(b);
    assert a == p * w + x && b == q * w + y;
    var k := p * b + x * q;
    assert a * b == k * w + x * y by {
      assert a * b == (p * w) * b + x * b;
      assert (p * w) * b == (p * b) * w;
      assert x * b == x * (q * w) + x * y;
      assert x * (q * w) == (x * q) * w;
    }
    var r := (x * y) % w;
    assert x * y == ((x * y) / w) * w + r;
    ModUnique(a * b, w, k + (x * y) / w, r);
  }

  lemma MultiplyValue(wide: bool, m: Machine, junk: Flags)
    ensures var t := MulStep(m, wide, m.regs[RCX], junk);
      && Keeps(m, t) && t.stack == m.stack
      && Low(wide, t.regs[RAX]) == AluValue(wide, OpMul, true, 0, m.regs[RAX], m.regs[RCX])
  {
    MulMod32(m.regs[RAX], m.regs[RCX]);
    LowOfMod(wide);
    hide Bitwise32, Bitwise64, Pow2;
  }

  lemma MultiplyRuns(wide: bool, m: Machine, junk: Flags)
    ensures var o := Exec(Operate(KMul, wide, false), m, junk);
      && o.Some? && Keeps(m, o.value) && o.value.stack == m.stack
      && Low(wide, o.value.regs[RAX]) == AluValue(wide, OpMul, true, 0, m.regs[RAX], m.regs[RCX])
  {
    hide Exec, AluValue, MulStep;
    Singletons();
    ExecOne(Mul(wide, RCX), [], m, junk);
    ExecNothing(MulStep(m, wide, m.regs[RCX], junk), junk);
    MultiplyValue(wide, m, junk);
  }

  /** The result moves to the destination and the saved registers come back. */
  lemma FinishRuns(kind: Kind, dst: Reg, before: Machine, m: Machine, junk: Flags)
    requires dst !in {RCX, R11} && m.stack == before.stack + Saved(dst, before)
    ensures var o := Exec(Finish(kind, dst), m, junk);
      && o.Some? && o.value.stack == before.stack && o.value.mem == m.mem
      && o.value.regs[dst] == Result(kind, m)
      && (dst != RAX ==> o.value.regs[RAX] == before.regs[RAX]) && (dst != RDX ==> o.value.regs[RDX] == before.regs[RDX])
      && (forall r: Reg :: r !in {RAX, RCX, RDX, R11, dst} ==> o.value.regs[r] == m.regs[r])
  {
    if dst == RAX || dst == RDX {
      FinishScratch(kind, dst, before, m, junk);
    } else {
      FinishOther(kind, dst, before, m, junk);
    }
  }

  lemma PopWord(base: seq<Word>, v: u64, r: Reg, m: Machine, junk: Flags)
    requires m.stack == base + [Value(v)]
    ensures Do(Pop(r), m, junk) == Some(Set(m.(stack := base), r, v))
  {
    assert m.stack[..|m.stack| - 1] == base;
  }

  lemma DoMov(dst: Reg, src: Reg, m: Machine, junk: Flags)
    ensures Do(Rr(MovOp, true, dst, src), m, junk) == Some(Set(m, dst, m.regs[src]))
  {
  }

  lemma FinishScratch(kind: Kind, dst: Reg, before: Machine, m: Machine, junk: Flags)
    requires (dst == RAX || dst == RDX) && m.stack == before.stack + Saved(dst, before)
    ensures var o := Exec(Finish(kind, dst), m, junk);
      && o.Some? && o.value.stack == before.stack && o.value.mem == m.mem
      && o.value.regs[dst] == Result(kind, m)
      && (dst != RAX ==> o.value.regs[RAX] == before.regs[RAX]) && (dst != RDX ==> o.value.regs[RDX] == before.regs[RDX])
      && (forall r: Reg :: r !in {RAX, RDX} ==> o.value.regs[r] == m.regs[r])
  {
    hide Exec, Do;
    var code, n, other := Finish(kind, dst), |Finish(kind, dst)|, if dst == RAX then RDX else RAX;
    assert code[0..] == code && code[n..] == [];
    assert Saved(dst, before) == [Value(before.regs[other])];
    var m1 := if n == 2 then Set(m, dst, m.regs[other]) else m;
    if n == 2 {
      ExecAt(code, 0, m, junk);
      DoMov(dst, other, m, junk);
    }
    ExecAt(code, n - 1, m1, junk);
    PopWord(before.stack, before.regs[other], other, m1, junk);
    ExecNothing(Set(m1.(stack := before.stack), other, before.regs[other]), junk);
  }

  lemma FinishOther(kind: Kind, dst: Reg, before: Machine, m: Machine, junk: Flags)
    requires dst !in {RAX, RCX, RDX, R11} && m.stack == before.stack + Saved(dst, before)
    ensures var o := Exec(Finish(kind, dst), m, junk);
      && o.Some? && o.value.stack == before.stack && o.value.mem == m.mem
      && o.value.regs[dst] == Result(kind, m)
      && o.value.regs[RAX] == before.regs[RAX] && o.value.regs[RDX] == before.regs[RDX]
      && (forall r: Reg :: r !in {RAX, RCX, RDX, R11, dst} ==> o.value.regs[r] == m.regs[r])
  {
    hide Exec, Do;
    var code := Finish(kind, dst);
    assert code[0..] == code && code[3..] == [];
    var a, d, base := before.regs[RAX], before.regs[RDX], before.stack;
    assert m.stack == (base + [Value(a)]) + [Value(d)];
    var mid := base + [Value(a)];
    var m1 := if kind.KMod? then Set(m, dst, m.regs[RDX]) else Set(m.(stack := mid), RDX, d);
    ExecAt(code, 0, m, junk);
    ExecAt(code, 1, m1, junk);
    var m2 := if kind.KMod? then Set(m1.(stack := mid), RDX, d) else Set(m1, dst, m.regs[RAX]);
    if kind.KMod? {
      DoMov(dst, RDX, m, junk);
      PopWord(mid, d, RDX, m1, junk);
    } else {
      PopWord(mid, d, RDX, m, junk);
      DoMov(dst, RAX, m1, junk);
    }
    ExecAt(code, 2, m2, junk);
    PopWord(base, a, RAX, m2, junk);
    ExecNothing(Set(m2.(stack := base), RAX, a), junk);
  }

  // ---------------------------------------------------------------- the whole sequence

  /** Scratch saved, both operands loaded. */
  lemma EntryRuns(source: Source, dst: Reg, m: Machine, junk: Flags)
    requires dst !in {RCX, R11}
    ensures var o := Exec(SaveScratch(dst) + LoadOperands(source, dst), m, junk);
      && o.Some? && Keeps(m, o.value) && o.value.stack == m.stack + Saved(dst, m)
      && o.value.regs[RCX] == OperandOf(source, m) && o.value.regs[RAX] == m.regs[dst]
  {
    hide Exec, LoadOperands, SaveScratch;
    SaveScratchRuns(dst, m, junk);
    var m1 := m.(stack := m.stack + Saved(dst, m));
    ExecAppend(SaveScratch(dst), LoadOperands(source, dst), m, junk);
    LoadOperandsRuns(source, dst, m1, junk);
  }

  /** From loaded operands to the result in RAX or RDX. */
  ghost predicate Computed(kind: Kind, wide: bool, signed: bool, m: Machine, o: Option<Machine>)
  {
    && o.Some? && Keeps(m, o.value) && o.value.stack == m.stack
    && Low(wide, Result(kind, o.value))
       == AluValue(wide, AluOf(kind), true, if signed then 1 else 0, m.regs[RAX], m.regs[RCX])
  }

  lemma DivideBody(kind: Kind, wide: bool, signed: bool, m: Machine, junk: Flags)
    requires !kind.KMul?
    ensures Computed(kind, wide, signed, m,
              Exec(PrepareDivide(kind, wide, signed) + Operate(kind, wide, signed) + SelectResult(kind), m, junk))
  {
    hide Exec, PrepareDivide, Operate, SelectResult, AluValue, Quotient, Low, TestFlags, ExtendedHigh;
    var a, b := m.regs[RAX], m.regs[RCX];
    var c1, c2, c3 := PrepareDivide(kind, wide, signed), Operate(kind, wide, signed), SelectResult(kind);
    PrepareDivideRuns(kind, wide, signed, m, junk);
    var m1 := Exec(c1, m, junk).value;
    FixedIsNonzero(wide, b);
    DivideRuns(kind, wide, signed, m1, junk);
    var m2 := Exec(c2, m1, junk).value;
    ExecAppend(c1, c2, m, junk);
    ExecAppend(c1 + c2, c3, m, junk);
    SelectResultRuns(kind, a, TestFlags(wide, b, b), m.stack, m2, junk);
    SelfOperations(wide, b);
    DivideValue(kind, wide, signed, a, b);
    LowOfZero(wide);
  }

  lemma FixedIsNonzero(wide: bool, b: u64)
    ensures Low(wide, FixedDivisor(wide, b)) != 0
  {
  }

  lemma LowOfZero(wide: bool)
    ensures Low(wide, 0) == 0
  {
  }

  /** The instructions between loading the operands and restoring the scratch registers. */
  function Middle(kind: Kind, wide: bool, signed: bool): seq<XInst>
  {
    if kind.KMul? then Operate(kind, wide, signed)
    else PrepareDivide(kind, wide, signed) + Operate(kind, wide, signed) + SelectResult(kind)
  }

  lemma MiddleRuns(kind: Kind, wide: bool, signed: bool, m: Machine, junk: Flags)
    requires kind.KMul? ==> !signed
    ensures Computed(kind, wide, signed, m, Exec(Middle(kind, wide, signed), m, junk))
  {
    hide Exec, Operate, PrepareDivide, SelectResult, Low, AluValue;
    if kind.KMul? {
      MultiplyRuns(wide, m, junk);
    } else {
      DivideBody(kind, wide, signed, m, junk);
    }
  }

  lemma CodeShape(kind: Kind, wide: bool, signed: bool, source: Source, dst: Reg)
    requires !ZeroImmediate(source)
    ensures Code(kind, wide, signed, source, dst)
            == SaveScratch(dst) + LoadOperands(source, dst) + Middle(kind, wide, signed) + Finish(kind, dst)
  {
    hide SaveScratch, LoadOperands, PrepareDivide, Operate, SelectResult, Finish;
  }

  /** Destination computed up to the operand width; every other mapped register, the stack and memory restored. */
  ghost predicate Effect(dst: Reg, v: u64, wide: bool, m: Machine, o: Option<Machine>)
  {
    && o.Some? && Low(wide, o.value.regs[dst]) == v
    && (forall r: Reg :: r !in {RCX, R11, dst} ==> o.value.regs[r] == m.regs[r])
    && o.value.stack == m.stack && o.value.mem == m.mem
  }

  function Wanted(kind: Kind, wide: bool, signed: bool, source: Source, dst: Reg, m: Machine): u64
  {
    AluValue(wide, AluOf(kind), true, if signed then 1 else 0, m.regs[dst], OperandOf(source, m))
  }

  lemma BodyRuns(kind: Kind, wide: bool, signed: bool, source: Source, dst: Reg, m: Machine, junk: Flags)
    requires (kind.KMul? ==> !signed) && !ZeroImmediate(source) && dst !in {RCX, R11}
    ensures Effect(dst, Wanted(kind, wide, signed, source, dst, m), wide, m,
                   Exec(Code(kind, wide, signed, source, dst), m, junk))
  {
    hide Exec, SaveScratch, LoadOperands, Middle, Finish, Code, AluValue, Low;
    CodeShape(kind, wide, signed, source, dst);
    var c1, c2, c3 := SaveScratch(dst) + LoadOperands(source, dst), Middle(kind, wide, signed), Finish(kind, dst);
    EntryRuns(source, dst, m, junk);
    var m1 := Exec(c1, m, junk).value;
    MiddleRuns(kind, wide, signed, m1, junk);
    var m2 := Exec(c2, m1, junk).value;
    FinishRuns(kind, dst, m, m2, junk);
    ExecAppend(c1, c2, m, junk);
    ExecAppend(c1 + c2, c3, m, junk);
  }

  lemma ZeroImmediateRuns(kind: Kind, wide: bool, signed: bool, source: Source, dst: Reg, m: Machine, junk: Flags)
    requires ZeroImmediate(source)
    ensures Effect(dst, Wanted(kind, wide, signed, source, dst, m), wide, m,
                   Exec(Code(kind, wide, signed, source, dst), m, junk))
  {
    ZeroCode(kind, wide, signed, source, dst);
    hide Exec, BinaryValue, AluValue, Low, BinaryFlags, Code;
    var a := m.regs[dst];
    SelfOperations(false, a);
    var i := if kind.KMod? then Rr(MovOp, true, dst, dst) else Rr(XorOp, false, dst, dst);
    Singletons();
    ExecOne(i, [], m, junk);
    ZeroOperand(kind, wide, signed, a);
    LowOfZero(wide);
    MovIsLow(true);
    ExecNothing(Do(i, m, junk).value, junk);
    LowIdentity(a);
  }

  lemma ZeroCode(kind: Kind, wide: bool, signed: bool, source: Source, dst: Reg)
    requires ZeroImmediate(source)
    ensures Code(kind, wide, signed, source, dst) == [if kind.KMod? then Rr(MovOp, true, dst, dst) else Rr(XorOp, false, dst, dst)]
  {
  }

  lemma LowIdentity(a: u64)
    ensures Low(true, a) == a
  {
  }

  lemma ZeroOperand(kind: Kind, wide: bool, signed: bool, a: u64)
    ensures AluValue(wide, AluOf(kind), true, if signed then 1 else 0, a, 0) == if kind.KMod? then Low(wide, a) else 0
  {
  }

  lemma {:induction false} AndOnes(n: nat, a: nat)
    requires a < Pow2(n)
    ensures Bits(And, n, a, Pow2(n) - 1) == a
  {
    if n > 0 {
      AndOnes(n - 1, a / 2);
      HalfOfDigit(1, Pow2(n - 1) - 1);
    }
  }

  lemma TruncatedValue(a: u64)
    ensures BinaryValue(AndOp, false, a, ToU64(-1)) == ToU32(a)
  {
    Pow2Widths();
    hide Bits, Pow2;
    AndOnes(32, ToU32(a));
  }

  lemma TruncateRuns(wide: bool, dst: Reg, m: Machine, junk: Flags)
    ensures var o := Exec(Truncate(wide, dst), m, junk);
      && o.Some? && o.value.regs == m.regs[dst := Low(wide, m.regs[dst])]
      && o.value.stack == m.stack && o.value.mem == m.mem
  {
    hide BinaryValue, BinaryFlags, ToU64;
    Singletons();
    TruncatedValue(m.regs[dst]);
    if wide {
      ExecNothing(m, junk);
    } else {
      ExecOne(Ri(AndOp, false, dst, -1), [], m, junk);
    }
  }

  lemma NotMapped()
    ensures !Mapped(RCX) && !Mapped(R11)
  {
    assert REGISTER_MAP == [0, 7, 6, 2, 10, 8, 3, 12, 13, 14, 15];
  }

  /** The interpreter's result in the destination, and every other mapped register, the stack and memory as they were. */
  predicate ComputesResult(kind: Kind, wide: bool, signed: bool, source: Source, dst: Reg, m: Machine, o: Option<Machine>)
  {
    && o.Some?
    && o.value.regs[dst] == AluValue(wide, AluOf(kind), true, if signed then 1 else 0, m.regs[dst], OperandOf(source, m))
    && (forall r: Reg :: Mapped(r) && r != dst ==> o.value.regs[r] == m.regs[r])
    && o.value.stack == m.stack && o.value.mem == m.mem
  }

  /**
    Every multiplication, division and modulo, of either width and signedness, from a register, an
    immediate or a blinded immediate: the emitted code does not fault, leaves the interpreter's result in
    the destination, and restores every other mapped register, the host stack and memory.
    */
  lemma LoweringComputesResult(kind: Kind, wide: bool, signed: bool, source: Source, dst: Reg, m: Machine, junk: Flags)
    requires (kind.KMul? ==> !signed) && Mapped(dst)
    ensures ComputesResult(kind, wide, signed, source, dst, m, Exec(Code(kind, wide, signed, source, dst) + Truncate(wide, dst), m, junk))
  {
    hide Exec, Code, Truncate, AluValue, Low, Mapped;
    NotMapped();
    if ZeroImmediate(source) {
      ZeroImmediateRuns(kind, wide, signed, source, dst, m, junk);
    } else {
      BodyRuns(kind, wide, signed, source, dst, m, junk);
    }
    var c := Code(kind, wide, signed, source, dst);
    ExecAppend(c, Truncate(wide, dst), m, junk);
    TruncateRuns(wide, dst, Exec(c, m, junk).value, junk);
  }

  /** `emit_muldivmod` and the truncation behind it: running what they emit has the interpreter's effect, from every state. */
  method Lower(kind: Kind, wide: bool, signed: bool, source: Source, dst: Reg) returns (code: seq<XInst>)
    requires (kind.KMul? ==> !signed) && Mapped(dst)
    ensures forall m: Machine, junk: Flags :: ComputesResult(kind, wide, signed, source, dst, m, Exec(code, m, junk))
  {
    hide Exec, ComputesResult, Code, Truncate, Mapped;
    code := Emit(kind, wide, signed, source, dst);
    code := code + Truncate(wide, dst);
    forall m: Machine, junk: Flags
      ensures ComputesResult(kind, wide, signed, source, dst, m, Exec(code, m, junk))
    {
      LoweringComputesResult(kind, wide, signed, source, dst, m, junk);
    }
  }
}
