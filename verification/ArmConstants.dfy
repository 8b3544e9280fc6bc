/** Constant materialisation in the ARM64 back end: a MOVZ or MOVN followed by MOVKs. */
module ArmConstants {
  import opened Words
  import opened HostFlags
  import opened Arm64

  // ---------------------------------------------------------------- 64-bit words as four 16-bit blocks

  type Blocks = b: seq<u16> | |b| == 4 witness [0, 0, 0, 0]

  function Join(b: Blocks): u64
  {
    var b0: int, b1: int, b2: int, b3: int := b[0], b[1], b[2], b[3];
    b0 + 0x1_0000 * b1 + 0x1_0000_0000 * b2 + 0x1_0000_0000_0000 * b3
  }

  function Split(v: u64): Blocks { [Block(v, 0), Block(v, 1), Block(v, 2), Block(v, 3)] }

  lemma JoinSplit(v: u64)
    ensures Join(Split(v)) == v
  {
    var q1, q2, q3 := v / 0x1_0000, v / 0x1_0000 / 0x1_0000, v / 0x1_0000 / 0x1_0000 / 0x1_0000;
    assert v == 0x1_0000 * q1 + v % 0x1_0000;
    assert q1 == 0x1_0000 * q2 + q1 % 0x1_0000;
    assert q2 == 0x1_0000 * q3 + q2 % 0x1_0000;
    assert q3 < 0x1_0000;
  }

  lemma BlockOfJoin(b: Blocks, i: nat)
    requires i < 4
    ensures Block(Join(b), i) == b[i]
  {
    var b0: int, b1: int, b2: int, b3: int := b[0], b[1], b[2], b[3];
    var q2 := b2 + 0x1_0000 * b3;
    var q1 := b1 + 0x1_0000 * q2;
    ModUnique(Join(b), 0x1_0000, q1, b0);
    ModUnique(q1, 0x1_0000, q2, b1);
    ModUnique(q2, 0x1_0000, b3, b2);
    ModUnique(b3, 0x1_0000, 0, b3);
  }

  /** Changing one block of a word. */
  lemma JoinUpdate(b: Blocks, i: nat, x: u16)
    requires i < 4
    ensures Join(b[i := x]) == Join(b) + (x - b[i]) * Weight(i)
  {
  }

  // ---------------------------------------------------------------- the emitted sequence

  function Width(wide: bool): nat { if wide then 4 else 2 }

  /** How many of the first `n` blocks equal `pattern`. */
  function Count(b: Blocks, n: nat, pattern: u16): nat
    requires n <= 4
  {
    if n == 0 then 0 else Count(b, n - 1, pattern) + if b[n - 1] == pattern then 1 else 0
  }

  /** MOVN is used when more blocks are all ones than all zeros; in 32 bits two zero blocks are counted in advance. */
  predicate Inverts(wide: bool, b: Blocks)
  {
    (if wide then 0 else 2) + Count(b, Width(wide), 0) < Count(b, Width(wide), 0xffff)
  }

  function FirstMove(pattern: u16): MoveOp { if pattern == 0xffff then MovN else MovZ }

  /** The moves for blocks `k` and up; `started` once the first move has been emitted. */
  function Moves(wide: bool, rd: Reg, b: Blocks, pattern: u16, k: nat, started: bool): seq<AInst>
    requires k <= Width(wide)
    decreases Width(wide) - k
  {
    if k == Width(wide) then
      if started then [] else [MoveWide(wide, FirstMove(pattern), rd, 0, 0)]
    else if b[k] == pattern then Moves(wide, rd, b, pattern, k + 1, started)
    else
      [MoveWide(wide, if started then MovK else FirstMove(pattern), rd, k,
                if !started && pattern == 0xffff then 0xffff - b[k] else b[k])]
      + Moves(wide, rd, b, pattern, k + 1, true)
  }

  function Strategy(wide: bool, rd: Reg, b: Blocks, invert: bool): seq<AInst>
  {
    Moves(wide, rd, b, if invert then 0xffff else 0, 0, false)
  }

  /** The code for a constant: MOVN first when that strategy is chosen, else MOVZ. */
  function LoadConstant(wide: bool, rd: Reg, imm: u64): seq<AInst>
  {
    Strategy(wide, rd, Split(imm), Inverts(wide, Split(imm)))
  }

  // ---------------------------------------------------------------- running it

  /** Blocks below `k` from `b`, the rest of the operand width the pattern, zero above it. */
  function Mixed(wide: bool, b: Blocks, pattern: u16, k: nat): Blocks
  {
    seq(4, i requires 0 <= i < 4 => if i < k then b[i] else if i < Width(wide) then pattern else 0)
  }

  /** A word with one block given and the other blocks of the operand width filled with the pattern. */
  function Filled(wide: bool, pattern: u16, k: nat, x: u16): Blocks
  {
    seq(4, i requires 0 <= i < 4 => if i == k then x else if i < Width(wide) then pattern else 0)
  }

  lemma FirstMoveFills(wide: bool, was: u64, pattern: u16, k: nat, x: u16)
    requires k < Width(wide) && (pattern == 0 || pattern == 0xffff)
    ensures Low(wide, MoveValue(FirstMove(pattern), wide, was, k, if pattern == 0xffff then 0xffff - x else x))
            == Join(Filled(wide, pattern, k, x))
  {
    hide Join, Filled, Weight, Low, ToU64;
    JoinFilled(wide, pattern, k, x);
    if pattern == 0xffff {
      assert MoveValue(MovN, wide, was, k, 0xffff - x) == ToU64(-1 - (0xffff - x) * Weight(k));
      FilledOnes(wide, k, x);
    } else {
      FilledZeros(wide, k, x);
    }
  }

  lemma FilledOnes(wide: bool, k: nat, x: u16)
    requires k < Width(wide)
    ensures var v := (if wide then 0xffff * 0x1_0001_0001_0001 else 0xffff * 0x1_0001) + x * Weight(k) - 0xffff * Weight(k);
      0 <= v < Modulus(wide) && Low(wide, ToU64(-1 - (0xffff - x) * Weight(k))) == v
  {
    var d: int := 0xffff - x;
    WeightTimes(x, k);
    WeightTimes(0xffff, k);
    WeightTimes(d, k);
    hide Weight;
  }

  lemma FilledZeros(wide: bool, k: nat, x: u16)
    requires k < Width(wide)
    ensures 0 <= x * Weight(k) < Modulus(wide) && Low(wide, ToU64(x * Weight(k))) == x * Weight(k)
  {
    WeightTimes(x, k);
    hide Weight;
  }

  lemma WeightTimes(y: int, k: nat)
    requires k < 4
    ensures y * Weight(k) == if k == 0 then y else if k == 1 then y * 0x1_0000 else if k == 2 then y * 0x1_0000_0000 else y * 0x1_0000_0000_0000
  {
  }

  lemma JoinFilled(wide: bool, pattern: u16, k: nat, x: u16)
    requires k < Width(wide)
    ensures var p: int := pattern;
      Join(Filled(wide, pattern, k, x)) ==
        (if wide then p * 0x1_0001_0001_0001 else p * 0x1_0001) + x * Weight(k) - p * Weight(k)
  {
    var f, p: int := Filled(wide, pattern, k, x), pattern;
    WeightTimes(x, k);
    WeightTimes(p, k);
    assert f[0] == (if k == 0 then x else pattern) && f[1] == (if k == 1 then x else pattern);
    assert f[2] == (if !wide then 0 else if k == 2 then x else pattern);
    assert f[3] == (if !wide then 0 else if k == 3 then x else pattern);
    hide Filled, Weight;
  }

  lemma FirstMoveSets(wide: bool, was: u64, b: Blocks, pattern: u16, k: nat)
    requires k < Width(wide) && (pattern == 0 || pattern == 0xffff) && forall i :: 0 <= i < k ==> b[i] == pattern
    ensures var x := if pattern == 0xffff then 0xffff - b[k] else b[k];
      Low(wide, MoveValue(FirstMove(pattern), wide, was, k, x)) == Join(Mixed(wide, b, pattern, k + 1))
  {
    hide Join, MoveValue, Low;
    FirstMoveFills(wide, was, pattern, k, b[k]);
    assert Filled(wide, pattern, k, b[k]) == Mixed(wide, b, pattern, k + 1);
  }

  lemma MovKSets(wide: bool, b: Blocks, pattern: u16, k: nat)
    requires k < Width(wide)
    ensures Low(wide, MoveValue(MovK, wide, Join(Mixed(wide, b, pattern, k)), k, b[k])) == Join(Mixed(wide, b, pattern, k + 1))
  {
    hide Join, Low, Block, Weight;
    var m := Mixed(wide, b, pattern, k);
    BlockOfJoin(m, k);
    JoinUpdate(m, k, b[k]);
    assert m[k := b[k]] == Mixed(wide, b, pattern, k + 1);
    NarrowJoin(wide, Mixed(wide, b, pattern, k + 1));
    WordFits(Join(Mixed(wide, b, pattern, k + 1)));
  }

  lemma WordFits(v: u64)
    ensures ToU64(v) == v
  {
  }

  lemma NarrowJoin(wide: bool, b: Blocks)
    requires wide || (b[2] == 0 && b[3] == 0)
    ensures Low(wide, Join(b)) == Join(b)
  {
  }

  /** The tidy-up move for a constant made of the pattern only. */
  lemma NoMove(wide: bool, was: u64, b: Blocks, pattern: u16)
    requires (pattern == 0 || pattern == 0xffff) && forall i :: 0 <= i < Width(wide) ==> b[i] == pattern
    ensures Low(wide, MoveValue(FirstMove(pattern), wide, was, 0, 0)) == Join(Mixed(wide, b, pattern, Width(wide)))
  {
  }

  lemma SamePattern(wide: bool, b: Blocks, pattern: u16, k: nat)
    requires k < Width(wide) && b[k] == pattern
    ensures Mixed(wide, b, pattern, k) == Mixed(wide, b, pattern, k + 1)
  {
  }

  /** From any block on, the remaining moves complete the constant. */
  lemma {:induction false} MovesRun(wide: bool, rd: Reg, b: Blocks, pattern: u16, k: nat, started: bool, m: Arm)
    requires k <= Width(wide) && rd != RZ && (pattern == 0 || pattern == 0xffff)
    requires if started then m.regs[rd] == Join(Mixed(wide, b, pattern, k)) else forall i :: 0 <= i < k ==> b[i] == pattern
    ensures Exec(Moves(wide, rd, b, pattern, k, started), m) == m.(regs := m.regs[rd := Join(Mixed(wide, b, pattern, Width(wide)))])
    decreases Width(wide) - k
  {
    hide Join, Mixed, MoveValue, Low;
    if k == Width(wide) {
      if !started {
        NoMove(wide, m.regs[rd], b, pattern);
        ExecOne(MoveWide(wide, FirstMove(pattern), rd, 0, 0), [], m);
      } else {
        assert m.regs[rd := m.regs[rd]] == m.regs;
      }
    } else if b[k] == pattern {
      SamePattern(wide, b, pattern, k);
      MovesRun(wide, rd, b, pattern, k + 1, started, m);
    } else {
      var i := Moves(wide, rd, b, pattern, k, started)[0];
      if started {
        MovKSets(wide, b, pattern, k);
      } else {
        FirstMoveSets(wide, m.regs[rd], b, pattern, k);
      }
      ExecOne(i, Moves(wide, rd, b, pattern, k + 1, true), m);
      MovesRun(wide, rd, b, pattern, k + 1, true, Do(i, m));
    }
  }

  /** Running the sequence leaves exactly the constant, or its low 32 bits, and changes nothing else. */
  lemma LoadConstantLoads(wide: bool, rd: Reg, imm: u64, m: Arm)
    requires rd != RZ
    ensures Exec(LoadConstant(wide, rd, imm), m) == m.(regs := m.regs[rd := Low(wide, imm)])
  {
    var b, pattern: u16 := Split(imm), if Inverts(wide, Split(imm)) then 0xffff else 0;
    MovesRun(wide, rd, b, pattern, 0, false, m);
    WholeConstant(wide, imm, pattern);
  }

  lemma WholeConstant(wide: bool, imm: u64, pattern: u16)
    ensures Join(Mixed(wide, Split(imm), pattern, Width(wide))) == Low(wide, imm)
  {
    var b, x := Split(imm), Mixed(wide, Split(imm), pattern, Width(wide));
    assert x[0] == b[0] && x[1] == b[1] && x[2] == (if wide then b[2] else 0) && x[3] == (if wide then b[3] else 0);
    JoinSplit(imm);
    LowBlocks(imm);
    hide Mixed, Split;
  }

  lemma LowBlocks(v: u64)
    ensures var b0: int, b1: int := Split(v)[0], Split(v)[1]; ToU32(v) == b0 + 0x1_0000 * b1
  {
    var q1, q2 := v / 0x1_0000, v / 0x1_0000 / 0x1_0000;
    assert v == 0x1_0000 * q1 + v % 0x1_0000 && q1 == 0x1_0000 * q2 + q1 % 0x1_0000;
    ModUnique(v, 0x1_0000_0000, q2, v % 0x1_0000 + 0x1_0000 * (q1 % 0x1_0000));
  }

  // ---------------------------------------------------------------- how many instructions it takes

  /** The blocks from `k` up that differ from the pattern. */
  function Differing(wide: bool, b: Blocks, pattern: u16, k: nat): nat
    requires k <= Width(wide)
    decreases Width(wide) - k
  {
    if k == Width(wide) then 0 else (if b[k] == pattern then 0 else 1) + Differing(wide, b, pattern, k + 1)
  }

  lemma {:induction false} MovesLength(wide: bool, rd: Reg, b: Blocks, pattern: u16, k: nat, started: bool)
    requires k <= Width(wide)
    ensures |Moves(wide, rd, b, pattern, k, started)|
            == Differing(wide, b, pattern, k) + if !started && Differing(wide, b, pattern, k) == 0 then 1 else 0
    decreases Width(wide) - k
  {
    if k < Width(wide) {
      MovesLength(wide, rd, b, pattern, k + 1, started || b[k] != pattern);
    }
  }

  lemma {:induction false} CountsAdd(wide: bool, b: Blocks, pattern: u16, k: nat)
    requires k <= Width(wide)
    ensures Differing(wide, b, pattern, k) == Width(wide) - k - (Count(b, Width(wide), pattern) - Count(b, k, pattern))
    decreases Width(wide) - k
  {
    if k < Width(wide) {
      CountsAdd(wide, b, pattern, k + 1);
    }
  }

  lemma StrategyLength(wide: bool, rd: Reg, b: Blocks, invert: bool)
    ensures var n := Width(wide) - Count(b, Width(wide), if invert then 0xffff else 0);
      |Strategy(wide, rd, b, invert)| == if n == 0 then 1 else n
  {
    var pattern: u16 := if invert then 0xffff else 0;
    MovesLength(wide, rd, b, pattern, 0, false);
    CountsAdd(wide, b, pattern, 0);
  }

  /** In 32 bits the MOVN strategy is never tried: it would be shorter for these constants. */
  predicate MissesShortForm(wide: bool, imm: u64)
  {
    !wide && Block(imm, 0) != 0 && Block(imm, 1) != 0 && (Block(imm, 0) == 0xffff || Block(imm, 1) == 0xffff)
  }

  /** The chosen strategy is the shorter of the two for every 64-bit constant, and for a 32-bit one exactly off that set. */
  lemma FewestMoves(wide: bool, rd: Reg, imm: u64)
    ensures (forall invert: bool :: |LoadConstant(wide, rd, imm)| <= |Strategy(wide, rd, Split(imm), invert)|)
            <==> !MissesShortForm(wide, imm)
  {
    var b := Split(imm);
    StrategyLength(wide, rd, b, true);
    StrategyLength(wide, rd, b, false);
    CountUp(b, 0);
    CountUp(b, 0xffff);
    hide Strategy, Count, Block;
  }

  lemma CountUp(b: Blocks, p: u16)
    ensures Count(b, 2, p) == (if b[0] == p then 1 else 0) + (if b[1] == p then 1 else 0)
    ensures Count(b, 4, p) == Count(b, 2, p) + (if b[2] == p then 1 else 0) + (if b[3] == p then 1 else 0)
  {
    assert Count(b, 1, p) == if b[0] == p then 1 else 0;
    assert Count(b, 3, p) == Count(b, 2, p) + if b[2] == p then 1 else 0;
  }

  /** A 16-bit constant takes exactly one instruction. */
  lemma SmallConstantIs(rd: Reg, usage: u16)
    ensures LoadConstant(true, rd, usage) == [MoveWide(true, MovZ, rd, 0, usage)]
  {
    var b := Split(usage);
    assert b[1] == 0 && b[2] == 0 && b[3] == 0 && b[0] == usage;
    CountUp(b, 0);
    CountUp(b, 0xffff);
    assert !Inverts(true, b);
    assert Moves(true, rd, b, 0, 4, true) == [] && Moves(true, rd, b, 0, 3, true) == [];
    assert Moves(true, rd, b, 0, 2, true) == [] && Moves(true, rd, b, 0, 1, true) == [];
    assert Moves(true, rd, b, 0, 3, false) == [MoveWide(true, MovZ, rd, 0, 0)] == Moves(true, rd, b, 0, 1, false);
  }

  // ---------------------------------------------------------------- emission

  /** The counting loop of `emit_movewide_immediate`. */
  method CountBlocks(wide: bool, b: Blocks) returns (invert: bool)
    ensures invert == Inverts(wide, b)
  {
    var zeros, ones := if wide then 0 else 2, 0;
    for i := 0 to Width(wide)
      invariant zeros == (if wide then 0 else 2) + Count(b, i, 0) && ones == Count(b, i, 0xffff)
    {
      if b[i] == 0xffff {
        ones := ones + 1;
      } else if b[i] == 0 {
        zeros := zeros + 1;
      }
    }
    invert := zeros < ones;
  }

  /** Its emitting loop: a move for each block that differs from the pattern, and the tidy-up move if there was none. */
  method EmitMoves(wide: bool, rd: Reg, b: Blocks, inverted: bool) returns (code: seq<AInst>)
    ensures code == Strategy(wide, rd, b, inverted)
  {
    hide Moves, Strategy;
    var invert, skip: u16 := inverted, if inverted then 0xffff else 0;
    var mop := if inverted then MovN else MovZ;
    code := [];
    StrategyIs(wide, rd, b, inverted);
    for i := 0 to Width(wide)
      invariant invert == (inverted && mop != MovK) && (mop == MovK || mop == FirstMove(skip))
      invariant code + Moves(wide, rd, b, skip, i, mop == MovK) == Strategy(wide, rd, b, inverted)
    {
      MovesStep(wide, rd, b, skip, i, mop == MovK);
      if b[i] != skip {
        var imm16 := if invert then 0xffff - b[i] else b[i];
        var x := MoveWide(wide, mop, rd, i, imm16);
        assert code + ([x] + Moves(wide, rd, b, skip, i + 1, true)) == (code + [x]) + Moves(wide, rd, b, skip, i + 1, true);
        code := code + [x];
        mop, invert := MovK, false;
      }
    }
    MovesEnd(wide, rd, b, skip);
    if mop != MovK {
      code := code + [MoveWide(wide, mop, rd, 0, 0)];
    } else {
      assert code + [] == code;
    }
  }

  lemma StrategyIs(wide: bool, rd: Reg, b: Blocks, inverted: bool)
    ensures [] + Moves(wide, rd, b, if inverted then 0xffff else 0, 0, false) == Strategy(wide, rd, b, inverted)
  {
  }

  lemma MovesStep(wide: bool, rd: Reg, b: Blocks, pattern: u16, k: nat, started: bool)
    requires k < Width(wide)
    ensures Moves(wide, rd, b, pattern, k, started) ==
      if b[k] == pattern then Moves(wide, rd, b, pattern, k + 1, started)
      else
        [MoveWide(wide, if started then MovK else FirstMove(pattern), rd, k,
                  if !started && pattern == 0xffff then 0xffff - b[k] else b[k])]
        + Moves(wide, rd, b, pattern, k + 1, true)
  {
  }

  lemma MovesEnd(wide: bool, rd: Reg, b: Blocks, pattern: u16)
    ensures Moves(wide, rd, b, pattern, Width(wide), true) == []
    ensures Moves(wide, rd, b, pattern, Width(wide), false) == [MoveWide(wide, FirstMove(pattern), rd, 0, 0)]
  {
  }

  /** `emit_movewide_immediate`. */
  method EmitLoadConstant(wide: bool, rd: Reg, imm: u64) returns (code: seq<AInst>)
    ensures code == LoadConstant(wide, rd, imm)
  {
    hide Strategy, Inverts;
    var invert := CountBlocks(wide, Split(imm));
    code := EmitMoves(wide, rd, Split(imm), invert);
  }

  // ---------------------------------------------------------------- blinded form

  function BlindScratch(rd: Reg): Reg { if rd == TEMP_DIV then TEMP else TEMP_DIV }

  /** `emit_movewide_immediate_blinded`. */
  function LoadBlinded(wide: bool, rd: Reg, imm: u64, random: u64): seq<AInst>
  {
    LoadConstant(wide, rd, Bitwise64(Xor, imm, random)) + LoadConstant(wide, BlindScratch(rd), random)
    + [Op3(wide, AEor, rd, rd, BlindScratch(rd))]
  }

  lemma Unblinded(wide: bool, imm: u64, random: u64)
    ensures Low(wide, OpValue(AEor, wide, Low(wide, Bitwise64(Xor, imm, random)), Low(wide, random))) == Low(wide, imm)
  {
    Pow2Widths();
    hide Bits, Pow2;
    XorTwice(64, imm, random);
    BitsLow(Xor, 32, 64, imm, random);
    XorTwice(32, ToU32(imm), ToU32(random));
  }

  /** For every random value the blinded form loads the same constant; only the scratch register differs. */
  lemma LoadBlindedLoads(wide: bool, rd: Reg, imm: u64, random: u64, m: Arm)
    requires rd != RZ
    ensures var s := BlindScratch(rd);
      Exec(LoadBlinded(wide, rd, imm, random), m) == m.(regs := m.regs[s := Low(wide, random)][rd := Low(wide, imm)])
  {
    hide LoadConstant, Exec, OpValue, Low, Bitwise64;
    var s, c, d := BlindScratch(rd), LoadConstant(wide, rd, Bitwise64(Xor, imm, random)), LoadConstant(wide, BlindScratch(rd), random);
    var masked := Low(wide, Bitwise64(Xor, imm, random));
    LoadConstantLoads(wide, rd, Bitwise64(Xor, imm, random), m);
    var m1 := m.(regs := m.regs[rd := masked]);
    LoadConstantLoads(wide, s, random, m1);
    var m2 := m1.(regs := m1.regs[s := Low(wide, random)]);
    ExecAppend(c, d, m);
    var eor := Op3(wide, AEor, rd, rd, s);
    ExecAppend(c + d, [eor], m);
    ExecOne(eor, [], m2);
    Unblinded(wide, imm, random);
    assert m2.regs[rd := Low(wide, imm)] == m.regs[s := Low(wide, random)][rd := Low(wide, imm)];
  }
}
