/**
  Helper calls of compiled ARM64 code, run from their words: which address the call goes to, with which arguments, and
  where the program goes on when it returns.
  */
module ArmHelper {
  import opened Words
  import opened Isa
  import opened Machine
  import opened Semantics
  import opened HostFlags
  import opened ControlFlow
  import opened Relocation
  import opened ArmBranches
  import opened ArmEmission
  import opened ArmLayout
  import opened ArmProgram
  import opened ArmWords
  import opened ArmCode
  import A = Arm64
  import JitProgram
  import ArmConstants

  /** The words from `n` on are these instructions. */
  predicate Decodes(b: seq<u32>, n: nat, code: seq<Insn>)
  {
    n + |code| <= |b| && forall j :: 0 <= j < |code| ==> DecodeWord(b[n + j]) == Some(code[j])
  }

  lemma RunIn(b: seq<u32>, o: nat, s: Core, k: nat, t: Core, n: nat, code: seq<Insn>, j: nat)
    requires Run(b, o, s, k) == Some(t) && Decodes(b, n, code) && j < |code| && t.pc == o + 4 * (n + j)
    ensures Run(b, o, s, k + 1) == Some(Do(code[j], t))
  {
    hide Do, DecodeWord, Run;
    RunNext(b, o, s, k, t, n + j, code[j]);
  }

  // ---------------------------------------------------------------- constant loads

  /** The instructions of a constant load. */
  predicate IsLoad(i: A.AInst) { (i.MoveWide? && i.block < 4) || (i.Op3? && i.wide && i.op.AEor?) }

  function PlainCode(code: seq<A.AInst>): (r: seq<Insn>)
    ensures |r| == |code| && forall j :: 0 <= j < |r| ==> r[j] == Plain(code[j])
  {
    seq(|code|, j requires 0 <= j < |code| => Plain(code[j]))
  }

  lemma {:induction false} MovesAreLoads(wide: bool, rd: A.Reg, b: ArmConstants.Blocks, pattern: u16, k: nat, started: bool)
    requires k <= ArmConstants.Width(wide)
    ensures forall i :: i in ArmConstants.Moves(wide, rd, b, pattern, k, started) ==> IsLoad(i)
    decreases ArmConstants.Width(wide) - k
  {
    if k < ArmConstants.Width(wide) {
      MovesAreLoads(wide, rd, b, pattern, k + 1, true);
      MovesAreLoads(wide, rd, b, pattern, k + 1, started);
    }
  }

  /** The load of a helper's index before it is encoded. */
  function IndexLoad(idx: u32, blind: Option<u64>): seq<A.AInst>
  {
    match blind
    case None => ArmConstants.LoadConstant(true, 5, idx)
    case Some(random) => ArmConstants.LoadBlinded(true, 5, idx, random)
  }

  lemma IndexLoadIs(idx: u32, blind: Option<u64>)
    ensures |LoadIndex(idx, blind)| == |IndexLoad(idx, blind)|
    ensures forall j :: 0 <= j < |IndexLoad(idx, blind)| ==>
              IsLoad(IndexLoad(idx, blind)[j]) && LoadIndex(idx, blind)[j] == EncodeLoad(IndexLoad(idx, blind)[j])
  {
    hide ArmConstants.Moves, EncodeLoad;
    var rd := ArmConstants.BlindScratch(5);
    match blind
    case None => MovesAreLoads(true, 5, ArmConstants.Split(idx), PatternOf(idx), 0, false);
    case Some(random) =>
      var x := Bitwise64(Xor, idx, random);
      MovesAreLoads(true, 5, ArmConstants.Split(x), PatternOf(x), 0, false);
      MovesAreLoads(true, rd, ArmConstants.Split(random), PatternOf(random), 0, false);
  }

  function PatternOf(v: u64): u16 { if ArmConstants.Inverts(true, ArmConstants.Split(v)) then 0xffff else 0 }

  /** Words of a constant load do what the load does. */
  lemma {:induction false} LoadRuns(b: seq<u32>, o: nat, s: Core, n: nat, load: seq<A.AInst>)
    requires s.pc == o + 4 * n && Decodes(b, n, PlainCode(load))
    ensures var m := A.Exec(load, A.Arm(s.regs, s.flags, s.mem));
      Run(b, o, s, |load|) == Some(Core(o + 4 * (n + |load|), m.regs, m.flags, m.mem))
    decreases |load|
  {
    hide DecodeWord, A.Do, Run;
    RunNone(b, o, s);
    if load != [] {
      RunIn(b, o, s, 0, s, n, PlainCode(load), 0);
      var t := Run(b, o, s, 1).value;
      forall j | 0 <= j < |load| - 1
        ensures DecodeWord(b[n + 1 + j]) == Some(PlainCode(load[1..])[j])
      {
        assert DecodeWord(b[n + (1 + j)]) == Some(PlainCode(load)[1 + j]);
      }
      LoadRuns(b, o, t, n + 1, load[1..]);
      RunRuns(b, o, s, 1, |load| - 1);
    }
  }

  /** The index goes to R5; of the other registers only the scratch register of a blinded load changes. */
  lemma IndexRuns(b: seq<u32>, o: nat, s: Core, n: nat, idx: u32, blind: Option<u64>)
    requires s.pc == o + 4 * n && Decodes(b, n, PlainCode(IndexLoad(idx, blind)))
    ensures var l := |IndexLoad(idx, blind)|;
      Run(b, o, s, l).Some? && var t := Run(b, o, s, l).value;
      && t == s.(pc := o + 4 * (n + l), regs := t.regs) && t.regs[5] == idx
      && forall r: A.Reg :: r != 5 && r != 25 ==> t.regs[r] == s.regs[r]
  {
    hide ArmConstants.LoadConstant, A.Exec, Decodes, Run, Bitwise64, ArmConstants.LoadBlinded;
    LoadRuns(b, o, s, n, IndexLoad(idx, blind));
    match blind
    case None => ArmConstants.LoadConstantLoads(true, 5, idx, A.Arm(s.regs, s.flags, s.mem));
    case Some(random) => ArmConstants.LoadBlindedLoads(true, 5, idx, random, A.Arm(s.regs, s.flags, s.mem));
  }

  // ---------------------------------------------------------------- the words of a helper call

  function Front(lit: int, skip: int): seq<Insn>
  {
    [AddImm(SP, SP, -16), StoreReg(LR, SP, 0), LoadLiteral(24, lit), TestImm(24, 24, 0), BranchIf(1, skip)]
  }

  function Default(adr: int, over: int): seq<Insn>
  {
    [Plain(A.MoveWide(true, A.MovZ, 6, 0, 3)), Plain(A.Op3(true, A.ALsl, 5, 5, 6)), Plain(A.MoveWide(true, A.MovZ, 24, 0, 0)),
     AddressOf(24, adr), Plain(A.Op3(true, A.AAdd, 24, 24, 5)), LoadReg(24, 24, 0), Plain(A.Op3(true, A.AOrr, 5, 31, 26)),
     Branch(false, over)]
  }

  const MEET: seq<Insn> :=
    [Plain(A.Op3(true, A.AOrr, 6, 31, 26)), CallReg(24), Plain(A.Op3(true, A.AOrr, 5, 31, 0)), LoadReg(LR, SP, 0), AddImm(SP, SP, 16)]

  /** A helper call at `n`, its literal and its table the given distances from the words that refer to them. */
  ghost predicate HelperWords(b: seq<u32>, n: nat, load1: seq<A.AInst>, load2: seq<A.AInst>, lit: int, adr: int)
  {
    var l, m := |load1|, |load1| + |load2|;
    && Decodes(b, n, Front(lit, 4 * (9 + l))) && Decodes(b, n + 5, PlainCode(load1))
    && Decodes(b, n + 5 + l, Default(adr, 4 * (2 + |load2|))) && Decodes(b, n + 13 + l, PlainCode(load2))
    && Decodes(b, n + 13 + m, MEET)
  }

  /** The memory with LR on the stack. */
  function Pushed(s: Core): Memory
    requires s.regs[SP] >= 16
  {
    Store(s.mem, s.regs[SP] - 16, s.regs[LR], 8)
  }

  /** LR saved, and the dispatcher's address in R24, tested. */
  lemma FrontRuns(b: seq<u32>, o: nat, s: Core, n: nat, lit: int, skip: int, d: u64)
    requires Decodes(b, n, Front(lit, skip)) && s.pc == o + 4 * n && s.regs[SP] >= 16
    requires DWord(Pushed(s), s.pc + 8 + lit) == d
    ensures Run(b, o, s, 5).Some? && var t := Run(b, o, s, 5).value;
      t == Core(if d == 0 then o + 4 * (n + 5) else o + 4 * (n + 4) + skip, s.regs[SP := s.regs[SP] - 16][24 := d], t.flags, Pushed(s))
  {
    hide Run, Decodes, DWord, Store, A.CodeHolds;
    var code := Front(lit, skip);
    var s1 := s.(pc := o + 4 * (n + 1), regs := s.regs[SP := s.regs[SP] - 16]);
    var s2 := s1.(pc := o + 4 * (n + 2), mem := Store(s.mem, s.regs[SP] - 16, s.regs[LR], 8));
    var s3 := s2.(pc := o + 4 * (n + 3), regs := s1.regs[24 := d]);
    DoMoveSp(-16, s);
    DoStores(LR, LR, SP, 0, s1);
    assert Do(code[2], s2) == s3;
    DoTest(24, 24, s3);
    var s4 := Do(code[3], s3);
    assert Do(code[4], s4) == s4.(pc := if d == 0 then o + 4 * (n + 5) else o + 4 * (n + 4) + skip);
    hide Do;
    RunNone(b, o, s);
    RunIn(b, o, s, 0, s, n, code, 0);
    RunIn(b, o, s, 1, s1, n, code, 1);
    RunIn(b, o, s, 2, s2, n, code, 2);
    RunIn(b, o, s, 3, s3, n, code, 3);
    RunIn(b, o, s, 4, s4, n, code, 4);
  }

  /** The default arm: the address of the table's entry, */
  lemma EntryRuns(b: seq<u32>, o: nat, s: Core, n: nat, adr: int, over: int, idx: u32)
    requires Decodes(b, n, Default(adr, over)) && s.pc == o + 4 * n && s.regs[5] == idx
    requires 0 <= s.pc + 12 + adr && s.pc + 12 + adr + 8 * idx < SPACE
    ensures var at := s.pc + 12 + adr + 8 * idx;
      Run(b, o, s, 5) == Some(s.(pc := o + 4 * (n + 5), regs := s.regs[6 := 3][5 := 8 * idx][24 := 0][24 := s.pc + 12 + adr][24 := at]))
  {
    hide Run, Decodes, Do, ToU64;
    var code, table := Default(adr, over), s.pc + 12 + adr;
    var s1 := s.(pc := o + 4 * (n + 1), regs := s.regs[6 := 3]);
    var s2 := s.(pc := o + 4 * (n + 2), regs := s1.regs[5 := 8 * idx]);
    var s3 := s.(pc := o + 4 * (n + 3), regs := s2.regs[24 := 0]);
    var s4 := s.(pc := o + 4 * (n + 4), regs := s3.regs[24 := table]);
    DoMove(6, 3, s);
    DoScale(5, 6, s1);
    DoMove(24, 0, s2);
    DoAddress(24, adr, s3);
    DoAddSub(false, 24, 24, 5, s4);
    NoWrap(table + 8 * idx);
    RunNone(b, o, s);
    RunIn(b, o, s, 0, s, n, code, 0);
    RunIn(b, o, s, 1, s1, n, code, 1);
    RunIn(b, o, s, 2, s2, n, code, 2);
    RunIn(b, o, s, 3, s3, n, code, 3);
    RunIn(b, o, s, 4, s4, n, code, 4);
  }

  lemma NoWrap(v: int)
    requires 0 <= v < SPACE
    ensures ToU64(v) == v
  {
  }

  /** and that entry, with the context as sixth argument. */
  lemma FetchRuns(b: seq<u32>, o: nat, s: Core, n: nat, adr: int, over: int)
    requires Decodes(b, n, Default(adr, over)) && s.pc == o + 4 * (n + 5)
    ensures Run(b, o, s, 3) ==
            Some(s.(pc := o + 4 * (n + 7) + over, regs := s.regs[24 := DWord(s.mem, s.regs[24])][5 := s.regs[26]]))
  {
    hide Run, Decodes, DWord, Do;
    var code := Default(adr, over);
    var s1 := s.(pc := o + 4 * (n + 6), regs := s.regs[24 := DWord(s.mem, s.regs[24])]);
    var s2 := s.(pc := o + 4 * (n + 7), regs := s1.regs[5 := s.regs[26]]);
    DoLoad(24, 24, s);
    DoCopy(5, 26, s1);
    DoBranch(over, s2);
    RunNone(b, o, s);
    RunIn(b, o, s, 0, s, n, code, 5);
    RunIn(b, o, s, 1, s1, n, code, 6);
    RunIn(b, o, s, 2, s2, n, code, 7);
  }

  // ---------------------------------------------------------------- the whole call

  /** Registers a helper call leaves alone: the first five arguments, R6 to R10 and the context. */
  const ALONE: set<A.Reg> := {0, 1, 2, 3, 4, 19, 20, 21, 22, 23, 26}

  predicate Same(r: A.ARegs, r': A.ARegs) { forall i: A.Reg :: i in ALONE ==> r'[i] == r[i] }

  /** The default arm, up to the call. */
  lemma DefaultRuns(b: seq<u32>, o: nat, s: Core, n: nat, load1: seq<A.AInst>, load2: seq<A.AInst>, lit: int, adr: int,
                    idx: u32, blind: Option<u64>)
    requires HelperWords(b, n, load1, load2, lit, adr) && load1 == IndexLoad(idx, blind) && s.pc == o + 4 * (n + 5)
    requires var table := o + 4 * (n + 8 + |load1|) + adr; 0 <= table && table + 8 * idx < SPACE
    ensures var l, k, table := |load1|, |load1| + 8, o + 4 * (n + 8 + |load1|) + adr;
      Run(b, o, s, k).Some? && var t := Run(b, o, s, k).value;
      && t == s.(pc := o + 4 * (n + 14 + l + |load2|), regs := t.regs)
      && t.regs[24] == DWord(s.mem, table + 8 * idx) && t.regs[5] == s.regs[26]
      && Same(s.regs, t.regs) && t.regs[SP] == s.regs[SP]
  {
    hide Run, Decodes, DWord, IndexLoad;
    var l, over := |load1|, 4 * (2 + |load2|);
    IndexRuns(b, o, s, n + 5, idx, blind);
    var s1 := Run(b, o, s, l).value;
    EntryRuns(b, o, s1, n + 5 + l, adr, over, idx);
    RunRuns(b, o, s, l, 5);
    var s2 := Run(b, o, s, l + 5).value;
    FetchRuns(b, o, s2, n + 5 + l, adr, over);
    RunRuns(b, o, s, l + 5, 3);
  }

  /** The external arm, up to the call. */
  lemma ExternalRuns(b: seq<u32>, o: nat, s: Core, n: nat, load1: seq<A.AInst>, load2: seq<A.AInst>, lit: int, adr: int,
                     idx: u32, blind: Option<u64>)
    requires HelperWords(b, n, load1, load2, lit, adr) && load2 == IndexLoad(idx, blind) && s.pc == o + 4 * (n + 13 + |load1|)
    ensures var m, k := |load1| + |load2|, |load2| + 1;
      Run(b, o, s, k).Some? && var t := Run(b, o, s, k).value;
      && t == s.(pc := o + 4 * (n + 14 + m), regs := t.regs)
      && t.regs[24] == s.regs[24] && t.regs[5] == idx && t.regs[6] == s.regs[26]
      && Same(s.regs, t.regs) && t.regs[SP] == s.regs[SP]
  {
    hide Run, Decodes, IndexLoad, Do;
    var l := |load2|;
    IndexRuns(b, o, s, n + 13 + |load1|, idx, blind);
    var s1 := Run(b, o, s, l).value;
    DoCopy(6, 26, s1);
    RunIn(b, o, s, l, s1, n + 13 + |load1| + l, MEET, 0);
  }

  lemma CallRuns(b: seq<u32>, o: nat, s: Core, n: nat)
    requires Decodes(b, n, MEET) && s.pc == o + 4 * (n + 1) && o + 4 * |b| <= SPACE
    ensures Run(b, o, s, 1) == Some(s.(pc := s.regs[24], regs := s.regs[LR := o + 4 * (n + 2)]))
  {
    hide Run;
    RunNone(b, o, s);
    RunIn(b, o, s, 0, s, n, MEET, 1);
    hide DecodeWord;
  }

  /** The literal at `lit` is `d`, and if that is zero the table at `table` has `v` at the index. */
  ghost predicate Finds(s: Core, lit: int, table: int, idx: u32, d: u64, v: u64)
  {
    && s.regs[SP] >= 16 && DWord(Pushed(s), lit) == d
    && (d == 0 ==> 0 <= table && table + 8 * idx < SPACE && DWord(Pushed(s), table + 8 * idx) == v)
  }

  /** The run ends at the first instruction of the helper `to`, called with the arguments of `s`, returning to `back`. */
  ghost predicate Arrives(s: Core, end: Option<Core>, to: u64, fifth: u64, back: int)
  {
    && s.regs[SP] >= 16 && end.Some? && end.value.pc == to && end.value.regs[5] == fifth && end.value.regs[LR] == back
    && Same(s.regs, end.value.regs) && end.value.regs[SP] == s.regs[SP] - 16 && end.value.mem == Pushed(s)
  }

  /** From the first word of a helper call to the helper. */
  lemma WordsCall(b: seq<u32>, o: nat, s: Core, n: nat, lit: int, adr: int, idx: u32, blind1: Option<u64>, blind2: Option<u64>,
                  d: u64, v: u64)
    requires HelperWords(b, n, IndexLoad(idx, blind1), IndexLoad(idx, blind2), lit, adr) && s.pc == o + 4 * n && o + 4 * |b| <= SPACE
    requires Finds(s, o + 4 * (n + 2) + lit, o + 4 * (n + 8 + |IndexLoad(idx, blind1)|) + adr, idx, d, v)
    ensures var l1, l2 := |IndexLoad(idx, blind1)|, |IndexLoad(idx, blind2)|; var back := o + 4 * (n + 15 + l1 + l2);
      && (d == 0 ==> Arrives(s, Run(b, o, s, 14 + l1), v, s.regs[26], back))
      && (d != 0 ==> Arrives(s, Run(b, o, s, 7 + l2), d, idx, back) && Run(b, o, s, 7 + l2).value.regs[6] == s.regs[26])
  {
    hide Run, Decodes, DWord, IndexLoad, Store;
    var load1, load2 := IndexLoad(idx, blind1), IndexLoad(idx, blind2);
    var l1, l2 := |load1|, |load2|;
    FrontRuns(b, o, s, n, lit, 4 * (9 + l1), d);
    var s1 := Run(b, o, s, 5).value;
    var k := if d == 0 then l1 + 8 else l2 + 1;
    if d == 0 {
      DefaultRuns(b, o, s1, n, load1, load2, lit, adr, idx, blind1);
    } else {
      ExternalRuns(b, o, s1, n, load1, load2, lit, adr, idx, blind2);
    }
    RunRuns(b, o, s, 5, k);
    var s2 := Run(b, o, s, 5 + k).value;
    CallRuns(b, o, s2, n + 13 + l1 + l2);
    RunRuns(b, o, s, 5 + k, 1);
  }

  // ---------------------------------------------------------------- compiled programs

  /** The operations of a helper call, one by one. */
  lemma HelperOps(load1: seq<u32>, load2: seq<u32>, unwinds: bool)
    ensures var ops, l, m := HelperCall(load1, load2, unwinds), |load1|, |load1| + |load2|;
      && ops[0] == AOp.Word(0xd100_43ff) && ops[1] == AOp.Word(0xf800_03fe) && ops[3] == AOp.Word(0xf100_0318)
      && (forall j :: 0 <= j < l ==> ops[5 + j] == AOp.Word(load1[j]))
      && ops[5 + l] == AOp.Word(0xd280_0066) && ops[6 + l] == AOp.Word(0x9ac6_20a5) && ops[7 + l] == AOp.Word(0xd280_0018)
      && ops[9 + l] == AOp.Word(0x8b05_0318) && ops[10 + l] == AOp.Word(0xf840_0318) && ops[11 + l] == AOp.Word(0xaa1a_03e5)
      && ops[13 + m] == AOp.Word(0xaa1a_03e6) && ops[15 + m] == AOp.Word(0xaa00_03e5)
      && ops[16 + m] == AOp.Word(0xf840_03fe) && ops[17 + m] == AOp.Word(0x9100_43ff)
      && (unwinds ==> ops[18 + m] == AOp.Word(0xf100_00bf))
  {
    hide AsWords;
  }

  /** A slot of compiled code, its own words at `n`. */
  ghost predicate SlotIs(setup: seq<AOp>, plan: seq<Plan>, tail: Tail, b: seq<u32>, i: nat, n: nat, ops: seq<AOp>)
  {
    && Compiled(Start(), setup, plan, tail, b) && i < |plan| && plan[i].Slot? && plan[i].ops == ops
    && |UpToOp(Start(), setup, plan, i, 0).words| == n
  }

  lemma WordDecodes(setup: seq<AOp>, plan: seq<Plan>, tail: Tail, b: seq<u32>, i: nat, n: nat, ops: seq<AOp>, k: nat, w: u32)
    requires SlotIs(setup, plan, tail, b, i, n, ops) && k < |ops| && ops[k] == AOp.Word(w)
    ensures n + |ops| <= |b| && DecodeWord(b[n + k]) == DecodeWord(w)
  {
    hide Compiled, UpToOp, Planned, DecodeWord;
    WordStays(Start(), setup, plan, tail, b, i, k);
    SlotInside(Start(), setup, plan, tail, b, i);
  }

  lemma LoadDecoded(setup: seq<AOp>, plan: seq<Plan>, tail: Tail, b: seq<u32>, i: nat, n: nat, ops: seq<AOp>, k: nat,
                    idx: u32, blind: Option<u64>)
    requires SlotIs(setup, plan, tail, b, i, n, ops) && k + |LoadIndex(idx, blind)| <= |ops|
    requires forall j :: 0 <= j < |LoadIndex(idx, blind)| ==> ops[k + j] == AOp.Word(LoadIndex(idx, blind)[j])
    ensures Decodes(b, n + k, PlainCode(IndexLoad(idx, blind)))
  {
    hide SlotIs, DecodeWord, LoadIndex, IndexLoad, EncodeLoad;
    IndexLoadIs(idx, blind);
    var load := IndexLoad(idx, blind);
    OpsInside(setup, plan, tail, b, i, n, ops);
    forall j | 0 <= j < |load|
      ensures DecodeWord(b[n + k + j]) == Some(PlainCode(load)[j])
    {
      assert ops[k + j] == AOp.Word(LoadIndex(idx, blind)[j]);
      WordDecodes(setup, plan, tail, b, i, n, ops, k + j, LoadIndex(idx, blind)[j]);
      LoadDecodes(load[j]);
    }
  }

  lemma OpsInside(setup: seq<AOp>, plan: seq<Plan>, tail: Tail, b: seq<u32>, i: nat, n: nat, ops: seq<AOp>)
    requires SlotIs(setup, plan, tail, b, i, n, ops)
    ensures n + |ops| <= |b|
  {
    hide Compiled, UpToOp, Planned;
    SlotInside(Start(), setup, plan, tail, b, i);
  }

  /** The word of a field, with what it refers to. */
  lemma FieldIs(setup: seq<AOp>, plan: seq<Plan>, tail: Tail, b: seq<u32>, i: nat, n: nat, ops: seq<AOp>, k: nat)
    requires SlotIs(setup, plan, tail, b, i, n, ops) && k < |ops| && ops[k].Field?
    requires ops[k].kind.LeaKind? ==>
               ops[k].to == ToPlace(ToHelperTable) && InRange(Conditional, Planned(Start(), setup, plan, tail).tables.helperLoc - 4 * (n + k))
    ensures var w := Planned(Start(), setup, plan, tail);
      && n + |ops| <= |w.words| <= |b|
      && DecodeWord(b[n + k]) == Some(FieldInsn(ops[k].kind, ops[k].base, Reads(w, b, ops[k].kind, 4 * (n + k)) - 4 * (n + k)))
  {
    hide Compiled, UpToOp, Planned, DecodeWord, Reads, FieldInsn, InRange;
    SlotInside(Start(), setup, plan, tail, b, i);
    FieldDecoded(Start(), setup, plan, tail, b, i, k);
  }

  /** Where the four fields of a helper call go. */
  ghost predicate FieldsGo(setup: seq<AOp>, plan: seq<Plan>, tail: Tail, b: seq<u32>, n: nat, l1: nat, l2: nat)
  {
    var w := Planned(Start(), setup, plan, tail);
    && n + 18 + l1 + l2 <= |w.words| <= |b|
    && Reads(w, b, JumpKind, 4 * (n + 4)) == 4 * (n + 13 + l1) && Reads(w, b, JumpKind, 4 * (n + 12 + l1)) == 4 * (n + 14 + l1 + l2)
    && Reads(w, b, LoadKind, 4 * (n + 2)) == w.tables.dispatcherLoc
    && Reads(w, b, LeaKind, 4 * (n + 8 + l1)) == w.tables.helperLoc
  }

  /** The dispatcher's address and the helper table are less than a megabyte from the words that refer to them. */
  predicate Near(w: Code, n: nat, l1: nat)
  {
    && -0x10_0000 <= w.tables.dispatcherLoc - 4 * (n + 2) < 0x10_0000
    && -0x10_0000 <= w.tables.helperLoc - 4 * (n + 8 + l1) < 0x10_0000
  }

  lemma FieldsReach(setup: seq<AOp>, plan: seq<Plan>, tail: Tail, b: seq<u32>, i: nat, n: nat, idx: u32,
                    blind1: Option<u64>, blind2: Option<u64>, unwinds: bool)
    requires SlotIs(setup, plan, tail, b, i, n, HelperCall(LoadIndex(idx, blind1), LoadIndex(idx, blind2), unwinds))
    requires Near(Planned(Start(), setup, plan, tail), n, |LoadIndex(idx, blind1)|)
    ensures FieldsGo(setup, plan, tail, b, n, |LoadIndex(idx, blind1)|, |LoadIndex(idx, blind2)|)
  {
    hide Compiled, UpToOp, Planned, Reads, LoadIndex;
    HelperCallLands(Start(), setup, plan, tail, b, i, idx, blind1, blind2, unwinds);
  }

  /** The words of a compiled helper call. */
  lemma HelperCompiles(setup: seq<AOp>, plan: seq<Plan>, tail: Tail, b: seq<u32>, i: nat, n: nat, idx: u32,
                       blind1: Option<u64>, blind2: Option<u64>, unwinds: bool)
    requires SlotIs(setup, plan, tail, b, i, n, HelperCall(LoadIndex(idx, blind1), LoadIndex(idx, blind2), unwinds))
    requires Near(Planned(Start(), setup, plan, tail), n, |LoadIndex(idx, blind1)|)
    ensures var t, l := Planned(Start(), setup, plan, tail).tables, |IndexLoad(idx, blind1)|;
      && n + |HelperCall(LoadIndex(idx, blind1), LoadIndex(idx, blind2), unwinds)| <= |b|
      && HelperWords(b, n, IndexLoad(idx, blind1), IndexLoad(idx, blind2), t.dispatcherLoc - 4 * (n + 2), t.helperLoc - 4 * (n + 8 + l))
  {
    hide SlotIs, Planned, DecodeWord, LoadIndex, IndexLoad, HelperCall, Decodes;
    var load1, load2 := LoadIndex(idx, blind1), LoadIndex(idx, blind2);
    var ops, l, m := HelperCall(load1, load2, unwinds), |load1|, |load1| + |load2|;
    IndexLoadIs(idx, blind1);
    IndexLoadIs(idx, blind2);
    HelperOps(load1, load2, unwinds);
    HelperCallOps(load1, load2, unwinds);
    OpsInside(setup, plan, tail, b, i, n, ops);
    LoadDecoded(setup, plan, tail, b, i, n, ops, 5, idx, blind1);
    LoadDecoded(setup, plan, tail, b, i, n, ops, 13 + l, idx, blind2);
    FrontCompiles(setup, plan, tail, b, i, n, idx, blind1, blind2, unwinds);
    DefaultCompiles(setup, plan, tail, b, i, n, idx, blind1, blind2, unwinds);
    MeetCompiles(setup, plan, tail, b, i, n, idx, blind1, blind2, unwinds);
  }

  lemma FrontCompiles(setup: seq<AOp>, plan: seq<Plan>, tail: Tail, b: seq<u32>, i: nat, n: nat, idx: u32,
                      blind1: Option<u64>, blind2: Option<u64>, unwinds: bool)
    requires SlotIs(setup, plan, tail, b, i, n, HelperCall(LoadIndex(idx, blind1), LoadIndex(idx, blind2), unwinds))
    requires Near(Planned(Start(), setup, plan, tail), n, |LoadIndex(idx, blind1)|)
    ensures var t := Planned(Start(), setup, plan, tail).tables;
      Decodes(b, n, Front(t.dispatcherLoc - 4 * (n + 2), 4 * (9 + |LoadIndex(idx, blind1)|)))
  {
    hide DecodeWord, SlotIs, Planned, LoadIndex, HelperCall, Reads;
    var load1, load2 := LoadIndex(idx, blind1), LoadIndex(idx, blind2);
    var ops := HelperCall(load1, load2, unwinds);
    HelperOps(load1, load2, unwinds);
    HelperCallOps(load1, load2, unwinds);
    FieldsReach(setup, plan, tail, b, i, n, idx, blind1, blind2, unwinds);
    OpsInside(setup, plan, tail, b, i, n, ops);
    WordDecodes(setup, plan, tail, b, i, n, ops, 0, 0xd100_43ff);
    WordDecodes(setup, plan, tail, b, i, n, ops, 1, 0xf800_03fe);
    WordDecodes(setup, plan, tail, b, i, n, ops, 3, 0xf100_0318);
    FieldIs(setup, plan, tail, b, i, n, ops, 2);
    FieldIs(setup, plan, tail, b, i, n, ops, 4);
    ReserveTwo();
    StoreLr();
    TestAddress();
    JumpForms(0x5400_0001);
  }

  lemma DefaultCompiles(setup: seq<AOp>, plan: seq<Plan>, tail: Tail, b: seq<u32>, i: nat, n: nat, idx: u32,
                        blind1: Option<u64>, blind2: Option<u64>, unwinds: bool)
    requires SlotIs(setup, plan, tail, b, i, n, HelperCall(LoadIndex(idx, blind1), LoadIndex(idx, blind2), unwinds))
    requires Near(Planned(Start(), setup, plan, tail), n, |LoadIndex(idx, blind1)|)
    ensures var t, l := Planned(Start(), setup, plan, tail).tables, |LoadIndex(idx, blind1)|;
      Decodes(b, n + 5 + l, Default(t.helperLoc - 4 * (n + 8 + l), 4 * (2 + |LoadIndex(idx, blind2)|)))
  {
    hide DecodeWord, SlotIs, Planned, LoadIndex, HelperCall, Reads, InRange;
    var load1, load2 := LoadIndex(idx, blind1), LoadIndex(idx, blind2);
    var ops, l := HelperCall(load1, load2, unwinds), |load1|;
    HelperOps(load1, load2, unwinds);
    HelperCallOps(load1, load2, unwinds);
    FieldsReach(setup, plan, tail, b, i, n, idx, blind1, blind2, unwinds);
    OpsInside(setup, plan, tail, b, i, n, ops);
    ShortRanges(Planned(Start(), setup, plan, tail).tables.helperLoc - 4 * (n + 8 + l));
    WordDecodes(setup, plan, tail, b, i, n, ops, 5 + l, 0xd280_0066);
    WordDecodes(setup, plan, tail, b, i, n, ops, 6 + l, 0x9ac6_20a5);
    WordDecodes(setup, plan, tail, b, i, n, ops, 7 + l, 0xd280_0018);
    WordDecodes(setup, plan, tail, b, i, n, ops, 9 + l, 0x8b05_0318);
    WordDecodes(setup, plan, tail, b, i, n, ops, 10 + l, 0xf840_0318);
    WordDecodes(setup, plan, tail, b, i, n, ops, 11 + l, 0xaa1a_03e5);
    FieldIs(setup, plan, tail, b, i, n, ops, 8 + l);
    FieldIs(setup, plan, tail, b, i, n, ops, 12 + l);
    ThreeToR6();
    ScaleIndex();
    ClearAddress();
    AddIndex();
    LoadEntry();
    ContextToR5();
    JumpForms(0x1400_0000);
  }

  lemma MeetCompiles(setup: seq<AOp>, plan: seq<Plan>, tail: Tail, b: seq<u32>, i: nat, n: nat, idx: u32,
                     blind1: Option<u64>, blind2: Option<u64>, unwinds: bool)
    requires SlotIs(setup, plan, tail, b, i, n, HelperCall(LoadIndex(idx, blind1), LoadIndex(idx, blind2), unwinds))
    ensures Decodes(b, n + 13 + |LoadIndex(idx, blind1)| + |LoadIndex(idx, blind2)|, MEET)
  {
    hide DecodeWord, SlotIs, LoadIndex, HelperCall;
    var load1, load2 := LoadIndex(idx, blind1), LoadIndex(idx, blind2);
    var ops, m := HelperCall(load1, load2, unwinds), |load1| + |load2|;
    HelperOps(load1, load2, unwinds);
    HelperCallOps(load1, load2, unwinds);
    OpsInside(setup, plan, tail, b, i, n, ops);
    WordDecodes(setup, plan, tail, b, i, n, ops, 13 + m, 0xaa1a_03e6);
    WordDecodes(setup, plan, tail, b, i, n, ops, 14 + m, 0xd63f_0300);
    WordDecodes(setup, plan, tail, b, i, n, ops, 15 + m, 0xaa00_03e5);
    WordDecodes(setup, plan, tail, b, i, n, ops, 16 + m, 0xf840_03fe);
    WordDecodes(setup, plan, tail, b, i, n, ops, 17 + m, 0x9100_43ff);
    ContextToR6();
    CallAddress();
    ResultToR5();
    LoadLr();
    ReleaseTwo();
    TestResult();
  }

  /** The eight bytes that two words of code make. */
  function Two(words: seq<u32>, k: nat): u64
    requires k + 2 <= |words|
  {
    words[k] as int + 0x1_0000_0000 * words[k + 1] as int
  }

  /** The code stands in memory at `o`. */
  ghost predicate InMemory(b: seq<u32>, o: nat, m: Memory) { forall k: nat :: k + 2 <= |b| ==> DWord(m, o + 4 * k) == Two(b, k) }

  /** Dispatcher's address and helper table are in the resolved code as they were emitted. */
  lemma TailStays(c: Code, setup: seq<AOp>, plan: seq<Plan>, tail: Tail, b: seq<u32>)
    requires Compiled(c, setup, plan, tail, b)
    ensures var w := Planned(c, setup, plan, tail); var d, h := w.tables.dispatcherLoc / 4, w.tables.helperLoc / 4;
      && w.tables.dispatcherLoc == 4 * d && w.tables.helperLoc == 4 * h && d + |tail.dispatcher| == h && h + |tail.helpers| <= |b|
      && b[d..d + |tail.dispatcher|] == tail.dispatcher && b[h..h + |tail.helpers|] == tail.helpers
  {
    hide Compiled, Body, AfterTail, Sound;
    var w, body := Planned(c, setup, plan, tail), Body(c, setup, plan);
    var d := |body.words| + |tail.epilogue|;
    TailWords(body, tail);
    TailPlain(c, setup, plan, tail, b);
    assert b[d..d + |tail.dispatcher|] == w.words[d..d + |tail.dispatcher|];
    assert b[d + |tail.dispatcher|..|w.words|] == w.words[d + |tail.dispatcher|..];
  }

  lemma TailWords(c: Code, tail: Tail)
    ensures var w, d := AfterTail(c, tail), |c.words| + |tail.epilogue|;
      && |w.words| == d + |tail.dispatcher| + |tail.helpers|
      && w.tables.dispatcherLoc == 4 * d && w.tables.helperLoc == 4 * (d + |tail.dispatcher|)
      && w.words[d..d + |tail.dispatcher|] == tail.dispatcher && w.words[d + |tail.dispatcher|..] == tail.helpers
  {
  }

  /** There are no fields behind the body. */
  lemma TailPlain(c: Code, setup: seq<AOp>, plan: seq<Plan>, tail: Tail, b: seq<u32>)
    requires Compiled(c, setup, plan, tail, b)
    ensures var w, n := Planned(c, setup, plan, tail), |Body(c, setup, plan).words|;
      |w.words| <= |b| && forall k: nat :: n <= k < |w.words| ==> b[k] == w.words[k]
  {
    hide OpsOk, PlanOk, FieldFixed, Body, Sound, TableOf, AfterTail;
    var w, body := Planned(c, setup, plan, tail), Body(c, setup, plan);
    SoundPlanned(c, setup, plan, tail);
    forall k: nat | |body.words| <= k < |w.words|
      ensures b[k] == w.words[k]
    {
      forall kind: Kind, j | 0 <= j < |TableOf(w.tables, kind)|
        ensures TableOf(w.tables, kind)[j].at != 4 * k
      {
        EntriesBefore(body, kind);
        TailFields(body, tail, kind);
      }
      assert PlainWord(w.tables, k);
    }
  }

  lemma TailFields(c: Code, tail: Tail, kind: Kind)
    ensures TableOf(AfterTail(c, tail).tables, kind) == TableOf(c.tables, kind)
  {
  }

  /** The stack word a helper call writes is not in the code. */
  predicate Apart(s: Core, o: nat, b: seq<u32>) { s.regs[SP] >= 16 && (o + 4 * |b| <= s.regs[SP] - 16 || s.regs[SP] - 8 <= o) }

  lemma CodeKept(s: Core, o: nat, b: seq<u32>, k: nat)
    requires InMemory(b, o, s.mem) && Apart(s, o, b) && k + 2 <= |b| && o + 4 * |b| <= SPACE
    ensures DWord(Pushed(s), o + 4 * k) == Two(b, k)
  {
    hide DWord, Store;
    WordOutside(s.mem, s.regs[SP] - 16, s.regs[LR], o + 4 * k);
  }

  /** What a helper call finds in the code. */
  lemma CodeFinds(setup: seq<AOp>, plan: seq<Plan>, tail: Tail, b: seq<u32>, o: nat, s: Core, idx: u32)
    requires Compiled(Start(), setup, plan, tail, b) && InMemory(b, o, s.mem) && Apart(s, o, b) && o + 4 * |b| <= SPACE
    requires |tail.dispatcher| == 2 && (Two(tail.dispatcher, 0) == 0 ==> 2 * idx + 2 <= |tail.helpers|)
    ensures var t, d := Planned(Start(), setup, plan, tail).tables, Two(tail.dispatcher, 0);
      Finds(s, o + t.dispatcherLoc, o + t.helperLoc, idx, d, if d == 0 then Two(tail.helpers, 2 * idx) else 0)
  {
    hide Compiled, Planned, InMemory, Apart, DWord, Pushed;
    TailStays(Start(), setup, plan, tail, b);
    var t := Planned(Start(), setup, plan, tail).tables;
    var d, h := t.dispatcherLoc / 4, t.helperLoc / 4;
    assert s.regs[SP] >= 16 by { ApartStack(s, o, b); }
    assert b[d] == b[d..d + 2][0] && b[d + 1] == b[d..d + 2][1];
    CodeKept(s, o, b, d);
    if Two(tail.dispatcher, 0) == 0 {
      var k := 2 * idx;
      assert b[h + k] == b[h..h + |tail.helpers|][k] && b[h + k + 1] == b[h..h + |tail.helpers|][k + 1];
      CodeKept(s, o, b, h + k);
    }
  }

  lemma ApartStack(s: Core, o: nat, b: seq<u32>)
    requires Apart(s, o, b)
    ensures s.regs[SP] >= 16
  {
  }

  lemma SlotOfProgram(env: Env, code: nat -> seq<AOp>, blind: nat -> (Option<u64>, Option<u64>), setup: seq<AOp>, tail: Tail,
                      b: seq<u32>, i: nat)
    requires CompiledProgram(env, code, blind, setup, tail, b) && i < |env.prog| && JitProgram.IsHelperCall(env.prog[i])
    ensures |env.prog| <= 65535
    ensures var idx := ToU32(env.prog[i].imm);
      SlotIs(setup, PlanOf(env, code, blind), tail, b, i, SlotAt(env, code, blind, setup, i),
             HelperCall(LoadIndex(idx, blind(i).0), LoadIndex(idx, blind(i).1), env.prog[i].imm == env.unwind))
  {
    PlanOfOk(env, code, blind);
    hide ControlFlow.Loaded, CodeOk, Compiled, HelperCall, LoadIndex, UpToOp;
    PlanSlot(env, code, blind, i);
  }

  /** The tables of the compiled program. */
  function CodeOf(env: Env, code: nat -> seq<AOp>, blind: nat -> (Option<u64>, Option<u64>), setup: seq<AOp>, tail: Tail): Code
    requires |env.prog| <= 65535
  {
    Planned(Start(), setup, PlanOf(env, code, blind), tail)
  }

  /**
    A helper call of a compiled program whose dispatcher and helper table are within reach, run from its first word: if
    the VM has a dispatcher, control goes to it with index and context behind the arguments; if not, to the index's
    entry of the table with the context. R1 to R5 are the first five arguments, and LR is behind the call.
    */
  lemma HelperCallRuns(env: Env, code: nat -> seq<AOp>, blind: nat -> (Option<u64>, Option<u64>), setup: seq<AOp>, tail: Tail,
                       b: seq<u32>, i: nat, o: nat, s: Core)
    requires CompiledProgram(env, code, blind, setup, tail, b) && i < |env.prog| <= 65535 && JitProgram.IsHelperCall(env.prog[i])
    requires Near(CodeOf(env, code, blind, setup, tail), SlotAt(env, code, blind, setup, i), |LoadIndex(ToU32(env.prog[i].imm), blind(i).0)|)
    requires s.pc == o + 4 * SlotAt(env, code, blind, setup, i) && InMemory(b, o, s.mem) && Apart(s, o, b) && o + 4 * |b| <= SPACE
    requires |tail.dispatcher| == 2 && (Two(tail.dispatcher, 0) == 0 ==> 2 * ToU32(env.prog[i].imm) + 2 <= |tail.helpers|)
    ensures var idx, d := ToU32(env.prog[i].imm), Two(tail.dispatcher, 0);
      var l1, l2 := |LoadIndex(idx, blind(i).0)|, |LoadIndex(idx, blind(i).1)|; var back := s.pc + 4 * (15 + l1 + l2);
      && (d == 0 ==> Arrives(s, Run(b, o, s, 14 + l1), Two(tail.helpers, 2 * idx), s.regs[26], back))
      && (d != 0 ==> Arrives(s, Run(b, o, s, 7 + l2), d, idx, back) && Run(b, o, s, 7 + l2).value.regs[6] == s.regs[26])
  {
    hide CompiledProgram, Near, SlotAt, SlotIs, HelperWords, Finds, InMemory, Run, HelperCall, LoadIndex, Compiled, IndexLoad, PlanOf, Planned, Arrives;
    var n, idx, d, plan := SlotAt(env, code, blind, setup, i), ToU32(env.prog[i].imm), Two(tail.dispatcher, 0), PlanOf(env, code, blind);
    SlotOfProgram(env, code, blind, setup, tail, b, i);
    HelperCompiles(setup, plan, tail, b, i, n, idx, blind(i).0, blind(i).1, env.prog[i].imm == env.unwind);
    IndexLoadIs(idx, blind(i).0);
    IndexLoadIs(idx, blind(i).1);
    IsCompiled(setup, plan, tail, b, i, n, HelperCall(LoadIndex(idx, blind(i).0), LoadIndex(idx, blind(i).1), env.prog[i].imm == env.unwind));
    CodeFinds(setup, plan, tail, b, o, s, idx);
    var t := Planned(Start(), setup, plan, tail).tables;
    WordsCall(b, o, s, n, t.dispatcherLoc - 4 * (n + 2), t.helperLoc - 4 * (n + 8 + |IndexLoad(idx, blind(i).0)|), idx, blind(i).0, blind(i).1,
              d, if d == 0 then Two(tail.helpers, 2 * idx as int) else 0);
  }

  lemma IsCompiled(setup: seq<AOp>, plan: seq<Plan>, tail: Tail, b: seq<u32>, i: nat, n: nat, ops: seq<AOp>)
    requires SlotIs(setup, plan, tail, b, i, n, ops)
    ensures Compiled(Start(), setup, plan, tail, b)
  {
  }

  /** Result, LR and SP come back. */
  lemma BackRuns(b: seq<u32>, o: nat, s: Core, n: nat)
    requires Decodes(b, n, MEET) && s.pc == o + 4 * (n + 2) && s.regs[SP] + 16 < SPACE
    ensures var regs := s.regs[5 := s.regs[0]][LR := DWord(s.mem, s.regs[SP])][SP := s.regs[SP] + 16];
      Run(b, o, s, 3) == Some(s.(pc := o + 4 * (n + 5), regs := regs))
  {
    hide Run, Decodes, DWord, Do;
    var s1 := s.(pc := o + 4 * (n + 3), regs := s.regs[5 := s.regs[0]]);
    var s2 := s.(pc := o + 4 * (n + 4), regs := s1.regs[LR := DWord(s.mem, s.regs[SP])]);
    DoCopy(5, 0, s);
    DoLoad(LR, SP, s1);
    DoMoveSp(16, s2);
    RunNone(b, o, s);
    RunIn(b, o, s, 0, s, n, MEET, 2);
    RunIn(b, o, s, 1, s1, n, MEET, 3);
    RunIn(b, o, s, 2, s2, n, MEET, 4);
  }

  lemma TestRuns(b: seq<u32>, o: nat, s: Core, n: nat, rel: int)
    requires Decodes(b, n, [TestImm(31, 5, 0), BranchIf(0, rel)]) && s.pc == o + 4 * n
    ensures Run(b, o, s, 2).Some? && var t := Run(b, o, s, 2).value;
      t == s.(pc := if s.regs[5] == 0 then o + 4 * (n + 1) + rel else o + 4 * (n + 2), flags := t.flags)
  {
    hide Run, Decodes, A.CodeHolds;
    var code := [TestImm(31, 5, 0), BranchIf(0, rel)];
    DoTest(31, 5, s);
    var s1 := Do(code[0], s);
    assert Do(code[1], s1) == s1.(pc := if s.regs[5] == 0 then o + 4 * (n + 1) + rel else o + 4 * (n + 2));
    hide Do;
    RunNone(b, o, s);
    RunIn(b, o, s, 0, s, n, code, 0);
    RunIn(b, o, s, 1, s1, n, code, 1);
  }

  /** The test behind a call that may unwind, if the exit is within reach. */
  lemma TestCompiles(setup: seq<AOp>, plan: seq<Plan>, tail: Tail, b: seq<u32>, i: nat, n: nat, idx: u32,
                     blind1: Option<u64>, blind2: Option<u64>)
    requires SlotIs(setup, plan, tail, b, i, n, HelperCall(LoadIndex(idx, blind1), LoadIndex(idx, blind2), true))
    requires var w, at := Planned(Start(), setup, plan, tail), n + 19 + |LoadIndex(idx, blind1)| + |LoadIndex(idx, blind2)|;
      -0x10_0000 <= w.tables.exitLoc - 4 * at < 0x10_0000
    ensures var w, at := Planned(Start(), setup, plan, tail), n + 19 + |LoadIndex(idx, blind1)| + |LoadIndex(idx, blind2)|;
      Decodes(b, at - 1, [TestImm(31, 5, 0), BranchIf(0, w.tables.exitLoc - 4 * at)])
  {
    hide DecodeWord, SlotIs, Planned, LoadIndex, HelperCall, Reads;
    var load1, load2 := LoadIndex(idx, blind1), LoadIndex(idx, blind2);
    var ops, m := HelperCall(load1, load2, true), |load1| + |load2|;
    HelperOps(load1, load2, true);
    HelperCallOps(load1, load2, true);
    ExitReach(setup, plan, tail, b, i, n, idx, blind1, blind2);
    OpsInside(setup, plan, tail, b, i, n, ops);
    WordDecodes(setup, plan, tail, b, i, n, ops, 18 + m, 0xf100_00bf);
    FieldIs(setup, plan, tail, b, i, n, ops, 19 + m);
    TestResult();
    JumpForms(0x5400_0000);
  }

  lemma ExitReach(setup: seq<AOp>, plan: seq<Plan>, tail: Tail, b: seq<u32>, i: nat, n: nat, idx: u32,
                  blind1: Option<u64>, blind2: Option<u64>)
    requires SlotIs(setup, plan, tail, b, i, n, HelperCall(LoadIndex(idx, blind1), LoadIndex(idx, blind2), true))
    ensures var w, at := Planned(Start(), setup, plan, tail), n + 19 + |LoadIndex(idx, blind1)| + |LoadIndex(idx, blind2)|;
      && at < |w.words| <= |b|
      && (-0x10_0000 <= w.tables.exitLoc - 4 * at < 0x10_0000 ==> Reads(w, b, JumpKind, 4 * at) == w.tables.exitLoc)
  {
    hide Compiled, UpToOp, Planned, Reads, LoadIndex;
    HelperCallLands(Start(), setup, plan, tail, b, i, idx, blind1, blind2, true);
  }

  /** The run ends at `to` with the helper's result in R0's register and LR and SP as in front of the call. */
  ghost predicate Resumes(s: Core, end: Option<Core>, to: int)
  {
    && s.regs[SP] + 16 < SPACE && end.Some? && end.value.pc == to && end.value.mem == s.mem
    && end.value.regs == s.regs[5 := s.regs[0]][LR := DWord(s.mem, s.regs[SP])][SP := s.regs[SP] + 16]
  }

  /**
    Back from the helper: its result is in R0's register, LR and SP are as in front of the call, and the program goes on
    behind it or, when the unwinding helper returned zero and the exit is within reach, at the exit.
    */
  lemma HelperReturns(env: Env, code: nat -> seq<AOp>, blind: nat -> (Option<u64>, Option<u64>), setup: seq<AOp>, tail: Tail,
                      b: seq<u32>, i: nat, o: nat, s: Core)
    requires CompiledProgram(env, code, blind, setup, tail, b) && i < |env.prog| <= 65535 && JitProgram.IsHelperCall(env.prog[i])
    requires var idx := ToU32(env.prog[i].imm);
      s.pc == o + 4 * (SlotAt(env, code, blind, setup, i) + 15 + |LoadIndex(idx, blind(i).0)| + |LoadIndex(idx, blind(i).1)|)
    requires s.regs[SP] + 16 < SPACE
    requires env.prog[i].imm == env.unwind ==>
               -0x10_0000 <= o + CodeOf(env, code, blind, setup, tail).tables.exitLoc - (s.pc + 16) < 0x10_0000
    ensures var unwinds := env.prog[i].imm == env.unwind;
      Resumes(s, Run(b, o, s, if unwinds then 5 else 3),
              o + if unwinds && s.regs[0] == 0 then CodeOf(env, code, blind, setup, tail).tables.exitLoc
                  else 4 * SlotStart(env, code, blind, setup, i + 1))
  {
    hide CompiledProgram, SlotAt, SlotIs, Decodes, Run, HelperCall, LoadIndex, PlanOf, Planned, DWord, SlotStart;
    var n, idx, plan, unwinds := SlotAt(env, code, blind, setup, i), ToU32(env.prog[i].imm), PlanOf(env, code, blind), env.prog[i].imm == env.unwind;
    var load1, load2 := LoadIndex(idx, blind(i).0), LoadIndex(idx, blind(i).1);
    var m := |load1| + |load2|;
    SlotOfProgram(env, code, blind, setup, tail, b, i);
    MeetCompiles(setup, plan, tail, b, i, n, idx, blind(i).0, blind(i).1, unwinds);
    BackRuns(b, o, s, n + 13 + m);
    SlotEnds(env, code, blind, setup, i);
    assert |OpsOf(env, code, blind, i)| == 18 + m + if unwinds then 2 else 0;
    if unwinds {
      TestCompiles(setup, plan, tail, b, i, n, idx, blind(i).0, blind(i).1);
      TestRuns(b, o, Run(b, o, s, 3).value, n + 18 + m, Planned(Start(), setup, plan, tail).tables.exitLoc - 4 * (n + 19 + m));
      RunRuns(b, o, s, 3, 2);
    }
  }
}
