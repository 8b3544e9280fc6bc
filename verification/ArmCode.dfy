/**
  The words of a compiled ARM64 program, decoded and run: prologue, local call, exit and helper call. A local call whose
  callee keeps the stack resumes the caller with its registers; a helper gets the arguments of the eBPF call.
  */
module ArmCode {
  import opened Words
  import opened Isa
  import opened Machine
  import opened Semantics
  import opened SubPrograms
  import opened ControlFlow
  import opened Relocation
  import opened ArmBranches
  import opened ArmEmission
  import opened ArmLayout
  import opened ArmProgram
  import opened ArmWords
  import A = Arm64
  import ArmLowering

  const SPACE: int := 0x1_0000_0000_0000_0000

  // ---------------------------------------------------------------- stack words

  lemma WordStored(m: Memory, a: int, v: u64)
    requires 0 <= a && a + 8 <= SPACE
    ensures DWord(Store(m, a, v, 8), a) == v
  {
    Pow2Widths();
    hide Pow2, Load, Store;
    LoadStored(m, a, v, 8);
  }

  lemma WordOutside(m: Memory, a: int, v: u64, at: int)
    requires 0 <= a && a + 8 <= SPACE && 0 <= at && at + 8 <= SPACE && (at + 8 <= a || a + 8 <= at)
    ensures DWord(Store(m, a, v, 8), at) == DWord(m, at)
  {
    hide Load, Store;
    LoadOutsideStore(m, a, v, 8, at, 8);
  }

  /** Words stored one behind the other from `a` up. */
  function Frame(m: Memory, a: int, vs: seq<u64>): Memory
    requires 0 <= a
  {
    if vs == [] then m else Store(Frame(m, a, vs[..|vs| - 1]), a + 8 * (|vs| - 1), vs[|vs| - 1], 8)
  }

  /** The words from `a` up are these. */
  predicate Holds(m: Memory, a: int, vs: seq<u64>) { forall i :: 0 <= i < |vs| ==> DWord(m, a + 8 * i) == vs[i] }

  lemma {:induction false} FrameHolds(m: Memory, a: int, vs: seq<u64>)
    requires 0 <= a && a + 8 * |vs| <= SPACE
    ensures Holds(Frame(m, a, vs), a, vs)
    decreases |vs|
  {
    hide DWord, Store;
    if vs != [] {
      var k, most := |vs| - 1, vs[..|vs| - 1];
      FrameHolds(m, a, most);
      WordStored(Frame(m, a, most), a + 8 * k, vs[k]);
      forall i | 0 <= i < k
        ensures DWord(Frame(m, a, vs), a + 8 * i) == vs[i]
      {
        assert most[i] == vs[i];
        WordOutside(Frame(m, a, most), a + 8 * k, vs[k], a + 8 * i);
      }
    }
  }

  lemma {:induction false} FrameOutside(m: Memory, a: int, vs: seq<u64>, at: int)
    requires 0 <= a && a + 8 * |vs| <= SPACE && 0 <= at && at + 8 <= SPACE && (at + 8 <= a || a + 8 * |vs| <= at)
    ensures DWord(Frame(m, a, vs), at) == DWord(m, at)
    decreases |vs|
  {
    hide DWord, Store;
    if vs != [] {
      var k, most := |vs| - 1, vs[..|vs| - 1];
      FrameOutside(m, a, most, at);
      WordOutside(Frame(m, a, most), a + 8 * k, vs[k], at);
    }
  }

  // ---------------------------------------------------------------- decoded words

  const SAVE: seq<u32> := [0xf840_03f8, 0xcb18_02f7, 0xd100_c3ff, 0xf800_03fe, 0xf800_83f8, 0xa901_53f3, 0xa902_5bf5]
  const RESTORE: seq<u32> := [0xf840_03fe, 0xf840_83f8, 0xa941_53f3, 0xa942_5bf5, 0x9100_c3ff, 0x8b18_02f7]

  lemma UsageDecodes(usage: u16)
    ensures DecodeWord(0xd280_0018 + 32 * usage) == Some(Plain(A.MoveWide(true, A.MovZ, 24, 0, usage)))
  {
    MoveDecodes(A.MoveWide(true, A.MovZ, 24, 0, usage));
  }

  // ---------------------------------------------------------------- prologue and exit

  /** The prologue puts the usage in both words it reserves. */
  lemma PrologueRuns(b: seq<u32>, o: nat, s: Core, n: nat, usage: u16)
    requires n + 3 <= |b| && b[n..n + 3] == ArmPrologue(usage) && s.pc == o + 4 * n && s.regs[SP] >= 16
    ensures var a := s.regs[SP] - 16;
      Run(b, o, s, 3) == Some(Core(o + 4 * (n + 3), s.regs[24 := usage][SP := a], s.flags, Frame(s.mem, a, [usage, usage])))
  {
    hide DecodeWord, Run, Store;
    PrologueWords(usage);
    hide ArmPrologue;
    assert b[n] == b[n..n + 3][0] && b[n + 1] == b[n..n + 3][1] && b[n + 2] == b[n..n + 3][2];
    ReserveTwo();
    StoreTwice();
    UsageDecodes(usage);
    var a := s.regs[SP] - 16;
    var s1 := s.(pc := o + 4 * (n + 1), regs := s.regs[24 := usage]);
    var s2 := s.(pc := o + 4 * (n + 2), regs := s.regs[24 := usage][SP := a]);
    RunNone(b, o, s);
    RunNext(b, o, s, 0, s, n, Plain(A.MoveWide(true, A.MovZ, 24, 0, usage)));
    RunNext(b, o, s, 1, s1, n + 1, AddImm(SP, SP, -16));
    RunNext(b, o, s, 2, s2, n + 2, StorePair(24, 24, SP, 0));
    FrameTwo(s.mem, a, usage, usage);
  }

  lemma FrameTwo(m: Memory, a: int, x: u64, y: u64)
    requires 0 <= a
    ensures Frame(m, a, [x, y]) == Store(Store(m, a, x, 8), a + 8, y, 8)
  {
    hide Store;
    assert [x, y][..1] == [x] && [x][..0] == [];
    assert Frame(m, a, [x]) == Store(m, a, x, 8);
  }

  /** EXIT drops those two words and returns. */
  lemma ExitRuns(b: seq<u32>, o: nat, s: Core, n: nat)
    requires n + 2 <= |b| && b[n] == 0x9100_43ff && b[n + 1] == 0xd65f_03c0 && s.pc == o + 4 * n && s.regs[SP] + 16 < SPACE
    ensures Run(b, o, s, 2) == Some(s.(pc := s.regs[LR], regs := s.regs[SP := s.regs[SP] + 16]))
  {
    hide DecodeWord, Run;
    ReleaseTwo();
    ReturnToLr();
    var s1 := s.(pc := o + 4 * (n + 1), regs := s.regs[SP := s.regs[SP] + 16]);
    RunNone(b, o, s);
    RunNext(b, o, s, 0, s, n, AddImm(SP, SP, 16));
    RunNext(b, o, s, 1, s1, n + 1, Return(LR));
  }

  // ---------------------------------------------------------------- local calls

  /** The words of a local call at `n`, and the branch between them. */
  ghost predicate CallWords(b: seq<u32>, n: nat, rel: int)
  {
    && n + 14 <= |b| && b[n..n + 7] == SAVE && b[n + 8..n + 14] == RESTORE && DecodeWord(b[n + 7]) == Some(Branch(true, rel))
  }

  lemma CallWordsAre(b: seq<u32>, n: nat, rel: int)
    requires CallWords(b, n, rel)
    ensures n + 14 <= |b|
    ensures forall i :: 0 <= i < 7 ==> b[n + i] == SAVE[i]
    ensures forall i :: 0 <= i < 6 ==> b[n + 8 + i] == RESTORE[i]
  {
    hide DecodeWord;
    forall i | 0 <= i < 7 ensures b[n + i] == SAVE[i] { assert b[n + i] == b[n..n + 7][i]; }
    forall i | 0 <= i < 6 ensures b[n + 8 + i] == RESTORE[i] { assert b[n + 8 + i] == b[n + 8..n + 14][i]; }
  }

  /** The usage on top of the stack comes off R10, and the stack grows by six words. */
  function Reserved(r: A.ARegs, u: u64): A.ARegs
    requires r[SP] >= 48
  {
    r[24 := u][23 := ToU64(r[23] as int - u)][SP := r[SP] - 48]
  }

  /** The saved words come back, the stack shrinks, and R10 gets the usage back. */
  function Reloaded(r: A.ARegs, v: seq<u64>): A.ARegs
    requires |v| == 6 && r[SP] + 48 < SPACE
  {
    r[LR := v[0]][24 := v[1]][19 := v[2]][20 := v[3]][21 := v[4]][22 := v[5]][SP := r[SP] + 48][23 := ToU64(r[23] as int + v[1])]
  }

  lemma ReserveRuns(b: seq<u32>, o: nat, s: Core, n: nat, rel: int)
    requires CallWords(b, n, rel) && s.pc == o + 4 * n && s.regs[SP] >= 48
    ensures Run(b, o, s, 3) == Some(s.(pc := o + 4 * (n + 3), regs := Reserved(s.regs, DWord(s.mem, s.regs[SP]))))
  {
    hide DecodeWord, Run, DWord, CallWords;
    CallWordsAre(b, n, rel);
    LoadTop();
    LowerR10();
    ReserveSix();
    assert b[n] == b[n + 0] && SAVE[0] == 0xf840_03f8 && SAVE[1] == 0xcb18_02f7 && SAVE[2] == 0xd100_c3ff;
    var sp, u := s.regs[SP], DWord(s.mem, s.regs[SP]);
    var s1 := s.(pc := o + 4 * (n + 1), regs := s.regs[24 := u]);
    var s2 := s1.(pc := o + 4 * (n + 2), regs := s1.regs[23 := ToU64(s.regs[23] as int - u)]);
    assert Do(LoadReg(24, SP, 0), s) == s1;
    DoAddSub(true, 23, 23, 24, s1);
    DoMoveSp(-48, s2);
    hide Do;
    RunNone(b, o, s);
    RunNext(b, o, s, 0, s, n, LoadReg(24, SP, 0));
    RunNext(b, o, s, 1, s1, n + 1, Plain(A.Op3(true, A.ASub, 23, 23, 24)));
    RunNext(b, o, s, 2, s2, n + 2, AddImm(SP, SP, -48));
  }

  /** What a local call saves, from SP up: return address, usage, and R6 to R9. */
  function Kept(r: A.ARegs, u: u64): seq<u64> { [r[LR], u, r[19], r[20], r[21], r[22]] }

  lemma SaveRuns(b: seq<u32>, o: nat, s: Core, n: nat, rel: int)
    requires CallWords(b, n, rel) && s.pc == o + 4 * (n + 3) && s.regs[SP] + 48 <= SPACE
    ensures Run(b, o, s, 4) == Some(s.(pc := o + 4 * (n + 7), mem := Frame(s.mem, s.regs[SP], Kept(s.regs, s.regs[24]))))
  {
    hide Run, CallWords, Store, DecodeWord;
    SaveTwoRuns(b, o, s, n, rel);
    SaveFourRuns(b, o, Run(b, o, s, 2).value, n, rel);
    RunRuns(b, o, s, 2, 2);
    FrameSix(s.mem, s.regs[SP], Kept(s.regs, s.regs[24]));
  }

  lemma SaveTwoRuns(b: seq<u32>, o: nat, s: Core, n: nat, rel: int)
    requires CallWords(b, n, rel) && s.pc == o + 4 * (n + 3) && s.regs[SP] + 48 <= SPACE
    ensures var a: int := s.regs[SP];
      Run(b, o, s, 2) == Some(s.(pc := o + 4 * (n + 5), mem := Store(Store(s.mem, a, s.regs[LR], 8), a + 8, s.regs[24], 8)))
  {
    hide DecodeWord, Run, CallWords, Store;
    CallWordsAre(b, n, rel);
    StoreLr();
    StoreUsage();
    hide Do;
    assert SAVE[3] == 0xf800_03fe && SAVE[4] == 0xf800_83f8;
    var s1 := s.(pc := o + 4 * (n + 4), mem := Store(s.mem, s.regs[SP], s.regs[LR], 8));
    DoStores(LR, LR, SP, 0, s);
    DoStores(24, 24, SP, 8, s1);
    RunNone(b, o, s);
    RunNext(b, o, s, 0, s, n + 3, StoreReg(LR, SP, 0));
    RunNext(b, o, s, 1, s1, n + 4, StoreReg(24, SP, 8));
  }

  lemma SaveFourRuns(b: seq<u32>, o: nat, s: Core, n: nat, rel: int)
    requires CallWords(b, n, rel) && s.pc == o + 4 * (n + 5) && s.regs[SP] + 48 <= SPACE
    ensures var a: int, r := s.regs[SP], s.regs; var m := Store(Store(s.mem, a + 16, r[19], 8), a + 24, r[20], 8);
      Run(b, o, s, 2) == Some(s.(pc := o + 4 * (n + 7), mem := Store(Store(m, a + 32, r[21], 8), a + 40, r[22], 8)))
  {
    hide DecodeWord, Run, CallWords, Store;
    CallWordsAre(b, n, rel);
    StoreR6R7();
    StoreR8R9();
    hide Do;
    assert SAVE[5] == 0xa901_53f3 && SAVE[6] == 0xa902_5bf5;
    var a: int, r := s.regs[SP], s.regs;
    var s1 := s.(pc := o + 4 * (n + 6), mem := Store(Store(s.mem, a + 16, r[19], 8), a + 24, r[20], 8));
    DoStores(19, 20, SP, 16, s);
    DoStores(21, 22, SP, 32, s1);
    RunNone(b, o, s);
    RunNext(b, o, s, 0, s, n + 5, StorePair(19, 20, SP, 16));
    RunNext(b, o, s, 1, s1, n + 6, StorePair(21, 22, SP, 32));
  }

  lemma FrameSix(m: Memory, a: int, v: seq<u64>)
    requires 0 <= a && |v| == 6
    ensures Frame(m, a, v) ==
            Store(Store(Store(Store(Store(Store(m, a, v[0], 8), a + 8, v[1], 8), a + 16, v[2], 8), a + 24, v[3], 8), a + 32, v[4], 8), a + 40, v[5], 8)
  {
    hide Store;
    assert v[..5][..4] == v[..4] && v[..4][..3] == v[..3] && v[..3][..2] == v[..2] && v[..2][..1] == v[..1] && v[..1][..0] == [];
    assert Frame(m, a, v[..1]) == Store(m, a, v[0], 8);
    assert Frame(m, a, v[..2]) == Store(Frame(m, a, v[..1]), a + 8, v[1], 8);
    assert Frame(m, a, v[..3]) == Store(Frame(m, a, v[..2]), a + 16, v[2], 8);
    assert Frame(m, a, v[..4]) == Store(Frame(m, a, v[..3]), a + 24, v[3], 8);
    assert Frame(m, a, v[..5]) == Store(Frame(m, a, v[..4]), a + 32, v[4], 8);
  }

  /** From the first word of a local call to its callee. */
  lemma EnterRuns(b: seq<u32>, o: nat, s: Core, n: nat, rel: int)
    requires CallWords(b, n, rel) && s.pc == o + 4 * n && s.regs[SP] >= 48 && o + 4 * |b| <= SPACE
    ensures var sp, u := s.regs[SP], DWord(s.mem, s.regs[SP]);
      Run(b, o, s, 8) == Some(Core(o + 4 * (n + 7) + rel, Reserved(s.regs, u)[LR := o + 4 * (n + 8)], s.flags,
                                   Frame(s.mem, sp - 48, Kept(s.regs, u))))
  {
    hide Run, DWord, Frame, DecodeWord;
    ReserveRuns(b, o, s, n, rel);
    var s1 := Run(b, o, s, 3).value;
    SaveRuns(b, o, s1, n, rel);
    RunRuns(b, o, s, 3, 4);
    assert Kept(s1.regs, s1.regs[24]) == Kept(s.regs, DWord(s.mem, s.regs[SP]));
    RunNext(b, o, s, 7, Run(b, o, s, 7).value, n + 7, Branch(true, rel));
  }

  /** Behind the call, with those words still on the stack. */
  lemma LeaveRuns(b: seq<u32>, o: nat, s: Core, n: nat, rel: int, v: seq<u64>)
    requires CallWords(b, n, rel) && s.pc == o + 4 * (n + 8) && s.regs[SP] + 48 < SPACE && |v| == 6 && Holds(s.mem, s.regs[SP], v)
    ensures Run(b, o, s, 6) == Some(s.(pc := o + 4 * (n + 14), regs := Reloaded(s.regs, v)))
  {
    hide Run, DWord, CallWords, DecodeWord;
    ReloadRuns(b, o, s, n, rel, v);
    var s1 := Run(b, o, s, 3).value;
    ReleaseRuns(b, o, s1, n, rel, v);
    RunRuns(b, o, s, 3, 3);
  }

  lemma ReloadRuns(b: seq<u32>, o: nat, s: Core, n: nat, rel: int, v: seq<u64>)
    requires CallWords(b, n, rel) && s.pc == o + 4 * (n + 8) && |v| == 6 && Holds(s.mem, s.regs[SP], v)
    ensures Run(b, o, s, 3) ==
            Some(s.(pc := o + 4 * (n + 11), regs := s.regs[LR := v[0]][24 := v[1]][19 := v[2]][20 := v[3]]))
  {
    hide DecodeWord, Run, DWord, CallWords;
    CallWordsAre(b, n, rel);
    LoadLr();
    LoadUsage();
    LoadR6R7();
    var a: int := s.regs[SP];
    assert b[n + 8] == b[n + 8 + 0] && RESTORE[0] == 0xf840_03fe && RESTORE[1] == 0xf840_83f8 && RESTORE[2] == 0xa941_53f3;
    assert DWord(s.mem, a + 8 * 0) == v[0] && DWord(s.mem, a + 8 * 1) == v[1];
    assert DWord(s.mem, a + 8 * 2) == v[2] && DWord(s.mem, a + 8 * 3) == v[3];
    var s1 := s.(pc := o + 4 * (n + 9), regs := s.regs[LR := v[0]]);
    var s2 := s1.(pc := o + 4 * (n + 10), regs := s1.regs[24 := v[1]]);
    RunNone(b, o, s);
    RunNext(b, o, s, 0, s, n + 8, LoadReg(LR, SP, 0));
    RunNext(b, o, s, 1, s1, n + 9, LoadReg(24, SP, 8));
    RunNext(b, o, s, 2, s2, n + 10, LoadPair(19, 20, SP, 16));
  }

  lemma ReleaseRuns(b: seq<u32>, o: nat, s: Core, n: nat, rel: int, v: seq<u64>)
    requires CallWords(b, n, rel) && s.pc == o + 4 * (n + 11) && s.regs[SP] + 48 < SPACE && |v| == 6 && Holds(s.mem, s.regs[SP], v)
    ensures Run(b, o, s, 3) ==
            Some(s.(pc := o + 4 * (n + 14), regs := s.regs[21 := v[4]][22 := v[5]][SP := s.regs[SP] + 48][23 := ToU64(s.regs[23] as int + s.regs[24])]))
  {
    hide DecodeWord, Run, DWord, CallWords;
    CallWordsAre(b, n, rel);
    LoadR8R9();
    ReleaseSix();
    RaiseR10();
    var a: int := s.regs[SP];
    assert RESTORE[3] == 0xa942_5bf5 && RESTORE[4] == 0x9100_c3ff && RESTORE[5] == 0x8b18_02f7;
    assert DWord(s.mem, a + 8 * 4) == v[4] && DWord(s.mem, a + 8 * 5) == v[5];
    var s1 := s.(pc := o + 4 * (n + 12), regs := s.regs[21 := v[4]][22 := v[5]]);
    var s2 := s.(pc := o + 4 * (n + 13), regs := s1.regs[SP := a + 48]);
    assert Do(LoadPair(21, 22, SP, 32), s) == s1;
    DoMoveSp(48, s1);
    DoAddSub(false, 23, 23, 24, s2);
    hide Do;
    RunNone(b, o, s);
    RunNext(b, o, s, 0, s, n + 11, LoadPair(21, 22, SP, 32));
    RunNext(b, o, s, 1, s1, n + 12, AddImm(SP, SP, 48));
    RunNext(b, o, s, 2, s2, n + 13, Plain(A.Op3(true, A.AAdd, 23, 23, 24)));
  }

  // ---------------------------------------------------------------- compiled programs

  /** The instruction at a field, `k` words into a slot's own code, refers to what the field reads as. */
  lemma FieldDecoded(c: Code, setup: seq<AOp>, plan: seq<Plan>, tail: Tail, b: seq<u32>, i: nat, k: nat)
    requires Compiled(c, setup, plan, tail, b)
    requires i < |plan| && plan[i].Slot? && k < |plan[i].ops| && plan[i].ops[k].Field?
    requires var w, at, op := Planned(c, setup, plan, tail), |UpToOp(c, setup, plan, i, 0).words| + k, plan[i].ops[k];
      op.kind.LeaKind? ==> op.to == ToPlace(ToHelperTable) && InRange(Conditional, w.tables.helperLoc - 4 * at)
    ensures var w, at, op := Planned(c, setup, plan, tail), |UpToOp(c, setup, plan, i, 0).words| + k, plan[i].ops[k];
      && at < |w.words| <= |b|
      && DecodeWord(b[at]) == Some(FieldInsn(op.kind, op.base, Reads(w, b, op.kind, 4 * at) - 4 * at))
  {
    hide Compiled, UpToOp, Planned, InRange, ReadForm, DecodeWord, FixedWord, BaseOk, FieldInsn, Displacement;
    OpLocated(c, setup, plan, i, k);
    EveryFieldReaches(c, setup, plan, tail, b, i, k);
    EveryFieldFixed(c, setup, plan, tail, b, i, k);
    var w, at, op := Planned(c, setup, plan, tail), |UpToOp(c, setup, plan, i, 0).words| + k, plan[i].ops[k];
    var rel := Destination(w, op.kind, ArmEmission.TargetOf(at, op.to)).value - 4 * at;
    FieldDecodes(op.kind, op.base, rel);
  }

  /** A run of words, each in place. */
  lemma WordsStay(c: Code, setup: seq<AOp>, plan: seq<Plan>, tail: Tail, b: seq<u32>, i: nat, k: nat, words: seq<u32>)
    requires Compiled(c, setup, plan, tail, b) && i < |plan| && plan[i].Slot? && k + |words| <= |plan[i].ops|
    requires forall j :: 0 <= j < |words| ==> plan[i].ops[k + j] == AOp.Word(words[j])
    ensures var at := |UpToOp(c, setup, plan, i, 0).words| + k; at + |words| <= |b| && b[at..at + |words|] == words
  {
    hide Compiled, UpToOp, Planned;
    SlotInside(c, setup, plan, tail, b, i);
    var at := |UpToOp(c, setup, plan, i, 0).words| + k;
    forall j | 0 <= j < |words|
      ensures b[at + j] == words[j]
    {
      assert plan[i].ops[k + j] == AOp.Word(words[j]);
      WordStays(c, setup, plan, tail, b, i, k + j);
    }
  }

  lemma CallOps(target: nat)
    ensures var ops := LocalCall(target);
      && |ops| == 14 && ops[7] == Field(CallKind, 0x9400_0000, ToSlot(target))
      && (forall j :: 0 <= j < |SAVE| ==> ops[0 + j] == AOp.Word(SAVE[j]))
      && (forall j :: 0 <= j < |RESTORE| ==> ops[8 + j] == AOp.Word(RESTORE[j]))
  {
  }

  /** A compiled local call is those words, its branch going to the prologue in front of the callee's own code. */
  lemma CallCompiles(env: Env, code: nat -> seq<AOp>, blind: nat -> (Option<u64>, Option<u64>),
                     setup: seq<AOp>, tail: Tail, b: seq<u32>, i: nat)
    requires CompiledProgram(env, code, blind, setup, tail, b) && CallsHitFirstSlots(env.prog) && IsLocalCall(env.prog, i)
    ensures 0 <= CallTarget(env.prog, i) < |env.prog|
    ensures var n, m := SlotAt(env, code, blind, setup, i), SlotAt(env, code, blind, setup, CallTarget(env.prog, i));
      && 3 <= m <= |b| && CallWords(b, n, 4 * (m - 3) - 4 * (n + 7))
  {
    hide Planned, UpToOp, Reads, Loaded, CallsHitFirstSlots, CodeOk, Compiled, DecodeWord, LocalCall;
    LocalCallsLand(env, code, blind, setup, tail, b, i);
    var plan, target := PlanOf(env, code, blind), CallTarget(env.prog, i);
    PlanSlot(env, code, blind, i);
    assert plan[i].ops == LocalCall(target);
    hide PlanOf;
    CallOps(target);
    WordsStay(Start(), setup, plan, tail, b, i, 0, SAVE);
    WordsStay(Start(), setup, plan, tail, b, i, 8, RESTORE);
    FieldDecoded(Start(), setup, plan, tail, b, i, 7);
  }

  /** Where the code of slot `i` begins, entry code included. */
  function SlotStart(env: Env, code: nat -> seq<AOp>, blind: nat -> (Option<u64>, Option<u64>), setup: seq<AOp>, i: nat): nat
  {
    if i <= |env.prog| <= 65535 then |UpTo(Start(), setup, PlanOf(env, code, blind), i).words| else 0
  }

  /** The code of slot `i` ends where that of the next begins. */
  lemma SlotEnds(env: Env, code: nat -> seq<AOp>, blind: nat -> (Option<u64>, Option<u64>), setup: seq<AOp>, i: nat)
    requires i < |env.prog| <= 65535 && env.prog[i].opcode != 0
    ensures SlotStart(env, code, blind, setup, i + 1) == SlotAt(env, code, blind, setup, i) + |OpsOf(env, code, blind, i)|
  {
    hide OpsOf, AfterOps, AfterStart;
    PlanSlot(env, code, blind, i);
    var plan := PlanOf(env, code, blind);
    hide PlanOf;
    OpLocated(Start(), setup, plan, i, |plan[i].ops|);
    assert plan[i].ops[..|plan[i].ops|] == plan[i].ops;
  }

  /** What a callee finds on the stack: its usage twice, then what the call saved. */
  ghost predicate Called(r: A.ARegs, m: Memory, usage: u16, m': Memory)
  {
    && r[SP] >= 64 && Holds(m', r[SP] - 64, [usage, usage]) && Holds(m', r[SP] - 48, Kept(r, DWord(m, r[SP])))
    && forall at :: 0 <= at && at + 8 <= SPACE && (at + 8 <= r[SP] - 64 || r[SP] <= at) ==> DWord(m', at) == DWord(m, at)
  }

  lemma CalledMemory(r: A.ARegs, m: Memory, usage: u16)
    requires r[SP] >= 64
    ensures Called(r, m, usage, Frame(Frame(m, r[SP] - 48, Kept(r, DWord(m, r[SP]))), r[SP] - 64, [usage, usage]))
  {
    hide Frame, DWord;
    var a: int, v := r[SP] - 64, Kept(r, DWord(m, r[SP]));
    var m1 := Frame(m, a + 16, v);
    var m2 := Frame(m1, a, [usage, usage]);
    FrameHolds(m, a + 16, v);
    FrameHolds(m1, a, [usage, usage]);
    forall i | 0 <= i < |v|
      ensures DWord(m2, a + 16 + 8 * i) == v[i]
    {
      FrameOutside(m1, a, [usage, usage], a + 16 + 8 * i);
    }
    forall at | 0 <= at && at + 8 <= SPACE && (at + 8 <= a || a + 64 <= at)
      ensures DWord(m2, at) == DWord(m, at)
    {
      FrameOutside(m, a + 16, v, at);
      FrameOutside(m1, a, [usage, usage], at);
    }
  }

  /**
    A local call of a compiled program, run to the first instruction of its callee: R10 is lowered by the caller's
    usage, LR is behind the call, the other registers are as they were, and the stack has eight words more.
    */
  lemma LocalCallEnters(env: Env, code: nat -> seq<AOp>, blind: nat -> (Option<u64>, Option<u64>),
                        setup: seq<AOp>, tail: Tail, b: seq<u32>, i: nat, o: nat, s: Core)
    requires CompiledProgram(env, code, blind, setup, tail, b) && CallsHitFirstSlots(env.prog) && IsLocalCall(env.prog, i)
    requires s.pc == o + 4 * SlotAt(env, code, blind, setup, i) && s.regs[SP] >= 64 && o + 4 * |b| <= SPACE
    ensures 0 <= CallTarget(env.prog, i) < |env.prog|
    ensures var u, target := DWord(s.mem, s.regs[SP]), CallTarget(env.prog, i);
      Run(b, o, s, 11).Some? && var t := Run(b, o, s, 11).value;
      && t.pc == o + 4 * SlotAt(env, code, blind, setup, target)
      && t.regs[23] == ToU64(s.regs[23] as int - u) && t.regs[LR] == o + 4 * (SlotAt(env, code, blind, setup, i) + 8)
      && t.regs[SP] == s.regs[SP] - 64 && (forall r: A.Reg :: r !in {23, 24, LR, SP} ==> t.regs[r] == s.regs[r])
      && Called(s.regs, s.mem, env.usage(target), t.mem)
  {
    hide CompiledProgram, CallsHitFirstSlots, SlotAt, Run, DWord, Frame, CallWords, ArmPrologue, Reads, Planned, PlanOf;
    LocalCallsLand(env, code, blind, setup, tail, b, i);
    CallCompiles(env, code, blind, setup, tail, b, i);
    var n, m := SlotAt(env, code, blind, setup, i), SlotAt(env, code, blind, setup, CallTarget(env.prog, i));
    var usage := env.usage(CallTarget(env.prog, i));
    EnterRuns(b, o, s, n, 4 * (m as int - 3) - 4 * (n + 7));
    PrologueRuns(b, o, Run(b, o, s, 8).value, m - 3, usage);
    RunRuns(b, o, s, 8, 3);
    CalledMemory(s.regs, s.mem, usage);
  }

  lemma ExitEmitted(env: Env, code: nat -> seq<AOp>, blind: nat -> (Option<u64>, Option<u64>),
                    setup: seq<AOp>, tail: Tail, b: seq<u32>, i: nat)
    requires CompiledProgram(env, code, blind, setup, tail, b) && i < |env.prog| && env.prog[i].opcode == 0x95
    ensures var n := SlotAt(env, code, blind, setup, i); n + 2 <= |b| && b[n] == 0x9100_43ff && b[n + 1] == 0xd65f_03c0
  {
    hide ControlFlow.Loaded, CodeOk, Compiled, UpToOp, Planned, OpsOf;
    PlanOfOk(env, code, blind);
    PlanSlot(env, code, blind, i);
    ExitOps(env, code, blind, i);
    var plan := PlanOf(env, code, blind);
    hide PlanOf;
    WordStays(Start(), setup, plan, tail, b, i, 0);
    WordStays(Start(), setup, plan, tail, b, i, 1);
  }

  lemma ExitOps(env: Env, code: nat -> seq<AOp>, blind: nat -> (Option<u64>, Option<u64>), i: nat)
    requires i < |env.prog| && env.prog[i].opcode == 0x95
    ensures OpsOf(env, code, blind, i) == [AOp.Word(0x9100_43ff), AOp.Word(0xd65f_03c0)]
  {
    hide HelperCall, LoadIndex;
  }

  /**
    The callee's EXIT, in slot `x`: if it left R10, LR and SP as at its first instruction and what the call saved in
    place, the caller goes on behind its call with R6 to R10, LR and SP as they were in front of it.
    */
  lemma LocalCallReturns(env: Env, code: nat -> seq<AOp>, blind: nat -> (Option<u64>, Option<u64>),
                         setup: seq<AOp>, tail: Tail, b: seq<u32>, i: nat, o: nat, s: Core, x: nat, f: Core)
    requires CompiledProgram(env, code, blind, setup, tail, b) && CallsHitFirstSlots(env.prog) && IsLocalCall(env.prog, i)
    requires o + 4 * |b| <= SPACE && s.regs[SP] >= 64
    requires x < |env.prog| && env.prog[x].opcode == 0x95 && f.pc == o + 4 * SlotAt(env, code, blind, setup, x)
    requires var u := DWord(s.mem, s.regs[SP]);
      && f.regs[23] == ToU64(s.regs[23] as int - u) && f.regs[LR] == o + 4 * (SlotAt(env, code, blind, setup, i) + 8)
      && f.regs[SP] == s.regs[SP] - 64 && Holds(f.mem, s.regs[SP] - 48, Kept(s.regs, u))
    ensures Run(b, o, f, 8).Some? && var t := Run(b, o, f, 8).value;
      && t.pc == o + 4 * SlotStart(env, code, blind, setup, i + 1) && t.mem == f.mem
      && (forall r: A.Reg :: r in {19, 20, 21, 22, 23, LR, SP} ==> t.regs[r] == s.regs[r])
      && (forall r: A.Reg :: r < 19 || 25 <= r < 30 ==> t.regs[r] == f.regs[r])
  {
    hide CompiledProgram, CallsHitFirstSlots, SlotAt, SlotStart, Run, DWord, CallWords;
    CallCompiles(env, code, blind, setup, tail, b, i);
    ExitEmitted(env, code, blind, setup, tail, b, x);
    CallEnds(env, code, blind, setup, tail, b, i);
    var n, m := SlotAt(env, code, blind, setup, i), SlotAt(env, code, blind, setup, CallTarget(env.prog, i));
    var u := DWord(s.mem, s.regs[SP]);
    ExitRuns(b, o, f, SlotAt(env, code, blind, setup, x));
    var f1 := Run(b, o, f, 2).value;
    LeaveRuns(b, o, f1, n, 4 * (m as int - 3) - 4 * (n + 7), Kept(s.regs, u));
    RunRuns(b, o, f, 2, 6);
    SubAdd(s.regs[23], u);
  }

  lemma SubAdd(x: u64, u: u64)
    ensures ToU64(ToU64(x as int - u) as int + u) == x
  {
  }

  lemma CallEnds(env: Env, code: nat -> seq<AOp>, blind: nat -> (Option<u64>, Option<u64>),
                 setup: seq<AOp>, tail: Tail, b: seq<u32>, i: nat)
    requires CompiledProgram(env, code, blind, setup, tail, b) && CallsHitFirstSlots(env.prog) && IsLocalCall(env.prog, i)
    ensures SlotStart(env, code, blind, setup, i + 1) == SlotAt(env, code, blind, setup, i) + 14
  {
    PlanOfOk(env, code, blind);
    hide ControlFlow.Loaded, CodeOk, Compiled, SlotStart, SlotAt;
    SlotEnds(env, code, blind, setup, i);
    CallOps(CallTarget(env.prog, i));
    hide LocalCall;
  }

  // ---------------------------------------------------------------- jumps

  /**
    The branch of a compiled jump: a conditional one tests the condition code chosen for its comparison, and it goes to
    the first word of its target's own code if that is within reach.
    */
  lemma JumpCompiles(env: Env, code: nat -> seq<AOp>, blind: nat -> (Option<u64>, Option<u64>),
                     setup: seq<AOp>, tail: Tail, b: seq<u32>, i: nat)
    requires CompiledProgram(env, code, blind, setup, tail, b)
    requires i < |env.prog| && env.prog[i].opcode != 0 && IsJump(env.prog[i])
    ensures 0 <= JumpTarget(env.prog, i) < |env.prog| <= 65535
    ensures var op, n, m := Decode(env.prog[i].opcode), SlotAt(env, code, blind, setup, i) + |code(i)|, SlotAt(env, code, blind, setup, JumpTarget(env.prog, i));
      && n < |b|
      && (op.Jcc? && -0x10_0000 <= 4 * m - 4 * n < 0x10_0000 ==>
            DecodeWord(b[n]) == Some(BranchIf(ArmLowering.ToCondition(op.cond), 4 * m - 4 * n)))
      && (!op.Jcc? ==> DecodeWord(b[n]) == Some(Branch(false, 4 * m - 4 * n)))
  {
    hide Planned, UpToOp, Reads, ControlFlow.Loaded, Compiled, DecodeWord, Decode, ArmLowering.ToCondition, ReadForm;
    JumpsLand(env, code, blind, setup, tail, b, i);
    var plan, target, k := PlanOf(env, code, blind), JumpTarget(env.prog, i), |code(i)|;
    PlanSlot(env, code, blind, i);
    assert OpsOk(code(i));
    hide PlanOf, CodeOk;
    JumpBaseOk(env.prog[i]);
    assert plan[i].ops[k] == Field(JumpKind, JumpBase(env.prog[i]), ToSlot(target));
    FieldDecoded(Start(), setup, plan, tail, b, i, k);
  }
}
