/**
  Which programs the validator accepts, in both directions and slot by slot: the filter table, integer targets, whole
  LDDW pairs and closed intervals between call targets, without the order in which the validator looks at them.
  */
module Acceptance {
  import opened Words
  import opened Isa
  import opened Semantics
  import opened SubPrograms
  import opened Validator
  import F = InstructionFilter
  import L = InstructionLaws
  import M = Machine
  import Legacy

  /** The instruction's row of the filter table lets its fields through. */
  predicate Filtered(inst: Inst)
  {
    var row := F.Find(F.Table(F.GROUPS), inst.opcode);
    row.Some? && F.Passes(row.value.limits, inst)
  }

  lemma FilteredIs(inst: Inst)
    ensures Filtered(inst) <==> FieldsOk(inst) || F.SecondSlot(inst)
  {
    hide FieldsOk, F.LimitsOf, F.Passes, F.GroupOf, F.SecondSlot, F.Table, F.Find;
    F.WholeTable(inst.opcode);
    F.LimitsAreFieldChecks(inst);
  }

  predicate JumpByte(o: u8) { o in {0x05, 0x06} || L.IsConditional(o) }

  /** Where a taken jump goes, as an integer. */
  function Destination(inst: Inst, i: nat): int { i + 1 + if inst.opcode == 0x06 then inst.imm else inst.offset }

  /** One slot of an acceptable program. */
  predicate GoodSlot(callable: int -> bool, usage: u16 -> u16, prog: seq<Inst>, i: nat)
    requires i < |prog| <= 65535
  {
    var inst := prog[i];
    var o := inst.opcode;
    if o == 0 then i > 0 && prog[i - 1].opcode == 0x18 && inst.dst == 0 && inst.src == 0 && inst.offset == 0
    else
      && Filtered(inst)
      && (inst.dst == 10 ==> o % 8 in {2, 3})
      && (o == 0x18 ==> inst.src == 0 && i + 1 < |prog| && prog[i + 1].opcode == 0)
      && (JumpByte(o) ==> Destination(inst, i) != i && 0 <= Destination(inst, i) < |prog| && prog[Destination(inst, i)].opcode != 0)
      && (o == 0x85 && inst.src == 0 ==> inst.imm >= 0 && callable(inst.imm))
      && (o == 0x85 && inst.src == 1 ==> 0 <= i + 1 + inst.imm < |prog| && usage(i + 1 + inst.imm) % 16 == 0)
      && (o in {0xd4, 0xdc, 0xd7} ==> inst.imm in {16, 32, 64})
      && (o in {0xc3, 0xdb} ==> L.KnownAtomic(inst.imm) && (inst.imm / 16 % 16 >= 14 ==> inst.imm % 2 == 1))
  }

  // ---------------------------------------------------------------- bytes and operations

  lemma ControlBytes(o: u8)
    ensures var op := Decode(o);
      && (op.Call? <==> o == 0x85) && (op.Exit? <==> o == 0x95) && (op.Lddw? <==> o == 0x18)
      && (op.Ja? <==> o == 0x05) && (op.Ja32? <==> o == 0x06)
  {
    hide Decode;
    ControlDecodes();
    if !Decode(o).Unknown? {
      DecodeEncode(o);
    }
  }

  lemma ControlDecodes()
    ensures Decode(0x85).Call? && Decode(0x95).Exit? && Decode(0x18).Lddw? && Decode(0x05).Ja? && Decode(0x06).Ja32?
  {
  }

  lemma ArithmeticBytes()
    ensures Decode(0x84) == Alu(false, OpNeg, false) && Decode(0x87) == Alu(true, OpNeg, false)
    ensures Decode(0xb7) == Alu(true, OpMov, false) && Decode(0xbf) == Alu(true, OpMov, true)
  {
  }

  lemma AtomicBytes(o: u8)
    ensures Decode(o).Atomic? <==> o in {0xc3, 0xdb}
  {
  }

  lemma ConversionBytes(o: u8)
    ensures Decode(o).End? <==> o in {0xd4, 0xdc, 0xd7}
  {
  }

  lemma OtherBytes(o: u8)
    ensures var op := Decode(o);
      && (op.End? <==> o in {0xd4, 0xdc, 0xd7}) && (op.Atomic? <==> o in {0xc3, 0xdb})
      && (op.Alu? && op.alu == OpNeg <==> o in {0x84, 0x87}) && (op.Alu? && op.alu == OpMov && op.wide <==> o in {0xb7, 0xbf})
  {
    hide Decode, Encode;
    ArithmeticBytes();
    AtomicBytes(o);
    ConversionBytes(o);
    F.NegHasNoRegister(o);
    if Decode(o).Alu? {
      DecodeEncode(o);
      AluByte(o);
    }
  }

  lemma AluByte(o: u8)
    requires Decode(o).Alu? && Encode(Decode(o)) == o
    ensures var op := Decode(o); o == (if op.wide then 7 else 4) + (if op.fromReg then 8 else 0) + 16 * AluCode(op.alu)
  {
    hide Decode;
  }

  lemma JumpBytes(o: u8)
    ensures Decode(o).Jcc? <==> L.IsConditional(o)
  {
    OpcodeFields(o);
  }

  lemma StoreBytes(o: u8)
    ensures var op := Decode(o); op.St? || op.Stx? || op.Atomic? <==> o % 8 in {2, 3} && !op.Unknown?
  {
  }

  // ---------------------------------------------------------------- one slot

  lemma DestinationIs(prog: seq<Inst>, i: nat)
    requires i < |prog| && JumpByte(prog[i].opcode)
    ensures var inst := prog[i];
      JumpOk(prog, i, if inst.opcode == 0x06 then inst.imm else inst.offset) <==>
      Destination(inst, i) != i && 0 <= Destination(inst, i) < |prog| && prog[Destination(inst, i)].opcode != 0
  {
  }

  lemma RegistersIn(inst: Inst)
    requires FieldsOk(inst)
    ensures inst.src <= 10 && inst.dst <= 10
    ensures var op := Decode(inst.opcode); op.Alu? || op.End? || op.Call? || op.Exit? || op.Ja? || op.Ja32? ==> inst.dst <= 9
    ensures Decode(inst.opcode).Call? ==> inst.src <= 1
    ensures Decode(inst.opcode).Alu? && Decode(inst.opcode).alu == OpNeg ==> inst.src == 0
  {
    F.NegHasNoRegister(inst.opcode);
    hide Decode;
  }

  lemma NotSecond(inst: Inst)
    requires inst.opcode != 0
    ensures Filtered(inst) <==> FieldsOk(inst)
    ensures FieldsOk(inst) ==> !Decode(inst.opcode).Unknown?
  {
    hide Decode, Filtered;
    FilteredIs(inst);
  }

  /** What the validator checks of an instruction is what makes its slot, and for an LDDW the next one, good. */
  lemma SlotExact(callable: int -> bool, usage: u16 -> u16, prog: seq<Inst>, i: nat)
    requires i < |prog| <= 65535 && prog[i].opcode != 0
    ensures InstOk(callable, usage, prog, i) <==>
            GoodSlot(callable, usage, prog, i) && (prog[i].opcode == 0x18 ==> GoodSlot(callable, usage, prog, i + 1))
  {
    hide Decode, FieldsOk, Filtered, JumpOk, L.IsConditional, L.KnownAtomic, AtomicKnown, AtomicCode, AtomicFetch, Destination;
    var inst := prog[i];
    ControlBytes(inst.opcode);
    OtherBytes(inst.opcode);
    JumpBytes(inst.opcode);
    StoreBytes(inst.opcode);
    NotSecond(inst);
    if FieldsOk(inst) { RegistersIn(inst); }
    if JumpByte(inst.opcode) { DestinationIs(prog, i); }
    AtomicsIs(inst.imm);
  }

  lemma AtomicsIs(imm: i32)
    ensures AtomicKnown(AtomicCode(imm)) <==> L.KnownAtomic(imm)
    ensures AtomicCode(imm) == imm / 16 % 16 && (AtomicFetch(imm) <==> imm % 2 == 1)
  {
  }

  // ---------------------------------------------------------------- the walk

  ghost predicate AllGood(callable: int -> bool, usage: u16 -> u16, prog: seq<Inst>)
    requires |prog| <= 65535
  {
    forall i :: 0 <= i < |prog| ==> GoodSlot(callable, usage, prog, i)
  }

  /** The walk passes if every slot is good; it never stops at the second half of an LDDW. */
  lemma {:induction false} GoodWalks(callable: int -> bool, usage: u16 -> u16, prog: seq<Inst>, i: nat)
    requires |prog| <= 65535 && AllGood(callable, usage, prog) && (0 < i <= |prog| ==> prog[i - 1].opcode != 0x18)
    ensures Walk(callable, usage, prog, i)
    decreases |prog| - i
  {
    hide InstOk;
    if i < |prog| {
      assert GoodSlot(callable, usage, prog, i);
      assert prog[i].opcode == 0x18 ==> GoodSlot(callable, usage, prog, i + 1);
      hide Filtered, L.IsConditional, L.KnownAtomic, Decode;
      ControlBytes(prog[i].opcode);
      SlotExact(callable, usage, prog, i);
      GoodWalks(callable, usage, prog, i + Width(prog[i]));
    }
  }

  lemma WalkIsGood(callable: int -> bool, usage: u16 -> u16, prog: seq<Inst>, i: nat)
    requires i < |prog| <= 65535 && Walk(callable, usage, prog, 0)
    ensures GoodSlot(callable, usage, prog, i)
  {
    hide InstOk, Walk, GoodSlot, Decode;
    FirstSlots(callable, usage, prog, 0, i);
    if prog[i].opcode != 0 {
      SlotExact(callable, usage, prog, i);
    } else {
      ControlBytes(prog[i - 1].opcode);
      FirstSlots(callable, usage, prog, 0, i - 1);
      SlotExact(callable, usage, prog, i - 1);
    }
  }

  // ---------------------------------------------------------------- sub-programs

  /** Slot `x` starts a sub-program: it is the first slot or the target of a local call. */
  ghost predicate Begins(prog: seq<Inst>, x: int)
  {
    x == 0 || exists k :: 0 <= k < |prog| && prog[k].opcode == 0x85 && prog[k].src == 1 && k + 1 + prog[k].imm == x
  }

  /** From one start to the next, or to the end of the program. */
  ghost predicate SubProgram(prog: seq<Inst>, first: int, end: int)
  {
    && 0 <= first < end <= |prog| && Begins(prog, first) && (end == |prog| || Begins(prog, end))
    && forall x :: first < x < end ==> !Begins(prog, x)
  }

  /** Jumps stay inside, and the last slot is an EXIT or the one before it an unconditional jump. */
  predicate Closes(prog: seq<Inst>, first: int, end: int)
  {
    && 0 <= first < end <= |prog|
    && (forall j :: first <= j < end && IsJump(prog[j]) ==> first <= Destination(prog[j], j) < end)
    && (prog[end - 1].opcode == 0x95 || (end - first >= 2 && prog[end - 2].opcode in {0x05, 0x06}))
  }

  /** A program without local calls, or one whose sub-programs all close. */
  ghost predicate Separate(prog: seq<Inst>)
  {
    || (forall k :: 0 <= k < |prog| ==> !(prog[k].opcode == 0x85 && prog[k].src == 1))
    || (forall first, end :: SubProgram(prog, first, end) ==> Closes(prog, first, end))
  }

  lemma BeginsIs(prog: seq<Inst>, x: int)
    ensures Begins(prog, x) <==> x in Starts(prog)
  {
    if x != 0 && x in Starts(prog) {
      var k := TargetOf(prog, |prog|, x);
      assert prog[k].opcode == 0x85 && prog[k].src == 1 && k + 1 + prog[k].imm == x;
    }
    if x != 0 && Begins(prog, x) {
      var k :| 0 <= k < |prog| && prog[k].opcode == 0x85 && prog[k].src == 1 && k + 1 + prog[k].imm == x;
      TargetIn(prog, |prog|, k);
    }
  }

  lemma NoCalls(prog: seq<Inst>)
    ensures LocalTargets(prog) == {} <==> forall k :: 0 <= k < |prog| ==> !(prog[k].opcode == 0x85 && prog[k].src == 1)
  {
    if LocalTargets(prog) != {} {
      CallListMembers(prog, |prog|);
      var x := CallList(prog, |prog|)[0];
      var k := TargetOf(prog, |prog|, x);
      assert prog[k].opcode == 0x85 && prog[k].src == 1;
    }
    forall k | 0 <= k < |prog| && prog[k].opcode == 0x85 && prog[k].src == 1
      ensures LocalTargets(prog) != {}
    {
      TargetIn(prog, |prog|, k);
    }
  }

  lemma {:induction false} StartFound(starts: set<int>, j: nat)
    requires 0 in starts
    ensures StartOf(starts, j) in starts && forall x :: StartOf(starts, j) < x <= j ==> x !in starts
  {
    if j != 0 && j !in starts {
      StartFound(starts, j - 1);
    }
  }

  lemma {:induction false} EndFound(starts: set<int>, n: nat, j: nat)
    requires j < n
    ensures (EndOf(starts, n, j) == n || EndOf(starts, n, j) in starts) && forall x :: j < x < EndOf(starts, n, j) ==> x !in starts
    decreases n - j
  {
    if j + 1 != n && j + 1 !in starts {
      EndFound(starts, n, j + 1);
    }
  }

  /** Each slot lies in the sub-program its start and end delimit, and in no other. */
  lemma SlotIn(prog: seq<Inst>, j: nat)
    requires j < |prog|
    ensures var starts := Starts(prog);
      SubProgram(prog, StartOf(starts, j), EndOf(starts, |prog|, j))
    ensures forall first, end :: SubProgram(prog, first, end) && first <= j < end ==>
              first == StartOf(Starts(prog), j) && end == EndOf(Starts(prog), |prog|, j)
  {
    hide Begins, Starts, StartOf, EndOf;
    var starts, n := Starts(prog), |prog|;
    assert 0 in starts by { ZeroStarts(prog); }
    StartFound(starts, j);
    EndFound(starts, n, j);
    forall x { BeginsIs(prog, x); }
    var f, e := StartOf(starts, j), EndOf(starts, n, j);
    forall first, end | SubProgram(prog, first, end) && first <= j < end
      ensures first == f && end == e
    {
      assert f in starts && first in starts;
    }
  }

  lemma ZeroStarts(prog: seq<Inst>)
    ensures 0 in Starts(prog)
  {
  }

  lemma SeparateIs(prog: seq<Inst>)
    ensures SelfContained(prog) <==> Separate(prog)
  {
    hide SubProgram, LocalTargets, Starts;
    NoCalls(prog);
    if forall j :: 0 <= j < |prog| ==> SlotOk(prog, j) {
      forall first, end | SubProgram(prog, first, end)
        ensures Closes(prog, first, end)
      {
        ClosesFrom(prog, first, end);
      }
    }
    if forall first, end :: SubProgram(prog, first, end) ==> Closes(prog, first, end) {
      forall j | 0 <= j < |prog|
        ensures SlotOk(prog, j)
      {
        SlotIn(prog, j);
        var f, e := StartOf(Starts(prog), j), EndOf(Starts(prog), |prog|, j);
        assert SubProgram(prog, f, e);
      }
    }
  }

  lemma ClosesFrom(prog: seq<Inst>, first: int, end: int)
    requires SubProgram(prog, first, end) && forall j :: 0 <= j < |prog| ==> SlotOk(prog, j)
    ensures Closes(prog, first, end)
  {
    assert 0 <= first < end <= |prog|;
    hide SubProgram, Starts, StartOf, EndOf;
    forall j | first <= j < end
      ensures IsJump(prog[j]) ==> first <= Destination(prog[j], j) < end
    {
      SlotIn(prog, j);
      assert SlotOk(prog, j);
    }
    SlotIn(prog, first);
    assert SlotOk(prog, first);
  }

  // ---------------------------------------------------------------- the theorem

  /** The validator accepts exactly the programs of good slots whose sub-programs are separate. */
  lemma AcceptsExactly(callable: int -> bool, usage: u16 -> u16, prog: seq<Inst>)
    ensures Accepts(callable, usage, prog) <==>
            |prog| <= 65535 && usage(0) % 16 == 0 && AllGood(callable, usage, prog) && Separate(prog)
  {
    hide Walk, SelfContained, Separate, GoodSlot;
    SeparateIs(prog);
    if |prog| <= 65535 {
      if Walk(callable, usage, prog, 0) {
        forall i | 0 <= i < |prog|
          ensures GoodSlot(callable, usage, prog, i)
        {
          WalkIsGood(callable, usage, prog, i);
        }
      }
      if AllGood(callable, usage, prog) {
        GoodWalks(callable, usage, prog, 0);
      }
    }
  }

  // ---------------------------------------------------------------- a loop

  /** r0 = 0; r0 += 1; if r0 < 10 goto -2; exit. */
  const LOOP: seq<Inst> :=
    [Inst(0xb7, 0, 0, 0, 0), Inst(0x07, 0, 0, 0, 1), Inst(0xa5, 0, 0, -2, 10), Inst(0x95, 0, 0, 0, 0)]

  lemma LoopSlot(callable: int -> bool, usage: u16 -> u16, i: nat)
    requires i < 4
    ensures |LOOP| == 4 && GoodSlot(callable, usage, LOOP, i) && LOOP[i].opcode != 0x85
  {
    hide Decode, Filtered;
    LoopDecodes();
    FilteredIs(LOOP[i]);
  }

  lemma LoopDecodes()
    ensures Decode(0xb7) == Alu(true, OpMov, false) && Decode(0x07) == Alu(true, OpAdd, false)
    ensures Decode(0xa5) == Jcc(true, JLT, false) && Decode(0x95) == Exit
  {
  }

  /** A backward jump is accepted. */
  lemma LoopIsAccepted(callable: int -> bool, usage: u16 -> u16)
    requires usage(0) % 16 == 0
    ensures Accepts(callable, usage, LOOP)
  {
    hide Accepts, GoodSlot;
    forall i | 0 <= i < |LOOP|
      ensures GoodSlot(callable, usage, LOOP, i) && LOOP[i].opcode != 0x85
    {
      LoopSlot(callable, usage, i);
    }
    AcceptsExactly(callable, usage, LOOP);
  }

  ghost predicate InLoop(o: M.Outcome<M.State>, pc: int, k: int)
  {
    o.Next? && o.state.pc == pc && o.state.regs[0] == k && o.state.depth == 0
  }

  /** One turn: the sum is counted up and the jump taken until it is ten. */
  lemma LoopTurn(env: M.Env, s: M.State, k: nat)
    requires env.prog == LOOP && env.limit == 0 && k < 10 && s.regs[0] == k && s.depth == 0
    ensures s.pc == 1 ==> InLoop(Legacy.Step(env, s), 2, k + 1)
    ensures s.pc == 2 ==> InLoop(Legacy.Step(env, s), 1, k)
  {
    hide Decode;
    LoopDecodes();
  }

  lemma LoopEnds(env: M.Env, s: M.State)
    requires env.prog == LOOP && env.limit == 0 && s.regs[0] == 10 && s.depth == 0
    ensures s.pc == 2 ==> InLoop(Legacy.Step(env, s), 3, 10)
    ensures s.pc == 3 ==> Legacy.Step(env, s) == M.Done(10, s.mem)
  {
    hide Decode;
    LoopDecodes();
  }

  lemma LoopStarts(env: M.Env, s: M.State)
    requires env.prog == LOOP && env.limit == 0 && s.pc == 0 && s.depth == 0
    ensures InLoop(Legacy.Step(env, s), 1, 0)
  {
    hide Decode;
    LoopDecodes();
  }

  lemma {:induction false} LoopTurns(env: M.Env, regs: M.Regs, mem: Memory, k: nat)
    requires env.prog == LOOP && env.limit == 0 && k < 10
    ensures InLoop(Legacy.Run(env, M.Initial(env, regs, mem), 2 * k + 1), 1, k)
  {
    hide Legacy.Step;
    var s := M.Initial(env, regs, mem);
    if k == 0 {
      assert Legacy.Run(env, s, 0) == M.Next(s);
      LoopStarts(env, s);
    } else {
      LoopTurns(env, regs, mem, k - 1);
      var a := Legacy.Run(env, s, 2 * k - 1);
      LoopTurn(env, a.state, k - 1);
      var b := Legacy.Run(env, s, 2 * k);
      LoopTurn(env, b.state, k);
    }
  }

  /** Run from any registers and memory it goes round ten times and returns ten. */
  lemma LoopRuns(env: M.Env, regs: M.Regs, mem: Memory)
    requires env.prog == LOOP && env.limit == 0
    ensures var o := Legacy.Run(env, M.Initial(env, regs, mem), 22); o.Done? && o.value == 10
  {
    hide Legacy.Step;
    var s := M.Initial(env, regs, mem);
    LoopTurns(env, regs, mem, 9);
    var a, b, c := Legacy.Run(env, s, 19), Legacy.Run(env, s, 20), Legacy.Run(env, s, 21);
    LoopTurn(env, a.state, 9);
    assert b == Legacy.Step(env, a.state);
    LoopEnds(env, b.state);
    assert c == Legacy.Step(env, b.state);
    LoopEnds(env, c.state);
    assert Legacy.Run(env, s, 22) == Legacy.Step(env, c.state);
  }
}
