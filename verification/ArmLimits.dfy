/** How many entries a program records and how far its ARM64 code spreads: when the tables hold out and branches reach. */
module ArmLimits {
  import opened Words
  import opened Isa
  import opened Machine
  import opened SubPrograms
  import opened Validator
  import opened ControlFlow
  import opened Relocation
  import opened ArmBranches
  import opened ArmEmission
  import opened ArmLayout
  import opened ArmProgram
  import JitEmission

  // ---------------------------------------------------------------- counting entries

  predicate Records(op: AOp, kind: Kind) { op.Field? && op.kind == kind }

  /** Entries the first `k` operations add to a table. */
  function CountTo(ops: seq<AOp>, kind: Kind, k: nat): nat
    requires k <= |ops|
  {
    if k == 0 then 0 else CountTo(ops, kind, k - 1) + if Records(ops[k - 1], kind) then 1 else 0
  }

  /** Entries the first `n` slots add: those of their operations, and the branches around prologues. */
  function SlotsCount(plan: seq<Plan>, kind: Kind, n: nat): nat
    requires n <= |plan|
  {
    if n == 0 then 0
    else
      SlotsCount(plan, kind, n - 1) +
      match plan[n - 1]
      case SecondHalf => 0
      case Slot(_, bypass, _, ops) => CountTo(ops, kind, |ops|) + if bypass && kind.JumpKind? then 1 else 0
  }

  lemma {:induction false} OpsCount(c: Code, ops: seq<AOp>, kind: Kind, k: nat)
    requires k <= |ops|
    ensures |TableOf(AfterOps(c, ops[..k]).tables, kind)| == |TableOf(c.tables, kind)| + CountTo(ops, kind, k)
    decreases k
  {
    hide TableOf;
    if k > 0 {
      OpsCount(c, ops, kind, k - 1);
      assert ops[..k][..k - 1] == ops[..k - 1];
      OpCount(AfterOps(c, ops[..k - 1]), ops[k - 1], kind);
    }
  }

  lemma OpCount(c: Code, op: AOp, kind: Kind)
    ensures |TableOf(AfterOp(c, op).tables, kind)| == |TableOf(c.tables, kind)| + if Records(op, kind) then 1 else 0
  {
    if op.Field? {
      JitEmission.AppendTable(c.tables, op.kind, Entry(Size(c), ArmEmission.TargetOf(|c.words|, op.to)), kind);
    }
    hide TableOf, JitEmission.Append;
  }

  lemma StartCount(c: Code, i: nat, entry: bool, bypass: bool, usage: u16, kind: Kind)
    ensures |TableOf(AfterStart(c, i, entry, bypass, usage).tables, kind)| ==
            |TableOf(c.tables, kind)| + if bypass && kind.JumpKind? then 1 else 0
  {
    hide ArmPrologue;
  }

  lemma {:induction false} AfterSlotsCount(c: Code, plan: seq<Plan>, kind: Kind, n: nat)
    requires n <= |plan|
    ensures |TableOf(AfterSlots(c, plan, n).tables, kind)| == |TableOf(c.tables, kind)| + SlotsCount(plan, kind, n)
    decreases n
  {
    hide TableOf, AfterStart, AfterOps;
    if n > 0 {
      AfterSlotsCount(c, plan, kind, n - 1);
      var d, p := AfterSlots(c, plan, n - 1), plan[n - 1];
      if p.Slot? {
        StartCount(d, n - 1, p.entry, p.bypass, p.usage, kind);
        assert p.ops[..|p.ops|] == p.ops;
        OpsCount(AfterStart(d, n - 1, p.entry, p.bypass, p.usage), p.ops, kind, |p.ops|);
      }
    }
  }

  /** The entries a translation records, counted from its plan; with this, when its tables overflow. */
  lemma RecordedCount(setup: seq<AOp>, plan: seq<Plan>, kind: Kind)
    ensures |TableOf(Body(Start(), setup, plan).tables, kind)| == CountTo(setup, kind, |setup|) + SlotsCount(plan, kind, |plan|)
  {
    hide AfterSlots, AfterOps;
    assert setup[..|setup|] == setup;
    OpsCount(Start(), setup, kind, |setup|);
    AfterSlotsCount(AfterSetup(Start(), setup), plan, kind, |plan|);
  }

  lemma {:induction false} WordsCountNothing(ops: seq<AOp>, kind: Kind, j: nat, k: nat)
    requires j <= k <= |ops| && forall x :: j <= x < k ==> ops[x].Word?
    ensures CountTo(ops, kind, k) == CountTo(ops, kind, j)
    decreases k
  {
    if j < k {
      WordsCountNothing(ops, kind, j, k - 1);
    }
  }

  /** A helper call records two jumps, the dispatcher's load and the address of the helper table. */
  lemma HelperCallCount(load1: seq<u32>, load2: seq<u32>, kind: Kind)
    ensures var ops := HelperCall(load1, load2, false);
      CountTo(ops, kind, |ops|) == match kind case JumpKind => 2 case CallKind => 0 case _ => 1
  {
    var ops, l := HelperCall(load1, load2, false), |load1|;
    HelperCallOps(load1, load2, false);
    HelperCallWords(load1, load2);
    hide HelperCall, CountTo;
    WordsCountNothing(ops, kind, 0, 2);
    CountNext(ops, kind, 2);
    WordsCountNothing(ops, kind, 3, 4);
    CountNext(ops, kind, 4);
    WordsCountNothing(ops, kind, 5, 8 + l);
    CountNext(ops, kind, 8 + l);
    WordsCountNothing(ops, kind, 9 + l, 12 + l);
    CountNext(ops, kind, 12 + l);
    WordsCountNothing(ops, kind, 13 + l, |ops|);
  }

  lemma CountNext(ops: seq<AOp>, kind: Kind, k: nat)
    requires k < |ops|
    ensures CountTo(ops, kind, k + 1) == CountTo(ops, kind, k) + if Records(ops[k], kind) then 1 else 0
    ensures CountTo(ops, kind, 0) == 0
  {
  }

  lemma HelperCallWords(load1: seq<u32>, load2: seq<u32>)
    ensures var ops, l := HelperCall(load1, load2, false), |load1|;
      forall j :: 0 <= j < |ops| && j !in {2, 4, 8 + l, 12 + l} ==> ops[j].Word?
  {
    hide AsWords;
  }

  // ---------------------------------------------------------------- programs of helper calls

  const EXIT := Inst(0x95, 0, 0, 0, 0)

  /** `n` calls of a helper and an EXIT, behind the given instructions. */
  function CallsBehind(front: seq<Inst>, idx: i32, n: nat): (prog: seq<Inst>)
    ensures |prog| == |front| + n + 1
  {
    front + seq(n, _ => Inst(0x85, 0, 0, 0, idx)) + [EXIT]
  }

  /** Nothing in front, or a conditional jump over the calls to the EXIT behind them. */
  predicate Front(front: seq<Inst>, n: nat) { front == [] || (n < 0x8000 && front == [Inst(0x15, 0, 0, n, 0)]) }

  /** A VM that holds such a program, with a small index that is not the unwinding helper's. */
  predicate Holds(env: Env, front: seq<Inst>, idx: i32, n: nat)
  {
    && Front(front, n) && |front| + n + 1 < MAX_INSTS && 0 <= idx < 0x1_0000 && idx != env.unwind
    && env.prog == CallsBehind(front, idx, n) && env.funcs == {}
  }

  lemma ProgramAt(env: Env, front: seq<Inst>, idx: i32, n: nat, i: nat)
    requires Holds(env, front, idx, n) && i < |env.prog|
    ensures env.prog[i] == if i < |front| then front[0] else if i < |front| + n then Inst(0x85, 0, 0, 0, idx) else EXIT
  {
  }

  lemma {:induction false} NoTargets(prog: seq<Inst>, n: nat)
    requires n <= |prog| && forall i :: 0 <= i < n ==> !IsLocalCall(prog, i)
    ensures Targets(prog, n) == {}
    decreases n
  {
    if n > 0 {
      NoTargets(prog, n - 1);
    }
  }

  lemma {:induction false} WalksOn(callable: int -> bool, usage: u16 -> u16, prog: seq<Inst>, i: nat)
    requires |prog| < MAX_INSTS
    requires forall k :: i <= k < |prog| ==> InstOk(callable, usage, prog, k) && Width(prog[k]) == 1
    ensures Walk(callable, usage, prog, i)
    decreases |prog| - i
  {
    hide InstOk, Width;
    if i < |prog| {
      WalksOn(callable, usage, prog, i + 1);
    }
  }

  lemma CallsInst(env: Env, front: seq<Inst>, idx: i32, n: nat, i: nat)
    requires Holds(env, front, idx, n) && env.callable(idx) && i < |env.prog|
    ensures InstOk(env.callable, env.usage, env.prog, i) && Width(env.prog[i]) == 1 && !IsLocalCall(env.prog, i)
  {
    ProgramAt(env, front, idx, n, i);
    ProgramAt(env, front, idx, n, |env.prog| - 1);
    assert Decode(0x85).Call? && Decode(0x95).Exit? && Decode(0x15) == Jcc(true, JEQ, false);
    hide CallsBehind;
  }

  /** These programs are accepted as soon as the helper is there. */
  lemma CallsLoaded(env: Env, front: seq<Inst>, idx: i32, n: nat)
    requires Holds(env, front, idx, n) && env.callable(idx) && env.usage(0) % 16 == 0
    ensures Loaded(env)
  {
    hide InstOk, Width;
    var prog := env.prog;
    forall i | 0 <= i < |prog|
      ensures InstOk(env.callable, env.usage, prog, i) && Width(prog[i]) == 1 && !IsLocalCall(prog, i)
    {
      CallsInst(env, front, idx, n, i);
    }
    NoTargets(prog, |prog|);
    WalksOn(env.callable, env.usage, prog, 0);
  }

  /** `emit_jit_prologue`: the given words, a call of the entry and a jump to the exit. */
  function Setup(words: seq<u32>): (ops: seq<AOp>)
    ensures |ops| == |words| + 2
  {
    AsWords(words) + [Field(JumpKind, 0x9400_0000, ToPlace(ToEnter)), Field(JumpKind, 0x1400_0000, ToPlace(ToExit))]
  }

  lemma SetupCount(words: seq<u32>, kind: Kind)
    ensures CountTo(Setup(words), kind, |words| + 2) == if kind.JumpKind? then 2 else 0
  {
    var ops, n := Setup(words), |words|;
    assert forall i :: 0 <= i < n ==> ops[i].Word?;
    WordsCountNothing(ops, kind, 0, n);
    CountNext(ops, kind, n);
    CountNext(ops, kind, n + 1);
  }

  /** Constants are not blinded. */
  function Unblinded(i: nat): (Option<u64>, Option<u64>) { (None, None) }

  function CallsPlan(env: Env, code: nat -> seq<AOp>): seq<Plan>
    requires |env.prog| <= 65535
  {
    PlanOf(env, code, Unblinded)
  }

  /** The slots of the plan: each call has twenty words. */
  lemma CallSlot(env: Env, code: nat -> seq<AOp>, front: seq<Inst>, idx: i32, n: nat, i: nat)
    requires Holds(env, front, idx, n) && i < |env.prog|
    ensures var p := CallsPlan(env, code)[i];
      && p.Slot? && p.entry == (i == 0) && !p.bypass
      && (i < |front| ==> p.ops == code(0) + [Field(JumpKind, 0x5400_0000, ToSlot(n + 1))])
      && (|front| <= i < |front| + n ==> |p.ops| == 20 && p.ops == HelperCall(LoadIndex(idx, None), LoadIndex(idx, None), false))
      && (i == |front| + n ==> |p.ops| == 2 && p.ops[0].Word? && p.ops[1].Word?)
  {
    hide HelperCall, LoadIndex;
    ProgramAt(env, front, idx, n, i);
    PlanSlot(env, code, Unblinded, i);
    LoadIndexLength(idx, None);
    assert Decode(0x15) == Jcc(true, JEQ, false);
  }

  /** The entries of the jump and of the first calls. */
  lemma {:induction false} CallsCounted(env: Env, code: nat -> seq<AOp>, front: seq<Inst>, idx: i32, n: nat, kind: Kind, k: nat)
    requires Holds(env, front, idx, n) && k <= n && forall j :: 0 <= j < |code(0)| ==> code(0)[j].Word?
    ensures SlotsCount(CallsPlan(env, code), kind, |front| + k) ==
            match kind case JumpKind => |front| + 2 * k case CallKind => 0 case _ => k
    decreases k
  {
    hide HelperCall, LoadIndex, PlanOf, CountTo;
    var plan, f := CallsPlan(env, code), |front|;
    if k > 0 {
      CallsCounted(env, code, front, idx, n, kind, k - 1);
      CallSlot(env, code, front, idx, n, f + k - 1);
      HelperCallCount(LoadIndex(idx, None), LoadIndex(idx, None), kind);
    } else if f > 0 {
      CallSlot(env, code, front, idx, n, 0);
      WordsCountNothing(plan[0].ops, kind, 0, |code(0)|);
      CountNext(plan[0].ops, kind, |code(0)|);
      assert SlotsCount(plan, kind, 0) == 0;
    }
  }

  /** The tables hold out exactly if the setup's two jumps, the one in front and two for each call fit. */
  lemma CallsFit(env: Env, code: nat -> seq<AOp>, front: seq<Inst>, idx: i32, n: nat, words: seq<u32>)
    requires Holds(env, front, idx, n) && forall j :: 0 <= j < |code(0)| ==> code(0)[j].Word?
    ensures TablesFit(Body(Start(), Setup(words), CallsPlan(env, code)).tables) <==> 2 + |front| + 2 * n <= MAX_INSTS
  {
    hide Body, Setup, TableOf, SlotsCount, CountTo, PlanOf;
    var plan, body := CallsPlan(env, code), Body(Start(), Setup(words), CallsPlan(env, code));
    forall kind: Kind
      ensures |TableOf(body.tables, kind)| == match kind case JumpKind => 2 + |front| + 2 * n case CallKind => 0 case _ => n
    {
      RecordedCount(Setup(words), plan, kind);
      SetupCount(words, kind);
      CallsCounted(env, code, front, idx, n, kind, n);
      ExitCounts(env, code, front, idx, n, kind);
    }
    assert |TableOf(body.tables, JumpKind)| == 2 + |front| + 2 * n;
  }

  lemma ExitCounts(env: Env, code: nat -> seq<AOp>, front: seq<Inst>, idx: i32, n: nat, kind: Kind)
    requires Holds(env, front, idx, n)
    ensures var plan := CallsPlan(env, code);
      |plan| == |front| + n + 1 && SlotsCount(plan, kind, |plan|) == SlotsCount(plan, kind, |plan| - 1)
  {
    hide PlanOf;
    var plan := CallsPlan(env, code);
    CallSlot(env, code, front, idx, n, |front| + n);
    WordsCountNothing(plan[|front| + n].ops, kind, 0, 2);
  }

  // ---------------------------------------------------------------- distances

  /** The words in front of a call, or of the EXIT behind them. */
  lemma {:induction false} CallsAt(env: Env, code: nat -> seq<AOp>, front: seq<Inst>, idx: i32, n: nat, c: Code, k: nat)
    requires Holds(env, front, idx, n) && k <= n
    ensures |AfterSlots(c, CallsPlan(env, code), |front| + k).words| ==
            |c.words| + (if |front| + k > 0 then 3 else 0) + (if front == [] then 0 else |code(0)| + 1) + 20 * k
    decreases k
  {
    hide HelperCall, LoadIndex, PlanOf, AfterSlot;
    var plan, f := CallsPlan(env, code), |front|;
    if k > 0 {
      CallsAt(env, code, front, idx, n, c, k - 1);
      CallSlot(env, code, front, idx, n, f + k - 1);
      SlotLength(AfterSlots(c, plan, f + k - 1), f + k - 1, plan[f + k - 1]);
    } else if f > 0 {
      CallSlot(env, code, front, idx, n, 0);
      assert AfterSlots(c, plan, 0) == c;
      SlotLength(c, 0, plan[0]);
    }
  }

  lemma SlotStarts(c: Code, setup: seq<AOp>, plan: seq<Plan>, i: nat)
    requires i < |plan| && plan[i].Slot?
    ensures |UpToOp(c, setup, plan, i, 0).words| ==
            |UpTo(c, setup, plan, i).words| + (if plan[i].bypass then 1 else 0) + if plan[i].entry then 3 else 0
  {
    hide AfterSlots, ArmPrologue, AfterSetup;
    PrologueWords(plan[i].usage);
    assert plan[i].ops[..0] == [];
  }

  /**
    The compiled conditional jump over `n` helper calls goes to its target exactly when there are at most 13107 of them.
    */
  lemma LongJumpLands(env: Env, code: nat -> seq<AOp>, front: seq<Inst>, idx: i32, n: nat, words: seq<u32>, tail: Tail, b: seq<u32>)
    requires Holds(env, front, idx, n) && front != []
    requires CompiledProgram(env, code, Unblinded, Setup(words), tail, b)
    ensures var w := Planned(Start(), Setup(words), CallsPlan(env, code), tail);
      var at, to := |words| + 5 + |code(0)|, SlotAt(env, code, Unblinded, Setup(words), n + 1);
      && at < |w.words| <= |b| && to == at + 1 + 20 * n
      && (Reads(w, b, JumpKind, 4 * at) == 4 * to <==> n <= 13107)
  {
    hide CompiledProgram, Planned, Reads, UpToOp, UpTo, PlanOf, Loaded, Setup, Decode;
    var setup, plan := Setup(words), CallsPlan(env, code);
    CallSlot(env, code, front, idx, n, 0);
    CallSlot(env, code, front, idx, n, n + 1);
    JumpInFront(env, front, idx, n);
    SlotStarts(Start(), setup, plan, 0);
    SlotStarts(Start(), setup, plan, n + 1);
    WordsBefore(env, code, front, idx, n, words);
    JumpsLand(env, code, Unblinded, setup, tail, b, 0);
  }

  lemma JumpInFront(env: Env, front: seq<Inst>, idx: i32, n: nat)
    requires Holds(env, front, idx, n) && front != []
    ensures |env.prog| == n + 2 && env.prog[0].opcode == 0x15 && env.prog[n + 1].opcode == 0x95
    ensures IsJump(env.prog[0]) && JumpTarget(env.prog, 0) == n + 1 && Decode(0x15).Jcc?
  {
    ProgramAt(env, front, idx, n, 0);
    ProgramAt(env, front, idx, n, n + 1);
  }

  /** Where the first slot, the EXIT and the tail are. */
  lemma WordsBefore(env: Env, code: nat -> seq<AOp>, front: seq<Inst>, idx: i32, n: nat, words: seq<u32>)
    requires Holds(env, front, idx, n)
    ensures var setup, plan, f := Setup(words), CallsPlan(env, code), |front|;
      var own := if front == [] then 0 else |code(0)| + 1;
      && |plan| == f + n + 1
      && |UpTo(Start(), setup, plan, 0).words| == |words| + 2
      && |UpTo(Start(), setup, plan, f + n).words| == |words| + 2 + (if f + n > 0 then 3 else 0) + own + 20 * n
      && |Body(Start(), setup, plan).words| == |words| + 7 + own + 20 * n
  {
    hide PlanOf, AfterSlot, Setup, AfterSetup;
    var setup, plan, f := Setup(words), CallsPlan(env, code), |front|;
    var c := AfterSetup(Start(), setup);
    SetupLength(Start(), setup);
    CallsAt(env, code, front, idx, n, c, n);
    CallSlot(env, code, front, idx, n, f + n);
    assert AfterSlots(c, plan, 0) == c;
    SlotLength(AfterSlots(c, plan, f + n), f + n, plan[f + n]);
  }

  /**
    In a program of `n` helper calls the first one takes the helper table's address and loads the dispatcher's from
    where they are exactly when the code between is short enough.
    */
  lemma FirstCallReaches(env: Env, code: nat -> seq<AOp>, idx: i32, n: nat, words: seq<u32>, tail: Tail, b: seq<u32>)
    requires Holds(env, [], idx, n) && n > 0
    requires CompiledProgram(env, code, Unblinded, Setup(words), tail, b)
    ensures var w, at := Planned(Start(), Setup(words), CallsPlan(env, code), tail), |words| + 5;
      && at + 20 <= |w.words| <= |b|
      && (Reads(w, b, LeaKind, 4 * (at + 9)) == w.tables.helperLoc <==>
          20 * n + |tail.epilogue| + |tail.dispatcher| - 7 < 0x4_0000)
      && (Reads(w, b, LoadKind, 4 * (at + 2)) == w.tables.dispatcherLoc <==> 20 * n + |tail.epilogue| < 0x4_0000)
  {
    hide Planned, Reads, UpToOp, UpTo, Body, PlanOf, Loaded, Setup, HelperCall, LoadIndex, Compiled, CodeOk;
    var setup, plan := Setup(words), CallsPlan(env, code);
    CallSlot(env, code, [], idx, n, 0);
    LoadIndexLength(idx, None);
    SlotStarts(Start(), setup, plan, 0);
    WordsBefore(env, code, [], idx, n, words);
    HelperCallLands(Start(), setup, plan, tail, b, 0, idx, None, None, false);
    TailPlaces(Start(), setup, plan, tail);
  }

  lemma TailPlaces(c: Code, setup: seq<AOp>, plan: seq<Plan>, tail: Tail)
    ensures var t, n := Planned(c, setup, plan, tail).tables, |Body(c, setup, plan).words|;
      t.dispatcherLoc == 4 * (n + |tail.epilogue|) && t.helperLoc == 4 * (n + |tail.epilogue| + |tail.dispatcher|)
  {
    hide Body;
  }

  // ---------------------------------------------------------------- small code

  /** All recorded places are inside the code. */
  ghost predicate Bounded(c: Code)
  {
    && c.entryLoc <= Size(c) && c.tables.exitLoc <= Size(c) && c.tables.dispatcherLoc <= Size(c) && c.tables.helperLoc <= Size(c)
    && forall i :: 0 <= i < |c.tables.pcLocs| ==> c.tables.pcLocs[i] <= Size(c)
  }

  lemma {:induction false} BoundedOps(c: Code, ops: seq<AOp>)
    requires Bounded(c)
    ensures Bounded(AfterOps(c, ops))
    decreases |ops|
  {
    hide JitEmission.Append, ArmEmission.TargetOf;
    if ops != [] {
      BoundedOps(c, ops[..|ops| - 1]);
      var d, op := AfterOps(c, ops[..|ops| - 1]), ops[|ops| - 1];
      if op.Field? {
        AppendKeepsLocations(d.tables, op.kind, Entry(Size(d), ArmEmission.TargetOf(|d.words|, op.to)));
      }
    }
  }

  lemma BoundedStart(c: Code, i: nat, entry: bool, bypass: bool, usage: u16)
    requires Bounded(c)
    ensures Bounded(AfterStart(c, i, entry, bypass, usage))
  {
    hide ArmPrologue;
  }

  lemma {:induction false} BoundedSlots(c: Code, plan: seq<Plan>, n: nat)
    requires Bounded(c) && n <= |plan|
    ensures Bounded(AfterSlots(c, plan, n))
    decreases n
  {
    hide Bounded, AfterStart, AfterOps;
    if n > 0 {
      BoundedSlots(c, plan, n - 1);
      var d, p := AfterSlots(c, plan, n - 1), plan[n - 1];
      if p.Slot? {
        BoundedStart(d, n - 1, p.entry, p.bypass, p.usage);
        BoundedOps(AfterStart(d, n - 1, p.entry, p.bypass, p.usage), p.ops);
      }
    }
  }

  lemma BoundedPlanned(c: Code, setup: seq<AOp>, plan: seq<Plan>, tail: Tail)
    requires Bounded(c)
    ensures Bounded(Planned(c, setup, plan, tail))
  {
    hide AfterOps, AfterSlots;
    BoundedOps(c, setup);
    BoundedSlots(AfterSetup(c, setup), plan, |plan|);
  }

  /** A field's destination is inside the code, or for a call at most a prologue in front of it. */
  lemma DestinationNear(w: Code, n: nat, op: AOp)
    requires Bounded(w) && LocationsSound(w) && op.Field? && OpOk(op)
    requires op.to.ToWord? ==> n + op.to.ahead <= |w.words|
    requires Destination(w, op.kind, ArmEmission.TargetOf(n, op.to)).Some?
    ensures (if op.kind.CallKind? then -12 else 0) <= Destination(w, op.kind, ArmEmission.TargetOf(n, op.to)).value <= Size(w)
  {
    hide BaseOk;
  }

  /** In code of less than a megabyte, as in every buffer of the default size, each field of each slot reaches its destination. */
  lemma SmallCodeReaches(setup: seq<AOp>, plan: seq<Plan>, tail: Tail, b: seq<u32>, i: nat, k: nat)
    requires Compiled(Start(), setup, plan, tail, b) && |Planned(Start(), setup, plan, tail).words| < 0x4_0000
    requires i < |plan| && plan[i].Slot? && k < |plan[i].ops| && plan[i].ops[k].Field?
    ensures var w, n, op := Planned(Start(), setup, plan, tail), |UpToOp(Start(), setup, plan, i, 0).words| + k, plan[i].ops[k];
      && n < |w.words| <= |b|
      && Some(Reads(w, b, op.kind, 4 * n)) == Destination(w, op.kind, ArmEmission.TargetOf(n, op.to))
  {
    hide Planned, UpToOp, Destination, ArmEmission.TargetOf, Reads, InRange, ReadForm, Resolved, Sound, Bounded, BaseOk, StaysInside;
    var w, n, op := Planned(Start(), setup, plan, tail), |UpToOp(Start(), setup, plan, i, 0).words| + k, plan[i].ops[k];
    FieldGoes(Start(), setup, plan, tail, b, i, k);
    SlotInside(Start(), setup, plan, tail, b, i);
    assert PlanOk(plan[i]);
    InsideWord(plan[i].ops, k);
    StartBounded();
    BoundedPlanned(Start(), setup, plan, tail);
    SoundPlanned(Start(), setup, plan, tail);
    SoundPlaces(w);
    DestinationNear(w, n, op);
    var rel := Destination(w, op.kind, ArmEmission.TargetOf(n, op.to)).value - 4 * n;
    ShortRanges(rel);
    if op.kind.CallKind? {
      CallForm(op);
      assert InRange(Unconditional, rel);
    } else {
      assert InRange(Conditional, rel) && InRange(Unconditional, rel);
      match ReadForm(op.kind, op.base) case Conditional => case Unconditional =>
    }
  }

  lemma CallForm(op: AOp)
    requires op.Field? && OpOk(op) && op.kind.CallKind?
    ensures ReadForm(op.kind, op.base) == Unconditional
  {
    BaseForms(op.kind, op.base);
    hide ReadForm;
  }

  lemma StartBounded()
    ensures Bounded(Start())
  {
  }

  lemma SoundPlaces(c: Code)
    requires Sound(c)
    ensures LocationsSound(c)
  {
  }

  lemma InsideWord(ops: seq<AOp>, k: nat)
    requires StaysInside(ops) && k < |ops| && ops[k].Field?
    ensures ops[k].to.ToWord? ==> k + ops[k].to.ahead <= |ops|
  {
  }
}
