/** What the translator emits for a program, as a value: operations, slots, the tail, and the room they need. */
module JitPlan {
  import opened Words
  import opened Relocation
  import opened JitEmission
  import opened Isa

  // ---------------------------------------------------------------- what is emitted

  /** Plain bytes, or an instruction with a patch field. */
  datatype Op =
    | Raw(bytes: seq<u8>)
    | JumpOp(opcode: seq<u8>, target: Target)
    | CallOp(slot: nat)
    | LoadOp(opcode: seq<u8>)
    | LeaOp(opcode: seq<u8>)

  predicate OpOk(op: Op)
  {
    match op
    case JumpOp(_, SpecialTarget(s)) => s.ToExit? || s.ToRetpoline?
    case JumpOp(_, Regular(slot, jit, near)) => slot <= MAX_INSTS && jit == 0 && !near
    case CallOp(slot) => slot <= MAX_INSTS
    case _ => true
  }

  predicate OpsOk(ops: seq<Op>) { forall i :: 0 <= i < |ops| ==> OpOk(ops[i]) }

  /**
    One operation, or a choice of two arms: the first jump goes to the second arm and the jump behind the first arm
    goes past the second. Neither target is known when its jump is emitted.
    */
  datatype Step =
    | One(op: Op)
    | Either(skip: seq<u8>, first: seq<Op>, join: seq<u8>, second: seq<Op>)

  predicate StepOk(s: Step) { if s.One? then OpOk(s.op) else OpsOk(s.first) && OpsOk(s.second) }

  predicate StepsOk(steps: seq<Step>) { forall i :: 0 <= i < |steps| ==> StepOk(steps[i]) }

  /** The translation of a slot; the second half of an LDDW has none of its own. */
  datatype Plan = SecondHalf | Slot(entry: bool, bypass: bool, usage: u16, steps: seq<Step>)

  predicate PlanOk(p: Plan) { p.Slot? ==> StepsOk(p.steps) && (p.bypass ==> p.entry) }

  /** What stands behind the slots; the epilogue is emitted in pieces of at most four bytes. */
  datatype Tail = Tail(epilogue: seq<seq<u8>>, dispatcher: seq<u8>, helpers: seq<u8>)

  predicate TailOk(tail: Tail) { forall i :: 0 <= i < |tail.epilogue| ==> |tail.epilogue[i]| <= 4 }

  function Flat(pieces: seq<seq<u8>>): seq<u8>
  {
    if pieces == [] then [] else Flat(pieces[..|pieces| - 1]) + pieces[|pieces| - 1]
  }

  lemma FlatNext(pieces: seq<seq<u8>>, i: nat)
    requires i <= |pieces|
    ensures i == 0 ==> Flat(pieces[..i]) == []
    ensures i < |pieces| ==> Flat(pieces[..i + 1]) == Flat(pieces[..i]) + pieces[i]
  {
    if i < |pieces| {
      assert pieces[..i + 1][..i] == pieces[..i] && pieces[..i + 1][i] == pieces[i];
    }
  }

  predicate IsEntry(plan: seq<Plan>, i: nat) { i < |plan| && plan[i].Slot? && plan[i].entry }

  /** Exactly the function entries among the first `n` slots have prologues, each storing its own usage. */
  ghost predicate EntriesFollow(plan: seq<Plan>, n: nat, entries: map<nat, u16>)
  {
    && (forall i: nat :: i in entries <==> i < n && IsEntry(plan, i))
    && (forall i: nat :: i in entries && IsEntry(plan, i) ==> entries[i] == plan[i].usage)
  }

  function BypassOf(loc: nat): Entry { Entry(if loc >= 19 then loc - 19 else 0, Regular(0, loc, true)) }

  /** Every bypass among the first `n` slots is a recorded near jump, in front of its prologue, to its slot's location. */
  ghost predicate BypassesFollow(plan: seq<Plan>, n: nat, t: Tables)
  {
    forall i :: 0 <= i < n && i < |plan| && i < |t.pcLocs| && plan[i].Slot? && plan[i].bypass ==>
      t.pcLocs[i] >= 20 && BypassOf(t.pcLocs[i]) in t.jumps
  }

  lemma NothingYet(plan: seq<Plan>, entries: map<nat, u16>, t: Tables)
    requires entries == map[]
    ensures EntriesFollow(plan, 0, entries) && BypassesFollow(plan, 0, t)
  {
  }

  lemma GoodDisjoint(t: Tables, b: seq<u8>, entries: map<nat, u16>, size: nat)
    requires Good(t, b, entries) && |b| <= size
    ensures Disjoint(t, size)
  {
    DisjointGrows(t, |b|, size);
  }

  lemma BypassesGrow(plan: seq<Plan>, n: nat, t: Tables, t': Tables)
    requires BypassesFollow(plan, n, t) && t.jumps <= t'.jumps && |t'.pcLocs| == |t.pcLocs|
    requires forall i :: 0 <= i < n && i < |t.pcLocs| ==> t'.pcLocs[i] == t.pcLocs[i]
    ensures BypassesFollow(plan, n, t')
  {
    assert forall e :: e in t.jumps ==> e in t'.jumps;
  }

  // ---------------------------------------------------------------- the code a plan stands for

  /** Tables and bytes of code under construction, before any field is patched. */
  datatype Code = Code(tables: Tables, bytes: seq<u8>)

  function WithBytes(c: Code, data: seq<u8>): Code { c.(bytes := c.bytes + data) }

  /** An opcode followed by a placeholder whose position is recorded with its target. */
  function WithField(c: Code, opcode: seq<u8>, kind: Kind, target: Target): Code
  {
    Code(Append(c.tables, kind, Entry(|c.bytes| + |opcode|, target)), c.bytes + opcode + [0, 0, 0, 0])
  }

  function AfterOp(c: Code, op: Op): Code
  {
    match op
    case Raw(bytes) => WithBytes(c, bytes)
    case JumpOp(opcode, target) => WithField(c, opcode, JumpKind, target)
    case CallOp(slot) => WithField(c, [0xe8], CallKind, Regular(slot, 0, false))
    case LoadOp(opcode) => WithField(c, opcode, LoadKind, SpecialTarget(ToDispatcher))
    case LeaOp(opcode) => WithField(c, opcode, LeaKind, SpecialTarget(ToHelperTable))
  }

  function AfterOps(c: Code, ops: seq<Op>): Code
  {
    if ops == [] then c else AfterOp(AfterOps(c, ops[..|ops| - 1]), ops[|ops| - 1])
  }

  function OpLength(op: Op): nat
  {
    match op
    case Raw(bytes) => |bytes|
    case CallOp(_) => 5
    case JumpOp(opcode, _) => |opcode| + 4
    case LoadOp(opcode) => |opcode| + 4
    case LeaOp(opcode) => |opcode| + 4
  }

  function OpsLength(ops: seq<Op>): nat
  {
    if ops == [] then 0 else OpsLength(ops[..|ops| - 1]) + OpLength(ops[|ops| - 1])
  }

  /** Where the second arm of a choice starts. */
  function SecondArm(size: nat, s: Step): nat
    requires s.Either?
  {
    size + |s.skip| + 4 + OpsLength(s.first) + |s.join| + 4
  }

  /** Where both arms of a choice go on. */
  function Joined(size: nat, s: Step): nat
    requires s.Either?
  {
    SecondArm(size, s) + OpsLength(s.second)
  }

  function Forward(jit: nat): Target { Regular(0, jit, false) }

  function AfterStep(c: Code, s: Step): Code
  {
    match s
    case One(op) => AfterOp(c, op)
    case Either(skip, first, join, second) =>
      var c1 := AfterOps(WithField(c, skip, JumpKind, Forward(SecondArm(|c.bytes|, s))), first);
      AfterOps(WithField(c1, join, JumpKind, Forward(Joined(|c.bytes|, s))), second)
  }

  function AfterSteps(c: Code, steps: seq<Step>): Code
  {
    if steps == [] then c else AfterStep(AfterSteps(c, steps[..|steps| - 1]), steps[|steps| - 1])
  }

  /** The entry code of slot `i`, if it has any, and its location. */
  function AfterStart(c: Code, i: nat, entry: bool, bypass: bool, usage: u16): Code
  {
    var size := |c.bytes| + (if bypass then 5 else 0) + if entry then PROLOGUE_SIZE else 0;
    Code(c.tables.(
           pcLocs := if i < |c.tables.pcLocs| then c.tables.pcLocs[i := size] else c.tables.pcLocs,
           prologSize := if entry then PROLOGUE_SIZE else c.tables.prologSize,
           jumps := c.tables.jumps + if bypass then [Entry(|c.bytes| + 1, Regular(0, size, true))] else []),
         c.bytes + (if bypass then [0xeb, 0, 0, 0, 0] else []) + if entry then Prologue(usage) else [])
  }

  function AfterSlot(c: Code, i: nat, p: Plan): Code
  {
    match p
    case SecondHalf => c
    case Slot(entry, bypass, usage, steps) => AfterSteps(AfterStart(c, i, entry, bypass, usage), steps)
  }

  /** The first `n` slots. */
  function AfterSlots(c: Code, plan: seq<Plan>, n: nat): Code
    requires n <= |plan|
  {
    if n == 0 then c else AfterSlot(AfterSlots(c, plan, n - 1), n - 1, plan[n - 1])
  }

  /** A special location set to the end of the code. */
  function Marked(c: Code, s: Special): Code
  {
    match s
    case ToExit => c.(tables := c.tables.(exitLoc := |c.bytes|))
    case ToRetpoline => c.(tables := c.tables.(retpolineLoc := |c.bytes|))
    case ToDispatcher => c.(tables := c.tables.(dispatcherLoc := |c.bytes|))
    case ToHelperTable => c.(tables := c.tables.(helperLoc := |c.bytes|))
    case ToEnter => c
  }

  /** `emit_retpoline`: a call over a pause loop, both with fields of their own. */
  function AfterRetpoline(c: Code): Code
  {
    var n := |c.bytes|;
    var c1 := WithBytes(WithField(c, [0xe8], JumpKind, Forward(n + 12)), [0xf3, 0x90]);
    WithBytes(WithField(c1, [0xe9], JumpKind, Forward(n + 5)), [0x48, 0x89, 0x04, 0x24, 0xc3])
  }

  function AfterTail(c: Code, tail: Tail): Code
  {
    var c1 := WithBytes(Marked(c, ToExit), Flat(tail.epilogue));
    var c2 := AfterRetpoline(Marked(c1, ToRetpoline));
    var c3 := WithBytes(Marked(c2, ToDispatcher), tail.dispatcher);
    WithBytes(Marked(c3, ToHelperTable), tail.helpers)
  }

  /** The code in front of the tail. */
  function Body(c: Code, setup: seq<Op>, plan: seq<Plan>): Code { AfterSlots(AfterOps(c, setup), plan, |plan|) }

  function Planned(c: Code, setup: seq<Op>, plan: seq<Plan>, tail: Tail): Code { AfterTail(Body(c, setup, plan), tail) }

  predicate Limited(t: Tables)
  {
    |t.jumps| <= MAX_INSTS && |t.calls| <= MAX_INSTS && |t.loads| <= MAX_INSTS && |t.leas| <= MAX_INSTS
  }

  /** The code fits a buffer and its entries fit the tables. */
  predicate RoomFor(c: Code, size: nat) { |c.bytes| <= size && Limited(c.tables) }

  /** Later code keeps what is recorded and emitted. */
  ghost predicate Extends(c: Code, d: Code)
  {
    && c.bytes <= d.bytes
    && (forall kind: Kind :: TableOf(c.tables, kind) <= TableOf(d.tables, kind))
    && (forall kind: Kind, i :: |TableOf(c.tables, kind)| <= i < |TableOf(d.tables, kind)| ==>
          |c.bytes| <= TableOf(d.tables, kind)[i].at && TableOf(d.tables, kind)[i].at + 4 <= |d.bytes|)
  }

  lemma ExtendsBoth(c: Code, d: Code, e: Code)
    requires Extends(c, d) && Extends(d, e)
    ensures Extends(c, e)
  {
    hide TableOf;
  }

  lemma OpExtends(c: Code, op: Op)
    ensures Extends(c, AfterOp(c, op)) && AfterOp(c, op).tables.pcLocs == c.tables.pcLocs
  {
  }

  lemma {:induction false} OpsExtend(c: Code, ops: seq<Op>)
    ensures Extends(c, AfterOps(c, ops)) && AfterOps(c, ops).tables.pcLocs == c.tables.pcLocs
    decreases |ops|
  {
    hide AfterOp, TableOf, Extends;
    if ops == [] {
      assert Extends(c, c) by { SameExtends(c); }
    } else {
      var most := ops[..|ops| - 1];
      OpsExtend(c, most);
      OpExtends(AfterOps(c, most), ops[|ops| - 1]);
      ExtendsBoth(c, AfterOps(c, most), AfterOps(c, ops));
    }
  }

  lemma SameExtends(c: Code)
    ensures Extends(c, c)
  {
  }

  lemma StartExtends(c: Code, i: nat, entry: bool, bypass: bool, usage: u16)
    ensures Extends(c, AfterStart(c, i, entry, bypass, usage))
  {
  }

  lemma FieldExtends(c: Code, opcode: seq<u8>, kind: Kind, target: Target)
    ensures var d := WithField(c, opcode, kind, target);
      Extends(c, d) && d.tables.pcLocs == c.tables.pcLocs && |d.bytes| == |c.bytes| + |opcode| + 4
  {
  }

  lemma {:induction false} OpsLengthIs(c: Code, ops: seq<Op>)
    ensures |AfterOps(c, ops).bytes| == |c.bytes| + OpsLength(ops)
    decreases |ops|
  {
    if ops != [] {
      OpsLengthIs(c, ops[..|ops| - 1]);
    }
  }

  lemma StepExtends(c: Code, s: Step)
    ensures Extends(c, AfterStep(c, s)) && AfterStep(c, s).tables.pcLocs == c.tables.pcLocs
  {
    hide AfterOps, AfterOp, Extends, WithField;
    match s
    case One(op) => OpExtends(c, op);
    case Either(skip, first, join, second) =>
      var c0 := WithField(c, skip, JumpKind, Forward(SecondArm(|c.bytes|, s)));
      var c1 := AfterOps(c0, first);
      var c2 := WithField(c1, join, JumpKind, Forward(Joined(|c.bytes|, s)));
      FieldExtends(c, skip, JumpKind, Forward(SecondArm(|c.bytes|, s)));
      OpsExtend(c0, first);
      FieldExtends(c1, join, JumpKind, Forward(Joined(|c.bytes|, s)));
      OpsExtend(c2, second);
      ExtendsBoth(c, c0, c1);
      ExtendsBoth(c, c1, c2);
      ExtendsBoth(c, c2, AfterOps(c2, second));
  }

  lemma {:induction false} StepsExtend(c: Code, steps: seq<Step>, k: nat)
    requires k <= |steps|
    ensures Extends(AfterSteps(c, steps[..k]), AfterSteps(c, steps))
    ensures AfterSteps(c, steps).tables.pcLocs == c.tables.pcLocs
    decreases |steps|, k
  {
    hide AfterStep, Extends;
    if steps != [] {
      var most := steps[..|steps| - 1];
      StepsExtend(c, most, if k < |steps| then k else 0);
      StepExtends(AfterSteps(c, most), steps[|steps| - 1]);
      if k < |steps| {
        assert most[..k] == steps[..k];
        ExtendsBoth(AfterSteps(c, steps[..k]), AfterSteps(c, most), AfterSteps(c, steps));
      }
    }
    if k == |steps| {
      assert steps[..k] == steps;
      SameExtends(AfterSteps(c, steps));
    }
  }

  lemma AllStepsExtend(c: Code, steps: seq<Step>)
    ensures Extends(c, AfterSteps(c, steps)) && AfterSteps(c, steps).tables.pcLocs == c.tables.pcLocs
  {
    hide Extends, AfterStep;
    assert steps[..0] == [];
    StepsExtend(c, steps, 0);
  }

  lemma SlotExtends(c: Code, i: nat, p: Plan)
    ensures Extends(c, AfterSlot(c, i, p))
    ensures var t, t' := c.tables.pcLocs, AfterSlot(c, i, p).tables.pcLocs;
      |t'| == |t| && forall j :: 0 <= j < |t| && j != i ==> t'[j] == t[j]
  {
    hide Extends, AfterStep;
    match p
    case SecondHalf => SameExtends(c);
    case Slot(entry, bypass, usage, steps) =>
      var d := AfterStart(c, i, entry, bypass, usage);
      StartExtends(c, i, entry, bypass, usage);
      AllStepsExtend(d, steps);
      ExtendsBoth(c, d, AfterSteps(d, steps));
  }

  lemma {:induction false} SlotsExtend(c: Code, plan: seq<Plan>, i: nat, n: nat)
    requires i <= n <= |plan|
    ensures Extends(AfterSlots(c, plan, i), AfterSlots(c, plan, n))
    ensures var t, t' := AfterSlots(c, plan, i).tables.pcLocs, AfterSlots(c, plan, n).tables.pcLocs;
      |t'| == |t| && forall j :: 0 <= j < i && j < |t| ==> t'[j] == t[j]
    decreases n
  {
    hide Extends, AfterSlot;
    if i == n {
      SameExtends(AfterSlots(c, plan, i));
    } else {
      SlotsExtend(c, plan, i, n - 1);
      SlotExtends(AfterSlots(c, plan, n - 1), n - 1, plan[n - 1]);
      ExtendsBoth(AfterSlots(c, plan, i), AfterSlots(c, plan, n - 1), AfterSlots(c, plan, n));
    }
  }

  /** What fits later fitted before. */
  lemma RoomBefore(c: Code, d: Code, size: nat)
    requires Extends(c, d) && RoomFor(d, size)
    ensures RoomFor(c, size)
  {
    assert forall kind: Kind :: |TableOf(c.tables, kind)| <= |TableOf(d.tables, kind)|;
    assert TableOf(c.tables, JumpKind) == c.tables.jumps && TableOf(c.tables, CallKind) == c.tables.calls;
    assert TableOf(c.tables, LoadKind) == c.tables.loads && TableOf(c.tables, LeaKind) == c.tables.leas;
  }

  /** The tail: what its parts keep, its length and its two fields. */
  lemma TailExtends(c: Code, tail: Tail)
    ensures Extends(c, AfterTail(c, tail)) && AfterTail(c, tail).tables.pcLocs == c.tables.pcLocs
    ensures |AfterTail(c, tail).bytes| == |c.bytes| + TailLength(tail)
    ensures |AfterTail(c, tail).tables.jumps| == |c.tables.jumps| + 2
  {
    hide Flat;
  }

  function TailLength(tail: Tail): nat { |Flat(tail.epilogue)| + 17 + |tail.dispatcher| + |tail.helpers| }

  /** The buffer holds the code, as emitted outside its fields. */
  ghost predicate Holds(b: seq<u8>, c: Code)
  {
    |c.bytes| <= |b| && forall k: nat :: k < |c.bytes| && Plain(c.tables, k) ==> b[k] == c.bytes[k]
  }

  lemma ResolvedHolds(t: Tables, b: seq<u8>, size: nat)
    requires Resolvable(t) && Disjoint(t, |b|) && size <= |b|
    ensures AllFit(AllFixes(t), |b|) && Holds(PatchAll(b, AllFixes(t)), Code(t, b[..size]))
  {
    hide Disjoint, Plain, AllFixes, PatchAll, Resolvable, AllFit;
    AllFixesApart(t, |b|);
    forall k: nat | k < size && Plain(t, k)
      ensures PatchAll(b, AllFixes(t))[k] == b[k]
    {
      ResolvedKeepsPlain(t, b, k);
    }
  }

  lemma RoomInTail(c: Code, tail: Tail, size: nat)
    ensures var c1 := WithBytes(Marked(c, ToExit), Flat(tail.epilogue));
      var c2 := AfterRetpoline(Marked(c1, ToRetpoline));
      var c3 := WithBytes(Marked(c2, ToDispatcher), tail.dispatcher);
      RoomFor(AfterTail(c, tail), size) ==> RoomFor(c, size) && RoomFor(c1, size) && RoomFor(c2, size) && RoomFor(c3, size)
  {
    hide Flat;
  }

  lemma RoomInSlots(c: Code, plan: seq<Plan>, i: nat, size: nat)
    requires i <= |plan|
    ensures RoomFor(AfterSlots(c, plan, |plan|), size) ==> RoomFor(AfterSlots(c, plan, i), size)
  {
    hide AfterSlots, RoomFor, Extends;
    SlotsExtend(c, plan, i, |plan|);
    if RoomFor(AfterSlots(c, plan, |plan|), size) {
      RoomBefore(AfterSlots(c, plan, i), AfterSlots(c, plan, |plan|), size);
    }
  }

  lemma NotYetEntry(plan: seq<Plan>, i: nat, entries: map<nat, u16>)
    requires EntriesFollow(plan, i, entries)
    ensures i !in entries
  {
  }

  lemma ExtendsJumps(c: Code, d: Code)
    requires Extends(c, d)
    ensures c.tables.jumps <= d.tables.jumps
  {
    assert TableOf(c.tables, JumpKind) <= TableOf(d.tables, JumpKind);
  }

  lemma StartShaped(c: Code, i: nat, entry: bool, bypass: bool, usage: u16)
    requires Shaped(c.tables) && (bypass ==> entry)
    ensures Shaped(AfterStart(c, i, entry, bypass, usage).tables)
  {
    hide Shaped, Prologue;
    var d := AfterStart(c, i, entry, bypass, usage).tables;
    if bypass {
      var e := Entry(|c.bytes| + 1, Regular(0, |c.bytes| + 5 + PROLOGUE_SIZE, true));
      ShapedAppend(c.tables, JumpKind, e);
      ShapedSame(Append(c.tables, JumpKind, e), d);
    } else {
      ShapedSame(c.tables, d);
    }
  }

  // ---------------------------------------------------------------- jumps aimed later

  /** The `n`th jump given a target. */
  function Aim(c: Code, n: nat, jit: nat): Code
    requires n < |c.tables.jumps|
  {
    c.(tables := c.tables.(jumps := c.tables.jumps[n := c.tables.jumps[n].(target := Forward(jit))]))
  }

  lemma AimSize(c: Code, n: nat, jit: nat, size: nat)
    requires n < |c.tables.jumps|
    ensures RoomFor(Aim(c, n, jit), size) == RoomFor(c, size) && Aim(c, n, jit).bytes == c.bytes
  {
  }

  /** Emission does not look at earlier targets. */
  lemma OpAim(c: Code, n: nat, jit: nat, op: Op)
    requires n < |c.tables.jumps|
    ensures n < |AfterOp(c, op).tables.jumps| && AfterOp(Aim(c, n, jit), op) == Aim(AfterOp(c, op), n, jit)
  {
  }

  lemma {:induction false} OpsAim(c: Code, n: nat, jit: nat, ops: seq<Op>)
    requires n < |c.tables.jumps|
    ensures n < |AfterOps(c, ops).tables.jumps| && AfterOps(Aim(c, n, jit), ops) == Aim(AfterOps(c, ops), n, jit)
    decreases |ops|
  {
    hide AfterOp, Aim;
    if ops != [] {
      var most := ops[..|ops| - 1];
      OpsAim(c, n, jit, most);
      OpAim(AfterOps(c, most), n, jit, ops[|ops| - 1]);
    }
  }

  function Unset(c: Code, opcode: seq<u8>): Code { WithField(c, opcode, JumpKind, Forward(0)) }

  lemma FieldAim(c: Code, opcode: seq<u8>, jit: nat)
    ensures |Unset(c, opcode).tables.jumps| == |c.tables.jumps| + 1
    ensures WithField(c, opcode, JumpKind, Forward(jit)) == Aim(Unset(c, opcode), |c.tables.jumps|, jit)
  {
  }

  lemma UnsetAim(c: Code, opcode: seq<u8>, n: nat, jit: nat)
    requires n < |c.tables.jumps|
    ensures n < |Unset(c, opcode).tables.jumps| && Unset(Aim(c, n, jit), opcode) == Aim(Unset(c, opcode), n, jit)
  {
  }

  /** A choice in the order of its emission: both jumps are aimed once the code they go to begins. */
  function FirstArmOut(c: Code, s: Step): Code
    requires s.Either?
  {
    Unset(AfterOps(Unset(c, s.skip), s.first), s.join)
  }

  lemma FirstArmJumps(c: Code, s: Step)
    requires s.Either?
    ensures var n1 := |AfterOps(Unset(c, s.skip), s.first).tables.jumps|;
      |c.tables.jumps| < n1 && |FirstArmOut(c, s).tables.jumps| == n1 + 1
  {
    hide AfterOps, Extends;
    FieldAim(c, s.skip, 0);
    OpsExtend(Unset(c, s.skip), s.first);
    ExtendsJumps(Unset(c, s.skip), AfterOps(Unset(c, s.skip), s.first));
  }

  function SecondArmOut(c: Code, s: Step): (r: Code)
    requires s.Either?
  {
    FirstArmJumps(c, s);
    AfterOps(Aim(FirstArmOut(c, s), |c.tables.jumps|, |FirstArmOut(c, s).bytes|), s.second)
  }

  lemma EitherAimed(c: Code, s: Step)
    requires s.Either?
    ensures var n1, u := |AfterOps(Unset(c, s.skip), s.first).tables.jumps|, SecondArmOut(c, s);
      n1 < |u.tables.jumps| && AfterStep(c, s) == Aim(u, n1, |u.bytes|)
  {
    hide AfterOps, Aim, Extends;
    var n0, u0 := |c.tables.jumps|, Unset(c, s.skip);
    var u1, u2 := AfterOps(u0, s.first), FirstArmOut(c, s);
    var n1, l1, l2 := |u1.tables.jumps|, SecondArm(|c.bytes|, s), Joined(|c.bytes|, s);
    FirstArmJumps(c, s);
    OpsLengthIs(u0, s.first);
    FieldAim(c, s.skip, l1);
    OpsAim(u0, n0, l1, s.first);
    assert AfterOps(WithField(c, s.skip, JumpKind, Forward(l1)), s.first) == Aim(u1, n0, l1);
    AimShape(u1, n0, l1);
    FieldAim(Aim(u1, n0, l1), s.join, l2);
    UnsetAim(u1, s.join, n0, l1);
    assert Unset(Aim(u1, n0, l1), s.join) == Aim(u2, n0, l1);
    AimShape(u2, n0, l1);
    OpsAim(Aim(u2, n0, l1), n1, l2, s.second);
    OpsLengthIs(Aim(u2, n0, l1), s.second);
  }

  lemma AimShape(c: Code, n: nat, jit: nat)
    requires n < |c.tables.jumps|
    ensures |Aim(c, n, jit).tables.jumps| == |c.tables.jumps| && Aim(c, n, jit).bytes == c.bytes
  {
  }

  lemma RoomInEither(c: Code, s: Step, size: nat)
    requires s.Either?
    ensures FirstArmOut(c, s).tables.jumps != [] && |c.tables.jumps| < |FirstArmOut(c, s).tables.jumps|
    ensures RoomFor(AfterStep(c, s), size) == RoomFor(SecondArmOut(c, s), size)
    ensures RoomFor(SecondArmOut(c, s), size) ==> RoomFor(FirstArmOut(c, s), size)
    ensures RoomFor(FirstArmOut(c, s), size) ==> RoomFor(AfterOps(Unset(c, s.skip), s.first), size)
    ensures RoomFor(AfterOps(Unset(c, s.skip), s.first), size) ==> RoomFor(Unset(c, s.skip), size)
  {
    hide AfterOps, Aim, RoomFor, Extends, WithField, AfterStep;
    var u0 := Unset(c, s.skip);
    var u1, u2, u3 := AfterOps(u0, s.first), FirstArmOut(c, s), SecondArmOut(c, s);
    FirstArmJumps(c, s);
    EitherAimed(c, s);
    AimSize(u3, |u1.tables.jumps|, |u3.bytes|, size);
    var a := Aim(u2, |c.tables.jumps|, |u2.bytes|);
    AimSize(u2, |c.tables.jumps|, |u2.bytes|, size);
    OpsExtend(u0, s.first);
    FieldExtends(u1, s.join, JumpKind, Forward(0));
    OpsExtend(a, s.second);
    if RoomFor(u3, size) { RoomBefore(a, u3, size); }
    if RoomFor(u2, size) { RoomBefore(u1, u2, size); }
    if RoomFor(u1, size) { RoomBefore(u0, u1, size); }
  }

  /** The jump over the first arm is still where it was emitted. */
  lemma FirstJumpKept(c: Code, s: Step)
    requires s.Either?
    ensures var n0, js := |c.tables.jumps|, FirstArmOut(c, s).tables.jumps;
      n0 < |js| && js[n0].at == |c.bytes| + |s.skip|
  {
    hide AfterOps, Extends;
    var u0 := Unset(c, s.skip);
    var u1 := AfterOps(u0, s.first);
    OpsExtend(u0, s.first);
    ExtendsJumps(u0, u1);
    FieldExtends(u1, s.join, JumpKind, Forward(0));
    ExtendsJumps(u1, Unset(u1, s.join));
    assert u0.tables.jumps[|c.tables.jumps|].at == |c.bytes| + |s.skip|;
  }

  lemma SecondJumpKept(c: Code, s: Step)
    requires s.Either?
    ensures var u1, js := AfterOps(Unset(c, s.skip), s.first), SecondArmOut(c, s).tables.jumps;
      |u1.tables.jumps| < |js| && js[|u1.tables.jumps|].at == |u1.bytes| + |s.join|
  {
    hide AfterOps, Extends;
    var u1, u2 := AfterOps(Unset(c, s.skip), s.first), FirstArmOut(c, s);
    FirstArmJumps(c, s);
    var a := Aim(u2, |c.tables.jumps|, |u2.bytes|);
    OpsExtend(a, s.second);
    ExtendsJumps(a, AfterOps(a, s.second));
    assert a.tables.jumps[|u1.tables.jumps|].at == |u1.bytes| + |s.join|;
  }

  lemma RetargetShaped(t: Tables, at: nat, jit: nat)
    requires Shaped(t)
    ensures Shaped(t.(jumps := Retarget(t.jumps, at, Forward(jit))))
  {
    hide Retarget;
    var t' := t.(jumps := Retarget(t.jumps, at, Forward(jit)));
    forall kind: Kind, i | 0 <= i < |TableOf(t', kind)|
      ensures EntryOk(kind, TableOf(t', kind)[i])
    {
      assert |TableOf(t, kind)| == |TableOf(t', kind)| && EntryOk(kind, TableOf(t, kind)[i]);
      if kind.JumpKind? {
        RetargetAt(t.jumps, at, Forward(jit), i);
      }
    }
  }

  /** Retargeting the field of one jump aims that jump. */
  lemma RetargetAims(c: Code, n: nat, jit: nat)
    requires n < |c.tables.jumps| && Spaced(c.tables.jumps)
    ensures c.tables.(jumps := Retarget(c.tables.jumps, c.tables.jumps[n].at, Forward(jit))) == Aim(c, n, jit).tables
  {
    hide Retarget, Spaced;
    RetargetChangesOne(c.tables.jumps, n, Forward(jit));
  }

  lemma AimShaped(c: Code, n: nat, jit: nat)
    requires n < |c.tables.jumps| && Shaped(c.tables)
    ensures Shaped(Aim(c, n, jit).tables)
  {
    var t, t' := c.tables, Aim(c, n, jit).tables;
    forall kind: Kind, i | 0 <= i < |TableOf(t', kind)|
      ensures EntryOk(kind, TableOf(t', kind)[i])
    {
      assert |TableOf(t, kind)| == |TableOf(t', kind)| && EntryOk(kind, TableOf(t, kind)[i]);
    }
  }

  /** The retpoline before its call has a target. */
  function Unaimed(c: Code): Code
  {
    var c1 := WithBytes(Unset(c, [0xe8]), [0xf3, 0x90]);
    WithBytes(WithField(c1, [0xe9], JumpKind, Forward(|c.bytes| + 5)), [0x48, 0x89, 0x04, 0x24, 0xc3])
  }

  lemma UnaimedSame(c: Code, size: nat)
    ensures Unaimed(c).bytes == AfterRetpoline(c).bytes && RoomFor(Unaimed(c), size) == RoomFor(AfterRetpoline(c), size)
    ensures RoomFor(Unaimed(c), size) ==> Limited(AfterRetpoline(c).tables)
  {
  }

  lemma RoomInRetpoline(c: Code, size: nat)
    ensures var c1 := Unset(c, [0xe8]);
      var c2 := WithBytes(c1, [0xf3, 0x90]);
      var c3 := WithField(c2, [0xe9], JumpKind, Forward(|c.bytes| + 5));
      RoomFor(Unaimed(c), size) ==> RoomFor(c1, size) && RoomFor(c2, size) && RoomFor(c3, size)
  {
  }

  lemma AimRetpoline(c: Code)
    ensures |c.tables.jumps| < |Unaimed(c).tables.jumps|
    ensures Unaimed(c).tables.jumps[|c.tables.jumps|].at == |c.bytes| + 1
    ensures AfterRetpoline(c) == Aim(Unaimed(c), |c.tables.jumps|, |c.bytes| + 12)
  {
  }

  /** The entry code of slot `i` extends what is known of the slots before it. */
  lemma StartKeeps(plan: seq<Plan>, i: nat, c: Code, entries: map<nat, u16>)
    requires i < |plan| && plan[i].Slot? && (plan[i].bypass ==> plan[i].entry) && i < |c.tables.pcLocs|
    requires EntriesFollow(plan, i, entries) && BypassesFollow(plan, i, c.tables)
    ensures EntriesFollow(plan, i + 1, if plan[i].entry then entries[i := plan[i].usage] else entries)
    ensures BypassesFollow(plan, i + 1, AfterStart(c, i, plan[i].entry, plan[i].bypass, plan[i].usage).tables)
  {
    var p, d := plan[i], AfterStart(c, i, plan[i].entry, plan[i].bypass, plan[i].usage).tables;
    BypassesGrow(plan, i, c.tables, d);
    if p.bypass {
      assert d.jumps[|d.jumps| - 1] == BypassOf(d.pcLocs[i]);
    }
  }

  // ---------------------------------------------------------------- tails that do not fit

  /**
    Success is reported for code that is not complete exactly when the body fits and either the buffer ends before
    the tail does or the jump table has no room for the retpoline's two jumps.
    */
  lemma CutOffExactly(c: Code, setup: seq<Op>, plan: seq<Plan>, tail: Tail, size: nat)
    ensures var body := Body(c, setup, plan);
      RoomFor(body, size) && !RoomFor(Planned(c, setup, plan, tail), size) <==>
      RoomFor(body, size) && (size < |body.bytes| + TailLength(tail) || |body.tables.jumps| > MAX_INSTS - 2)
  {
    hide Body;
    var d := Planned(c, setup, plan, tail).tables;
    TailExtends(Body(c, setup, plan), tail);
    assert d.calls == Body(c, setup, plan).tables.calls && d.loads == Body(c, setup, plan).tables.loads;
    assert d.leas == Body(c, setup, plan).tables.leas;
  }

  /** A program of conditional jumps and an EXIT. */
  function JumpsThenExit(n: nat): seq<Plan>
  {
    seq(n, i requires 0 <= i < n => Slot(i == 0, false, 0, [One(JumpOp([0x0f, 0x85], Regular(i + 1, 0, false)))]))
    + [Slot(n == 0, false, 0, [One(Raw([0x48, 0x81, 0xc4, 8, 0, 0, 0, 0xc3]))])]
  }

  lemma {:induction false} JumpsRecorded(c: Code, n: nat, k: nat)
    requires k <= n
    ensures var t := AfterSlots(c, JumpsThenExit(n), k).tables;
      |t.jumps| == |c.tables.jumps| + k && t.calls == c.tables.calls && t.loads == c.tables.loads && t.leas == c.tables.leas
    decreases k
  {
    if k > 0 {
      JumpsRecorded(c, n, k - 1);
      var d, p := AfterSlots(c, JumpsThenExit(n), k - 1), JumpsThenExit(n)[k - 1];
      var e := AfterStart(d, k - 1, p.entry, p.bypass, p.usage);
      assert p.steps[..0] == [] && AfterSteps(e, []) == e;
      assert AfterSteps(e, p.steps) == AfterStep(e, p.steps[0]);
    }
  }

  /** The setup code of every translation ends in the jump to the exit. */
  function Setup(code: seq<u8>): seq<Op> { [Raw(code), JumpOp([0xe9], SpecialTarget(ToExit))] }

  lemma SetupRecords(code: seq<u8>)
    ensures var t := AfterOps(Code(NoTables(), []), Setup(code)).tables;
      |t.jumps| == 1 && t.calls == [] && t.loads == [] && t.leas == []
  {
    var c, ops := Code(NoTables(), []), Setup(code);
    assert ops[..1] == [Raw(code)] && ops[..1][..0] == [] && AfterOps(c, []) == c;
    assert AfterOps(c, ops[..1]) == AfterOp(c, Raw(code));
    assert AfterOps(c, ops) == AfterOp(AfterOps(c, ops[..1]), ops[1]);
  }

  /**
    With the largest program of jumps the body fits every large enough buffer, and the retpoline fits none of them:
    the tail is cut off whatever the size.
    */
  lemma FullTableCutsOff(code: seq<u8>, tail: Tail, size: nat)
    requires size >= |Body(Code(NoTables(), []), Setup(code), JumpsThenExit(MAX_INSTS - 2)).bytes|
    ensures var plan := JumpsThenExit(MAX_INSTS - 2);
      && |plan| < MAX_INSTS && (forall i :: 0 <= i < |plan| ==> PlanOk(plan[i]))
      && RoomFor(Body(Code(NoTables(), []), Setup(code), plan), size)
      && !RoomFor(Planned(Code(NoTables(), []), Setup(code), plan, tail), size)
  {
    var n := MAX_INSTS - 2;
    var plan, c := JumpsThenExit(n), AfterOps(Code(NoTables(), []), Setup(code));
    SetupRecords(code);
    JumpsRecorded(c, n, n);
    ExitRecordsNothing(AfterSlots(c, plan, n), n, plan[n]);
    hide AfterSlots, AfterOps, AfterSlot;
    AllSlots(c, plan);
    CutOffExactly(Code(NoTables(), []), Setup(code), plan, tail, size);
  }

  lemma AllSlots(c: Code, plan: seq<Plan>)
    requires plan != []
    ensures AfterSlots(c, plan, |plan|) == AfterSlot(AfterSlots(c, plan, |plan| - 1), |plan| - 1, plan[|plan| - 1])
  {
    hide AfterSlot;
  }

  lemma ExitRecordsNothing(c: Code, i: nat, p: Plan)
    requires p == Slot(false, false, 0, [One(Raw([0x48, 0x81, 0xc4, 8, 0, 0, 0, 0xc3]))])
    ensures var t := AfterSlot(c, i, p).tables;
      t.jumps == c.tables.jumps && t.calls == c.tables.calls && t.loads == c.tables.loads && t.leas == c.tables.leas
  {
    var e := AfterStart(c, i, false, false, 0);
    assert p.steps[..0] == [] && AfterSteps(e, []) == e;
    assert AfterSteps(e, p.steps) == AfterStep(e, p.steps[0]);
  }

  /** Tables of a fresh state. */
  function NoTables(): Tables { Tables([], [], [], [], seq(MAX_INSTS + 1, _ => 0), 0, 0, 0, 0, 0) }

  /** Of the retpoline's two jumps, one that the table still takes has no room for its field in the buffer. */
  predicate Overruns(jumps: nat, start: nat, size: nat)
  {
    (jumps < MAX_INSTS && size < start + 5) || (jumps < MAX_INSTS - 1 && size < start + 12)
  }

  /** The old entries are kept, and what was added are far jumps into the code. */
  predicate KeptBut(old_: seq<Entry>, new_: seq<Entry>)
  {
    && |old_| <= |new_| && new_[..|old_|] == old_
    && forall i :: |old_| <= i < |new_| ==> new_[i].target.Regular? && !new_[i].target.near
  }

  predicate AddedFit(old_: seq<Entry>, new_: seq<Entry>, size: nat)
  {
    forall i :: |old_| <= i < |new_| ==> new_[i].at + 4 <= size
  }

  /** The entries the retpoline adds, by where the emission stood. */
  lemma AddedByRetpoline(es: seq<Entry>, js: seq<Entry>, call: nat, loop: nat, pause: nat, start: nat, size: nat)
    requires |es| <= MAX_INSTS
    requires js == es + (if |es| == MAX_INSTS then [] else [Entry(call, Forward(0))])
                   + if |es| >= MAX_INSTS - 1 then [] else [Entry(loop, Forward(pause))]
    requires |es| < MAX_INSTS ==> (call + 4 <= size <==> start + 5 <= size)
    requires |es| < MAX_INSTS - 1 ==> (loop + 4 <= size <==> start + 12 <= size)
    ensures KeptBut(es, js) && (AddedFit(es, js, size) <==> !Overruns(|es|, start, size))
  {
    if |es| < MAX_INSTS {
      assert js[|es|] == Entry(call, Forward(0));
    }
    if |es| < MAX_INSTS - 1 {
      assert js[|es| + 1] == Entry(loop, Forward(pause));
    }
  }

  lemma RetargetAdded(es: seq<Entry>, js: seq<Entry>, at: nat, jit: nat, n: nat, size: nat)
    requires KeptBut(es, js) && Within(es, n) && n <= at
    ensures var rs := Retarget(js, at, Forward(jit)); KeptBut(es, rs) && AddedFit(es, rs, size) == AddedFit(es, js, size)
  {
    var rs := Retarget(js, at, Forward(jit));
    forall i | 0 <= i < |js|
      ensures rs[i] == if js[i].at == at then js[i].(target := Forward(jit)) else js[i]
    {
      RetargetAt(js, at, Forward(jit), i);
    }
    hide Retarget;
    assert forall i :: 0 <= i < |es| ==> js[i] == es[i];
    assert rs[..|es|] == es;
  }

  lemma WithinGrows(es: seq<Entry>, n: nat, m: nat)
    requires Within(es, n) && n <= m
    ensures Within(es, m)
  {
  }

  lemma GoodWithin(t: Tables, b: seq<u8>, entries: map<nat, u16>)
    requires Good(t, b, entries)
    ensures Within(t.jumps, |b|)
  {
    assert Within(TableOf(t, JumpKind), |b|);
  }

  /** What the tail leaves in the tables, whether it fitted or not. */
  predicate TailRecorded(body: Code, t: Tables, tail: Tail, size: nat)
  {
    && Disjoint(body.tables, |body.bytes|) && |body.bytes| <= size
    && t.calls == body.tables.calls && t.loads == body.tables.loads && t.leas == body.tables.leas
    && KeptBut(body.tables.jumps, t.jumps)
    && (AddedFit(body.tables.jumps, t.jumps, size) <==>
        !Overruns(|body.tables.jumps|, |body.bytes| + |Flat(tail.epilogue)|, size))
  }

  lemma TableFitsExactly(t: Tables, kind: Kind, size: nat)
    requires TableResolvable(t, kind)
    ensures AllFit(TableFixes(t, kind), size) <==>
              forall i :: 0 <= i < |TableOf(t, kind)| ==> Fits(FixOf(t, kind, TableOf(t, kind)[i]).value, size)
  {
    hide FixOf, TableOf;
  }

  /** Resolution stays inside the buffer exactly when the retpoline's jumps do. */
  lemma TailFits(body: Code, t: Tables, tail: Tail, size: nat)
    requires TailRecorded(body, t, tail, size) && Resolvable(t)
    ensures AllFit(AllFixes(t), size) <==>
              !Overruns(|body.tables.jumps|, |body.bytes| + |Flat(tail.epilogue)|, size)
  {
    hide Overruns, Flat, AllFixes, TableFixes, AllFit, Spaced, ApartTables;
    AllFitsTables(t, size);
    var es, js := body.tables.jumps, t.jumps;
    assert forall kind: Kind :: Within(TableOf(body.tables, kind), |body.bytes|);
    forall kind: Kind | !kind.JumpKind?
      ensures AllFit(TableFixes(t, kind), size)
    {
      TableFitsExactly(t, kind, size);
      assert TableOf(t, kind) == TableOf(body.tables, kind);
      forall i | 0 <= i < |TableOf(t, kind)|
        ensures Fits(FixOf(t, kind, TableOf(t, kind)[i]).value, size)
      {
        FixShape(t, kind, TableOf(t, kind)[i]);
      }
    }
    assert TableResolvable(t, JumpKind);
    TableFitsExactly(t, JumpKind, size);
    assert Within(TableOf(body.tables, JumpKind), |body.bytes|);
    assert TableOf(t, JumpKind) == js && forall i :: 0 <= i < |js| ==> FixOf(t, JumpKind, js[i]).Some?;
    forall i | 0 <= i < |js|
      ensures i < |es| ==> Fits(FixOf(t, JumpKind, js[i]).value, size)
      ensures i >= |es| ==> (Fits(FixOf(t, JumpKind, js[i]).value, size) <==> js[i].at + 4 <= size)
    {
      FixShape(t, JumpKind, js[i]);
      if i < |es| {
        assert js[i] == js[..|es|][i] == es[i];
      }
    }
    hide FixOf, TableOf;
    assert AddedFit(es, js, size) <==> AllFit(TableFixes(t, JumpKind), size);
  }
}
