/** What linked code does with a plan: every operation of every slot reaches the target the plan gives it. */
module EmissionPlan {
  import opened Words
  import opened Relocation
  import opened JitEmission
  import opened JitPlan

  /** The code up to slot `i`. */
  function UpTo(c: Code, setup: seq<Op>, plan: seq<Plan>, i: nat): Code
    requires i <= |plan|
  {
    AfterSlots(AfterOps(c, setup), plan, i)
  }

  /** The code up to step `k` of slot `i`. */
  function UpToStep(c: Code, setup: seq<Op>, plan: seq<Plan>, i: nat, k: nat): Code
    requires i < |plan| && plan[i].Slot? && k <= |plan[i].steps|
  {
    AfterSteps(AfterStart(UpTo(c, setup, plan, i), i, plan[i].entry, plan[i].bypass, plan[i].usage), plan[i].steps[..k])
  }

  // ---------------------------------------------------------------- nothing recorded is lost

  lemma PlannedExtends(c: Code, setup: seq<Op>, plan: seq<Plan>, tail: Tail, i: nat)
    requires i <= |plan|
    ensures Extends(UpTo(c, setup, plan, i), Planned(c, setup, plan, tail))
    ensures var t, t' := UpTo(c, setup, plan, i).tables.pcLocs, Planned(c, setup, plan, tail).tables.pcLocs;
      |t'| == |t| && forall j :: 0 <= j < i && j < |t| ==> t'[j] == t[j]
  {
    hide Extends, AfterSlots, AfterOps, AfterTail;
    var all := UpTo(c, setup, plan, |plan|);
    SlotsExtend(AfterOps(c, setup), plan, i, |plan|);
    TailExtends(all, tail);
    ExtendsBoth(UpTo(c, setup, plan, i), all, Planned(c, setup, plan, tail));
  }

  /** The code of one slot, up to each of its steps, is kept in the whole. */
  lemma StepKept(c: Code, setup: seq<Op>, plan: seq<Plan>, tail: Tail, i: nat, k: nat)
    requires i < |plan| && plan[i].Slot? && k <= |plan[i].steps|
    ensures Extends(UpToStep(c, setup, plan, i, k), Planned(c, setup, plan, tail))
  {
    hide Extends, AfterSteps, Planned, AfterStart;
    var p := plan[i];
    var start := AfterStart(UpTo(c, setup, plan, i), i, p.entry, p.bypass, p.usage);
    StepsExtend(start, p.steps, k);
    PlannedExtends(c, setup, plan, tail, i + 1);
    assert UpTo(c, setup, plan, i + 1) == AfterSteps(start, p.steps);
    ExtendsBoth(UpToStep(c, setup, plan, i, k), UpTo(c, setup, plan, i + 1), Planned(c, setup, plan, tail));
  }

  lemma NextStep(c: Code, setup: seq<Op>, plan: seq<Plan>, i: nat, k: nat)
    requires i < |plan| && plan[i].Slot? && k < |plan[i].steps|
    ensures UpToStep(c, setup, plan, i, k + 1) == AfterStep(UpToStep(c, setup, plan, i, k), plan[i].steps[k])
  {
    hide AfterStep, AfterStart, AfterSlots;
    var steps := plan[i].steps;
    assert steps[..k + 1][..k] == steps[..k] && steps[..k + 1][k] == steps[k];
  }

  // ---------------------------------------------------------------- nothing emitted is lost

  /** All fields lie in the code. */
  ghost predicate Inside(c: Code)
  {
    forall kind: Kind, i :: 0 <= i < |TableOf(c.tables, kind)| ==> TableOf(c.tables, kind)[i].at + 4 <= |c.bytes|
  }

  lemma InsideExtends(c: Code, d: Code)
    requires Inside(c) && Extends(c, d)
    ensures Inside(d)
  {
    hide TableOf;
    forall kind: Kind, i | 0 <= i < |TableOf(d.tables, kind)|
      ensures TableOf(d.tables, kind)[i].at + 4 <= |d.bytes|
    {
      if i < |TableOf(c.tables, kind)| {
        assert TableOf(d.tables, kind)[i] == TableOf(c.tables, kind)[i];
      }
    }
  }

  /** Bytes emitted behind `c`, with `e` the code up to their end, are in the finished code as emitted. */
  lemma BytesStay(c: Code, e: Code, w: Code, b: seq<u8>)
    requires Inside(c) && c.bytes <= e.bytes && Extends(e, w) && Holds(b, w)
    requires forall kind: Kind :: TableOf(e.tables, kind) == TableOf(c.tables, kind)
    ensures |e.bytes| <= |b| && b[|c.bytes|..|e.bytes|] == e.bytes[|c.bytes|..]
  {
    hide TableOf;
    forall k: nat | |c.bytes| <= k < |e.bytes|
      ensures b[k] == e.bytes[k]
    {
      forall kind: Kind, i | 0 <= i < |TableOf(w.tables, kind)|
        ensures !(TableOf(w.tables, kind)[i].at <= k < TableOf(w.tables, kind)[i].at + 4)
      {
        if i < |TableOf(e.tables, kind)| {
          assert TableOf(w.tables, kind)[i] == TableOf(c.tables, kind)[i];
        }
      }
      assert Plain(w.tables, k);
    }
  }

  /** The opcode in front of a field. */
  lemma OpcodeStays(c: Code, opcode: seq<u8>, kind: Kind, target: Target, w: Code, b: seq<u8>)
    requires Inside(c) && Extends(WithField(c, opcode, kind, target), w) && Holds(b, w)
    ensures |c.bytes| + |opcode| + 4 <= |b| && b[|c.bytes|..|c.bytes| + |opcode|] == opcode
  {
    var d, n := WithField(c, opcode, kind, target), |c.bytes|;
    var e := Entry(n + |opcode|, target);
    assert d.bytes[n..n + |opcode|] == opcode;
    forall k: nat | n <= k < n + |opcode|
      ensures b[k] == d.bytes[k]
    {
      forall l: Kind, i | 0 <= i < |TableOf(w.tables, l)|
        ensures !(TableOf(w.tables, l)[i].at <= k < TableOf(w.tables, l)[i].at + 4)
      {
        AppendTable(c.tables, kind, e, l);
        hide TableOf, Append;
        if i < |TableOf(c.tables, l)| {
          assert TableOf(w.tables, l)[i] == TableOf(d.tables, l)[i] == TableOf(c.tables, l)[i];
        } else if i < |TableOf(d.tables, l)| {
          assert TableOf(w.tables, l)[i] == TableOf(d.tables, l)[i] == e;
        }
      }
      assert Plain(w.tables, k);
    }
    assert b[n..n + |opcode|] == d.bytes[n..n + |opcode|];
  }

  /** What an operation emits besides its field. */
  function FixedBytes(op: Op): (r: seq<u8>)
    ensures |r| <= OpLength(op)
  {
    match op
    case Raw(bytes) => bytes
    case CallOp(_) => [0xe8]
    case JumpOp(opcode, _) => opcode
    case LoadOp(opcode) => opcode
    case LeaOp(opcode) => opcode
  }

  /** The operation is in the code at `at`. */
  predicate OpAt(b: seq<u8>, at: nat, op: Op)
  {
    at + OpLength(op) <= |b| && b[at..at + |FixedBytes(op)|] == FixedBytes(op)
  }

  lemma OpStays(c: Code, op: Op, w: Code, b: seq<u8>)
    requires Inside(c) && Extends(AfterOp(c, op), w) && Holds(b, w)
    ensures OpAt(b, |c.bytes|, op)
  {
    hide Inside, Extends, Holds;
    match op
    case Raw(bytes) => BytesStay(c, WithBytes(c, bytes), w, b);
    case CallOp(slot) => OpcodeStays(c, [0xe8], CallKind, Regular(slot, 0, false), w, b);
    case JumpOp(opcode, target) => OpcodeStays(c, opcode, JumpKind, target, w, b);
    case LoadOp(opcode) => OpcodeStays(c, opcode, LoadKind, SpecialTarget(ToDispatcher), w, b);
    case LeaOp(opcode) => OpcodeStays(c, opcode, LeaKind, SpecialTarget(ToHelperTable), w, b);
  }

  /** The operations of a sequence, each where it was emitted. */
  lemma {:induction false} OpsStay(c: Code, ops: seq<Op>, k: nat, w: Code, b: seq<u8>)
    requires Inside(c) && k < |ops| && Extends(AfterOps(c, ops), w) && Holds(b, w)
    ensures OpAt(b, |c.bytes| + OpsLength(ops[..k]), ops[k])
    decreases |ops|
  {
    hide Inside, Extends, Holds, AfterOp, OpAt;
    var most := ops[..|ops| - 1];
    var d := AfterOps(c, most);
    OpsExtend(c, most);
    InsideExtends(c, d);
    if k == |ops| - 1 {
      OpsLengthIs(c, most);
      OpStays(d, ops[k], w, b);
    } else {
      OpExtends(d, ops[|ops| - 1]);
      ExtendsBoth(d, AfterOps(c, ops), w);
      assert most[..k] == ops[..k];
      OpsStay(c, most, k, w, b);
    }
  }

  lemma {:induction false} InsideUpTo(c: Code, setup: seq<Op>, plan: seq<Plan>, i: nat)
    requires Inside(c) && i <= |plan|
    ensures Inside(UpTo(c, setup, plan, i))
  {
    hide Inside, Extends, AfterSlot, AfterOps;
    OpsExtend(c, setup);
    InsideExtends(c, AfterOps(c, setup));
    SlotsExtend(AfterOps(c, setup), plan, 0, i);
    assert AfterSlots(AfterOps(c, setup), plan, 0) == AfterOps(c, setup);
    InsideExtends(AfterOps(c, setup), UpTo(c, setup, plan, i));
  }

  lemma InsideStep(c: Code, setup: seq<Op>, plan: seq<Plan>, i: nat, k: nat)
    requires Inside(c) && i < |plan| && plan[i].Slot? && k <= |plan[i].steps|
    ensures Inside(UpToStep(c, setup, plan, i, k))
  {
    hide Inside, Extends, UpTo, AfterStart, AfterStep;
    var p, before := plan[i], UpTo(c, setup, plan, i);
    var start := AfterStart(before, i, p.entry, p.bypass, p.usage);
    InsideUpTo(c, setup, plan, i);
    StartExtends(before, i, p.entry, p.bypass, p.usage);
    InsideExtends(before, start);
    AllStepsExtend(start, p.steps[..k]);
    InsideExtends(start, UpToStep(c, setup, plan, i, k));
  }

  /** Step `k` of slot `i`, if it is a single operation, is in the finished code where it was emitted. */
  lemma StepStays(c: Code, setup: seq<Op>, plan: seq<Plan>, tail: Tail, i: nat, k: nat, b: seq<u8>)
    requires Inside(c) && i < |plan| && plan[i].Slot? && k < |plan[i].steps| && plan[i].steps[k].One?
    requires Holds(b, Planned(c, setup, plan, tail))
    ensures OpAt(b, |UpToStep(c, setup, plan, i, k).bytes|, plan[i].steps[k].op)
  {
    hide Inside, Extends, Holds, UpToStep, Planned, OpAt, AfterOp;
    InsideStep(c, setup, plan, i, k);
    NextStep(c, setup, plan, i, k);
    StepKept(c, setup, plan, tail, i, k + 1);
    OpStays(UpToStep(c, setup, plan, i, k), plan[i].steps[k].op, Planned(c, setup, plan, tail), b);
  }

  /** The jump around slot `i`'s prologue is in front of it and reaches the slot's own code. */
  lemma BypassStays(c: Code, setup: seq<Op>, plan: seq<Plan>, tail: Tail, i: nat, b: seq<u8>, entries: map<nat, u16>)
    requires Inside(c) && i < |plan| && plan[i].Slot? && plan[i].bypass
    requires var w := Planned(c, setup, plan, tail); Linked(w.tables, b, entries) && Holds(b, w)
    ensures var n := |UpTo(c, setup, plan, i).bytes|;
      && n + 5 <= |b| && b[n] == 0xeb && LandsNear(b, n + 1) == |UpToStep(c, setup, plan, i, 0).bytes|
      && |UpToStep(c, setup, plan, i, 0).bytes| == n + 5 + if plan[i].entry then PROLOGUE_SIZE else 0
  {
    hide Inside, Extends, Holds, Planned, UpTo, LandsNear, TableOf;
    var p, before, w := plan[i], UpTo(c, setup, plan, i), Planned(c, setup, plan, tail);
    var start := UpToStep(c, setup, plan, i, 0);
    assert p.steps[..0] == [] && start == AfterStart(before, i, p.entry, p.bypass, p.usage);
    var e := Entry(|before.bytes| + 1, Regular(0, |start.bytes|, true));
    InsideUpTo(c, setup, plan, i);
    StepKept(c, setup, plan, tail, i, 0);
    StartField(before, i, p.entry, p.usage);
    ExtendsBoth(WithField(before, [0xeb], JumpKind, e.target), start, w);
    OpcodeStays(before, [0xeb], JumpKind, e.target, w, b);
    assert b[|before.bytes|] == b[|before.bytes|..|before.bytes| + 1][0];
    assert e in TableOf(start.tables, JumpKind);
    KeptEntry(start, w, JumpKind, e);
    assert e.at + 4 <= |b| && Reaches(w.tables, b, JumpKind, e);
  }

  lemma StartField(c: Code, i: nat, entry: bool, usage: u16)
    ensures var d := AfterStart(c, i, entry, true, usage);
      var e := Entry(|c.bytes| + 1, Regular(0, |d.bytes|, true));
      Extends(WithField(c, [0xeb], JumpKind, e.target), d) && e in TableOf(d.tables, JumpKind)
  {
    hide Prologue;
    var d := AfterStart(c, i, entry, true, usage);
    assert d.tables.jumps[|c.tables.jumps|] == Entry(|c.bytes| + 1, Regular(0, |d.bytes|, true));
  }

  lemma KeptEntry(c: Code, d: Code, kind: Kind, e: Entry)
    requires Extends(c, d) && e in TableOf(c.tables, kind)
    ensures e in TableOf(d.tables, kind)
  {
    hide TableOf;
    assert TableOf(c.tables, kind) <= TableOf(d.tables, kind);
  }

  /** The two opcodes of a choice and the operations of its arms. */
  lemma ChoiceStays(c: Code, s: Step, w: Code, b: seq<u8>)
    requires Inside(c) && s.Either? && Extends(AfterStep(c, s), w) && Holds(b, w)
    ensures var n, l := |c.bytes|, SecondArm(|c.bytes|, s);
      && l + OpsLength(s.second) <= |b|
      && b[n..n + |s.skip|] == s.skip && b[l - 4 - |s.join|..l - 4] == s.join
      && (forall k :: 0 <= k < |s.first| ==> OpAt(b, n + |s.skip| + 4 + OpsLength(s.first[..k]), s.first[k]))
      && (forall k :: 0 <= k < |s.second| ==> OpAt(b, l + OpsLength(s.second[..k]), s.second[k]))
  {
    hide Inside, Extends, Holds, AfterOps, OpAt, OpsLength, WithField;
    var n, l := |c.bytes|, SecondArm(|c.bytes|, s);
    var c0 := WithField(c, s.skip, JumpKind, Forward(l));
    var c1 := AfterOps(c0, s.first);
    var c2 := WithField(c1, s.join, JumpKind, Forward(Joined(n, s)));
    var c3 := AfterOps(c2, s.second);
    FieldExtends(c, s.skip, JumpKind, Forward(l));
    OpsExtend(c0, s.first);
    FieldExtends(c1, s.join, JumpKind, Forward(Joined(n, s)));
    OpsExtend(c2, s.second);
    OpsLengthIs(c0, s.first);
    OpsLengthIs(c2, s.second);
    ExtendsBoth(c2, c3, w);
    ExtendsBoth(c1, c2, w);
    ExtendsBoth(c0, c1, w);
    InsideExtends(c, c0);
    InsideExtends(c0, c1);
    InsideExtends(c1, c2);
    HoldsAll(c3, w, b);
    OpcodeStays(c, s.skip, JumpKind, Forward(l), w, b);
    OpcodeStays(c1, s.join, JumpKind, Forward(Joined(n, s)), w, b);
    forall k | 0 <= k < |s.first|
      ensures OpAt(b, n + |s.skip| + 4 + OpsLength(s.first[..k]), s.first[k])
    {
      OpsStay(c0, s.first, k, w, b);
    }
    forall k | 0 <= k < |s.second|
      ensures OpAt(b, l + OpsLength(s.second[..k]), s.second[k])
    {
      OpsStay(c2, s.second, k, w, b);
    }
  }

  /** Step `k` of slot `i`, if it is a choice. */
  lemma ChoiceAt(c: Code, setup: seq<Op>, plan: seq<Plan>, tail: Tail, i: nat, k: nat, b: seq<u8>)
    requires Inside(c) && i < |plan| && plan[i].Slot? && k < |plan[i].steps| && plan[i].steps[k].Either?
    requires Holds(b, Planned(c, setup, plan, tail))
    ensures var n, s := |UpToStep(c, setup, plan, i, k).bytes|, plan[i].steps[k];
      var l := SecondArm(n, s);
      && l + OpsLength(s.second) <= |b|
      && b[n..n + |s.skip|] == s.skip && b[l - 4 - |s.join|..l - 4] == s.join
      && (forall k :: 0 <= k < |s.first| ==> OpAt(b, n + |s.skip| + 4 + OpsLength(s.first[..k]), s.first[k]))
      && (forall k :: 0 <= k < |s.second| ==> OpAt(b, l + OpsLength(s.second[..k]), s.second[k]))
  {
    hide Inside, Extends, Holds, UpToStep, Planned, OpAt, AfterStep, OpsLength;
    InsideStep(c, setup, plan, i, k);
    NextStep(c, setup, plan, i, k);
    StepKept(c, setup, plan, tail, i, k + 1);
    ChoiceStays(UpToStep(c, setup, plan, i, k), plan[i].steps[k], Planned(c, setup, plan, tail), b);
  }

  /** The retpoline's call and its return, the dispatcher's address and the helper table are in the finished code. */
  lemma TailStays(c: Code, tail: Tail, b: seq<u8>)
    requires Inside(c) && Holds(b, AfterTail(c, tail))
    ensures var t := AfterTail(c, tail).tables; var r, d, h := t.retpolineLoc, t.dispatcherLoc, t.helperLoc;
      && d == r + 17 && h == d + |tail.dispatcher| && h + |tail.helpers| <= |b|
      && b[r] == 0xe8 && b[r + 12..d] == [0x48, 0x89, 0x04, 0x24, 0xc3]
      && b[d..h] == tail.dispatcher && b[h..h + |tail.helpers|] == tail.helpers
  {
    hide Inside, Extends, Holds, Flat, WithField;
    TailLocations(c, tail);
    var w, n := AfterTail(c, tail), |c.bytes| + |Flat(tail.epilogue)|;
    var c1 := Marked(WithBytes(Marked(c, ToExit), Flat(tail.epilogue)), ToRetpoline);
    var c2 := WithField(c1, [0xe8], JumpKind, Forward(n + 12));
    var c3 := WithBytes(c2, [0xf3, 0x90]);
    var c4 := WithField(c3, [0xe9], JumpKind, Forward(n + 5));
    var c5 := WithBytes(c4, [0x48, 0x89, 0x04, 0x24, 0xc3]);
    var c6 := WithBytes(Marked(c5, ToDispatcher), tail.dispatcher);
    assert w == WithBytes(Marked(c6, ToHelperTable), tail.helpers);
    SameFields(c, c1);
    FieldExtends(c1, [0xe8], JumpKind, Forward(n + 12));
    SameFields(c2, c3);
    FieldExtends(c3, [0xe9], JumpKind, Forward(n + 5));
    SameFields(c4, c5);
    SameFields(c5, c6);
    SameFields(c6, w);
    InsideExtends(c, c1);
    InsideExtends(c1, c2);
    InsideExtends(c2, c3);
    InsideExtends(c3, c4);
    InsideExtends(c4, c5);
    InsideExtends(c5, c6);
    ExtendsBoth(c5, c6, w);
    ExtendsBoth(c4, c5, w);
    ExtendsBoth(c3, c4, w);
    ExtendsBoth(c2, c3, w);
    OpcodeStays(c1, [0xe8], JumpKind, Forward(n + 12), w, b);
    assert b[|c1.bytes|] == b[|c1.bytes|..|c1.bytes| + 1][0];
    BytesStay(c4, c5, w, b);
    BytesStay(c5, c6, w, b);
    SameFields(w, w);
    BytesStay(c6, w, w, b);
  }

  lemma TailLocations(c: Code, tail: Tail)
    ensures var t, n := AfterTail(c, tail).tables, |c.bytes| + |Flat(tail.epilogue)|;
      t.retpolineLoc == n && t.dispatcherLoc == n + 17 && t.helperLoc == n + 17 + |tail.dispatcher|
  {
    hide Flat;
  }

  lemma SameFields(c: Code, d: Code)
    requires c.bytes <= d.bytes && c.tables.jumps == d.tables.jumps && c.tables.calls == d.tables.calls
    requires c.tables.loads == d.tables.loads && c.tables.leas == d.tables.leas
    ensures Extends(c, d) && forall kind: Kind :: TableOf(d.tables, kind) == TableOf(c.tables, kind)
  {
  }

  lemma HoldsAll(c: Code, w: Code, b: seq<u8>)
    requires Extends(c, w) && Holds(b, w)
    ensures |c.bytes| <= |b|
  {
  }

  // ---------------------------------------------------------------- where slots end up

  /** A slot's recorded location is the end of its entry code. */
  lemma SlotLocated(c: Code, setup: seq<Op>, plan: seq<Plan>, tail: Tail, i: nat)
    requires i < |plan| && plan[i].Slot? && |plan| <= |c.tables.pcLocs|
    ensures var locs := Planned(c, setup, plan, tail).tables.pcLocs;
      |locs| == |c.tables.pcLocs| && locs[i] == |UpToStep(c, setup, plan, i, 0).bytes|
  {
    hide Extends, AfterStep, Planned, AfterSlots;
    var p, before := plan[i], UpTo(c, setup, plan, i);
    var start := AfterStart(before, i, p.entry, p.bypass, p.usage);
    OpsExtend(c, setup);
    UpToLocations(AfterOps(c, setup), plan, i);
    AllStepsExtend(start, p.steps);
    assert p.steps[..0] == [];
    UpToNext(c, setup, plan, i);
    PlannedExtends(c, setup, plan, tail, i + 1);
  }

  lemma UpToNext(c: Code, setup: seq<Op>, plan: seq<Plan>, i: nat)
    requires i < |plan|
    ensures UpTo(c, setup, plan, i + 1) == AfterSlot(UpTo(c, setup, plan, i), i, plan[i])
  {
    hide AfterSlot, AfterOps;
  }

  lemma UpToLocations(c: Code, plan: seq<Plan>, i: nat)
    requires i <= |plan|
    ensures |AfterSlots(c, plan, i).tables.pcLocs| == |c.tables.pcLocs|
  {
    hide AfterSlot, Extends;
    SlotsExtend(c, plan, 0, i);
  }

  // ---------------------------------------------------------------- the fields of a step

  /** The field an operation emitted at `n` puts in the code: its table, its position and what it is to reach. */
  function OpFields(n: nat, op: Op): seq<(Kind, Entry)>
  {
    match op
    case Raw(_) => []
    case JumpOp(opcode, target) => [(JumpKind, Entry(n + |opcode|, target))]
    case CallOp(slot) => [(CallKind, Entry(n + 1, Regular(slot, 0, false)))]
    case LoadOp(opcode) => [(LoadKind, Entry(n + |opcode|, SpecialTarget(ToDispatcher)))]
    case LeaOp(opcode) => [(LeaKind, Entry(n + |opcode|, SpecialTarget(ToHelperTable)))]
  }

  function OpsFields(n: nat, ops: seq<Op>): seq<(Kind, Entry)>
  {
    if ops == [] then []
    else
      var most := ops[..|ops| - 1];
      OpsFields(n, most) + OpFields(n + OpsLength(most), ops[|ops| - 1])
  }

  /** All fields of a step; in a choice the first jump goes to the second arm and the other one past it. */
  function StepFields(n: nat, s: Step): seq<(Kind, Entry)>
  {
    match s
    case One(op) => OpFields(n, op)
    case Either(skip, first, join, second) =>
      [(JumpKind, Entry(n + |skip|, Forward(SecondArm(n, s))))] + OpsFields(n + |skip| + 4, first) +
      [(JumpKind, Entry(SecondArm(n, s) - 4, Forward(Joined(n, s))))] + OpsFields(SecondArm(n, s), second)
  }

  /** A step's entries are recorded, each in its table, and no others are. */
  ghost predicate Adds(c: Code, d: Code, fields: seq<(Kind, Entry)>)
  {
    forall kind: Kind, e: Entry :: e in TableOf(d.tables, kind) <==> e in TableOf(c.tables, kind) || (kind, e) in fields
  }

  lemma AddsBoth(c: Code, d: Code, e: Code, f: seq<(Kind, Entry)>, g: seq<(Kind, Entry)>)
    requires Adds(c, d, f) && Adds(d, e, g)
    ensures Adds(c, e, f + g)
  {
    hide TableOf;
  }

  lemma FieldAdds(c: Code, opcode: seq<u8>, kind: Kind, target: Target)
    ensures Adds(c, WithField(c, opcode, kind, target), [(kind, Entry(|c.bytes| + |opcode|, target))])
  {
    var e := Entry(|c.bytes| + |opcode|, target);
    forall k: Kind { AppendTable(c.tables, kind, e, k); }
    hide TableOf, Append;
  }

  lemma OpAdds(c: Code, op: Op)
    ensures Adds(c, AfterOp(c, op), OpFields(|c.bytes|, op))
  {
    hide Adds, WithField;
    match op
    case Raw(bytes) => SameAdds(c, WithBytes(c, bytes));
    case JumpOp(opcode, target) => FieldAdds(c, opcode, JumpKind, target);
    case CallOp(slot) => FieldAdds(c, [0xe8], CallKind, Regular(slot, 0, false));
    case LoadOp(opcode) => FieldAdds(c, opcode, LoadKind, SpecialTarget(ToDispatcher));
    case LeaOp(opcode) => FieldAdds(c, opcode, LeaKind, SpecialTarget(ToHelperTable));
  }

  lemma SameAdds(c: Code, d: Code)
    requires c.tables == d.tables
    ensures Adds(c, d, [])
  {
  }

  lemma {:induction false} OpsAdd(c: Code, ops: seq<Op>)
    ensures Adds(c, AfterOps(c, ops), OpsFields(|c.bytes|, ops))
    decreases |ops|
  {
    hide Adds, AfterOp, OpFields;
    if ops == [] {
      SameAdds(c, c);
    } else {
      var most := ops[..|ops| - 1];
      var d := AfterOps(c, most);
      OpsAdd(c, most);
      OpsLengthIs(c, most);
      OpAdds(d, ops[|ops| - 1]);
      AddsBoth(c, d, AfterOps(c, ops), OpsFields(|c.bytes|, most), OpFields(|d.bytes|, ops[|ops| - 1]));
    }
  }

  /** What a step records is exactly the list of its fields. */
  lemma StepAdds(c: Code, s: Step)
    ensures Adds(c, AfterStep(c, s), StepFields(|c.bytes|, s))
  {
    hide Adds, AfterOp, AfterOps, OpFields, OpsFields, WithField;
    match s
    case One(op) => OpAdds(c, op);
    case Either(skip, first, join, second) =>
      var n := |c.bytes|;
      var l1, l2 := SecondArm(n, s), Joined(n, s);
      var c0 := WithField(c, skip, JumpKind, Forward(l1));
      var c1 := AfterOps(c0, first);
      var c2 := WithField(c1, join, JumpKind, Forward(l2));
      FieldExtends(c, skip, JumpKind, Forward(l1));
      FieldExtends(c1, join, JumpKind, Forward(l2));
      OpsLengthIs(c0, first);
      FieldAdds(c, skip, JumpKind, Forward(l1));
      OpsAdd(c0, first);
      FieldAdds(c1, join, JumpKind, Forward(l2));
      OpsAdd(c2, second);
      var f0, f2 := [(JumpKind, Entry(n + |skip|, Forward(l1)))], [(JumpKind, Entry(l1 - 4, Forward(l2)))];
      AddsBoth(c, c0, c1, f0, OpsFields(|c0.bytes|, first));
      AddsBoth(c, c1, c2, f0 + OpsFields(|c0.bytes|, first), f2);
      AddsBoth(c, c2, AfterOps(c2, second), f0 + OpsFields(|c0.bytes|, first) + f2, OpsFields(|c2.bytes|, second));
  }

  /**
    Every operation of every slot, in linked code: each field a step put in the code decodes to the target the plan
    gives it, wherever that target was emitted.
    */
  lemma EveryOperationReaches(c: Code, setup: seq<Op>, plan: seq<Plan>, tail: Tail, i: nat, k: nat, f: (Kind, Entry),
                              b: seq<u8>, entries: map<nat, u16>)
    requires i < |plan| && plan[i].Slot? && k < |plan[i].steps|
    requires Linked(Planned(c, setup, plan, tail).tables, b, entries)
    requires f in StepFields(|UpToStep(c, setup, plan, i, k).bytes|, plan[i].steps[k])
    ensures f.1.at + 4 <= |b| && Reaches(Planned(c, setup, plan, tail).tables, b, f.0, f.1)
  {
    hide Planned, UpToStep, AfterStep, Reaches, HasPrologue, TableOf, StepFields;
    var at, s, t := UpToStep(c, setup, plan, i, k), plan[i].steps[k], Planned(c, setup, plan, tail).tables;
    StepAdds(at, s);
    assert (f.0, f.1) in StepFields(|at.bytes|, s);
    NextStep(c, setup, plan, i, k);
    StepKept(c, setup, plan, tail, i, k + 1);
    assert TableOf(AfterStep(at, s).tables, f.0) <= TableOf(t, f.0);
    assert f.1 in TableOf(t, f.0);
  }

  /** A branch to a translated slot lands on the first byte of that slot's own code, behind any entry code. */
  lemma BranchesLandOnSlots(c: Code, setup: seq<Op>, plan: seq<Plan>, tail: Tail, i: nat, k: nat, slot: nat, at: nat,
                            b: seq<u8>, entries: map<nat, u16>)
    requires i < |plan| && plan[i].Slot? && k < |plan[i].steps|
    requires (JumpKind, Entry(at, Regular(slot, 0, false))) in
             StepFields(|UpToStep(c, setup, plan, i, k).bytes|, plan[i].steps[k])
    requires slot < |plan| <= |c.tables.pcLocs| && plan[slot].Slot?
    requires Linked(Planned(c, setup, plan, tail).tables, b, entries)
    ensures at + 4 <= |b| && Lands(b, at) == |UpToStep(c, setup, plan, slot, 0).bytes|
  {
    hide Planned, UpToStep, AfterStep, HasPrologue, TableOf, Lands, Linked, StepFields;
    EveryOperationReaches(c, setup, plan, tail, i, k, (JumpKind, Entry(at, Regular(slot, 0, false))), b, entries);
    SlotLocated(c, setup, plan, tail, slot);
  }

  /** In linked code the retpoline's call goes over the pause loop, and the loop goes back to its pause. */
  lemma RetpolineLoops(c: Code, setup: seq<Op>, plan: seq<Plan>, tail: Tail, b: seq<u8>, entries: map<nat, u16>)
    requires Linked(Planned(c, setup, plan, tail).tables, b, entries)
    ensures var n := Planned(c, setup, plan, tail).tables.retpolineLoc;
      && n == |Body(c, setup, plan).bytes| + |Flat(tail.epilogue)| && n + 12 <= |b|
      && Lands(b, n + 1) == n + 12 && Lands(b, n + 8) == n + 5
  {
    hide Body, HasPrologue, Lands, Prologue, Flat;
    var t, jumps := Planned(c, setup, plan, tail).tables, Body(c, setup, plan).tables.jumps;
    var n := |Body(c, setup, plan).bytes| + |Flat(tail.epilogue)|;
    var call, loop := Entry(n + 1, Forward(n + 12)), Entry(n + 8, Forward(n + 5));
    assert t.jumps == jumps + [call, loop];
    assert TableOf(t, JumpKind)[|jumps|] == call && TableOf(t, JumpKind)[|jumps| + 1] == loop;
    assert Reaches(t, b, JumpKind, call) && Reaches(t, b, JumpKind, loop);
  }
}
