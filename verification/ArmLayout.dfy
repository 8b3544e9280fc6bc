/** Where the calls, jumps and loads of resolved ARM64 code go. */
module ArmLayout {
  import opened Words
  import opened Relocation
  import opened JitEmission
  import opened ArmBranches
  import opened ArmEmission

  /** A word that belongs to no field. */
  ghost predicate PlainWord(t: Tables, k: nat)
  {
    forall kind: Kind, i :: 0 <= i < |TableOf(t, kind)| ==> TableOf(t, kind)[i].at != 4 * k
  }

  /** What resolution leaves: every field fixed for its target, every other word as emitted. */
  ghost predicate Resolved(c: Code, b: seq<u32>)
  {
    && |c.words| <= |b|
    && (forall kind: Kind, i :: 0 <= i < |TableOf(c.tables, kind)| ==> FieldFixed(c, b, kind, TableOf(c.tables, kind)[i]))
    && (forall k: nat :: k < |c.words| && PlainWord(c.tables, k) ==> b[k] == c.words[k])
  }

  predicate FieldFixed(c: Code, b: seq<u32>, kind: Kind, e: Entry)
    requires |c.words| <= |b|
  {
    && e.at / 4 < |c.words| && Destination(c, kind, e.target).Some?
    && b[e.at / 4] == FixedWord(kind, c.words[e.at / 4], Destination(c, kind, e.target).value - e.at)
  }

  /** The byte offset a field's instruction refers to. */
  function Reads(c: Code, b: seq<u32>, kind: Kind, at: nat): int
    requires at / 4 < |c.words| <= |b|
  {
    at + Displacement(ReadForm(kind, c.words[at / 4]), b[at / 4])
  }

  lemma DestinationAligned(c: Code, kind: Kind, e: Entry)
    requires Sound(c) && EntrySound(c, kind, e)
    ensures Destination(c, kind, e.target).Some? && (Destination(c, kind, e.target).value - e.at) % 4 == 0
  {
    hide Disjoint, TableOf, BaseOk;
    assert LocationsSound(c) && TargetSound(kind, e.target) && e.at % 4 == 0;
    hide Sound, EntrySound;
  }

  /** A field of resolved code refers to its target exactly when the displacement is in the range of its form. */
  lemma FieldReaches(c: Code, b: seq<u32>, kind: Kind, i: nat)
    requires Sound(c) && Resolved(c, b) && i < |TableOf(c.tables, kind)|
    requires kind.LeaKind? ==> c.tables.helperLoc >= TableOf(c.tables, kind)[i].at
    ensures var e := TableOf(c.tables, kind)[i];
      && e.at / 4 < |c.words| && Destination(c, kind, e.target).Some?
      && var w := Destination(c, kind, e.target).value;
         Reads(c, b, kind, e.at) == w <==> InRange(ReadForm(kind, c.words[e.at / 4]), w - e.at)
  {
    hide Disjoint, LocationsSound, PlainWord, FixedWord, Displacement, BaseOk, ReadForm, InRange;
    var e := TableOf(c.tables, kind)[i];
    assert EntrySound(c, kind, e) && FieldFixed(c, b, kind, e);
    hide Resolved;
    DestinationAligned(c, kind, e);
    LeaIsAhead(c, kind, e);
    FieldReads(kind, c.words[e.at / 4], Destination(c, kind, e.target).value - e.at);
  }

  lemma LeaIsAhead(c: Code, kind: Kind, e: Entry)
    requires Destination(c, kind, e.target).Some? && (kind.LeaKind? ==> c.tables.helperLoc >= e.at)
    ensures kind.LeaKind? ==> Destination(c, kind, e.target).value - e.at >= 0
  {
  }

  // ---------------------------------------------------------------- slots and prologues

  function UpTo(c: Code, setup: seq<Op>, plan: seq<Plan>, i: nat): Code
    requires i <= |plan|
  {
    AfterSlots(AfterSetup(c, setup), plan, i)
  }

  /** The code up to operation `k` of slot `i`. */
  function UpToOp(c: Code, setup: seq<Op>, plan: seq<Plan>, i: nat, k: nat): Code
    requires i < |plan| && plan[i].Slot? && k <= |plan[i].ops|
  {
    AfterOps(AfterStart(UpTo(c, setup, plan, i), i, plan[i].entry, plan[i].bypass, plan[i].usage), plan[i].ops[..k])
  }

  lemma PlannedExtends(c: Code, setup: seq<Op>, plan: seq<Plan>, tail: Tail, i: nat)
    requires i <= |plan|
    ensures Extends(UpTo(c, setup, plan, i), Planned(c, setup, plan, tail))
    ensures var t, t' := UpTo(c, setup, plan, i).tables.pcLocs, Planned(c, setup, plan, tail).tables.pcLocs;
      |t'| == |t| && forall j :: 0 <= j < i && j < |t| ==> t'[j] == t[j]
  {
    hide Extends, AfterSlots, AfterOps, AfterTail;
    var all := UpTo(c, setup, plan, |plan|);
    SlotsExtend(AfterSetup(c, setup), plan, i, |plan|);
    TailExtends(all, tail);
    ExtendsBoth(UpTo(c, setup, plan, i), all, Planned(c, setup, plan, tail));
  }

  lemma UpToNext(c: Code, setup: seq<Op>, plan: seq<Plan>, i: nat)
    requires i < |plan|
    ensures UpTo(c, setup, plan, i + 1) == AfterSlot(UpTo(c, setup, plan, i), i, plan[i])
  {
    hide AfterSlot, AfterSetup;
  }

  lemma OpKept(c: Code, setup: seq<Op>, plan: seq<Plan>, tail: Tail, i: nat, k: nat)
    requires i < |plan| && plan[i].Slot? && k <= |plan[i].ops|
    ensures Extends(UpToOp(c, setup, plan, i, k), Planned(c, setup, plan, tail))
  {
    hide Extends, AfterOps, Planned, AfterStart;
    var p := plan[i];
    var start := AfterStart(UpTo(c, setup, plan, i), i, p.entry, p.bypass, p.usage);
    OpsExtend(start, p.ops, k);
    UpToNext(c, setup, plan, i);
    PlannedExtends(c, setup, plan, tail, i + 1);
    ExtendsBoth(UpToOp(c, setup, plan, i, k), UpTo(c, setup, plan, i + 1), Planned(c, setup, plan, tail));
  }

  /** A slot's recorded location is the end of its entry code. */
  lemma SlotLocated(c: Code, setup: seq<Op>, plan: seq<Plan>, tail: Tail, i: nat)
    requires i < |plan| && plan[i].Slot? && |plan| <= |c.tables.pcLocs|
    ensures var locs := Planned(c, setup, plan, tail).tables.pcLocs;
      |locs| == |c.tables.pcLocs| && locs[i] == Size(UpToOp(c, setup, plan, i, 0))
  {
    hide Extends, AfterOp, Planned, AfterSlots, AfterStart;
    var p, before := plan[i], UpTo(c, setup, plan, i);
    AllOpsExtend(c, setup);
    UpToLocations(AfterSetup(c, setup), plan, i);
    StartExtends(before, i, p.entry, p.bypass, p.usage);
    AllOpsExtend(AfterStart(before, i, p.entry, p.bypass, p.usage), p.ops);
    assert p.ops[..0] == [];
    UpToNext(c, setup, plan, i);
    PlannedExtends(c, setup, plan, tail, i + 1);
  }

  lemma UpToLocations(c: Code, plan: seq<Plan>, i: nat)
    requires i <= |plan|
    ensures |AfterSlots(c, plan, i).tables.pcLocs| == |c.tables.pcLocs|
  {
    hide AfterSlot, Extends;
    SlotsExtend(c, plan, 0, i);
  }

  /** The words of a prologue are kept and belong to no field. */
  lemma PrologueKept(c: Code, setup: seq<Op>, plan: seq<Plan>, tail: Tail, i: nat, b: seq<u32>)
    requires Sound(c) && OpsOk(setup) && (forall j :: 0 <= j < |plan| ==> PlanOk(plan[j]))
    requires i < |plan| && plan[i].Slot? && plan[i].entry && Resolved(Planned(c, setup, plan, tail), b)
    ensures var n := |UpToOp(c, setup, plan, i, 0).words|;
      3 <= n <= |b| && b[n - 3..n] == ArmPrologue(plan[i].usage)
  {
    hide AfterOp, Planned, AfterSlots, FieldFixed, TableOf, BaseOk, Sound, OpsOk, PlanOk, ArmPrologue;
    var p, before, d, w := plan[i], UpTo(c, setup, plan, i), UpToOp(c, setup, plan, i, 0), Planned(c, setup, plan, tail);
    var n := |d.words|;
    PrologueWords(p.usage);
    assert p.ops[..0] == [];
    OpKept(c, setup, plan, tail, i, 0);
    SoundUpTo(c, setup, plan, i);
    StartWords(before, i, p.bypass, p.usage);
    hide AfterStart;
    forall k: nat | n - 3 <= k < n
      ensures k < |w.words| && b[k] == w.words[k] == d.words[k]
    {
      forall kind: Kind, j | 0 <= j < |TableOf(w.tables, kind)|
        ensures TableOf(w.tables, kind)[j].at != 4 * k
      {
        if j < |TableOf(d.tables, kind)| {
          assert TableOf(w.tables, kind)[j] == TableOf(d.tables, kind)[j];
        }
      }
      assert PlainWord(w.tables, k);
    }
    assert b[n - 3..n] == d.words[n - 3..n];
  }

  lemma SoundUpTo(c: Code, setup: seq<Op>, plan: seq<Plan>, i: nat)
    requires Sound(c) && OpsOk(setup) && (forall j :: 0 <= j < |plan| ==> PlanOk(plan[j])) && i <= |plan|
    ensures Sound(UpTo(c, setup, plan, i))
  {
    hide Sound, AfterOps, AfterSlots, OpsOk, PlanOk;
    SoundOps(c, setup);
    SoundEntry(AfterOps(c, setup));
    SoundSlots(AfterSetup(c, setup), plan, i);
  }

  /** The entry code ends with the prologue, and no entry is on one of its words. */
  lemma StartWords(c: Code, i: nat, bypass: bool, usage: u16)
    requires Sound(c)
    ensures var d := AfterStart(c, i, true, bypass, usage); var n := |d.words|;
      && n == |c.words| + (if bypass then 4 else 3) && d.words[n - 3..] == ArmPrologue(usage)
      && (forall kind: Kind, j :: 0 <= j < |TableOf(d.tables, kind)| ==> TableOf(d.tables, kind)[j].at < 4 * (n - 3))
  {
    hide ArmPrologue, Append, TableOf, Spaced, ApartTables, LocationsSound, EntrySound;
    PrologueWords(usage);
    var d, n := AfterStart(c, i, true, bypass, usage), |c.words|;
    var e := Entry(Size(c), Regular(0, Size(c) + 4 + 4 * |ArmPrologue(usage)|, false));
    StartTables(c, i, bypass, usage);
    forall kind: Kind, j | 0 <= j < |TableOf(d.tables, kind)|
      ensures TableOf(d.tables, kind)[j].at < 4 * (|d.words| - 3)
    {
      assert Within(TableOf(c.tables, kind), Size(c));
    }
  }

  lemma StartTables(c: Code, i: nat, bypass: bool, usage: u16)
    ensures var d := AfterStart(c, i, true, bypass, usage);
      forall kind: Kind :: TableOf(d.tables, kind) ==
        TableOf(c.tables, kind) + if bypass && kind.JumpKind? then [Entry(Size(c), Regular(0, Size(c) + 4 + 4 * |ArmPrologue(usage)|, false))] else []
  {
    hide ArmPrologue;
  }

  // ---------------------------------------------------------------- where fields go

  /** A plan emitted from a sound start and resolved. */
  ghost predicate Compiled(c: Code, setup: seq<Op>, plan: seq<Plan>, tail: Tail, b: seq<u32>)
  {
    && Sound(c) && OpsOk(setup) && (forall j :: 0 <= j < |plan| ==> PlanOk(plan[j])) && |plan| <= |c.tables.pcLocs|
    && Resolved(Planned(c, setup, plan, tail), b)
  }

  /** An entry recorded while the body was emitted is resolved like every other. */
  lemma EntryReaches(c: Code, setup: seq<Op>, plan: seq<Plan>, tail: Tail, b: seq<u32>, d: Code, kind: Kind, e: Entry)
    requires Compiled(c, setup, plan, tail, b) && Extends(d, Planned(c, setup, plan, tail))
    requires e in TableOf(d.tables, kind)
    ensures var w := Planned(c, setup, plan, tail);
      && e.at / 4 < |w.words| <= |b| && Destination(w, kind, e.target).Some?
      && var to := Destination(w, kind, e.target).value;
         Reads(w, b, kind, e.at) == to <==> InRange(ReadForm(kind, w.words[e.at / 4]), to - e.at)
  {
    hide Sound, OpsOk, PlanOk, InRange, ReadForm, FieldFixed, PlainWord, Displacement;
    var w := Planned(c, setup, plan, tail);
    SoundPlanned(c, setup, plan, tail);
    HelpersBehind(c, setup, plan, tail, kind);
    hide Planned, TableOf;
    var i :| 0 <= i < |TableOf(d.tables, kind)| && TableOf(d.tables, kind)[i] == e;
    assert TableOf(w.tables, kind)[i] == e;
    FieldReaches(w, b, kind, i);
  }

  /** It is fixed for that destination, which is a whole number of words away and ahead of an ADR. */
  lemma EntryFixed(c: Code, setup: seq<Op>, plan: seq<Plan>, tail: Tail, b: seq<u32>, d: Code, kind: Kind, e: Entry)
    requires Compiled(c, setup, plan, tail, b) && Extends(d, Planned(c, setup, plan, tail))
    requires e in TableOf(d.tables, kind)
    ensures var w := Planned(c, setup, plan, tail);
      && e.at / 4 < |w.words| <= |b| && Destination(w, kind, e.target).Some?
      && var to := Destination(w, kind, e.target).value;
         && b[e.at / 4] == FixedWord(kind, w.words[e.at / 4], to - e.at) && (to - e.at) % 4 == 0 && (kind.LeaKind? ==> to >= e.at)
         && BaseOk(kind, w.words[e.at / 4])
  {
    hide Sound, OpsOk, PlanOk, FixedWord, PlainWord;
    var w := Planned(c, setup, plan, tail);
    SoundPlanned(c, setup, plan, tail);
    HelpersBehind(c, setup, plan, tail, kind);
    hide Planned, TableOf, Destination;
    var i :| 0 <= i < |TableOf(d.tables, kind)| && TableOf(d.tables, kind)[i] == e;
    assert TableOf(w.tables, kind)[i] == e;
    assert FieldFixed(w, b, kind, e);
    EntryIsSound(w, kind, i);
    DestinationAligned(w, kind, e);
    LeaIsAhead(w, kind, e);
  }

  lemma EntryIsSound(c: Code, kind: Kind, i: nat)
    requires Sound(c) && i < |TableOf(c.tables, kind)|
    ensures EntrySound(c, kind, TableOf(c.tables, kind)[i]) && BaseOk(kind, c.words[TableOf(c.tables, kind)[i].at / 4])
  {
    hide Disjoint, LocationsSound, BaseOk, TableOf;
  }

  lemma HelpersBehind(c: Code, setup: seq<Op>, plan: seq<Plan>, tail: Tail, kind: Kind)
    requires Sound(Body(c, setup, plan))
    ensures var w := Planned(c, setup, plan, tail);
      kind.LeaKind? ==> forall i :: 0 <= i < |TableOf(w.tables, kind)| ==> TableOf(w.tables, kind)[i].at <= w.tables.helperLoc
  {
    hide Body, Spaced, ApartTables, LocationsSound, EntrySound, AfterTail;
    TailExtends(Body(c, setup, plan), tail);
    assert Within(TableOf(Body(c, setup, plan).tables, LeaKind), Size(Body(c, setup, plan)));
  }

  /**
    Every field of every slot of resolved code: it refers to the destination the plan gives it exactly when that is
    within the range of the instruction.
    */
  lemma EveryFieldReaches(c: Code, setup: seq<Op>, plan: seq<Plan>, tail: Tail, b: seq<u32>, i: nat, k: nat)
    requires Compiled(c, setup, plan, tail, b)
    requires i < |plan| && plan[i].Slot? && k < |plan[i].ops| && plan[i].ops[k].Field?
    ensures var w, n, op := Planned(c, setup, plan, tail), |UpToOp(c, setup, plan, i, k).words|, plan[i].ops[k];
      && n < |w.words| <= |b| && w.words[n] == op.base && Destination(w, op.kind, TargetOf(n, op.to)).Some?
      && var to := Destination(w, op.kind, TargetOf(n, op.to)).value;
         Reads(w, b, op.kind, 4 * n) == to <==> InRange(ReadForm(op.kind, op.base), to - 4 * n)
  {
    hide Sound, OpsOk, PlanOk, InRange, ReadForm, Resolved, Planned, UpToOp, TargetOf;
    var d, op := UpToOp(c, setup, plan, i, k), plan[i].ops[k];
    var e := Entry(Size(d), TargetOf(|d.words|, op.to));
    NextOp(c, setup, plan, i, k);
    AppendTable(d.tables, op.kind, e, op.kind);
    hide Append, TableOf;
    assert e in TableOf(AfterOp(d, op).tables, op.kind);
    OpKept(c, setup, plan, tail, i, k + 1);
    assert AfterOp(d, op).words[|d.words|] == op.base;
    EntryReaches(c, setup, plan, tail, b, AfterOp(d, op), op.kind, e);
  }

  /** Every field of every slot is fixed for the destination the plan gives it. */
  lemma EveryFieldFixed(c: Code, setup: seq<Op>, plan: seq<Plan>, tail: Tail, b: seq<u32>, i: nat, k: nat)
    requires Compiled(c, setup, plan, tail, b)
    requires i < |plan| && plan[i].Slot? && k < |plan[i].ops| && plan[i].ops[k].Field?
    ensures var w, n, op := Planned(c, setup, plan, tail), |UpToOp(c, setup, plan, i, k).words|, plan[i].ops[k];
      && n < |w.words| <= |b| && Destination(w, op.kind, TargetOf(n, op.to)).Some? && BaseOk(op.kind, op.base)
      && var rel := Destination(w, op.kind, TargetOf(n, op.to)).value - 4 * n;
         b[n] == FixedWord(op.kind, op.base, rel) && rel % 4 == 0 && (op.kind.LeaKind? ==> rel >= 0)
  {
    hide Sound, OpsOk, PlanOk, Resolved, Planned, UpToOp, TargetOf, FixedWord, BaseOk;
    var d, op := UpToOp(c, setup, plan, i, k), plan[i].ops[k];
    var e := Entry(Size(d), TargetOf(|d.words|, op.to));
    NextOp(c, setup, plan, i, k);
    AppendTable(d.tables, op.kind, e, op.kind);
    hide Append, TableOf;
    assert e in TableOf(AfterOp(d, op).tables, op.kind);
    OpKept(c, setup, plan, tail, i, k + 1);
    assert AfterOp(d, op).words[|d.words|] == op.base;
    EntryFixed(c, setup, plan, tail, b, AfterOp(d, op), op.kind, e);
  }

  /** Every word of a slot that belongs to no field is in the resolved code as it was emitted. */
  lemma EveryWordStays(c: Code, setup: seq<Op>, plan: seq<Plan>, tail: Tail, b: seq<u32>, i: nat, k: nat)
    requires Compiled(c, setup, plan, tail, b)
    requires i < |plan| && plan[i].Slot? && k < |plan[i].ops| && plan[i].ops[k].Word?
    ensures var n := |UpToOp(c, setup, plan, i, k).words|; n < |b| && b[n] == plan[i].ops[k].word
  {
    hide Planned, TableOf, FieldFixed, AfterOps, AfterStart, OpsOk, Sound, PlanOk, UpTo;
    var d, w := UpToOp(c, setup, plan, i, k), Planned(c, setup, plan, tail);
    SoundUpToOp(c, setup, plan, i, k);
    NextOp(c, setup, plan, i, k);
    OpKept(c, setup, plan, tail, i, k + 1);
    var e := UpToOp(c, setup, plan, i, k + 1);
    assert e == WithWords(d, [plan[i].ops[k].word]);
    forall kind: Kind, j | 0 <= j < |TableOf(w.tables, kind)|
      ensures TableOf(w.tables, kind)[j].at != Size(d)
    {
      EntriesBefore(d, kind);
      if j < |TableOf(e.tables, kind)| {
        assert TableOf(w.tables, kind)[j] == TableOf(d.tables, kind)[j];
      }
    }
    assert PlainWord(w.tables, |d.words|);
  }

  lemma EntriesBefore(c: Code, kind: Kind)
    requires Sound(c)
    ensures forall i :: 0 <= i < |TableOf(c.tables, kind)| ==> TableOf(c.tables, kind)[i].at < Size(c)
  {
    hide Spaced, ApartTables, LocationsSound, EntrySound;
    assert Within(TableOf(c.tables, kind), Size(c));
  }

  lemma SoundUpToOp(c: Code, setup: seq<Op>, plan: seq<Plan>, i: nat, k: nat)
    requires Sound(c) && OpsOk(setup) && (forall j :: 0 <= j < |plan| ==> PlanOk(plan[j]))
    requires i < |plan| && plan[i].Slot? && k <= |plan[i].ops|
    ensures Sound(UpToOp(c, setup, plan, i, k))
  {
    hide Sound, AfterOps, AfterStart, OpOk, StaysInside;
    var p := plan[i];
    SoundUpTo(c, setup, plan, i);
    assert PlanOk(p);
    SoundStart(UpTo(c, setup, plan, i), i, p.entry, p.bypass, p.usage);
    SoundOps(AfterStart(UpTo(c, setup, plan, i), i, p.entry, p.bypass, p.usage), p.ops[..k]);
  }

  lemma NextOp(c: Code, setup: seq<Op>, plan: seq<Plan>, i: nat, k: nat)
    requires i < |plan| && plan[i].Slot? && k < |plan[i].ops|
    ensures UpToOp(c, setup, plan, i, k + 1) == AfterOp(UpToOp(c, setup, plan, i, k), plan[i].ops[k])
  {
    hide AfterOp, AfterStart, AfterSlots;
    var ops := plan[i].ops;
    assert ops[..k + 1][..k] == ops[..k] && ops[..k + 1][k] == ops[k];
  }

  /** Once a prologue has been emitted the recorded size is that of every prologue. */
  lemma {:induction false} SizeRecorded(c: Code, plan: seq<Plan>, i: nat, n: nat)
    requires i < n <= |plan| && plan[i].Slot? && plan[i].entry
    ensures AfterSlots(c, plan, n).tables.prologSize != 0
    decreases n
  {
    hide ArmPrologue, AfterOps, AfterStart;
    var d, p := AfterSlots(c, plan, n - 1), plan[n - 1];
    if i < n - 1 {
      SizeRecorded(c, plan, i, n - 1);
    }
    if p.Slot? {
      StartSize(d, n - 1, p.entry, p.bypass, p.usage);
      OpsKeepSize(AfterStart(d, n - 1, p.entry, p.bypass, p.usage), p.ops);
    }
  }

  lemma StartSize(c: Code, i: nat, entry: bool, bypass: bool, usage: u16)
    ensures entry || c.tables.prologSize != 0 ==> AfterStart(c, i, entry, bypass, usage).tables.prologSize != 0
  {
    hide ArmPrologue;
    PrologueWords(usage);
  }

  lemma {:induction false} OpsKeepSize(c: Code, ops: seq<Op>)
    ensures AfterOps(c, ops).tables.prologSize == c.tables.prologSize
    decreases |ops|
  {
    if ops != [] {
      OpsKeepSize(c, ops[..|ops| - 1]);
    }
  }

  lemma PlannedSize(c: Code, setup: seq<Op>, plan: seq<Plan>, tail: Tail, i: nat)
    requires Sound(c) && OpsOk(setup) && (forall j :: 0 <= j < |plan| ==> PlanOk(plan[j]))
    requires i < |plan| && plan[i].Slot? && plan[i].entry
    ensures Planned(c, setup, plan, tail).tables.prologSize == ARM_PROLOGUE_SIZE
  {
    hide AfterSlots, AfterSetup, OpsOk, PlanOk, Disjoint, EntrySound, AfterTail;
    SizeRecorded(AfterSetup(c, setup), plan, i, |plan|);
    SoundPlanned(c, setup, plan, tail);
    TailExtends(Body(c, setup, plan), tail);
  }

  /**
    A local call to a function entry reaches the first word of that function's prologue exactly when it is in range of
    a BL, and the prologue, storing the function's usage, is in place there.
    */
  lemma CallsLandOnPrologue(c: Code, setup: seq<Op>, plan: seq<Plan>, tail: Tail, b: seq<u32>, i: nat, k: nat)
    requires Compiled(c, setup, plan, tail, b)
    requires i < |plan| && plan[i].Slot? && k < |plan[i].ops| && plan[i].ops[k].Field? && plan[i].ops[k].kind.CallKind?
    requires plan[i].ops[k].to.ToSlot? && plan[i].ops[k].to.slot < |plan|
    requires plan[plan[i].ops[k].to.slot].Slot? && plan[plan[i].ops[k].to.slot].entry
    ensures var w, n, slot := Planned(c, setup, plan, tail), |UpToOp(c, setup, plan, i, k).words|, plan[i].ops[k].to.slot;
      var m := |UpToOp(c, setup, plan, slot, 0).words|;
      && n < |w.words| <= |b| && 3 <= m <= |b| && b[m - 3..m] == ArmPrologue(plan[slot].usage)
      && (Reads(w, b, CallKind, 4 * n) == 4 * (m - 3) <==> InRange(Unconditional, 4 * (m - 3) - 4 * n))
  {
    hide Sound, OpsOk, InRange, Resolved, Planned, UpToOp, ArmPrologue, Reads;
    var op, slot := plan[i].ops[k], plan[i].ops[k].to.slot;
    assert PlanOk(plan[i]);
    OpAllowed(plan[i].ops, k);
    BaseForms(CallKind, op.base);
    hide PlanOk, BaseOk, ReadForm;
    EveryFieldReaches(c, setup, plan, tail, b, i, k);
    PlannedSize(c, setup, plan, tail, slot);
    SlotLocated(c, setup, plan, tail, slot);
    PrologueKept(c, setup, plan, tail, slot, b);
  }

  lemma OpAllowed(ops: seq<Op>, k: nat)
    requires OpsOk(ops) && k < |ops|
    ensures OpOk(ops[k]) && (ops[k].Field? ==> BaseOk(ops[k].kind, ops[k].base))
  {
  }

  /** A jump to a translated slot reaches the first word of that slot's own code, behind any entry code, when in range. */
  lemma JumpsLandOnSlots(c: Code, setup: seq<Op>, plan: seq<Plan>, tail: Tail, b: seq<u32>, i: nat, k: nat)
    requires Compiled(c, setup, plan, tail, b)
    requires i < |plan| && plan[i].Slot? && k < |plan[i].ops| && plan[i].ops[k].Field? && plan[i].ops[k].kind.JumpKind?
    requires plan[i].ops[k].to.ToSlot? && plan[i].ops[k].to.slot < |plan| && plan[plan[i].ops[k].to.slot].Slot?
    ensures var w, n, op := Planned(c, setup, plan, tail), |UpToOp(c, setup, plan, i, k).words|, plan[i].ops[k];
      var to := Size(UpToOp(c, setup, plan, op.to.slot, 0));
      && n < |w.words| <= |b|
      && (Reads(w, b, JumpKind, 4 * n) == to <==> InRange(ReadForm(JumpKind, op.base), to - 4 * n))
  {
    hide Sound, OpsOk, InRange, Resolved, Planned, UpToOp, Reads, PlanOk, BaseOk, ReadForm, Size;
    EveryFieldReaches(c, setup, plan, tail, b, i, k);
    SlotLocated(c, setup, plan, tail, plan[i].ops[k].to.slot);
  }

  /** The branch around a prologue always reaches the slot's own code. */
  lemma BypassesLand(c: Code, setup: seq<Op>, plan: seq<Plan>, tail: Tail, b: seq<u32>, i: nat)
    requires Compiled(c, setup, plan, tail, b) && i < |plan| && plan[i].Slot? && plan[i].bypass
    ensures var w, n := Planned(c, setup, plan, tail), |UpTo(c, setup, plan, i).words|;
      n < |w.words| <= |b| && Reads(w, b, JumpKind, 4 * n) == Size(UpToOp(c, setup, plan, i, 0))
  {
    hide Sound, OpsOk, Resolved, Planned, UpTo, Reads, AfterOp, ArmPrologue;
    var p, d, e := plan[i], UpTo(c, setup, plan, i), UpToOp(c, setup, plan, i, 0);
    assert PlanOk(p) && p.ops[..0] == [];
    PrologueWords(p.usage);
    StartTables(d, i, true, p.usage);
    var entry := Entry(Size(d), Regular(0, Size(d) + 16, false));
    assert TableOf(e.tables, JumpKind) == TableOf(d.tables, JumpKind) + [entry];
    assert entry in TableOf(e.tables, JumpKind);
    assert e.words[|d.words|] == 0x1400_0000;
    OpKept(c, setup, plan, tail, i, 0);
    hide AfterStart, TableOf;
    EntryReaches(c, setup, plan, tail, b, e, JumpKind, entry);
    NearInRange();
  }

  lemma NearInRange()
    ensures ReadForm(JumpKind, 0x1400_0000) == Unconditional && InRange(Unconditional, 16)
  {
    Pow2Fields();
    hide Pow2;
  }
}
