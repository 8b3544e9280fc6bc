/** Emission in the ARM64 back end, word by word: function prologues, slots, the tail and the fields to be patched. */
module ArmEmission {
  import opened Words
  import opened Isa
  import opened Relocation
  import opened JitEmission
  import opened ArmBranches
  import A = Arm64
  import ArmConstants

  // ---------------------------------------------------------------- function prologues

  function MoveBase(op: A.MoveOp): u32
  {
    match op case MovN => 0x1280_0000 case MovZ => 0x5280_0000 case MovK => 0x7280_0000
  }

  /** The encoding of a move-wide instruction; the other instructions of a constant load do not occur. */
  function EncodeMove(i: A.AInst): u32
  {
    if i.MoveWide? && i.block < 4
    then (if i.wide then 0x8000_0000 else 0) + MoveBase(i.mop) + 0x20_0000 * i.block + 32 * i.imm16 + i.rd else 0
  }

  /** Load the usage, make room for two words and store it twice. */
  function ArmPrologue(usage: u16): seq<u32>
  {
    var load := ArmConstants.LoadConstant(true, A.TEMP, usage);
    seq(|load|, i requires 0 <= i < |load| => EncodeMove(load[i])) + [0xd100_43ff, 0xa900_63f8]
  }

  const ARM_PROLOGUE_SIZE: nat := 12

  /** Every prologue has three words, whatever the usage, and the first one loads it. */
  lemma PrologueWords(usage: u16)
    ensures ArmPrologue(usage) == [0xd280_0018 + 32 * usage, 0xd100_43ff, 0xa900_63f8]
    ensures 4 * |ArmPrologue(usage)| == ARM_PROLOGUE_SIZE
  {
    ArmConstants.SmallConstantIs(A.TEMP, usage);
  }

  // ---------------------------------------------------------------- fields

  /** What `resolve_branch_immediate` tells from the emitted word. */
  function FormOf(instr: u32): Option<Form>
  {
    if instr / 0x200_0000 == 0x2a || instr / 0x200_0000 % 64 == 0x1a then Some(Conditional)
    else if instr / 0x400_0000 % 32 == 5 then Some(Unconditional)
    else None
  }

  /** B, BL and B.cond are branches; the dispatcher's address is loaded with LDR and the helper table's taken with ADR. */
  predicate BaseOk(kind: Kind, base: u32)
  {
    match kind
    case JumpKind => base == 0x1400_0000 || base == 0x9400_0000 || 0x5400_0000 <= base < 0x5400_0010
    case CallKind => base == 0x9400_0000
    case LoadKind => 0x5800_0000 <= base < 0x5800_0020
    case LeaKind => 0x1000_0000 <= base < 0x1000_0020
  }

  /** `resolve_adr`: 24 bits of the word displacement are ORed in, though the field has 19. */
  function FixedAdr(instr: u32, rel: int): u32
  {
    Bitwise32(Or, instr, ToU32(32 * ((rel / 4) % 0x100_0000)))
  }

  function FixedWord(kind: Kind, instr: u32, rel: int): u32
  {
    match kind
    case LoadKind => Fixed(Conditional, instr, rel)
    case LeaKind => FixedAdr(instr, rel)
    case _ => match FormOf(instr) case None => instr case Some(form) => Fixed(form, instr, rel)
  }

  /** The field the processor reads. */
  function ReadForm(kind: Kind, base: u32): Form
  {
    match kind
    case LoadKind => Conditional
    case LeaKind => Conditional
    case _ => match FormOf(base) case None => Unconditional case Some(form) => form
  }

  lemma BaseForms(kind: Kind, base: u32)
    requires BaseOk(kind, base)
    ensures kind.JumpKind? || kind.CallKind? ==> FormOf(base) == Some(ReadForm(kind, base))
    ensures Unresolved(ReadForm(kind, base), base)
    ensures kind.CallKind? ==> ReadForm(kind, base) == Unconditional
  {
    Pow2Fields();
    hide Pow2;
    match kind
    case JumpKind => JumpForms(base);
    case CallKind => JumpForms(base);
    case LoadKind => assert base / 32 == 0x2c0_0000 && 0x2c0_0000 % 0x8_0000 == 0;
    case LeaKind => assert base / 32 == 0x80_0000 && 0x80_0000 % 0x8_0000 == 0;
  }

  lemma JumpForms(base: u32)
    requires BaseOk(JumpKind, base)
    ensures FormOf(base) == Some(if base < 0x5000_0000 || base == 0x9400_0000 then Unconditional else Conditional)
    ensures base < 0x5000_0000 || base == 0x9400_0000 ==> base % 0x400_0000 == 0
    ensures !(base < 0x5000_0000 || base == 0x9400_0000) ==> base / 32 % 0x8_0000 == 0
  {
    if 0x5400_0000 <= base < 0x5400_0010 {
      assert base / 0x200_0000 == 0x2a && base / 32 == 0x2a0_0000;
    }
  }

  lemma AdrIsFixed(instr: u32, rel: int)
    requires 0 <= rel < 2 * 0x8_0000
    ensures FixedAdr(instr, rel) == Fixed(Conditional, instr, rel)
  {
    Pow2Fields();
    hide Pow2, Bitwise32;
    assert (rel / 4) % 0x100_0000 == rel / 4 == (rel / 4) % 0x8_0000;
  }

  lemma DisplacementInRange(form: Form, instr: u32)
    ensures InRange(form, Displacement(form, instr))
  {
    Pow2Fields();
    CutBound(instr / Pow2(FieldAt(form)), Pow2(FieldBits(form)));
    assert Pow2(FieldBits(form)) == 2 * Pow2(FieldBits(form) - 1);
    hide Pow2;
  }

  /** A patched field is read as the displacement it stands for exactly when that displacement is in range. */
  lemma FieldReads(kind: Kind, base: u32, rel: int)
    requires BaseOk(kind, base) && rel % 4 == 0 && (kind.LeaKind? ==> rel >= 0)
    ensures var form := ReadForm(kind, base);
      Displacement(form, FixedWord(kind, base, rel)) == rel <==> InRange(form, rel)
  {
    hide Displacement, Fixed, FixedAdr, InRange, Unresolved, FormOf;
    BaseForms(kind, base);
    var form := ReadForm(kind, base);
    if kind.LeaKind? {
      if rel < 2 * 0x8_0000 {
        AdrIsFixed(base, rel);
        BranchReaches(form, base, rel);
      } else {
        FarIsOut(rel);
        DisplacementInRange(form, FixedWord(kind, base, rel));
      }
    } else {
      BranchReaches(form, base, rel);
    }
  }

  lemma FarIsOut(rel: int)
    requires rel >= 2 * 0x8_0000
    ensures !InRange(Conditional, rel)
  {
    Pow2Fields();
    hide Pow2;
  }

  // ---------------------------------------------------------------- the code a plan stands for

  /** Tables and words of code under construction. Positions in the tables are in bytes. */
  datatype Code = Code(tables: Tables, entryLoc: nat, words: seq<u32>)

  /** Nothing emitted yet. */
  function Start(): Code { Code(Tables([], [], [], [], seq(MAX_INSTS + 1, _ => 0), 0, 0, 0, 0, 0), 0, []) }

  /** Where a field goes: a slot, a special location, or a word of the same instruction counted from the field. */
  datatype To = ToSlot(slot: nat) | ToPlace(place: Special) | ToWord(ahead: int)

  datatype Op = Word(word: u32) | Field(kind: Kind, base: u32, to: To)

  predicate OpOk(op: Op)
  {
    op.Field? ==>
      && BaseOk(op.kind, op.base)
      && (match op.kind
          case JumpKind => if op.to.ToPlace? then op.to.place.ToExit? || op.to.place.ToEnter?
                           else op.to.ToSlot? ==> op.to.slot <= MAX_INSTS
          case CallKind => op.to.ToSlot? && op.to.slot <= MAX_INSTS
          case LoadKind => op.to == ToPlace(ToDispatcher)
          case LeaKind => op.to == ToPlace(ToHelperTable))
  }

  predicate OpsOk(ops: seq<Op>) { forall i :: 0 <= i < |ops| ==> OpOk(ops[i]) }

  /** Jumps inside an instruction's code go no further than its end. */
  predicate StaysInside(ops: seq<Op>)
  {
    forall i :: 0 <= i < |ops| && ops[i].Field? && ops[i].to.ToWord? ==> i + ops[i].to.ahead <= |ops|
  }

  datatype Plan = SecondHalf | Slot(entry: bool, bypass: bool, usage: u16, ops: seq<Op>)

  predicate PlanOk(p: Plan) { p.Slot? ==> OpsOk(p.ops) && StaysInside(p.ops) && (p.bypass ==> p.entry) }

  datatype Tail = Tail(epilogue: seq<u32>, dispatcher: seq<u32>, helpers: seq<u32>)

  function Size(c: Code): nat { 4 * |c.words| }

  function TargetOf(n: nat, to: To): Target
  {
    match to
    case ToSlot(slot) => Regular(slot, 0, false)
    case ToPlace(place) => SpecialTarget(place)
    case ToWord(ahead) => Regular(0, if n + ahead > 0 then 4 * (n + ahead) else 0, false)
  }

  function WithWords(c: Code, words: seq<u32>): Code { c.(words := c.words + words) }

  function WithField(c: Code, kind: Kind, base: u32, target: Target): Code
  {
    c.(tables := Append(c.tables, kind, Entry(Size(c), target)), words := c.words + [base])
  }

  function AfterOp(c: Code, op: Op): Code
  {
    match op
    case Word(w) => WithWords(c, [w])
    case Field(kind, base, to) => WithField(c, kind, base, TargetOf(|c.words|, to))
  }

  function AfterOps(c: Code, ops: seq<Op>): Code
  {
    if ops == [] then c else AfterOp(AfterOps(c, ops[..|ops| - 1]), ops[|ops| - 1])
  }

  /** The entry code of slot `i`, if it has any, and its location. */
  function AfterStart(c: Code, i: nat, entry: bool, bypass: bool, usage: u16): Code
  {
    var c1 := if bypass then WithField(c, JumpKind, 0x1400_0000, Regular(0, Size(c) + 4 + 4 * |ArmPrologue(usage)|, false)) else c;
    var c2 := if entry then WithWords(c1, ArmPrologue(usage)) else c1;
    c2.(tables := c2.tables.(
          pcLocs := if i < |c2.tables.pcLocs| then c2.tables.pcLocs[i := Size(c2)] else c2.tables.pcLocs,
          prologSize := if entry && c2.tables.prologSize == 0 then 4 * |ArmPrologue(usage)| else c2.tables.prologSize))
  }

  function AfterSlot(c: Code, i: nat, p: Plan): Code
  {
    match p
    case SecondHalf => c
    case Slot(entry, bypass, usage, ops) => AfterOps(AfterStart(c, i, entry, bypass, usage), ops)
  }

  function AfterSlots(c: Code, plan: seq<Plan>, n: nat): Code
    requires n <= |plan|
  {
    if n == 0 then c else AfterSlot(AfterSlots(c, plan, n - 1), n - 1, plan[n - 1])
  }

  /** The setup code, behind which the program is entered. */
  function AfterSetup(c: Code, setup: seq<Op>): Code
  {
    var d := AfterOps(c, setup);
    d.(entryLoc := Size(d))
  }

  function Marked(c: Code, s: Special): Code
  {
    match s
    case ToExit => c.(tables := c.tables.(exitLoc := Size(c)))
    case ToDispatcher => c.(tables := c.tables.(dispatcherLoc := Size(c)))
    case ToHelperTable => c.(tables := c.tables.(helperLoc := Size(c)))
    case _ => c
  }

  function AfterTail(c: Code, tail: Tail): Code
  {
    var c1 := WithWords(Marked(c, ToExit), tail.epilogue);
    var c2 := WithWords(Marked(c1, ToDispatcher), tail.dispatcher);
    WithWords(Marked(c2, ToHelperTable), tail.helpers)
  }

  function Body(c: Code, setup: seq<Op>, plan: seq<Plan>): Code { AfterSlots(AfterSetup(c, setup), plan, |plan|) }

  function Planned(c: Code, setup: seq<Op>, plan: seq<Plan>, tail: Tail): Code { AfterTail(Body(c, setup, plan), tail) }

  // ---------------------------------------------------------------- what resolution finds

  /** Where a field is to go, if it can be resolved. */
  function Destination(c: Code, kind: Kind, target: Target): Option<int>
  {
    var t := c.tables;
    match kind
    case JumpKind =>
      (match target
       case SpecialTarget(ToExit) => Some(t.exitLoc)
       case SpecialTarget(ToEnter) => Some(c.entryLoc)
       case SpecialTarget(_) => None
       case Regular(slot, jit, _) =>
         if jit != 0 then Some(jit) else if slot < |t.pcLocs| then Some(t.pcLocs[slot]) else None)
    case CallKind =>
      if target.Regular? && target.slot < |t.pcLocs| then Some(t.pcLocs[target.slot] - t.prologSize) else None
    case LoadKind => if target == SpecialTarget(ToDispatcher) then Some(t.dispatcherLoc) else None
    case LeaKind => if target == SpecialTarget(ToHelperTable) then Some(t.helperLoc) else None
  }

  predicate TargetSound(kind: Kind, target: Target)
  {
    match kind
    case JumpKind => if target.SpecialTarget? then target.special.ToExit? || target.special.ToEnter?
                     else target.slot <= MAX_INSTS && target.jit % 4 == 0
    case CallKind => target.Regular? && target.slot <= MAX_INSTS
    case LoadKind => target == SpecialTarget(ToDispatcher)
    case LeaKind => target == SpecialTarget(ToHelperTable)
  }

  /** An entry of code under construction: on a word with an empty field, with a target resolution accepts. */
  predicate EntrySound(c: Code, kind: Kind, e: Entry)
  {
    e.at % 4 == 0 && e.at / 4 < |c.words| && BaseOk(kind, c.words[e.at / 4]) && TargetSound(kind, e.target)
  }

  predicate LocationsSound(c: Code)
  {
    && |c.tables.pcLocs| == MAX_INSTS + 1 && (forall i :: 0 <= i < |c.tables.pcLocs| ==> c.tables.pcLocs[i] % 4 == 0)
    && c.tables.prologSize in {0, ARM_PROLOGUE_SIZE}
    && c.tables.exitLoc % 4 == 0 && c.tables.dispatcherLoc % 4 == 0 && c.tables.helperLoc % 4 == 0 && c.entryLoc % 4 == 0
  }

  ghost predicate Sound(c: Code)
  {
    && Disjoint(c.tables, Size(c)) && LocationsSound(c)
    && (forall kind: Kind, i :: 0 <= i < |TableOf(c.tables, kind)| ==> EntrySound(c, kind, TableOf(c.tables, kind)[i]))
  }

  lemma SoundWords(c: Code, words: seq<u32>)
    requires Sound(c)
    ensures Sound(WithWords(c, words))
  {
    hide TableOf, BaseOk, ApartTables, Spaced;
    DisjointGrows(c.tables, Size(c), Size(WithWords(c, words)));
    forall kind: Kind, i | 0 <= i < |TableOf(c.tables, kind)|
      ensures EntrySound(WithWords(c, words), kind, TableOf(c.tables, kind)[i])
    {
      assert EntrySound(c, kind, TableOf(c.tables, kind)[i]);
    }
  }

  lemma SoundField(c: Code, kind: Kind, base: u32, target: Target)
    requires Sound(c) && BaseOk(kind, base) && TargetSound(kind, target)
    ensures Sound(WithField(c, kind, base, target))
  {
    var d, e := WithField(c, kind, base, target), Entry(Size(c), target);
    AppendDisjoint(c.tables, kind, target, Size(c));
    assert EntrySound(d, kind, e);
    hide TableOf, BaseOk, Append, TargetSound, Disjoint;
    forall k: Kind, i | 0 <= i < |TableOf(d.tables, k)|
      ensures EntrySound(d, k, TableOf(d.tables, k)[i])
    {
      AppendTable(c.tables, kind, e, k);
      if i < |TableOf(c.tables, k)| {
        assert EntrySound(c, k, TableOf(c.tables, k)[i]);
      }
    }
    AppendKeepsLocations(c.tables, kind, e);
  }

  lemma AppendKeepsLocations(t: Tables, kind: Kind, e: Entry)
    ensures var d := Append(t, kind, e);
      && d.pcLocs == t.pcLocs && d.prologSize == t.prologSize && d.exitLoc == t.exitLoc
      && d.dispatcherLoc == t.dispatcherLoc && d.helperLoc == t.helperLoc
  {
  }

  lemma SoundOp(c: Code, op: Op)
    requires Sound(c) && OpOk(op)
    ensures Sound(AfterOp(c, op))
  {
    hide Sound, BaseOk;
    match op
    case Word(w) => SoundWords(c, [w]);
    case Field(kind, base, to) => SoundField(c, kind, base, TargetOf(|c.words|, to));
  }

  lemma {:induction false} SoundOps(c: Code, ops: seq<Op>)
    requires Sound(c) && OpsOk(ops)
    ensures Sound(AfterOps(c, ops))
    decreases |ops|
  {
    hide Sound, AfterOp, OpOk;
    if ops != [] {
      SoundOps(c, ops[..|ops| - 1]);
      SoundOp(AfterOps(c, ops[..|ops| - 1]), ops[|ops| - 1]);
    }
  }

  /** Only the entries and words matter to their own soundness. */
  lemma SoundLocations(c: Code, d: Code)
    requires Sound(c) && LocationsSound(d) && d.words == c.words
    requires d.tables.jumps == c.tables.jumps && d.tables.calls == c.tables.calls
    requires d.tables.loads == c.tables.loads && d.tables.leas == c.tables.leas
    ensures Sound(d)
  {
    assert forall k: Kind :: TableOf(d.tables, k) == TableOf(c.tables, k);
    hide TableOf, BaseOk, ApartTables, Spaced, Within, LocationsSound;
    forall kind: Kind, i | 0 <= i < |TableOf(d.tables, kind)|
      ensures EntrySound(d, kind, TableOf(d.tables, kind)[i])
    {
      assert EntrySound(c, kind, TableOf(c.tables, kind)[i]);
    }
  }

  lemma SoundStart(c: Code, i: nat, entry: bool, bypass: bool, usage: u16)
    requires Sound(c)
    ensures Sound(AfterStart(c, i, entry, bypass, usage))
  {
    hide Disjoint, TableOf, ArmPrologue;
    PrologueWords(usage);
    var c1 := if bypass then WithField(c, JumpKind, 0x1400_0000, Regular(0, Size(c) + 4 + 4 * |ArmPrologue(usage)|, false)) else c;
    if bypass {
      SoundField(c, JumpKind, 0x1400_0000, Regular(0, Size(c) + 4 + 4 * |ArmPrologue(usage)|, false));
    }
    var c2 := if entry then WithWords(c1, ArmPrologue(usage)) else c1;
    SoundWords(c1, ArmPrologue(usage));
    assert Sound(c2);
    SoundLocations(c2, AfterStart(c, i, entry, bypass, usage));
  }

  lemma {:induction false} SoundSlots(c: Code, plan: seq<Plan>, n: nat)
    requires Sound(c) && n <= |plan| && forall i :: 0 <= i < |plan| ==> PlanOk(plan[i])
    ensures Sound(AfterSlots(c, plan, n))
    decreases n
  {
    hide Sound, AfterStart, AfterOps, OpsOk;
    if n > 0 {
      SoundSlots(c, plan, n - 1);
      var d, p := AfterSlots(c, plan, n - 1), plan[n - 1];
      if p.Slot? {
        SoundStart(d, n - 1, p.entry, p.bypass, p.usage);
        SoundOps(AfterStart(d, n - 1, p.entry, p.bypass, p.usage), p.ops);
      }
    }
  }

  lemma SoundMark(c: Code, s: Special, words: seq<u32>)
    requires Sound(c)
    ensures Sound(WithWords(Marked(c, s), words))
  {
    hide Disjoint, TableOf;
    SoundLocations(c, Marked(c, s));
    SoundWords(Marked(c, s), words);
  }

  /** Everything the translator records for a plan can be resolved. */
  lemma SoundPlanned(c: Code, setup: seq<Op>, plan: seq<Plan>, tail: Tail)
    requires Sound(c) && OpsOk(setup) && forall i :: 0 <= i < |plan| ==> PlanOk(plan[i])
    ensures Sound(Body(c, setup, plan)) && Sound(Planned(c, setup, plan, tail))
  {
    hide Sound, AfterOps, AfterSlots, OpsOk, PlanOk, Marked;
    SoundOps(c, setup);
    SoundEntry(AfterOps(c, setup));
    SoundSlots(AfterSetup(c, setup), plan, |plan|);
    var b := Body(c, setup, plan);
    SoundMark(b, ToExit, tail.epilogue);
    var c1 := WithWords(Marked(b, ToExit), tail.epilogue);
    SoundMark(c1, ToDispatcher, tail.dispatcher);
    SoundMark(WithWords(Marked(c1, ToDispatcher), tail.dispatcher), ToHelperTable, tail.helpers);
  }

  lemma SoundEntry(c: Code)
    requires Sound(c)
    ensures Sound(c.(entryLoc := Size(c)))
  {
    hide Disjoint, TableOf;
    SoundLocations(c, c.(entryLoc := Size(c)));
  }

  // ---------------------------------------------------------------- room

  predicate RoomFor(c: Code, size: nat) { |c.words| <= size }

  /** The entries fit the tables, which have as many as there can be instructions. */
  predicate TablesFit(t: Tables) { forall kind: Kind :: |TableOf(t, kind)| <= MAX_INSTS }

  /** What fits the tables later fitted before. */
  lemma FittedBefore(c: Code, d: Code)
    requires Extends(c, d)
    ensures TablesFit(d.tables) ==> TablesFit(c.tables)
  {
    hide TableOf;
    if TablesFit(d.tables) {
      forall kind: Kind
        ensures |TableOf(c.tables, kind)| <= MAX_INSTS
      {
        assert TableOf(c.tables, kind) <= TableOf(d.tables, kind) && |TableOf(d.tables, kind)| <= MAX_INSTS;
      }
    }
  }

  lemma SameFit(t: Tables, t': Tables)
    requires |t'.jumps| == |t.jumps| && t'.calls == t.calls && t'.loads == t.loads && t'.leas == t.leas
    ensures TablesFit(t') == TablesFit(t)
  {
    assert forall k: Kind :: |TableOf(t', k)| == |TableOf(t, k)|;
    hide TableOf;
  }

  lemma FieldFit(c: Code, kind: Kind, base: u32, target: Target)
    requires TablesFit(c.tables)
    ensures TablesFit(WithField(c, kind, base, target).tables) <==> |TableOf(c.tables, kind)| < MAX_INSTS
  {
    var e, d := Entry(Size(c), target), WithField(c, kind, base, target);
    forall k: Kind { AppendTable(c.tables, kind, e, k); }
    hide TableOf, Append;
    if TablesFit(d.tables) {
      assert |TableOf(d.tables, kind)| <= MAX_INSTS;
    }
  }

  // ---------------------------------------------------------------- jumps aimed later

  /** A jump of an instruction's code that is not aimed yet when `at` is reached: it goes there or further. */
  predicate Ahead(e: Entry, at: nat) { e.target.Regular? && e.target.jit != 0 && e.target.jit >= at }

  /** The jumps from the `n`th on whose targets are not reached yet have none. */
  function Unaimed(js: seq<Entry>, n: nat, at: nat): (r: seq<Entry>)
    ensures |r| == |js|
  {
    seq(|js|, p requires 0 <= p < |js| =>
      if p >= n && Ahead(js[p], at) then js[p].(target := Regular(0, 0, false)) else js[p])
  }

  /** The entries an instruction's code adds to the jumps, each at its operation's word. */
  predicate OwnJump(n: nat, ops: seq<Op>, e: Entry)
  {
    && e.at % 4 == 0 && 4 * n <= e.at < 4 * (n + |ops|)
    && var op := ops[e.at / 4 - n]; op.Field? && op.kind.JumpKind? && e.target == TargetOf(e.at / 4, op.to)
  }

  lemma {:induction false} JumpsAdded(c: Code, ops: seq<Op>)
    ensures var js := AfterOps(c, ops).tables.jumps;
      && c.tables.jumps <= js && |AfterOps(c, ops).words| == |c.words| + |ops|
      && (forall p :: |c.tables.jumps| <= p < |js| ==> OwnJump(|c.words|, ops, js[p]))
    decreases |ops|
  {
    if ops != [] {
      var most, op := ops[..|ops| - 1], ops[|ops| - 1];
      JumpsAdded(c, most);
      var d := AfterOps(c, most);
      var js, js' := d.tables.jumps, AfterOp(d, op).tables.jumps;
      forall p | |c.tables.jumps| <= p < |js'|
        ensures OwnJump(|c.words|, ops, js'[p])
      {
        if p < |js| {
          assert OwnJump(|c.words|, most, js[p]);
        }
      }
    }
  }

  /** Of the jumps to the place reached now, those in front of word `k` are aimed already. */
  function HalfAimed(js: seq<Entry>, n: nat, at: nat, k: nat): (r: seq<Entry>)
    ensures |r| == |js|
  {
    seq(|js|, p requires 0 <= p < |js| =>
      if p >= n && Ahead(js[p], at) && (js[p].target.jit > at || js[p].at >= 4 * k)
      then js[p].(target := Regular(0, 0, false)) else js[p])
  }

  /** An operation that jumps to the `i`th one. */
  predicate AimsAt(op: Op, k: nat, i: nat)
  {
    op.Field? && op.kind.JumpKind? && op.to.ToWord? && op.to.ahead > 0 && k + op.to.ahead == i
  }

  /** The jumps `n` and up come from the operations in front of the `i`th, emitted from word `start` on. */
  ghost predicate OwnJumps(js: seq<Entry>, n: nat, start: nat, ops: seq<Op>)
  {
    && (forall p :: 0 <= p < n && p < |js| ==> js[p].at < 4 * start)
    && (forall p :: n <= p < |js| ==> OwnJump(start, ops, js[p]))
  }

  /** One entry, when word `k` of the jumps to the place reached now is aimed. */
  lemma AimEntry(js: seq<Entry>, n: nat, start: nat, ops: seq<Op>, i: nat, k: nat, p: nat)
    requires k < i <= |ops| && OwnJumps(js, n, start, ops[..i]) && p < |js|
    ensures var at := 4 * (start + i);
      var before, after := HalfAimed(js, n, at, start + k)[p], HalfAimed(js, n, at, start + k + 1)[p];
      after == if AimsAt(ops[k], k, i) && before.at == 4 * (start + k) then before.(target := Regular(0, at, false)) else before
  {
    if p >= n {
      assert OwnJump(start, ops[..i], js[p]);
    }
  }

  lemma AimOne(js: seq<Entry>, n: nat, start: nat, ops: seq<Op>, i: nat, k: nat)
    requires k < i <= |ops| && OwnJumps(js, n, start, ops[..i])
    ensures var at := 4 * (start + i);
      HalfAimed(js, n, at, start + k + 1) ==
      if AimsAt(ops[k], k, i) then Retarget(HalfAimed(js, n, at, start + k), 4 * (start + k), Regular(0, at, false))
      else HalfAimed(js, n, at, start + k)
  {
    hide HalfAimed, OwnJumps, AimsAt, Retarget;
    var at := 4 * (start + i);
    var before, after := HalfAimed(js, n, at, start + k), HalfAimed(js, n, at, start + k + 1);
    forall p | 0 <= p < |js|
      ensures after[p] == if AimsAt(ops[k], k, i) && before[p].at == 4 * (start + k)
                          then before[p].(target := Regular(0, at, false)) else before[p]
    {
      AimEntry(js, n, start, ops, i, k, p);
    }
    if AimsAt(ops[k], k, i) {
      forall p | 0 <= p < |js|
        ensures Retarget(before, 4 * (start + k), Regular(0, at, false))[p] == after[p]
      {
        RetargetAt(before, 4 * (start + k), Regular(0, at, false), p);
      }
    }
  }

  lemma AimStarts(js: seq<Entry>, n: nat, start: nat, ops: seq<Op>, i: nat)
    requires i <= |ops| && OwnJumps(js, n, start, ops[..i])
    ensures HalfAimed(js, n, 4 * (start + i), start) == Unaimed(js, n, 4 * (start + i))
    ensures HalfAimed(js, n, 4 * (start + i), start + i) == Unaimed(js, n, 4 * (start + i) + 4)
  {
    var at := 4 * (start + i);
    forall p | 0 <= p < |js|
      ensures HalfAimed(js, n, at, start)[p] == Unaimed(js, n, at)[p]
      ensures HalfAimed(js, n, at, start + i)[p] == Unaimed(js, n, at + 4)[p]
    {
      if p >= n {
        assert OwnJump(start, ops[..i], js[p]);
      }
    }
  }

  /** Behind an instruction's code all its jumps are aimed. */
  lemma AllAimed(js: seq<Entry>, n: nat, start: nat, ops: seq<Op>)
    requires OwnJumps(js, n, start, ops) && StaysInside(ops)
    ensures Unaimed(js, n, 4 * (start + |ops|) + 4) == js
  {
    forall p | 0 <= p < |js|
      ensures Unaimed(js, n, 4 * (start + |ops|) + 4)[p] == js[p]
    {
      if p >= n {
        assert OwnJump(start, ops, js[p]);
      }
    }
  }

  lemma NothingUnaimed(js: seq<Entry>, at: nat)
    ensures Unaimed(js, |js|, at) == js
  {
  }

  /** Jumps of sound code are in front of its end. */
  lemma JumpsBehind(c: Code, ops: seq<Op>)
    requires Sound(c)
    ensures OwnJumps(AfterOps(c, ops).tables.jumps, |c.tables.jumps|, |c.words|, ops)
  {
    hide Sound, AfterOps;
    JumpsAdded(c, ops);
    JumpsWithin(c);
  }

  lemma JumpsWithin(c: Code)
    requires Sound(c)
    ensures Within(c.tables.jumps, Size(c)) && Spaced(c.tables.jumps)
  {
    assert Within(TableOf(c.tables, JumpKind), Size(c)) && Spaced(TableOf(c.tables, JumpKind));
  }

  /** The target a field is recorded with: a jump ahead has none until its place is reached. */
  function FirstTarget(n: nat, to: To): Target
  {
    if to.ToWord? && to.ahead > 0 then Regular(0, 0, false) else TargetOf(n, to)
  }

  /** One more operation, its jump not aimed if it goes ahead. */
  lemma UnaimedOp(c: Code, op: Op, n: nat, at: nat)
    requires n <= |c.tables.jumps| && at == Size(c) && OpOk(op)
    ensures var d, js := AfterOp(c, op), Unaimed(c.tables.jumps, n, at + 4);
      Unaimed(d.tables.jumps, n, at + 4) ==
      js + if op.Field? && op.kind.JumpKind? then [Entry(at, FirstTarget(|c.words|, op.to))] else []
  {
    var d := AfterOp(c, op);
    var js, js' := c.tables.jumps, d.tables.jumps;
    if op.Field? && op.kind.JumpKind? {
      assert js' == js + [Entry(at, TargetOf(|c.words|, op.to))];
    } else {
      assert js' == js;
    }
  }

  lemma SoundRetarget(c: Code, at: nat, jit: nat)
    requires Sound(c) && jit % 4 == 0
    ensures Sound(c.(tables := c.tables.(jumps := Retarget(c.tables.jumps, at, Regular(0, jit, false)))))
  {
    var d := c.(tables := c.tables.(jumps := Retarget(c.tables.jumps, at, Regular(0, jit, false))));
    RetargetKeepsFields(c.tables, at, Regular(0, jit, false), Size(c));
    assert forall k: Kind :: !k.JumpKind? ==> TableOf(d.tables, k) == TableOf(c.tables, k);
    assert TableOf(d.tables, JumpKind) == d.tables.jumps && TableOf(c.tables, JumpKind) == c.tables.jumps;
    hide TableOf, Retarget, Disjoint, BaseOk;
    forall kind: Kind, i | 0 <= i < |TableOf(d.tables, kind)|
      ensures EntrySound(d, kind, TableOf(d.tables, kind)[i])
    {
      assert EntrySound(c, kind, TableOf(c.tables, kind)[i]);
      if kind.JumpKind? {
        RetargetAt(c.tables.jumps, at, Regular(0, jit, false), i);
      }
    }
  }

  /** Later code keeps words and entries, and adds entries behind it only. */
  ghost predicate Extends(c: Code, d: Code)
  {
    && c.words <= d.words
    && (forall kind: Kind :: TableOf(c.tables, kind) <= TableOf(d.tables, kind))
    && (forall kind: Kind, i :: |TableOf(c.tables, kind)| <= i < |TableOf(d.tables, kind)| ==> TableOf(d.tables, kind)[i].at >= Size(c))
  }

  lemma SameExtends(c: Code)
    ensures Extends(c, c)
  {
  }

  lemma ExtendsBoth(c: Code, d: Code, e: Code)
    requires Extends(c, d) && Extends(d, e)
    ensures Extends(c, e)
  {
    hide TableOf;
  }

  lemma WordsExtend(c: Code, words: seq<u32>)
    ensures Extends(c, WithWords(c, words))
  {
  }

  lemma FieldExtends(c: Code, kind: Kind, base: u32, target: Target)
    ensures var d := WithField(c, kind, base, target); Extends(c, d) && d.tables.pcLocs == c.tables.pcLocs
  {
    var e := Entry(Size(c), target);
    forall k: Kind { AppendTable(c.tables, kind, e, k); }
    AppendKeepsLocations(c.tables, kind, e);
    hide TableOf, Append;
  }

  lemma OpExtends(c: Code, op: Op)
    ensures Extends(c, AfterOp(c, op)) && AfterOp(c, op).tables.pcLocs == c.tables.pcLocs
    ensures |AfterOp(c, op).words| == |c.words| + 1
  {
    hide Extends, TargetOf, Append;
    match op
    case Word(w) => WordsExtend(c, [w]);
    case Field(kind, base, to) => FieldExtends(c, kind, base, TargetOf(|c.words|, to));
  }

  lemma {:induction false} OpsExtend(c: Code, ops: seq<Op>, k: nat)
    requires k <= |ops|
    ensures Extends(AfterOps(c, ops[..k]), AfterOps(c, ops))
    ensures AfterOps(c, ops).tables.pcLocs == c.tables.pcLocs && |AfterOps(c, ops).words| == |c.words| + |ops|
    decreases |ops|, k
  {
    hide AfterOp, Extends;
    if ops != [] {
      var most := ops[..|ops| - 1];
      OpsExtend(c, most, if k < |ops| then k else 0);
      OpExtends(AfterOps(c, most), ops[|ops| - 1]);
      if k < |ops| {
        assert most[..k] == ops[..k];
        ExtendsBoth(AfterOps(c, ops[..k]), AfterOps(c, most), AfterOps(c, ops));
      }
    }
    if k == |ops| {
      assert ops[..k] == ops;
      SameExtends(AfterOps(c, ops));
    }
  }

  lemma StartExtends(c: Code, i: nat, entry: bool, bypass: bool, usage: u16)
    ensures var d := AfterStart(c, i, entry, bypass, usage);
      && Extends(c, d) && |d.tables.pcLocs| == |c.tables.pcLocs|
      && (forall j :: 0 <= j < |c.tables.pcLocs| && j != i ==> d.tables.pcLocs[j] == c.tables.pcLocs[j])
      && (i < |c.tables.pcLocs| ==> d.tables.pcLocs[i] == Size(d))
  {
    hide Extends, ArmPrologue, Append;
    var target := Regular(0, Size(c) + 4 + 4 * |ArmPrologue(usage)|, false);
    var c1 := if bypass then WithField(c, JumpKind, 0x1400_0000, target) else c;
    FieldExtends(c, JumpKind, 0x1400_0000, target);
    SameExtends(c);
    var c2 := if entry then WithWords(c1, ArmPrologue(usage)) else c1;
    WordsExtend(c1, ArmPrologue(usage));
    SameExtends(c1);
    ExtendsBoth(c, c1, c2);
    LocationsExtend(c, c2, AfterStart(c, i, entry, bypass, usage));
  }

  lemma LocationsExtend(c: Code, d: Code, d': Code)
    requires Extends(c, d) && d'.words == d.words && d'.tables.jumps == d.tables.jumps && d'.tables.calls == d.tables.calls
    requires d'.tables.loads == d.tables.loads && d'.tables.leas == d.tables.leas
    ensures Extends(c, d')
  {
    assert forall k: Kind :: TableOf(d'.tables, k) == TableOf(d.tables, k);
    hide TableOf;
  }

  lemma SlotExtends(c: Code, i: nat, p: Plan)
    ensures Extends(c, AfterSlot(c, i, p))
    ensures var t, t' := c.tables.pcLocs, AfterSlot(c, i, p).tables.pcLocs;
      |t'| == |t| && forall j :: 0 <= j < |t| && j != i ==> t'[j] == t[j]
  {
    hide Extends, AfterOps, AfterStart;
    match p
    case SecondHalf => SameExtends(c);
    case Slot(entry, bypass, usage, ops) =>
      var d := AfterStart(c, i, entry, bypass, usage);
      StartExtends(c, i, entry, bypass, usage);
      AllOpsExtend(d, ops);
      ExtendsBoth(c, d, AfterOps(d, ops));
  }

  lemma AllOpsExtend(c: Code, ops: seq<Op>)
    ensures Extends(c, AfterOps(c, ops)) && AfterOps(c, ops).tables.pcLocs == c.tables.pcLocs
  {
    hide Extends, AfterOp;
    assert ops[..0] == [];
    OpsExtend(c, ops, 0);
  }

  lemma {:induction false} SlotsExtend(c: Code, plan: seq<Plan>, i: nat, n: nat)
    requires i <= n <= |plan|
    ensures Extends(AfterSlots(c, plan, i), AfterSlots(c, plan, n))
    ensures var t, t' := AfterSlots(c, plan, i).tables.pcLocs, AfterSlots(c, plan, n).tables.pcLocs;
      |t'| == |t| && forall j :: 0 <= j < i && j < |t| ==> t'[j] == t[j]
    decreases n
  {
    hide Extends, AfterSlot;
    if i == n {
      SameExtends(AfterSlots(c, plan, i));
    } else {
      SlotsExtend(c, plan, i, n - 1);
      SlotExtends(AfterSlots(c, plan, n - 1), n - 1, plan[n - 1]);
      ExtendsBoth(AfterSlots(c, plan, i), AfterSlots(c, plan, n - 1), AfterSlots(c, plan, n));
    }
  }

  lemma TailExtends(c: Code, tail: Tail)
    ensures var d := AfterTail(c, tail);
      && Extends(c, d) && d.tables.pcLocs == c.tables.pcLocs && d.tables.prologSize == c.tables.prologSize
      && |d.words| == |c.words| + |tail.epilogue| + |tail.dispatcher| + |tail.helpers|
      && d.tables.helperLoc >= Size(c) && d.tables.leas == c.tables.leas
  {
  }

  // ---------------------------------------------------------------- lengths

  lemma OpsLength(c: Code, ops: seq<Op>)
    ensures |AfterOps(c, ops).words| == |c.words| + |ops|
  {
    hide AfterOp;
    OpsExtend(c, ops, 0);
  }

  lemma SetupLength(c: Code, setup: seq<Op>)
    ensures |AfterSetup(c, setup).words| == |c.words| + |setup|
    ensures TablesFit(AfterSetup(c, setup).tables) == TablesFit(AfterOps(c, setup).tables)
  {
    hide AfterOps;
    OpsLength(c, setup);
  }

  lemma SlotLength(c: Code, i: nat, p: Plan)
    ensures |AfterSlot(c, i, p).words| == |c.words| +
            match p case SecondHalf => 0
                    case Slot(entry, bypass, _, ops) => (if bypass then 1 else 0) + (if entry then 3 else 0) + |ops|
  {
    hide AfterOps, ArmPrologue;
    if p.Slot? {
      PrologueWords(p.usage);
      OpsLength(AfterStart(c, i, p.entry, p.bypass, p.usage), p.ops);
    }
  }

  lemma TailLength(c: Code, tail: Tail)
    ensures |AfterTail(c, tail).words| == |c.words| + |tail.epilogue| + |tail.dispatcher| + |tail.helpers|
  {
  }

  /**
    The status is not looked at behind the tail here either: success is reported for code that is not complete
    exactly when the body fits the buffer and the whole does not.
    */
  lemma CutOffExactly(c: Code, setup: seq<Op>, plan: seq<Plan>, tail: Tail, size: nat)
    ensures var n := |Body(c, setup, plan).words|;
      RoomFor(Body(c, setup, plan), size) && !RoomFor(Planned(c, setup, plan, tail), size) <==>
      n <= size < n + |tail.epilogue| + |tail.dispatcher| + |tail.helpers|
  {
    hide Body;
    TailExtends(Body(c, setup, plan), tail);
  }
}
