/** The JIT's emission state: a code buffer filled from the front, four patch tables, and resolution in place. */
module JitCompiler {
  import opened Words
  import Isa

  const MAX_INSTS := Isa.MAX_INSTS
  import opened Relocation
  import opened JitEmission
  import opened JitPlan

  datatype Status = NoError | NotEnoughSpace | TooMany(kind: Kind)

  class JitState {
    const buf: array<u8>
    var offset: nat
    var status: Status
    var jumps: seq<Entry>
    var calls: seq<Entry>
    var loads: seq<Entry>
    var leas: seq<Entry>
    var pcLocs: seq<nat>
    var exitLoc: nat
    var retpolineLoc: nat
    var dispatcherLoc: nat
    var helperLoc: nat
    var prologSize: nat
    ghost var entries: map<nat, u16>  // the slots with a prologue, and the usage it stores

    ghost function View(): Tables
      reads this
    {
      Tables(jumps, calls, loads, leas, pcLocs, exitLoc, retpolineLoc, dispatcherLoc, helperLoc, prologSize)
    }

    ghost function Emitted(): seq<u8>
      requires offset <= buf.Length
      reads this, buf
    {
      buf[..offset]
    }

    ghost function Now(): (c: Code)
      requires offset <= buf.Length
      reads this, buf
      ensures |c.bytes| == offset
    {
      Code(View(), Emitted())
    }

    ghost predicate Valid()
      reads this, buf
    {
      && offset <= buf.Length && buf.Length + 2 * PROLOGUE_SIZE < 0x8000_0000 && |pcLocs| == MAX_INSTS + 1
      && (status.NoError? ==> Good(View(), Emitted(), entries))
    }

    /** Between operations: while there is no error, what is recorded can be resolved and is within the limits. */
    ghost predicate Ready()
      reads this, buf
    {
      Valid() && (status.NoError? ==> Shaped(View()) && Limited(View()))
    }

    constructor (size: nat)
      requires size + 2 * PROLOGUE_SIZE < 0x8000_0000
      ensures Ready() && fresh(buf) && buf.Length == size && Emitted() == [] && status.NoError? && entries == map[]
      ensures Now() == Code(NoTables(), [])
    {
      buf := new u8[size];
      offset, status, jumps, calls, loads, leas := 0, NoError, [], [], [], [];
      pcLocs := seq(MAX_INSTS + 1, _ => 0);
      exitLoc, retpolineLoc, dispatcherLoc, helperLoc, prologSize, entries := 0, 0, 0, 0, 0, map[];
    }

    /** `emit_bytes`: nothing is emitted after an error; running out of space is an error. */
    method CopyBytes(data: seq<u8>)
      requires offset <= buf.Length
      modifies this`offset, this`status, buf
      ensures offset <= buf.Length
      ensures status == (if !old(status).NoError? then old(status)
                         else if old(offset) + |data| > buf.Length then NotEnoughSpace else NoError)
      ensures Emitted() == if status.NoError? then old(Emitted()) + data else old(Emitted())
    {
      if !status.NoError? {
        return;
      }
      if offset + |data| > buf.Length {
        status := NotEnoughSpace;
        return;
      }
      ghost var b := Emitted();
      var i := 0;
      while i < |data|
        invariant 0 <= i <= |data| && offset == old(offset) && status == old(status)
        invariant buf[..offset + i] == b + data[..i]
      {
        buf[offset + i] := data[i];
        i := i + 1;
      }
      offset := offset + |data|;
      assert Emitted() == b + data;
    }

    method EmitBytes(data: seq<u8>)
      requires Valid()
      modifies this`offset, this`status, buf
      ensures Valid()
      ensures status.NoError? <==> old(status).NoError? && old(offset) + |data| <= buf.Length
      ensures Emitted() == if status.NoError? then old(Emitted()) + data else old(Emitted())
      ensures offset == if status.NoError? then old(offset) + |data| else old(offset)
    {
      CopyBytes(data);
      assert |Emitted()| == offset && |old(Emitted())| == old(offset);
      if status.NoError? {
        GoodBytes(View(), old(Emitted()), data, entries);
      }
    }

    function Recorded(kind: Kind): nat
      reads this
    {
      match kind case JumpKind => |jumps| case CallKind => |calls| case LoadKind => |loads| case LeaKind => |leas|
    }

    /** Note a patch field at the current offset, then emit its four-byte placeholder. */
    method EmitReloc(kind: Kind, target: Target) returns (at: nat)
      requires Valid() && (target.Regular? ==> target.jit <= offset)
      modifies this`offset, this`status, this`jumps, this`calls, this`loads, this`leas, buf
      ensures Valid() && offset >= old(offset)
      ensures status.NoError? <==>
                old(status).NoError? && old(Recorded(kind)) != MAX_INSTS && old(offset) + 4 <= buf.Length
      ensures View() == if old(Recorded(kind)) == MAX_INSTS then old(View()) else Append(old(View()), kind, Entry(at, target))
      ensures old(Recorded(kind)) != MAX_INSTS ==> at == old(offset)
      ensures Emitted() == old(Emitted()) + if status.NoError? then [0, 0, 0, 0] else []
      ensures offset == old(offset) + if status.NoError? then 4 else 0
    {
      if Recorded(kind) == MAX_INSTS {
        status := TooMany(kind);
        return 0;
      }
      at := offset;
      var e := Entry(at, target);
      match kind {
        case JumpKind => jumps := jumps + [e];
        case CallKind => calls := calls + [e];
        case LoadKind => loads := loads + [e];
        case LeaKind => leas := leas + [e];
      }
      CopyBytes([0, 0, 0, 0]);
      if status.NoError? {
        GoodField(old(View()), old(Emitted()), entries, kind, target);
      }
    }

    /** A RIP-relative load or lea: the table limit is checked before the opcode bytes are emitted. */
    method EmitRipRelative(kind: Kind, opcode: seq<u8>, target: Target)
      requires Valid() && target.SpecialTarget?
      modifies this`offset, this`status, this`jumps, this`calls, this`loads, this`leas, buf
      ensures Valid()
      ensures status.NoError? <==>
                old(status).NoError? && old(Recorded(kind)) != MAX_INSTS && old(offset) + |opcode| + 4 <= buf.Length
      ensures status.NoError? ==>
                && Emitted() == old(Emitted()) + opcode + [0, 0, 0, 0]
                && View() == Append(old(View()), kind, Entry(old(offset) + |opcode|, target))
    {
      if Recorded(kind) == MAX_INSTS {
        status := TooMany(kind);
        return;
      }
      EmitBytes(opcode);
      var _ := EmitReloc(kind, target);
    }

    /** Give every jump whose field is at `at` a new target. */
    method ModifyJumpTarget(at: nat, target: Target)
      requires Valid() && (target.Regular? ==> target.jit <= offset)
      modifies this`jumps
      ensures Valid() && jumps == Retarget(old(jumps), at, target)
    {
      var i := 0;
      assert jumps[..0] == Retarget([], at, target);
      while i < |jumps|
        invariant 0 <= i <= |jumps| == |old(jumps)|
        invariant jumps[..i] == Retarget(old(jumps)[..i], at, target)
        invariant forall k :: i <= k < |jumps| ==> jumps[k] == old(jumps)[k]
      {
        ghost var done := jumps[..i];
        if jumps[i].at == at {
          jumps := jumps[i := jumps[i].(target := target)];
        }
        assert jumps[..i + 1] == done + [jumps[i]] && old(jumps)[..i + 1][..i] == old(jumps)[..i];
        i := i + 1;
      }
      assert jumps == jumps[..i] && old(jumps) == old(jumps)[..i];
      if status.NoError? {
        GoodRetarget(old(View()), Emitted(), entries, at, target);
      }
    }

    /** `emit_jump_target`: the jump emitted at `at` goes here. */
    method EmitJumpTarget(at: nat)
      requires Valid()
      modifies this`jumps
      ensures Valid() && jumps == Retarget(old(jumps), at, Regular(0, offset, false))
    {
      ModifyJumpTarget(at, Regular(0, offset, false));
    }

    /** A run of single-byte emissions. */
    method EmitEach(data: seq<u8>)
      requires Valid()
      modifies this`offset, this`status, buf
      ensures Valid()
      ensures status.NoError? <==> old(status).NoError? && old(offset) + |data| <= buf.Length
      ensures status.NoError? ==> Emitted() == old(Emitted()) + data
      ensures offset >= old(offset) && (!old(status).NoError? ==> !status.NoError? && offset == old(offset))
      ensures old(status).NoError? && !status.NoError? ==> offset < old(offset) + |data| && offset == buf.Length
    {
      hide Good;
      var i := 0;
      while i < |data|
        invariant 0 <= i <= |data| && Valid() && offset >= old(offset)
        invariant status.NoError? ==> old(status).NoError? && Emitted() == old(Emitted()) + data[..i] && offset == old(offset) + i
        invariant status.NoError? <==> old(status).NoError? && (i == 0 || old(offset) + i <= buf.Length)
        invariant !old(status).NoError? ==> !status.NoError? && offset == old(offset)
        invariant old(status).NoError? && !status.NoError? ==> offset < old(offset) + i && offset == buf.Length
      {
        EmitBytes([data[i]]);
        i := i + 1;
      }
    }
  
    /**
      The code in front of a function's first instruction. The source asserts that every prologue has the size of
      the first; that is so exactly when there is no earlier one or emission did not fail.
      */
    method EmitPrologue(usage: u16) returns (sizeOk: bool)
      requires Valid()
      modifies this`offset, this`status, this`prologSize, buf
      ensures Valid()
      ensures status.NoError? <==> old(status).NoError? && old(offset) + PROLOGUE_SIZE <= buf.Length
      ensures status.NoError? ==> prologSize == PROLOGUE_SIZE && Emitted() == old(Emitted()) + Prologue(usage)
      ensures old(prologSize) in {0, PROLOGUE_SIZE} ==> (sizeOk <==> old(prologSize) == 0 || status.NoError?)
    {
      hide Good, Prologue;
      if status.NoError? {
        PrologSizes(View(), Emitted(), entries);
      }
      var start := offset;
      EmitPrologueBytes(usage);
      assert |Emitted()| == offset && |old(Emitted())| == start;
      if prologSize == 0 {
        if status.NoError? {
          GoodSize(View(), Emitted(), entries);
        }
        prologSize, sizeOk := offset - start, true;
      } else {
        sizeOk := prologSize == offset - start;
      }
    }

    method EmitPrologueBytes(usage: u16)
      requires Valid()
      modifies this`offset, this`status, buf
      ensures Valid() && offset >= old(offset)
      ensures status.NoError? <==> old(status).NoError? && old(offset) + PROLOGUE_SIZE <= buf.Length
      ensures status.NoError? ==> Emitted() == old(Emitted()) + Prologue(usage)
      ensures !status.NoError? ==> offset < old(offset) + PROLOGUE_SIZE && (!old(status).NoError? ==> offset == old(offset))
    {
      hide Good, Prologue, Bytes4, Valid;
      PrologueParts(usage);
      EmitOpcodeImm([0x48, 0x81, 0xec], 8);
      EmitOpcodeImm([0x48, 0xc7, 0x04, 0x24], usage);
    }

    /** Opcode bytes one by one, then a 32-bit immediate. */
    method EmitOpcodeImm(opcode: seq<u8>, imm: u32)
      requires Valid()
      modifies this`offset, this`status, buf
      ensures Valid() && offset >= old(offset)
      ensures status.NoError? <==> old(status).NoError? && old(offset) + |opcode| + 4 <= buf.Length
      ensures status.NoError? ==> Emitted() == old(Emitted()) + opcode + Bytes4(imm) && offset == old(offset) + |opcode| + 4
      ensures !status.NoError? ==> if old(status).NoError? then offset < old(offset) + |opcode| + 4 else offset == old(offset)
    {
      hide Good, Bytes4;
      EmitEach(opcode);
      assert |Emitted()| == offset && |old(Emitted())| == old(offset);
      EmitBytes(Bytes4(imm));
      assert |Emitted()| == offset;
    }

    method EmitBypass() returns (source: nat)
      requires Valid()
      modifies this`offset, this`status, this`jumps, this`calls, this`loads, this`leas, buf
      ensures Valid()
      ensures status.NoError? <==> old(status).NoError? && |old(jumps)| != MAX_INSTS && old(offset) + 5 <= buf.Length
      ensures status.NoError? ==>
                && source == old(offset) + 1
                && Emitted() == old(Emitted()) + [0xeb, 0, 0, 0, 0]
                && View() == old(View()).(jumps := old(jumps) + [Entry(source, Regular(0, 0, true))])
    {
      hide Good;
      EmitBytes([0xeb]);
      assert |Emitted()| == offset && |old(Emitted())| == old(offset);
      source := EmitReloc(JumpKind, Regular(0, 0, true));
    }

    /** A function entry: its prologue, with a near jump around it if execution can fall into it. */
    method EmitEntry(bypass: bool, usage: u16) returns (sizeOk: bool)
      requires Valid()
      modifies this`offset, this`status, this`jumps, this`calls, this`loads, this`leas, this`prologSize, buf
      ensures Valid()
      ensures status.NoError? <==>
                && old(status).NoError? && (bypass ==> |old(jumps)| != MAX_INSTS)
                && old(offset) + (if bypass then 5 else 0) + PROLOGUE_SIZE <= buf.Length
      ensures old(status).NoError? ==> (sizeOk <==> old(prologSize) == 0 || status.NoError?)
      ensures status.NoError? ==>
                && Emitted() == old(Emitted()) + (if bypass then [0xeb, 0, 0, 0, 0] else []) + Prologue(usage)
                && View() == old(View()).(
                     prologSize := PROLOGUE_SIZE,
                     jumps := old(jumps) + if bypass then [Entry(old(offset) + 1, Regular(0, offset, true))] else [])
                && (forall k: nat :: offset - PROLOGUE_SIZE <= k < offset ==> Plain(View(), k))
    {
      hide Good, Prologue, Retarget, Plain;
      if status.NoError? {
        PrologSizes(View(), Emitted(), entries);
      }
      var source := 0;
      if bypass {
        source := EmitBypass();
      }
      ghost var b, t, ok := Emitted(), View(), status.NoError?;
      ghost var size := |b|;
      sizeOk := EmitPrologue(usage);
      if bypass {
        ModifyJumpTarget(source, Regular(0, offset, true));
      }
      if status.NoError? {
        assert |Emitted()| == offset;
        PlainPrologue(t, b, entries, bypass, source, Regular(0, offset, true));
        if bypass {
          GoodJumps(t, b, entries);
          RetargetChangesOne(t.jumps, |t.jumps| - 1, Regular(0, offset, true));
        }
      }
    }

    /** What `translate` does before the code of slot `i`: the entry code if it starts a function, then its location. */
    method StartSlot(i: nat, entry: bool, bypass: bool, usage: u16) returns (sizeOk: bool)
      requires Ready() && i < MAX_INSTS && i !in entries && (bypass ==> entry)
      modifies this, buf
      ensures Ready()
      ensures status.NoError? <==>
                old(status).NoError? && RoomFor(AfterStart(old(Now()), i, entry, bypass, usage), buf.Length)
      ensures old(status).NoError? ==> (sizeOk <==> !entry || old(prologSize) == 0 || status.NoError?)
      ensures status.NoError? ==>
                && entries == (if entry then old(entries)[i := usage] else old(entries))
                && Now() == AfterStart(old(Now()), i, entry, bypass, usage)
    {
      hide Good, Prologue, Plain, Shaped;
      sizeOk := true;
      if entry {
        sizeOk := EmitEntry(bypass, usage);
        assert |Emitted()| == offset && |old(Emitted())| == old(offset);
        if status.NoError? {
          GoodEntry(View(), old(Emitted()) + (if bypass then [0xeb, 0, 0, 0, 0] else []), entries, i, usage);
        }
        entries := entries[i := usage];
      } else if status.NoError? {
        assert |Emitted()| == offset;
        GoodLocation(View(), Emitted(), entries, i);
      }
      pcLocs := pcLocs[i := offset];
      if status.NoError? {
        StartShaped(old(Now()), i, entry, bypass, usage);
        assert View() == AfterStart(old(Now()), i, entry, bypass, usage).tables;
      }
    }
  
    /** Plain bytes between operations. */
    method EmitRoomy(data: seq<u8>)
      requires Ready()
      modifies this`offset, this`status, buf
      ensures Ready() && offset >= old(offset) && (!old(status).NoError? ==> offset == old(offset))
      ensures old(status).NoError? && !status.NoError? ==> offset == buf.Length
      ensures status.NoError? <==> old(status).NoError? && old(offset) + |data| <= buf.Length
      ensures status.NoError? <==> old(status).NoError? && RoomFor(WithBytes(old(Now()), data), buf.Length)
      ensures status.NoError? ==> Now() == WithBytes(old(Now()), data)
    {
      hide Good, Shaped;
      EmitEach(data);
    }

    /** An opcode with a patch field behind it. */
    method EmitField(opcode: seq<u8>, kind: Kind, target: Target) returns (at: nat)
      requires Ready() && (target.Regular? ==> target.jit <= offset) && EntryOk(kind, Entry(offset + |opcode|, target))
      modifies this`offset, this`status, this`jumps, this`calls, this`loads, this`leas, buf
      ensures Ready() && offset >= old(offset)
      ensures status.NoError? <==> old(status).NoError? && RoomFor(WithField(old(Now()), opcode, kind, target), buf.Length)
      ensures status.NoError? ==>
                at == old(offset) + |opcode| && Now() == WithField(old(Now()), opcode, kind, target)
    {
      hide Good, Shaped, EntryOk;
      EmitBytes(opcode);
      assert |Emitted()| == offset && |old(Emitted())| == old(offset);
      ghost var t := View();
      at := EmitReloc(kind, target);
      if status.NoError? { ShapedAppend(t, kind, Entry(at, target)); }
    }

    /** The same for a RIP-relative instruction. */
    method EmitRipField(kind: Kind, opcode: seq<u8>, target: Target)
      requires Ready() && target.SpecialTarget? && EntryOk(kind, Entry(offset + |opcode|, target))
      modifies this`offset, this`status, this`jumps, this`calls, this`loads, this`leas, buf
      ensures Ready()
      ensures status.NoError? <==> old(status).NoError? && RoomFor(WithField(old(Now()), opcode, kind, target), buf.Length)
      ensures status.NoError? ==> Now() == WithField(old(Now()), opcode, kind, target)
    {
      hide Good, Shaped, EntryOk;
      EmitRipRelative(kind, opcode, target);
      if status.NoError? { ShapedAppend(old(View()), kind, Entry(old(offset) + |opcode|, target)); }
    }

    method EmitOp(op: Op)
      requires Ready() && OpOk(op)
      modifies this`offset, this`status, this`jumps, this`calls, this`loads, this`leas, buf
      ensures Ready()
      ensures status.NoError? <==> old(status).NoError? && RoomFor(AfterOp(old(Now()), op), buf.Length)
      ensures status.NoError? ==> Now() == AfterOp(old(Now()), op)
    {
      hide Good, Shaped, WithField;
      match op {
        case Raw(bytes) => EmitBytes(bytes);
        case JumpOp(opcode, target) => var _ := EmitField(opcode, JumpKind, target);
        case CallOp(slot) => var _ := EmitField([0xe8], CallKind, Regular(slot, 0, false));
        case LoadOp(opcode) => EmitRipField(LoadKind, opcode, SpecialTarget(ToDispatcher));
        case LeaOp(opcode) => EmitRipField(LeaKind, opcode, SpecialTarget(ToHelperTable));
      }
    }

    method EmitOps(ops: seq<Op>)
      requires Ready() && OpsOk(ops)
      modifies this`offset, this`status, this`jumps, this`calls, this`loads, this`leas, buf
      ensures Ready()
      ensures status.NoError? <==> old(status).NoError? && RoomFor(AfterOps(old(Now()), ops), buf.Length)
      ensures status.NoError? ==> Now() == AfterOps(old(Now()), ops)
    {
      hide Good, Shaped, AfterOp, RoomFor, Limited, Extends;
      HasRoom();
      var i := 0;
      assert ops[..0] == [];
      while i < |ops|
        invariant 0 <= i <= |ops| && Ready() && offset <= buf.Length
        invariant status.NoError? <==> old(status).NoError? && RoomFor(AfterOps(old(Now()), ops[..i]), buf.Length)
        invariant status.NoError? ==> Now() == AfterOps(old(Now()), ops[..i])
      {
        ghost var c := AfterOps(old(Now()), ops[..i]);
        EmitOp(ops[i]);
        assert ops[..i + 1][..i] == ops[..i] && ops[..i + 1][i] == ops[i];
        OpExtends(c, ops[i]);
        if RoomFor(AfterOp(c, ops[i]), buf.Length) { RoomBefore(c, AfterOp(c, ops[i]), buf.Length); }
        i := i + 1;
      }
      assert ops[..i] == ops;
    }

    /** The jump whose field is at `at`, the `n`th, goes here. */
    method AimHere(at: nat, ghost n: nat)
      requires Ready() && (status.NoError? ==> n < |jumps| && jumps[n].at == at)
      modifies this`jumps
      ensures Ready()
      ensures status.NoError? ==> n < |old(jumps)| && Now() == Aim(old(Now()), n, offset)
    {
      hide Good, Shaped, Retarget;
      EmitJumpTarget(at);
      if status.NoError? {
        GoodJumps(old(View()), old(Emitted()), entries);
        RetargetAims(old(Now()), n, offset);
        AimShaped(old(Now()), n, offset);
      }
    }

    /** Two arms: each of the two jumps is aimed when the code it goes to begins. */
    method EmitEither(s: Step)
      requires Ready() && s.Either? && StepOk(s)
      modifies this`offset, this`status, this`jumps, this`calls, this`loads, this`leas, buf
      ensures Ready()
      ensures status.NoError? <==> old(status).NoError? && RoomFor(AfterStep(old(Now()), s), buf.Length)
      ensures status.NoError? ==> Now() == AfterStep(old(Now()), s)
    {
      hide Good, Shaped, AfterOps, AfterStep, Aim, RoomFor, Limited, Append, OpsOk;
      ghost var c := Now();
      RoomInEither(c, s, buf.Length);
      EitherAimed(c, s);
      FirstArmJumps(c, s);
      var skip := EmitField(s.skip, JumpKind, Forward(0));
      EmitOps(s.first);
      var join := EmitField(s.join, JumpKind, Forward(0));
      if status.NoError? { FirstJumpKept(c, s); }
      AimHere(skip, |c.tables.jumps|);
      EmitOps(s.second);
      if status.NoError? { SecondJumpKept(c, s); }
      AimHere(join, |AfterOps(Unset(c, s.skip), s.first).tables.jumps|);
    }

    method EmitStep(s: Step)
      requires Ready() && StepOk(s)
      modifies this`offset, this`status, this`jumps, this`calls, this`loads, this`leas, buf
      ensures Ready()
      ensures status.NoError? <==> old(status).NoError? && RoomFor(AfterStep(old(Now()), s), buf.Length)
      ensures status.NoError? ==> Now() == AfterStep(old(Now()), s)
    {
      hide Good, Shaped, AfterOp, AfterOps, RoomFor;
      match s {
        case One(op) => EmitOp(op);
        case Either(_, _, _, _) => EmitEither(s);
      }
    }

    method EmitSteps(steps: seq<Step>)
      requires Ready() && StepsOk(steps)
      modifies this`offset, this`status, this`jumps, this`calls, this`loads, this`leas, buf
      ensures Ready()
      ensures status.NoError? <==> old(status).NoError? && RoomFor(AfterSteps(old(Now()), steps), buf.Length)
      ensures status.NoError? ==> Now() == AfterSteps(old(Now()), steps)
    {
      hide Good, Shaped, AfterStep, RoomFor, Limited, Extends, StepOk;
      HasRoom();
      var i := 0;
      assert steps[..0] == [];
      while i < |steps|
        invariant 0 <= i <= |steps| && Ready() && offset <= buf.Length
        invariant status.NoError? <==> old(status).NoError? && RoomFor(AfterSteps(old(Now()), steps[..i]), buf.Length)
        invariant status.NoError? ==> Now() == AfterSteps(old(Now()), steps[..i])
      {
        ghost var c := AfterSteps(old(Now()), steps[..i]);
        EmitStep(steps[i]);
        assert steps[..i + 1][..i] == steps[..i] && steps[..i + 1][i] == steps[i];
        StepExtends(c, steps[i]);
        if RoomFor(AfterStep(c, steps[i]), buf.Length) { RoomBefore(c, AfterStep(c, steps[i]), buf.Length); }
        i := i + 1;
      }
      assert steps[..i] == steps;
    }

    lemma HasRoom()
      requires Ready()
      ensures offset <= buf.Length && (status.NoError? ==> RoomFor(Now(), buf.Length))
    {
    }

    /** Overwrite the bytes of one fix. */
    method Apply(f: Fix)
      requires Fits(f, buf.Length)
      modifies buf
      ensures buf[..] == Patched(old(buf[..]), f)
    {
      var i := 0;
      while i < |f.bytes|
        invariant 0 <= i <= |f.bytes|
        invariant forall k :: 0 <= k < buf.Length ==>
                    buf[k] == if f.at <= k < f.at + i then f.bytes[k - f.at] else old(buf[k])
      {
        buf[f.at + i] := f.bytes[i];
        i := i + 1;
      }
    }

    /**
      One of the four resolution loops; it stops at the first entry without a reachable target. `inside` says whether
      all its writes are inside the buffer; one that is not is left out here.
      */
    method ResolveTable(kind: Kind) returns (ok: bool, inside: bool)
      modifies buf
      ensures ok <==> TableResolvable(View(), kind)
      ensures ok ==> (inside <==> AllFit(TableFixes(View(), kind), buf.Length))
      ensures ok ==> buf[..] == PatchInside(old(buf[..]), TableFixes(View(), kind))
    {
      hide Patched, PatchInside, FixOf, Fixes, AllFit, Fits;
      var t := Tables(jumps, calls, loads, leas, pcLocs, exitLoc, retpolineLoc, dispatcherLoc, helperLoc, prologSize);
      assert t == View();
      var es := TableOf(t, kind);
      NoFixes(t, kind, buf[..]);
      inside := true;
      var i := 0;
      while i < |es|
        invariant 0 <= i <= |es| && t == View()
        invariant forall k :: 0 <= k < i ==> FixOf(t, kind, es[k]).Some?
        invariant inside <==> AllFit(Fixes(t, kind, i), buf.Length)
        invariant buf[..] == PatchInside(old(buf[..]), Fixes(t, kind, i))
      {
        var f := FixOf(t, kind, es[i]);
        if f.None? {
          return false, inside;
        }
        NextFix(t, kind, i, old(buf[..]));
        if Fits(f.value, buf.Length) {
          Apply(f.value);
        } else {
          inside := false;
        }
        i := i + 1;
      }
      ok := true;
    }

    /** `resolve_patchable_relatives`: jumps, then local calls, loads and leas. */
    method Resolve() returns (ok: bool, inside: bool)
      modifies buf
      ensures ok <==> Resolvable(View())
      ensures ok ==> (inside <==> AllFit(AllFixes(View()), buf.Length))
      ensures ok && inside ==> buf[..] == PatchAll(old(buf[..]), AllFixes(View()))
    {
      hide TableResolvable, TableFixes, PatchAll, PatchInside, AllFit;
      ghost var t := View();
      var in1, in2, in3, in4;
      ok, in1 := ResolveTable(JumpKind);
      if !ok { return false, false; }
      ok, in2 := ResolveTable(CallKind);
      if !ok { return false, false; }
      ok, in3 := ResolveTable(LoadKind);
      if !ok { return false, false; }
      ok, in4 := ResolveTable(LeaKind);
      if !ok { return false, false; }
      inside := in1 && in2 && in3 && in4;
      forall kind: Kind
        ensures TableResolvable(t, kind) && (inside ==> AllFit(TableFixes(t, kind), buf.Length))
      {
        match kind case JumpKind => case CallKind => case LoadKind => case LeaKind =>
      }
      AllFitsTables(t, buf.Length);
      if inside {
        PatchInOrder(old(buf[..]), t);
        InsideAll(old(buf[..]), TableFixes(t, JumpKind));
        InsideAll(PatchAll(old(buf[..]), TableFixes(t, JumpKind)), TableFixes(t, CallKind));
        ghost var b := PatchAll(PatchAll(old(buf[..]), TableFixes(t, JumpKind)), TableFixes(t, CallKind));
        InsideAll(b, TableFixes(t, LoadKind));
        InsideAll(PatchAll(b, TableFixes(t, LoadKind)), TableFixes(t, LeaKind));
      }
    }

    /** The code of one slot. */
    method EmitSlot(plan: seq<Plan>, i: nat)
      requires Ready() && i < |plan| < MAX_INSTS && PlanOk(plan[i])
      requires status.NoError? ==> EntriesFollow(plan, i, entries) && BypassesFollow(plan, i, View())
      requires i !in entries
      modifies this, buf
      ensures Ready()
      ensures status.NoError? <==> old(status).NoError? && RoomFor(AfterSlot(old(Now()), i, plan[i]), buf.Length)
      ensures status.NoError? ==>
                && Now() == AfterSlot(old(Now()), i, plan[i])
                && EntriesFollow(plan, i + 1, entries) && BypassesFollow(plan, i + 1, View())
    {
      hide Good, Shaped, StepsOk, AfterSteps, RoomFor, AfterStart, Extends;
      match plan[i] {
        case SecondHalf =>
          HasRoom();
        case Slot(entry, bypass, usage, steps) =>
          var sizeOk := StartSlot(i, entry, bypass, usage);
          ghost var c := AfterStart(old(Now()), i, entry, bypass, usage);
          AllStepsExtend(c, steps);
          if RoomFor(AfterSteps(c, steps), buf.Length) { RoomBefore(c, AfterSteps(c, steps), buf.Length); }
          if !status.NoError? {
            return;
          }
          assert sizeOk;
          StartKeeps(plan, i, old(Now()), old(entries));
          EmitSteps(steps);
          if status.NoError? {
            ExtendsJumps(c, Now());
            BypassesGrow(plan, i + 1, c.tables, View());
          }
      }
    }

    /** A one-byte opcode and a jump field, also after an error: then the entry is still recorded. */
    method EmitTailJump(opcode: u8, target: Target) returns (at: nat)
      requires Ready() && Shaped(View()) && target.Regular? && target.slot == 0 && !target.near && target.jit <= offset
      modifies this`offset, this`status, this`jumps, this`calls, this`loads, this`leas, buf
      ensures Ready() && Shaped(View())
      ensures at == old(offset) + if old(status).NoError? && old(offset) < buf.Length then 1 else 0
      ensures offset == at + if status.NoError? then 4 else 0
      ensures View() == old(View()).(jumps := old(jumps) + if |old(jumps)| == MAX_INSTS then [] else [Entry(at, target)])
      ensures status.NoError? <==> old(status).NoError? && |old(jumps)| != MAX_INSTS && old(offset) + 5 <= buf.Length
      ensures status.NoError? <==> old(status).NoError? && RoomFor(WithField(old(Now()), [opcode], JumpKind, target), buf.Length)
      ensures status.NoError? ==> Now() == WithField(old(Now()), [opcode], JumpKind, target)
    {
      hide Good, Shaped;
      EmitBytes([opcode]);
      assert |Emitted()| == offset && |old(Emitted())| == old(offset);
      at := offset;
      var _ := EmitReloc(JumpKind, target);
      if |old(jumps)| != MAX_INSTS {
        ShapedAppend(old(View()), JumpKind, Entry(at, target));
      }
    }

    /**
      `emit_retpoline`: the call's target is known only once the loop behind it is out. `start` is where it would
      begin; after an error in front of it there is no room for four more bytes.
      */
    method EmitRetpoline(ghost start: nat)
      requires Ready() && Shaped(View()) && |jumps| <= MAX_INSTS && Within(jumps, offset)
      requires if status.NoError? then offset == start else buf.Length < start && buf.Length < offset + 4
      modifies this`offset, this`status, this`jumps, this`calls, this`loads, this`leas, buf
      ensures Ready() && Shaped(View())
      ensures calls == old(calls) && loads == old(loads) && leas == old(leas)
      ensures KeptBut(old(jumps), jumps) && (AddedFit(old(jumps), jumps, buf.Length) <==> !Overruns(|old(jumps)|, start, buf.Length))
      ensures status.NoError? <==> old(status).NoError? && RoomFor(AfterRetpoline(old(Now())), buf.Length)
      ensures status.NoError? ==> Now() == AfterRetpoline(old(Now()))
    {
      hide Good, Shaped, Retarget, RoomFor, Limited, AfterRetpoline, Append, Within, KeptBut, AddedFit;
      ghost var c := Now();
      UnaimedSame(c, buf.Length);
      RoomInRetpoline(c, buf.Length);
      var call := EmitTailJump(0xe8, Forward(0));
      var pause := offset;
      EmitRoomy([0xf3, 0x90]);
      var loop := EmitTailJump(0xe9, Forward(pause));
      var past := offset;
      EmitRoomy([0x48, 0x89, 0x04, 0x24, 0xc3]);
      ghost var js := jumps;
      AddedByRetpoline(old(jumps), js, call, loop, pause, start, buf.Length);
      AimRetpolineCall(call, past, c);
      RetargetAdded(old(jumps), js, call, past, old(offset), buf.Length);
    }

    /** The retpoline's call goes past its loop. */
    method AimRetpolineCall(call: nat, past: nat, ghost c: Code)
      requires Ready() && Shaped(View()) && past <= offset
      requires status.NoError? ==> Now() == Unaimed(c) && call == |c.bytes| + 1 && past == |c.bytes| + 12
      modifies this`jumps
      ensures Ready() && Shaped(View()) && jumps == Retarget(old(jumps), call, Forward(past))
      ensures status.NoError? ==> Now() == AfterRetpoline(c)
    {
      hide Good, Shaped, Retarget, AfterRetpoline, Unaimed;
      ModifyJumpTarget(call, Forward(past));
      RetargetShaped(old(View()), call, past);
      if status.NoError? {
        GoodJumps(old(View()), old(Emitted()), entries);
        AimRetpoline(c);
        RetargetAims(old(Now()), |c.tables.jumps|, past);
        AimSize(old(Now()), |c.tables.jumps|, past, buf.Length);
      }
    }

    /** Bytes emitted in pieces; if they do not all fit then there is no room for four more. */
    method EmitPieces(pieces: seq<seq<u8>>)
      requires Ready() && status.NoError? && forall i :: 0 <= i < |pieces| ==> |pieces[i]| <= 4
      modifies this`offset, this`status, buf
      ensures Ready() && offset >= old(offset)
      ensures status.NoError? <==> RoomFor(WithBytes(old(Now()), Flat(pieces)), buf.Length)
      ensures status.NoError? ==> Now() == WithBytes(old(Now()), Flat(pieces)) && offset == old(offset) + |Flat(pieces)|
      ensures !status.NoError? ==> buf.Length < old(offset) + |Flat(pieces)| && buf.Length < offset + 4
    {
      hide Good, Shaped, Limited, Flat;
      var i := 0;
      FlatNext(pieces, 0);
      while i < |pieces|
        invariant 0 <= i <= |pieces| && Ready() && offset >= old(offset)
        invariant status.NoError? <==> old(offset) + |Flat(pieces[..i])| <= buf.Length
        invariant status.NoError? ==> Emitted() == old(Emitted()) + Flat(pieces[..i])
        invariant !status.NoError? ==> buf.Length < offset + 4
      {
        FlatNext(pieces, i);
        EmitBytes(pieces[i]);
        assert |Emitted()| == offset;
        i := i + 1;
      }
      assert pieces[..i] == pieces;
      assert |old(Emitted())| == old(offset);
    }

    /**
      The special locations: the epilogue, the retpoline, the dispatcher's address and the helper table. The status is
      not looked at in between; when there is no room the retpoline's jumps are still recorded.
      */
    method EmitTail(tail: Tail)
      requires Ready() && status.NoError? && TailOk(tail)
      modifies this`offset, this`status, this`jumps, this`calls, this`loads, this`leas, buf
      modifies this`exitLoc, this`retpolineLoc, this`dispatcherLoc, this`helperLoc
      ensures Ready() && Shaped(View())
      ensures status.NoError? <==> RoomFor(AfterTail(old(Now()), tail), buf.Length)
      ensures status.NoError? ==> Now() == AfterTail(old(Now()), tail)
      ensures calls == old(calls) && loads == old(loads) && leas == old(leas) && KeptBut(old(jumps), jumps)
      ensures AddedFit(old(jumps), jumps, buf.Length) <==>
                !Overruns(|old(jumps)|, old(offset) + |Flat(tail.epilogue)|, buf.Length)
    {
      hide Good, Shaped, AfterRetpoline, RoomFor, Flat, KeptBut, AddedFit, Overruns, Within, Marked, WithBytes;
      ghost var c, start := Now(), offset + |Flat(tail.epilogue)|;
      RoomInTail(c, tail, buf.Length);
      GoodWithin(View(), Emitted(), entries);
      SetSpecial(ToExit);
      EmitPieces(tail.epilogue);
      WithinGrows(jumps, |c.bytes|, offset);
      SetSpecial(ToRetpoline);
      EmitRetpoline(start);
      EmitSpecial(ToDispatcher, tail.dispatcher);
      EmitSpecial(ToHelperTable, tail.helpers);
    }

    /** A special location and the bytes that stand there. */
    method EmitSpecial(s: Special, data: seq<u8>)
      requires Ready() && Shaped(View())
      modifies this`offset, this`status, this`exitLoc, this`retpolineLoc, this`dispatcherLoc, this`helperLoc, buf
      ensures Ready() && Shaped(View())
      ensures status.NoError? <==> old(status).NoError? && RoomFor(WithBytes(Marked(old(Now()), s), data), buf.Length)
      ensures status.NoError? ==> Now() == WithBytes(Marked(old(Now()), s), data)
    {
      hide Good, Shaped;
      SetSpecial(s);
      EmitBytes(data);
    }

    method SetSpecial(s: Special)
      requires Ready() && Shaped(View())
      modifies this`exitLoc, this`retpolineLoc, this`dispatcherLoc, this`helperLoc
      ensures Ready() && Shaped(View()) && Now() == Marked(old(Now()), s)
    {
      hide Shaped, Disjoint, HasPrologue;
      match s {
        case ToExit => exitLoc := offset;
        case ToRetpoline => retpolineLoc := offset;
        case ToDispatcher => dispatcherLoc := offset;
        case ToHelperTable => helperLoc := offset;
        case ToEnter =>
      }
      ShapedSame(old(View()), View());
      if status.NoError? {
        assert |Emitted()| == offset;
        GoodSpecials(old(View()), Emitted(), entries, exitLoc, retpolineLoc, dispatcherLoc, helperLoc);
      }
    }

    /** The setup code and every slot; the loop stops at the first error. */
    method EmitBody(setup: seq<Op>, plan: seq<Plan>)
      requires Ready() && status.NoError? && entries == map[]
      requires |plan| < MAX_INSTS && OpsOk(setup) && forall i :: 0 <= i < |plan| ==> PlanOk(plan[i])
      modifies this, buf
      ensures Ready()
      ensures status.NoError? <==> RoomFor(Body(old(Now()), setup, plan), buf.Length)
      ensures status.NoError? ==>
                && Now() == Body(old(Now()), setup, plan)
                && EntriesFollow(plan, |plan|, entries) && BypassesFollow(plan, |plan|, View())
    {
      hide Good, Shaped, OpsOk, PlanOk, EntriesFollow, BypassesFollow, AfterOps, AfterSlot, RoomFor, Limited;
      EmitOps(setup);
      ghost var first := AfterOps(old(Now()), setup);
      NothingYet(plan, entries, View());
      var i := 0;
      while i < |plan| && status.NoError?
        invariant 0 <= i <= |plan| && Ready()
        invariant status.NoError? <==> RoomFor(AfterSlots(first, plan, i), buf.Length)
        invariant status.NoError? ==>
                    && Now() == AfterSlots(first, plan, i)
                    && EntriesFollow(plan, i, entries) && BypassesFollow(plan, i, View())
      {
        NotYetEntry(plan, i, entries);
        EmitSlot(plan, i);
        i := i + 1;
      }
      RoomInSlots(first, plan, i, buf.Length);
    }

    /**
      `translate`: the setup code, every slot and the tail. The status is looked at in front of the tail and not after
      it, so the result says that the body fitted; whether the tail did is only in the status.
      */
    method Translate(setup: seq<Op>, plan: seq<Plan>, tail: Tail) returns (ok: bool)
      requires Ready() && status.NoError? && entries == map[]
      requires |plan| < MAX_INSTS && OpsOk(setup) && TailOk(tail) && forall i :: 0 <= i < |plan| ==> PlanOk(plan[i])
      modifies this, buf
      ensures Ready()
      ensures ok <==> RoomFor(Body(old(Now()), setup, plan), buf.Length)
      ensures status.NoError? <==> RoomFor(Planned(old(Now()), setup, plan, tail), buf.Length)
      ensures status.NoError? ==>
                && ok && Now() == Planned(old(Now()), setup, plan, tail)
                && EntriesFollow(plan, |plan|, entries) && BypassesFollow(plan, |plan|, View())
      ensures ok ==> Shaped(View()) && TailRecorded(Body(old(Now()), setup, plan), View(), tail, buf.Length)
    {
      hide Good, Shaped, OpsOk, PlanOk, EntriesFollow, BypassesFollow, Body, AfterTail, RoomFor, Extends,
           KeptBut, AddedFit, Overruns, Flat, Disjoint, Limited;
      EmitBody(setup, plan);
      RoomInTail(Body(old(Now()), setup, plan), tail, buf.Length);
      if !status.NoError? {
        return false;
      }
      ghost var c := Now();
      GoodDisjoint(View(), Emitted(), entries, offset);
      EmitTail(tail);
      if status.NoError? {
        TailExtends(c, tail);
        ExtendsJumps(c, Now());
        BypassesGrow(plan, |plan|, c.tables, View());
      }
      ok := true;
    }

    /**
      `ubpf_translate_x86_64`: translate, then resolve. The result `ok` is what the source reports, and it is true
      exactly when the body fits: resolution never fails. If everything fits then the code is linked: it is the
      planned code, every field reaches its recorded target and every function's prologue is in place. `inside` says
      whether resolution writes inside the buffer only.
      */
    method Compile(setup: seq<Op>, plan: seq<Plan>, tail: Tail) returns (ok: bool, inside: bool)
      requires Ready() && status.NoError? && entries == map[]
      requires |plan| < MAX_INSTS && OpsOk(setup) && TailOk(tail) && forall i :: 0 <= i < |plan| ==> PlanOk(plan[i])
      modifies this, buf
      ensures ok <==> RoomFor(Body(old(Now()), setup, plan), buf.Length)
      ensures ok ==> var body := Body(old(Now()), setup, plan);
                inside <==> !Overruns(|body.tables.jumps|, |body.bytes| + |Flat(tail.epilogue)|, buf.Length)
      ensures RoomFor(Planned(old(Now()), setup, plan, tail), buf.Length) ==>
                && ok && inside && Linked(View(), buf[..], entries)
                && EntriesFollow(plan, |plan|, entries) && BypassesFollow(plan, |plan|, View())
      ensures RoomFor(Planned(old(Now()), setup, plan, tail), buf.Length) ==>
                var c := Planned(old(Now()), setup, plan, tail);
                c.tables == View() && |c.bytes| == offset && Holds(buf[..], c)
    {
      hide Good, Shaped, OpsOk, Linked, EntriesFollow, BypassesFollow, Body, AfterTail, Holds, RoomFor, Overruns, Flat,
           TailRecorded, AllFit, AllFixes, Resolvable, PatchAll, TailOk, PlanOk;
      RoomInTail(Body(old(Now()), setup, plan), tail, buf.Length);
      var done := Translate(setup, plan, tail);
      if !done {
        return false, true;
      }
      ghost var b := buf[..];
      ShapedResolvable(View());
      TailFits(Body(old(Now()), setup, plan), View(), tail, buf.Length);
      if status.NoError? {
        assert b[..offset] == Emitted();
        GoodResolves(View(), b, offset, entries);
        GoodDisjoint(View(), Emitted(), entries, buf.Length);
        ResolvedHolds(View(), b, offset);
      }
      ok, inside := Resolve();
    }
  }
}
