/** The ARM64 back end's emission state: a buffer of instruction words, patch tables, and resolution in place. */
module ArmCompiler {
  import opened Words
  import opened Relocation
  import opened ArmEmission
  import opened ArmLayout
  import E = JitEmission
  import Isa

  const MAX_INSTS := Isa.MAX_INSTS

  class ArmState {
    const code: array<u32>
    var offset: nat  // in words
    var full: bool   // the status: not enough space
    var overran: bool  // an entry was written past the end of its table, which the source does not test for
    var jumps: seq<Entry>
    var calls: seq<Entry>
    var loads: seq<Entry>
    var leas: seq<Entry>
    var pcLocs: seq<nat>
    var entryLoc: nat
    var exitLoc: nat
    var dispatcherLoc: nat
    var helperLoc: nat
    var prologSize: nat

    ghost function View(): Tables
      reads this
    {
      Tables(jumps, calls, loads, leas, pcLocs, exitLoc, 0, dispatcherLoc, helperLoc, prologSize)
    }

    ghost function Now(): (c: Code)
      requires offset <= code.Length
      reads this, code
      ensures |c.words| == offset
    {
      Code(View(), entryLoc, code[..offset])
    }

    /** After an error the buffer is full; the tables hold no more than was allocated for them. */
    ghost predicate Valid()
      reads this, code
    {
      && offset <= code.Length && |pcLocs| == MAX_INSTS + 1 && TablesFit(View())
      && if full then offset == code.Length else Sound(Now())
    }

    constructor (size: nat)
      ensures Valid() && fresh(code) && code.Length == size && !full && !overran
      ensures Now() == Start()
    {
      code := new u32[size];
      offset, full, overran, jumps, calls, loads, leas := 0, false, false, [], [], [], [];
      pcLocs := seq(MAX_INSTS + 1, _ => 0);
      entryLoc, exitLoc, dispatcherLoc, helperLoc, prologSize := 0, 0, 0, 0, 0;
    }

    /** `emit_instruction`; unlike on x86-64 the status is not looked at, but a full buffer stays full. */
    method CopyWord(w: u32)
      requires offset <= code.Length
      modifies this`offset, this`full, code
      ensures offset == old(offset) + (if old(offset) < code.Length then 1 else 0) <= code.Length
      ensures full <==> old(full) || old(offset) == code.Length
      ensures code[..offset] == old(code[..offset]) + if old(offset) < code.Length then [w] else []
    {
      if offset == code.Length {
        full := true;
        return;
      }
      ghost var before := code[..offset];
      code[offset] := w;
      offset := offset + 1;
      assert code[..offset] == before + [w];
    }

    method EmitWords(words: seq<u32>)
      requires Valid()
      modifies this`offset, this`full, code
      ensures Valid() && offset >= old(offset)
      ensures !full <==> !old(full) && RoomFor(WithWords(old(Now()), words), code.Length)
      ensures !full ==> Now() == WithWords(old(Now()), words)
    {
      hide Sound;
      var i := 0;
      while i < |words|
        invariant 0 <= i <= |words| && Valid() && offset >= old(offset)
        invariant !full <==> !old(full) && old(offset) + i <= code.Length
        invariant !full ==> Now() == WithWords(old(Now()), words[..i])
      {
        ghost var c := Now();
        CopyWord(words[i]);
        if !full {
          SoundWords(c, [words[i]]);
          assert Now() == WithWords(c, [words[i]]);
        }
        i := i + 1;
      }
      assert words[..i] == words;
    }

    function Recorded(kind: Kind): nat
      reads this
    {
      match kind case JumpKind => |jumps| case CallKind => |calls| case LoadKind => |loads| case LeaKind => |leas|
    }

    /**
      An instruction with a field: the entry is recorded, then the word emitted. The source does not test whether the
      table has room; an entry past its end is left out here and noted.
      */
    method EmitField(kind: Kind, base: u32, target: Target) returns (at: nat)
      requires Valid() && BaseOk(kind, base) && TargetSound(kind, target)
      modifies this`offset, this`full, this`overran, this`jumps, this`calls, this`loads, this`leas, code
      ensures Valid() && at == 4 * old(offset)
      ensures !full <==> !old(full) && RoomFor(WithField(old(Now()), kind, base, target), code.Length)
      ensures overran <==> old(overran) || |TableOf(old(View()), kind)| == MAX_INSTS
      ensures !full ==> offset == old(offset) + 1
      ensures !full ==> Now() == if |TableOf(old(View()), kind)| == MAX_INSTS then WithWords(old(Now()), [base])
                                 else WithField(old(Now()), kind, base, target)
    {
      hide Sound;
      at := 4 * offset;
      ghost var c := Now();
      if Recorded(kind) == MAX_INSTS {
        overran := true;
      } else {
        Record(kind, Entry(at, target));
        FieldFit(c, kind, base, target);
      }
      CopyWord(base);
      if !full {
        SoundField(c, kind, base, target);
        SoundWords(c, [base]);
        assert Now() == if |TableOf(c.tables, kind)| == MAX_INSTS then WithWords(c, [base]) else WithField(c, kind, base, target);
      }
    }

    method Record(kind: Kind, e: Entry)
      modifies this`jumps, this`calls, this`loads, this`leas
      ensures View() == E.Append(old(View()), kind, e)
    {
      match kind {
        case JumpKind => jumps := jumps + [e];
        case CallKind => calls := calls + [e];
        case LoadKind => loads := loads + [e];
        case LeaKind => leas := leas + [e];
      }
    }

    /** `modify_patchable_relatives_target` on the jumps. */
    method ModifyJumpTarget(at: nat, target: Target)
      modifies this`jumps
      ensures jumps == Retarget(old(jumps), at, target)
    {
      var i := 0;
      assert jumps[..0] == Retarget([], at, target);
      while i < |jumps|
        invariant 0 <= i <= |jumps| == |old(jumps)|
        invariant jumps[..i] == Retarget(old(jumps)[..i], at, target)
        invariant forall k :: i <= k < |jumps| ==> jumps[k] == old(jumps)[k]
      {
        ghost var done := jumps[..i];
        if jumps[i].at == at {
          jumps := jumps[i := jumps[i].(target := target)];
        }
        assert jumps[..i + 1] == done + [jumps[i]] && old(jumps)[..i + 1][..i] == old(jumps)[..i];
        i := i + 1;
      }
      assert jumps == jumps[..i] && old(jumps) == old(jumps)[..i];
    }

    /** `ModifyJumpTarget` between operations. */
    method Aim(at: nat, jit: nat)
      requires Valid() && jit % 4 == 0
      modifies this`jumps
      ensures Valid() && jumps == Retarget(old(jumps), at, Regular(0, jit, false))
      ensures Now() == Aimed(old(Now()), at, jit)
    {
      hide Sound, Retarget;
      ghost var c := Now();
      ModifyJumpTarget(at, Regular(0, jit, false));
      SameFit(old(View()), View());
      if !full {
        SoundRetarget(c, at, jit);
        assert Now() == Aimed(c, at, jit);
      }
    }

    /**
      `emit_jump_target` for every jump of this instruction's code that goes to its `i`th operation, which is about to
      be emitted. `js` are the jumps with their final targets, those from the `n`th on this instruction's own.
      */
    method AimHere(ops: seq<Op>, i: nat, start: nat, ghost js: seq<Entry>, ghost n: nat)
      requires Valid() && i <= |ops|
      requires !full && !overran ==>
                 offset == start + i && OwnJumps(js, n, start, ops[..i]) && jumps == Unaimed(js, n, 4 * offset)
      modifies this`jumps
      ensures Valid() && |jumps| == |old(jumps)|
      ensures !full && !overran ==> jumps == Unaimed(js, n, 4 * offset + 4)
    {
      hide Sound, Retarget, Unaimed, HalfAimed, OwnJumps, AimsAt;
      ghost var fine := !full && !overran;
      if fine { AimStarts(js, n, start, ops, i); }
      for k := 0 to i
        invariant Valid() && |jumps| == |old(jumps)|
        invariant fine ==> jumps == HalfAimed(js, n, 4 * (start + i), start + k)
      {
        if fine { AimOne(js, n, start, ops, i, k); }
        if AimsAt(ops[k], k, i) {
          Aim(4 * (start + k), 4 * offset);
        }
      }
    }

    /** One operation; a jump ahead is recorded without a target. */
    method EmitOp(op: Op)
      requires Valid() && OpOk(op)
      modifies this`offset, this`full, this`overran, this`jumps, this`calls, this`loads, this`leas, code
      ensures Valid() && (old(overran) ==> overran)
      ensures !full <==> !old(full) && RoomFor(AfterOp(old(Now()), op), code.Length)
      ensures !full ==> offset == old(offset) + 1
      ensures !full && !old(overran) ==> (overran <==> !TablesFit(AfterOp(old(Now()), op).tables))
      ensures !full && !overran ==> Now() == match op case Word(w) => WithWords(old(Now()), [w])
                                             case Field(kind, base, to) => WithField(old(Now()), kind, base, FirstTarget(old(offset), to))
    {
      hide Sound, WithField, BaseOk, TablesFit;
      match op {
        case Word(w) => EmitWords([w]);
        case Field(kind, base, to) =>
          FieldIsOneWord(Now(), kind, base, TargetOf(offset, to));
          FieldIsOneWord(Now(), kind, base, FirstTarget(offset, to));
          FieldFit(Now(), kind, base, TargetOf(offset, to));
          AtMost(View(), kind);
          var _ := EmitField(kind, base, FirstTarget(offset, to));
      }
    }

    /**
      The first `i` operations of an instruction are emitted behind `c`, jumps ahead not aimed; `was` says whether a table
      overran before.
      */
    ghost predicate Halfway(c: Code, ops: seq<Op>, i: nat, was: bool)
      requires i <= |ops| && offset <= code.Length
      reads this, code
    {
      && (was ==> overran)
      && (!full ==> offset == |c.words| + i)
      && (!full && !was ==> (overran <==> !TablesFit(AfterOps(c, ops[..i]).tables)))
      && (!full && !overran ==> Sound(c) && Now() == Waiting(AfterOps(c, ops[..i]), |c.tables.jumps|, 4 * offset))
    }

    /** The jumps that go to the `i`th operation are aimed, then it is emitted. */
    method EmitNext(ops: seq<Op>, i: nat, start: nat, ghost c: Code, ghost was: bool)
      requires Valid() && i < |ops| && OpOk(ops[i]) && start == |c.words| && Halfway(c, ops, i, was)
      modifies this`offset, this`full, this`overran, this`jumps, this`calls, this`loads, this`leas, code
      ensures Valid() && Halfway(c, ops, i + 1, was)
      ensures !full <==> !old(full) && start + i + 1 <= code.Length
    {
      hide Sound, AfterOps, AfterOp, Extends, Unaimed, TablesFit, OpOk, OwnJumps, WithField, WithWords, FirstTarget;
      ghost var d := AfterOps(c, ops[..i]);
      NextOps(c, ops, i);
      ghost var fine := !full && !overran;
      if fine { JumpsBehind(c, ops[..i]); }
      AimHere(ops, i, start, d.tables.jumps, |c.tables.jumps|);
      ghost var aimed := Now();
      OpExtends(aimed, ops[i]);
      EmitOp(ops[i]);
      if fine { StepWaits(d, aimed, ops[i], |c.tables.jumps|); }
    }

    /** The code of one instruction. */
    method EmitOps(ops: seq<Op>)
      requires Valid() && OpsOk(ops) && StaysInside(ops)
      modifies this`offset, this`full, this`overran, this`jumps, this`calls, this`loads, this`leas, code
      ensures Valid() && (old(overran) ==> overran)
      ensures !full <==> !old(full) && RoomFor(AfterOps(old(Now()), ops), code.Length)
      ensures !full ==> offset == old(offset) + |ops|
      ensures !full && !old(overran) ==> (overran <==> !TablesFit(AfterOps(old(Now()), ops).tables))
      ensures !full && !overran ==> Now() == AfterOps(old(Now()), ops)
    {
      hide Sound, AfterOps, Unaimed, TablesFit, OpOk, StaysInside, OwnJumps;
      ghost var c := Now();
      var start := offset;
      FirstOps(c, ops);
      NothingUnaimed(jumps, 4 * offset);
      OpsLength(c, ops);
      var i := 0;
      while i < |ops|
        invariant 0 <= i <= |ops| && Valid() && Halfway(c, ops, i, old(overran))
        invariant !full <==> !old(full) && start + i <= code.Length
      {
        EmitNext(ops, i, start, c, old(overran));
        i := i + 1;
      }
      assert ops[..i] == ops;
      if !full && !overran { JumpsBehind(c, ops); }
      AimHere(ops, i, start, AfterOps(c, ops).tables.jumps, |c.tables.jumps|);
      if !full && !overran { AllAimed(AfterOps(c, ops).tables.jumps, |c.tables.jumps|, start, ops); }
    }

    /**
      The code in front of a slot: the branch around the prologue, given its target once the prologue is out, the
      prologue, and the slot's location. `sizeOk` is what the source asserts of the prologue's size: it holds exactly
      when there is no earlier prologue or the buffer did not run out.
      */
    method StartSlot(i: nat, entry: bool, bypass: bool, usage: u16) returns (sizeOk: bool)
      requires Valid() && i < MAX_INSTS && (bypass ==> entry)
      modifies this, code
      ensures Valid() && (old(overran) ==> overran)
      ensures !old(full) ==> (sizeOk <==> !entry || old(prologSize) == 0 || !full)
      ensures !full <==> !old(full) && RoomFor(AfterStart(old(Now()), i, entry, bypass, usage), code.Length)
      ensures !full ==> offset == |AfterStart(old(Now()), i, entry, bypass, usage).words|
      ensures !full && !old(overran) ==> (overran <==> !TablesFit(AfterStart(old(Now()), i, entry, bypass, usage).tables))
      ensures !full && !overran ==> Now() == AfterStart(old(Now()), i, entry, bypass, usage)
    {
      hide Sound, ArmPrologue, TablesFit, AfterStart, WithField, WithWords, Sized, Aimed, Located;
      ghost var c := Now();
      StartFits(c, i, entry, bypass, usage);
      if !full { SizeIs(c); }
      sizeOk := true;
      if bypass {
        sizeOk := EmitBypassed(usage);
      } else if entry {
        sizeOk := EmitPrologue(usage);
      }
      SetLocation(i);
      if !full && !overran {
        StartAimed(c, i, entry, bypass, usage);
      }
    }

    /** A prologue and a branch around it. */
    method EmitBypassed(usage: u16) returns (sizeOk: bool)
      requires Valid()
      modifies this`offset, this`full, this`overran, this`jumps, this`calls, this`loads, this`leas, this`prologSize, code
      ensures Valid() && (old(prologSize) in {0, ARM_PROLOGUE_SIZE} ==> (sizeOk <==> old(prologSize) == 0 || !full))
      ensures overran <==> old(overran) || |old(jumps)| == MAX_INSTS
      ensures !full <==> !old(full) && old(offset) + 4 <= code.Length
      ensures !full ==> offset == old(offset) + 4
      ensures !full && !overran ==> Now() == Bypassed(old(Now()), usage)
    {
      hide Sound, ArmPrologue, TablesFit, WithField, WithWords, Sized, Aimed;
      FieldIsOneWord(Now(), JumpKind, 0x1400_0000, Regular(0, 0, false));
      AtMost(View(), JumpKind);
      var source := EmitField(JumpKind, 0x1400_0000, Regular(0, 0, false));
      sizeOk := EmitPrologue(usage);
      Aim(source, 4 * offset);
    }

    /** The prologue. Its size is recorded the first time and compared after that. */
    method EmitPrologue(usage: u16) returns (sizeOk: bool)
      requires Valid()
      modifies this`offset, this`full, this`prologSize, code
      ensures Valid() && (old(prologSize) in {0, ARM_PROLOGUE_SIZE} ==> (sizeOk <==> old(prologSize) == 0 || !full))
      ensures !full <==> !old(full) && old(offset) + 3 <= code.Length
      ensures !full ==> offset == old(offset) + 3 && Now() == Sized(WithWords(old(Now()), ArmPrologue(usage)))
    {
      hide Sound, ArmPrologue;
      ghost var c := Now();
      PrologueWords(usage);
      if !full { SizeIs(c); }
      var start := offset;
      EmitWords(ArmPrologue(usage));
      sizeOk := true;
      if prologSize == 0 {
        prologSize := 4 * (offset - start);
      } else {
        sizeOk := prologSize == 4 * (offset - start);
      }
      SameFit(old(View()), View());
      if !full { KeepsSound(c, Now(), ArmPrologue(usage)); }
    }

    method SetLocation(i: nat)
      requires Valid() && i < MAX_INSTS
      modifies this`pcLocs
      ensures Valid() && Now() == Located(old(Now()), i)
    {
      hide Disjoint, TableOf, EntrySound;
      ghost var c := Now();
      pcLocs := pcLocs[i := 4 * offset];
      SameFit(old(View()), View());
      if !full {
        SoundLocations(c, Now());
      }
    }

    method EmitSlot(plan: seq<Plan>, i: nat)
      requires Valid() && i < |plan| < MAX_INSTS && PlanOk(plan[i])
      modifies this, code
      ensures Valid() && (old(overran) ==> overran)
      ensures !full <==> !old(full) && RoomFor(AfterSlot(old(Now()), i, plan[i]), code.Length)
      ensures !full ==> offset == |AfterSlot(old(Now()), i, plan[i]).words|
      ensures !full && !old(overran) ==> (overran <==> !TablesFit(AfterSlot(old(Now()), i, plan[i]).tables))
      ensures !full && !overran ==> Now() == AfterSlot(old(Now()), i, plan[i])
    {
      hide Sound, AfterOps, AfterStart, OpsOk, StaysInside, Extends, TablesFit, TableOf;
      match plan[i] {
        case SecondHalf => FitsNow();
        case Slot(entry, bypass, usage, ops) =>
          ghost var c := AfterStart(Now(), i, entry, bypass, usage);
          var _ := StartSlot(i, entry, bypass, usage);
          OpsLength(c, ops);
          if !full { OpsLength(Now(), ops); }
          AllOpsExtend(c, ops);
          FittedBefore(c, AfterOps(c, ops));
          EmitOps(ops);
      }
    }

    lemma FitsNow()
      requires Valid()
      ensures TablesFit(View())
    {
    }

    /**
      The epilogue, the dispatcher's address and the helper table, without a look at the status. What is in the buffer
      behind them is a prefix of the tail, and exactly `Kept` words; the places are recorded from where that ends.
      */
    method EmitTail(tail: Tail)
      requires Valid() && !full && TailOk(tail)
      modifies this`offset, this`full, this`exitLoc, this`dispatcherLoc, this`helperLoc, code
      ensures offset == Kept(old(offset), tail, code.Length) <= code.Length && code[..offset] <= AfterTail(old(Now()), tail).words
      ensures exitLoc == 4 * old(offset) && dispatcherLoc == 4 * Least(old(offset) + |tail.epilogue|, code.Length)
      ensures helperLoc == dispatcherLoc + if dispatcherLoc + 8 <= 4 * code.Length then 8 else 0
      ensures !full <==> RoomFor(AfterTail(old(Now()), tail), code.Length)
      ensures !full ==> Now() == AfterTail(old(Now()), tail)
    {
      hide Sound, TablesFit, TableOf, AfterTail, Least, Kept;
      ghost var c := Now();
      AfterTailIs(c, tail);
      TailRuns(offset, tail, code.Length);
      EmitParts(tail);
      assert !full ==> code[..offset] == AfterTail(c, tail).words;
    }

    method EmitParts(tail: Tail)
      requires offset <= code.Length && !full && TailOk(tail)
      modifies this`offset, this`full, this`exitLoc, this`dispatcherLoc, this`helperLoc, code
      ensures offset == Kept(old(offset), tail, code.Length) <= code.Length
      ensures code[..offset] <= old(code[..offset]) + tail.epilogue + tail.dispatcher + tail.helpers
      ensures exitLoc == 4 * old(offset) && dispatcherLoc == 4 * Least(old(offset) + |tail.epilogue|, code.Length)
      ensures helperLoc == dispatcherLoc + if dispatcherLoc + 8 <= 4 * code.Length then 8 else 0
      ensures !full <==> old(offset) + |tail.epilogue| + 130 <= code.Length
      ensures !full ==> offset == old(offset) + |tail.epilogue| + 130
    {
      hide Least, Kept;
      ghost var was, n := code[..offset], offset;
      TailRuns(n, tail, code.Length);
      exitLoc := 4 * offset;
      EmitEpilogue(tail.epilogue);
      ghost var i := offset - n;
      dispatcherLoc := 4 * offset;
      EmitUnits(tail.dispatcher);
      ghost var j := offset - n - i;
      helperLoc := 4 * offset;
      EmitUnits(tail.helpers);
      Prefixes(was, tail, i, j, offset - n - i - j);
    }

    /** The words of the epilogue, as many as there is room for. */
    method EmitEpilogue(words: seq<u32>)
      requires offset <= code.Length
      modifies this`offset, this`full, code
      ensures offset == Least(old(offset) + |words|, code.Length)
      ensures code[..offset] == old(code[..offset]) + words[..offset - old(offset)]
      ensures full <==> old(full) || old(offset) + |words| > code.Length
    {
      var i := 0;
      ghost var was := code[..offset];
      while i < |words|
        invariant 0 <= i <= |words| && offset == Least(old(offset) + i, code.Length)
        invariant code[..offset] == was + words[..offset - old(offset)]
        invariant full <==> old(full) || old(offset) + i > code.Length
      {
        CopyWord(words[i]);
        i := i + 1;
      }
    }

    /** Values of eight bytes: one that does not fit is left out as a whole. */
    method EmitUnits(words: seq<u32>)
      requires offset <= code.Length && |words| % 2 == 0
      modifies this`offset, this`full, code
      ensures offset == old(offset) + 2 * Least(|words| / 2, (code.Length - old(offset)) / 2) <= code.Length
      ensures code[..offset] == old(code[..offset]) + words[..offset - old(offset)]
      ensures full <==> old(full) || old(offset) + |words| > code.Length
    {
      var i := 0;
      ghost var was := code[..offset];
      while i < |words|
        invariant 0 <= i <= |words| && i % 2 == 0
        invariant offset == old(offset) + 2 * Least(i / 2, (code.Length - old(offset)) / 2) <= code.Length
        invariant code[..offset] == was + words[..offset - old(offset)]
        invariant full <==> old(full) || old(offset) + i > code.Length
      {
        if offset + 2 > code.Length {
          full := true;
        } else {
          CopyWord(words[i]);
          CopyWord(words[i + 1]);
        }
        i := i + 2;
      }
    }

    // -------------------------------------------------------------- resolution

    /** One of the four resolution loops; it stops at the first entry that cannot be resolved. */
    method ResolveTable(kind: Kind) returns (ok: bool)
      requires offset <= code.Length && EntriesInside(View(), kind, code.Length)
      modifies code
      ensures ok <==> forall i :: 0 <= i < |TableOf(View(), kind)| ==> Destination(Here(), kind, TableOf(View(), kind)[i].target).Some?
      ensures ok ==> forall i :: 0 <= i < |TableOf(View(), kind)| ==> FixedFrom(Here(), old(code[..]), code[..], kind, TableOf(View(), kind)[i])
      ensures forall k :: 0 <= k < code.Length && (forall i :: 0 <= i < |TableOf(View(), kind)| ==> TableOf(View(), kind)[i].at != 4 * k) ==>
                code[k] == old(code[k])
    {
      hide FixedWord, FixedFrom;
      var t := Tables(jumps, calls, loads, leas, pcLocs, exitLoc, 0, dispatcherLoc, helperLoc, prologSize);
      var c := Code(t, entryLoc, []);
      assert t == View() && c == Here();
      var es := TableOf(t, kind);
      ghost var was := code[..];
      hide TableOf, Destination;
      var i := 0;
      while i < |es|
        invariant 0 <= i <= |es|
        invariant forall j :: 0 <= j < i ==> Destination(c, kind, es[j].target).Some?
        invariant Partly(c, kind, es, i, was, code[..])
      {
        var e := es[i];
        var to := Destination(c, kind, e.target);
        if to.None? {
          assert es == TableOf(View(), kind) && es[i] == e;
          return false;
        }
        ghost var b := code[..];
        assert code[e.at / 4] == b[e.at / 4];
        code[e.at / 4] := FixedWord(kind, code[e.at / 4], to.value - e.at);
        OneMore(c, kind, es, i, was, b, code[..]);
        i := i + 1;
      }
      ok := true;
    }

    /** The tables as resolution reads them; the words do not matter. */
    ghost function Here(): Code
      reads this
    {
      Code(View(), entryLoc, [])
    }

    /** `resolve_jumps`, `resolve_loads`, `resolve_leas` and `resolve_local_calls`. */
    method Resolve() returns (ok: bool)
      requires offset <= code.Length && forall kind: Kind :: EntriesInside(View(), kind, code.Length)
      requires forall k: Kind, l: Kind :: Before(k, l) ==> ApartTables(TableOf(View(), k), TableOf(View(), l))
      modifies code
      ensures ok <==> forall kind: Kind, i :: 0 <= i < |TableOf(View(), kind)| ==> Destination(Here(), kind, TableOf(View(), kind)[i].target).Some?
      ensures ok ==> forall kind: Kind, i :: 0 <= i < |TableOf(View(), kind)| ==>
                       FixedFrom(Here(), old(code[..]), code[..], kind, TableOf(View(), kind)[i])
      ensures ok ==> forall k: nat :: k < code.Length && PlainWord(View(), k) ==> code[k] == old(code[k])
    {
      hide TableOf, Destination, ApartTables, FixedFrom, EntriesInside;
      ghost var t, b0 := View(), code[..];
      ok := ResolveTable(JumpKind);
      if !ok { return; }
      ghost var b1 := code[..];
      ok := ResolveTable(LoadKind);
      if !ok { return; }
      ghost var b2 := code[..];
      ok := ResolveTable(LeaKind);
      if !ok { return; }
      ghost var b3 := code[..];
      ok := ResolveTable(CallKind);
      if !ok { return; }
      ghost var b4 := code[..];
      FourTables(Here(), b0, b1, b2, b3, b4);
    }

    // -------------------------------------------------------------- the whole

    /** `translate`: the status is looked at in front of the tail and not after it. */
    method Translate(setup: seq<Op>, plan: seq<Plan>, tail: Tail) returns (ok: bool)
      requires Valid() && !full && !overran
      requires |plan| < MAX_INSTS && OpsOk(setup) && StaysInside(setup) && forall i :: 0 <= i < |plan| ==> PlanOk(plan[i])
      requires TailOk(tail)
      modifies this, code
      ensures offset <= code.Length
      ensures ok <==> RoomFor(Body(old(Now()), setup, plan), code.Length)
      ensures ok ==> (overran <==> !TablesFit(Body(old(Now()), setup, plan).tables)) && CanResolve(Here(), code.Length)
      ensures !full <==> RoomFor(Planned(old(Now()), setup, plan, tail), code.Length)
      ensures !full && !overran ==> ok && Now() == Planned(old(Now()), setup, plan, tail)
    {
      hide Sound, AfterOps, AfterSlot, OpsOk, StaysInside, PlanOk, AfterTail, Extends, TablesFit, CanResolve;
      ghost var c0 := Now();
      EmitOps(setup);
      SetEntry();
      ghost var first := AfterSetup(c0, setup);
      SetupLength(c0, setup);
      var i := 0;
      while i < |plan| && !full
        invariant 0 <= i <= |plan| && Valid()
        invariant !full <==> RoomFor(AfterSlots(first, plan, i), code.Length)
        invariant !full ==> offset == |AfterSlots(first, plan, i).words|
        invariant !full ==> (overran <==> !TablesFit(AfterSlots(first, plan, i).tables))
        invariant !full && !overran ==> Now() == AfterSlots(first, plan, i)
      {
        SlotLength(Now(), i, plan[i]);
        SlotLength(AfterSlots(first, plan, i), i, plan[i]);
        SlotExtends(AfterSlots(first, plan, i), i, plan[i]);
        FittedBefore(AfterSlots(first, plan, i), AfterSlots(first, plan, i + 1));
        EmitSlot(plan, i);
        i := i + 1;
      }
      RoomBefore(first, plan, i, code.Length);
      RoomInWhole(Body(c0, setup, plan), tail, code.Length);
      if full {
        return false;
      }
      ghost var body := Now();
      TailLength(body, tail);
      TailLength(Body(c0, setup, plan), tail);
      EmitTail(tail);
      BodyResolvable(body, Here(), code.Length);
      ok := true;
    }

    method SetEntry()
      requires Valid()
      modifies this`entryLoc
      ensures Valid() && entryLoc == 4 * offset
    {
      hide Sound;
      ghost var c := Now();
      entryLoc := 4 * offset;
      if !full {
        SoundEntry(c);
        assert Now() == c.(entryLoc := Size(c));
      }
    }

    /**
      `ubpf_translate_arm64`. The result `ok` is what the source reports, and it is true exactly when the body fits:
      resolution never fails. `inside` says whether all entries were written inside their tables; if the body fits,
      that is so exactly when it records no more of each kind than were allocated. If everything fits, the result is
      the planned code, resolved.
      */
    method Compile(setup: seq<Op>, plan: seq<Plan>, tail: Tail) returns (ok: bool, inside: bool)
      requires Valid() && !full && !overran
      requires |plan| < MAX_INSTS && OpsOk(setup) && StaysInside(setup) && forall i :: 0 <= i < |plan| ==> PlanOk(plan[i])
      requires TailOk(tail)
      modifies this, code
      ensures ok <==> RoomFor(Body(old(Now()), setup, plan), code.Length)
      ensures ok ==> (inside <==> TablesFit(Body(old(Now()), setup, plan).tables))
      ensures RoomFor(Planned(old(Now()), setup, plan, tail), code.Length) && inside ==>
                ok && Compiled(old(Now()), setup, plan, tail, code[..])
    {
      hide Sound, OpsOk, StaysInside, PlanOk, Body, AfterTail, Resolved, TableOf, ApartTables, Destination, EntriesInside, TablesFit;
      ghost var c0 := Now();
      RoomInWhole(Body(c0, setup, plan), tail, code.Length);
      SoundPlanned(c0, setup, plan, tail);
      ok := Translate(setup, plan, tail);
      inside := !overran;
      if !ok {
        return;
      }
      ghost var b, done := code[..], !full && !overran;
      if done { assert code[..offset] == b[..offset]; }
      ok := Resolve();
      if done {
        PatchedIsResolved(Planned(c0, setup, plan, tail), Here(), b, code[..]);
      }
    }
  }

  // ---------------------------------------------------------------- what the methods rely on

  lemma FieldIsOneWord(c: Code, kind: Kind, base: u32, target: Target)
    ensures |WithField(c, kind, base, target).words| == |c.words| + 1
  {
  }

  function Least(a: int, b: int): int { if a < b then a else b }

  /** One address and a table of 64. */
  predicate TailOk(tail: Tail) { |tail.dispatcher| == 2 && |tail.helpers| == 128 }

  /** How much of the buffer is used behind a tail that starts at word `n`: it may run out, whole values of eight bytes at a time. */
  function Kept(n: nat, tail: Tail, size: nat): int
  {
    var e := n + |tail.epilogue|;
    if e >= size then size else e + 2 * Least(65, (size - e) / 2)
  }

  lemma Prefixes(was: seq<u32>, tail: Tail, i: nat, j: nat, k: nat)
    requires i <= |tail.epilogue| && j <= |tail.dispatcher| && k <= |tail.helpers|
    requires (i == |tail.epilogue| || j == k == 0) && (j == |tail.dispatcher| || k == 0)
    ensures var all, some := was + tail.epilogue + tail.dispatcher + tail.helpers,
                             was + tail.epilogue[..i] + tail.dispatcher[..j] + tail.helpers[..k];
      some <= all && (k == |tail.helpers| && j == |tail.dispatcher| && i == |tail.epilogue| ==> some == all)
  {
  }

  /** Where the epilogue, the address and the table end. */
  lemma TailRuns(n: nat, tail: Tail, size: nat)
    requires TailOk(tail) && n <= size
    ensures var e, o1 := n + |tail.epilogue|, Least(n + |tail.epilogue|, size);
      var o2 := o1 + 2 * Least(1, (size - o1) / 2);
      var o3 := o2 + 2 * Least(64, (size - o2) / 2);
      && n <= o1 <= o2 <= o3 == Kept(n, tail, size) <= size
      && 4 * o2 == 4 * o1 + (if 4 * o1 + 8 <= 4 * size then 8 else 0)
      && (o1 == e || (e > size && o3 == o2 == o1)) && (o2 == o1 + 2 || (e + 2 > size && o3 == o2))
      && (e + 130 <= size ==> o1 == e && o2 == e + 2 && o3 == e + 130)
  {
  }

  lemma AfterTailIs(c: Code, tail: Tail)
    ensures var n := Size(c);
      AfterTail(c, tail) ==
      Code(c.tables.(exitLoc := n, dispatcherLoc := n + 4 * |tail.epilogue|,
                     helperLoc := n + 4 * |tail.epilogue| + 4 * |tail.dispatcher|),
           c.entryLoc, c.words + tail.epilogue + tail.dispatcher + tail.helpers)
  {
  }

  /** The size of the first prologue is the one recorded. */
  function Sized(c: Code): Code
  {
    c.(tables := c.tables.(prologSize := if c.tables.prologSize == 0 then ARM_PROLOGUE_SIZE else c.tables.prologSize))
  }

  function Aimed(c: Code, at: nat, jit: nat): Code
  {
    c.(tables := c.tables.(jumps := Retarget(c.tables.jumps, at, Regular(0, jit, false))))
  }

  function Located(c: Code, i: nat): Code
  {
    c.(tables := c.tables.(pcLocs := if i < |c.tables.pcLocs| then c.tables.pcLocs[i := Size(c)] else c.tables.pcLocs))
  }

  function Bypassed(c: Code, usage: u16): Code
  {
    var d := Sized(WithWords(WithField(c, JumpKind, 0x1400_0000, Regular(0, 0, false)), ArmPrologue(usage)));
    Aimed(d, Size(c), Size(d))
  }

  lemma LocationsAre(c: Code)
    requires Sound(c)
    ensures LocationsSound(c) && |c.tables.pcLocs| == MAX_INSTS + 1
  {
  }

  lemma SizeIs(c: Code)
    requires Sound(c)
    ensures c.tables.prologSize in {0, ARM_PROLOGUE_SIZE}
  {
  }

  lemma AtMost(t: Tables, kind: Kind)
    requires TablesFit(t)
    ensures |TableOf(t, kind)| <= MAX_INSTS
  {
  }

  /** Code of an instruction whose jumps ahead are not aimed yet. */
  function Waiting(d: Code, n: nat, at: nat): Code { d.(tables := d.tables.(jumps := Unaimed(d.tables.jumps, n, at))) }

  lemma FirstOps(c: Code, ops: seq<Op>)
    ensures AfterOps(c, ops[..0]) == c
  {
  }

  lemma NextOps(c: Code, ops: seq<Op>, i: nat)
    requires i < |ops|
    ensures AfterOps(c, ops[..i + 1]) == AfterOp(AfterOps(c, ops[..i]), ops[i])
    ensures |AfterOps(c, ops[..i]).words| == |c.words| + i
    ensures |c.tables.jumps| <= |AfterOps(c, ops[..i]).tables.jumps|
    ensures TablesFit(AfterOps(c, ops[..i + 1]).tables) ==> TablesFit(AfterOps(c, ops[..i]).tables)
  {
    hide AfterOp, Extends, TablesFit;
    assert ops[..i + 1][..i] == ops[..i] && ops[..i + 1][i] == ops[i];
    OpsLength(c, ops[..i]);
    JumpsAdded(c, ops[..i]);
    OpExtends(AfterOps(c, ops[..i]), ops[i]);
    FittedBefore(AfterOps(c, ops[..i]), AfterOps(c, ops[..i + 1]));
  }

  /** One more operation behind code whose jumps ahead are not aimed. */
  lemma StepWaits(d: Code, was: Code, op: Op, n: nat)
    requires was == Waiting(d, n, Size(d) + 4) && n <= |d.tables.jumps| && OpOk(op)
    ensures TablesFit(AfterOp(was, op).tables) == TablesFit(AfterOp(d, op).tables)
    ensures var next := match op case Word(w) => WithWords(was, [w])
                        case Field(kind, base, to) => WithField(was, kind, base, FirstTarget(|was.words|, to));
      next == Waiting(AfterOp(d, op), n, Size(d) + 4)
  {
    hide Unaimed;
    UnaimedOp(d, op, n, Size(d));
    SameFit(AfterOp(d, op).tables, AfterOp(was, op).tables);
  }

  lemma StartFits(c: Code, i: nat, entry: bool, bypass: bool, usage: u16)
    ensures |AfterStart(c, i, entry, bypass, usage).words| == |c.words| + (if bypass then 1 else 0) + if entry then 3 else 0
    ensures TablesFit(c.tables) ==>
              (TablesFit(AfterStart(c, i, entry, bypass, usage).tables) <==> !bypass || |c.tables.jumps| < MAX_INSTS)
  {
    hide ArmPrologue;
    PrologueWords(usage);
    var target := Regular(0, Size(c) + 4 + 4 * |ArmPrologue(usage)|, false);
    var c1 := if bypass then WithField(c, JumpKind, 0x1400_0000, target) else c;
    if TablesFit(c.tables) { FieldFit(c, JumpKind, 0x1400_0000, target); }
    SameFit(c1.tables, AfterStart(c, i, entry, bypass, usage).tables);
  }

  /** Recording the size of the prologue keeps code sound. */
  lemma KeepsSound(d: Code, now: Code, words: seq<u32>)
    requires Sound(d) && now.tables.prologSize in {0, ARM_PROLOGUE_SIZE}
    requires now == WithWords(d, words).(tables := d.tables.(prologSize := now.tables.prologSize))
    ensures Sound(now)
  {
    hide Disjoint, TableOf, EntrySound;
    SoundWords(d, words);
    SoundLocations(WithWords(d, words), now);
  }

  /** Retargeting the branch around the prologue gives the entry its final target. */
  lemma StartAimed(c: Code, i: nat, entry: bool, bypass: bool, usage: u16)
    requires Sound(c) && (bypass ==> entry) && i < MAX_INSTS
    ensures AfterStart(c, i, entry, bypass, usage) ==
            Located(if bypass then Bypassed(c, usage) else if entry then Sized(WithWords(c, ArmPrologue(usage))) else c, i)
  {
    hide Retarget, EntrySound, LocationsSound, ArmPrologue;
    PrologueWords(usage);
    assert LocationsSound(c) && |c.tables.pcLocs| == MAX_INSTS + 1 by { LocationsAre(c); }
    if bypass {
      var es := c.tables.jumps + [Entry(Size(c), Regular(0, 0, false))];
      assert Spaced(TableOf(c.tables, JumpKind)) && Within(TableOf(c.tables, JumpKind), Size(c));
      assert Spaced(es);
      RetargetChangesOne(es, |es| - 1, Regular(0, Size(c) + 16, false));
    }
  }

  lemma RoomBefore(c: Code, plan: seq<Plan>, i: nat, size: nat)
    requires i <= |plan|
    ensures RoomFor(AfterSlots(c, plan, |plan|), size) ==> RoomFor(AfterSlots(c, plan, i), size)
  {
    hide AfterSlot;
    SlotsExtend(c, plan, i, |plan|);
  }

  lemma RoomInWhole(c: Code, tail: Tail, size: nat)
    ensures RoomFor(AfterTail(c, tail), size) ==> RoomFor(c, size)
  {
    TailExtends(c, tail);
  }

  predicate EntriesInside(t: Tables, kind: Kind, size: nat)
  {
    && Spaced(TableOf(t, kind))
    && forall i :: 0 <= i < |TableOf(t, kind)| ==> TableOf(t, kind)[i].at % 4 == 0 && TableOf(t, kind)[i].at / 4 < size
  }

  predicate FixedFrom(c: Code, was: seq<u32>, now: seq<u32>, kind: Kind, e: Entry)
  {
    && e.at / 4 < |was| == |now| && Destination(c, kind, e.target).Some?
    && now[e.at / 4] == FixedWord(kind, was[e.at / 4], Destination(c, kind, e.target).value - e.at)
  }

  /** What a loop has done to the words after its first `n` entries. */
  ghost predicate Partly(c: Code, kind: Kind, es: seq<Entry>, n: nat, was: seq<u32>, now: seq<u32>)
  {
    && n <= |es| && |was| == |now|
    && (forall j :: 0 <= j < n ==> FixedFrom(c, was, now, kind, es[j]))
    && (forall k :: 0 <= k < |was| && (forall j :: 0 <= j < n ==> es[j].at != 4 * k) ==> now[k] == was[k])
  }

  lemma OneMore(c: Code, kind: Kind, es: seq<Entry>, n: nat, was: seq<u32>, b: seq<u32>, now: seq<u32>)
    requires Partly(c, kind, es, n, was, b) && n < |es| && Spaced(es) && Destination(c, kind, es[n].target).Some?
    requires forall j :: 0 <= j < |es| ==> es[j].at % 4 == 0 && es[j].at / 4 < |b|
    requires now == b[es[n].at / 4 := FixedWord(kind, b[es[n].at / 4], Destination(c, kind, es[n].target).value - es[n].at)]
    ensures Partly(c, kind, es, n + 1, was, now)
  {
    hide FixedWord, Destination;
    forall j | 0 <= j < n
      ensures es[j].at / 4 != es[n].at / 4 && es[j].at != es[n].at && FixedFrom(c, was, now, kind, es[j])
    {
      assert es[j].at + 4 <= es[n].at && FixedFrom(c, was, b, kind, es[j]);
    }
    assert b[es[n].at / 4] == was[es[n].at / 4];
  }

  /** What one loop does to the words. */
  ghost predicate OneTable(c: Code, kind: Kind, was: seq<u32>, now: seq<u32>)
  {
    && |was| == |now|
    && (forall i :: 0 <= i < |TableOf(c.tables, kind)| ==> FixedFrom(c, was, now, kind, TableOf(c.tables, kind)[i]))
    && (forall k :: 0 <= k < |was| && (forall i :: 0 <= i < |TableOf(c.tables, kind)| ==> TableOf(c.tables, kind)[i].at != 4 * k) ==>
          now[k] == was[k])
  }

  /** A loop leaves the fields of the other tables alone. */
  lemma OtherKept(c: Code, kind: Kind, other: Kind, was: seq<u32>, now: seq<u32>, i: nat)
    requires OneTable(c, kind, was, now) && EntriesInside(c.tables, kind, |was|) && EntriesInside(c.tables, other, |was|)
    requires kind != other && i < |TableOf(c.tables, other)|
    requires Before(kind, other) ==> ApartTables(TableOf(c.tables, kind), TableOf(c.tables, other))
    requires Before(other, kind) ==> ApartTables(TableOf(c.tables, other), TableOf(c.tables, kind))
    ensures now[TableOf(c.tables, other)[i].at / 4] == was[TableOf(c.tables, other)[i].at / 4]
  {
    hide TableOf, FixedFrom;
    var k := TableOf(c.tables, other)[i].at / 4;
    forall j | 0 <= j < |TableOf(c.tables, kind)|
      ensures TableOf(c.tables, kind)[j].at != 4 * k
    {
    }
  }

  lemma FourTables(c: Code, b0: seq<u32>, b1: seq<u32>, b2: seq<u32>, b3: seq<u32>, b4: seq<u32>)
    requires OneTable(c, JumpKind, b0, b1) && OneTable(c, LoadKind, b1, b2)
    requires OneTable(c, LeaKind, b2, b3) && OneTable(c, CallKind, b3, b4)
    requires forall kind: Kind :: EntriesInside(c.tables, kind, |b0|)
    requires forall k: Kind, l: Kind :: Before(k, l) ==> ApartTables(TableOf(c.tables, k), TableOf(c.tables, l))
    ensures forall kind: Kind, i :: 0 <= i < |TableOf(c.tables, kind)| ==> FixedFrom(c, b0, b4, kind, TableOf(c.tables, kind)[i])
    ensures forall k: nat :: k < |b0| && PlainWord(c.tables, k) ==> b4[k] == b0[k]
  {
    forall kind: Kind, i | 0 <= i < |TableOf(c.tables, kind)|
      ensures FixedFrom(c, b0, b4, kind, TableOf(c.tables, kind)[i])
    {
      hide ApartTables, TableOf;
      match kind
      case JumpKind =>
        OtherKept(c, LoadKind, kind, b1, b2, i);
        OtherKept(c, LeaKind, kind, b2, b3, i);
        OtherKept(c, CallKind, kind, b3, b4, i);
      case LoadKind =>
        OtherKept(c, JumpKind, kind, b0, b1, i);
        OtherKept(c, LeaKind, kind, b2, b3, i);
        OtherKept(c, CallKind, kind, b3, b4, i);
      case LeaKind =>
        OtherKept(c, JumpKind, kind, b0, b1, i);
        OtherKept(c, LoadKind, kind, b1, b2, i);
        OtherKept(c, CallKind, kind, b3, b4, i);
      case CallKind =>
        OtherKept(c, JumpKind, kind, b0, b1, i);
        OtherKept(c, LoadKind, kind, b1, b2, i);
        OtherKept(c, LeaKind, kind, b2, b3, i);
    }
  }

  /** Every entry can be resolved inside the buffer. */
  ghost predicate CanResolve(c: Code, size: nat)
  {
    && (forall kind: Kind :: EntriesInside(c.tables, kind, size))
    && (forall k: Kind, l: Kind :: Before(k, l) ==> ApartTables(TableOf(c.tables, k), TableOf(c.tables, l)))
    && (forall kind: Kind, i :: 0 <= i < |TableOf(c.tables, kind)| ==> Destination(c, kind, TableOf(c.tables, kind)[i].target).Some?)
  }

  /** That is so for the entries of the body, whatever the locations behind it. */
  lemma BodyResolvable(body: Code, c: Code, size: nat)
    requires Sound(body) && |body.words| <= size && |c.tables.pcLocs| == |body.tables.pcLocs|
    requires c.tables.jumps == body.tables.jumps && c.tables.calls == body.tables.calls
    requires c.tables.loads == body.tables.loads && c.tables.leas == body.tables.leas
    ensures CanResolve(c, size)
  {
    assert forall kind: Kind :: TableOf(c.tables, kind) == TableOf(body.tables, kind);
    hide TableOf, BaseOk;
    forall kind: Kind, i | 0 <= i < |TableOf(c.tables, kind)|
      ensures TableOf(c.tables, kind)[i].at % 4 == 0 && TableOf(c.tables, kind)[i].at / 4 < size
      ensures Destination(c, kind, TableOf(c.tables, kind)[i].target).Some?
    {
      assert EntrySound(body, kind, TableOf(body.tables, kind)[i]);
    }
  }

  lemma PatchedIsResolved(c: Code, here: Code, was: seq<u32>, now: seq<u32>)
    requires Sound(c) && here.tables == c.tables && here.entryLoc == c.entryLoc && |c.words| <= |was| == |now| && was[..|c.words|] == c.words
    requires forall kind: Kind, i :: 0 <= i < |TableOf(c.tables, kind)| ==> FixedFrom(here, was, now, kind, TableOf(c.tables, kind)[i])
    requires forall k: nat :: k < |was| && PlainWord(c.tables, k) ==> now[k] == was[k]
    ensures Resolved(c, now)
  {
    hide TableOf, PlainWord, FixedWord, BaseOk, Disjoint, LocationsSound;
    assert forall k :: 0 <= k < |c.words| ==> was[k] == c.words[k];
    forall kind: Kind, i | 0 <= i < |TableOf(c.tables, kind)|
      ensures FieldFixed(c, now, kind, TableOf(c.tables, kind)[i])
    {
      var e := TableOf(c.tables, kind)[i];
      assert EntrySound(c, kind, e) && FixedFrom(here, was, now, kind, e);
      SameDestination(c, here, kind, e.target);
    }
  }

  lemma SameDestination(c: Code, d: Code, kind: Kind, target: Target)
    requires c.tables == d.tables && c.entryLoc == d.entryLoc
    ensures Destination(c, kind, target) == Destination(d, kind, target)
  {
  }
}
