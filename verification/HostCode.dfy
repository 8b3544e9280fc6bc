/**
  The bytes of a compiled program read back by an x86-64 decoder: prologues, the jumps around them, local calls and
  exits are the code of the call protocol.
  */
module HostCode {
  import opened Words
  import opened Isa
  import opened Machine
  import opened SubPrograms
  import opened ControlFlow
  import opened Relocation
  import opened JitEmission
  import opened JitPlan
  import opened EmissionPlan
  import opened JitProgram
  import P = CallProtocol
  import X = X86Bytes
  import M = X86

  // ---------------------------------------------------------------- reading the protocol

  /** The host instruction is the protocol's: eBPF registers are where the register map puts them, branches go to `to`. */
  predicate Means(x: X.Insn, h: P.HostInst, to: int)
  {
    match h
    case SubTop => x == X.SubTop(M.REGISTER_MAP[10])
    case AddTop => x == X.AddTop(M.REGISTER_MAP[10])
    case PushReg(r) => r < 11 && x == X.Push(M.REGISTER_MAP[r])
    case PopReg(r) => r < 11 && x == X.Pop(M.REGISTER_MAP[r])
    case CallTo(_) => x == X.Call(to)
    case JumpTo(_) => x == X.Jump(to)
    case Ret => x == X.Return
    case Reserve => x == X.AluImm(5, X.RSP, 8)
    case Release => x == X.AluImm(0, X.RSP, 8)
    case StoreTop(usage) => x == X.StoreTopImm(usage)
    case Body(_) => false
    case Leave => false
  }

  /** The bytes from `p` up to `q` are that code, its branch going to `to`. */
  predicate ReadsAs(b: seq<u8>, p: nat, q: nat, code: seq<P.HostInst>, to: int)
    decreases |code|
  {
    if code == [] then p == q
    else
      var d := X.DecodeInsn(b, p);
      d.Some? && Means(d.value.insn, code[0], to) && ReadsAs(b, d.value.next, q, code[1..], to)
  }

  /** Instruction `k`, in front of the rest. */
  lemma ReadsFrom(b: seq<u8>, p: nat, next: nat, q: nat, code: seq<P.HostInst>, k: nat, x: X.Insn, to: int)
    requires k < |code| && X.DecodeInsn(b, p) == Some(X.Decoded(x, next)) && Means(x, code[k], to)
    requires ReadsAs(b, next, q, code[k + 1..], to)
    ensures ReadsAs(b, p, q, code[k..], to)
  {
    hide X.DecodeInsn, Means;
    assert code[k..][1..] == code[k + 1..];
  }

  lemma ReadsNothing(b: seq<u8>, p: nat, code: seq<P.HostInst>, to: int)
    ensures ReadsAs(b, p, p, code[|code|..], to)
  {
  }

  lemma RegisterMapIs()
    ensures M.REGISTER_MAP == [0, 7, 6, 2, 10, 8, 3, 12, 13, 14, 15]
  {
  }

  // ---------------------------------------------------------------- the pieces

  /** `sub rsp, 8` and `mov qword [rsp], usage`. */
  lemma PrologueReads(b: seq<u8>, p: nat, usage: u16)
    requires X.BytesAt(b, p, Prologue(usage))
    ensures ReadsAs(b, p, p + PROLOGUE_SIZE, [P.Reserve, P.StoreTop(usage)], 0)
  {
    hide X.BytesAt, X.DecodeInsn, ReadsAs;
    var bytes, code := Prologue(usage), [P.Reserve, P.StoreTop(usage)];
    X.ThreeOf(b, p, bytes, 0, 0x48, 0x81, 0xec);
    X.FourOf(b, p, bytes, 3, 8, 0, 0, 0);
    X.FourOf(b, p, bytes, 7, 0x48, 0xc7, 0x04, 0x24);
    X.PartAt(b, p, bytes, 11, Bytes4(usage));
    X.AluImmAt(b, p, 0xec, 8);
    X.StoreUsageAt(b, p + 7, usage);
    hide Prologue, Bytes4;
    ReadsNothing(b, p + 15, code, 0);
    ReadsFrom(b, p + 7, p + 15, p + 15, code, 1, X.StoreTopImm(usage), 0);
    ReadsFrom(b, p, p + 7, p + 15, code, 0, X.AluImm(5, X.RSP, 8), 0);
    assert code[0..] == code;
  }

  /** `add rsp, 8` and `ret`. */
  lemma ExitReads(b: seq<u8>, p: nat)
    requires X.BytesAt(b, p, [0x48, 0x81, 0xc4, 8, 0, 0, 0, 0xc3])
    ensures ReadsAs(b, p, p + 8, [P.Release, P.Ret], 0)
  {
    hide X.BytesAt, X.DecodeInsn, ReadsAs;
    var bytes, code := [0x48, 0x81, 0xc4, 8, 0, 0, 0, 0xc3], [P.Release, P.Ret];
    X.ThreeOf(b, p, bytes, 0, 0x48, 0x81, 0xc4);
    X.FourOf(b, p, bytes, 3, 8, 0, 0, 0);
    X.OneOf(b, p, bytes, 7, 0xc3);
    X.AluImmAt(b, p, 0xc4, 8);
    X.ReturnAt(b, p + 7);
    ReadsNothing(b, p + 8, code, 0);
    ReadsFrom(b, p + 7, p + 8, p + 8, code, 1, X.Return, 0);
    ReadsFrom(b, p, p + 7, p + 8, code, 0, X.AluImm(0, X.RSP, 8), 0);
    assert code[0..] == code;
  }

  const SAVE: seq<u8> := [0x4c, 0x2b, 0x3c, 0x24, 0x53, 0x41, 0x54, 0x41, 0x55, 0x41, 0x56]
  const RESTORE: seq<u8> := [0x41, 0x5e, 0x41, 0x5d, 0x41, 0x5c, 0x5b, 0x4c, 0x03, 0x3c, 0x24]

  /** What follows the call: pop the saved registers in reverse, then give the caller's usage back to R10. */
  lemma RestoreReads(b: seq<u8>, p: nat, target: nat, to: int)
    requires X.BytesAt(b, p, RESTORE)
    ensures ReadsAs(b, p, p + 11, P.LocalCallCode(target)[6..], to)
  {
    hide X.BytesAt, X.DecodeInsn, ReadsAs;
    var code := P.LocalCallCode(target);
    RestoreDecodes(b, p);
    RegisterMapIs();
    ReadsNothing(b, p + 11, code, to);
    ReadsFrom(b, p + 7, p + 11, p + 11, code, 10, X.AddTop(15), to);
    ReadsFrom(b, p + 6, p + 7, p + 11, code, 9, X.Pop(3), to);
    ReadsFrom(b, p + 4, p + 6, p + 11, code, 8, X.Pop(12), to);
    ReadsFrom(b, p + 2, p + 4, p + 11, code, 7, X.Pop(13), to);
    ReadsFrom(b, p, p + 2, p + 11, code, 6, X.Pop(14), to);
  }

  lemma RestoreDecodes(b: seq<u8>, p: nat)
    requires X.BytesAt(b, p, RESTORE)
    ensures X.DecodeInsn(b, p) == Some(X.Decoded(X.Pop(14), p + 2))
    ensures X.DecodeInsn(b, p + 2) == Some(X.Decoded(X.Pop(13), p + 4))
    ensures X.DecodeInsn(b, p + 4) == Some(X.Decoded(X.Pop(12), p + 6))
    ensures X.DecodeInsn(b, p + 6) == Some(X.Decoded(X.Pop(3), p + 7))
    ensures X.DecodeInsn(b, p + 7) == Some(X.Decoded(X.AddTop(15), p + 11))
  {
    hide X.BytesAt, X.DecodeInsn;
    X.TwoOf(b, p, RESTORE, 0, 0x41, 0x5e);
    X.TwoOf(b, p, RESTORE, 2, 0x41, 0x5d);
    X.TwoOf(b, p, RESTORE, 4, 0x41, 0x5c);
    X.OneOf(b, p, RESTORE, 6, 0x5b);
    X.FourOf(b, p, RESTORE, 7, 0x4c, 0x03, 0x3c, 0x24);
    X.PopAt(b, p, 14);
    X.PopAt(b, p + 2, 13);
    X.PopAt(b, p + 4, 12);
    X.PopAt(b, p + 6, 3);
    X.AddTopAt(b, p + 7);
  }

  /** A local call: the usage off R10, four registers pushed, the call, and the reverse behind it. */
  lemma LocalCallReads(b: seq<u8>, p: nat, target: nat)
    requires X.BytesAt(b, p, SAVE) && X.BytesAt(b, p + 11, [0xe8]) && X.BytesAt(b, p + 16, RESTORE)
    ensures ReadsAs(b, p, p + 27, P.LocalCallCode(target), Lands(b, p + 12))
  {
    hide X.DecodeInsn, ReadsAs, Lands;
    var code, to := P.LocalCallCode(target), Lands(b, p + 12);
    RestoreReads(b, p + 16, target, to);
    X.OneByte(b, p + 11, 0xe8);
    X.BranchAt(b, p + 11);
    hide X.BytesAt;
    ReadsFrom(b, p + 11, p + 16, p + 27, code, 5, X.Call(to), to);
    SaveReads(b, p, p + 27, target, to);
  }

  lemma SaveReads(b: seq<u8>, p: nat, q: nat, target: nat, to: int)
    requires X.BytesAt(b, p, SAVE) && ReadsAs(b, p + 11, q, P.LocalCallCode(target)[5..], to)
    ensures ReadsAs(b, p, q, P.LocalCallCode(target), to)
  {
    hide X.BytesAt, X.DecodeInsn, ReadsAs;
    var code := P.LocalCallCode(target);
    SaveDecodes(b, p);
    RegisterMapIs();
    ReadsFrom(b, p + 9, p + 11, q, code, 4, X.Push(14), to);
    ReadsFrom(b, p + 7, p + 9, q, code, 3, X.Push(13), to);
    ReadsFrom(b, p + 5, p + 7, q, code, 2, X.Push(12), to);
    ReadsFrom(b, p + 4, p + 5, q, code, 1, X.Push(3), to);
    ReadsFrom(b, p, p + 4, q, code, 0, X.SubTop(15), to);
    assert code[0..] == code;
  }

  lemma SaveDecodes(b: seq<u8>, p: nat)
    requires X.BytesAt(b, p, SAVE)
    ensures X.DecodeInsn(b, p) == Some(X.Decoded(X.SubTop(15), p + 4))
    ensures X.DecodeInsn(b, p + 4) == Some(X.Decoded(X.Push(3), p + 5))
    ensures X.DecodeInsn(b, p + 5) == Some(X.Decoded(X.Push(12), p + 7))
    ensures X.DecodeInsn(b, p + 7) == Some(X.Decoded(X.Push(13), p + 9))
    ensures X.DecodeInsn(b, p + 9) == Some(X.Decoded(X.Push(14), p + 11))
  {
    hide X.BytesAt, X.DecodeInsn;
    X.FourOf(b, p, SAVE, 0, 0x4c, 0x2b, 0x3c, 0x24);
    X.OneOf(b, p, SAVE, 4, 0x53);
    X.TwoOf(b, p, SAVE, 5, 0x41, 0x54);
    X.TwoOf(b, p, SAVE, 7, 0x41, 0x55);
    X.TwoOf(b, p, SAVE, 9, 0x41, 0x56);
    X.SubTopAt(b, p);
    X.PushAt(b, p + 4, 3);
    X.PushAt(b, p + 5, 12);
    X.PushAt(b, p + 7, 13);
    X.PushAt(b, p + 9, 14);
  }

  // ---------------------------------------------------------------- compiled programs

  /** Where the code of slot `i` begins, entry code included. */
  function SlotStart(env: Env, code: nat -> seq<u8>, jump: nat -> seq<u8>, setup: seq<JOp>, i: nat): nat
  {
    if i <= |env.prog| <= 65535 then |UpTo(Start(), setup, PlanOf(env, code, jump), i).bytes| else 0
  }

  /** The code of slot `i` ends where that of the next begins. */
  lemma SlotEnds(env: Env, code: nat -> seq<u8>, jump: nat -> seq<u8>, setup: seq<JOp>, i: nat)
    requires i < |env.prog| <= 65535 && env.prog[i].opcode != 0
    ensures var steps := StepsOf(env, code, jump, i);
      SlotStart(env, code, jump, setup, i + 1) == SlotAt(env, code, jump, setup, i) + StepsLength(steps, |steps|)
  {
    hide StepsOf, StepsLength, AfterSteps, AfterStart, AfterSlots;
    var plan := PlanOf(env, code, jump);
    PlanSlot(env, code, jump, i);
    hide PlanOf;
    var steps := plan[i].steps;
    StepLocated(Start(), setup, plan, i, |steps|);
    UpToNext(Start(), setup, plan, i);
    assert steps[..|steps|] == steps;
  }

  /** The operation that is step `k` of slot `i` stands where the steps before it end. */
  lemma StepAt(env: Env, code: nat -> seq<u8>, jump: nat -> seq<u8>, setup: seq<JOp>, tail: Tail,
               b: seq<u8>, entries: map<nat, u16>, i: nat, k: nat)
    requires Compiled(env, code, jump, setup, tail, b, entries) && i < |env.prog| <= 65535 && env.prog[i].opcode != 0
    requires var steps := StepsOf(env, code, jump, i); k < |steps| && steps[k].One?
    ensures var steps := StepsOf(env, code, jump, i);
      OpAt(b, SlotAt(env, code, jump, setup, i) + StepsLength(steps, k), steps[k].op)
  {
    hide Loaded, CallsHitFirstSlots, Linked, Holds, Planned, UpToStep, OpAt, StepsOf, StepsLength;
    var plan := PlanOf(env, code, jump);
    PlanSlot(env, code, jump, i);
    hide PlanOf;
    assert Inside(Start());
    StepLocated(Start(), setup, plan, i, k);
    StepStays(Start(), setup, plan, tail, i, k, b);
  }

  lemma BytesThere(b: seq<u8>, at: nat, op: JOp)
    requires OpAt(b, at, op)
    ensures at + OpLength(op) <= |b| && X.BytesAt(b, at, FixedBytes(op))
  {
    X.BytesAre(b, at, FixedBytes(op));
  }

  lemma ExitSteps(env: Env, code: nat -> seq<u8>, jump: nat -> seq<u8>, i: nat)
    requires i < |env.prog| && env.prog[i].opcode == 0x95
    ensures StepsOf(env, code, jump, i) == [One(JOp.Raw([0x48, 0x81, 0xc4, 8, 0, 0, 0, 0xc3]))]
  {
  }

  lemma CallSteps(env: Env, code: nat -> seq<u8>, jump: nat -> seq<u8>, i: nat)
    requires IsLocalCall(env.prog, i) && 0 <= CallTarget(env.prog, i)
    ensures var steps := StepsOf(env, code, jump, i);
      && steps == LocalCall(CallTarget(env.prog, i)) && |steps| == 3
      && steps[0] == One(JOp.Raw(SAVE)) && steps[1] == One(JOp.CallOp(CallTarget(env.prog, i))) && steps[2] == One(JOp.Raw(RESTORE))
      && StepsLength(steps, 0) == 0 && StepsLength(steps, 1) == 11 && StepsLength(steps, 2) == 16 && StepsLength(steps, 3) == 27
  {
    var steps := LocalCall(CallTarget(env.prog, i));
    assert StepsLength(steps, 0) == 0 && StepsLength(steps, 1) == 11 && StepsLength(steps, 2) == 16;
  }

  lemma CompiledSize(env: Env, code: nat -> seq<u8>, jump: nat -> seq<u8>, setup: seq<JOp>, tail: Tail,
                     b: seq<u8>, entries: map<nat, u16>)
    requires Compiled(env, code, jump, setup, tail, b, entries)
    ensures |env.prog| <= 65535 && CallsInRange(env.prog)
  {
    hide LinkedPlan;
    PlanOfOk(env, code, jump);
  }

  /** EXIT is compiled to the protocol's code for it. */
  lemma ExitCompiles(env: Env, code: nat -> seq<u8>, jump: nat -> seq<u8>, setup: seq<JOp>, tail: Tail,
                     b: seq<u8>, entries: map<nat, u16>, i: nat)
    requires Compiled(env, code, jump, setup, tail, b, entries) && i < |env.prog| && env.prog[i].opcode == 0x95
    ensures CallsInRange(env.prog)
    ensures ReadsAs(b, SlotAt(env, code, jump, setup, i), SlotStart(env, code, jump, setup, i + 1), P.Own(env, i), 0)
  {
    hide SlotAt, SlotStart, Linked, Holds, Planned, LinkedPlan, Loaded, OpAt, ReadsAs, X.BytesAt, StepsOf;
    var at := SlotAt(env, code, jump, setup, i);
    CompiledSize(env, code, jump, setup, tail, b, entries);
    ExitSteps(env, code, jump, i);
    StepAt(env, code, jump, setup, tail, b, entries, i, 0);
    BytesThere(b, at, JOp.Raw([0x48, 0x81, 0xc4, 8, 0, 0, 0, 0xc3]));
    ExitReads(b, at);
    SlotEnds(env, code, jump, setup, i);
  }

  /**
    A local call is compiled to the protocol's code for it, and its call goes to the prologue in front of the callee's
    own code.
    */
  lemma LocalCallCompiles(env: Env, code: nat -> seq<u8>, jump: nat -> seq<u8>, setup: seq<JOp>, tail: Tail,
                          b: seq<u8>, entries: map<nat, u16>, i: nat)
    requires Compiled(env, code, jump, setup, tail, b, entries) && IsLocalCall(env.prog, i)
    ensures CallsInRange(env.prog)
    ensures ReadsAs(b, SlotAt(env, code, jump, setup, i), SlotStart(env, code, jump, setup, i + 1), P.Own(env, i),
                    SlotAt(env, code, jump, setup, CallTarget(env.prog, i)) - PROLOGUE_SIZE)
  {
    hide SlotAt, SlotStart, Linked, Holds, Planned, LinkedPlan, Loaded, OpAt, ReadsAs, X.BytesAt, StepsOf, Lands, LocalCall, StepsLength;
    var at, target := SlotAt(env, code, jump, setup, i), CallTarget(env.prog, i);
    CompiledSize(env, code, jump, setup, tail, b, entries);
    CallSteps(env, code, jump, i);
    StepAt(env, code, jump, setup, tail, b, entries, i, 0);
    StepAt(env, code, jump, setup, tail, b, entries, i, 1);
    StepAt(env, code, jump, setup, tail, b, entries, i, 2);
    BytesThere(b, at, JOp.Raw(SAVE));
    BytesThere(b, at + 11, JOp.CallOp(target));
    BytesThere(b, at + 16, JOp.Raw(RESTORE));
    var loc := P.EntryLoc(env, target);
    LocalCallReads(b, at, if loc < 0 then 0 else loc);
    LocalCallsLand(env, code, jump, setup, tail, b, entries, i);
    SlotEnds(env, code, jump, setup, i);
  }

  /** A function entry is compiled to the protocol's prologue, in front of the slot's own code. */
  lemma EntryCompiles(env: Env, code: nat -> seq<u8>, jump: nat -> seq<u8>, setup: seq<JOp>, tail: Tail,
                      b: seq<u8>, entries: map<nat, u16>, i: nat)
    requires Compiled(env, code, jump, setup, tail, b, entries) && i < |env.prog| <= 65535 && env.prog[i].opcode != 0
    requires P.IsEntry(env, i)
    ensures var at := SlotAt(env, code, jump, setup, i);
      at >= PROLOGUE_SIZE && ReadsAs(b, at - PROLOGUE_SIZE, at, [P.Reserve, P.StoreTop(env.usage(i))], 0)
  {
    hide Loaded, CallsHitFirstSlots, Holds, ReadsAs, StepsOf, Planned, UpToStep, Prologue;
    var plan, at := PlanOf(env, code, jump), SlotAt(env, code, jump, setup, i);
    PlanSlot(env, code, jump, i);
    hide PlanOf;
    SlotLocated(Start(), setup, plan, tail, i);
    assert JitPlan.IsEntry(plan, i);
    assert HasPrologue(Planned(Start(), setup, plan, tail).tables, b, i, entries[i]);
    X.BytesAre(b, at - PROLOGUE_SIZE, Prologue(env.usage(i)));
    PrologueReads(b, at - PROLOGUE_SIZE, env.usage(i));
  }

  /** Code in front of a function entry that can run into it meets a jump over the prologue. */
  lemma BypassCompiles(env: Env, code: nat -> seq<u8>, jump: nat -> seq<u8>, setup: seq<JOp>, tail: Tail,
                       b: seq<u8>, entries: map<nat, u16>, i: nat)
    requires Compiled(env, code, jump, setup, tail, b, entries) && i < |env.prog| <= 65535 && env.prog[i].opcode != 0
    requires P.HasBypass(env, i)
    ensures var p, at := SlotStart(env, code, jump, setup, i), SlotAt(env, code, jump, setup, i);
      && at == p + 5 + PROLOGUE_SIZE && X.DecodeInsn(b, p) == Some(X.Decoded(X.Jump(at), p + 2))
  {
    hide Loaded, CallsHitFirstSlots, Holds, Linked, StepsOf, Planned, UpToStep, UpTo, LandsNear;
    var plan := PlanOf(env, code, jump);
    PlanSlot(env, code, jump, i);
    hide PlanOf;
    assert Inside(Start());
    BypassStays(Start(), setup, plan, tail, i, b, entries);
    X.BranchAt(b, SlotStart(env, code, jump, setup, i));
  }
}
