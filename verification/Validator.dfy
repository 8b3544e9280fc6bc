/** The load-time validator: per-instruction checks along the walk that skips the second half of each LDDW. */
module Validator {
  import opened Words
  import opened Isa
  import opened Semantics
  import opened SubPrograms

  /** The allowed register, offset and immediate ranges of each instruction. */
  predicate FieldsOk(inst: Inst)
  {
    match Decode(inst.opcode)
    case Alu(wide, alu, fromReg) =>
      && inst.dst <= 9
      && (if fromReg then inst.src <= 10 && inst.imm == 0 else inst.src == 0)
      && (alu == OpNeg ==> inst.imm == 0)
      && (if alu == OpDiv || alu == OpMod then 0 <= inst.offset <= 1
          else if alu == OpMov && fromReg then inst.offset in {0, 8, 16} || (wide && inst.offset == 32)
          else inst.offset == 0)
    case End(_) => inst.dst <= 9 && inst.src == 0 && inst.offset == 0 && 0 <= inst.imm <= 64
    case Ldx(_, _) => inst.dst <= 10 && inst.src <= 10 && inst.imm == 0
    case St(_) => inst.dst <= 10 && inst.src == 0
    case Stx(_) => inst.dst <= 10 && inst.src <= 10 && inst.imm == 0
    case Lddw => inst.dst <= 10 && inst.src <= 6 && inst.offset == 0
    case Ja => inst.dst == 0 && inst.src == 0 && inst.imm == 0
    case Ja32 => inst.dst == 0 && inst.src == 0 && inst.offset == 0
    case Jcc(_, _, fromReg) =>
      inst.dst <= 10 && (if fromReg then inst.src <= 10 && inst.imm == 0 else inst.src == 0)
    case Call => inst.dst == 0 && inst.src <= 1 && inst.offset == 0
    case Exit => inst.dst == 0 && inst.src == 0 && inst.offset == 0 && inst.imm == 0
    case Atomic(size) =>
      && inst.dst <= 10 && inst.src <= 10
      && (if size == 4 then 0 <= inst.imm <= 0xff
          else inst.imm in {0x00, 0x01, 0x40, 0x41, 0x50, 0x51, 0xa0, 0xa1, 0xe1, 0xf1})
    case Unknown => false
  }

  predicate JumpOk(prog: seq<Inst>, i: nat, delta: int)
  {
    var target := i + 1 + delta;
    delta != -1 && 0 <= target < |prog| && prog[target].opcode != 0
  }

  predicate LddwOk(prog: seq<Inst>, i: nat)
    requires i < |prog|
  {
    && prog[i].src == 0 && i + 1 < |prog|
    && var second := prog[i + 1];
       second.opcode == 0 && second.dst == 0 && second.src == 0 && second.offset == 0
  }

  predicate CallOk(callable: int -> bool, usage: u16 -> u16, prog: seq<Inst>, i: nat)
    requires i < |prog| < MAX_INSTS
  {
    var inst := prog[i];
    if inst.src == 0 then inst.imm >= 0 && callable(inst.imm)
    else if inst.src == 1 then
      0 <= CallTarget(prog, i) < |prog| && usage(CallTarget(prog, i)) % 16 == 0
    else false
  }

  predicate AtomicOk(inst: Inst)
  {
    var code := AtomicCode(inst.imm);
    AtomicKnown(code) && (code >= 14 ==> AtomicFetch(inst.imm))
  }

  /** The checks `validate` makes on the instruction at `i`. */
  predicate InstOk(callable: int -> bool, usage: u16 -> u16, prog: seq<Inst>, i: nat)
    requires i < |prog| < MAX_INSTS
  {
    var inst := prog[i];
    var op := Decode(inst.opcode);
    var store := op.St? || op.Stx? || op.Atomic? || (op.Alu? && op.alu == OpMov && op.wide);
    && (match op
        case Alu(_, OpNeg, _) => inst.src == 0
        case End(_) => inst.imm in {16, 32, 64}
        case Lddw => LddwOk(prog, i)
        case Ja => JumpOk(prog, i, inst.offset)
        case Ja32 => JumpOk(prog, i, inst.imm)
        case Jcc(_, _, _) => JumpOk(prog, i, inst.offset)
        case Call => CallOk(callable, usage, prog, i)
        case Atomic(_) => AtomicOk(inst)
        case Unknown => false
        case _ => true)
    && inst.src <= 10
    && (inst.dst <= 9 || (store && inst.dst == 10))
    && FieldsOk(inst)
  }

  /** Slots an instruction takes. */
  function Width(inst: Inst): (w: nat)
    ensures w == 1 || w == 2
  {
    if Decode(inst.opcode).Lddw? then 2 else 1
  }

  predicate Walk(callable: int -> bool, usage: u16 -> u16, prog: seq<Inst>, i: nat)
    requires |prog| < MAX_INSTS
    decreases |prog| - i
  {
    i >= |prog| || (InstOk(callable, usage, prog, i) && Walk(callable, usage, prog, i + Width(prog[i])))
  }

  predicate Accepts(callable: int -> bool, usage: u16 -> u16, prog: seq<Inst>)
  {
    && |prog| < MAX_INSTS && usage(0) % 16 == 0
    && Walk(callable, usage, prog, 0)
    && SelfContained(prog)
  }

  // ---------------------------------------------------------------- first slots

  /** The walk from `j` visits `i`. */
  predicate OnWalk(prog: seq<Inst>, j: nat, i: nat)
    decreases |prog| - j
  {
    j == i || (j < |prog| && j < i && OnWalk(prog, j + Width(prog[j]), i))
  }

  /** On an accepted program the slots on the walk are exactly those with a nonzero opcode byte. */
  lemma {:induction false} FirstSlots(callable: int -> bool, usage: u16 -> u16, prog: seq<Inst>, j: nat, i: nat)
    requires |prog| < MAX_INSTS && Walk(callable, usage, prog, j) && j <= i < |prog|
    ensures OnWalk(prog, j, i) <==> prog[i].opcode != 0
    ensures prog[i].opcode != 0 ==> InstOk(callable, usage, prog, i)
    ensures prog[i].opcode == 0 ==> j < i && Decode(prog[i - 1].opcode).Lddw?
    decreases |prog| - j
  {
    hide InstOk;
    KnownOpcode(callable, usage, prog, j);
    if i > j {
      var next := j + Width(prog[j]);
      if next <= i {
        FirstSlots(callable, usage, prog, next, i);
      }
    }
  }

  lemma KnownOpcode(callable: int -> bool, usage: u16 -> u16, prog: seq<Inst>, i: nat)
    requires i < |prog| < MAX_INSTS && InstOk(callable, usage, prog, i)
    ensures prog[i].opcode != 0
    ensures Decode(prog[i].opcode).Lddw? ==> i + 1 < |prog| && prog[i + 1].opcode == 0
    ensures !Decode(prog[i].opcode).Unknown?
  {
    assert Decode(0) == Unknown;
  }

  /** After a first slot comes another first slot or the end of the program. */
  lemma {:induction false} NextSlot(callable: int -> bool, usage: u16 -> u16, prog: seq<Inst>, j: nat, i: nat)
    requires |prog| < MAX_INSTS && Walk(callable, usage, prog, j) && j <= i < |prog| && prog[i].opcode != 0
    ensures var next := i + Width(prog[i]); next == |prog| || (next < |prog| && prog[next].opcode != 0)
    decreases |prog| - j
  {
    hide InstOk;
    KnownOpcode(callable, usage, prog, j);
    var next := j + Width(prog[j]);
    if i > j {
      NextSlot(callable, usage, prog, next, i);
    } else if next < |prog| {
      KnownOpcode(callable, usage, prog, next);
    }
  }

  // ---------------------------------------------------------------- the validation loop

  /** An accepted instruction's local call, if it is one, stays in range; its other slot is no call. */
  lemma CallInRange(callable: int -> bool, usage: u16 -> u16, prog: seq<Inst>, i: nat)
    requires i < |prog| < MAX_INSTS && InstOk(callable, usage, prog, i)
    ensures i + Width(prog[i]) <= |prog|
    ensures forall k :: i <= k < i + Width(prog[i]) && IsLocalCall(prog, k) ==> 0 <= CallTarget(prog, k) < |prog|
  {
    KnownOpcode(callable, usage, prog, i);
    assert Decode(0x85).Call?;
  }

  method Validate(callable: int -> bool, usage: u16 -> u16, prog: seq<Inst>) returns (ok: bool)
    ensures ok <==> Accepts(callable, usage, prog)
  {
    hide InstOk, SelfContained, Width, Decode;
    if |prog| >= MAX_INSTS || usage(0) % 16 != 0 {
      return false;
    }
    var i := 0;
    while i < |prog|
      invariant 0 <= i <= |prog|
      invariant Walk(callable, usage, prog, 0) == Walk(callable, usage, prog, i)
      invariant forall k :: 0 <= k < i && IsLocalCall(prog, k) ==> 0 <= CallTarget(prog, k) < |prog|
    {
      if !InstOk(callable, usage, prog, i) {
        return false;
      }
      CallInRange(callable, usage, prog, i);
      i := i + Width(prog[i]);
    }
    ok := CheckSelfContained(prog);
  }
}
