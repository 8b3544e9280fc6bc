/** The instruction filter: a table of field limits per opcode, a lookup table filled from it, and the checks against it. */
module InstructionFilter {
  import opened Words
  import opened Isa
  import opened Validator

  /** The allowed values of an offset or immediate. */
  datatype Allowed = Between(lo: int, hi: int) | OneOf(values: seq<int>)

  const NONE: Allowed := Between(0, 0)
  const ANY_OFFSET: Allowed := Between(-0x8000, 0x7fff)
  const ANY_IMM: Allowed := Between(-0x8000_0000, 0x7fff_ffff)

  /** Upper limits of the register fields and the allowed offsets and immediates. */
  datatype Limits = Limits(dst: nat, src: nat, off: Allowed, imm: Allowed)

  /** A row of the table. */
  datatype Filter = Filter(opcode: u8, limits: Limits)

  predicate Allows(a: Allowed, v: int)
  {
    match a case Between(lo, hi) => lo <= v <= hi case OneOf(values) => v in values
  }

  predicate Passes(l: Limits, inst: Inst)
  {
    inst.dst <= l.dst && inst.src <= l.src && Allows(l.imm, inst.imm) && Allows(l.off, inst.offset)
  }

  // ---------------------------------------------------------------- the table

  /** The rows, grouped by equal limits. */
  datatype Group =
    | SecondHalf | AluImm | AluReg | DivImm | DivReg | Negate | MovReg32
    | MovReg64 | Endian | MemoryReg | StoreImm | LoadWide | JumpAlways | JumpAlways32
    | JumpImm | JumpReg | Calls | Exits | Atomic32 | Atomic64

  const GROUPS: seq<Group> :=
    [SecondHalf, AluImm, AluReg, DivImm, DivReg, Negate, MovReg32, MovReg64, Endian, MemoryReg,
     StoreImm, LoadWide, JumpAlways, JumpAlways32, JumpImm, JumpReg, Calls, Exits, Atomic32, Atomic64]

  const ALU_IMM_CODES: seq<nat> := [0, 1, 2, 4, 5, 6, 7, 10, 11, 12]
  const ALU_REG_CODES: seq<nat> := [0, 1, 2, 4, 5, 6, 7, 10, 12]
  const DIV_CODES: seq<nat> := [3, 9]
  const JUMP_CODES: seq<nat> := [1, 2, 3, 4, 5, 6, 7, 10, 11, 12, 13]

  predicate Codes(codes: seq<nat>) { forall i :: 0 <= i < |codes| ==> codes[i] < 16 }

  /** Opcodes composed of a class with its source bit and an operation code. */
  function With(low: nat, codes: seq<nat>): seq<u8>
    requires low < 16 && Codes(codes)
  {
    seq(|codes|, i requires 0 <= i < |codes| => low + 16 * codes[i])
  }

  function Opcodes(g: Group): seq<u8>
  {
    match g
    case SecondHalf => [0x00]
    case AluImm => With(4, ALU_IMM_CODES) + With(7, ALU_IMM_CODES)
    case AluReg => With(12, ALU_REG_CODES) + With(15, ALU_REG_CODES)
    case DivImm => With(4, DIV_CODES) + With(7, DIV_CODES)
    case DivReg => With(12, DIV_CODES) + With(15, DIV_CODES)
    case Negate => [0x84, 0x87]
    case MovReg32 => [0xbc]
    case MovReg64 => [0xbf]
    case Endian => [0xd4, 0xdc, 0xd7]
    case MemoryReg => [0x61, 0x69, 0x71, 0x79, 0x81, 0x89, 0x91, 0x63, 0x6b, 0x73, 0x7b]
    case StoreImm => [0x62, 0x6a, 0x72, 0x7a]
    case LoadWide => [0x18]
    case JumpAlways => [0x05]
    case JumpAlways32 => [0x06]
    case JumpImm => With(5, JUMP_CODES) + With(6, JUMP_CODES)
    case JumpReg => With(13, JUMP_CODES) + With(14, JUMP_CODES)
    case Calls => [0x85]
    case Exits => [0x95]
    case Atomic32 => [0xc3]
    case Atomic64 => [0xdb]
  }

  function LimitsOf(g: Group): Limits
  {
    match g
    case SecondHalf => Limits(0, 0, NONE, ANY_IMM)
    case AluImm => Limits(9, 0, NONE, ANY_IMM)
    case AluReg => Limits(9, 10, NONE, NONE)
    case DivImm => Limits(9, 0, Between(0, 1), ANY_IMM)
    case DivReg => Limits(9, 10, Between(0, 1), NONE)
    case Negate => Limits(9, 0, NONE, NONE)
    case MovReg32 => Limits(9, 10, OneOf([0, 8, 16]), NONE)
    case MovReg64 => Limits(9, 10, OneOf([0, 8, 16, 32]), NONE)
    case Endian => Limits(9, 0, NONE, Between(0, 64))
    case MemoryReg => Limits(10, 10, ANY_OFFSET, NONE)
    case StoreImm => Limits(10, 0, ANY_OFFSET, ANY_IMM)
    case LoadWide => Limits(10, 6, NONE, ANY_IMM)
    case JumpAlways => Limits(0, 0, ANY_OFFSET, NONE)
    case JumpAlways32 => Limits(0, 0, NONE, ANY_IMM)
    case JumpImm => Limits(10, 0, ANY_OFFSET, ANY_IMM)
    case JumpReg => Limits(10, 10, ANY_OFFSET, NONE)
    case Calls => Limits(0, 1, NONE, ANY_IMM)
    case Exits => Limits(0, 0, NONE, NONE)
    case Atomic32 => Limits(10, 10, ANY_OFFSET, Between(0, 0xff))
    case Atomic64 => Limits(10, 10, ANY_OFFSET, OneOf([0x00, 0x01, 0x40, 0x41, 0x50, 0x51, 0xa0, 0xa1, 0xe1, 0xf1]))
  }

  function Rows(opcodes: seq<u8>, limits: Limits): (rows: seq<Filter>)
    ensures |rows| == |opcodes|
  {
    if opcodes == [] then [] else Rows(opcodes[..|opcodes| - 1], limits) + [Filter(opcodes[|opcodes| - 1], limits)]
  }

  function Table(groups: seq<Group>): seq<Filter>
  {
    if groups == [] then []
    else
      var n := |groups| - 1;
      Table(groups[..n]) + Rows(Opcodes(groups[n]), LimitsOf(groups[n]))
  }

  /** What the lookup table holds for an opcode after all rows: the last row with it. */
  function Find(rows: seq<Filter>, b: u8): Option<Filter>
  {
    if rows == [] then None
    else if rows[|rows| - 1].opcode == b then Some(rows[|rows| - 1])
    else Find(rows[..|rows| - 1], b)
  }

  // ---------------------------------------------------------------- the groups are the instruction classes

  function GroupOf(b: u8): Option<Group>
  {
    match Decode(b)
    case Alu(wide, alu, fromReg) =>
      if alu == OpNeg then Some(Negate)
      else if alu == OpDiv || alu == OpMod then Some(if fromReg then DivReg else DivImm)
      else if alu == OpMov && fromReg then Some(if wide then MovReg64 else MovReg32)
      else Some(if fromReg then AluReg else AluImm)
    case End(_) => Some(Endian)
    case Ldx(_, _) => Some(MemoryReg)
    case St(_) => Some(StoreImm)
    case Stx(_) => Some(MemoryReg)
    case Lddw => Some(LoadWide)
    case Ja => Some(JumpAlways)
    case Ja32 => Some(JumpAlways32)
    case Jcc(_, _, fromReg) => Some(if fromReg then JumpReg else JumpImm)
    case Call => Some(Calls)
    case Exit => Some(Exits)
    case Atomic(size) => Some(if size == 4 then Atomic32 else Atomic64)
    case Unknown => if b == 0 then Some(SecondHalf) else None
  }

  lemma InWith(low: nat, codes: seq<nat>, b: u8)
    requires low < 16 && Codes(codes)
    ensures b in With(low, codes) <==> b % 16 == low && b / 16 in codes
  {
    if b % 16 == low && b / 16 in codes {
      var i :| 0 <= i < |codes| && codes[i] == b / 16;
      assert With(low, codes)[i] == b;
    }
    if b in With(low, codes) {
      var i :| 0 <= i < |codes| && With(low, codes)[i] == b;
      ModUnique(b, 16, codes[i], low);
    }
  }

  /** Class and source bit are the low four bits. */
  lemma LowBits(b: u8)
    ensures b % 8 == (b % 16) % 8 && b / 8 % 2 == (b % 16) / 8
  {
  }

  function Low(b: u8): nat { b % 16 }

  lemma DecodeAluByte(b: u8)
    ensures Low(b) in {4, 7, 12, 15} ==> Decode(b) == DecodeAlu(Low(b) in {7, 15}, Low(b) in {12, 15}, b / 16)
    ensures Low(b) in {5, 6, 13, 14} ==> Decode(b) == DecodeJmp(Low(b) in {5, 13}, Low(b) in {13, 14}, b / 16)
  {
    LowBits(b);
    hide DecodeAlu, DecodeJmp, DecodeMem;
  }

  lemma ComposedGroups(b: u8)
    ensures b in Opcodes(AluImm) <==> Low(b) in {4, 7} && b / 16 in ALU_IMM_CODES
    ensures b in Opcodes(AluReg) <==> Low(b) in {12, 15} && b / 16 in ALU_REG_CODES
    ensures b in Opcodes(DivImm) <==> Low(b) in {4, 7} && b / 16 in DIV_CODES
    ensures b in Opcodes(DivReg) <==> Low(b) in {12, 15} && b / 16 in DIV_CODES
    ensures b in Opcodes(JumpImm) <==> Low(b) in {5, 6} && b / 16 in JUMP_CODES
    ensures b in Opcodes(JumpReg) <==> Low(b) in {13, 14} && b / 16 in JUMP_CODES
  {
    InWith(4, ALU_IMM_CODES, b);
    InWith(7, ALU_IMM_CODES, b);
    InWith(12, ALU_REG_CODES, b);
    InWith(15, ALU_REG_CODES, b);
    InWith(4, DIV_CODES, b);
    InWith(7, DIV_CODES, b);
    InWith(12, DIV_CODES, b);
    InWith(15, DIV_CODES, b);
    InWith(5, JUMP_CODES, b);
    InWith(6, JUMP_CODES, b);
    InWith(13, JUMP_CODES, b);
    InWith(14, JUMP_CODES, b);
    hide With, Low;
  }

  predicate Composed(g: Group) { g in {AluImm, AluReg, DivImm, DivReg, JumpImm, JumpReg} }

  /** Every opcode in a group decodes to the group's class. */
  lemma InGroup(g: Group, b: u8)
    requires b in Opcodes(g)
    ensures GroupOf(b) == Some(g)
  {
    hide Opcodes, Decode;
    if Composed(g) {
      ComposedGroups(b);
      DecodeAluByte(b);
      hide Low;
    } else if g == MemoryReg || g == StoreImm {
      InMemory(g, b);
    } else {
      InFew(g, b);
    }
  }

  lemma InMemory(g: Group, b: u8)
    requires (g == MemoryReg || g == StoreImm) && b in Opcodes(g)
    ensures GroupOf(b) == Some(g)
  {
    if g == MemoryReg {
      MemoryFields(b);
    } else {
      StoreFields(b);
    }
    hide Opcodes, DecodeAlu, DecodeJmp;
  }

  lemma MemoryFields(b: u8)
    requires b in Opcodes(MemoryReg)
    ensures b % 8 in {1, 3} && b / 32 in {3, 4} && (b % 8 == 3 ==> b / 32 == 3) && (b / 32 == 4 ==> b / 8 % 4 != 3)
  {
  }

  lemma StoreFields(b: u8)
    requires b in Opcodes(StoreImm)
    ensures b % 8 == 2 && b / 32 == 3
  {
  }

  lemma InFew(g: Group, b: u8)
    requires !Composed(g) && g != MemoryReg && g != StoreImm && b in Opcodes(g)
    ensures GroupOf(b) == Some(g)
  {
    if g in {SecondHalf, Negate, MovReg32, MovReg64, Endian, LoadWide} {
      InArithmetic(g, b);
    } else {
      InControl(g, b);
    }
  }

  lemma InArithmetic(g: Group, b: u8)
    requires g in {SecondHalf, Negate, MovReg32, MovReg64, Endian, LoadWide} && b in Opcodes(g)
    ensures GroupOf(b) == Some(g)
  {
  }

  lemma InControl(g: Group, b: u8)
    requires g in {JumpAlways, JumpAlways32, Calls, Exits, Atomic32, Atomic64} && b in Opcodes(g)
    ensures GroupOf(b) == Some(g)
  {
  }

  /** Every known opcode is in the group of its class. */
  lemma FromGroup(b: u8)
    requires GroupOf(b).Some?
    ensures b in Opcodes(GroupOf(b).value)
  {
    hide Decode, Encode;
    if !Decode(b).Unknown? {
      DecodeEncode(b);
      DecodeSizes(b);
      NegHasNoRegister(b);
      if Decode(b).Alu? || Decode(b).Jcc? {
        ComposedFrom(b);
      } else {
        OtherInGroup(Decode(b), b);
      }
    }
  }

  lemma ComposedFrom(b: u8)
    requires (Decode(b).Alu? || Decode(b).Jcc?) && b == Encode(Decode(b)) && (Decode(b).Alu? && Decode(b).alu == OpNeg ==> !Decode(b).fromReg)
    ensures GroupOf(b).Some? && b in Opcodes(GroupOf(b).value)
  {
    hide Decode;
    ComposedGroups(b);
    match Decode(b)
    case Alu(wide, alu, fromReg) =>
      EncodedNibbles((if wide then 7 else 4) + (if fromReg then 8 else 0), AluCode(alu), b);
      AluCodeIn(alu);
      if Composed(GroupOf(b).value) {
        hide Opcodes;
      }
    case Jcc(wide, cond, fromReg) =>
      EncodedNibbles((if wide then 5 else 6) + (if fromReg then 8 else 0), CondCode(cond), b);
      CondCodeIn(cond);
      hide Opcodes;
  }

  lemma EncodedNibbles(low: nat, code: nat, b: u8)
    requires low < 16 && b == low + 16 * code
    ensures Low(b) == low && b / 16 == code
  {
    ModUnique(b, 16, code, low);
  }

  lemma AluCodeIn(alu: AluOp)
    ensures alu !in {OpDiv, OpMod, OpNeg} ==> AluCode(alu) in ALU_IMM_CODES
    ensures alu !in {OpDiv, OpMod, OpNeg, OpMov} ==> AluCode(alu) in ALU_REG_CODES
    ensures alu in {OpDiv, OpMod} ==> AluCode(alu) in DIV_CODES
  {
  }

  lemma CondCodeIn(cond: Cond)
    ensures CondCode(cond) in JUMP_CODES
  {
  }

  lemma OtherInGroup(op: Op, b: u8)
    requires !op.Unknown? && !op.Alu? && !op.Jcc? && b == Encode(op) && Decode(b) == op
    requires (op.Ldx? ==> op.size in {1, 2, 4, 8} && (op.signExtend ==> op.size != 8)) && (op.St? || op.Stx? ==> op.size in {1, 2, 4, 8})
    requires op.Atomic? ==> op.size in {4, 8}
    ensures GroupOf(b).Some? && b in Opcodes(GroupOf(b).value)
  {
    hide Decode;
  }

  predicate SecondSlot(inst: Inst) { inst.opcode == 0 && inst.dst == 0 && inst.src == 0 && inst.offset == 0 }

  /** The class of an instruction decides its limits: the filter is the validator's field check, plus the row for an LDDW's second slot. */
  lemma LimitsAreFieldChecks(inst: Inst)
    ensures var g := GroupOf(inst.opcode);
      (g.Some? && Passes(LimitsOf(g.value), inst)) <==> FieldsOk(inst) || SecondSlot(inst)
  {
    DecodeSizes(inst.opcode);
    NegHasNoRegister(inst.opcode);
    assert Decode(0).Unknown?;
    hide Decode;
    match Decode(inst.opcode)
    case Alu(wide, alu, fromReg) => AluLimits(inst, wide, alu, fromReg);
    case _ => OtherLimits(inst);
  }

  lemma AluLimits(inst: Inst, wide: bool, alu: AluOp, fromReg: bool)
    requires Decode(inst.opcode) == Alu(wide, alu, fromReg) && (alu == OpNeg ==> !fromReg) && inst.opcode != 0
    ensures GroupOf(inst.opcode).Some? && (Passes(LimitsOf(GroupOf(inst.opcode).value), inst) <==> FieldsOk(inst))
  {
    hide Decode;
  }

  lemma OtherLimits(inst: Inst)
    requires !Decode(inst.opcode).Alu? && (inst.opcode == 0 ==> Decode(inst.opcode).Unknown?)
    requires Decode(inst.opcode).Atomic? ==> Decode(inst.opcode).size in {4, 8}
    ensures var g := GroupOf(inst.opcode);
      (g.Some? && Passes(LimitsOf(g.value), inst)) <==> FieldsOk(inst) || SecondSlot(inst)
  {
    hide Decode, Allows;
    RangeMeaning(inst);
    match Decode(inst.opcode)
    case Atomic(size) => AtomicLimits(inst);
    case End(_) =>
    case Ldx(_, _) =>
    case St(_) =>
    case Stx(_) =>
    case Lddw =>
    case Ja =>
    case Ja32 =>
    case Jcc(_, _, _) =>
    case Call =>
    case Exit =>
    case Unknown =>
  }

  /** The ranges that occur, as conditions on the field. */
  lemma RangeMeaning(inst: Inst)
    ensures Allows(ANY_IMM, inst.imm) && Allows(ANY_OFFSET, inst.offset)
    ensures (Allows(NONE, inst.imm) <==> inst.imm == 0) && (Allows(NONE, inst.offset) <==> inst.offset == 0)
    ensures Allows(Between(0, 64), inst.imm) <==> 0 <= inst.imm <= 64
    ensures Allows(Between(0, 0xff), inst.imm) <==> 0 <= inst.imm <= 0xff
  {
  }

  lemma AtomicLimits(inst: Inst)
    requires Decode(inst.opcode).Atomic? && Decode(inst.opcode).size in {4, 8} && inst.opcode != 0
    ensures GroupOf(inst.opcode).Some? && (Passes(LimitsOf(GroupOf(inst.opcode).value), inst) <==> FieldsOk(inst))
  {
    hide Decode;
    RangeMeaning(inst);
  }

  lemma NegHasNoRegister(b: u8)
    ensures Decode(b).Alu? && Decode(b).alu == OpNeg ==> !Decode(b).fromReg
  {
  }

  // ---------------------------------------------------------------- searching the table

  lemma {:induction false} FindRows(opcodes: seq<u8>, limits: Limits, b: u8)
    ensures Find(Rows(opcodes, limits), b) == if b in opcodes then Some(Filter(b, limits)) else None
  {
    if opcodes != [] {
      var n := |opcodes| - 1;
      FindRows(opcodes[..n], limits, b);
      var rows := Rows(opcodes, limits);
      assert rows[..n] == Rows(opcodes[..n], limits);
      assert opcodes == opcodes[..n] + [opcodes[n]];
    }
  }

  lemma {:induction false} FindAppend(s: seq<Filter>, t: seq<Filter>, b: u8)
    ensures Find(s + t, b) == if Find(t, b).Some? then Find(t, b) else Find(s, b)
  {
    if t == [] {
      assert s + t == s;
    } else {
      var n := |t| - 1;
      FindAppend(s, t[..n], b);
      assert (s + t)[..|s + t| - 1] == s + t[..n];
    }
  }

  /** In the whole table an opcode is found exactly in its own group. */
  lemma {:induction false} FindTable(groups: seq<Group>, b: u8)
    ensures var g := GroupOf(b);
      Find(Table(groups), b) == if g.Some? && g.value in groups then Some(Filter(b, LimitsOf(g.value))) else None
  {
    hide Opcodes, LimitsOf, GroupOf, Find;
    if groups == [] {
      FindNothing(b);
    } else {
      var n := |groups| - 1;
      var last := groups[n];
      FindTable(groups[..n], b);
      FindRows(Opcodes(last), LimitsOf(last), b);
      FindAppend(Table(groups[..n]), Rows(Opcodes(last), LimitsOf(last)), b);
      if b in Opcodes(last) {
        InGroup(last, b);
      } else if GroupOf(b).Some? {
        FromGroup(b);
      }
      assert groups == groups[..n] + [last];
    }
  }

  lemma WholeTable(b: u8)
    ensures var g := GroupOf(b); Find(Table(GROUPS), b) == if g.Some? then Some(Filter(b, LimitsOf(g.value))) else None
  {
    hide Find, Table, GroupOf, LimitsOf;
    FindTable(GROUPS, b);
    if GroupOf(b).Some? {
      AllGroups(GroupOf(b).value);
    }
  }

  lemma FindNothing(b: u8)
    ensures Find([], b).None?
  {
  }

  lemma AllGroups(g: Group)
    ensures g in GROUPS
  {
    assert GROUPS[IndexOf(g)] == g;
  }

  function IndexOf(g: Group): (i: nat)
    ensures i < |GROUPS|
  {
    match g
    case SecondHalf => 0
    case AluImm => 1
    case AluReg => 2
    case DivImm => 3
    case DivReg => 4
    case Negate => 5
    case MovReg32 => 6
    case MovReg64 => 7
    case Endian => 8
    case MemoryReg => 9
    case StoreImm => 10
    case LoadWide => 11
    case JumpAlways => 12
    case JumpAlways32 => 13
    case JumpImm => 14
    case JumpReg => 15
    case Calls => 16
    case Exits => 17
    case Atomic32 => 18
    case Atomic64 => 19
  }

  // ---------------------------------------------------------------- the code

  /** `_initialize_lookup_table`: the rows are entered one after another. */
  method FillLookupTable(lookup: array<Option<Filter>>)
    requires lookup.Length == 256 && forall b :: 0 <= b < 256 ==> lookup[b].None?
    modifies lookup
    ensures forall b: u8 :: lookup[b] == Find(Table(GROUPS), b)
  {
    hide Table, GroupOf;
    var rows := Table(GROUPS);
    var i := 0;
    while i < |rows|
      invariant 0 <= i <= |rows|
      invariant forall b: u8 :: lookup[b] == Find(rows[..i], b)
    {
      lookup[rows[i].opcode] := Some(rows[i]);
      assert rows[..i + 1][..i] == rows[..i];
      i := i + 1;
    }
    assert rows[..i] == rows;
  }

  /** A value against a range or, by searching, an enumeration. */
  method CheckAllowed(a: Allowed, v: int) returns (ok: bool)
    ensures ok <==> Allows(a, v)
  {
    match a
    case Between(lo, hi) => ok := v >= lo && v <= hi;
    case OneOf(values) =>
      ok := false;
      var i := 0;
      while i < |values| && !ok
        invariant 0 <= i <= |values| && (ok <==> v in values[..i])
      {
        ok := values[i] == v;
        assert values[..i + 1] == values[..i] + [values[i]];
        i := i + 1;
      }
      assert !ok ==> values[..i] == values;
  }

  /** `ubpf_is_valid_instruction`: exactly the instructions whose fields the validator allows, and second slots of an LDDW. */
  method IsValidInstruction(inst: Inst) returns (ok: bool)
    ensures ok <==> FieldsOk(inst) || SecondSlot(inst)
  {
    hide Find, Table, GroupOf, LimitsOf, FieldsOk;
    var lookup := new Option<Filter>[256](_ => None);
    FillLookupTable(lookup);
    var filter := lookup[inst.opcode];
    WholeTable(inst.opcode);
    LimitsAreFieldChecks(inst);
    if filter.None? {
      return false;
    }
    var l := filter.value.limits;
    if inst.dst > l.dst {
      return false;
    }
    if inst.src > l.src {
      return false;
    }
    ok := CheckAllowed(l.imm, inst.imm);
    if !ok {
      return;
    }
    ok := CheckAllowed(l.off, inst.offset);
  }
}
