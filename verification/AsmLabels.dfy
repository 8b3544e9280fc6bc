/** Two-pass label resolution: both passes agree on slot indices, and resolved jumps and calls arrive at their labels. */
module AsmLabels {
  import opened Words
  import opened Isa
  import opened Semantics
  import opened Machine
  import opened ControlFlow
  import opened AsmRecords
  import opened Assembler

  /** A parsed instruction: a record, or a jump or local call whose target is still a label. */
  datatype Src =
    | Plain(rec: Rec)
    | CompareTo(op: nat, dst: u4, operand: AsmOperand, name: string)
    | JumpToLabel(name: string)
    | CallToLabel(name: string)

  /** A source line: an optional label, then an optional instruction. */
  datatype SourceLine = SourceLine(tag: Option<string>, inst: Option<Src>)

  datatype AsmResult = Assembled(bytes: seq<u8>) | DuplicateLabel(name: string) | UndefinedLabel(name: string)

  /** What the parser delivers. */
  predicate Parsed(line: SourceLine)
  {
    line.inst.Some? ==>
      match line.inst.value
      case Plain(rec) => Assemblable(rec)
      case CompareTo(op, dst, operand, _) => Assemblable(CompareJump(op, dst, operand, 0))
      case _ => true
  }

  function Slots(inst: Src): nat { if inst.Plain? && inst.rec.LoadWide? then 2 else 1 }

  function Insts(lines: seq<SourceLine>): seq<Src>
  {
    if lines == [] then []
    else Insts(lines[..|lines| - 1]) + match lines[|lines| - 1].inst case None => [] case Some(i) => [i]
  }

  /** The slot of the `k`-th instruction: what comes before it, with LDDW taking two slots. */
  function Pos(insts: seq<Src>, k: nat): nat
    requires k <= |insts|
  {
    if k == 0 then 0 else Pos(insts, k - 1) + Slots(insts[k - 1])
  }

  lemma {:induction false} PosPrefix(a: seq<Src>, b: seq<Src>, k: nat)
    requires k <= |a|
    ensures Pos(a + b, k) == Pos(a, k)
  {
    if k > 0 {
      PosPrefix(a, b, k - 1);
    }
  }

  /** A label on line `j` stands for the slot of the next instruction. */
  function LabelSlot(lines: seq<SourceLine>, j: nat): nat
    requires j < |lines|
  {
    Pos(Insts(lines[..j]), |Insts(lines[..j])|)
  }

  predicate HasLabel(line: SourceLine, name: string) { line.tag == Some(name) }

  ghost predicate Unique(lines: seq<SourceLine>)
  {
    forall i, j, n :: 0 <= i < j < |lines| && HasLabel(lines[i], n) ==> !HasLabel(lines[j], n)
  }

  /** `labels` is the dictionary of the given lines. */
  ghost predicate Dictionary(lines: seq<SourceLine>, labels: map<string, nat>)
  {
    && (forall n :: n in labels ==> exists j :: 0 <= j < |lines| && HasLabel(lines[j], n) && labels[n] == LabelSlot(lines, j))
    && (forall j, n :: 0 <= j < |lines| && HasLabel(lines[j], n) ==> n in labels && labels[n] == LabelSlot(lines, j))
  }

  predicate Refers(inst: Src, name: string) { !inst.Plain? && inst.name == name }

  predicate Defined(insts: seq<Src>, labels: map<string, nat>)
  {
    forall i :: 0 <= i < |insts| && !insts[i].Plain? ==> insts[i].name in labels
  }

  // ---------------------------------------------------------------- resolution

  /** `resolve_labels_in_inst`: a label becomes the distance from the following slot. */
  function Resolved(inst: Src, idx: nat, labels: map<string, nat>): Rec
    requires !inst.Plain? ==> inst.name in labels
  {
    match inst
    case Plain(rec) => rec
    case CompareTo(op, dst, operand, name) => CompareJump(op, dst, operand, labels[name] - idx - 1)
    case JumpToLabel(name) => Jump(labels[name] - idx - 1)
    case CallToLabel(name) => CallLocal(labels[name] - idx - 1)
  }

  predicate ParsedInst(inst: Src) { Parsed(SourceLine(None, Some(inst))) }

  /** The slots of the first `k` instructions. */
  function Emitted(insts: seq<Src>, labels: map<string, nat>, k: nat): (s: seq<Raw>)
    requires k <= |insts| && Defined(insts, labels) && forall i :: 0 <= i < |insts| ==> ParsedInst(insts[i])
    ensures |s| == Pos(insts, k)
  {
    if k == 0 then []
    else
      assert ParsedInst(insts[k - 1]);
      Emitted(insts, labels, k - 1) + AssembleOne(Resolved(insts[k - 1], Pos(insts, k - 1), labels))
  }

  /** Instruction `k`'s code is found at slot `Pos(insts, k)`. */
  lemma {:induction false} EmittedAt(insts: seq<Src>, labels: map<string, nat>, n: nat, k: nat)
    requires k < n <= |insts| && Defined(insts, labels) && forall i :: 0 <= i < |insts| ==> ParsedInst(insts[i])
    ensures Pos(insts, k) < Pos(insts, n)
    ensures ParsedInst(insts[k]) && Emitted(insts, labels, n)[Pos(insts, k)] == AssembleOne(Resolved(insts[k], Pos(insts, k), labels))[0]
  {
    hide AssembleOne, Resolved, ParsedInst;
    if k < n - 1 {
      EmittedAt(insts, labels, n - 1, k);
    }
  }

  // ---------------------------------------------------------------- the two passes

  lemma LinesGrow(lines: seq<SourceLine>, i: nat)
    requires i < |lines|
    ensures Insts(lines[..i + 1]) == Insts(lines[..i]) + match lines[i].inst case None => [] case Some(x) => [x]
    ensures forall j :: 0 <= j < i ==> LabelSlot(lines[..i + 1], j) == LabelSlot(lines[..i], j) == LabelSlot(lines, j)
    ensures LabelSlot(lines[..i + 1], i) == LabelSlot(lines, i)
  {
    var p := lines[..i + 1];
    assert p[..i] == lines[..i];
    assert forall j :: 0 <= j < i ==> p[..j] == lines[..j] && lines[..i][..j] == lines[..j];
  }

  /** The dictionary after one more line. */
  lemma DictionaryGrows(lines: seq<SourceLine>, i: nat, labels: map<string, nat>)
    requires i < |lines| && Dictionary(lines[..i], labels)
    requires lines[i].tag.Some? ==> lines[i].tag.value !in labels
    ensures Dictionary(lines[..i + 1],
              if lines[i].tag.Some? then labels[lines[i].tag.value := LabelSlot(lines, i)] else labels)
  {
    hide LabelSlot;
    LinesGrow(lines, i);
    var p, q := lines[..i], lines[..i + 1];
    var labels' := if lines[i].tag.Some? then labels[lines[i].tag.value := LabelSlot(lines, i)] else labels;
    forall n | n in labels'
      ensures exists j :: 0 <= j < |q| && HasLabel(q[j], n) && labels'[n] == LabelSlot(q, j)
    {
      LabelStands(lines, i, labels, n);
    }
    forall j, n | 0 <= j < |q| && HasLabel(q[j], n)
      ensures n in labels' && labels'[n] == LabelSlot(q, j)
    {
      if j < i {
        assert HasLabel(p[j], n);
      }
    }
  }

  /** Every name in the grown dictionary stands on one of the lines. */
  lemma LabelStands(lines: seq<SourceLine>, i: nat, labels: map<string, nat>, n: string)
    requires i < |lines| && Dictionary(lines[..i], labels)
    requires n in labels || HasLabel(lines[i], n)
    ensures var q := lines[..i + 1];
      exists j :: 0 <= j < |q| && HasLabel(q[j], n) && (if HasLabel(lines[i], n) then LabelSlot(lines, i) else labels[n]) == LabelSlot(q, j)
  {
    hide LabelSlot;
    LinesGrow(lines, i);
    var p, q := lines[..i], lines[..i + 1];
    if HasLabel(lines[i], n) {
      assert HasLabel(q[i], n);
    } else {
      var j :| 0 <= j < |p| && HasLabel(p[j], n) && labels[n] == LabelSlot(p, j);
      assert HasLabel(q[j], n) && LabelSlot(q, j) == labels[n];
    }
  }

  /** What the first pass leaves, or the duplicate it stopped at. */
  method CollectLabels(lines: seq<SourceLine>) returns (labels: map<string, nat>, insts: seq<Src>, duplicate: Option<string>)
    ensures duplicate.None? <==> Unique(lines)
    ensures duplicate.None? ==> Dictionary(lines, labels) && insts == Insts(lines)
  {
    hide LabelSlot, Dictionary, Insts;
    labels, insts, duplicate := map[], [], None;
    var idx := 0;
    EmptyDictionary(lines);
    for i := 0 to |lines|
      invariant duplicate.None? && Dictionary(lines[..i], labels) && insts == Insts(lines[..i])
      invariant idx == Pos(insts, |insts|) && Unique(lines[..i])
    {
      var line := lines[i];
      LinesGrow(lines, i);
      IndexIsLabelSlot(lines, i);
      UniqueGrows(lines, i, labels);
      if line.tag.Some? {
        if line.tag.value in labels {
          duplicate := line.tag;
          return;
        }
      }
      DictionaryGrows(lines, i, labels);
      if line.tag.Some? {
        labels := labels[line.tag.value := idx];
      }
      if line.inst.Some? {
        PosPrefix(insts, [line.inst.value], |insts|);
        insts := insts + [line.inst.value];
        if line.inst.value.Plain? && line.inst.value.rec.LoadWide? {
          idx := idx + 2;
        } else {
          idx := idx + 1;
        }
      }
    }
    assert lines[..|lines|] == lines;
  }

  lemma EmptyDictionary(lines: seq<SourceLine>)
    ensures Dictionary(lines[..0], map[]) && Insts(lines[..0]) == [] && Unique(lines[..0])
  {
  }

  lemma IndexIsLabelSlot(lines: seq<SourceLine>, i: nat)
    requires i < |lines|
    ensures LabelSlot(lines, i) == Pos(Insts(lines[..i]), |Insts(lines[..i])|)
  {
  }

  /** A label already in the dictionary is a duplicate; a new one keeps the labels unique. */
  lemma UniqueGrows(lines: seq<SourceLine>, i: nat, labels: map<string, nat>)
    requires i < |lines| && Dictionary(lines[..i], labels) && Unique(lines[..i])
    ensures lines[i].tag.Some? && lines[i].tag.value in labels ==> !Unique(lines)
    ensures !(lines[i].tag.Some? && lines[i].tag.value in labels) ==> Unique(lines[..i + 1])
  {
    var p, q := lines[..i], lines[..i + 1];
    hide LabelSlot;
    if lines[i].tag.Some? && lines[i].tag.value in labels {
      var n := lines[i].tag.value;
      var j :| 0 <= j < |p| && HasLabel(p[j], n) && labels[n] == LabelSlot(p, j);
      assert HasLabel(lines[j], n) && HasLabel(lines[i], n);
    } else {
      forall a, b, n | 0 <= a < b < |q| && HasLabel(q[a], n)
        ensures !HasLabel(q[b], n)
      {
        assert HasLabel(p[a], n);
        if b < i {
          assert q[b] == p[b];
        }
      }
    }
  }

  ghost predicate AllParsed(lines: seq<SourceLine>) { forall i :: 0 <= i < |lines| ==> Parsed(lines[i]) }

  lemma {:induction false} ParsedInsts(lines: seq<SourceLine>)
    requires AllParsed(lines)
    ensures forall k :: 0 <= k < |Insts(lines)| ==> ParsedInst(Insts(lines)[k])
  {
    if lines != [] {
      var rest := lines[..|lines| - 1];
      ParsedInsts(rest);
      assert Parsed(lines[|lines| - 1]);
    }
  }

  /** Every label an instruction refers to stands on some line. */
  ghost predicate AllTargetsExist(lines: seq<SourceLine>)
  {
    forall k, n :: 0 <= k < |Insts(lines)| && Refers(Insts(lines)[k], n) ==> exists j :: 0 <= j < |lines| && HasLabel(lines[j], n)
  }

  lemma DefinedMeansExist(lines: seq<SourceLine>, labels: map<string, nat>)
    requires Dictionary(lines, labels)
    ensures Defined(Insts(lines), labels) <==> AllTargetsExist(lines)
  {
    hide LabelSlot, Insts;
    var insts := Insts(lines);
    if Defined(insts, labels) {
      forall k, n | 0 <= k < |insts| && Refers(insts[k], n)
        ensures exists j :: 0 <= j < |lines| && HasLabel(lines[j], n)
      {
        var j :| 0 <= j < |lines| && HasLabel(lines[j], n) && labels[n] == LabelSlot(lines, j);
      }
    }
    if AllTargetsExist(lines) {
      forall k | 0 <= k < |insts| && !insts[k].Plain?
        ensures insts[k].name in labels
      {
        assert Refers(insts[k], insts[k].name);
        var j :| 0 <= j < |lines| && HasLabel(lines[j], insts[k].name);
      }
    }
  }

  /** The second pass: the same slot counter, each instruction resolved against it and written out. */
  method EmitAll(insts: seq<Src>, labels: map<string, nat>) returns (r: AsmResult)
    requires forall i :: 0 <= i < |insts| ==> ParsedInst(insts[i])
    ensures r.Assembled? <==> Defined(insts, labels)
    ensures r.Assembled? ==> r.bytes == ToBytes(Emitted(insts, labels, |insts|))
    ensures !r.DuplicateLabel?
  {
    hide ToBytes, Resolved, AssembleOne, ParsedInst, Emitted;
    var out, idx := [], 0;
    NothingEmitted(insts, labels);
    for i := 0 to |insts|
      invariant idx == Pos(insts, i) && forall k :: 0 <= k < i && !insts[k].Plain? ==> insts[k].name in labels
      invariant Defined(insts, labels) ==> out == ToBytes(Emitted(insts, labels, i))
    {
      var inst := insts[i];
      if !inst.Plain? && inst.name !in labels {
        return UndefinedLabel(inst.name);
      }
      ParsedResolves(inst, idx, labels);
      var rec := Resolved(inst, idx, labels);
      if Defined(insts, labels) {
        NextEmitted(insts, labels, i);
      }
      out := out + ToBytes(AssembleOne(rec));
      if inst.Plain? && inst.rec.LoadWide? {
        idx := idx + 2;
      } else {
        idx := idx + 1;
      }
    }
    return Assembled(out);
  }

  lemma ParsedResolves(inst: Src, idx: nat, labels: map<string, nat>)
    requires ParsedInst(inst) && (!inst.Plain? ==> inst.name in labels)
    ensures Assemblable(Resolved(inst, idx, labels))
  {
  }

  lemma NothingEmitted(insts: seq<Src>, labels: map<string, nat>)
    requires forall i :: 0 <= i < |insts| ==> ParsedInst(insts[i])
    ensures Defined(insts, labels) ==> ToBytes(Emitted(insts, labels, 0)) == []
  {
  }

  lemma NextEmitted(insts: seq<Src>, labels: map<string, nat>, i: nat)
    requires i < |insts| && Defined(insts, labels) && forall k :: 0 <= k < |insts| ==> ParsedInst(insts[k])
    ensures ParsedInst(insts[i])
    ensures ToBytes(Emitted(insts, labels, i + 1))
            == ToBytes(Emitted(insts, labels, i)) + ToBytes(AssembleOne(Resolved(insts[i], Pos(insts, i), labels)))
  {
    ToBytesAppend(Emitted(insts, labels, i), AssembleOne(Resolved(insts[i], Pos(insts, i), labels)));
  }

  /** `assemble`: both passes. It fails exactly on a duplicate or an undefined label. */
  method Assemble(lines: seq<SourceLine>) returns (r: AsmResult, ghost labels: map<string, nat>)
    requires AllParsed(lines)
    ensures r.DuplicateLabel? <==> !Unique(lines)
    ensures r.UndefinedLabel? <==> Unique(lines) && !AllTargetsExist(lines)
    ensures r.Assembled? ==>
              && Dictionary(lines, labels) && Defined(Insts(lines), labels)
              && (forall k :: 0 <= k < |Insts(lines)| ==> ParsedInst(Insts(lines)[k]))
              && r.bytes == ToBytes(Emitted(Insts(lines), labels, |Insts(lines)|))
              && |r.bytes| == 8 * Pos(Insts(lines), |Insts(lines)|)
  {
    hide Dictionary, Unique, AllTargetsExist, Insts, Emitted, ParsedInst, AllParsed, Defined;
    var table, insts, duplicate := CollectLabels(lines);
    labels := table;
    if duplicate.Some? {
      return DuplicateLabel(duplicate.value), labels;
    }
    ParsedInsts(lines);
    DefinedMeansExist(lines, table);
    r := EmitAll(insts, table);
  }

  // ---------------------------------------------------------------- where resolved jumps go

  /** A slot as the virtual machine reads it. */
  function InstOf(a: Raw): Inst { Inst(a.opcode, a.regs % 16, a.regs / 16, Signed16(a.off), Signed32(a.imm)) }

  function ProgramOf(slots: seq<Raw>): (p: seq<Inst>)
    ensures |p| == |slots| && forall i :: 0 <= i < |slots| ==> p[i] == InstOf(slots[i])
  {
    seq(|slots|, i requires 0 <= i < |slots| => InstOf(slots[i]))
  }

  lemma OffsetFits(d: int)
    ensures Signed16(ToU16(d)) == d <==> -0x8000 <= d < 0x8000
    ensures Signed32(ToU32(d)) == d <==> -0x8000_0000 <= d < 0x8000_0000
  {
  }

  lemma JumpOpcodes()
    ensures Decode(0x05).Ja? && Decode(0x85).Call?
  {
  }

  lemma CompareOpcodes(op: nat)
    requires op in {1, 2, 3, 4, 5, 6, 7, 10, 11, 12, 13}
    ensures Decode(5 + 16 * op).Jcc? && Decode(13 + 16 * op).Jcc?
  {
  }

  /** Whether an instruction with a label transfers control in state `s`. */
  predicate Transfers(env: Env, s: State, inst: Src)
    requires s.pc < |env.prog|
  {
    var i := env.prog[s.pc];
    match Decode(i.opcode)
    case Jcc(wide, cond, fromReg) => inst.CompareTo? && Taken(wide, cond, s.regs[i.dst], Operand(fromReg, i, s.regs))
    case _ => inst.JumpToLabel? || inst.CallToLabel?
  }

  predicate FieldFits(inst: Src, d: int)
  {
    if inst.CallToLabel? then -0x8000_0000 <= d < 0x8000_0000 else -0x8000 <= d < 0x8000
  }

  /** One resolved instruction under the machine's rule: it reaches slot `t` exactly if the distance fits its field. */
  lemma ResolvedReaches(env: Env, s: State, inst: Src, t: nat, labels: map<string, nat>)
    requires ParsedInst(inst) && !inst.Plain? && inst.name in labels && labels[inst.name] == t
    requires s.pc < |env.prog| && env.prog[s.pc] == InstOf(AssembleOne(Resolved(inst, s.pc, labels))[0])
    requires Transfers(env, s, inst)
    ensures IntegerPc(env, s) == t <==> FieldFits(inst, t - s.pc - 1)
  {
    var d := t - s.pc - 1;
    OffsetFits(d);
    ResolvedFields(inst, s.pc, t, labels);
    JumpOpcodes();
    if inst.CompareTo? {
      CompareOpcodes(inst.op);
    }
    hide Decode, Taken, Signed16, Signed32, ToU16, ToU32, AssembleOne, Resolved;
  }

  /** Opcode, offset and immediate of a resolved instruction. */
  lemma ResolvedFields(inst: Src, idx: nat, t: nat, labels: map<string, nat>)
    requires ParsedInst(inst) && !inst.Plain? && inst.name in labels && labels[inst.name] == t
    ensures var i := InstOf(AssembleOne(Resolved(inst, idx, labels))[0]); var d := t - idx - 1;
      && (inst.JumpToLabel? ==> i.opcode == 0x05 && i.offset == Signed16(ToU16(d)))
      && (inst.CallToLabel? ==> i.opcode == 0x85 && i.src == 1 && i.imm == Signed32(ToU32(d)))
      && (inst.CompareTo? ==> i.opcode in {5 + 16 * inst.op, 13 + 16 * inst.op} && i.offset == Signed16(ToU16(d)))
  {
    hide Signed16, Signed32, ToU16, ToU32;
  }

  /**
    In an assembled program, the `k`-th instruction, when it refers to a label that stands on line `j` and is run
    by the machine, goes to the slot of the first instruction after that label if and only if the distance fits
    its field.
    */
  lemma LabelsResolve(lines: seq<SourceLine>, labels: map<string, nat>, env: Env, s: State, k: nat, j: nat)
    requires Dictionary(lines, labels) && Defined(Insts(lines), labels) && k < |Insts(lines)| && j < |lines|
    requires forall i :: 0 <= i < |Insts(lines)| ==> ParsedInst(Insts(lines)[i])
    requires env.prog == ProgramOf(Emitted(Insts(lines), labels, |Insts(lines)|))
    requires s.pc == Pos(Insts(lines), k) && s.pc < |env.prog|
    requires !Insts(lines)[k].Plain? && HasLabel(lines[j], Insts(lines)[k].name)
    requires Transfers(env, s, Insts(lines)[k])
    ensures IntegerPc(env, s) == LabelSlot(lines, j) <==> FieldFits(Insts(lines)[k], LabelSlot(lines, j) - s.pc - 1)
  {
    hide Emitted, Resolved, AssembleOne, ParsedInst, Transfers, IntegerPc, InstOf, Insts, LabelSlot;
    var insts := Insts(lines);
    EmittedAt(insts, labels, |insts|, k);
    ResolvedReaches(env, s, insts[k], LabelSlot(lines, j), labels);
  }

  /** A label's slot is where the first instruction after it is placed (or the end of the program). */
  lemma LabelIsInstructionStart(lines: seq<SourceLine>, j: nat)
    requires j < |lines|
    ensures |Insts(lines[..j])| <= |Insts(lines)|
    ensures LabelSlot(lines, j) == Pos(Insts(lines), |Insts(lines[..j])|)
  {
    InstsPrefix(lines, j);
    var n := |Insts(lines[..j])|;
    PosPrefix(Insts(lines[..j]), Insts(lines)[n..], n);
  }

  lemma {:induction false} InstsPrefix(lines: seq<SourceLine>, j: nat)
    requires j <= |lines|
    ensures |Insts(lines[..j])| <= |Insts(lines)|
    ensures Insts(lines) == Insts(lines[..j]) + Insts(lines)[|Insts(lines[..j])|..]
    decreases |lines|
  {
    if j == |lines| {
      assert lines[..j] == lines;
    } else {
      var n := |lines| - 1;
      InstsPrefix(lines[..n], j);
      assert lines[..n][..j] == lines[..j];
    }
  }

  // ---------------------------------------------------------------- the assembler and the machine read opcodes alike

  /** The machine operation a record stands for. */
  function OpOf(r: Rec): Op
    requires Assemblable(r)
  {
    match r
    case Load(size, sx, _, _, _) => Ldx(SizeOfCode(size), sx)
    case LoadWide(_, _) => Lddw
    case StoreImm(size, _, _, _) => St(SizeOfCode(size))
    case StoreReg(size, _, _, _) => Stx(SizeOfCode(size))
    case Neg(wide, _) => Alu(wide, OpNeg, false)
    case Binary(wide, op, _, _, operand) => Alu(wide, AluOfCode(op), operand.RegOperand?)
    case Endian(kind, _, _) => End(match kind case LittleEndian => ToLE case BigEndian => ToBE case ByteSwap => Swap)
    case CompareJump(op, _, operand, _) => Jcc(true, CondOfCode(op), operand.RegOperand?)
    case Jump(_) => Ja
    case CallHelper(_) => Call
    case CallLocal(_) => Call
    case ExitProgram => Exit
  }

  /** What the assembler writes for a record, the machine decodes as that record's operation. */
  lemma RecordDecodes(r: Rec)
    requires Assemblable(r)
    ensures Decode(AssembleOne(r)[0].opcode) == OpOf(r)
  {
    hide Decode, AssembleOne, OpOf;
    if r.Load? || r.StoreImm? || r.StoreReg? {
      MemoryDecodes(r);
    } else if r.Binary? {
      BinaryDecodes(r);
    } else if r.CompareJump? {
      CompareDecodes(r);
    } else {
      OtherDecodes(r);
    }
  }

  lemma MemoryDecodes(r: Rec)
    requires Assemblable(r) && (r.Load? || r.StoreImm? || r.StoreReg?)
    ensures Decode(AssembleOne(r)[0].opcode) == OpOf(r)
  {
    SizeParts(if r.Load? then 1 else if r.StoreImm? then 2 else 3, r.size, if r.Load? && r.sx then 4 else 3);
    hide ToU16, ToU32, DecodeAlu, DecodeJmp;
  }

  lemma BinaryDecodes(r: Rec)
    requires Assemblable(r) && r.Binary?
    ensures Decode(AssembleOne(r)[0].opcode) == OpOf(r)
  {
    hide AssembleOne, DecodeMem, DecodeJmp, AluOfCode;
    BinaryByte(r);
    OpcodeParts(if r.wide then 7 else 4, if r.operand.RegOperand? then 1 else 0, r.op);
  }

  lemma BinaryByte(r: Rec)
    requires Assemblable(r) && r.Binary?
    ensures AssembleOne(r)[0].opcode == (if r.wide then 7 else 4) + 8 * (if r.operand.RegOperand? then 1 else 0) + 16 * r.op
  {
    hide ToU16, ToU32;
  }

  lemma CompareDecodes(r: Rec)
    requires Assemblable(r) && r.CompareJump?
    ensures Decode(AssembleOne(r)[0].opcode) == OpOf(r)
  {
    OpcodeParts(5, if r.operand.RegOperand? then 1 else 0, r.op);
    hide ToU16, ToU32, DecodeMem, DecodeAlu, CondOfCode;
  }

  lemma OtherDecodes(r: Rec)
    requires r.LoadWide? || r.Neg? || r.Endian? || r.Jump? || r.CallHelper? || r.CallLocal? || r.ExitProgram?
    requires Assemblable(r)
    ensures Decode(AssembleOne(r)[0].opcode) == OpOf(r)
  {
    hide ToU16, ToU32;
    if r.Endian? || r.Neg? {
      hide DecodeJmp, DecodeMem;
    } else {
      hide DecodeAlu, DecodeMem;
    }
  }

  /** The two slots of an LDDW give the machine the record's immediate modulo 2^64. */
  lemma WideRecordLoads(dst: u4, imm: int)
    ensures var slots := AssembleOne(LoadWide(dst, imm));
      WideImmediate(InstOf(slots[0]), InstOf(slots[1])) == ToU64(imm)
  {
    WideRoundTrip(dst, imm);
    var slots := AssembleOne(LoadWide(dst, imm));
    SignedWord(slots[0].imm);
    SignedWord(slots[1].imm);
    hide ToU64, Signed32;
  }

  lemma SignedWord(x: u32)
    ensures ToU32(Signed32(x)) == x
  {
  }
}
