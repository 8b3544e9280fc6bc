/** The two-pass assembler and the disassembler: labels, whole programs, and the round trip through bytes. */
module Assembler {
  import opened Words
  import opened AsmRecords

  // ---------------------------------------------------------------- slots and bytes

  function SlotBytes(a: Raw): (b: seq<u8>)
    ensures |b| == 8
  {
    [a.opcode, a.regs, a.off % 256, a.off / 256,
     a.imm % 256, a.imm / 256 % 256, a.imm / 256 / 256 % 256, a.imm / 256 / 256 / 256]
  }

  function SlotOfBytes(b: seq<u8>): Raw
    requires |b| == 8
  {
    var b2: int, b3: int := b[2], b[3];
    var b4: int, b5: int, b6: int, b7: int := b[4], b[5], b[6], b[7];
    Raw(b[0], b[1], b2 + 256 * b3, b4 + 256 * b5 + 65536 * b6 + 16777216 * b7)
  }

  lemma SlotRoundTrip(a: Raw)
    ensures SlotOfBytes(SlotBytes(a)) == a
  {
    var v, q1, q2 := a.imm, a.imm / 256, a.imm / 256 / 256;
    assert v == 256 * q1 + v % 256 && q1 == 256 * q2 + q1 % 256 && q2 == 256 * (q2 / 256) + q2 % 256;
    assert a.off == 256 * (a.off / 256) + a.off % 256;
  }

  function ToBytes(slots: seq<Raw>): (b: seq<u8>)
    ensures |b| == 8 * |slots|
  {
    if slots == [] then [] else SlotBytes(slots[0]) + ToBytes(slots[1..])
  }

  lemma {:induction false} SlotAt(slots: seq<Raw>, i: nat)
    requires i < |slots|
    ensures ToBytes(slots)[8 * i..8 * i + 8] == SlotBytes(slots[i])
  {
    var rest := ToBytes(slots[1..]);
    if i == 0 {
      assert (SlotBytes(slots[0]) + rest)[0..8] == SlotBytes(slots[0]);
    } else {
      SlotAt(slots[1..], i - 1);
      assert (SlotBytes(slots[0]) + rest)[8 * i..8 * i + 8] == rest[8 * (i - 1)..8 * (i - 1) + 8];
    }
  }

  lemma {:induction false} ToBytesAppend(c: seq<Raw>, d: seq<Raw>)
    ensures ToBytes(c + d) == ToBytes(c) + ToBytes(d)
  {
    if c == [] {
      assert c + d == d;
    } else {
      assert (c + d)[1..] == c[1..] + d;
      ToBytesAppend(c[1..], d);
    }
  }

  // ---------------------------------------------------------------- whole programs of records

  predicate AllAssemblable(rs: seq<Rec>) { forall i :: 0 <= i < |rs| ==> Assemblable(rs[i]) }

  function AssembleAll(rs: seq<Rec>): seq<Raw>
    requires AllAssemblable(rs)
  {
    if rs == [] then [] else AssembleOne(rs[0]) + AssembleAll(rs[1..])
  }

  function Second(slots: seq<Raw>): Option<Raw> { if |slots| > 1 then Some(slots[1]) else None }

  /** The lines of a program, one after another; nothing if it ends inside an LDDW or has a nameless 32-bit operation. */
  function Lines(slots: seq<Raw>): Option<seq<Line>>
    decreases |slots|
  {
    if slots == [] then Some([])
    else if Raises(slots[0], Second(slots)) then None
    else
      var l := DisassembleOne(slots[0], Second(slots));
      Prepend([l], Lines(slots[l.slots..]))
  }

  function Prepend(ls: seq<Line>, o: Option<seq<Line>>): Option<seq<Line>>
  {
    match o case None => None case Some(t) => Some(ls + t)
  }

  function NormalLine(r: Rec): Line { Line(Normal(r), if r.LoadWide? then 2 else 1, r.CallLocal?) }

  function NormalLines(rs: seq<Rec>): seq<Line>
  {
    if rs == [] then [] else [NormalLine(rs[0])] + NormalLines(rs[1..])
  }

  /** Disassembling what was assembled gives the same records, normalised; only local calls draw warnings. */
  lemma {:induction false} ProgramRoundTrip(rs: seq<Rec>)
    requires AllAssemblable(rs)
    ensures Lines(AssembleAll(rs)) == Some(NormalLines(rs))
  {
    hide DisassembleOne, Normal, Assemblable, AssembleOne, Raises;
    if rs != [] {
      var head, tail := AssembleOne(rs[0]), AssembleAll(rs[1..]);
      var slots := head + tail;
      HeadLength(rs[0]);
      RecordRoundTrip(rs[0], Second(slots));
      assert slots[|head|..] == tail;
      ProgramRoundTrip(rs[1..]);
    }
  }

  lemma HeadLength(r: Rec)
    requires Assemblable(r)
    ensures |AssembleOne(r)| == if r.LoadWide? then 2 else 1
  {
  }

  function NormalRecords(rs: seq<Rec>): seq<Rec>
  {
    if rs == [] then [] else [Normal(rs[0])] + NormalRecords(rs[1..])
  }

  /** Assembling the disassembled records reproduces the program. */
  lemma {:induction false} ReassemblyReproduces(rs: seq<Rec>)
    requires AllAssemblable(rs)
    ensures AllAssemblable(NormalRecords(rs)) && AssembleAll(NormalRecords(rs)) == AssembleAll(rs)
  {
    hide Normal, Assemblable, AssembleOne;
    if rs != [] {
      NormalAssembles(rs[0]);
      ReassemblyReproduces(rs[1..]);
      var ns := NormalRecords(rs);
      assert ns[1..] == NormalRecords(rs[1..]);
      assert forall i :: 0 <= i < |ns| ==> ns[i] == if i == 0 then Normal(rs[0]) else ns[1..][i - 1];
    }
  }

  lemma {:induction false} RecordsOfLines(rs: seq<Rec>, i: nat)
    requires i < |rs|
    ensures |NormalLines(rs)| == |rs| == |NormalRecords(rs)| && NormalLines(rs)[i].rec == NormalRecords(rs)[i] == Normal(rs[i])
  {
    if |rs| > 1 {
      RecordsOfLines(rs[1..], if i > 0 then i - 1 else 0);
    }
  }

  /** `disassemble`: walk the bytes eight or sixteen at a time; running out of bytes inside a slot or an LDDW is an error. */
  method Disassemble(data: seq<u8>) returns (lines: Option<seq<Line>>)
    ensures lines == if |data| % 8 == 0 then Lines(SlotsOf(data)) else None
  {
    hide DisassembleOne, Raises, SlotOfBytes, SlotsOf, Lines;
    var offset, done := 0, [];
    assert data[0..] == data;
    LinesOfNothing();
    PrependNothing(LinesAt(data, 0));
    while offset < |data|
      invariant 0 <= offset <= |data| && offset % 8 == 0
      invariant |data| % 8 == 0 ==> Lines(SlotsOf(data)) == Prepend(done, LinesAt(data, offset))
      decreases |data| - offset
    {
      if offset + 8 > |data| {
        return None;
      }
      var a := SlotOfBytes(data[offset..offset + 8]);
      var next := if offset + 16 <= |data| then Some(SlotOfBytes(data[offset + 8..offset + 16])) else None;
      if |data| % 8 == 0 {
        LinesFrom(data, offset);
      }
      if Raises(a, next) {
        return None;
      }
      var l := DisassembleOne(a, next);
      PrependTwice(done, l, LinesAt(data, offset + 8 * l.slots));
      done := done + [l];
      offset := offset + 8 * l.slots;
    }
    assert data[offset..] == [] && done + [] == done;
    return Some(done);
  }

  lemma LinesOfNothing()
    ensures SlotsOf([]) == [] && Lines([]) == Some([])
  {
  }

  lemma PrependNothing(o: Option<seq<Line>>)
    ensures Prepend([], o) == o
  {
    if o.Some? {
      assert [] + o.value == o.value;
    }
  }

  lemma PrependTwice(done: seq<Line>, l: Line, o: Option<seq<Line>>)
    ensures Prepend(done, Prepend([l], o)) == Prepend(done + [l], o)
  {
    if o.Some? {
      assert done + ([l] + o.value) == (done + [l]) + o.value;
    }
  }

  /** The lines of whole slots from an offset on. */
  function LinesAt(data: seq<u8>, offset: nat): Option<seq<Line>>
  {
    if |data| % 8 == 0 && offset % 8 == 0 && offset <= |data| then Lines(SlotsOf(data[offset..])) else None
  }

  /** One line read from the bytes at an offset. */
  lemma LinesFrom(data: seq<u8>, offset: nat)
    requires |data| % 8 == 0 && offset % 8 == 0 && offset + 8 <= |data|
    ensures var a := SlotOfBytes(data[offset..offset + 8]);
      var next := if offset + 16 <= |data| then Some(SlotOfBytes(data[offset + 8..offset + 16])) else None;
      var l := DisassembleOne(a, next);
      && offset + 8 * l.slots <= |data|
      && LinesAt(data, offset) == if Raises(a, next) then None else Prepend([l], LinesAt(data, offset + 8 * l.slots))
  {
    hide DisassembleOne, Raises, SlotOfBytes, SlotsOf, Lines, Prepend;
    var slots := SlotsOf(data[offset..]);
    FirstSlots(data, offset);
    FirstLine(slots);
    var l := DisassembleOne(slots[0], Second(slots));
    SlotsOfFrom(data, offset, l.slots);
  }

  /** The line of the first slot, and the lines of the others. */
  lemma FirstLine(slots: seq<Raw>)
    requires slots != []
    ensures var l := DisassembleOne(slots[0], Second(slots));
      && l.slots <= |slots|
      && Lines(slots) == if Raises(slots[0], Second(slots)) then None else Prepend([l], Lines(slots[l.slots..]))
  {
    hide DisassembleOne, Raises, Prepend;
  }

  /** The first slot of the rest of the bytes and the one behind it. */
  lemma FirstSlots(data: seq<u8>, offset: nat)
    requires |data| % 8 == 0 && offset % 8 == 0 && offset < |data|
    ensures var slots := SlotsOf(data[offset..]);
      && slots != [] && slots[0] == SlotOfBytes(data[offset..offset + 8])
      && Second(slots) == if offset + 16 <= |data| then Some(SlotOfBytes(data[offset + 8..offset + 16])) else None
  {
    hide SlotOfBytes, SlotsOf;
    var rest := data[offset..];
    SlotsOfFrom(data, offset, 1);
    assert rest[..8] == data[offset..offset + 8];
    if offset + 16 <= |data| {
      assert rest[8..16] == data[offset + 8..offset + 16];
    }
  }

  function SlotsOf(b: seq<u8>): (s: seq<Raw>)
    requires |b| % 8 == 0
    ensures |s| == |b| / 8
  {
    if b == [] then [] else [SlotOfBytes(b[..8])] + SlotsOf(b[8..])
  }

  lemma {:induction false} SlotsOfToBytes(slots: seq<Raw>)
    ensures SlotsOf(ToBytes(slots)) == slots
  {
    if slots != [] {
      SlotRoundTrip(slots[0]);
      SlotsOfToBytes(slots[1..]);
      var b := ToBytes(slots);
      assert b[..8] == SlotBytes(slots[0]) && b[8..] == ToBytes(slots[1..]);
    }
  }

  lemma {:induction false} SlotsOfDrop(b: seq<u8>, k: nat)
    requires |b| % 8 == 0 && 8 * k <= |b|
    ensures SlotsOf(b[8 * k..]) == SlotsOf(b)[k..]
  {
    if k == 0 {
      assert b[0..] == b;
    } else {
      SlotsOfDrop(b[8..], k - 1);
      assert b[8..][8 * (k - 1)..] == b[8 * k..];
      assert SlotsOf(b)[1..] == SlotsOf(b[8..]);
    }
  }

  /** The slots at an offset, and what is left after the next `k`. */
  lemma SlotsOfFrom(data: seq<u8>, offset: nat, k: nat)
    requires |data| % 8 == 0 && offset % 8 == 0 && offset < |data|
    ensures var rest := data[offset..]; var slots := SlotsOf(rest);
      && slots[0] == SlotOfBytes(rest[..8])
      && (|rest| > 8 ==> |slots| > 1 && slots[1] == SlotOfBytes(rest[8..16])) && (|rest| == 8 ==> |slots| == 1)
      && (8 * k <= |rest| ==> SlotsOf(data[offset + 8 * k..]) == slots[k..])
  {
    var rest := data[offset..];
    if |rest| > 8 {
      assert SlotsOf(rest)[1..] == SlotsOf(rest[8..]);
      assert rest[8..][..8] == rest[8..16];
      assert SlotsOf(rest)[1] == SlotsOf(rest[8..])[0];
    }
    if 8 * k <= |rest| {
      SlotsOfDrop(rest, k);
      assert rest[8 * k..] == data[offset + 8 * k..];
    }
  }

  /** Through the bytes: assembling, writing, reading back and disassembling. */
  lemma BytesRoundTrip(rs: seq<Rec>)
    requires AllAssemblable(rs)
    ensures Lines(SlotsOf(ToBytes(AssembleAll(rs)))) == Some(NormalLines(rs))
  {
    SlotsOfToBytes(AssembleAll(rs));
    ProgramRoundTrip(rs);
  }
}
