/** Patch tables growing with the emitted code, and what their resolution gives. */
module JitEmission {
  import opened Words
  import opened Isa
  import opened Relocation

  // ---------------------------------------------------------------- tables growing with the code

  function Append(t: Tables, kind: Kind, e: Entry): Tables
  {
    match kind
    case JumpKind => t.(jumps := t.jumps + [e])
    case CallKind => t.(calls := t.calls + [e])
    case LoadKind => t.(loads := t.loads + [e])
    case LeaKind => t.(leas := t.leas + [e])
  }

  lemma AppendTable(t: Tables, kind: Kind, e: Entry, k: Kind)
    ensures TableOf(Append(t, kind, e), k) == if k == kind then TableOf(t, k) + [e] else TableOf(t, k)
  {
  }

  /** A field emitted at the end of the code is disjoint from all earlier ones. */
  lemma AppendDisjoint(t: Tables, kind: Kind, target: Target, size: nat)
    requires Disjoint(t, size)
    ensures Disjoint(Append(t, kind, Entry(size, target)), size + 4)
  {
    var e := Entry(size, target);
    var t' := Append(t, kind, e);
    hide TableOf, Append;
    forall k: Kind
      ensures Spaced(TableOf(t', k)) && Within(TableOf(t', k), size + 4)
    {
      AppendTable(t, kind, e, k);
    }
    forall k: Kind, l: Kind | Before(k, l)
      ensures ApartTables(TableOf(t', k), TableOf(t', l))
    {
      AppendTable(t, kind, e, k);
      AppendTable(t, kind, e, l);
      assert ApartTables(TableOf(t, k), TableOf(t, l)) && Within(TableOf(t, k), size) && Within(TableOf(t, l), size);
    }
  }

  lemma DisjointGrows(t: Tables, size: nat, size': nat)
    requires Disjoint(t, size) && size <= size'
    ensures Disjoint(t, size')
  {
    hide TableOf, ApartTables, Spaced;
    forall k: Kind
      ensures Within(TableOf(t, k), size')
    {
      assert Within(TableOf(t, k), size);
    }
  }

  lemma AppendKeepsPlain(t: Tables, kind: Kind, e: Entry, k: nat)
    requires Plain(t, k) && k < e.at
    ensures Plain(Append(t, kind, e), k)
  {
    var t' := Append(t, kind, e);
    hide TableOf, Append;
    forall l: Kind, i | 0 <= i < |TableOf(t', l)|
      ensures !(TableOf(t', l)[i].at <= k < TableOf(t', l)[i].at + 4)
    {
      AppendTable(t, kind, e, l);
    }
  }

  /** Past the emitted code there are no fields. */
  lemma PlainBeyond(t: Tables, size: nat, k: nat)
    requires Disjoint(t, size) && size <= k
    ensures Plain(t, k)
  {
    hide TableOf, ApartTables, Spaced;
    forall l: Kind, i | 0 <= i < |TableOf(t, l)|
      ensures !(TableOf(t, l)[i].at <= k < TableOf(t, l)[i].at + 4)
    {
      assert Within(TableOf(t, l), size);
    }
  }

  /** Only the positions of the entries matter to `Disjoint` and `Plain`. */
  lemma RetargetKeepsFields(t: Tables, at: nat, target: Target, size: nat)
    requires Disjoint(t, size)
    ensures var t' := t.(jumps := Retarget(t.jumps, at, target));
      Disjoint(t', size) && forall k: nat :: Plain(t, k) ==> Plain(t', k)
  {
    var t' := t.(jumps := Retarget(t.jumps, at, target));
    assert forall k: Kind :: TableOf(t', k) == if k.JumpKind? then t'.jumps else TableOf(t, k);
    assert TableOf(t, JumpKind) == t.jumps;
    forall i | 0 <= i < |t.jumps|
      ensures t'.jumps[i].at == t.jumps[i].at
    {
      RetargetAt(t.jumps, at, target, i);
    }
    hide TableOf, Retarget;
    assert Spaced(t.jumps) && Within(t.jumps, size);
    assert forall k: Kind :: Spaced(TableOf(t', k)) && Within(TableOf(t', k), size);
    forall k: Kind, l: Kind | Before(k, l)
      ensures ApartTables(TableOf(t', k), TableOf(t', l))
    {
      assert ApartTables(TableOf(t, k), TableOf(t, l));
    }
    forall k: nat | Plain(t, k)
      ensures Plain(t', k)
    {
    }
  }

  // ---------------------------------------------------------------- function prologues

  const PROLOGUE_SIZE: nat := 15

  /** `sub rsp, 8` and `mov qword [rsp], usage`. */
  function Prologue(usage: u16): (b: seq<u8>)
    ensures |b| == PROLOGUE_SIZE
  {
    [0x48, 0x81, 0xec, 8, 0, 0, 0, 0x48, 0xc7, 0x04, 0x24] + Bytes4(usage)
  }

  lemma PrologueParts(usage: u16)
    ensures Prologue(usage) == [0x48, 0x81, 0xec] + Bytes4(8) + [0x48, 0xc7, 0x04, 0x24] + Bytes4(usage)
  {
    assert Bytes4(8) == [8, 0, 0, 0];
  }

  /** Slot `i` has the prologue for `usage` right before its recorded location, clear of all patch fields. */
  ghost predicate HasPrologue(t: Tables, b: seq<u8>, i: nat, usage: u16)
  {
    && i < |t.pcLocs| && t.prologSize == PROLOGUE_SIZE <= t.pcLocs[i] <= |b|
    && b[t.pcLocs[i] - PROLOGUE_SIZE..t.pcLocs[i]] == Prologue(usage)
    && (forall k: nat :: t.pcLocs[i] - PROLOGUE_SIZE <= k < t.pcLocs[i] ==> Plain(t, k))
  }

  /** The near jump around a prologue: one byte of displacement in a four-byte field, reaching just past the prologue. */
  lemma BypassFits(t: Tables, at: nat)
    ensures JumpFix(t, Entry(at, Regular(0, at + 4 + PROLOGUE_SIZE, true))) == Some(Fix(at, [18]))
  {
  }

  // ---------------------------------------------------------------- the invariant of error-free emission

  ghost predicate Good(t: Tables, b: seq<u8>, entries: map<nat, u16>)
  {
    && Disjoint(t, |b|) && LocationsWithin(t, |b|) && |t.pcLocs| == MAX_INSTS + 1
    && t.prologSize in {0, PROLOGUE_SIZE}
    && (forall i :: i in entries ==> HasPrologue(t, b, i, entries[i]))
  }

  lemma PrologSizes(t: Tables, b: seq<u8>, entries: map<nat, u16>)
    requires Good(t, b, entries)
    ensures t.prologSize in {0, PROLOGUE_SIZE}
  {
  }

  lemma GoodJumps(t: Tables, b: seq<u8>, entries: map<nat, u16>)
    requires Good(t, b, entries)
    ensures Spaced(t.jumps)
  {
    assert Spaced(TableOf(t, JumpKind));
  }

  lemma PrologueKept(t: Tables, b: seq<u8>, t': Tables, b': seq<u8>, i: nat, usage: u16)
    requires HasPrologue(t, b, i, usage) && |t'.pcLocs| == |t.pcLocs| && t'.pcLocs[i] == t.pcLocs[i]
    requires t'.prologSize == t.prologSize && b <= b'
    requires forall k: nat :: k < |b| && Plain(t, k) ==> Plain(t', k)
    ensures HasPrologue(t', b', i, usage)
  {
    hide Plain, Prologue;
    var p := t.pcLocs[i];
    assert b'[p - PROLOGUE_SIZE..p] == b[p - PROLOGUE_SIZE..p];
  }

  lemma GoodBytes(t: Tables, b: seq<u8>, data: seq<u8>, entries: map<nat, u16>)
    requires Good(t, b, entries) && |b + data| + PROLOGUE_SIZE < 0x8000_0000
    ensures Good(t, b + data, entries)
  {
    hide HasPrologue, Disjoint, Plain;
    DisjointGrows(t, |b|, |b + data|);
    forall i | i in entries { PrologueKept(t, b, t, b + data, i, entries[i]); }
  }

  lemma GoodField(t: Tables, b: seq<u8>, entries: map<nat, u16>, kind: Kind, target: Target)
    requires Good(t, b, entries) && |b| + 4 + PROLOGUE_SIZE < 0x8000_0000
    requires target.Regular? ==> target.jit <= |b|
    ensures Good(Append(t, kind, Entry(|b|, target)), b + [0, 0, 0, 0], entries)
  {
    hide HasPrologue, Disjoint, Plain;
    var e := Entry(|b|, target);
    AppendDisjoint(t, kind, target, |b|);
    forall k: nat | k < |b| && Plain(t, k)
      ensures Plain(Append(t, kind, e), k)
    {
      AppendKeepsPlain(t, kind, e, k);
    }
    forall i | i in entries { PrologueKept(t, b, Append(t, kind, e), b + [0, 0, 0, 0], i, entries[i]); }
  }

  lemma GoodRetarget(t: Tables, b: seq<u8>, entries: map<nat, u16>, at: nat, target: Target)
    requires Good(t, b, entries) && (target.Regular? ==> target.jit <= |b|)
    ensures Good(t.(jumps := Retarget(t.jumps, at, target)), b, entries)
  {
    hide HasPrologue, Disjoint, Plain, Retarget;
    var t' := t.(jumps := Retarget(t.jumps, at, target));
    RetargetKeepsFields(t, at, target, |b|);
    forall i | 0 <= i < |t.jumps| { RetargetAt(t.jumps, at, target, i); }
    forall i | i in entries { PrologueKept(t, b, t', b, i, entries[i]); }
  }

  lemma SameFields(t: Tables, t': Tables)
    requires t'.jumps == t.jumps && t'.calls == t.calls && t'.loads == t.loads && t'.leas == t.leas
    ensures forall n: nat :: Disjoint(t', n) == Disjoint(t, n)
    ensures forall k: nat :: Plain(t', k) == Plain(t, k)
  {
    assert forall k: Kind :: TableOf(t', k) == TableOf(t, k);
    hide TableOf;
  }

  /** Recording where a slot's code begins. */
  lemma GoodLocation(t: Tables, b: seq<u8>, entries: map<nat, u16>, i: nat)
    requires Good(t, b, entries) && i <= MAX_INSTS && i !in entries
    ensures Good(t.(pcLocs := t.pcLocs[i := |b|]), b, entries)
  {
    hide HasPrologue, Disjoint, Plain;
    var t' := t.(pcLocs := t.pcLocs[i := |b|]);
    SameFields(t, t');
    forall j | j in entries
      ensures HasPrologue(t', b, j, entries[j])
    {
      PrologueIndex(t, b, j, entries[j]);
      PrologueKept(t, b, t', b, j, entries[j]);
    }
  }

  lemma PrologueIndex(t: Tables, b: seq<u8>, i: nat, usage: u16)
    requires HasPrologue(t, b, i, usage)
    ensures i < |t.pcLocs| && t.prologSize == PROLOGUE_SIZE
  {
  }

  /** Recording a slot's location behind the prologue that ends the code. */
  lemma GoodEntry(t: Tables, b: seq<u8>, entries: map<nat, u16>, i: nat, usage: u16)
    requires var c := b + Prologue(usage);
      && Good(t, c, entries) && i <= MAX_INSTS && i !in entries && t.prologSize == PROLOGUE_SIZE
      && forall k: nat :: |b| <= k < |c| ==> Plain(t, k)
    ensures var c := b + Prologue(usage); Good(t.(pcLocs := t.pcLocs[i := |c|]), c, entries[i := usage])
  {
    var c := b + Prologue(usage);
    var t' := t.(pcLocs := t.pcLocs[i := |c|]);
    hide Disjoint, Plain, Prologue;
    SameFields(t, t');
    GoodLocation(t, c, entries, i);
    assert c[|b|..|c|] == Prologue(usage);
    assert HasPrologue(t', c, i, usage);
  }

  /** Code emitted behind tables `t` holds no fields, before and after one jump is retargeted. */
  lemma PlainPrologue(t: Tables, b: seq<u8>, entries: map<nat, u16>, retargeted: bool, at: nat, target: Target)
    requires Good(t, b, entries)
    ensures var t1 := t.(prologSize := PROLOGUE_SIZE);
      var t2 := if retargeted then t1.(jumps := Retarget(t1.jumps, at, target)) else t1;
      forall k: nat :: |b| <= k ==> Plain(t2, k)
  {
    hide Disjoint, Plain, Retarget, LocationsWithin, HasPrologue;
    var t1 := t.(prologSize := PROLOGUE_SIZE);
    forall k: nat | |b| <= k { PlainBeyond(t, |b|, k); }
    SameFields(t, t1);
    RetargetKeepsFields(t1, at, target, |b|);
  }

  lemma GoodSize(t: Tables, b: seq<u8>, entries: map<nat, u16>)
    requires Good(t, b, entries) && |b| + 2 * PROLOGUE_SIZE < 0x8000_0000
    ensures Good(t.(prologSize := PROLOGUE_SIZE), b, entries)
  {
    hide Disjoint, Plain;
    var t' := t.(prologSize := PROLOGUE_SIZE);
    SameFields(t, t');
    forall j | j in entries
      ensures HasPrologue(t', b, j, entries[j])
    {
      assert HasPrologue(t, b, j, entries[j]);
    }
  }

  lemma GoodSpecials(t: Tables, b: seq<u8>, entries: map<nat, u16>, x: nat, r: nat, d: nat, h: nat)
    requires Good(t, b, entries) && x <= |b| && r <= |b| && d <= |b| && h <= |b|
    ensures Good(t.(exitLoc := x, retpolineLoc := r, dispatcherLoc := d, helperLoc := h), b, entries)
  {
    hide Disjoint, Plain, HasPrologue;
    var t' := t.(exitLoc := x, retpolineLoc := r, dispatcherLoc := d, helperLoc := h);
    SameFields(t, t');
    forall j | j in entries
      ensures HasPrologue(t', b, j, entries[j])
    {
      PrologueIndex(t, b, j, entries[j]);
      PrologueKept(t, b, t', b, j, entries[j]);
    }
  }

  // ---------------------------------------------------------------- entries the translator makes

  /** The targets the translator records; its only near jump is the one around a prologue. */
  predicate EntryOk(kind: Kind, e: Entry)
  {
    match kind
    case JumpKind =>
      (match e.target
       case SpecialTarget(s) => s.ToExit? || s.ToRetpoline?
       case Regular(slot, jit, near) => slot <= MAX_INSTS && (near ==> jit == e.at + 4 + PROLOGUE_SIZE))
    case CallKind => e.target.Regular? && e.target.slot <= MAX_INSTS
    case LoadKind => e.target == SpecialTarget(ToDispatcher)
    case LeaKind => e.target == SpecialTarget(ToHelperTable)
  }

  predicate Shaped(t: Tables)
  {
    forall kind: Kind, i :: 0 <= i < |TableOf(t, kind)| ==> EntryOk(kind, TableOf(t, kind)[i])
  }

  lemma ShapedAppend(t: Tables, kind: Kind, e: Entry)
    requires Shaped(t) && EntryOk(kind, e)
    ensures Shaped(Append(t, kind, e))
  {
    var t' := Append(t, kind, e);
    hide TableOf, Append, EntryOk;
    forall k: Kind, i | 0 <= i < |TableOf(t', k)|
      ensures EntryOk(k, TableOf(t', k)[i])
    {
      AppendTable(t, kind, e, k);
    }
  }

  lemma ShapedSame(t: Tables, t': Tables)
    requires Shaped(t) && t'.jumps == t.jumps && t'.calls == t.calls && t'.loads == t.loads && t'.leas == t.leas
    ensures Shaped(t')
  {
    assert forall k: Kind :: TableOf(t', k) == TableOf(t, k);
    hide TableOf, EntryOk;
  }

  /** Everything the translator records can be resolved; in particular the near jumps fit in eight bits. */
  lemma ShapedResolvable(t: Tables)
    requires Shaped(t) && |t.pcLocs| == MAX_INSTS + 1
    ensures Resolvable(t)
  {
    hide TableOf;
    forall kind: Kind, i | 0 <= i < |TableOf(t, kind)|
      ensures FixOf(t, kind, TableOf(t, kind)[i]).Some?
    {
      assert EntryOk(kind, TableOf(t, kind)[i]);
    }
  }

  // ---------------------------------------------------------------- after resolution

  /** Every field decodes to its recorded target and every function's prologue stands before its location. */
  ghost predicate Linked(t: Tables, b: seq<u8>, entries: map<nat, u16>)
  {
    && (forall kind: Kind, i :: 0 <= i < |TableOf(t, kind)| ==>
          TableOf(t, kind)[i].at + 4 <= |b| && Reaches(t, b, kind, TableOf(t, kind)[i]))
    && (forall i :: i in entries ==> HasPrologue(t, b, i, entries[i]))
  }

  lemma GoodResolves(t: Tables, b: seq<u8>, size: nat, entries: map<nat, u16>)
    requires size <= |b| && |b| + PROLOGUE_SIZE < 0x8000_0000 && Good(t, b[..size], entries) && Shaped(t)
    ensures Resolvable(t) && AllFit(AllFixes(t), |b|) && Linked(t, PatchAll(b, AllFixes(t)), entries)
  {
    hide Disjoint, Plain, HasPrologue, AllFixes, PatchAll, Resolvable, Shaped, TableOf, Reaches, AllFit;
    ShapedResolvable(t);
    GoodBytes(t, b[..size], b[size..], entries);
    assert b[..size] + b[size..] == b;
    ResolvedReaches(t, b);
    forall i | i in entries
      ensures HasPrologue(t, PatchAll(b, AllFixes(t)), i, entries[i])
    {
      ResolvedPrologue(t, b, i, entries[i]);
    }
  }

  /** Patching table by table is patching with all fixes in order. */
  lemma PatchInOrder(b: seq<u8>, t: Tables)
    requires Resolvable(t)
    requires forall kind: Kind :: AllFit(TableFixes(t, kind), |b|)
    ensures AllFit(AllFixes(t), |b|)
    ensures var b1 := PatchAll(b, TableFixes(t, JumpKind)); var b2 := PatchAll(b1, TableFixes(t, CallKind));
      var b3 := PatchAll(b2, TableFixes(t, LoadKind));
      PatchAll(b, AllFixes(t)) == PatchAll(b3, TableFixes(t, LeaKind))
  {
    hide TableResolvable, TableFixes, PatchAll, AllFit;
    var j, c, l, e := TableFixes(t, JumpKind), TableFixes(t, CallKind), TableFixes(t, LoadKind), TableFixes(t, LeaKind);
    PatchAllAppend(b, j, c);
    PatchAllAppend(b, j + c, l);
    PatchAllAppend(b, j + c + l, e);
  }

  lemma NoFixes(t: Tables, kind: Kind, b: seq<u8>)
    ensures AllFit(Fixes(t, kind, 0), |b|) && PatchInside(b, Fixes(t, kind, 0)) == b
  {
  }

  /** One more entry of a table: one more fix at the end. */
  lemma NextFix(t: Tables, kind: Kind, i: nat, b: seq<u8>)
    requires i < |TableOf(t, kind)|
    requires forall k :: 0 <= k <= i ==> FixOf(t, kind, TableOf(t, kind)[k]).Some?
    ensures var f := FixOf(t, kind, TableOf(t, kind)[i]).value;
      && (AllFit(Fixes(t, kind, i + 1), |b|) <==> AllFit(Fixes(t, kind, i), |b|) && Fits(f, |b|))
      && (PatchInside(b, Fixes(t, kind, i + 1)) ==
          if Fits(f, |b|) then Patched(PatchInside(b, Fixes(t, kind, i)), f) else PatchInside(b, Fixes(t, kind, i)))
  {
    hide FixOf, TableOf, Patched;
    var fs := Fixes(t, kind, i + 1);
    assert fs[..i] == Fixes(t, kind, i) && fs[i] == FixOf(t, kind, TableOf(t, kind)[i]).value;
    if AllFit(fs, |b|) {
      assert forall k :: 0 <= k < i ==> fs[..i][k] == fs[k];
    }
  }

  lemma AllFitsTables(t: Tables, size: nat)
    requires Resolvable(t)
    ensures AllFit(AllFixes(t), size) <==> forall kind: Kind :: AllFit(TableFixes(t, kind), size)
  {
    hide TableFixes;
    var j, c, l, e := TableFixes(t, JumpKind), TableFixes(t, CallKind), TableFixes(t, LoadKind), TableFixes(t, LeaKind);
    FitBoth(j, c, size);
    FitBoth(j + c, l, size);
    FitBoth(j + c + l, e, size);
    hide AllFit;
    if AllFit(AllFixes(t), size) {
      forall kind: Kind ensures AllFit(TableFixes(t, kind), size) {
        match kind case JumpKind => case CallKind => case LoadKind => case LeaKind =>
      }
    }
  }

  lemma FitBoth(f: seq<Fix>, g: seq<Fix>, size: nat)
    ensures AllFit(f + g, size) <==> AllFit(f, size) && AllFit(g, size)
  {
    if AllFit(f + g, size) {
      assert forall i :: 0 <= i < |f| ==> (f + g)[i] == f[i];
      assert forall i :: 0 <= i < |g| ==> (f + g)[|f| + i] == g[i];
    }
  }

  lemma ResolvedPrologue(t: Tables, b: seq<u8>, i: nat, usage: u16)
    requires Resolvable(t) && Disjoint(t, |b|) && HasPrologue(t, b, i, usage)
    ensures AllFit(AllFixes(t), |b|) && HasPrologue(t, PatchAll(b, AllFixes(t)), i, usage)
  {
    hide Disjoint, Plain, AllFixes, PatchAll, Resolvable, Prologue, AllFit;
    AllFixesApart(t, |b|);
    var c, p := PatchAll(b, AllFixes(t)), t.pcLocs[i];
    forall k: nat | p - PROLOGUE_SIZE <= k < p
      ensures c[k] == b[k]
    {
      ResolvedKeepsPlain(t, b, k);
    }
    assert c[p - PROLOGUE_SIZE..p] == b[p - PROLOGUE_SIZE..p];
  }

  /**
    Entry layout: a resolved local call to a function entry lands on that function's prologue, while a
    resolved jump to the same slot lands on the instruction behind it.
    */
  lemma CallsLandOnPrologue(t: Tables, b: seq<u8>, entries: map<nat, u16>, i: nat)
    requires Linked(t, b, entries) && i < |t.calls| && t.calls[i].target.Regular? && t.calls[i].target.slot in entries
    ensures t.calls[i].at + 4 <= |b|
    ensures var slot, loc := t.calls[i].target.slot, Lands(b, t.calls[i].at);
      && slot < |t.pcLocs| && 0 <= loc && loc + PROLOGUE_SIZE == t.pcLocs[slot] <= |b|
      && b[loc..loc + PROLOGUE_SIZE] == Prologue(entries[slot])
  {
    hide Prologue, Plain, Lands;
    var e := t.calls[i];
    assert TableOf(t, CallKind)[i] == e;
    assert HasPrologue(t, b, e.target.slot, entries[e.target.slot]);
    assert Reaches(t, b, CallKind, e);
  }

  /** The bypass jump of an entry is a near jump that lands on its location. */
  lemma BypassLandsPast(t: Tables, b: seq<u8>, entries: map<nat, u16>, i: nat, slot: nat)
    requires Linked(t, b, entries) && i < |t.jumps| && slot < |t.pcLocs| && t.pcLocs[slot] != 0
    requires t.jumps[i].target == Regular(0, t.pcLocs[slot], true) || t.jumps[i].target == Regular(slot, 0, false)
    ensures t.jumps[i].at + 4 <= |b|
    ensures t.pcLocs[slot] == if t.jumps[i].target.near then LandsNear(b, t.jumps[i].at) else Lands(b, t.jumps[i].at)
  {
    hide Prologue, Plain, Lands, LandsNear;
    assert TableOf(t, JumpKind)[i] == t.jumps[i];
    assert Reaches(t, b, JumpKind, t.jumps[i]);
  }
}
