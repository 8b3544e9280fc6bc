/** Patch tables of the JIT and what resolving them does to the emitted bytes. */
module Relocation {
  import opened Words

  datatype Special = ToExit | ToEnter | ToRetpoline | ToDispatcher | ToHelperTable

  /** A regular target names an eBPF slot unless a code offset, when not 0, overrides it. */
  datatype Target = SpecialTarget(special: Special) | Regular(slot: nat, jit: nat, near: bool)

  /** Where in the code a relative displacement is to be written, and what it should reach. */
  datatype Entry = Entry(at: nat, target: Target)

  /** Everything resolution reads. */
  datatype Tables = Tables(
    jumps: seq<Entry>, calls: seq<Entry>, loads: seq<Entry>, leas: seq<Entry>,
    pcLocs: seq<nat>, exitLoc: nat, retpolineLoc: nat, dispatcherLoc: nat, helperLoc: nat, prologSize: nat)

  /** Bytes to be written at a code offset. */
  datatype Fix = Fix(at: nat, bytes: seq<u8>)

  // ---------------------------------------------------------------- little-endian words

  function Bytes4(v: u32): (b: seq<u8>)
    ensures |b| == 4
  {
    [v % 256, v / 256 % 256, v / 256 / 256 % 256, v / 256 / 256 / 256]
  }

  function Word4(b: seq<u8>): u32
    requires |b| == 4
  {
    var b0: int, b1: int, b2: int, b3: int := b[0], b[1], b[2], b[3];
    b0 + 256 * b1 + 65536 * b2 + 16777216 * b3
  }

  lemma Word4Bytes4(v: u32)
    ensures Word4(Bytes4(v)) == v
  {
    var q1, q2 := v / 256, v / 256 / 256;
    assert v == 256 * q1 + v % 256 && q1 == 256 * q2 + q1 % 256 && q2 == 256 * (q2 / 256) + q2 % 256;
  }

  // ---------------------------------------------------------------- resolving one entry

  function JumpLoc(t: Tables, target: Target): Option<nat>
  {
    match target
    case SpecialTarget(ToExit) => Some(t.exitLoc)
    case SpecialTarget(ToRetpoline) => Some(t.retpolineLoc)
    case SpecialTarget(_) => None
    case Regular(slot, jit, _) =>
      if jit != 0 then Some(jit) else if slot < |t.pcLocs| then Some(t.pcLocs[slot]) else None
  }

  function FarFix(at: nat, loc: int): Fix { Fix(at, Bytes4(ToU32(loc - (at + 4)))) }

  /** Near jumps have a one-byte displacement, which must fit; all others have four. */
  function JumpFix(t: Tables, e: Entry): Option<Fix>
  {
    match JumpLoc(t, e.target)
    case None => None
    case Some(loc) =>
      if e.target.Regular? && e.target.near then
        var rel := loc - (e.at + 1);
        if -128 <= rel < 128 then Some(Fix(e.at, [rel % 256])) else None
      else Some(FarFix(e.at, loc))
  }

  /** Local calls reach the prologue in front of the callee's recorded location. */
  function CallFix(t: Tables, e: Entry): Option<Fix>
  {
    if e.target.Regular? && e.target.slot < |t.pcLocs|
    then Some(FarFix(e.at, t.pcLocs[e.target.slot] - t.prologSize)) else None
  }

  function LoadFix(t: Tables, e: Entry): Option<Fix>
  {
    if e.target == SpecialTarget(ToDispatcher) then Some(FarFix(e.at, t.dispatcherLoc)) else None
  }

  function LeaFix(t: Tables, e: Entry): Option<Fix>
  {
    if e.target == SpecialTarget(ToHelperTable) then Some(FarFix(e.at, t.helperLoc)) else None
  }

  datatype Kind = JumpKind | CallKind | LoadKind | LeaKind

  function TableOf(t: Tables, kind: Kind): seq<Entry>
  {
    match kind case JumpKind => t.jumps case CallKind => t.calls case LoadKind => t.loads case LeaKind => t.leas
  }

  function FixOf(t: Tables, kind: Kind, e: Entry): Option<Fix>
  {
    match kind
    case JumpKind => JumpFix(t, e)
    case CallKind => CallFix(t, e)
    case LoadKind => LoadFix(t, e)
    case LeaKind => LeaFix(t, e)
  }

  /** Every entry of the table has a target that can be reached. */
  predicate TableResolvable(t: Tables, kind: Kind)
  {
    forall i :: 0 <= i < |TableOf(t, kind)| ==> FixOf(t, kind, TableOf(t, kind)[i]).Some?
  }

  predicate Resolvable(t: Tables)
  {
    forall kind: Kind :: TableResolvable(t, kind)
  }

  /** The fixes of a table's first `n` entries, in order. */
  function Fixes(t: Tables, kind: Kind, n: nat): (f: seq<Fix>)
    requires n <= |TableOf(t, kind)|
    requires forall i :: 0 <= i < n ==> FixOf(t, kind, TableOf(t, kind)[i]).Some?
    ensures |f| == n && forall i :: 0 <= i < n ==> f[i] == FixOf(t, kind, TableOf(t, kind)[i]).value
  {
    if n == 0 then [] else Fixes(t, kind, n - 1) + [FixOf(t, kind, TableOf(t, kind)[n - 1]).value]
  }

  function TableFixes(t: Tables, kind: Kind): seq<Fix>
    requires TableResolvable(t, kind)
  {
    Fixes(t, kind, |TableOf(t, kind)|)
  }

  function AllFixes(t: Tables): seq<Fix>
    requires Resolvable(t)
  {
    TableFixes(t, JumpKind) + TableFixes(t, CallKind) + TableFixes(t, LoadKind) + TableFixes(t, LeaKind)
  }

  // ---------------------------------------------------------------- patching bytes

  predicate Fits(f: Fix, size: nat) { f.at + |f.bytes| <= size }

  function Patched(b: seq<u8>, f: Fix): (r: seq<u8>)
    requires Fits(f, |b|)
    ensures |r| == |b|
  {
    b[..f.at] + f.bytes + b[f.at + |f.bytes|..]
  }

  predicate AllFit(fixes: seq<Fix>, size: nat) { forall i :: 0 <= i < |fixes| ==> Fits(fixes[i], size) }

  /** All fixes, the first one first. */
  function PatchAll(b: seq<u8>, fixes: seq<Fix>): (r: seq<u8>)
    requires AllFit(fixes, |b|)
    ensures |r| == |b|
  {
    if fixes == [] then b
    else
      var n := |fixes| - 1;
      assert fixes[n] in fixes;
      Patched(PatchAll(b, fixes[..n]), fixes[n])
  }

  /** The fixes that fit; one that does not would be written past the end. */
  function PatchInside(b: seq<u8>, fixes: seq<Fix>): (r: seq<u8>)
    ensures |r| == |b|
  {
    if fixes == [] then b
    else
      var n := |fixes| - 1;
      var r := PatchInside(b, fixes[..n]);
      if Fits(fixes[n], |b|) then Patched(r, fixes[n]) else r
  }

  lemma {:induction false} InsideAll(b: seq<u8>, fixes: seq<Fix>)
    requires AllFit(fixes, |b|)
    ensures PatchInside(b, fixes) == PatchAll(b, fixes)
    decreases |fixes|
  {
    if fixes != [] {
      assert fixes[|fixes| - 1] in fixes;
      InsideAll(b, fixes[..|fixes| - 1]);
    }
  }

  predicate Apart(f: Fix, g: Fix) { f.at + |f.bytes| <= g.at || g.at + |g.bytes| <= f.at }

  predicate PairwiseApart(fixes: seq<Fix>) { forall i, j :: 0 <= i < j < |fixes| ==> Apart(fixes[i], fixes[j]) }

  predicate Touches(f: Fix, k: nat) { f.at <= k < f.at + |f.bytes| }

  function Slice(b: seq<u8>, f: Fix): seq<u8>
    requires Fits(f, |b|)
  {
    b[f.at..f.at + |f.bytes|]
  }

  lemma PatchedSlices(b: seq<u8>, f: Fix, g: Fix)
    requires Fits(f, |b|) && Fits(g, |b|)
    ensures Slice(Patched(b, f), f) == f.bytes
    ensures Apart(f, g) ==> Slice(Patched(b, f), g) == Slice(b, g)
    ensures forall k :: 0 <= k < |b| && !Touches(f, k) ==> Patched(b, f)[k] == b[k]
  {
  }

  /** With disjoint fields no later patch disturbs an earlier one: each field ends up holding its own bytes. */
  lemma {:induction false} PatchAllHolds(b: seq<u8>, fixes: seq<Fix>, i: nat)
    requires AllFit(fixes, |b|) && PairwiseApart(fixes) && i < |fixes|
    ensures Slice(PatchAll(b, fixes), fixes[i]) == fixes[i].bytes
    decreases |fixes|
  {
    hide Slice, Patched, Apart;
    var n := |fixes| - 1;
    var rest := fixes[..n];
    PatchedSlices(PatchAll(b, rest), fixes[n], fixes[i]);
    if i < n {
      PatchAllHolds(b, rest, i);
      assert rest[i] == fixes[i];
      ApartFlips(fixes[i], fixes[n]);
    }
  }

  lemma ApartFlips(f: Fix, g: Fix)
    ensures Apart(f, g) == Apart(g, f)
  {
  }

  /** Bytes outside all fields are left alone. */
  lemma {:induction false} PatchAllFrame(b: seq<u8>, fixes: seq<Fix>, k: nat)
    requires AllFit(fixes, |b|) && k < |b| && forall i :: 0 <= i < |fixes| ==> !Touches(fixes[i], k)
    ensures PatchAll(b, fixes)[k] == b[k]
    decreases |fixes|
  {
    if fixes != [] {
      var n := |fixes| - 1;
      assert !Touches(fixes[n], k);
      PatchAllFrame(b, fixes[..n], k);
      PatchedSlices(PatchAll(b, fixes[..n]), fixes[n], fixes[n]);
    }
  }

  lemma {:induction false} PatchAllAppend(b: seq<u8>, f: seq<Fix>, g: seq<Fix>)
    requires AllFit(f, |b|) && AllFit(g, |b|)
    ensures AllFit(f + g, |b|) && PatchAll(b, f + g) == PatchAll(PatchAll(b, f), g)
    decreases |g|
  {
    if g == [] {
      assert f + g == f;
    } else {
      var n := |g| - 1;
      assert (f + g)[..|f| + n] == f + g[..n];
      PatchAllAppend(b, f, g[..n]);
    }
  }

  // ---------------------------------------------------------------- what a patched field decodes to

  /** The offset a 32-bit displacement at `at` reaches, counted from the end of the field. */
  function Lands(b: seq<u8>, at: nat): int
    requires at + 4 <= |b|
  {
    at + 4 + Signed32(Word4(b[at..at + 4]))
  }

  /** The same for a one-byte displacement. */
  function LandsNear(b: seq<u8>, at: nat): int
    requires at < |b|
  {
    at + 1 + Signed8(b[at])
  }

  /** A 32-bit displacement reaches any offset within two gigabytes. */
  lemma FarLands(b: seq<u8>, at: nat, loc: int)
    requires at + 4 <= |b| && Slice(b, FarFix(at, loc)) == FarFix(at, loc).bytes
    requires -0x8000_0000 <= loc - (at + 4) < 0x8000_0000
    ensures Lands(b, at) == loc
  {
    Word4Bytes4(ToU32(loc - (at + 4)));
    hide Word4, Bytes4;
  }

  lemma NearLands(b: seq<u8>, at: nat, rel: int)
    requires at < |b| && -128 <= rel < 128 && Slice(b, Fix(at, [rel % 256])) == [rel % 256]
    ensures LandsNear(b, at) == at + 1 + rel
  {
    assert b[at..at + 1][0] == b[at];
  }

  // ---------------------------------------------------------------- disjoint fields

  /** Entries of one table, each at least four bytes after the one before. */
  predicate Spaced(es: seq<Entry>) { forall i, j :: 0 <= i < j < |es| ==> es[i].at + 4 <= es[j].at }

  predicate ApartTables(es: seq<Entry>, fs: seq<Entry>)
  {
    forall i, j :: 0 <= i < |es| && 0 <= j < |fs| ==> es[i].at + 4 <= fs[j].at || fs[j].at + 4 <= es[i].at
  }

  predicate Within(es: seq<Entry>, size: nat) { forall i :: 0 <= i < |es| ==> es[i].at + 4 <= size }

  predicate Before(k: Kind, l: Kind)
  {
    match (k, l)
    case (JumpKind, _) => !l.JumpKind?
    case (CallKind, _) => l.LoadKind? || l.LeaKind?
    case (LoadKind, _) => l.LeaKind?
    case _ => false
  }

  /** All patch fields lie inside the code and are pairwise disjoint, within and across the four tables. */
  predicate Disjoint(t: Tables, size: nat)
  {
    && (forall k: Kind :: Spaced(TableOf(t, k)) && Within(TableOf(t, k), size))
    && (forall k: Kind, l: Kind :: Before(k, l) ==> ApartTables(TableOf(t, k), TableOf(t, l)))
  }

  lemma FixShape(t: Tables, kind: Kind, e: Entry)
    ensures var f := FixOf(t, kind, e); f.Some? ==> f.value.at == e.at && 1 <= |f.value.bytes| <= 4
  {
  }

  lemma FixesShape(t: Tables, kind: Kind)
    requires TableResolvable(t, kind)
    ensures var f, es := TableFixes(t, kind), TableOf(t, kind);
      |f| == |es| && forall i :: 0 <= i < |f| ==> f[i].at == es[i].at && 1 <= |f[i].bytes| <= 4
  {
    hide FixOf;
    var es := TableOf(t, kind);
    forall i | 0 <= i < |es| {
      FixShape(t, kind, es[i]);
    }
  }

  lemma FixesApart(t: Tables, kind: Kind, size: nat)
    requires TableResolvable(t, kind) && Spaced(TableOf(t, kind)) && Within(TableOf(t, kind), size)
    ensures var f := TableFixes(t, kind); AllFit(f, size) && PairwiseApart(f)
  {
    hide TableFixes, FixOf, TableOf;
    FixesShape(t, kind);
  }

  predicate ApartFixes(f: seq<Fix>, g: seq<Fix>) { forall i, j :: 0 <= i < |f| && 0 <= j < |g| ==> Apart(f[i], g[j]) }

  lemma FixesApartAcross(t: Tables, k: Kind, l: Kind)
    requires TableResolvable(t, k) && TableResolvable(t, l) && ApartTables(TableOf(t, k), TableOf(t, l))
    ensures ApartFixes(TableFixes(t, k), TableFixes(t, l))
  {
    hide TableFixes, FixOf, TableOf;
    FixesShape(t, k);
    FixesShape(t, l);
  }

  lemma JoinApart(f: seq<Fix>, g: seq<Fix>, size: nat)
    requires AllFit(f, size) && AllFit(g, size) && PairwiseApart(f) && PairwiseApart(g) && ApartFixes(f, g)
    ensures AllFit(f + g, size) && PairwiseApart(f + g)
  {
    hide Apart, Fits;
  }

  lemma JoinApartFrom(f: seq<Fix>, g: seq<Fix>, h: seq<Fix>)
    requires ApartFixes(f, h) && ApartFixes(g, h)
    ensures ApartFixes(f + g, h)
  {
    hide Apart;
  }

  /** Every fix of a resolvable set of disjoint tables has its own bytes. */
  lemma AllFixesApart(t: Tables, size: nat)
    requires Resolvable(t) && Disjoint(t, size)
    ensures AllFit(AllFixes(t), size) && PairwiseApart(AllFixes(t))
  {
    hide TableFixes, FixOf, TableOf, ApartTables, Spaced, Within, AllFit, PairwiseApart, ApartFixes, TableResolvable;
    forall k: Kind { FixesApart(t, k, size); }
    forall k: Kind, l: Kind | Before(k, l) { FixesApartAcross(t, k, l); }
    var j, c, d, e := TableFixes(t, JumpKind), TableFixes(t, CallKind), TableFixes(t, LoadKind), TableFixes(t, LeaKind);
    JoinApart(j, c, size);
    JoinApartFrom(j, c, d);
    JoinApart(j + c, d, size);
    JoinApartFrom(j, c, e);
    JoinApartFrom(j + c, d, e);
    JoinApart(j + c + d, e, size);
  }

  // ---------------------------------------------------------------- resolution as a whole

  /** The offset an entry should reach. */
  function Wanted(t: Tables, kind: Kind, e: Entry): Option<int>
  {
    match kind
    case JumpKind => (match JumpLoc(t, e.target) case None => None case Some(l) => Some(l))
    case CallKind =>
      if e.target.Regular? && e.target.slot < |t.pcLocs| then Some(t.pcLocs[e.target.slot] - t.prologSize) else None
    case LoadKind => if e.target == SpecialTarget(ToDispatcher) then Some(t.dispatcherLoc) else None
    case LeaKind => if e.target == SpecialTarget(ToHelperTable) then Some(t.helperLoc) else None
  }

  predicate IsNear(kind: Kind, e: Entry) { kind.JumpKind? && e.target.Regular? && e.target.near }

  /** The field at `e` decodes to the recorded target. */
  predicate Reaches(t: Tables, b: seq<u8>, kind: Kind, e: Entry)
    requires e.at + 4 <= |b|
  {
    Wanted(t, kind, e) == Some(if IsNear(kind, e) then LandsNear(b, e.at) else Lands(b, e.at))
  }

  /** All locations lie within the code, whose size is below two gigabytes. */
  predicate LocationsWithin(t: Tables, size: nat)
  {
    && size + t.prologSize < 0x8000_0000
    && t.exitLoc <= size && t.retpolineLoc <= size && t.dispatcherLoc <= size && t.helperLoc <= size
    && (forall i :: 0 <= i < |t.pcLocs| ==> t.pcLocs[i] <= size)
    && (forall i :: 0 <= i < |t.jumps| && t.jumps[i].target.Regular? ==> t.jumps[i].target.jit <= size)
  }

  lemma WantedWithin(t: Tables, size: nat, kind: Kind, e: Entry)
    requires LocationsWithin(t, size) && e in TableOf(t, kind) && Wanted(t, kind, e).Some?
    ensures 0 - t.prologSize <= Wanted(t, kind, e).value <= size
  {
  }

  lemma FixReaches(t: Tables, b: seq<u8>, kind: Kind, e: Entry)
    requires LocationsWithin(t, |b|) && e in TableOf(t, kind) && FixOf(t, kind, e).Some? && e.at + 4 <= |b|
    requires Slice(b, FixOf(t, kind, e).value) == FixOf(t, kind, e).value.bytes
    ensures Reaches(t, b, kind, e)
  {
    hide Slice, Lands, LandsNear, LocationsWithin, Bytes4, ToU32;
    var loc := Wanted(t, kind, e).value;
    WantedWithin(t, |b|, kind, e);
    SizeBound(t, |b|);
    if IsNear(kind, e) {
      NearLands(b, e.at, loc - (e.at + 1));
    } else {
      FarLands(b, e.at, loc);
    }
  }

  lemma SizeBound(t: Tables, size: nat)
    requires LocationsWithin(t, size)
    ensures size + t.prologSize < 0x8000_0000
  {
  }

  /** Where a table's fixes begin among all fixes. */
  function FirstFix(t: Tables, kind: Kind): nat
  {
    match kind
    case JumpKind => 0
    case CallKind => |t.jumps|
    case LoadKind => |t.jumps| + |t.calls|
    case LeaKind => |t.jumps| + |t.calls| + |t.loads|
  }

  lemma FixIndex(t: Tables, kind: Kind, i: nat)
    requires Resolvable(t) && i < |TableOf(t, kind)|
    ensures FirstFix(t, kind) + i < |AllFixes(t)|
    ensures i < |TableFixes(t, kind)| && AllFixes(t)[FirstFix(t, kind) + i] == TableFixes(t, kind)[i]
    ensures FixOf(t, kind, TableOf(t, kind)[i]) == Some(TableFixes(t, kind)[i])
  {
    hide FixOf, TableFixes;
    forall k: Kind { FixesOfTable(t, k); }
    var j, c, l, e := TableFixes(t, JumpKind), TableFixes(t, CallKind), TableFixes(t, LoadKind), TableFixes(t, LeaKind);
    assert |j| == |t.jumps| && |c| == |t.calls| && |l| == |t.loads| && |e| == |t.leas|;
    match kind case JumpKind => case CallKind => case LoadKind => case LeaKind =>
  }

  lemma FixesOfTable(t: Tables, kind: Kind)
    requires TableResolvable(t, kind)
    ensures |TableFixes(t, kind)| == |TableOf(t, kind)|
    ensures forall i :: 0 <= i < |TableOf(t, kind)| ==> FixOf(t, kind, TableOf(t, kind)[i]) == Some(TableFixes(t, kind)[i])
  {
    hide FixOf, TableOf;
  }

  /**
    After resolution every jump, local call, load and lea field decodes to its own recorded target, and no
    byte outside the fields has changed.
    */
  lemma ResolvedReaches(t: Tables, b: seq<u8>)
    requires Resolvable(t) && Disjoint(t, |b|) && LocationsWithin(t, |b|)
    ensures AllFit(AllFixes(t), |b|)
    ensures forall kind: Kind, i :: 0 <= i < |TableOf(t, kind)| ==>
              TableOf(t, kind)[i].at + 4 <= |b| && Reaches(t, PatchAll(b, AllFixes(t)), kind, TableOf(t, kind)[i])
  {
    hide AllFixes, FixOf, TableOf, Slice, Reaches, LocationsWithin, Spaced, ApartTables, Resolvable, PatchAll, AllFit, PairwiseApart;
    AllFixesApart(t, |b|);
    forall kind: Kind, i | 0 <= i < |TableOf(t, kind)|
      ensures TableOf(t, kind)[i].at + 4 <= |b| && Reaches(t, PatchAll(b, AllFixes(t)), kind, TableOf(t, kind)[i])
    {
      assert Within(TableOf(t, kind), |b|);
      var e := TableOf(t, kind)[i];
      var k := FirstFix(t, kind) + i;
      FixIndex(t, kind, i);
      FitAt(AllFixes(t), |b|, k);
      PatchAllHolds(b, AllFixes(t), k);
      FixReaches(t, PatchAll(b, AllFixes(t)), kind, e);
    }
  }

  lemma FitAt(fixes: seq<Fix>, size: nat, k: nat)
    requires AllFit(fixes, size) && k < |fixes|
    ensures Fits(fixes[k], size)
  {
  }

  /** A byte of the code that belongs to no patch field. */
  predicate Plain(t: Tables, k: nat)
  {
    forall kind: Kind, i :: 0 <= i < |TableOf(t, kind)| ==> !(TableOf(t, kind)[i].at <= k < TableOf(t, kind)[i].at + 4)
  }

  /** Which entry a fix comes from. */
  lemma FixOwner(t: Tables, i: nat) returns (kind: Kind, n: nat)
    requires Resolvable(t) && i < |AllFixes(t)|
    ensures n < |TableOf(t, kind)| && i == FirstFix(t, kind) + n
  {
    hide FixOf;
    var j, c, l := |t.jumps|, |t.calls|, |t.loads|;
    kind := if i < j then JumpKind else if i < j + c then CallKind else if i < j + c + l then LoadKind else LeaKind;
    n := i - FirstFix(t, kind);
  }

  lemma ResolvedKeepsPlain(t: Tables, b: seq<u8>, k: nat)
    requires Resolvable(t) && Disjoint(t, |b|) && k < |b| && Plain(t, k)
    ensures AllFit(AllFixes(t), |b|) && PatchAll(b, AllFixes(t))[k] == b[k]
  {
    hide FixOf, TableOf, AllFixes, TableFixes, Disjoint, PatchAll, TableResolvable, FirstFix;
    AllFixesApart(t, |b|);
    forall i | 0 <= i < |AllFixes(t)|
      ensures !Touches(AllFixes(t)[i], k)
    {
      var kind, n := FixOwner(t, i);
      FixShape(t, kind, TableOf(t, kind)[n]);
      FixIndex(t, kind, n);
    }
    PatchAllFrame(b, AllFixes(t), k);
  }

  // ---------------------------------------------------------------- retargeting

  /** `modify_patchable_relatives_target`: every entry at `at` gets the new target. */
  function Retarget(es: seq<Entry>, at: nat, target: Target): (r: seq<Entry>)
    ensures |r| == |es|
  {
    if es == [] then []
    else
      var n := |es| - 1;
      Retarget(es[..n], at, target) + [if es[n].at == at then es[n].(target := target) else es[n]]
  }

  lemma {:induction false} RetargetAt(es: seq<Entry>, at: nat, target: Target, i: nat)
    requires i < |es|
    ensures Retarget(es, at, target)[i] == if es[i].at == at then es[i].(target := target) else es[i]
    decreases |es|
  {
    if i < |es| - 1 {
      RetargetAt(es[..|es| - 1], at, target, i);
    }
  }

  /** In a table of disjoint fields, retargeting the field of one entry changes that entry and no other. */
  lemma RetargetChangesOne(es: seq<Entry>, k: nat, target: Target)
    requires Spaced(es) && k < |es|
    ensures Retarget(es, es[k].at, target) == es[k := es[k].(target := target)]
  {
    forall i | 0 <= i < |es|
      ensures Retarget(es, es[k].at, target)[i] == es[k := es[k].(target := target)][i]
    {
      RetargetAt(es, es[k].at, target, i);
      assert i < k ==> es[i].at + 4 <= es[k].at;
      assert k < i ==> es[k].at + 4 <= es[i].at;
    }
  }
}
