/** Registration of safe-profile regions and helpers: the table is a finite map from ids to regions. */
module SafeRegistry {
  import opened Words
  import opened Isa
  import opened Machine
  import opened Safe
  import opened SafeInvariant

  const MAX_SAFE_REGIONS: nat := 64

  /** A region as the caller describes it. */
  datatype Request = Request(id: u32, base: u64, size: u64, kind: u32, permissions: u32)

  /** A helper as the caller describes it. */
  datatype Descriptor = Descriptor(index: u32, present: bool, kind: u32, id: u32, size: u64)

  /**
    The checks on a request: a known kind, no reserved id, not empty, not at address 0, no unknown permission bit, not
    wrapping around.
    */
  predicate Admissible(q: Request)
  {
    && q.kind in {0, 1} && q.id !in {INPUT_ID, STACK_ID} && q.size != 0 && q.base != 0 && q.permissions < 8
    && q.base + q.size < 0x1_0000_0000_0000_0000
  }

  /** Bit 0 is read, bit 1 write, bit 2 atomic. */
  function PermsOf(bits: u32): Perms { Perms(bits % 2 == 1, bits / 2 % 2 == 1, bits / 4 % 2 == 1) }

  function KindOf(kind: u32): RegionKind { if kind == 0 then PointerRegion else HandleRegion }

  /** A known result kind; pointers and handles come from a nonempty window of an unreserved region. */
  predicate Describable(d: Descriptor)
  {
    && d.index < MAX_EXT_FUNCS && d.present && d.kind <= 2
    && (d.kind != 0 ==> d.size != 0 && d.id !in {INPUT_ID, STACK_ID})
  }

  function MetaOf(d: Descriptor): HelperMeta
  {
    HelperMeta(if d.kind == 0 then ScalarResult else if d.kind == 1 then PointerResult else HandleResult, d.id, d.size)
  }

  function Entry(q: Request): Region
    requires Admissible(q)
  {
    Region(q.id, q.base, q.base + q.size, KindOf(q.kind), PermsOf(q.permissions))
  }

  predicate UniqueIds(regions: seq<Option<Region>>)
  {
    forall i, j :: 0 <= i < j < |regions| && regions[i].Some? && regions[j].Some? ==> regions[i].value.id != regions[j].value.id
  }

  predicate RegionOk(g: Region) { g.id !in {INPUT_ID, STACK_ID} && 0 < g.base < g.end }

  predicate TableOk(regions: seq<Option<Region>>)
  {
    UniqueIds(regions) && forall i :: 0 <= i < |regions| && regions[i].Some? ==> RegionOk(regions[i].value)
  }

  /** What registration guarantees is what the memory-safety results ask for. */
  lemma TableHasNoReservedIds(regions: seq<Option<Region>>)
    requires TableOk(regions)
    ensures NoReservedIds(regions)
  {
  }

  predicate Has(regions: seq<Option<Region>>, i: int, id: u32)
  {
    0 <= i < |regions| && regions[i].Some? && regions[i].value.id == id
  }

  lemma {:induction false} FindNone(regions: seq<Option<Region>>, id: u32)
    requires forall i :: !Has(regions, i, id)
    ensures FindRegion(regions, id).None?
  {
    if regions != [] {
      assert !Has(regions, 0, id);
      forall i
        ensures !Has(regions[1..], i, id)
      {
        assert !Has(regions, i + 1, id);
      }
      FindNone(regions[1..], id);
    }
  }

  /** With unique ids a lookup finds the slot holding the id. */
  lemma {:induction false} FindAt(regions: seq<Option<Region>>, i: nat, id: u32)
    requires UniqueIds(regions) && Has(regions, i, id)
    ensures FindRegion(regions, id) == regions[i]
  {
    if i > 0 {
      assert regions[0].Some? ==> regions[0].value.id != id;
      FindAt(regions[1..], i - 1, id);
    }
  }

  /** A lookup of another id does not see a slot that holds neither before nor after that id. */
  lemma {:induction false} FindOther(regions: seq<Option<Region>>, k: nat, g: Region, id: u32)
    requires k < |regions| && g.id != id && (regions[k].Some? ==> regions[k].value.id != id)
    ensures FindRegion(regions[k := Some(g)], id) == FindRegion(regions, id)
  {
    if k == 0 {
      assert regions[0 := Some(g)][1..] == regions[1..];
    } else {
      FindOther(regions[1..], k - 1, g, id);
      assert regions[k := Some(g)][1..] == regions[1..][k - 1 := Some(g)];
    }
  }

  /** Storing a region in the slot of its id, or in a free slot when there is none. */
  lemma StoredAt(regions: seq<Option<Region>>, k: nat, g: Region)
    requires TableOk(regions) && RegionOk(g) && k < |regions|
    requires Has(regions, k, g.id) || (regions[k].None? && forall i :: !Has(regions, i, g.id))
    ensures TableOk(regions[k := Some(g)])
    ensures FindRegion(regions[k := Some(g)], g.id) == Some(g)
    ensures forall id: u32 :: id != g.id ==> FindRegion(regions[k := Some(g)], id) == FindRegion(regions, id)
  {
    var t := regions[k := Some(g)];
    forall i | 0 <= i < |regions| && i != k && regions[i].Some?
      ensures regions[i].value.id != g.id
    {
      assert !Has(regions, i, g.id) || Has(regions, k, g.id);
    }
    assert UniqueIds(t);
    FindAt(t, k, g.id);
    forall id: u32 | id != g.id
      ensures FindRegion(t, id) == FindRegion(regions, id)
    {
      FindOther(regions, k, g, id);
    }
  }

  class Registry {
    var regions: array<Option<Region>>
    var helpers: array<Option<HelperMeta>>

    ghost predicate Valid()
      reads this, regions, helpers
    {
      regions.Length == MAX_SAFE_REGIONS && helpers.Length == MAX_EXT_FUNCS && TableOk(regions[..])
    }

    constructor ()
      ensures Valid() && fresh(regions) && fresh(helpers)
      ensures forall id: u32 :: FindRegion(regions[..], id).None?
      ensures forall i :: 0 <= i < MAX_EXT_FUNCS ==> helpers[i].None?
    {
      regions := new Option<Region>[MAX_SAFE_REGIONS](_ => None);
      helpers := new Option<HelperMeta>[MAX_EXT_FUNCS](_ => None);
      new;
      forall id: u32
        ensures FindRegion(regions[..], id).None?
      {
        FindNone(regions[..], id);
      }
    }

    /** There is a slot for the id: its own, or a free one. */
    ghost predicate HasRoom(id: u32)
      reads this, regions
    {
      exists i :: 0 <= i < regions.Length && (regions[i].None? || regions[i].value.id == id)
    }

    /**
      `ubpf_register_safe_region`: it succeeds exactly on an admissible request with room, and then the table
      maps the id to the new region and every other id to what it was.
      */
    method RegisterRegion(q: Request) returns (ok: bool)
      requires Valid()
      modifies regions
      ensures Valid() && ok == (Admissible(q) && old(HasRoom(q.id)))
      ensures ok ==> FindRegion(regions[..], q.id) == Some(Entry(q))
      ensures forall id: u32 :: !ok || id != q.id ==> FindRegion(regions[..], id) == old(FindRegion(regions[..], id))
    {
      hide FindRegion;
      if q.kind != 0 && q.kind != 1 {
        return false;
      }
      if q.id == INPUT_ID || q.id == STACK_ID {
        return false;
      }
      if q.size == 0 || q.base == 0 {
        return false;
      }
      if q.permissions / 8 != 0 {
        return false;
      }
      var end := ToU64(q.base + q.size);
      if end < q.base {
        return false;
      }
      var slot := FindSlot(q.id);
      if slot < 0 {
        return false;
      }
      ghost var was := regions[..];
      StoredAt(was, slot, Entry(q));
      regions[slot] := Some(Region(q.id, q.base, end, KindOf(q.kind), PermsOf(q.permissions)));
      assert regions[..] == was[slot := Some(Entry(q))];
      ok := true;
    }

    /** The loop over the slots: the one with the id if there is one, else the first free one, else none. */
    method FindSlot(id: u32) returns (slot: int)
      requires Valid()
      ensures slot < 0 <==> !HasRoom(id)
      ensures slot >= 0 ==>
                slot < regions.Length
                && (Has(regions[..], slot, id) || (regions[slot].None? && forall i :: !Has(regions[..], i, id)))
    {
      slot := -1;
      var i := 0;
      while i < regions.Length
        invariant 0 <= i <= regions.Length && -1 <= slot < i
        invariant forall k :: 0 <= k < i ==> !Has(regions[..], k, id)
        invariant slot >= 0 ==> regions[slot].None?
        invariant slot < 0 ==> forall k :: 0 <= k < i ==> regions[k].Some?
      {
        if regions[i].Some? && regions[i].value.id == id {
          slot := i;
          assert Has(regions[..], slot, id);
          return;
        }
        if regions[i].None? && slot < 0 {
          slot := i;
        }
        i := i + 1;
      }
      assert slot < 0 ==> forall k :: 0 <= k < regions.Length ==> !Has(regions[..], k, id) && regions[..][k].Some?;
    }

    /** `ubpf_register_safe_helper`: pointer and handle results need a nonempty window of an unreserved region. */
    method RegisterHelper(d: Descriptor) returns (ok: bool)
      requires Valid()
      modifies helpers
      ensures Valid() && ok == Describable(d)
      ensures forall i :: 0 <= i < MAX_EXT_FUNCS ==> helpers[i] == if ok && i == d.index then Some(MetaOf(d)) else old(helpers[i])
    {
      if d.index >= MAX_EXT_FUNCS || !d.present {
        return false;
      }
      if d.kind != 0 && d.kind != 1 && d.kind != 2 {
        return false;
      }
      if (d.kind == 1 || d.kind == 2) && d.size == 0 {
        return false;
      }
      if (d.kind == 1 || d.kind == 2) && (d.id == INPUT_ID || d.id == STACK_ID) {
        return false;
      }
      helpers[d.index] := Some(MetaOf(d));
      ok := true;
    }
  }
}
