// pmm_production.c: the page array, the zones and the buddy allocator over
// them, each operation proved against BuddySpec.
module Pmm {
  import opened Wrappers
  import opened Dyadic
  import opened BuddySpec

  // 16MB / 4KB: where the DMA zone ends and the Normal zone starts.
  const DMA_PAGES: nat := 4096

  // The first 1MB is never handed to the allocator.
  const FIRST_PAGE: nat := 256

  const ZONE_COUNT: nat := 6

  // One entry of the memory map, in pages.
  datatype MapEntry = MapEntry(available: bool, start: nat, end: nat)

  // Page q is available memory of entry e.
  ghost predicate Within(e: MapEntry, q: nat) {
    e.available && e.start <= q < e.end
  }

  class Zone {
    const lo: nat
    const hi: nat
    var freeList: seq<seq<nat>>
    var nrFree: seq<nat>
    var vmFree: nat

    constructor (lo: nat, hi: nat, maxOrder: nat)
      ensures this.lo == lo && this.hi == hi && Empty(maxOrder)
    {
      this.lo, this.hi := lo, hi;
      freeList := seq(maxOrder, _ => []);
      nrFree := seq(maxOrder, _ => 0);
      vmFree := 0;
    }

    ghost predicate Empty(maxOrder: nat)
      reads this
    {
      |freeList| == |nrFree| == maxOrder && vmFree == 0 &&
      forall o :: 0 <= o < maxOrder ==> freeList[o] == [] && nrFree[o] == 0
    }

    // nr_free of every order and of the zone agree with the lists.
    ghost predicate Counted(maxOrder: nat)
      reads this
    {
      |freeList| == |nrFree| == maxOrder && vmFree == FreePages(freeList, 0) &&
      forall o :: 0 <= o < maxOrder ==> nrFree[o] == |freeList[o]|
    }
  }

  lemma {:induction false} EmptyPages(l: Lists, k: nat)
    requires forall o :: 0 <= o < |l| ==> l[o] == []
    ensures FreePages(l, k) == 0
    decreases |l| - k
  {
    if k < |l| { EmptyPages(l, k + 1); }
  }

  lemma EmptyInv(l: Lists, lo: nat, hi: nat)
    requires forall o :: 0 <= o < |l| ==> l[o] == []
    ensures Inv(l, lo, hi) && FreePages(l, 0) == 0
  {
    EmptyPages(l, 0);
  }

  // Both buddies of a merge below order 12 are on the same side of 16MB.
  lemma SameZone(p: nat, o: nat)
    requires o < 12
    ensures p < DMA_PAGES <==> Flip(p, o) < DMA_PAGES
  {
    FlipFacts(p, o);
    ShrUp(p, Flip(p, o), o + 1, 12);
    TwelveBits();
    BlockIsInterval(0, 12, p);
    BlockIsInterval(0, 12, Flip(p, o));
  }

  lemma TwelveBits()
    ensures Pow2(12) == DMA_PAGES && Aligned(0, 12)
  {
    assert Pow2(4) == 16;
    Pow2Add(4, 4);
    Pow2Add(8, 4);
    AlignedZero(12);
  }

  lemma {:induction false} AlignedZero(o: nat)
    ensures Aligned(0, o)
  {
    if o > 0 { AlignedZero(o - 1); }
  }

  class Pages {
    const total: nat
    const maxOrder: nat
    const buddy: array<bool>
    const order: array<nat>
    const dma: Zone
    const dma32: Zone
    const normal: Zone
    var initialized: bool
    ghost var live: seq<(nat, nat)>

    constructor (total: nat, maxOrder: nat)
      requires 1 <= maxOrder <= 13
      ensures Core() && live == [] && !initialized && this.total == total && this.maxOrder == maxOrder
      ensures fresh(dma) && fresh(dma32) && fresh(normal) && fresh(buddy) && fresh(order)
      ensures dma.Empty(maxOrder) && normal.Empty(maxOrder)
    {
      this.total, this.maxOrder := total, maxOrder;
      buddy := new bool[total](_ => false);
      order := new nat[total](_ => 0);
      dma := new Zone(FIRST_PAGE, if total < DMA_PAGES then total else DMA_PAGES, maxOrder);
      dma32 := new Zone(0, 0, maxOrder);
      normal := new Zone(DMA_PAGES, total, maxOrder);
      initialized, live := false, [];
      new;
      EmptyInv(dma.freeList, dma.lo, dma.hi);
      EmptyInv(normal.freeList, normal.lo, normal.hi);
      hide Inv, FreePages;
    }

    ghost function ZoneOf(p: nat): Zone {
      if p < DMA_PAGES then dma else normal
    }

    ghost predicate Wired() {
      1 <= maxOrder <= 13 && buddy.Length == order.Length == total &&
      dma != normal && dma != dma32 && normal != dma32 &&
      dma.lo == FIRST_PAGE && dma.hi == (if total < DMA_PAGES then total else DMA_PAGES) &&
      normal.lo == DMA_PAGES && normal.hi == total
    }

    // PG_buddy plus the order field say exactly what is on the lists.
    ghost predicate Marked()
      requires Wired()
      reads dma, normal, buddy, order
    {
      (forall o: nat, p: nat :: Has(dma.freeList, o, p) ==> p < total && buddy[p] && order[p] == o) &&
      (forall o: nat, p: nat :: Has(normal.freeList, o, p) ==> p < total && buddy[p] && order[p] == o) &&
      forall p: nat :: p < total && buddy[p] ==> Has(ZoneOf(p).freeList, order[p], p)
    }

    ghost predicate Core()
      reads dma, dma32, normal, buddy, order
    {
      Wired() && dma32.Empty(maxOrder) &&
      dma.Counted(maxOrder) && normal.Counted(maxOrder) &&
      Inv(dma.freeList, dma.lo, dma.hi) && Inv(normal.freeList, normal.lo, normal.hi) && Marked()
    }

    // A block of order o at p that z may take back.
    ghost predicate Returnable(z: Zone, p: nat, o: nat)
      reads z
    {
      (z == dma || z == normal) && o < maxOrder && Apart(z.freeList, p, o) && InZone(p, o, z.lo, z.hi)
    }

    // list_del of block (p, o), with its flag and the counters.
    method Unlink(z: Zone, o: nat, p: nat)
      requires Core() && (z == dma || z == normal) && Has(z.freeList, o, p)
      modifies z, buddy
      ensures Core() && z.freeList == Take(old(z.freeList), o, p)
    {
      TakePages(z.freeList, o, p);
      TakeHas(z.freeList, o, p);
      TakeInv(z.freeList, o, p, z.lo, z.hi);
      WithoutNoDup(z.freeList[o], p);
      assert z == ZoneOf(p);
      hide Inv, InZone, Apart, FreePages, Flip, NoDup, Pow2;
      z.freeList := Take(z.freeList, o, p);
      z.nrFree := z.nrFree[o := z.nrFree[o] - 1];
      z.vmFree := z.vmFree - PowerOf2(o);
      buddy[p] := false;
    }

    // A page of zone z and an order, whatever is free.
    ghost predicate Placed(z: Zone, p: nat, o: nat) {
      Wired() && p < total && z == ZoneOf(p) && o < maxOrder
    }

    // list_add of block (p, o), with its flag, order and the counters.
    method Push(z: Zone, o: nat, p: nat)
      requires Core() && Placed(z, p, o)
      modifies z, buddy, order
      ensures z.freeList == Put(old(z.freeList), o, p) && (Core() <==> Inv(z.freeList, z.lo, z.hi))
    {
      ghost var l := z.freeList;
      PutPages(l, o, p);
      PutHas(l, o, p);
      if Inv(Put(l, o, p), z.lo, z.hi) { PutAlone(l, o, p, z.lo, z.hi); }
      hide Inv, InZone, Apart, FreePages, Flip, NoDup, Pow2;
      order[p] := o;
      buddy[p] := true;
      z.freeList := Put(z.freeList, o, p);
      z.nrFree := z.nrFree[o := z.nrFree[o] + 1];
      z.vmFree := z.vmFree + PowerOf2(o);
    }

    // Splitting a block: the upper half may go on its list, and then the lower
    // half still shares no page with the lists.
    lemma Halves(z: Zone, page: nat, low: nat, o: nat)
      requires Core() && Returnable(z, page, o + 1) && low <= o
      ensures |z.freeList| == maxOrder && Pow2(o + 1) == 2 * Pow2(o) && page + Pow2(o) == Flip(page, o)
      ensures Returnable(z, Flip(page, o), o) && !Has(z.freeList, o, Flip(Flip(page, o), o))
      ensures Apart(Put(z.freeList, o, Flip(page, o)), page, o) && InZone(page, o, z.lo, z.hi)
      ensures Split(z.freeList, page, low, o + 1) == Split(Put(z.freeList, o, Flip(page, o)), page, low, o)
      ensures Placed(z, Flip(page, o), o) && Inv(Put(z.freeList, o, Flip(page, o)), z.lo, z.hi)
    {
      HalfApart(z.freeList, page, o, z.lo, z.hi);
      HalfFree(z.freeList, page, o, z.lo, z.hi);
      UpperHalf(page, o);
    }

    // One turn of the loop of pmm_expand.
    method ExpandOnce(z: Zone, page: nat, low: nat, o: nat, size: nat)
      requires Core() && Returnable(z, page, o + 1) && low <= o && size == Pow2(o)
      modifies z, buddy, order
      ensures Core() && Returnable(z, page, o) && |z.freeList| == maxOrder
      ensures Split(z.freeList, page, low, o) == Split(old(z.freeList), page, low, o + 1)
    {
      Halves(z, page, low, o);
      Push(z, o, page + size);
    }

    // pmm_expand, splitting the block it is given.
    method Expand(z: Zone, page: nat, low: nat, high: nat)
      requires Core() && Returnable(z, page, high) && low <= high
      modifies z, buddy, order
      ensures Core() && z.freeList == Split(old(z.freeList), page, low, high) && Returnable(z, page, low)
    {
      var o, size := high, PowerOf2(high);
      while o > low
        invariant low <= o <= high && size == Pow2(o) && Core() && Returnable(z, page, o)
        invariant Split(z.freeList, page, low, o) == Split(old(z.freeList), page, low, high)
      {
        o := o - 1;
        size := size / 2;
        ExpandOnce(z, page, low, o, size);
      }
    }

    // __pmm_alloc_pages
    method AllocFrom(z: Zone, k: nat) returns (page: Option<nat>)
      requires Core() && z in {dma, dma32, normal}
      modifies z, buddy, order
      ensures Core()
      ensures page == match Alloc(old(z.freeList), k) case None => None case Some(r) => Some(r.0)
      ensures z.freeList == match Alloc(old(z.freeList), k) case None => old(z.freeList) case Some(r) => r.1
      ensures page.Some? ==> Returnable(z, page.value, k)
    {
      var o := k;
      while o < maxOrder
        invariant k <= o && (o > maxOrder ==> o == k)
        invariant LeastOrder(z.freeList, k) == LeastOrder(z.freeList, o)
      {
        if z.freeList[o] != [] {
          var p := z.freeList[o][0];
          assert Has(z.freeList, o, p);
          PopIsTake(z.freeList, o);
          TakeInv(z.freeList, o, p, z.lo, z.hi);
          Unlink(z, o, p);
          if o != k {
            Expand(z, p, k, o);
          }
          return Some(p);
        }
        o := o + 1;
      }
      return None;
    }

    // One turn of the loop of __pmm_free_pages: merge, or find no free buddy.
    method FreeOnce(z: Zone, idx: nat, o: nat) returns (merged: bool, combined: nat)
      requires Core() && Placed(z, idx, o) && o + 1 < maxOrder
      modifies z, buddy
      ensures Core() && Placed(z, combined, if merged then o + 1 else o) && |z.freeList| == maxOrder
      ensures Free(z.freeList, combined, if merged then o + 1 else o) == Free(old(z.freeList), idx, o)
      ensures !merged ==> combined == idx && !Has(z.freeList, o, Flip(idx, o))
    {
      var b := Xor(idx, PowerOf2(o));
      XorFlips(idx, o);
      BuddyFlagged(z, idx, o);
      FreeStep(z.freeList, idx, o);
      if b >= total || !buddy[b] || order[b] != o {
        return false, idx;
      }
      AndLowers(idx, o);
      LowPlaced(z, idx, o);
      Unlink(z, o, b);
      return true, And(b, idx);
    }

    // The lower of two buddies lies in the zone of both.
    lemma LowPlaced(z: Zone, p: nat, o: nat)
      requires Placed(z, p, o) && o + 1 < maxOrder
      ensures Placed(z, Low(p, o), o + 1)
    {
      LowFacts(p, o);
      SameZone(p, o);
    }

    // __pmm_free_pages, on any page and order of the zone. It keeps the allocator
    // sound exactly when the block is one the zone may take back.
    method FreeInto(z: Zone, page: nat, start: nat)
      requires Core() && Placed(z, page, start)
      modifies z, buddy, order
      ensures z.freeList == Free(old(z.freeList), page, start)
      ensures Core() <==> old(Returnable(z, page, start))
    {
      hide Core, Inv, Returnable, Placed, Free, Flip;
      var idx, o, merged := page, start, true;
      SoundFree(z, page, start);
      while o < maxOrder - 1 && merged
        invariant Core() && Placed(z, idx, o) && o < |z.freeList| == maxOrder
        invariant Free(z.freeList, idx, o) == Free(old(z.freeList), page, start)
        invariant !merged ==> !Has(z.freeList, o, Flip(idx, o))
        decreases maxOrder - o, merged
      {
        merged, idx := FreeOnce(z, idx, o);
        if merged {
          o := o + 1;
        }
      }
      FreeStep(z.freeList, idx, o);
      Push(z, o, idx);
    }

    lemma SoundFree(z: Zone, page: nat, start: nat)
      requires Core() && Placed(z, page, start)
      ensures |z.freeList| == maxOrder && start < maxOrder
      ensures Inv(Free(z.freeList, page, start), z.lo, z.hi) <==> Returnable(z, page, start)
    {
      FreeSound(z.freeList, page, start, z.lo, z.hi);
    }

    // The flag and order of the buddy tell whether it is on the list of z.
    lemma BuddyFlagged(z: Zone, p: nat, o: nat)
      requires Core() && Placed(z, p, o)
      ensures var b := Flip(p, o); o + 1 < maxOrder ==> (Has(z.freeList, o, b) <==> b < total && buddy[b] && order[b] == o)
    {
      if o + 1 < maxOrder {
        SameZone(p, o);
        assert ZoneOf(Flip(p, o)) == z;
      }
    }

    // ---- the whole allocator

    ghost predicate FreePage(q: nat)
      reads dma, normal
    {
      Covered(dma.freeList, q) || Covered(normal.freeList, q)
    }

    // Blocks handed out share no page with a free block or with each other.
    ghost predicate Held()
      reads this`live, dma, normal
    {
      (forall i :: 0 <= i < |live| ==> Returnable(ZoneOf(live[i].0), live[i].0, live[i].1)) &&
      forall i, j :: 0 <= i < j < |live| ==> !Clash(live[i].0, live[i].1, live[j].0, live[j].1)
    }

    ghost predicate Valid()
      reads this`live, dma, dma32, normal, buddy, order
    {
      Core() && Held()
    }

    // Every page the allocator owns: the nr_free counters plus what is out.
    ghost function Owned(): nat
      reads this`live, dma, normal
    {
      dma.vmFree + normal.vmFree + LivePages(live)
    }

    // pmm_init_zone_fallback_order; entries never set are zero, the DMA zone.
    function Fallback(preferDma: bool, i: nat): Zone {
      if preferDma then (if i == 1 then normal else dma)
      else if i == 0 then normal
      else if i == 1 then dma32
      else dma
    }

    ghost predicate Runless(z: Zone, k: nat)
      reads z
    {
      forall a: nat :: !Full(z.freeList, a, k)
    }

    lemma EmptyAlloc(k: nat)
      requires Core()
      ensures Alloc(dma32.freeList, k).None?
    {
    }

    lemma NoRun(z: Zone, k: nat)
      requires Core() && (z == dma || z == normal) && k < maxOrder
      ensures Alloc(z.freeList, k).None? <==> Runless(z, k)
    {
      AllocComplete(z.freeList, k, z.lo, z.hi);
    }

    // The search of pmm_alloc_pages over the preferred zone and its fallbacks.
    // strayed: it looked into the DMA32 zone.
    method Search(k: nat, preferDma: bool) returns (page: Option<nat>, zone: Zone, strayed: bool)
      requires Core() && k < maxOrder
      modifies dma, dma32, normal, buddy, order
      ensures Core() && (strayed <==> !preferDma && Alloc(old(normal.freeList), k).None?)
      ensures page.None? <==> Alloc(old(dma.freeList), k).None? && Alloc(old(normal.freeList), k).None?
      ensures page.None? ==> dma.freeList == old(dma.freeList) && normal.freeList == old(normal.freeList)
      ensures page.Some? ==> (zone == dma || zone == normal) && Alloc(old(zone.freeList), k) == Some((page.value, zone.freeList))
      ensures page.Some? ==> Returnable(zone, page.value, k)
      ensures page.Some? ==> (zone == dma || dma.freeList == old(dma.freeList)) && (zone == normal || normal.freeList == old(normal.freeList))
      ensures page.Some? ==> (zone == dma <==> if preferDma then Alloc(old(dma.freeList), k).Some? else Alloc(old(normal.freeList), k).None?)
    {
      zone := if preferDma then dma else normal;
      page := AllocFrom(zone, k);
      strayed := false;
      var i := 1;
      while page.None? && i < ZONE_COUNT
        invariant 1 <= i && Core() && (strayed <==> !preferDma && i > 1)
        invariant preferDma ==> ((i > 1 || page.None?) <==> Alloc(old(dma.freeList), k).None?)
        invariant !preferDma ==> ((i > 1 || page.None?) <==> Alloc(old(normal.freeList), k).None?)
        invariant i == 1 ==> zone == if preferDma then dma else normal
        invariant page.None? ==> dma.freeList == old(dma.freeList) && normal.freeList == old(normal.freeList)
        invariant page.None? && i >= 3 ==> Alloc(old(dma.freeList), k).None? && Alloc(old(normal.freeList), k).None?
        invariant page.None? && i >= 2 && preferDma ==> Alloc(old(normal.freeList), k).None?
        invariant page.Some? ==> (zone == dma || zone == normal) && Alloc(old(zone.freeList), k) == Some((page.value, zone.freeList))
        invariant page.Some? ==> Returnable(zone, page.value, k)
        invariant page.Some? ==> (zone == dma || dma.freeList == old(dma.freeList)) && (zone == normal || normal.freeList == old(normal.freeList))
        invariant page.Some? && i > 1 ==> Alloc(old((if preferDma then dma else normal).freeList), k).None?
        decreases page.None?, ZONE_COUNT - i
      {
        zone := Fallback(preferDma, i);
        strayed := strayed || zone == dma32;
        EmptyAlloc(k);
        page := AllocFrom(zone, k);
        i := i + 1;
      }
    }

    // What the block handed out means for everything handed out before.
    lemma StillHeld(l: Lists, live: seq<(nat, nat)>, zone: Zone, page: nat, k: nat, i: nat)
      requires Core() && Returnable(zone, page, k) && zone == ZoneOf(page) && i < |live|
      requires Inv(l, zone.lo, zone.hi) && Alloc(l, k) == Some((page, zone.freeList))
      requires var (r, o) := live[i]; (ZoneOf(r) != zone ==> Returnable(ZoneOf(r), r, o)) && o < maxOrder && InZone(r, o, ZoneOf(r).lo, ZoneOf(r).hi)
      requires var (r, o) := live[i]; ZoneOf(r) == zone ==> Apart(l, r, o)
      ensures var (r, o) := live[i]; Returnable(ZoneOf(r), r, o) && !Clash(r, o, page, k)
    {
      var (r, o) := live[i];
      if ZoneOf(r) == zone {
        AllocKeeps(l, k, zone.lo, zone.hi);
        FreshBlock(l, zone.freeList, page, k, r, o, zone.lo, zone.hi);
      } else {
        ZonesApart(r, o, page, k);
      }
    }

    // Blocks of different zones share no page.
    lemma ZonesApart(p: nat, o: nat, q: nat, u: nat)
      requires Wired() && ZoneOf(p) != ZoneOf(q)
      requires InZone(p, o, ZoneOf(p).lo, ZoneOf(p).hi) && InZone(q, u, ZoneOf(q).lo, ZoneOf(q).hi)
      ensures !Clash(p, o, q, u)
    {
      if Clash(p, o, q, u) {
        var x := Meet(p, o, q, u);
        BlockIsInterval(p, o, x);
        BlockIsInterval(q, u, x);
      }
    }

    // The head of a block handed out carries its order.
    method Stamp(zone: Zone, page: nat, k: nat)
      requires Core() && Returnable(zone, page, k)
      modifies order
      ensures Core() && page < order.Length && order[page] == k
    {
      forall u: nat ensures !Has(zone.freeList, u, page) {
        assert Clash(page, k, page, u);
      }
      assert page < total && zone == ZoneOf(page) && !buddy[page];
      hide Inv, Apart, InZone, FreePages;
      order[page] := k;
    }

    lemma HandedPages(l: Lists, zone: Zone, page: nat, k: nat)
      requires Core() && Returnable(zone, page, k)
      requires Inv(l, zone.lo, zone.hi) && Alloc(l, k) == Some((page, zone.freeList))
      ensures FreePages(zone.freeList, 0) + Pow2(k) == FreePages(l, 0)
      ensures forall q: nat :: Covered(l, q) <==> Covered(zone.freeList, q) || page <= q < page + Pow2(k)
    {
      AllocKeeps(l, k, zone.lo, zone.hi);
      AllocConserves(l, k, zone.lo, zone.hi);
      forall q: nat ensures Shr(q, k) == Shr(page, k) <==> page <= q < page + Pow2(k) {
        BlockIsInterval(page, k, q);
      }
    }

    // Block (p, o) was held when the lists of zone were l.
    ghost predicate WasHeld(zone: Zone, l: Lists, p: nat, o: nat)
      reads dma, normal
    {
      o < maxOrder && InZone(p, o, ZoneOf(p).lo, ZoneOf(p).hi) && Apart(if ZoneOf(p) == zone then l else ZoneOf(p).freeList, p, o)
    }

    // Record a block just taken from zone, whose lists were l.
    method HandOut(zone: Zone, page: nat, k: nat, ghost l: Lists)
      requires Core() && Returnable(zone, page, k)
      requires Inv(l, zone.lo, zone.hi) && Alloc(l, k) == Some((page, zone.freeList))
      requires forall i :: 0 <= i < |live| ==> WasHeld(zone, l, live[i].0, live[i].1)
      requires forall i, j :: 0 <= i < j < |live| ==> !Clash(live[i].0, live[i].1, live[j].0, live[j].1)
      modifies order, this`live
      ensures Valid() && live == old(live) + [(page, k)] && zone == ZoneOf(page) && page < order.Length && order[page] == k
      ensures FreePages(zone.freeList, 0) + LivePages(live) == FreePages(l, 0) + LivePages(old(live))
      ensures forall q: nat :: Covered(l, q) <==> Covered(zone.freeList, q) || page <= q < page + Pow2(k)
    {
      hide Core, Inv, Apart, InZone, WasHeld, Covered, FreePages, LivePages, Alloc, Clash;
      HandedPages(l, zone, page, k);
      NewlyHeld(page, k, live);
      HeldEach(zone, page, k, l);
      Stamp(zone, page, k);
      live := live + [(page, k)];
    }

    lemma HeldEach(zone: Zone, page: nat, k: nat, l: Lists)
      requires Core() && Returnable(zone, page, k)
      requires Inv(l, zone.lo, zone.hi) && Alloc(l, k) == Some((page, zone.freeList))
      requires forall i :: 0 <= i < |live| ==> WasHeld(zone, l, live[i].0, live[i].1)
      ensures zone == ZoneOf(page)
      ensures forall i :: 0 <= i < |live| ==> Returnable(ZoneOf(live[i].0), live[i].0, live[i].1) && !Clash(live[i].0, live[i].1, page, k)
    {
      hide Inv, Alloc, Clash;
      forall i | 0 <= i < |live| ensures Returnable(ZoneOf(live[i].0), live[i].0, live[i].1) && !Clash(live[i].0, live[i].1, page, k) {
        StillHeld(l, live, zone, page, k, i);
      }
    }

    lemma NewlyHeld(page: nat, k: nat, live: seq<(nat, nat)>)
      ensures LivePages(live + [(page, k)]) == LivePages(live) + Pow2(k)
    {
      assert (live + [(page, k)])[..|live|] == live;
    }

    lemma CoreCounts()
      requires Core()
      ensures Wired() && dma.vmFree == FreePages(dma.freeList, 0) && normal.vmFree == FreePages(normal.freeList, 0)
      ensures Inv(dma.freeList, dma.lo, dma.hi) && Inv(normal.freeList, normal.lo, normal.hi)
    {
    }

    // pmm_alloc_pages past its guard, in terms of the lists.
    method TryAlloc(k: nat, preferDma: bool) returns (page: Option<nat>, strayed: bool)
      requires Valid() && k < maxOrder
      modifies dma, dma32, normal, buddy, order, this`live
      ensures Valid() && Owned() == old(Owned()) && (strayed <==> !preferDma && Alloc(old(normal.freeList), k).None?)
      ensures page.None? <==> Alloc(old(dma.freeList), k).None? && Alloc(old(normal.freeList), k).None?
      ensures page.None? ==> live == old(live) && dma.freeList == old(dma.freeList) && normal.freeList == old(normal.freeList)
      ensures page.Some? ==> live == old(live) + [(page.value, k)] && InZone(page.value, k, FIRST_PAGE, total)
      ensures page.Some? ==> (page.value < 4096 <==> if preferDma then Alloc(old(dma.freeList), k).Some? else Alloc(old(normal.freeList), k).None?)
      ensures page.Some? ==> page.value < order.Length && order[page.value] == k
      ensures page.Some? ==> Alloc(old(ZoneOf(page.value).freeList), k) == Some((page.value, ZoneOf(page.value).freeList))
      ensures page.Some? && ZoneOf(page.value) != dma ==> dma.freeList == old(dma.freeList)
      ensures page.Some? && ZoneOf(page.value) != normal ==> normal.freeList == old(normal.freeList)
      ensures forall q: nat :: old(FreePage(q)) <==> FreePage(q) || (page.Some? && page.value <= q < page.value + Pow2(k))
    {
      CoreCounts();
      hide Core, Inv, Apart, InZone;
      var zone;
      page, zone, strayed := Search(k, preferDma);
      CoreCounts();
      if page.Some? {
        HandOut(zone, page.value, k, old(zone.freeList));
        CoreCounts();
      }
    }

    // pmm_alloc_pages: fails exactly when no zone has an aligned free run, and
    // prefers the zone asked for. pmm_init_zones never sets up the list heads of
    // the DMA32 zone; strayed says that the call read them, and then what it does
    // is what it would do if they were set up empty.
    method AllocPages(k: nat, preferDma: bool) returns (page: Option<nat>, strayed: bool)
      requires Valid()
      modifies dma, dma32, normal, buddy, order, this`live
      ensures Valid() && Owned() == old(Owned())
      ensures strayed <==> initialized && k < maxOrder && !preferDma && old(Runless(normal, k))
      ensures page.None? <==> !initialized || k >= maxOrder || (old(Runless(dma, k)) && old(Runless(normal, k)))
      ensures page.None? ==> live == old(live) && dma.freeList == old(dma.freeList) && normal.freeList == old(normal.freeList)
      ensures page.Some? ==> live == old(live) + [(page.value, k)] && InZone(page.value, k, 256, total)
      ensures page.Some? ==> (page.value < 4096 <==> if preferDma then old(!Runless(dma, k)) else old(Runless(normal, k)))
      ensures page.Some? ==> page.value < order.Length && order[page.value] == k
      ensures page.Some? ==> Alloc(old(ZoneOf(page.value).freeList), k) == Some((page.value, ZoneOf(page.value).freeList))
      ensures page.Some? && ZoneOf(page.value) != dma ==> dma.freeList == old(dma.freeList)
      ensures page.Some? && ZoneOf(page.value) != normal ==> normal.freeList == old(normal.freeList)
      ensures forall q: nat :: old(FreePage(q)) <==> FreePage(q) || (page.Some? && page.value <= q < page.value + Pow2(k))
    {
      if !initialized || k >= maxOrder {
        return None, false;
      }
      NoRun(dma, k);
      NoRun(normal, k);
      page, strayed := TryAlloc(k, preferDma);
    }

    // A machine of at most 16 MB has nothing in zone Normal, so that every
    // request that does not ask for DMA memory strays.
    lemma NothingNormal(k: nat)
      requires Core() && total <= DMA_PAGES
      ensures Runless(normal, k)
    {
      forall a: nat ensures !Full(normal.freeList, a, k) {
        assert !Covered(normal.freeList, a);
      }
    }

    // Taking back live[i].
    lemma Returns(i: nat)
      requires Valid() && i < |live|
      ensures var (p, o) := live[i]; var z := ZoneOf(p);
        FreePages(Free(z.freeList, p, o), 0) == FreePages(z.freeList, 0) + Pow2(o) && Inv(Free(z.freeList, p, o), z.lo, z.hi) &&
        forall q: nat :: Covered(Free(z.freeList, p, o), q) <==> Covered(z.freeList, q) || p <= q < p + Pow2(o)
      ensures LivePages(Drop(live, i)) + Pow2(live[i].1) == LivePages(live)
      ensures forall j :: 0 <= j < |live| && j != i && ZoneOf(live[j].0) == ZoneOf(live[i].0) ==>
        Apart(Free(ZoneOf(live[i].0).freeList, live[i].0, live[i].1), live[j].0, live[j].1)
    {
      var (p, o) := live[i];
      var z := ZoneOf(p);
      FreeKeeps(z.freeList, p, o, z.lo, z.hi);
      FreeConserves(z.freeList, p, o, z.lo, z.hi);
      LivePagesRemove(live, i);
      forall q: nat ensures Shr(q, o) == Shr(p, o) <==> p <= q < p + Pow2(o) {
        BlockIsInterval(p, o, q);
      }
      forall j | 0 <= j < |live| && j != i && ZoneOf(live[j].0) == z ensures Apart(Free(z.freeList, p, o), live[j].0, live[j].1) {
        assert !Clash(p, o, live[j].0, live[j].1) by {
          assert Clash(p, o, live[j].0, live[j].1) == Clash(live[j].0, live[j].1, p, o);
        }
        GivenBack(z.freeList, Free(z.freeList, p, o), p, o, live[j].0, live[j].1);
      }
    }

    // What is left on live after Drop(live, i), once the block went back.
    lemma StillHeldAfter(was: seq<(nat, nat)>, i: nat)
      requires Core() && i < |was| && live == Drop(was, i)
      requires forall j :: 0 <= j < |was| && j != i ==> Returnable(ZoneOf(was[j].0), was[j].0, was[j].1)
      requires forall j, m :: 0 <= j < m < |was| ==> !Clash(was[j].0, was[j].1, was[m].0, was[m].1)
      ensures Held()
    {
      forall j | 0 <= j < |live| ensures Returnable(ZoneOf(live[j].0), live[j].0, live[j].1) {
        assert live[j] == was[if j < i then j else j + 1];
      }
      forall j, m | 0 <= j < m < |live| ensures !Clash(live[j].0, live[j].1, live[m].0, live[m].1) {
        assert live[j] == was[if j < i then j else j + 1] && live[m] == was[if m < i then m else m + 1];
      }
    }

    // Live block i may be taken back, and the others stay as they are.
    lemma LiveReturns(i: nat)
      requires Valid() && i < |live|
      ensures Returnable(ZoneOf(live[i].0), live[i].0, live[i].1) && |ZoneOf(live[i].0).freeList| == maxOrder
      ensures forall j :: 0 <= j < |live| ==> Returnable(ZoneOf(live[j].0), live[j].0, live[j].1)
      ensures forall j, m :: 0 <= j < m < |live| ==> !Clash(live[j].0, live[j].1, live[m].0, live[m].1)
    {
    }

    // pmm_free_pages past its guard.
    method TakeBack(page: nat, k: nat, ghost i: nat)
      requires Core() && page < total && k < maxOrder && |ZoneOf(page).freeList| == maxOrder
      modifies dma, normal, buddy, order, this`live
      ensures ZoneOf(page).freeList == Free(old(ZoneOf(page).freeList), page, k)
      ensures Core() <==> old(Returnable(ZoneOf(page), page, k))
      ensures ZoneOf(page) != dma ==> dma.freeList == old(dma.freeList) && dma.vmFree == old(dma.vmFree)
      ensures ZoneOf(page) != normal ==> normal.freeList == old(normal.freeList) && normal.vmFree == old(normal.vmFree)
      ensures live == if IsLive(old(live), i, page, k) then Drop(old(live), i) else old(live)
      ensures old(Valid()) && IsLive(old(live), i, page, k) ==> Valid() && Owned() == old(Owned())
      ensures old(Valid()) && IsLive(old(live), i, page, k) ==> forall q: nat :: FreePage(q) <==> old(FreePage(q)) || page <= q < page + Pow2(k)
    {
      hide Inv, Apart, InZone, Covered, Clash, Core, FreePages, LivePages, Free, Pow2;
      var zone := if page < DMA_PAGES then dma else normal;
      CoreCounts();
      ghost var was, l, valid := live, zone.freeList, Valid();
      if valid && IsLive(live, i, page, k) {
        Returns(i);
        LiveReturns(i);
      }
      FreeInto(zone, page, k);
      if IsLive(live, i, page, k) {
        live := Drop(live, i);
        if valid {
          CoreCounts();
          StillHeldAfter(was, i);
        }
      }
    }

    // pmm_free_pages: a bad address, order or time is ignored; any other block
    // goes to the zone of its page. That keeps the lists sound exactly when the
    // zone may take the block back. A live block (named by i) always may.
    method ReleasePages(page: nat, k: nat, ghost i: nat)
      requires Core()
      modifies dma, normal, buddy, order, this`live
      ensures Ignored(page, k) ==> Core() && live == old(live) && dma.freeList == old(dma.freeList) && normal.freeList == old(normal.freeList)
      ensures !Ignored(page, k) ==> ZoneOf(page).freeList == Free(old(ZoneOf(page).freeList), page, k)
      ensures !Ignored(page, k) ==> (Core() <==> old(Returnable(ZoneOf(page), page, k)))
      ensures !Ignored(page, k) && ZoneOf(page) != dma ==> dma.freeList == old(dma.freeList)
      ensures !Ignored(page, k) && ZoneOf(page) != normal ==> normal.freeList == old(normal.freeList)
      ensures !Ignored(page, k) ==> live == if IsLive(old(live), i, page, k) then Drop(old(live), i) else old(live)
      ensures old(Valid()) && (Ignored(page, k) || IsLive(old(live), i, page, k)) ==> Valid() && Owned() == old(Owned())
      ensures old(Valid()) && !Ignored(page, k) && IsLive(old(live), i, page, k) ==> forall q: nat :: FreePage(q) <==> old(FreePage(q)) || page <= q < page + Pow2(k)
    {
      if page == 0 || !initialized || k >= maxOrder {
        return;
      }
      if page >= total {
        return;
      }
      CoreSizes();
      TakeBack(page, k, i);
    }

    lemma CoreSizes()
      requires Core()
      ensures |dma.freeList| == maxOrder && |normal.freeList| == maxOrder
    {
    }

    ghost predicate IsLive(live: seq<(nat, nat)>, i: nat, page: nat, k: nat) {
      i < |live| && live[i] == (page, k)
    }

    ghost predicate Ignored(page: nat, k: nat)
      reads this`initialized
    {
      page == 0 || !initialized || k >= maxOrder || page >= total
    }

    // Giving a block back at once restores every free list, in order.
    method AllocThenRelease(k: nat, preferDma: bool) returns (page: Option<nat>)
      requires Valid()
      modifies dma, dma32, normal, buddy, order, this`live
      ensures Valid() && live == old(live) && dma.freeList == old(dma.freeList) && normal.freeList == old(normal.freeList)
      ensures page.None? <==> !initialized || k >= maxOrder || (old(Runless(dma, k)) && old(Runless(normal, k)))
    {
      ghost var d, n := dma.freeList, normal.freeList;
      var strayed;
      page, strayed := AllocPages(k, preferDma);
      if page.Some? {
        ghost var z := ZoneOf(page.value);
        FreeUndoesAlloc(old(z.freeList), k, z.lo, z.hi);
        assert Pow2(k) > 0;
        ReleasePages(page.value, k, |live| - 1);
        assert live == old(live);
      }
    }

    // ---- seeding

    // The second pass of pmm_init_zones gives these pages to the allocator.
    ghost predicate Usable(q: nat, mapStart: nat, mapEnd: nat) {
      256 <= q < total && !(mapStart <= q < mapEnd)
    }

    ghost predicate Offered(entries: seq<MapEntry>, n: nat, q: nat) {
      exists i :: 0 <= i < n && i < |entries| && Within(entries[i], q)
    }

    lemma PageReturnable(q: nat)
      requires Core() && FIRST_PAGE <= q < total && !FreePage(q)
      ensures Returnable(ZoneOf(q), q, 0)
    {
      var z := ZoneOf(q);
      forall u: nat, p: nat | Has(z.freeList, u, p) ensures !Clash(q, 0, p, u) {
        assert !Covered(z.freeList, q);
      }
    }

    // One page of the second pass.
    method Seed(pfn: nat)
      requires Core() && FIRST_PAGE <= pfn < total && !FreePage(pfn)
      modifies dma, normal, buddy, order
      ensures Core()
      ensures forall q: nat :: FreePage(q) <==> old(FreePage(q)) || q == pfn
    {
      PageReturnable(pfn);
      var zone := if pfn < DMA_PAGES then dma else normal;
      FreeKeeps(zone.freeList, pfn, 0, zone.lo, zone.hi);
      FreeInto(zone, pfn, 0);
    }

    // The inner loop of the second pass, over one available entry.
    method SeedEntry(start: nat, end: nat, mapStart: nat, mapEnd: nat)
      requires Core() && forall q: nat :: start <= q < end ==> !FreePage(q)
      modifies dma, normal, buddy, order
      ensures Core()
      ensures forall q: nat :: FreePage(q) <==> old(FreePage(q)) || (Usable(q, mapStart, mapEnd) && start <= q < end)
    {
      var pfn := start;
      while pfn < end
        invariant start <= pfn && (pfn <= end || pfn == start) && Core()
        invariant forall q: nat :: FreePage(q) <==> old(FreePage(q)) || (Usable(q, mapStart, mapEnd) && start <= q < pfn)
      {
        if pfn >= total {
          break;
        }
        if !(mapStart <= pfn < mapEnd) && pfn >= FIRST_PAGE {
          Seed(pfn);
        }
        pfn := pfn + 1;
      }
    }

    // pmm_init: afterwards exactly the usable available pages are free.
    method Init(entries: seq<MapEntry>, mapStart: nat, mapEnd: nat)
      requires Core() && live == [] && forall q: nat :: !FreePage(q)
      requires forall i, j, q: nat :: 0 <= i < j < |entries| ==> !(Within(entries[i], q) && Within(entries[j], q))
      modifies dma, normal, buddy, order, this`initialized
      ensures Valid() && initialized
      ensures forall q: nat :: FreePage(q) <==> Usable(q, mapStart, mapEnd) && Offered(entries, |entries|, q)
    {
      var i := 0;
      while i < |entries|
        invariant 0 <= i <= |entries| && Core()
        invariant forall q: nat :: FreePage(q) <==> Usable(q, mapStart, mapEnd) && Offered(entries, i, q)
      {
        assert forall q: nat :: Within(entries[i], q) ==> !Offered(entries, i, q);
        if entries[i].available {
          assert forall q: nat :: entries[i].start <= q < entries[i].end ==> Within(entries[i], q);
          SeedEntry(entries[i].start, entries[i].end, mapStart, mapEnd);
        }
        forall q: nat ensures Offered(entries, i + 1, q) <==> Offered(entries, i, q) || Within(entries[i], q) {
        }
        i := i + 1;
      }
      initialized := true;
    }
  }

  // The first such request of a machine with 16 MB of memory.
  method FirstStray() returns (page: Option<nat>, strayed: bool)
    ensures strayed
  {
    var pages := new Pages(DMA_PAGES, 11);
    NoPages(pages.dma.freeList);
    NoPages(pages.normal.freeList);
    pages.Init([MapEntry(true, 256, DMA_PAGES)], 256, 384);
    pages.NothingNormal(0);
    page, strayed := pages.AllocPages(0, false);
  }

  lemma NoPages(l: Lists)
    requires forall o :: 0 <= o < |l| ==> l[o] == []
    ensures forall q: nat :: !Covered(l, q)
  {
  }
}
