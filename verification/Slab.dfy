/** XMem regions (sys/amd64/xmem.c) and the slab allocator over them (sys/kern/slab.c). */
module Slabs {
  import opened Common
  import opened PageAlloc
  import opened PageTables
  import opened PageLedger
  import opened PageRanges
  import opened PMap

  const MAX_XMEM_REGIONS: nat := 1024
  const MEM_XMAP_BASE: nat := 0xFFFF_8100_0000_0000
  const MEM_XMAP_LEN: nat := 0x20_0000_0000
  const REGION_SIZE: nat := 0x800_0000
  const XMAP_PAGE: nat := HALF + 0x1000_0000
  const REGION_PAGES: nat := 0x8000

  datatype Region = Region(inUse: bool, base: nat, maxLength: nat, length: nat)

  /** Pages of the XMap window sit at XMAP_PAGE. */
  lemma XMapVpn(r: nat, off: nat)
    requires r < MAX_XMEM_REGIONS && off <= REGION_SIZE && off % PGSIZE == 0
    ensures Vpn(MEM_XMAP_BASE + r * REGION_SIZE + off) == XMAP_PAGE + r * REGION_PAGES + off / PGSIZE
    ensures XMAP_PAGE + r * REGION_PAGES + off / PGSIZE <= XMAP_PAGE + MAX_XMEM_REGIONS * REGION_PAGES < PAGES
  {
    var d := r * REGION_SIZE + off;
    assert MEM_XMAP_BASE == 0xF_FFF8_1000_0000 * PGSIZE;
    assert d / PGSIZE == r * REGION_PAGES + off / PGSIZE;
    assert (MEM_XMAP_BASE + d) / PGSIZE == 0xF_FFF8_1000_0000 + d / PGSIZE;
    assert 0xF_FFF8_1000_0000 == 0xFFFF * PAGES + XMAP_PAGE;
  }

  /** The n kernel pages from lo on are mapped. */
  ghost predicate PagesMapped(mem: Memory, root: nat, lo: nat, n: nat) {
    forall u: nat :: lo <= u < lo + n ==> Walk(mem, root, 0, u).Small?
  }

  /** No 2MB page lies in the XMap window. */
  ghost predicate SmallWindow(mem: Memory, root: nat) {
    forall u: nat :: XMAP_PAGE <= u < XMAP_PAGE + MAX_XMEM_REGIONS * REGION_PAGES ==> !Walk(mem, root, 0, u).Large?
  }

  /** Going from mem to mem', no mapped page is lost and no 2MB page appears. */
  ghost predicate Extends(mem: Memory, mem': Memory, root: nat) {
    forall u: nat :: u < PAGES ==>
      (Walk(mem, root, 0, u).Small? ==> Walk(mem', root, 0, u).Small?) &&
      (!Walk(mem, root, 0, u).Large? ==> !Walk(mem', root, 0, u).Large?)
  }

  lemma ExtendsKeeps(mem: Memory, mem': Memory, root: nat, lo: nat, n: nat)
    requires Extends(mem, mem', root) && lo + n <= PAGES
    ensures PagesMapped(mem, root, lo, n) ==> PagesMapped(mem', root, lo, n)
    ensures SmallWindow(mem, root) ==> SmallWindow(mem', root)
  {
    hide Walk;
  }

  lemma OneMore(mem: Memory, root: nat, lo: nat, n: nat)
    requires PagesMapped(mem, root, lo, n) && Walk(mem, root, 0, lo + n).Small?
    ensures PagesMapped(mem, root, lo, n + 1)
  {}

  /** Region r is its own slice of the window. */
  predicate Slice(x: Region, r: nat) {
    && x.base == MEM_XMAP_BASE + r * REGION_SIZE && x.maxLength == REGION_SIZE
    && x.length <= REGION_SIZE && x.length % PGSIZE == 0
  }

  /** Region r is a slice whose first length bytes are mapped. */
  ghost predicate Backed(x: Region, r: nat, mem: Memory, root: nat) {
    Slice(x, r) && PagesMapped(mem, root, XMAP_PAGE + r * REGION_PAGES, x.length / PGSIZE)
  }

  ghost predicate AllBacked(regions: seq<Region>, mem: Memory, root: nat) {
    forall r :: 0 <= r < |regions| ==> Backed(regions[r], r, mem, root)
  }

  lemma AllExtend(regions: seq<Region>, mem: Memory, mem': Memory, root: nat)
    requires AllBacked(regions, mem, root) && Extends(mem, mem', root) && |regions| <= MAX_XMEM_REGIONS
    ensures AllBacked(regions, mem', root)
  {
    hide Extends, PagesMapped;
    forall r | 0 <= r < |regions| ensures Backed(regions[r], r, mem', root) {
      assert Backed(regions[r], r, mem, root);
      XMapVpn(r, regions[r].length);
      ExtendsKeeps(mem, mem', root, XMAP_PAGE + r * REGION_PAGES, regions[r].length / PGSIZE);
    }
  }

  lemma BackMore(x: Region, r: nat, mem: Memory, root: nat)
    requires Backed(x, r, mem, root) && x.length < REGION_SIZE
    requires Walk(mem, root, 0, XMAP_PAGE + r * REGION_PAGES + x.length / PGSIZE).Small?
    ensures Backed(x.(length := x.length + PGSIZE), r, mem, root)
  {
    hide PagesMapped, Walk;
    OneMore(mem, root, XMAP_PAGE + r * REGION_PAGES, x.length / PGSIZE);
    assert (x.length + PGSIZE) / PGSIZE == x.length / PGSIZE + 1;
  }

  lemma BackedMore(regions: seq<Region>, r: nat, mem: Memory, root: nat)
    requires AllBacked(regions, mem, root) && r < |regions| && regions[r].length < REGION_SIZE
    ensures var x := regions[r];
      AllBacked(regions[r := x.(length := x.length + PGSIZE)], mem, root) <==> Walk(mem, root, 0, PageOf(x, r)).Small?
  {
    hide PagesMapped, Walk;
    var x := regions[r];
    assert Backed(x, r, mem, root);
    var more := regions[r := x.(length := x.length + PGSIZE)];
    if Walk(mem, root, 0, PageOf(x, r)).Small? {
      BackMore(x, r, mem, root);
      hide Backed;
      assert AllBacked(more, mem, root);
    }
    if AllBacked(more, mem, root) {
      assert Backed(more[r], r, mem, root);
      LastMapped(x, r, mem, root);
    }
  }

  lemma LastMapped(x: Region, r: nat, mem: Memory, root: nat)
    requires Backed(x.(length := x.length + PGSIZE), r, mem, root)
    ensures Walk(mem, root, 0, PageOf(x, r)).Small?
  {
    hide Walk;
    assert (x.length + PGSIZE) / PGSIZE == x.length / PGSIZE + 1;
  }

  /** The page after the used part of region r. */
  function PageOf(x: Region, r: nat): nat {
    XMAP_PAGE + r * REGION_PAGES + x.length / PGSIZE
  }

  class XMem {
    const pmap: PMap
    var regions: seq<Region>

    ghost predicate Valid()
      reads this, pmap, pmap.palloc
    {
      && pmap.Valid() && System in pmap.roots
      && |regions| == MAX_XMEM_REGIONS && (forall r :: 0 <= r < |regions| ==> Slice(regions[r], r))
      && SmallWindow(pmap.mem, pmap.roots[System])
    }

    /** The used part of every region is mapped. */
    ghost predicate Mapped()
      reads this, pmap
      requires System in pmap.roots
    {
      AllBacked(regions, pmap.mem, pmap.roots[System])
    }

    /** XMem_Init. */
    constructor (pmap: PMap)
      requires pmap.Valid() && System in pmap.roots
      requires SmallWindow(pmap.mem, pmap.roots[System])
      ensures Valid() && Mapped() && this.pmap == pmap
      ensures forall r :: 0 <= r < MAX_XMEM_REGIONS ==> !regions[r].inUse && regions[r].length == 0
    {
      hide WF, Rooted, UpperFilled, Ledgered, Covered, Walk;
      this.pmap := pmap;
      this.regions := [];
      new;
      while |regions| < MAX_XMEM_REGIONS
        invariant |regions| <= MAX_XMEM_REGIONS
        invariant forall r :: 0 <= r < |regions| ==>
          regions[r] == Region(false, MEM_XMAP_BASE + r * REGION_SIZE, REGION_SIZE, 0)
      {
        regions := regions + [Region(false, MEM_XMAP_BASE + |regions| * REGION_SIZE, REGION_SIZE, 0)];
      }
    }

    /** XMem_New: the first region not in use. */
    method New() returns (r: Option<nat>)
      requires Valid()
      modifies this`regions
      ensures Valid() && (old(Mapped()) ==> Mapped())
      ensures r.None? <==> forall q :: 0 <= q < MAX_XMEM_REGIONS ==> old(regions)[q].inUse
      ensures r.None? ==> regions == old(regions)
      ensures r.Some? ==>
        && r.value < MAX_XMEM_REGIONS && !old(regions)[r.value].inUse
        && (forall q :: 0 <= q < r.value ==> old(regions)[q].inUse)
        && regions == old(regions)[r.value := old(regions)[r.value].(inUse := true)]
    {
      hide WF, Rooted, UpperFilled, Ledgered, Covered, Walk;
      var q := 0;
      while q < MAX_XMEM_REGIONS
        invariant q <= MAX_XMEM_REGIONS
        invariant forall p :: 0 <= p < q ==> regions[p].inUse
      {
        if !regions[q].inUse {
          regions := regions[q := regions[q].(inUse := true)];
          assert old(Mapped()) ==>
            forall p :: 0 <= p < MAX_XMEM_REGIONS ==> Backed(old(regions)[p], p, pmap.mem, pmap.roots[System]);
          return Some(q);
        }
        q := q + 1;
      }
      r := None;
    }
  
    /** XMem_Allocate: extend region r to length bytes, page by page.  A failed page
        allocation leaves what was added so far.  A page whose table could not be allocated is
        added all the same: then memory has run out and the used part is not all mapped. */
    method Allocate(r: nat, length: nat) returns (ok: bool)
      requires Valid() && r < MAX_XMEM_REGIONS && length % PGSIZE == 0
      modifies this`regions, pmap`mem, pmap`lay, pmap`ledger, pmap.palloc
      ensures Valid()
      ensures forall q :: 0 <= q < MAX_XMEM_REGIONS && q != r ==> regions[q] == old(regions)[q]
      ensures regions[r].inUse == old(regions)[r].inUse && old(regions)[r].length <= regions[r].length
      ensures ok ==> length <= regions[r].length
      ensures ok ==> regions[r].length == if old(regions)[r].length > length then old(regions)[r].length else length
      ensures !ok ==> regions[r].length < length && (length > REGION_SIZE || pmap.palloc.freeList == [])
      ensures old(Mapped()) ==> Mapped() || pmap.palloc.freeList == []
      ensures length <= REGION_SIZE && |old(pmap.palloc.freeList)| >= 4 * (length / PGSIZE) ==>
        ok && (old(Mapped()) ==> Mapped())
    {
      hide WF, Rooted, UpperFilled, Ledgered, Covered, Walk, Vpn, AllBacked, SmallWindow;
      Bounds(r);
      if regions[r].length > length {
        return true;
      }
      if length > regions[r].maxLength {
        return false;
      }
      ghost var free := |pmap.palloc.freeList|;
      ghost var plenty := free >= 4 * (length / PGSIZE);
      while regions[r].length < length
        invariant Valid() && regions[r].length <= length && regions[r].length % PGSIZE == 0
        invariant forall q :: 0 <= q < MAX_XMEM_REGIONS && q != r ==> regions[q] == old(regions)[q]
        invariant regions[r].inUse == old(regions)[r].inUse && old(regions)[r].length <= regions[r].length
        invariant old(Mapped()) ==> Mapped() || pmap.palloc.freeList == []
        invariant plenty ==> |pmap.palloc.freeList| >= 4 * ((length - regions[r].length) / PGSIZE)
        invariant plenty && old(Mapped()) ==> Mapped()
        decreases length - regions[r].length
      {
        ghost var len := regions[r].length;
        PagesLeft(length, len);
        ok := Grow(r);
        if !ok {
          return false;
        }
      }
      ok := true;
    }

    lemma Bounds(r: nat)
      requires Valid() && r < MAX_XMEM_REGIONS
      ensures regions[r].base == MEM_XMAP_BASE + r * REGION_SIZE && regions[r].maxLength == REGION_SIZE
      ensures regions[r].length <= REGION_SIZE && regions[r].length % PGSIZE == 0
    {
      hide WF, Rooted, UpperFilled, Ledgered, Covered, Walk, Vpn;
      assert Slice(regions[r], r);
    }

    /** Map one more kernel page; pages that were mapped stay mapped. */
    method MapOne(pg: nat, va: nat) returns (ok: bool)
      requires pmap.Valid() && System in pmap.roots && !pmap.Look(System, Vpn(va)).Large?
      modifies pmap`mem, pmap`lay, pmap`ledger, pmap.palloc
      ensures pmap.Valid()
      ensures !ok ==> pmap.palloc.freeList == []
      ensures ok <==> pmap.Look(System, Vpn(va)).Small?
      ensures TablesFor(ok, |old(pmap.palloc.freeList)|, |pmap.palloc.freeList|,
        old(Missing(pmap.mem, pmap.roots[System], 0, Vpn(va))))
      ensures Extends(old(pmap.mem), pmap.mem, pmap.roots[System])
    {
      hide WF, Rooted, UpperFilled, Ledgered, Covered, Walk, Vpn, Missing;
      ghost var v, mem0, root := Vpn(va), pmap.mem, pmap.roots[System];
      forall u | 0 <= u < PAGES ensures Reached(System, u, System, v, 1) <==> u == v {
        ReachedRange(System, u, System, v, 1);
      }
      assert forall u :: 0 <= u < PAGES ==> !Reached(System, u, System, v, 0) by { NoneReached(v); }
      hide Reached;
      ghost var n;
      ok, n := pmap.SystemMap(pg, va, 1, {});
      assert forall u :: 0 <= u < PAGES ==> old(pmap.Look(System, u)) == Walk(old(pmap.mem), pmap.roots[System], 0, u);
      assert forall u :: 0 <= u < PAGES ==> pmap.Look(System, u) == Walk(pmap.mem, pmap.roots[System], 0, u);
      if !ok {
        MissingAbsent(mem0, root, 0, v);
      }
    }

    /** One turn of XMem_Allocate's loop.  It ignores the result of PMap_SystemMap: the page is
        counted as soon as it is allocated, and mapped exactly if the free pages cover it and
        its missing tables. */
    method Grow(r: nat) returns (ok: bool)
      requires Valid() && r < MAX_XMEM_REGIONS && regions[r].length < REGION_SIZE
      modifies this`regions, pmap`mem, pmap`lay, pmap`ledger, pmap.palloc
      ensures Valid()
      ensures ok <==> old(pmap.palloc.freeList) != []
      ensures regions ==
        if ok then old(regions)[r := old(regions)[r].(length := old(regions)[r].length + PGSIZE)] else old(regions)
      ensures old(Mapped()) ==>
        var missing := old(Missing(pmap.mem, pmap.roots[System], 0, PageOf(regions[r], r)));
        Mapped() <==> !ok || |old(pmap.palloc.freeList)| > missing
      ensures ok && old(Mapped()) && !Mapped() ==> pmap.palloc.freeList == []
      ensures !ok ==> pmap.palloc.freeList == []
      ensures |pmap.palloc.freeList| + 4 >= |old(pmap.palloc.freeList)|
    {
      hide WF, Rooted, UpperFilled, Ledgered, Covered, Walk, Vpn, Extends, PagesMapped, Missing, AllBacked;
      var x := regions[r];
      ghost var counts, mem0, root := pmap.palloc.refCount, pmap.mem, pmap.roots[System];
      var pg := pmap.palloc.AllocPage();
      if pg.None? {
        return false;
      }
      CoveredMore(pmap.ledger, counts, pmap.palloc.managed, pg.value);
      XMapVpn(r, x.length);
      var mapped := MapOne(pg.value, x.base + x.length);
      ExtendsKeeps(mem0, pmap.mem, root, 0, 0);
      ghost var were := regions;
      regions := regions[r := x.(length := x.length + PGSIZE)];
      if old(Mapped()) {
        AllExtend(were, mem0, pmap.mem, root);
        BackedMore(were, r, pmap.mem, root);
      }
      ok := true;
    }
  }

  lemma PagesLeft(length: nat, len: nat)
    requires len < length && length % PGSIZE == 0 && len % PGSIZE == 0
    ensures (length - len) / PGSIZE == (length - len - PGSIZE) / PGSIZE + 1 && len + PGSIZE <= length
  {}

  // ---------------------------------------------------------------- slabs

  function RoundUp(x: nat, n: nat): nat
    requires n > 0
  {
    (x + n - 1) / n * n
  }

  ghost predicate Aligned(x: nat, n: nat) {
    exists k: nat :: x == k * n
  }

  lemma AlignedSum(x: nat, y: nat, n: nat)
    requires Aligned(x, n) && Aligned(y, n)
    ensures Aligned(x + y, n)
  {
    var j: nat :| x == j * n;
    var k: nat :| y == k * n;
    assert x + y == (j + k) * n;
  }

  lemma AlignedPages(x: nat, n: nat)
    requires x % PGSIZE == 0 && n > 0 && Aligned(PGSIZE, n)
    ensures Aligned(x, n)
  {
    var k: nat :| PGSIZE == k * n;
    assert x == x / PGSIZE * PGSIZE;
    assert x == (x / PGSIZE * k) * n;
  }

  lemma RoundUpFacts(x: nat, n: nat)
    requires n > 0 && x > 0
    ensures x <= RoundUp(x, n) < x + n && Aligned(RoundUp(x, n), n)
  {
    var q := (x + n - 1) / n;
    assert q * n == RoundUp(x, n);
  }

  lemma Fits(i: nat, size: nat, inc: nat)
    requires size > 0 && i < inc / size
    ensures i * size + size <= inc
  {
    assert (i + 1) * size <= inc / size * size <= inc;
  }

  /** Objects of the given size lie in [base, base + length), aligned, without overlap. */
  ghost predicate Packed(all: set<nat>, base: nat, length: nat, size: nat, align: nat) {
    && (forall o :: o in all ==> base <= o && o + size <= base + length && Aligned(o, align))
    && (forall o, p :: o in all && p in all && o < p ==> o + size <= p)
  }

  /** The step by which SlabExtend grows its region. */
  function Increment(size: nat): nat {
    var inc := RoundUp(size * 64, PGSIZE);
    if inc < 4 * PGSIZE then 4 * PGSIZE else inc
  }

  /** How many objects one growth step holds. */
  function Batch(size: nat): nat
    requires size > 0
  {
    Increment(size) / size
  }

  class Slab {
    const xm: XMem
    const r: nat
    const objsz: nat
    const align: nat
    const size: nat  // the rounded object size
    var objs: nat
    var freeObjs: nat
    var freeList: seq<nat>
    var allocs: nat
    var frees: nat
    ghost var all: set<nat>

    /** Every object belongs to the region, free objects are listed once, and the counters
        agree with the objects. */
    ghost predicate Valid()
      reads this, xm
    {
      && r < |xm.regions| && 0 < objsz <= size && Aligned(size, align) && Aligned(PGSIZE, align) && align > 0
      && Packed(all, xm.regions[r].base, xm.regions[r].length, size, align)
      && NoDup(freeList) && (forall o :: o in freeList ==> o in all)
      && objs == |all| && freeObjs == |freeList|
      && allocs == frees + (objs - freeObjs)
    }

    /** The objects handed out and not yet freed. */
    ghost function Live(): set<nat>
      reads this
    {
      set o | o in all && o !in freeList
    }

    lemma LiveCount()
      requires Valid()
      ensures |Live()| == objs - freeObjs == allocs - frees
    {
      var free := set o | o in freeList;
      NoDupSize(freeList);
      assert all == free + Live();
    }

    /** Slab_Init with a region from XMem_New. */
    constructor (xm: XMem, r: nat, objsz: nat, align: nat)
      requires r < |xm.regions| && objsz > 0 && align > 0 && Aligned(PGSIZE, align)
      ensures Valid() && this.xm == xm && this.r == r && this.objsz == objsz && this.align == align
      ensures size == RoundUp(objsz, align)
      ensures freeList == [] && Live() == {} && all == {}
    {
      RoundUpFacts(objsz, align);
      this.xm, this.r, this.objsz, this.align := xm, r, objsz, align;
      this.size := RoundUp(objsz, align);
      objs, freeObjs, allocs, frees := 0, 0, 0, 0;
      freeList, all := [], {};
    }

    /** SlabExtend.  On failure the region may have grown, but no object is added. */
    method Extend() returns (ok: bool)
      requires Valid() && xm.Valid()
      modifies this`objs, this`freeObjs, this`freeList, this`all, xm`regions, xm.pmap`mem, xm.pmap`lay,
        xm.pmap`ledger, xm.pmap.palloc
      ensures Valid() && xm.Valid() && Live() == old(Live())
      ensures old(xm.Mapped()) ==> xm.Mapped() || xm.pmap.palloc.freeList == []
      ensures xm.regions[r].inUse == old(xm.regions)[r].inUse
      ensures forall q :: 0 <= q < MAX_XMEM_REGIONS && q != r ==> xm.regions[q] == old(xm.regions)[q]
      ensures !ok ==> freeList == old(freeList) && all == old(all)
      ensures !ok ==> old(xm.regions)[r].length + Increment(size) > REGION_SIZE || xm.pmap.palloc.freeList == []
      ensures ok ==> |freeList| == |old(freeList)| + Batch(size)
    {
      hide WF, Rooted, UpperFilled, Ledgered, Covered, Walk, Aligned, AllBacked, SmallWindow, Increment, Batch, Packed;
      var base, len := xm.regions[r].base, xm.regions[r].length;
      var inc := Increment(size);
      IncrementFacts(size);
      xm.Bounds(r);
      ok := xm.Allocate(r, len + inc);
      xm.Bounds(r);
      PackedMore(all, base, len, xm.regions[r].length, size, align);
      if ok {
        BatchFits(size);
        WindowAligned(r, len);
        AlignedPages(base + len, align);
        AddObjects(len, Batch(size));
      }
    }

    /** SlabExtend's loop: n adjacent objects from offset len on join the free list. */
    method AddObjects(len: nat, n: nat)
      requires Valid() && Packed(all, xm.regions[r].base, len, size, align)
      requires Aligned(xm.regions[r].base + len, align) && len + n * size <= xm.regions[r].length
      modifies this`objs, this`freeObjs, this`freeList, this`all
      ensures Valid() && Live() == old(Live())
      ensures |freeList| == |old(freeList)| + n
    {
      hide Aligned, Packed;
      var base := xm.regions[r].base;
      var i, elem := 0, base + len;
      ghost var top := len;
      assert n * size == (n - i) * size;
      while i < n
        invariant i <= n && elem == base + top && top + (n - i) * size == len + n * size
        invariant Aligned(elem, align) && Packed(all, base, top, size, align)
        invariant NoDup(freeList) && (forall o :: o in freeList ==> o in all)
        invariant |freeList| == |old(freeList)| + i && |all| == |old(all)| + i
        invariant Live() == old(Live()) && objs == old(objs) && freeObjs == old(freeObjs)
      {
        PackedAdd(all, base, top, size, align);
        Pred(n - i, size);
        AlignedSum(elem, size, align);
        freeList := [elem] + freeList;
        all := all + {elem};
        elem, top := elem + size, top + size;
        i := i + 1;
      }
      PackedMore(all, base, top, xm.regions[r].length, size, align);
      objs, freeObjs := objs + n, freeObjs + n;
    }

    /** Slab_Alloc: None when the free list is empty and the slab could not grow. */
    method Alloc() returns (obj: Option<nat>)
      requires Valid() && xm.Valid()
      modifies this, xm`regions, xm.pmap`mem, xm.pmap`lay, xm.pmap`ledger, xm.pmap.palloc
      ensures Valid() && xm.Valid()
      ensures old(xm.Mapped()) ==> xm.Mapped() || xm.pmap.palloc.freeList == []
      ensures xm.regions[r].inUse == old(xm.regions)[r].inUse
      ensures forall q :: 0 <= q < MAX_XMEM_REGIONS && q != r ==> xm.regions[q] == old(xm.regions)[q]
      ensures obj.Some? ==> obj.value !in old(Live()) && Live() == old(Live()) + {obj.value}
      ensures obj.Some? && old(freeList) != [] ==> obj.value == old(freeList)[0] && freeList == old(freeList)[1..]
      ensures obj.None? ==> Live() == old(Live()) && old(freeList) == []
      ensures obj.None? ==> old(xm.regions)[r].length + Increment(size) > REGION_SIZE || xm.pmap.palloc.freeList == []
    {
      hide WF, Rooted, UpperFilled, Ledgered, Covered, Walk, Aligned, AllBacked, SmallWindow, Increment, Batch, Packed;
      if freeObjs == 0 {
        IncrementFacts(size);
        var ok := Extend();
      }
      if freeList == [] {
        return None;
      }
      var elem := freeList[0];
      ghost var live := Live();
      assert elem in freeList;
      assert forall o :: o in freeList <==> o == elem || o in freeList[1..];
      assert elem !in freeList[1..];
      freeList := freeList[1..];
      allocs, freeObjs := allocs + 1, freeObjs - 1;
      assert Live() == live + {elem};
      obj := Some(elem);
    }

    /** Slab_Free. */
    method Free(obj: nat)
      requires Valid() && obj in Live()
      modifies this`freeList, this`frees, this`freeObjs
      ensures Valid() && freeList == [obj] + old(freeList) && Live() == old(Live()) - {obj}
    {
      LiveCount();
      freeList := [obj] + freeList;
      frees, freeObjs := frees + 1, freeObjs + 1;
    }
  }

  /** Live objects of one slab: in the region's backed part, aligned, not overlapping. */
  lemma LiveObjects(s: Slab, o: nat, p: nat)
    requires s.Valid() && o in s.Live()
    ensures s.xm.regions[s.r].base <= o && o + s.objsz <= s.xm.regions[s.r].base + s.xm.regions[s.r].length
    ensures Aligned(o, s.align)
    ensures p in s.Live() && p != o ==> o + s.objsz <= p || p + s.objsz <= o
  {
    hide Aligned;
  }

  /** While the regions are mapped, every byte of a live object is. */
  lemma LiveMapped(s: Slab, o: nat, addr: nat)
    requires s.Valid() && s.xm.Valid() && s.xm.Mapped() && o in s.Live() && o <= addr < o + s.objsz
    ensures s.xm.pmap.Look(System, Vpn(addr)).Small?
  {
    hide WF, Rooted, UpperFilled, Ledgered, Covered, Walk, Aligned, SmallWindow, Vpn;
    s.xm.Bounds(s.r);
    LiveObjects(s, o, o);
    var x, root := s.xm.regions[s.r], s.xm.pmap.roots[System];
    assert Backed(x, s.r, s.xm.pmap.mem, root);
    ByteMapped(x, s.r, s.xm.pmap.mem, root, addr - x.base);
  }

  lemma ByteMapped(x: Region, r: nat, mem: Memory, root: nat, d: nat)
    requires Backed(x, r, mem, root) && r < MAX_XMEM_REGIONS && d < x.length
    ensures Walk(mem, root, 0, Vpn(x.base + d)).Small?
  {
    hide Walk, Vpn;
    var p, i := d / PGSIZE, d % PGSIZE;
    var off := p * PGSIZE;
    PageFloor(d, x.length);
    XMapVpn(r, off);
    WindowAligned(r, off);
    SamePage(x.base + off, i);
    assert x.base + d == x.base + off + i;
    assert Walk(mem, root, 0, XMAP_PAGE + r * REGION_PAGES + p).Small?;
  }

  lemma PageFloor(d: nat, len: nat)
    requires d < len && len % PGSIZE == 0
    ensures var off := d / PGSIZE * PGSIZE;
      && off % PGSIZE == 0 && off / PGSIZE == d / PGSIZE < len / PGSIZE && d == off + d % PGSIZE && off <= d
  {}

  lemma SamePage(va: nat, d: nat)
    requires va % PGSIZE == 0 && d < PGSIZE
    ensures Vpn(va + d) == Vpn(va)
  {
    assert (va + d) / PGSIZE == va / PGSIZE;
  }

  // ---------------------------------------------------------------- all slabs

  /** Live objects of slabs over different regions do not overlap. */
  lemma SlabsApart(s: Slab, t: Slab, o: nat, p: nat)
    requires s.Valid() && t.Valid() && s.xm == t.xm && s.xm.Valid() && s.r != t.r
    requires o in s.Live() && p in t.Live()
    ensures o + s.objsz <= p || p + t.objsz <= o
  {
    hide WF, Rooted, UpperFilled, Ledgered, Covered, Walk, Aligned, AllBacked, SmallWindow;
    s.xm.Bounds(s.r);
    s.xm.Bounds(t.r);
    assert s.r < t.r || t.r < s.r;
  }

  /** A slab stays as it is while another slab works in another region. */
  twostate lemma OtherSlab(t: Slab)
    requires old(t.Valid()) && unchanged(t) && |t.xm.regions| == |old(t.xm.regions)|
    requires t.xm.regions[t.r] == old(t.xm.regions)[t.r]
    ensures t.Valid() && t.Live() == old(t.Live())
  {
    hide Aligned;
  }

  /** The slabs of the kernel: each has a region of its own. */
  ghost predicate Family(xm: XMem, slabs: set<Slab>)
    reads xm, slabs
  {
    && (forall s :: s in slabs ==> s.xm == xm && s.Valid() && s.r < |xm.regions| && xm.regions[s.r].inUse)
    && (forall s, t :: s in slabs && t in slabs && s != t ==> s.r != t.r)
  }

  /** Throughout, no two live objects overlap, whichever slabs they come from. */
  lemma FamilyApart(xm: XMem, slabs: set<Slab>, s: Slab, t: Slab, o: nat, p: nat)
    requires Family(xm, slabs) && xm.Valid() && s in slabs && t in slabs && o in s.Live() && p in t.Live()
    requires s != t || o != p
    ensures o + s.objsz <= p || p + t.objsz <= o
  {
    hide WF, Rooted, UpperFilled, Ledgered, Covered, Walk, Aligned, SmallWindow, Packed;
    if s == t {
      LiveObjects(s, o, p);
    } else {
      SlabsApart(s, t, o, p);
    }
  }

  /** Slab_Init with a region from XMem_New: one more slab. */
  method Create(xm: XMem, ghost slabs: set<Slab>, objsz: nat, align: nat) returns (s: Slab?)
    requires xm.Valid() && Family(xm, slabs) && objsz > 0 && align > 0 && Aligned(PGSIZE, align)
    modifies xm`regions
    ensures xm.Valid() && (old(xm.Mapped()) ==> xm.Mapped())
    ensures s == null ==> Family(xm, slabs) && forall q :: 0 <= q < MAX_XMEM_REGIONS ==> xm.regions[q].inUse
    ensures s != null ==> fresh(s) && Family(xm, slabs + {s}) && s.Live() == {} && s.objsz == objsz && s.align == align
    ensures forall t :: t in slabs ==> t.Live() == old(t.Live())
  {
    hide WF, Rooted, UpperFilled, Ledgered, Covered, Walk, Aligned, SmallWindow, AllBacked, Packed;
    s := null;
    var r := xm.New();
    forall t | t in slabs ensures t.Valid() {
      if r.Some? {
        assert xm.regions[t.r] == old(xm.regions)[t.r];
      }
      OtherSlab(t);
    }
    if r.Some? {
      s := new Slab(xm, r.value, objsz, align);
    }
  }

  /** Slab_Alloc from one of the slabs. */
  method AllocFrom(xm: XMem, ghost slabs: set<Slab>, s: Slab) returns (obj: Option<nat>)
    requires xm.Valid() && Family(xm, slabs) && s in slabs
    modifies s, xm`regions, xm.pmap`mem, xm.pmap`lay, xm.pmap`ledger, xm.pmap.palloc
    ensures xm.Valid() && Family(xm, slabs)
    ensures old(xm.Mapped()) ==> xm.Mapped() || xm.pmap.palloc.freeList == []
    ensures forall t :: t in slabs && t != s ==> t.Live() == old(t.Live())
    ensures obj.None? ==> s.Live() == old(s.Live())
    ensures obj.Some? ==> obj.value !in old(s.Live()) && s.Live() == old(s.Live()) + {obj.value}
  {
    hide WF, Rooted, UpperFilled, Ledgered, Covered, Walk, Aligned, SmallWindow, AllBacked, Packed, Increment;
    obj := s.Alloc();
    forall t | t in slabs && t != s ensures t.Valid() && t.Live() == old(t.Live()) {
      OtherSlab(t);
    }
  }

  /** Slab_Free to one of the slabs. */
  method FreeTo(xm: XMem, ghost slabs: set<Slab>, s: Slab, obj: nat)
    requires xm.Valid() && Family(xm, slabs) && s in slabs && obj in s.Live()
    modifies s`freeList, s`frees, s`freeObjs
    ensures xm.Valid() && Family(xm, slabs) && s.Live() == old(s.Live()) - {obj}
    ensures forall t :: t in slabs && t != s ==> t.Live() == old(t.Live())
  {
    hide WF, Rooted, UpperFilled, Ledgered, Covered, Walk, Aligned, SmallWindow, AllBacked, Packed;
    s.Free(obj);
    forall t | t in slabs && t != s ensures t.Valid() && t.Live() == old(t.Live()) {
      OtherSlab(t);
    }
  }

  lemma PackedMore(all: set<nat>, base: nat, len: nat, more: nat, size: nat, align: nat)
    requires Packed(all, base, len, size, align) && len <= more
    ensures Packed(all, base, more, size, align)
  {}

  lemma PackedAdd(all: set<nat>, base: nat, top: nat, size: nat, align: nat)
    requires Packed(all, base, top, size, align) && Aligned(base + top, align) && size > 0
    ensures Packed(all + {base + top}, base, top + size, size, align) && base + top !in all
  {
    hide Aligned;
  }

  lemma Pred(n: nat, size: nat)
    requires n > 0
    ensures n * size == (n - 1) * size + size
  {}

  lemma WindowAligned(r: nat, len: nat)
    requires len % PGSIZE == 0
    ensures (MEM_XMAP_BASE + r * REGION_SIZE + len) % PGSIZE == 0
  {}

  lemma BatchFits(size: nat)
    requires size > 0
    ensures Batch(size) * size <= Increment(size)
  {
    hide Increment;
  }

  lemma IncrementFacts(size: nat)
    requires size > 0
    ensures Increment(size) % PGSIZE == 0 && Increment(size) >= 64 * size && Batch(size) >= 64
  {
    assert RoundUp(size * 64, PGSIZE) >= size * 64;
    AtLeast(Increment(size), size);
  }

  lemma AtLeast(inc: nat, size: nat)
    requires size > 0 && inc >= 64 * size
    ensures inc / size >= 64
  {
    var q, m := inc / size, inc % size;
    assert inc == q * size + m;
    if q < 64 {
      Times(q, 63, size);
    }
  }

  lemma Times(q: nat, p: nat, size: nat)
    requires q <= p
    ensures q * size <= p * size
  {}
}
