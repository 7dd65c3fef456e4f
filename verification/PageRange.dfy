/** The page ranges of pmap.c.  Its loops multiply a page size by a counter; both are ints, so
    the product is taken modulo 2^32 and sign-extended to an address (sys/amd64/include/amd64.h,
    sys/amd64/pmap.c). */
module PageRanges {
  import opened Common
  import opened PageAlloc
  import opened PageTables
  import opened PageLedger

  const ADDRESSES: nat := 0x1_0000_0000_0000_0000
  const FRAMES: nat := 0x10_0000_0000_0000     // page numbers of physical addresses
  const INT_PAGES: nat := 0x8_0000             // pages in 2^31 bytes
  const INT_LARGE: nat := 1024                 // 2MB pages in 2^31 bytes
  const INT_TURNS: nat := 0x8000_0000          // the counter overflows after as many turns

  /** The int a product wraps to. */
  function Int32(x: nat): (r: int)
    ensures -0x8000_0000 <= r < 0x8000_0000
  {
    (x + 0x8000_0000) % 0x1_0000_0000 - 0x8000_0000
  }

  /** An address with an int added to it. */
  function Plus(virt: nat, d: int): (va: nat)
    ensures va < ADDRESSES
  {
    (virt + d) % ADDRESSES
  }

  /** The pages of a length; the 64-bit sum that rounds it up can wrap. */
  function PagesOf(len: nat): nat {
    (len + PGSIZE - 1) % ADDRESSES / PGSIZE
  }

  /** How often the loop runs: an int counter is compared with a 64-bit bound, and is above it
      once it is negative. */
  function Turns(pages: nat): nat {
    if pages <= INT_TURNS then pages else INT_TURNS
  }

  /** The distance, in pages, that turn i of a loop reaches, if half of them make 2^31 bytes. */
  function Delta(i: nat, half: nat): (d: int)
    requires half > 0
    ensures 0 - half <= d < half
  {
    (i + half) % (2 * half) - half
  }

  lemma SmallProduct(i: nat)
    ensures Int32(PGSIZE * i) == PGSIZE * Delta(i, INT_PAGES)
  {
    var x := i + INT_PAGES;
    var q, r := x / (2 * INT_PAGES), x % (2 * INT_PAGES);
    assert PGSIZE * i + 0x8000_0000 == q * 0x1_0000_0000 + PGSIZE * r;
  }

  lemma LargeProduct(i: nat)
    ensures Int32(LARGE_PGSIZE * i) == LARGE_PGSIZE * Delta(i, INT_LARGE)
  {
    var x := i + INT_LARGE;
    var q, r := x / (2 * INT_LARGE), x % (2 * INT_LARGE);
    assert LARGE_PGSIZE * i + 0x8000_0000 == q * 0x1_0000_0000 + LARGE_PGSIZE * r;
  }

  /** The first turn of PMap_Init's first call that goes astray: it stores the entry of physical
      address 0xFFFFFFFF80000000 under the last entry of the user half of the root. */
  lemma FirstOverflow()
    ensures Int32(LARGE_PGSIZE * 1024) == -0x8000_0000
    ensures var va := Plus(MEM_DIRECTMAP_BASE, Int32(LARGE_PGSIZE * 1024));
      va == 0xFFFF_7FFF_8000_0000 && va / ROOT_SPAN % ENTRIES == 255
    ensures FrameAt(0, Delta(1024, INT_LARGE) * ENTRIES) * PGSIZE == 0xFFFF_FFFF_8000_0000
  {}

  // ---------------------------------------------------------------- pages reached

  /** The page at a distance from v; page numbers are taken modulo 2^36. */
  function Shift(v: nat, d: int): (u: nat)
    ensures u < PAGES
  {
    (v + d) % PAGES
  }

  /** The distance of page u from v, at most half of all pages either way. */
  function Dist(v: nat, u: nat): (d: int)
    ensures 0 - HALF <= d < HALF
  {
    (u - v + HALF) % PAGES - HALF
  }

  /** The physical page at a distance from phys. */
  function FrameAt(phys: nat, d: int): (f: nat)
    requires 0 - FRAMES <= d
  {
    if phys + d >= 0 then phys + d else phys + d + FRAMES
  }

  lemma VpnPlus(virt: nat, d: int)
    ensures Vpn(Plus(virt, PGSIZE * d)) == Shift(Vpn(virt), d)
  {
    var s := virt + PGSIZE * d;
    var w := virt / PGSIZE + d;
    assert s / PGSIZE == w;
    var q := s / ADDRESSES;
    var va := Plus(virt, PGSIZE * d);
    assert va == s - q * ADDRESSES;
    assert va / PGSIZE == w - q * 0x10_0000_0000_0000;
    assert 0x10_0000_0000_0000 == 0x1_0000 * PAGES;
    ModShift(w, q * 0x1_0000);
    assert w - q * 0x10_0000_0000_0000 == w - (q * 0x1_0000) * PAGES;
    ModShift(w, virt / PGSIZE / PAGES);
    assert w - (virt / PGSIZE / PAGES) * PAGES == Vpn(virt) + d;
  }

  lemma ModShift(w: int, k: int)
    ensures (w - k * PAGES) % PAGES == w % PAGES
  {
    var a, b := w / PAGES, w % PAGES;
    assert w - k * PAGES == (a - k) * PAGES + b;
  }

  lemma DistShift(v: nat, u: nat, d: int)
    requires v < PAGES && u < PAGES && 0 - HALF <= d < HALF
    ensures u == Shift(v, d) <==> Dist(v, u) == d
  {}

  /** The first n turns reach distance d: counting up from 0, and on from the lowest int. */
  predicate Hit(d: int, n: nat, half: nat) {
    (0 <= d < n && d < half) || (0 - half <= d < 0 && d + 2 * half < n)
  }

  lemma ModNone(x: nat, m: nat)
    requires x < m
    ensures x % m == x
  {}

  lemma ModOnce(x: nat, m: nat)
    requires m <= x < 2 * m
    ensures x % m == x - m
  {
    assert x / m == 1;
  }

  lemma HitStep(d: int, i: nat, half: nat)
    requires half > 0
    ensures Hit(d, i + 1, half) <==> Hit(d, i, half) || d == Delta(i, half)
  {
    if i < half {
      ModNone(i + half, 2 * half);
    } else if i < 2 * half {
      ModOnce(i + half, 2 * half);
    } else {
      assert forall x: int :: 0 - half <= x < half ==> Hit(x, i, half);
    }
  }

  /** The loop reaches exactly the pages of its range if and only if the range is within 2^31
      bytes. */
  lemma HitsRangeIff(n: nat, half: nat)
    requires half > 0
    ensures (forall d: int :: Hit(d, n, half) <==> 0 <= d < n) <==> n <= half
  {
    if n > half {
      assert !Hit(half, n, half);
    }
  }

  /** Page u of b is one that the first n turns of a loop from page v of a on reach. */
  predicate Reached(b: AS, u: nat, a: AS, v: nat, n: nat) {
    Hit(Dist(v, u), n, INT_PAGES) && OwnerAt(b, 3, u) == OwnerAt(a, 3, u)
  }

  lemma ReachedStep(b: AS, u: nat, a: AS, v: nat, i: nat)
    requires u < PAGES && v < PAGES
    ensures var w := Shift(v, Delta(i, INT_PAGES));
      && (Reached(b, u, a, v, i + 1) <==> Reached(b, u, a, v, i) || InRange(b, u, a, w, 1))
      && (InRange(b, u, a, w, 1) ==> Dist(v, u) == Delta(i, INT_PAGES))
  {
    hide Hit, Delta, Dist, Shift;
    HitStep(Dist(v, u), i, INT_PAGES);
    DistShift(v, u, Delta(i, INT_PAGES));
  }

  /** Within 2^31 bytes that is the range. */
  lemma ReachedRange(b: AS, u: nat, a: AS, v: nat, n: nat)
    requires u < PAGES && v + n <= PAGES && n <= INT_PAGES
    ensures Reached(b, u, a, v, n) <==> InRange(b, u, a, v, n)
    ensures InRange(b, u, a, v, n) ==> Dist(v, u) == u - v
  {}

  /** The same for 2MB pages. */
  predicate ReachedLarge(b: AS, u: nat, v: nat, n: nat) {
    Hit(Dist(v, u) / ENTRIES, n, INT_LARGE) && OwnerAt(b, 3, u) == OwnerAt(System, 3, u)
  }

  lemma ReachedLargeStep(b: AS, u: nat, v: nat, i: nat)
    requires u < PAGES && v < PAGES && v % ENTRIES == 0
    ensures var w := Shift(v, ENTRIES * Delta(i, INT_LARGE));
      && (ReachedLarge(b, u, v, i + 1) <==> ReachedLarge(b, u, v, i) || InRange(b, u, System, w, ENTRIES))
      && (InRange(b, u, System, w, ENTRIES) ==> Dist(v, u) / ENTRIES == Delta(i, INT_LARGE))
  {
    hide Hit, Delta;
    var d := Delta(i, INT_LARGE);
    HitStep(Dist(v, u) / ENTRIES, i, INT_LARGE);
    SlotDist(v, u, d);
  }

  lemma SlotDist(v: nat, u: nat, d: int)
    requires u < PAGES && v < PAGES && v % ENTRIES == 0 && 0 - INT_LARGE <= d < INT_LARGE
    ensures Dist(v, u) / ENTRIES == d <==> Shift(v, ENTRIES * d) <= u < Shift(v, ENTRIES * d) + ENTRIES
    ensures Shift(v, ENTRIES * d) % ENTRIES == 0
  {
    var w := Shift(v, ENTRIES * d);
    assert w == v + ENTRIES * d || w == v + ENTRIES * d + PAGES || w == v + ENTRIES * d - PAGES;
    var t := Dist(v, u);
    assert t == u - v || t == u - v + PAGES || t == u - v - PAGES;
  }

  /** The 2MB entry for the page at distance d from the start of a range. */
  function LargeEntry(phys: nat, d: int, flags: set<Flag>): PageEntry
    requires 0 - HALF <= d
  {
    PageEntry(FrameAt(phys, d / ENTRIES * ENTRIES), {P, W, PS} + flags)
  }

  /** A loop over 4KB pages maps exactly its range if and only if that is within 2^31 bytes. */
  lemma RangeIff(a: AS, v: nat, n: nat)
    requires v + n <= PAGES
    ensures (forall u :: 0 <= u < PAGES ==> (Reached(a, u, a, v, n) <==> v <= u < v + n)) <==> n <= INT_PAGES
  {
    if n <= INT_PAGES {
      forall u | 0 <= u < PAGES ensures Reached(a, u, a, v, n) <==> v <= u < v + n {
        ReachedRange(a, u, a, v, n);
      }
    } else {
      assert Dist(v, v + INT_PAGES) == INT_PAGES;
      assert !Reached(a, v + INT_PAGES, a, v, n);
    }
  }

  /** The same for 2MB pages. */
  lemma LargeRangeIff(v: nat, n: nat)
    requires v % ENTRIES == 0 && v + ENTRIES * n <= PAGES
    ensures (forall u :: 0 <= u < PAGES ==> (ReachedLarge(System, u, v, n) <==> v <= u < v + ENTRIES * n)) <==>
      n <= INT_LARGE
  {
    if n <= INT_LARGE {
      forall u | 0 <= u < PAGES ensures ReachedLarge(System, u, v, n) <==> v <= u < v + ENTRIES * n {
        var t := Dist(v, u);
        assert t == u - v || t == u - v + PAGES || t == u - v - PAGES;
      }
    } else {
      assert Dist(v, v + ENTRIES * INT_LARGE) == ENTRIES * INT_LARGE;
      assert !ReachedLarge(System, v + ENTRIES * INT_LARGE, v, n);
    }
  }

  // ---------------------------------------------------------------- one turn

  lemma NoneReached(v: nat)
    ensures forall b, u :: !Reached(b, u, b, v, 0) && !ReachedLarge(b, u, v, 0)
    ensures forall a, b, u :: !Reached(b, u, a, v, 0)
  {}

  lemma ReachedMore(b: AS, u: nat, a: AS, v: nat, i: nat, n: nat)
    requires Reached(b, u, a, v, i) && i <= n
    ensures Reached(b, u, a, v, n)
  {
    hide Dist;
  }

  /** The address and the physical page of turn i. */
  lemma TurnPage(virt: nat, i: nat)
    ensures Vpn(Plus(virt, Int32(PGSIZE * i))) == Shift(Vpn(virt), Delta(i, INT_PAGES))
    ensures Int32(PGSIZE * i) / PGSIZE == Delta(i, INT_PAGES)
  {
    hide Int32, Delta, Vpn, Plus, Shift;
    SmallProduct(i);
    VpnPlus(virt, Delta(i, INT_PAGES));
  }

  lemma FirstTurn(v: nat)
    requires v < PAGES
    ensures Shift(v, Delta(0, INT_PAGES)) == v
  {}

  lemma TurnSlot(virt: nat, i: nat)
    ensures Vpn(Plus(virt, Int32(LARGE_PGSIZE * i))) == Shift(Vpn(virt), ENTRIES * Delta(i, INT_LARGE))
    ensures Int32(LARGE_PGSIZE * i) / PGSIZE == ENTRIES * Delta(i, INT_LARGE)
  {
    hide Int32, Delta, Vpn, Plus, Shift;
    LargeProduct(i);
    VpnPlus(virt, ENTRIES * Delta(i, INT_LARGE));
  }

  /** Turn i reaches its own page, for the first time unless the counter has been around. */
  lemma TurnReaches(a: AS, v: nat, i: nat)
    requires v < PAGES
    ensures var w := Shift(v, Delta(i, INT_PAGES));
      && Dist(v, w) == Delta(i, INT_PAGES) && Reached(a, w, a, v, i + 1)
      && (Reached(a, w, a, v, i) <==> i >= 2 * INT_PAGES)
  {
    hide Dist, Shift;
    var d := Delta(i, INT_PAGES);
    DistShift(v, Shift(v, d), d);
    if i < INT_PAGES {
      ModNone(i + INT_PAGES, 2 * INT_PAGES);
    } else if i < 2 * INT_PAGES {
      ModOnce(i + INT_PAGES, 2 * INT_PAGES);
    }
  }

  lemma FramesApart(phys: nat, d: int, e: int)
    requires 0 - HALF <= d < HALF && 0 - HALF <= e < HALF && d != e
    ensures FrameAt(phys, d) != FrameAt(phys, e)
  {}

  /** Once the counter has been around, all pages have been reached. */
  lemma AroundReached(b: AS, u: nat, a: AS, v: nat, i: nat)
    requires Reached(b, u, a, v, i + 1) && i >= 2 * INT_PAGES
    ensures Reached(b, u, a, v, i)
  {
    hide Dist;
  }

  // ---------------------------------------------------------------- the direct map

  const DIRECT_REACHED: nat := 0x18_0000   // pages in 6GB

  /** What a call of PMap_SystemLMap for the direct map, from physical page phys on, makes of the
      translation of page u. */
  function Redirected(leaf: Leaf, u: nat, phys: nat, lpages: nat, flags: set<Flag>): Leaf {
    if ReachedLarge(System, u, HALF + phys, lpages) then Large(LargeEntry(phys, Dist(HALF + phys, u), flags)) else leaf
  }

  /** What PMap_Init makes of it.  The direct map covers 6GB, all of it cached; 1GB below it, in
      the user half, leads to physical addresses that do not exist. */
  ghost predicate Initial(leaf: Leaf, u: nat) {
    if HALF <= u < HALF + DIRECT_REACHED then Direct(leaf, u) && leaf.e.flags == {P, W, PS}
    else if HALF - 0x8_0000 <= u < HALF - 0x4_0000 then
      leaf == Large(PageEntry(FRAMES - HALF + u / ENTRIES * ENTRIES, {P, W, PS}))
    else leaf == Absent
  }

  lemma InitialIs(u: nat)
    requires u < PAGES
    ensures var first := Redirected(Absent, u, 0, 3 * 512, {});
      Initial(Redirected(Redirected(first, u, 0xC_0000, 512, {NX, PCD}), u, 0x10_0000, 60 * 512, {}), u)
  {
    DistOf(HALF, u);
    DistOf(HALF + 0xC_0000, u);
    DistOf(HALF + 0x10_0000, u);
    assert {P, W, PS} + {} == {P, W, PS};
  }

  lemma DistOf(v: nat, u: nat)
    requires HALF <= v < HALF + DIRECT_PAGES && u < PAGES
    ensures Dist(v, u) == if u - v < HALF then if u - v >= 0 - HALF then u - v else u - v + PAGES else u - v - PAGES
  {}

  /** Of the 64GB that PMap_Init means to map, exactly the first 6 are. */
  lemma DirectIff(leaf: Leaf, pa: nat)
    requires pa < DIRECT_PAGES * PGSIZE && Initial(leaf, Vpn(MEM_DIRECTMAP_BASE + pa))
    ensures !leaf.Absent? && Physical(leaf, MEM_DIRECTMAP_BASE + pa) == pa <==> pa < DIRECT_REACHED * PGSIZE
  {
    DirectVpn(pa);
    if pa < DIRECT_REACHED * PGSIZE {
      DirectIdentity(leaf, pa);
    }
  }
}
