/** Operations on address spaces (sys/amd64/pmap.c) over the page allocator. */
module PMap {
  import opened Common
  import opened PageAlloc
  import opened PageTables
  import opened PageLedger
  import opened PageRanges
  import opened Teardown

  /** A page can be mapped exactly if there are free pages for the missing tables. */
  predicate TablesFor(ok: bool, before: nat, after: nat, missing: nat) {
    (ok <==> before >= missing) && (ok ==> after == before - missing)
  }

  class PMap {
    const palloc: PAlloc
    var mem: Memory
    var roots: map<AS, nat>
    ghost var lay: Layout
    ghost var ledger: Ledger

    ghost predicate Valid()
      reads this, palloc
    {
      && palloc.Valid()
      && WF(mem, lay) && Rooted(lay, roots) && UpperFilled(mem, roots)
      && Ledgered(mem, lay, roots, ledger)
      && Covered(ledger, palloc.refCount, palloc.managed)
    }

    constructor (palloc: PAlloc)
      requires palloc.Valid()
      ensures this.palloc == palloc && mem == map[] && roots == map[] && lay == Layout(map[], map[]) && ledger == map[]
    {
      this.palloc := palloc;
      mem, roots := map[], map[];
      lay, ledger := Layout(map[], map[]), map[];
    }

    /** The translation of page v in address space a. */
    function Look(a: AS, v: nat): Leaf
      requires a in roots
      reads this
    {
      Walk(mem, roots[a], 0, v)
    }

    ghost predicate Spare(f: nat)
      reads this, palloc
    {
      f in palloc.managed && f in palloc.refCount && |Refs(ledger, f)| < palloc.refCount[f]
    }

    /** Table t is the lev-th on v's path in address space a. */
    ghost predicate OnPath(a: AS, v: nat, t: nat, lev: nat)
      reads this
    {
      && a in roots && v < PAGES && lev <= 3
      && t in mem && |mem[t]| == ENTRIES && t in lay.place && lay.place[t] == PlaceAt(a, lev, v)
      && Reach(mem, roots[a], 0, v, t, lev)
    }

    /** One level of PMapLookupEntry: follow slot x, hanging a new table if it is empty. */
    method Descend(t: nat, x: nat, ghost a: AS, ghost v: nat, ghost lev: nat) returns (c: Option<nat>)
      requires Valid() && OnPath(a, v, t, lev) && lev < 3 && x == Idx(lev, v)
      requires lev == 2 ==> PS !in mem[t][x].flags
      modifies this`mem, this`lay, this`ledger, palloc
      ensures Valid() && palloc.managed == old(palloc.managed)
      ensures forall b, u :: b in roots && 0 <= u < PAGES ==> Look(b, u) == old(Look(b, u))
      ensures forall f :: old(Spare(f)) ==> Spare(f)
      ensures CountsKept(old(palloc.refCount), palloc.refCount)
      ensures c.Some? ==> OnPath(a, v, c.value, lev + 1)
      ensures c.None? ==> palloc.freeList == [] && |old(palloc.freeList)| < old(Missing(mem, t, lev, v))
      ensures c.Some? ==>
        |palloc.freeList| - Missing(mem, c.value, lev + 1, v) == |old(palloc.freeList)| - old(Missing(mem, t, lev, v))
    {
      hide WF, Rooted, UpperFilled, Ledgered, Covered, Walk, Reach, Hang;
      SlotFacts(mem, lay, t, x);
      ChildAt(a, lev, v);
      if mem[t][x] == ZERO {
        var pg := palloc.AllocPage();
        if pg.None? {
          return None;
        }
        assert palloc.refCount[pg.value := 0] == old(palloc.refCount);
        Link(t, x, pg.value, {P, W, U}, a, v, lev);
        assert mem[t][x] == PageEntry(pg.value, {P, W, U});
      }
      c := Some(mem[t][x].frame);
      SlotFacts(mem, lay, t, x);
      SlotFacts(mem, lay, c.value, x);
      ReachStep(mem, roots[a], 0, v, t, lev);
    }

    /** Everything in Valid except that the kernel half is filled. */
    ghost predicate Sound()
      reads this, palloc
    {
      && palloc.Valid()
      && WF(mem, lay) && Rooted(lay, roots) && Ledgered(mem, lay, roots, ledger)
      && Covered(ledger, palloc.refCount, palloc.managed)
    }

    /** Hang the newly allocated page n, zeroed, under the empty slot x of t. */
    method Link(t: nat, x: nat, n: nat, flags: set<Flag>, ghost a: AS, ghost v: nat, ghost lev: nat)
      requires palloc.Valid() && WF(mem, lay) && Rooted(lay, roots) && Ledgered(mem, lay, roots, ledger)
      requires UpperFilled(mem, roots) || roots.Keys == {System}
      requires n in palloc.managed && palloc.refCount[n] == 1
      requires Covered(ledger, palloc.refCount[n := 0], palloc.managed)
      requires OnPath(a, v, t, lev) && lev < 3 && x == Idx(lev, v) && mem[t][x] == ZERO
      requires P in flags && PS !in flags
      modifies this`mem, this`lay, this`ledger
      ensures Sound() && OnPath(a, v, t, lev) && n !in old(lay).place
      ensures mem == Put(old(mem)[n := Zeros()], t, x, PageEntry(n, flags))
      ensures old(UpperFilled(mem, roots)) ==> UpperFilled(mem, roots)
      ensures forall b, u :: b in roots && 0 <= u < PAGES ==> Look(b, u) == old(Look(b, u))
      ensures forall f :: f != n && old(Spare(f)) ==> Spare(f)
    {
      hide WF, Rooted, UpperFilled, Ledgered, Walk, Reach, Hang;
      ghost var lay0, ledger0 := lay, ledger;
      ghost var c := Child(lay.place[t], x);
      var e := PageEntry(n, flags);
      Unheld(mem, lay, roots, ledger, palloc.refCount, palloc.managed, n);
      LinkKeeps(mem, lay, roots, ledger, t, x, n, e);
      LinkLooks(mem, lay, roots, t, x, n, e);
      LinkReach(mem, lay, roots, t, x, n, e, a, v, lev);
      CoveredAdd(ledger, palloc.refCount[n := 0], palloc.managed, At(c), n, palloc.refCount);
      mem := Put(mem[n := Zeros()], t, x, e);
      lay := Hang(lay, t, x, n);
      ledger := ledger[At(c) := n];
      SlotFacts(mem, lay, t, x);
      forall f | f != n && old(Spare(f)) ensures Spare(f) {
        RefsAdd(ledger0, At(c), n, f);
      }
    }

    /** PMapLookupEntry: the slot for va, or None when a table could not be allocated. */
    method LookupEntry(a: AS, va: nat, large: bool) returns (slot: Option<(nat, nat)>)
      requires Valid() && a in roots
      requires !large ==> !Look(a, Vpn(va)).Large?
      modifies this`mem, this`lay, this`ledger, palloc
      ensures Valid() && palloc.managed == old(palloc.managed)
      ensures forall b, u :: b in roots && 0 <= u < PAGES ==> Look(b, u) == old(Look(b, u))
      ensures forall f :: old(Spare(f)) ==> Spare(f)
      ensures CountsKept(old(palloc.refCount), palloc.refCount)
      ensures slot.None? ==> palloc.freeList == []
      ensures !large ==>
        var missing := old(Missing(mem, roots[a], 0, Vpn(va)));
        && (slot.None? <==> |old(palloc.freeList)| < missing)
        && (slot.Some? ==> |palloc.freeList| == |old(palloc.freeList)| - missing)
      ensures slot.Some? ==>
        && OnPath(a, Vpn(va), slot.value.0, if large then 2 else 3)
        && slot.value.1 == Idx(if large then 2 else 3, Vpn(va))
    {
      hide WF, Rooted, UpperFilled, Ledgered, Covered, Walk, Reach, Num, SlotOk;
      ghost var v := Vpn(va);
      Digits(va);
      RootFacts(mem, lay, roots, a, v);
      var t1 := Descend(roots[a], va / ROOT_SPAN % ENTRIES, a, v, 0);
      if t1.None? {
        return None;
      }
      var t2 := Descend(t1.value, va / HUGE_PGSIZE % ENTRIES, a, v, 1);
      if t2.None? {
        return None;
      }
      if large {
        return Some((t2.value, va / LARGE_PGSIZE % ENTRIES));
      }
      NotLarge(a, v, t2.value);
      var t3 := Descend(t2.value, va / LARGE_PGSIZE % ENTRIES, a, v, 2);
      if t3.None? {
        return None;
      }
      slot := Some((t3.value, va / PGSIZE % ENTRIES));
    }

    lemma NotLarge(a: AS, v: nat, t: nat)
      requires OnPath(a, v, t, 2) && !Look(a, v).Large?
      ensures PS !in mem[t][Idx(2, v)].flags
    {
      hide Reach, Num;
      ReachWalk(mem, roots[a], 0, v, t, 2);
    }

    /** Store a leaf entry through the pointer PMapLookupEntry returned. */
    method WriteEntry(t: nat, x: nat, e: PageEntry, ghost a: AS, ghost v: nat, ghost lev: nat)
      requires Valid() && OnPath(a, v, t, lev) && 2 <= lev <= 3 && x == Idx(lev, v)
      requires P in e.flags && (lev == 2 ==> PS in e.flags && a == System)
      requires lev == 3 && a.Proc? && v < HALF ==> Spare(e.frame)
      modifies this`mem, this`ledger
      ensures Valid()
      ensures forall b, u :: b in roots && 0 <= u < PAGES ==>
        Look(b, u) == if PlaceAt(b, lev + 1, u) == PlaceAt(a, lev + 1, v) then LeafOf(lev, e) else old(Look(b, u))
      ensures forall f :: f != e.frame && old(Spare(f)) ==> Spare(f)
    {
      hide WF, Rooted, UpperFilled, Ledgered, Walk, Reach, Num;
      PutLeafLooks(mem, lay, roots, a, v, t, lev, e);
      PutLeafTree(mem, lay, roots, t, x, e);
      PutLeafLedger(mem, lay, roots, ledger, t, x, e);
      ghost var r := At(Child(lay.place[t], x));
      ghost var ledger0 := ledger;
      if UserTable(lay.place[t]) {
        CoveredAdd(ledger, palloc.refCount, palloc.managed, r, e.frame, palloc.refCount);
      }
      ledger := LeafLedger(lay, ledger, t, x, e);
      mem := Put(mem, t, x, e);
      forall f | f != e.frame && old(Spare(f)) ensures Spare(f) {
        RefsAdd(ledger0, r, e.frame, f);
      }
    }
  
    /** The loop shared by PMap_Map and PMap_SystemMap.  The page at distance d, for every
        distance the turns reach, is mapped to the physical page at the same distance from
        phys; n counts the turns taken before stopping. */
    method MapPages(a: AS, phys: nat, virt: nat, pages: nat, flags: set<Flag>) returns (ok: bool, ghost n: nat)
      requires Valid() && a in roots && P in flags && MayMap(a, Vpn(virt), pages)
      requires a.Proc? ==> SparesFrom(a, phys, Vpn(virt), 0, pages)
      modifies this`mem, this`lay, this`ledger, palloc
      ensures Valid() && palloc.managed == old(palloc.managed)
      ensures n <= Turns(pages) && (ok <==> n == Turns(pages)) && (!ok ==> palloc.freeList == [])
      ensures pages == 1 ==>
        TablesFor(ok, |old(palloc.freeList)|, |palloc.freeList|, old(Missing(mem, roots[a], 0, Vpn(virt))))
      ensures forall b, u :: b in roots && 0 <= u < PAGES ==>
        Look(b, u) ==
          if Reached(b, u, a, Vpn(virt), n) then Small(PageEntry(FrameAt(phys, Dist(Vpn(virt), u)), flags))
          else old(Look(b, u))
    {
      hide WF, Rooted, UpperFilled, Ledgered, Covered, Walk, Reach, Num, Vpn, Refs, OnPath;
      hide Int32, Plus, Delta, Hit, Dist, Shift, Reached, FrameAt, Missing, MayMap;
      ghost var v := Vpn(virt);
      forall i | 0 <= i < pages ensures !Look(a, Shift(v, Delta(i, INT_PAGES))).Large? {
        MayMapAt(a, v, i, pages);
      }
      var i := 0;
      NoneReached(v);
      while i < Turns(pages)
        invariant i <= Turns(pages)
        invariant Valid() && palloc.managed == old(palloc.managed)
        invariant i == 0 ==> mem == old(mem) && palloc.freeList == old(palloc.freeList)
        invariant i == 1 ==>
          TablesFor(true, |old(palloc.freeList)|, |palloc.freeList|, old(Missing(mem, roots[a], 0, Vpn(virt))))
        invariant a.Proc? ==> SparesFrom(a, phys, v, i, pages)
        invariant forall b, u :: b in roots && 0 <= u < PAGES ==>
          Look(b, u) ==
            if Reached(b, u, a, v, i) then Small(PageEntry(FrameAt(phys, Dist(v, u)), flags)) else old(Look(b, u))
      {
        ghost var d := Delta(i, INT_PAGES);
        ghost var w := Shift(v, d);
        TurnPage(virt, i);
        FirstTurn(v);
        assert !old(Look(a, w)).Large?;
        var va, frame := Plus(virt, Int32(PGSIZE * i)), FrameAt(phys, Int32(PGSIZE * i) / PGSIZE);
        var slot := LookupEntry(a, va, false);
        if slot.None? {
          return false, i;
        }
        MapTurn(slot.value.0, slot.value.1, PageEntry(frame, flags), i, a, phys, v, pages);
        forall b, u | b in roots && 0 <= u < PAGES
          ensures Look(b, u) ==
            if Reached(b, u, a, v, i + 1) then Small(PageEntry(FrameAt(phys, Dist(v, u)), flags)) else old(Look(b, u))
        {
          ReachedStep(b, u, a, v, i);
        }
        i := i + 1;
      }
      ok, n := true, Turns(pages);
    }

    /** None of the pages the turns reach is part of a 2MB page. */
    ghost predicate MayMap(a: AS, v: nat, pages: nat)
      requires a in roots
      reads this
    {
      forall u :: 0 <= u < PAGES && Reached(a, u, a, v, pages) ==> !Look(a, u).Large?
    }

    /** From turn i on, there is a reference to spare for every user page still to be reached. */
    ghost predicate SparesFrom(a: AS, phys: nat, v: nat, i: nat, pages: nat)
      reads this, palloc
    {
      forall u :: 0 <= u < HALF && Reached(a, u, a, v, pages) && !Reached(a, u, a, v, i) ==>
        Spare(FrameAt(phys, Dist(v, u)))
    }

    lemma MayMapAt(a: AS, v: nat, i: nat, pages: nat)
      requires a in roots && v < PAGES && i < pages && MayMap(a, v, pages)
      ensures !Look(a, Shift(v, Delta(i, INT_PAGES))).Large?
    {
      hide Walk, Reached, Shift, Delta, Dist;
      TurnReaches(a, v, i);
      ReachedMore(a, Shift(v, Delta(i, INT_PAGES)), a, v, i + 1, pages);
    }

    /** The pages the first n turns reach are mapped. */
    ghost predicate MappedSo(a: AS, phys: nat, v: nat, n: nat, flags: set<Flag>)
      reads this
    {
      forall b, u :: b in roots && 0 <= u < PAGES && Reached(b, u, a, v, n) ==>
        Look(b, u) == Small(PageEntry(FrameAt(phys, Dist(v, u)), flags))
    }

    /** Turn i stores its entry: once the counter has been around, the one that is there. */
    method MapTurn(t: nat, x: nat, e: PageEntry, i: nat, ghost a: AS, ghost phys: nat, ghost v: nat, ghost pages: nat)
      requires Valid() && v < PAGES && i < pages && P in e.flags
      requires e.frame == FrameAt(phys, Delta(i, INT_PAGES)) && OnPath(a, Shift(v, Delta(i, INT_PAGES)), t, 3)
      requires x == Idx(3, Shift(v, Delta(i, INT_PAGES)))
      requires a in roots && MappedSo(a, phys, v, i, e.flags) && (a.Proc? ==> SparesFrom(a, phys, v, i, pages))
      modifies this`mem, this`ledger
      ensures Valid() && (a.Proc? ==> SparesFrom(a, phys, v, i + 1, pages))
      ensures forall b, u :: b in roots && 0 <= u < PAGES ==>
        Look(b, u) == if InRange(b, u, a, Shift(v, Delta(i, INT_PAGES)), 1) then Small(e) else old(Look(b, u))
    {
      hide WF, Rooted, UpperFilled, Ledgered, Covered, Walk, Reach, Num, Refs, OnPath;
      hide Delta, Hit, Dist, Shift, Reached, FrameAt, Spare;
      ghost var w := Shift(v, Delta(i, INT_PAGES));
      TurnReaches(a, v, i);
      PageKeys(a, w);
      if i < 2 * INT_PAGES {
        if a.Proc? && w < HALF {
          ReachedMore(a, w, a, v, i + 1, pages);
        }
        WriteEntry(t, x, e, a, w, 3);
      } else {
        assert Look(a, w) == Small(e);
        SameEntry(a, w, t, e);
        assert mem[t][x] == e;
      }
      if a.Proc? {
        forall u | 0 <= u < HALF && Reached(a, u, a, v, pages) && !Reached(a, u, a, v, i + 1)
          ensures Spare(FrameAt(phys, Dist(v, u)))
        {
          ReachedStep(a, u, a, v, i);
          DistShift(v, u, Delta(i, INT_PAGES));
          FramesApart(phys, Dist(v, u), Delta(i, INT_PAGES));
        }
      }
      forall b, u | b in roots && 0 <= u < PAGES && i >= 2 * INT_PAGES && InRange(b, u, a, w, 1)
        ensures old(Look(b, u)) == Small(e)
      {
        ReachedStep(b, u, a, v, i);
        AroundReached(b, u, a, v, i);
      }
    }

    /** A page that translates by an entry has it in its slot. */
    lemma SameEntry(a: AS, v: nat, t: nat, e: PageEntry)
      requires WF(mem, lay) && OnPath(a, v, t, 3) && Look(a, v) == Small(e)
      ensures t in mem && Idx(3, v) < |mem[t]| && mem[t][Idx(3, v)] == e
    {
      hide WF, Reach, Num;
      ReachWalk(mem, roots[a], 0, v, t, 3);
      SlotFacts(mem, lay, t, Idx(3, v));
    }

    /** PMap_Map. */
    method Map(a: AS, phys: nat, virt: nat, pages: nat, flags: set<Flag>) returns (ok: bool, ghost n: nat)
      requires Valid() && a in roots && MayMap(a, Vpn(virt), pages)
      requires a.Proc? ==> SparesFrom(a, phys, Vpn(virt), 0, pages)
      modifies this`mem, this`lay, this`ledger, palloc
      ensures Valid() && palloc.managed == old(palloc.managed)
      ensures n <= Turns(pages) && (ok <==> n == Turns(pages)) && (!ok ==> palloc.freeList == [])
      ensures forall b, u :: b in roots && 0 <= u < PAGES ==>
        Look(b, u) == if Reached(b, u, a, Vpn(virt), n)
          then Small(PageEntry(FrameAt(phys, Dist(Vpn(virt), u)), {P, W, U} + flags)) else old(Look(b, u))
    {
      hide *;
      ok, n := MapPages(a, phys, virt, pages, {P, W, U} + flags);
    }

    /** PMap_SystemMap. */
    method SystemMap(phys: nat, virt: nat, pages: nat, flags: set<Flag>) returns (ok: bool, ghost n: nat)
      requires Valid() && System in roots && MayMap(System, Vpn(virt), pages)
      modifies this`mem, this`lay, this`ledger, palloc
      ensures Valid() && palloc.managed == old(palloc.managed)
      ensures n <= Turns(pages) && (ok <==> n == Turns(pages)) && (!ok ==> palloc.freeList == [])
      ensures pages == 1 ==>
        TablesFor(ok, |old(palloc.freeList)|, |palloc.freeList|, old(Missing(mem, roots[System], 0, Vpn(virt))))
      ensures forall b, u :: b in roots && 0 <= u < PAGES ==>
        Look(b, u) == if Reached(b, u, System, Vpn(virt), n)
          then Small(PageEntry(FrameAt(phys, Dist(Vpn(virt), u)), {P, W} + flags)) else old(Look(b, u))
    {
      hide *;
      ok, n := MapPages(System, phys, virt, pages, {P, W} + flags);
    }

    /** PMap_SystemLMap maps whole 2MB slots; it replaces whatever a slot held. */
    method SystemLMap(phys: nat, virt: nat, lpages: nat, flags: set<Flag>) returns (ok: bool, ghost n: nat)
      requires Valid() && System in roots && Vpn(virt) % ENTRIES == 0
      modifies this`mem, this`lay, this`ledger, palloc
      ensures Valid() && palloc.managed == old(palloc.managed)
      ensures n <= Turns(lpages) && (ok <==> n == Turns(lpages)) && (!ok ==> palloc.freeList == [])
      ensures forall b, u :: b in roots && 0 <= u < PAGES ==>
        Look(b, u) == if ReachedLarge(b, u, Vpn(virt), n)
          then Large(LargeEntry(phys, Dist(Vpn(virt), u), flags)) else old(Look(b, u))
    {
      hide WF, Rooted, UpperFilled, Ledgered, Covered, Walk, Reach, Num, Vpn, Refs, OnPath;
      hide Int32, Plus, Delta, Hit, Dist, Shift, ReachedLarge, FrameAt;
      ghost var v := Vpn(virt);
      var i := 0;
      NoneReached(v);
      while i < Turns(lpages)
        invariant i <= Turns(lpages)
        invariant Valid() && palloc.managed == old(palloc.managed)
        invariant forall b, u :: b in roots && 0 <= u < PAGES ==>
          Look(b, u) ==
            if ReachedLarge(b, u, v, i) then Large(LargeEntry(phys, Dist(v, u), flags)) else old(Look(b, u))
      {
        ghost var d := Delta(i, INT_LARGE);
        ghost var w := Shift(v, ENTRIES * d);
        TurnSlot(virt, i);
        SlotDist(v, 0, d);
        var va, frame := Plus(virt, Int32(LARGE_PGSIZE * i)), FrameAt(phys, Int32(LARGE_PGSIZE * i) / PGSIZE);
        var slot := LookupEntry(System, va, true);
        if slot.None? {
          return false, i;
        }
        SlotKeys(System, w);
        WriteEntry(slot.value.0, slot.value.1, PageEntry(frame, {P, W, PS} + flags), System, w, 2);
        forall b, u | b in roots && 0 <= u < PAGES
          ensures Look(b, u) ==
            if ReachedLarge(b, u, v, i + 1) then Large(LargeEntry(phys, Dist(v, u), flags)) else old(Look(b, u))
        {
          ReachedLargeStep(b, u, v, i);
        }
        i := i + 1;
      }
      ok, n := true, Turns(lpages);
    }

    /** PMap_Translate.  None stands for the assertions on missing tables; an empty entry
        of a present last-level table is not noticed and translates to page 0. */
    method Translate(a: AS, va: nat) returns (pa: Option<nat>)
      requires Valid() && a in roots
      ensures !Look(a, Vpn(va)).Absent? ==> pa == Some(Physical(Look(a, Vpn(va)), va))
      ensures Look(a, Vpn(va)).Absent? ==>
        pa == if Tabled(mem, roots[a], 0, Vpn(va)) then Some(va % PGSIZE) else None
    {
      hide WF, Rooted, UpperFilled, Ledgered, Covered, Num, Refs;
      Digits(va);
      ghost var v := Vpn(va);
      RootFacts(mem, lay, roots, a, v);
      SlotFacts(mem, lay, roots[a], Idx(0, v));
      var pte := mem[roots[a]][va / ROOT_SPAN % ENTRIES];
      if pte == ZERO {
        return None;
      }
      var t1 := pte.frame;
      SlotFacts(mem, lay, t1, Idx(1, v));
      pte := mem[t1][va / HUGE_PGSIZE % ENTRIES];
      if pte == ZERO {
        return None;
      }
      var t2 := pte.frame;
      SlotFacts(mem, lay, t2, Idx(2, v));
      pte := mem[t2][va / LARGE_PGSIZE % ENTRIES];
      if PS in pte.flags {
        return Some(pte.frame / ENTRIES * LARGE_PGSIZE + va % LARGE_PGSIZE);
      }
      if pte == ZERO {
        return None;
      }
      var t3 := pte.frame;
      SlotFacts(mem, lay, t3, Idx(3, v));
      pte := mem[t3][va / PGSIZE % ENTRIES];
      return Some(pte.frame * PGSIZE + va % PGSIZE);
    }
  
    /** One turn of PMap_AllocMap: a page that is not present gets a fresh zeroed page. */
    method AllocOne(a: AS, va: nat, flags: set<Flag>) returns (ok: bool, ghost backed: Option<nat>)
      requires Valid() && a in roots && P in flags && !Look(a, Vpn(va)).Large?
      modifies this`mem, this`lay, this`ledger, palloc
      ensures Valid() && palloc.managed == old(palloc.managed)
      ensures CountsKept(old(palloc.refCount), palloc.refCount)
      ensures ok ==> (backed.Some? <==> old(Look(a, Vpn(va))).Absent?)
      ensures !ok ==> backed.None? && palloc.freeList == []
      ensures backed.Some? ==>
        && backed.value in palloc.managed
        && old(palloc.refCount)[backed.value] == 0 && palloc.refCount[backed.value] > 0
      ensures forall b, u :: b in roots && 0 <= u < PAGES ==>
        Look(b, u) ==
          if backed.Some? && InRange(b, u, a, Vpn(va), 1) then Small(PageEntry(backed.value, flags))
          else old(Look(b, u))
    {
      hide WF, Rooted, UpperFilled, Ledgered, Walk, Reach, Num, Vpn;
      ghost var v := Vpn(va);
      backed := None;
      var slot := LookupEntry(a, va, false);
      if slot.None? {
        return false, None;
      }
      var t, x := slot.value.0, slot.value.1;
      Presence(a, v, t);
      if P !in mem[t][x].flags {
        ghost var counts := palloc.refCount;
        var pg := palloc.AllocPage();
        if pg.None? {
          return false, None;
        }
        CoveredMore(ledger, counts, palloc.managed, pg.value);
        PageKeys(a, v);
        WriteEntry(t, x, PageEntry(pg.value, flags), a, v, 3);
        backed := Some(pg.value);
      }
      ok := true;
    }

    /** The present bit of the last-level entry says whether the page is mapped. */
    lemma Presence(a: AS, v: nat, t: nat)
      requires WF(mem, lay) && OnPath(a, v, t, 3)
      ensures P in mem[t][Idx(3, v)].flags <==> Look(a, v).Small?
      ensures P !in mem[t][Idx(3, v)].flags <==> Look(a, v).Absent?
    {
      hide WF, Reach, Num;
      ReachWalk(mem, roots[a], 0, v, t, 3);
      SlotFacts(mem, lay, t, Idx(3, v));
    }

    /** PMap_AllocMap.  backed gives the pages it backed: exactly those that were absent
        among the pages the first n turns reach, each with a page that was free, no two with
        the same. */
    method AllocMap(a: AS, virt: nat, len: nat, flags: set<Flag>)
      returns (ok: bool, ghost n: nat, ghost backed: map<nat, nat>)
      requires Valid() && a in roots && virt % PGSIZE == 0 && MayMap(a, Vpn(virt), PagesOf(len))
      modifies this`mem, this`lay, this`ledger, palloc
      ensures Valid() && palloc.managed == old(palloc.managed)
      ensures CountsKept(old(palloc.refCount), palloc.refCount)
      ensures n <= Turns(PagesOf(len)) && (ok <==> n == Turns(PagesOf(len)))
      ensures !ok ==> palloc.freeList == []
      ensures forall u :: u in backed <==> 0 <= u < PAGES && Reached(a, u, a, Vpn(virt), n) && old(Look(a, u)).Absent?
      ensures Backing(backed, old(palloc.refCount), palloc.refCount, palloc.managed)
      ensures forall b, u :: b in roots && 0 <= u < PAGES ==>
        Look(b, u) == if u in backed && OwnerAt(b, 3, u) == OwnerAt(a, 3, u)
          then Small(PageEntry(backed[u], {P, U} + flags)) else old(Look(b, u))
    {
      hide WF, Rooted, UpperFilled, Ledgered, Covered, Walk, Reach, Num, Vpn, Refs, OnPath, Backing, CountsKept;
      hide Int32, Plus, Delta, Hit, Dist, Shift, Reached, MayMap, PagesOf;
      ghost var v := Vpn(virt);
      var pages := PagesOf(len);
      forall i | 0 <= i < pages ensures !Look(a, Shift(v, Delta(i, INT_PAGES))).Large? {
        MayMapAt(a, v, i, pages);
      }
      var i := 0;
      backed := map[];
      NoneReached(v);
      NoBacking(palloc.refCount, palloc.managed);
      while i < Turns(pages)
        invariant i <= Turns(pages)
        invariant Valid() && palloc.managed == old(palloc.managed)
        invariant CountsKept(old(palloc.refCount), palloc.refCount)
        invariant forall u :: u in backed <==> 0 <= u < PAGES && Reached(a, u, a, v, i) && old(Look(a, u)).Absent?
        invariant Backing(backed, old(palloc.refCount), palloc.refCount, palloc.managed)
        invariant forall b, u :: b in roots && 0 <= u < PAGES ==>
          Look(b, u) == if u in backed && OwnerAt(b, 3, u) == OwnerAt(a, 3, u)
            then Small(PageEntry(backed[u], {P, U} + flags)) else old(Look(b, u))
      {
        ghost var w := Shift(v, Delta(i, INT_PAGES));
        TurnPage(virt, i);
        assert !old(Look(a, w)).Large?;
        assert Look(a, w).Absent? <==> w !in backed && old(Look(a, w)).Absent?;
        ghost var got;
        ghost var counts := palloc.refCount;
        ok, got := AllocOne(a, Plus(virt, Int32(PGSIZE * i)), {P, U} + flags);
        BackingStep(backed, old(palloc.refCount), counts, palloc.refCount, palloc.managed, w, got);
        if !ok {
          return false, i, backed;
        }
        forall u | 0 <= u < PAGES ensures Reached(a, u, a, v, i + 1) <==> Reached(a, u, a, v, i) || u == w {
          ReachedStep(a, u, a, v, i);
        }
        assert w in backed ==> Reached(a, w, a, v, i);
        if got.Some? {
          backed := backed[w := got.value];
        }
        i := i + 1;
      }
      ok, n := true, Turns(pages);
    }

    /** The first half of PMap_Init: the system root with a table under every kernel-half
        entry.  False stands for the panics on a failed allocation. */
    method InitRoot() returns (ok: bool)
      requires palloc.Valid() && mem == map[] && roots == map[] && ledger == map[]
      modifies this, palloc
      ensures ok ==> Valid() && roots.Keys == {System} && forall u :: 0 <= u < PAGES ==> Look(System, u) == Absent
      ensures palloc.managed == old(palloc.managed)
      ensures !ok ==> palloc.freeList == []
    {
      hide WF, Rooted, UpperFilled, Ledgered, Walk, Reach, Num;
      var pg := palloc.AllocPage();
      if pg.None? {
        return false;
      }
      var r := pg.value;
      mem, roots := map[r := Zeros()], map[System := r];
      lay, ledger := Layout(map[r := SystemRoot()], map[SystemRoot() := r]), map[At(SystemRoot()) := r];
      FirstRoot(r);
      FirstLedger(old(palloc.refCount), palloc.managed, r);
      forall u | 0 <= u < PAGES ensures Look(System, u) == Absent {
        FirstWalk(r, u);
      }
      ok := FillUpper();
    }

    /** PMap_Init's loop over the kernel half of the root. */
    method FillUpper() returns (ok: bool)
      requires Sound() && roots.Keys == {System}
      requires roots[System] in mem && mem[roots[System]] == Zeros()
      requires forall u :: 0 <= u < PAGES ==> Look(System, u) == Absent
      modifies this`mem, this`lay, this`ledger, palloc
      ensures ok ==> Valid() && forall u :: 0 <= u < PAGES ==> Look(System, u) == Absent
      ensures palloc.managed == old(palloc.managed)
      ensures !ok ==> palloc.freeList == []
    {
      hide WF, Rooted, UpperFilled, Ledgered, Covered, Walk, Reach, Num, Refs;
      var r, x := roots[System], ENTRIES / 2;
      while x < ENTRIES
        invariant ENTRIES / 2 <= x <= ENTRIES
        invariant Sound() && palloc.managed == old(palloc.managed)
        invariant r in mem && |mem[r]| == ENTRIES
        invariant forall y :: ENTRIES / 2 <= y < x ==> Filled(mem, r, y)
        invariant forall y :: x <= y < ENTRIES ==> mem[r][y] == ZERO
        invariant forall u :: 0 <= u < PAGES ==> Look(System, u) == Absent
      {
        ghost var counts := palloc.refCount;
        var pg := palloc.AllocPage();
        if pg.None? {
          return false;
        }
        assert palloc.refCount[pg.value := 0] == counts;
        RootSlot(x);
        RootFacts(mem, lay, roots, System, x * 0x800_0000);
        ghost var mem0 := mem;
        Link(r, x, pg.value, {P, W}, System, x * 0x800_0000, 0);
        forall y | ENTRIES / 2 <= y <= x ensures Filled(mem, r, y) {
          assert y < x ==> Filled(mem0, r, y);
        }
        x := x + 1;
      }
      UpperOfOne(mem, roots);
      ok := true;
    }

    /** One of PMap_Init's calls that build the direct map, from physical page phys on. */
    method MapDirect(phys: nat, lpages: nat, flags: set<Flag>) returns (ok: bool)
      requires Valid() && System in roots && phys % ENTRIES == 0 && phys <= DIRECT_PAGES && lpages <= INT_TURNS
      modifies this`mem, this`lay, this`ledger, palloc
      ensures Valid() && palloc.managed == old(palloc.managed)
      ensures !ok ==> palloc.freeList == []
      ensures ok ==> forall u :: 0 <= u < PAGES ==>
        Look(System, u) == Redirected(old(Look(System, u)), u, phys, lpages, flags)
    {
      hide WF, Rooted, UpperFilled, Ledgered, Covered, Walk, Reach, Num, Refs, Vpn, LargeEntry, ReachedLarge, Dist;
      DirectStart(phys);
      ghost var n;
      ok, n := SystemLMap(phys, MEM_DIRECTMAP_BASE + phys * PGSIZE, lpages, flags);
    }

    /** PMap_Init.  Its first and last calls are for more than 2^31 bytes. */
    method Init() returns (ok: bool)
      requires palloc.Valid() && mem == map[] && roots == map[] && ledger == map[]
      modifies this, palloc
      ensures ok ==> Valid() && roots.Keys == {System} && forall u :: 0 <= u < PAGES ==> Initial(Look(System, u), u)
      ensures !ok ==> palloc.freeList == []
    {
      hide WF, Rooted, UpperFilled, Ledgered, Covered, Walk, Reach, Num, Refs, Redirected, Initial;
      ok := InitRoot();
      if ok {
        ok := MapDirect(0, 3 * 512, {});
      }
      if ok {
        ok := MapDirect(0xC_0000, 512, {NX, PCD});
      }
      if ok {
        ok := MapDirect(0x10_0000, 60 * 512, {});
      }
      if ok {
        forall u | 0 <= u < PAGES ensures Initial(Look(System, u), u) {
          InitialIs(u);
        }
      }
    }

    /** PMap_NewAS: an empty user half under the shared kernel half. */
    method NewAS() returns (a: Option<AS>)
      requires Valid() && System in roots
      modifies this, palloc
      ensures Valid() && palloc.managed == old(palloc.managed)
      ensures a.None? <==> |old(palloc.freeList)| < 2
      ensures a.None? ==> roots == old(roots) && mem == old(mem)
      ensures a.Some? ==> a.value.Proc? && a.value !in old(roots) && roots.Keys == old(roots.Keys) + {a.value}
      ensures a.Some? ==> forall u :: 0 <= u < HALF ==> Look(a.value, u) == Absent
      ensures a.Some? ==> forall u :: HALF <= u < PAGES ==> Look(a.value, u) == Look(System, u)
      ensures forall b, u :: b in old(roots) && 0 <= u < PAGES ==> b in roots && Look(b, u) == old(Look(b, u))
    {
      hide WF, Rooted, UpperFilled, Ledgered, Walk, Reach, Num;
      ghost var counts := palloc.refCount;
      var pg := palloc.AllocPage();
      if pg.None? {
        return None;
      }
      CoveredMore(ledger, counts, palloc.managed, pg.value);
      var root := palloc.AllocPage();
      if root.None? {
        assert palloc.refCount[pg.value] == 1;
        var released := palloc.Release(pg.value);
        assert palloc.refCount == counts;
        return None;
      }
      CoveredMore(ledger, counts[pg.value := 1], palloc.managed, root.value);
      NewSpace(pg.value, root.value);
      a := Some(Proc(pg.value));
    }

    /** Record the new address space once its two pages are allocated. */
    method NewSpace(pg: nat, n: nat)
      requires Valid() && System in roots && pg != n
      requires pg in palloc.managed && palloc.refCount[pg] > 0 && Refs(ledger, pg) == {}
      requires n in palloc.managed && palloc.refCount[n] > 0 && Refs(ledger, n) == {}
      modifies this`mem, this`roots, this`lay, this`ledger
      ensures Valid()
      ensures Proc(pg) !in old(roots) && roots == old(roots)[Proc(pg) := n]
      ensures forall u :: 0 <= u < HALF ==> Look(Proc(pg), u) == Absent
      ensures forall u :: HALF <= u < PAGES ==> Look(Proc(pg), u) == Look(System, u)
      ensures forall b, u :: b in old(roots) && 0 <= u < PAGES ==> Look(b, u) == old(Look(b, u))
    {
      hide WF, Rooted, UpperFilled, Ledgered, Walk, Reach, Num;
      ghost var a := Proc(pg);
      NoSpace(mem, lay, roots, ledger, pg, n);
      RootFacts(mem, lay, roots, System, 0);
      var tab := FillRoot(mem[roots[System]]);
      AddRootLayout(lay, roots, a, n);
      AddRootWF(mem, lay, roots, a, n);
      AddRootLooks(mem, lay, roots, a, n, mem[n := tab], roots[a := n]);
      AddRootLedger(mem, lay, roots, ledger, a, n, tab);
      CoveredAdd(ledger, palloc.refCount, palloc.managed, Record(a), pg, palloc.refCount);
      RefsAdd(ledger, Record(a), pg, n);
      CoveredAdd(ledger[Record(a) := pg], palloc.refCount, palloc.managed, At(Root(a)), n, palloc.refCount);
      mem, roots := mem[n := tab], roots[Proc(pg) := n];
      lay, ledger := AddRoot(lay, a, n), ledger[Record(a) := pg][At(Root(a)) := n];
      forall u | HALF <= u < PAGES ensures Look(a, u) == Look(System, u) {
        KernelShared(mem, lay, roots, a, System, u);
      }
    }
  
    /** Give back the reference r. */
    method Drop(f: nat, ghost r: Ref)
      requires palloc.Valid() && Covered(ledger, palloc.refCount, palloc.managed) && Holds(ledger, r, f)
      modifies this`ledger, palloc
      ensures palloc.Valid() && Covered(ledger, palloc.refCount, palloc.managed)
      ensures palloc.managed == old(palloc.managed)
      ensures ledger == old(ledger) - {r}
      ensures Balanced(old(ledger), old(palloc.refCount), ledger, palloc.refCount, palloc.managed)
    {
      CoveredDrop(ledger, palloc.refCount, palloc.managed, r);
      var ok := palloc.Release(f);
      ledger := ledger - {r};
    }

    /** The nested loops of PMap_DestroyAS, one level per call: release everything below
        the first n entries of t.  The log lists what was released. */
    method ReleaseTable(t: nat, n: nat, level: nat, ghost ledger0: Ledger) returns (ghost log: seq<Ref>)
      requires palloc.Valid() && Covered(ledger, palloc.refCount, palloc.managed)
      requires WF(mem, lay) && Ledgered(mem, lay, roots, ledger0)
      requires t in mem && |mem[t]| == ENTRIES && t in lay.place && lay.place[t].level == level <= 3
      requires lay.place[t].owner.Of? && lay.place[t].owner.space.Proc?
      requires n == if level == 0 then ENTRIES / 2 else ENTRIES
      requires Agree(ledger, ledger0, SubRefs(mem, t, lay.place[t], n))
      modifies this`ledger, palloc
      ensures palloc.Valid() && Covered(ledger, palloc.refCount, palloc.managed)
      ensures palloc.managed == old(palloc.managed)
      ensures ledger == old(ledger) - SubRefs(mem, t, lay.place[t], n)
      ensures Balanced(old(ledger), old(palloc.refCount), ledger, palloc.refCount, palloc.managed)
      ensures Lists(log, SubRefs(mem, t, lay.place[t], n))
      decreases 3 - level
    {
      hide WF, Ledgered, Covered, Lists, Agree, EntryRefs, Balanced, Refs;
      ghost var p := lay.place[t];
      log := [];
      NoLog();
      BalancedSelf(ledger, palloc.refCount, palloc.managed);
      var x := 0;
      while x < n
        invariant x <= n
        invariant palloc.Valid() && Covered(ledger, palloc.refCount, palloc.managed)
        invariant palloc.managed == old(palloc.managed)
        invariant ledger == old(ledger) - SubRefs(mem, t, p, x)
        invariant Balanced(old(ledger), old(palloc.refCount), ledger, palloc.refCount, palloc.managed)
        invariant Lists(log, SubRefs(mem, t, p, x))
      {
        ghost var e := mem[t][x];
        SubStep(mem, t, p, x, n);
        AgreeMinus(old(ledger), ledger0, SubRefs(mem, t, p, n), SubRefs(mem, t, p, x), EntryRefs(mem, e, Child(p, x)));
        ghost var ledger1, counts1 := ledger, palloc.refCount;
        ghost var more := ReleaseEntry(t, x, level, ledger0);
        BalancedTrans(old(ledger), old(palloc.refCount), ledger1, counts1, ledger, palloc.refCount, palloc.managed);
        ListsAppend(log, SubRefs(mem, t, p, x), more, EntryRefs(mem, e, Child(p, x)));
        log := log + more;
        x := x + 1;
      }
    }

    method ReleaseEntry(t: nat, x: nat, level: nat, ghost ledger0: Ledger) returns (ghost log: seq<Ref>)
      requires palloc.Valid() && Covered(ledger, palloc.refCount, palloc.managed)
      requires WF(mem, lay) && Ledgered(mem, lay, roots, ledger0)
      requires t in mem && |mem[t]| == ENTRIES && t in lay.place && lay.place[t].level == level <= 3
      requires lay.place[t].owner.Of? && lay.place[t].owner.space.Proc?
      requires x < if level == 0 then ENTRIES / 2 else ENTRIES
      requires Agree(ledger, ledger0, EntryRefs(mem, mem[t][x], Child(lay.place[t], x)))
      modifies this`ledger, palloc
      ensures palloc.Valid() && Covered(ledger, palloc.refCount, palloc.managed)
      ensures palloc.managed == old(palloc.managed)
      ensures ledger == old(ledger) - EntryRefs(mem, mem[t][x], Child(lay.place[t], x))
      ensures Balanced(old(ledger), old(palloc.refCount), ledger, palloc.refCount, palloc.managed)
      ensures Lists(log, EntryRefs(mem, mem[t][x], Child(lay.place[t], x)))
      decreases 3 - level, 0
    {
      hide WF, Ledgered, Covered, Lists, SubRefs, EntryRefs, Balanced, Refs, AncNum;
      ghost var c := Child(lay.place[t], x);
      var e := mem[t][x];
      log := [];
      NoLog();
      BalancedSelf(ledger, palloc.refCount, palloc.managed);
      if P in e.flags {
        ghost var sub := if level == 3 then {} else SubRefs(mem, e.frame, c, ENTRIES);
        EntrySplit(mem, e, c, sub);
        SlotHeld(mem, lay, roots, ledger0, t, x);
        if level < 3 {
          SlotFacts(mem, lay, e.frame, 0);
          log := ReleaseTable(e.frame, ENTRIES, level + 1, ledger0);
        }
        ghost var ledger1, counts1 := ledger, palloc.refCount;
        Drop(e.frame, At(c));
        BalancedTrans(old(ledger), old(palloc.refCount), ledger1, counts1, ledger, palloc.refCount, palloc.managed);
        OneLog(log, EntryRefs(mem, e, c), At(c));
        log := log + [At(c)];
      } else {
        EntryEmpty(mem, e, c);
      }
    }

    /** PMap_DestroyAS.  The log lists the references given back, each once: one for every
        mapped user page, one for every user-half table below the root, and the address
        space record.  The root table is not among them, nor anything of the kernel half. */
    method DestroyAS(a: AS) returns (ghost log: seq<Ref>)
      requires Valid() && a in roots && a.Proc?
      modifies this`roots, this`lay, this`ledger, palloc
      ensures Valid() && palloc.managed == old(palloc.managed)
      ensures roots == old(roots) - {a} && mem == old(mem)
      ensures NoDup(log) && Record(a) in log
      ensures forall u :: 0 <= u < HALF ==> (At(PlaceAt(a, 4, u)) in log <==> old(Look(a, u)).Small?)
      ensures forall u, lev :: 0 <= u < HALF && 1 <= lev <= 3 ==>
        (At(PlaceAt(a, lev, u)) in log <==> old(Present(mem, roots[a], 0, u, lev)))
      ensures forall r :: r in log ==> r == Record(a) || (r.At? && r.place.owner == Of(a) && r.place.level >= 1)
      ensures forall f :: f in palloc.managed ==>
        palloc.refCount[f] + |Dropped(old(ledger), Elems(log), f)| == old(palloc.refCount[f])
      ensures forall b, u :: b in roots && 0 <= u < PAGES ==> Look(b, u) == old(Look(b, u))
    {
      hide WF, Rooted, UpperFilled, Ledgered, Covered, Lists, Balanced, Refs, SubRefs, Walk, Num, Reach;
      hide Present, Dropped;
      var root := roots[a];
      ghost var ledger0, counts0 := ledger, palloc.refCount;
      ghost var found := SubRefs(mem, root, Root(a), ENTRIES / 2);
      RootFacts(mem, lay, roots, a, 0);
      HeldByAll(a);
      log := ReleaseTable(root, ENTRIES / 2, 0, ledger0);
      ghost var ledger1, counts1 := ledger, palloc.refCount;
      Drop(a.page, Record(a));
      BalancedTrans(ledger0, counts0, ledger1, counts1, ledger, palloc.refCount, palloc.managed);
      OneLog(log, found + {Record(a)}, Record(a));
      log := log + [Record(a)];
      Findings(mem, lay, roots, ledger0, a, log);
      assert ledger == ledger0 - Elems(log);
      forall f | f in palloc.managed ensures palloc.refCount[f] + |Dropped(ledger0, Elems(log), f)| == counts0[f] {
        BalancedDropped(ledger0, counts0, Elems(log), palloc.refCount, palloc.managed, f);
      }
      PruneTree(mem, lay, roots, a);
      PruneLedgered(mem, lay, roots, ledger0, a);
      CoveredLess(ledger, PruneLedger(ledger0, a), palloc.refCount, palloc.managed);
      roots := roots - {a};
      lay, ledger := PruneLayout(lay, a), PruneLedger(ledger0, a);
    }

    lemma HeldByAll(a: AS)
      requires Valid() && a in roots && a.Proc?
      requires roots[a] in lay.place && lay.place[roots[a]] == Root(a)
      ensures Agree(ledger, ledger, SubRefs(mem, roots[a], Root(a), ENTRIES / 2))
      ensures Record(a) !in SubRefs(mem, roots[a], Root(a), ENTRIES / 2)
      ensures Holds(ledger, Record(a), a.page)
    {
      hide WF, Covered, SubRefs;
      SubHeld(mem, lay, roots, ledger, roots[a], ENTRIES / 2);
      SubBelow(mem, roots[a], Root(a), ENTRIES / 2);
    }
  }
}
