/** Four-level page tables as a tree of 512-entry tables (sys/amd64/pmap.c).

    A virtual page is its number v, bits 12 to 47 of the address.  Page-table memory is a
    map from page number to table.  The layout records, for every table, its place in the
    tree; the kernel half (root entries 256 and up) has one owner shared by every address
    space, the user half belongs to one address space. */
module PageTables {
  datatype Flag = P | W | U | PCD | PS | NX

  /** A page entry: the page number in its address bits, and its flag bits. */
  datatype PageEntry = PageEntry(frame: nat, flags: set<Flag>)

  type Table = seq<PageEntry>
  type Memory = map<nat, Table>

  datatype AS = System | Proc(page: nat)
  datatype Owner = Kernel | Of(space: AS)
  datatype Place = Place(owner: Owner, level: nat, num: nat)

  /** Where each table sits, and the inverse. */
  datatype Layout = Layout(place: map<nat, Place>, at: map<Place, nat>)

  datatype Leaf = Absent | Small(e: PageEntry) | Large(e: PageEntry)

  const ENTRIES: nat := 512
  const PAGES: nat := 0x10_0000_0000
  const HALF: nat := 0x8_0000_0000
  const ZERO := PageEntry(0, {})

  function Zeros(): (t: Table)
    ensures |t| == ENTRIES && forall x :: 0 <= x < ENTRIES ==> t[x] == ZERO
  {
    seq(ENTRIES, _ => ZERO)
  }

  // ---------------------------------------------------------------- radix arithmetic

  /** The number of v's table at a level; level 4 numbers the page itself. */
  function Num(level: nat, v: nat): nat
    requires level <= 4
    decreases 4 - level
  {
    if level == 4 then v else Num(level + 1, v) / ENTRIES
  }

  function Idx(level: nat, v: nat): (x: nat)
    requires level <= 3
    ensures x < ENTRIES
  {
    Num(level + 1, v) % ENTRIES
  }

  function OwnerAt(a: AS, level: nat, v: nat): Owner {
    if level == 0 || v < HALF then Of(a) else Kernel
  }

  /** The place of the level-th table on v's path in address space a.  At level 4 it is
      the page itself, at level 3 also the 2MB slot that holds it. */
  function PlaceAt(a: AS, level: nat, v: nat): Place
    requires level <= 4
  {
    Place(OwnerAt(a, level, v), level, Num(level, v))
  }

  function Child(p: Place, x: nat): Place {
    Place(if p.level == 0 && x >= ENTRIES / 2 then Kernel else p.owner, p.level + 1, p.num * ENTRIES + x)
  }

  lemma ChildAt(a: AS, level: nat, v: nat)
    requires level <= 3 && v < PAGES
    ensures Child(PlaceAt(a, level, v), Idx(level, v)) == PlaceAt(a, level + 1, v)
  {
    assert Num(level, v) == Num(level + 1, v) / ENTRIES;
    if level == 0 {
      assert Num(1, v) == v / ENTRIES / ENTRIES / ENTRIES;
    }
  }

  lemma SameSlot(level: nat, u: nat, v: nat)
    requires level <= 3 && Num(3, u) == Num(3, v)
    ensures Num(level, u) == Num(level, v)
    decreases 3 - level
  {
    if level < 3 { SameSlot(level + 1, u, v); }
  }

  // ---------------------------------------------------------------- tables

  predicate IsPtr(level: nat, e: PageEntry) {
    e != ZERO && level < 3 && !(level == 2 && PS in e.flags)
  }

  /** What an entry may hold, given its table's place: a pointer leads to the table whose
      place is this slot, and an empty slot has no table. */
  ghost predicate SlotOk(mem: Memory, lay: Layout, t: nat, x: nat)
    requires t in mem && t in lay.place && x < |mem[t]|
  {
    var e, p := mem[t][x], lay.place[t];
    && (e != ZERO ==> P in e.flags)
    && (IsPtr(p.level, e) ==> e.frame in lay.place && lay.place[e.frame] == Child(p, x))
    && (e == ZERO && p.level < 3 ==> Child(p, x) !in lay.at)
  }

  ghost predicate Inverse(lay: Layout) {
    && (forall t :: t in lay.place ==> lay.place[t] in lay.at && lay.at[lay.place[t]] == t)
    && (forall p :: p in lay.at ==> lay.at[p] in lay.place && lay.place[lay.at[p]] == p)
  }

  /** A table's parent is placed too (level-1 tables hang from roots). */
  ghost predicate Closed(lay: Layout) {
    forall p {:trigger Parent(p)} :: p in lay.at && p.level >= 2 ==> Parent(p) in lay.at
  }

  function Parent(p: Place): Place
    requires p.level > 0
  {
    Place(p.owner, p.level - 1, p.num / ENTRIES)
  }

  /** The tree invariant: the layout places each table once, and every slot agrees. */
  ghost predicate WF(mem: Memory, lay: Layout) {
    && Inverse(lay) && Closed(lay)
    && (forall t :: t in lay.place ==> t in mem && |mem[t]| == ENTRIES && lay.place[t].level <= 3)
    && (forall t, x :: t in lay.place && 0 <= x < ENTRIES ==> SlotOk(mem, lay, t, x))
  }

  /** Each address space has its root, and every user-half table an address space. */
  ghost predicate Rooted(lay: Layout, roots: map<AS, nat>) {
    && (forall a :: a in roots ==> roots[a] in lay.place && lay.place[roots[a]] == Place(Of(a), 0, 0))
    && (forall t :: t in lay.place && lay.place[t].owner.Of? ==> lay.place[t].owner.space in roots)
    && (forall t :: t in lay.place && lay.place[t].level == 0 ==>
          lay.place[t].owner.Of? && roots[lay.place[t].owner.space] == t)
  }

  /** Every root has all its kernel-half entries, as PMap_Init and PMap_NewAS leave them. */
  ghost predicate UpperFilled(mem: Memory, roots: map<AS, nat>) {
    forall a, x :: a in roots && ENTRIES / 2 <= x < ENTRIES ==> Filled(mem, roots[a], x)
  }

  ghost predicate Filled(mem: Memory, t: nat, x: nat) {
    t in mem && |mem[t]| == ENTRIES && x < ENTRIES && mem[t][x] != ZERO
  }

  ghost predicate Tree(mem: Memory, lay: Layout, roots: map<AS, nat>) {
    WF(mem, lay) && Rooted(lay, roots) && UpperFilled(mem, roots)
  }

  // ---------------------------------------------------------------- the walk

  /** The hardware's walk from a table at a level. */
  function Walk(mem: Memory, t: nat, level: nat, v: nat): Leaf
    requires level <= 3
    decreases 3 - level
  {
    if t !in mem || |mem[t]| != ENTRIES then Absent else
    var e := mem[t][Idx(level, v)];
    if e == ZERO then Absent
    else if level == 3 then Small(e)
    else if level == 2 && PS in e.flags then Large(e)
    else Walk(mem, e.frame, level + 1, v)
  }

  /** The walk from r at one level passes through t at another. */
  ghost predicate Reach(mem: Memory, r: nat, level: nat, v: nat, t: nat, lev: nat)
    requires level <= lev <= 3
    decreases lev - level
  {
    && r in mem && |mem[r]| == ENTRIES
    && if level == lev then r == t
       else IsPtr(level, mem[r][Idx(level, v)]) && Reach(mem, mem[r][Idx(level, v)].frame, level + 1, v, t, lev)
  }

  /** The walk gets as far as a last-level table. */
  predicate Tabled(mem: Memory, t: nat, level: nat, v: nat)
    requires level <= 3
    decreases 3 - level
  {
    && t in mem && |mem[t]| == ENTRIES
    && (level == 3 || (IsPtr(level, mem[t][Idx(level, v)]) && Tabled(mem, mem[t][Idx(level, v)].frame, level + 1, v)))
  }

  /** How many tables of v's path are missing. */
  function Missing(mem: Memory, t: nat, level: nat, v: nat): (n: nat)
    requires level <= 3
    ensures n <= 3 - level
    decreases 3 - level
  {
    if level == 3 || t !in mem || |mem[t]| != ENTRIES then 0 else
    var e := mem[t][Idx(level, v)];
    if e == ZERO then 3 - level else Missing(mem, e.frame, level + 1, v)
  }

  lemma {:induction false} MissingAbsent(mem: Memory, t: nat, level: nat, v: nat)
    requires level <= 3 && Missing(mem, t, level, v) > 0 && !Walk(mem, t, level, v).Large?
    ensures Walk(mem, t, level, v).Absent?
    decreases 3 - level
  {
    var e := mem[t][Idx(level, v)];
    if e != ZERO {
      MissingAbsent(mem, e.frame, level + 1, v);
    }
  }

  function Put(mem: Memory, t: nat, x: nat, e: PageEntry): Memory
    requires t in mem && x < |mem[t]|
  {
    mem[t := mem[t][x := e]]
  }

  /** Writing a slot that is not on v's path does not change v's translation. */
  lemma {:induction false} WalkPut(mem: Memory, lay: Layout, t: nat, x: nat, e: PageEntry, a: AS, r: nat,
          level: nat, v: nat)
    requires WF(mem, lay) && t in lay.place && x < ENTRIES && v < PAGES
    requires level <= 3 && r in lay.place && lay.place[r] == PlaceAt(a, level, v)
    requires !(lay.place[t] == PlaceAt(a, lay.place[t].level, v) && x == Idx(lay.place[t].level, v))
    ensures Walk(Put(mem, t, x, e), r, level, v) == Walk(mem, r, level, v)
    decreases 3 - level
  {
    var y := Idx(level, v);
    assert SlotOk(mem, lay, r, y);
    if IsPtr(level, mem[r][y]) {
      ChildAt(a, level, v);
      WalkPut(mem, lay, t, x, e, a, mem[r][y].frame, level + 1, v);
    }
  }

  /** Hanging a fresh empty table under an empty slot changes no translation. */
  lemma {:induction false} WalkLink(mem: Memory, lay: Layout, t: nat, x: nat, n: nat, e: PageEntry, r: nat,
          level: nat, v: nat)
    requires WF(mem, lay) && t in lay.place && x < ENTRIES && mem[t][x] == ZERO
    requires n !in lay.place && e.frame == n && e != ZERO && PS !in e.flags && lay.place[t].level < 3
    requires level <= 3 && r in lay.place && lay.place[r].level == level
    ensures Walk(Put(mem[n := Zeros()], t, x, e), r, level, v) == Walk(mem, r, level, v)
    decreases 3 - level
  {
    var y := Idx(level, v);
    assert SlotOk(mem, lay, r, y);
    if IsPtr(level, mem[r][y]) {
      WalkLink(mem, lay, t, x, n, e, mem[r][y].frame, level + 1, v);
    }
  }

  /** Writing a slot of t keeps every path that leads to t. */
  lemma {:induction false} ReachPut(mem: Memory, lay: Layout, t: nat, x: nat, e: PageEntry, r: nat, level: nat,
          v: nat, lev: nat)
    requires WF(mem, lay) && t in lay.place && x < ENTRIES && lay.place[t].level == lev
    requires level <= lev <= 3 && r in lay.place && lay.place[r].level == level
    requires Reach(mem, r, level, v, t, lev)
    ensures Reach(Put(mem, t, x, e), r, level, v, t, lev)
    ensures Walk(Put(mem, t, x, e), r, level, v) == Walk(Put(mem, t, x, e), t, lev, v)
    decreases lev - level
  {
    var y := Idx(level, v);
    assert SlotOk(mem, lay, r, y);
    if level < lev {
      ReachPut(mem, lay, t, x, e, mem[r][y].frame, level + 1, v, lev);
    }
  }

  /** Paths that reach t survive hanging a fresh table under an empty slot. */
  lemma {:induction false} ReachLink(mem: Memory, lay: Layout, s: nat, x: nat, n: nat, e: PageEntry, r: nat,
          level: nat, v: nat, t: nat, lev: nat)
    requires WF(mem, lay) && s in lay.place && x < ENTRIES && mem[s][x] == ZERO && n !in lay.place
    requires level <= lev <= 3 && r in lay.place && lay.place[r].level == level
    requires Reach(mem, r, level, v, t, lev)
    ensures Reach(Put(mem[n := Zeros()], s, x, e), r, level, v, t, lev)
    decreases lev - level
  {
    var y := Idx(level, v);
    assert SlotOk(mem, lay, r, y);
    if level < lev {
      ReachLink(mem, lay, s, x, n, e, mem[r][y].frame, level + 1, v, t, lev);
    }
  }

  /** One more step extends a path. */
  lemma {:induction false} ReachStep(mem: Memory, r: nat, level: nat, v: nat, t: nat, lev: nat)
    requires level <= lev < 3 && Reach(mem, r, level, v, t, lev)
    requires t in mem && |mem[t]| == ENTRIES && IsPtr(lev, mem[t][Idx(lev, v)]) && mem[t][Idx(lev, v)].frame in mem
    requires |mem[mem[t][Idx(lev, v)].frame]| == ENTRIES
    ensures Reach(mem, r, level, v, mem[t][Idx(lev, v)].frame, lev + 1)
    decreases lev - level
  {
    if level < lev {
      ReachStep(mem, mem[r][Idx(level, v)].frame, level + 1, v, t, lev);
    }
  }

  /** A walk equals the walk from any table it passes. */
  lemma {:induction false} ReachWalk(mem: Memory, r: nat, level: nat, v: nat, t: nat, lev: nat)
    requires level <= lev <= 3 && Reach(mem, r, level, v, t, lev)
    ensures t in mem && |mem[t]| == ENTRIES
    ensures Walk(mem, r, level, v) == Walk(mem, t, lev, v)
    decreases lev - level
  {
    if level < lev {
      ReachWalk(mem, mem[r][Idx(level, v)].frame, level + 1, v, t, lev);
    }
  }

  /** Pages of one 2MB slot have the same path to it. */
  lemma {:induction false} ReachSame(mem: Memory, r: nat, level: nat, u: nat, v: nat, t: nat, lev: nat)
    requires level <= lev <= 2 && Num(3, u) == Num(3, v) && Reach(mem, r, level, v, t, lev)
    ensures Reach(mem, r, level, u, t, lev)
    decreases lev - level
  {
    if level < lev {
      SameSlot(level + 1, u, v);
      ReachSame(mem, mem[r][Idx(level, v)].frame, level + 1, u, v, t, lev);
    }
  }

  /** Every address space reaches a kernel-half table that one of them reaches. */
  lemma ReachShared(mem: Memory, lay: Layout, roots: map<AS, nat>, a: AS, b: AS, v: nat, t: nat, lev: nat)
    requires WF(mem, lay) && Rooted(lay, roots) && UpperFilled(mem, roots)
    requires a in roots && b in roots && HALF <= v < PAGES && 1 <= lev <= 3
    requires Reach(mem, roots[a], 0, v, t, lev)
    ensures Reach(mem, roots[b], 0, v, t, lev)
  {
    var y := Idx(0, v);
    ChildAt(a, 0, v);
    ChildAt(b, 0, v);
    assert PlaceAt(a, 1, v) == PlaceAt(b, 1, v);
    assert SlotOk(mem, lay, roots[a], y) && SlotOk(mem, lay, roots[b], y);
    assert y >= ENTRIES / 2 ==> Filled(mem, roots[a], y) && Filled(mem, roots[b], y);
    UpperIdx(v);
  }

  lemma UpperIdx(v: nat)
    requires v < PAGES
    ensures v >= HALF <==> Idx(0, v) >= ENTRIES / 2
  {
    assert Num(1, v) == v / ENTRIES / ENTRIES / ENTRIES;
  }

  /** The layout after a table n is hung under slot x of t. */
  function Hang(lay: Layout, t: nat, x: nat, n: nat): Layout
    requires t in lay.place
  {
    var c := Child(lay.place[t], x);
    Layout(lay.place[n := c], lay.at[c := n])
  }

  /** Hanging a fresh empty table under an empty slot keeps the tree. */
  lemma HangWF(mem: Memory, lay: Layout, t: nat, x: nat, n: nat, e: PageEntry)
    requires WF(mem, lay) && t in lay.place && x < ENTRIES && mem[t][x] == ZERO && lay.place[t].level < 3
    requires n !in lay.place && e.frame == n && P in e.flags && PS !in e.flags
    requires lay.place[t].level == 0 && x >= ENTRIES / 2 ==>
      forall s :: s in lay.place && lay.place[s].level == 0 ==> s == t
    ensures WF(Put(mem[n := Zeros()], t, x, e), Hang(lay, t, x, n))
  {
    var mem', lay', c := Put(mem[n := Zeros()], t, x, e), Hang(lay, t, x, n), Child(lay.place[t], x);
    assert SlotOk(mem, lay, t, x);
    assert c !in lay.at;
    forall s, y | s in lay'.place && 0 <= y < ENTRIES
      ensures s in mem' && |mem'[s]| == ENTRIES && SlotOk(mem', lay', s, y)
    {
      if s == n {
        var d := Child(c, y);
        assert d != c && Parent(d) == c;
        assert d !in lay.at;
      } else {
        assert SlotOk(mem, lay, s, y);
        if Child(lay.place[s], y) == c {
          assert lay.place[s].num == lay.place[t].num && y == x && lay.place[s].level == lay.place[t].level;
          assert s == t;
        }
      }
    }
    HangLayout(lay, t, x, n);
  }

  lemma HangLayout(lay: Layout, t: nat, x: nat, n: nat)
    requires Inverse(lay) && Closed(lay) && t in lay.place && x < ENTRIES && n !in lay.place
    requires Child(lay.place[t], x) !in lay.at
    ensures Inverse(Hang(lay, t, x, n)) && Closed(Hang(lay, t, x, n))
  {
    var c := Child(lay.place[t], x);
    if c.level >= 2 {
      assert Parent(c) == lay.place[t];
    }
  }

  /** Writing a leaf keeps the tree. */
  lemma PutLeafWF(mem: Memory, lay: Layout, t: nat, x: nat, e: PageEntry)
    requires WF(mem, lay) && t in lay.place && x < ENTRIES && P in e.flags
    requires lay.place[t].level == 3 || (lay.place[t].level == 2 && PS in e.flags)
    ensures WF(Put(mem, t, x, e), lay)
  {
    var mem' := Put(mem, t, x, e);
    forall s, y | s in lay.place && 0 <= y < ENTRIES
      ensures s in mem' && |mem'[s]| == ENTRIES && SlotOk(mem', lay, s, y)
    {
      assert SlotOk(mem, lay, s, y);
    }
  }

  // ---------------------------------------------------------------- the flat map

  function LeafOf(lev: nat, e: PageEntry): Leaf {
    if lev == 3 then Small(e) else Large(e)
  }

  /** The whole effect of writing a leaf entry: the pages whose place at the level below is
      the written slot now translate through it (in every address space that shares the
      slot), and no other translation of any address space changes. */
  lemma PutLeafLooks(mem: Memory, lay: Layout, roots: map<AS, nat>, a: AS, v: nat, t: nat, lev: nat, e: PageEntry)
    requires WF(mem, lay) && Rooted(lay, roots) && UpperFilled(mem, roots)
    requires a in roots && v < PAGES && 2 <= lev <= 3 && P in e.flags && (lev == 2 ==> PS in e.flags)
    requires t in lay.place && lay.place[t] == PlaceAt(a, lev, v) && Reach(mem, roots[a], 0, v, t, lev)
    ensures forall b, u :: b in roots && 0 <= u < PAGES ==>
      Walk(Put(mem, t, Idx(lev, v), e), roots[b], 0, u) ==
      if PlaceAt(b, lev + 1, u) == PlaceAt(a, lev + 1, v) then LeafOf(lev, e) else Walk(mem, roots[b], 0, u)
  {
    forall b, u | b in roots && 0 <= u < PAGES
      ensures Walk(Put(mem, t, Idx(lev, v), e), roots[b], 0, u) ==
        if PlaceAt(b, lev + 1, u) == PlaceAt(a, lev + 1, v) then LeafOf(lev, e) else Walk(mem, roots[b], 0, u)
    {
      if PlaceAt(b, lev + 1, u) == PlaceAt(a, lev + 1, v) {
        PutLeafHit(mem, lay, roots, a, v, t, lev, e, b, u);
      } else {
        ChildAt(b, lev, u);
        ChildAt(a, lev, v);
        WalkPut(mem, lay, t, Idx(lev, v), e, b, roots[b], 0, u);
      }
    }
  }

  lemma PutLeafHit(mem: Memory, lay: Layout, roots: map<AS, nat>, a: AS, v: nat, t: nat, lev: nat,
          e: PageEntry, b: AS, u: nat)
    requires WF(mem, lay) && Rooted(lay, roots) && UpperFilled(mem, roots)
    requires a in roots && v < PAGES && 2 <= lev <= 3 && P in e.flags && (lev == 2 ==> PS in e.flags)
    requires t in lay.place && lay.place[t] == PlaceAt(a, lev, v) && Reach(mem, roots[a], 0, v, t, lev)
    requires b in roots && u < PAGES && PlaceAt(b, lev + 1, u) == PlaceAt(a, lev + 1, v)
    ensures Walk(Put(mem, t, Idx(lev, v), e), roots[b], 0, u) == LeafOf(lev, e)
  {
    assert Num(3, u) == Num(3, v);
    if v >= HALF {
      ReachShared(mem, lay, roots, a, b, v, t, lev);
    }
    if lev == 2 {
      ReachSame(mem, roots[b], 0, u, v, t, lev);
    }
    ReachPut(mem, lay, t, Idx(lev, v), e, roots[b], 0, u, lev);
  }

  /** Kernel half shared: every address space translates a kernel page alike. */
  lemma KernelShared(mem: Memory, lay: Layout, roots: map<AS, nat>, a: AS, b: AS, v: nat)
    requires WF(mem, lay) && Rooted(lay, roots) && UpperFilled(mem, roots)
    requires a in roots && b in roots && HALF <= v < PAGES
    ensures Walk(mem, roots[a], 0, v) == Walk(mem, roots[b], 0, v)
  {
    var y := Idx(0, v);
    UpperIdx(v);
    ChildAt(a, 0, v);
    ChildAt(b, 0, v);
    assert SlotOk(mem, lay, roots[a], y) && SlotOk(mem, lay, roots[b], y);
    assert y >= ENTRIES / 2 ==> Filled(mem, roots[a], y) && Filled(mem, roots[b], y);
    assert PlaceAt(a, 1, v) == PlaceAt(b, 1, v);
  }
}
