/** References of address spaces to physical pages (sys/amd64/pmap.c).

    The ledger names, for each table, each user page and each address-space record, the
    physical page it holds a reference to. */
module PageLedger {
  import opened Common
  import opened PageAlloc
  import opened PageTables

  datatype Ref = At(place: Place) | Record(space: AS)
  type Ledger = map<Ref, nat>

  const LARGE_PGSIZE: nat := 0x20_0000
  const HUGE_PGSIZE: nat := 0x4000_0000
  const ROOT_SPAN: nat := 0x80_0000_0000

  function Vpn(va: nat): (v: nat)
    ensures v < PAGES
  {
    va / PGSIZE % PAGES
  }

  /** The shifts and masks of the source pick the digits of the page number. */
  lemma Digits(va: nat)
    ensures va / ROOT_SPAN % ENTRIES == Idx(0, Vpn(va))
    ensures va / HUGE_PGSIZE % ENTRIES == Idx(1, Vpn(va))
    ensures va / LARGE_PGSIZE % ENTRIES == Idx(2, Vpn(va))
    ensures va / PGSIZE % ENTRIES == Idx(3, Vpn(va))
  {
    var w, v := va / PGSIZE, Vpn(va);
    var w3 := w / ENTRIES;
    var w2 := w3 / ENTRIES;
    var w1 := w2 / ENTRIES;
    var q := w1 / ENTRIES;
    assert va / LARGE_PGSIZE == w3;
    assert va / HUGE_PGSIZE == w2;
    assert va / ROOT_SPAN == w1;
    assert q == w / PAGES;
    assert v == w - q * PAGES;
    assert Num(3, v) == v / ENTRIES == w3 - q * 0x800_0000;
    assert Num(2, v) == Num(3, v) / ENTRIES == w2 - q * 0x4_0000;
    assert Num(1, v) == Num(2, v) / ENTRIES == w1 - q * ENTRIES;
  }

  /** Page u of address space b is one of the n pages of a starting at page v: the same
      page of the same owner, so a kernel page is in range for every b. */
  predicate InRange(b: AS, u: nat, a: AS, v: nat, n: nat) {
    v <= u < v + n && OwnerAt(b, 3, u) == OwnerAt(a, 3, u)
  }

  lemma PageKeys(a: AS, v: nat)
    ensures forall b, u: nat :: PlaceAt(b, 4, u) == PlaceAt(a, 4, v) <==> InRange(b, u, a, v, 1)
  {}

  lemma SlotKeys(a: AS, v: nat)
    requires v % ENTRIES == 0 && v < PAGES
    ensures forall b, u: nat :: PlaceAt(b, 3, u) == PlaceAt(a, 3, v) <==> InRange(b, u, a, v, ENTRIES)
  {
    forall b, u: nat
      ensures PlaceAt(b, 3, u) == PlaceAt(a, 3, v) <==> InRange(b, u, a, v, ENTRIES)
    {
      assert Num(3, u) == u / ENTRIES && Num(3, v) == v / ENTRIES;
      assert u / ENTRIES == v / ENTRIES <==> v <= u < v + ENTRIES;
    }
  }

  /** Translation of an address by its leaf; 2MB frames are rounded down to 2MB. */
  function Physical(leaf: Leaf, va: nat): nat
    requires !leaf.Absent?
  {
    if leaf.Small? then leaf.e.frame * PGSIZE + va % PGSIZE
    else leaf.e.frame / ENTRIES * LARGE_PGSIZE + va % LARGE_PGSIZE
  }

  ghost function Refs(ledger: Ledger, f: nat): set<Ref> {
    set r | r in ledger && ledger[r] == f
  }

  /** Allocation leaves the count of every page in use as it was. */
  ghost predicate CountsKept(before: map<nat, nat>, after: map<nat, nat>) {
    forall f :: f in before && before[f] > 0 ==> f in after && after[f] == before[f]
  }

  /** Every page has at least as many references counted as the ledger holds on it. */
  ghost predicate Covered(ledger: Ledger, refCount: map<nat, nat>, managed: set<nat>) {
    && (forall r :: r in ledger ==> ledger[r] in managed)
    && (forall f :: f in managed ==> f in refCount && |Refs(ledger, f)| <= refCount[f])
  }

  ghost predicate UserTable(p: Place) {
    p.level == 3 && p.owner.Of? && p.owner.space.Proc?
  }

  ghost predicate Holds(ledger: Ledger, r: Ref, f: nat) {
    r in ledger && ledger[r] == f
  }

  /** Each table, each user page and each process's record holds its reference. */
  ghost predicate Ledgered(mem: Memory, lay: Layout, roots: map<AS, nat>, ledger: Ledger) {
    && (forall t :: t in lay.place ==> Holds(ledger, At(lay.place[t]), t))
    && (forall t, x :: t in lay.place && t in mem && UserTable(lay.place[t]) && 0 <= x < |mem[t]| ==>
          mem[t][x] != ZERO ==>
          Holds(ledger, At(Child(lay.place[t], x)), mem[t][x].frame))
    && (forall a :: a in roots && a.Proc? ==> Holds(ledger, Record(a), a.page))
    && (forall t, x :: t in lay.place && t in mem && ProcTable(lay.place[t]) && 0 <= x < |mem[t]| ==>
          PS !in mem[t][x].flags)
  }

  /** A level-2 table of a process: the code never maps 2MB pages there. */
  ghost predicate ProcTable(p: Place) {
    p.level == 2 && p.owner.Of? && p.owner.space.Proc?
  }

  lemma RefsAdd(ledger: Ledger, r: Ref, f: nat, g: nat)
    ensures |Refs(ledger[r := f], g)| <= |Refs(ledger, g)| + (if g == f then 1 else 0)
  {
    var extra := if g == f then {r} else {};
    SubsetSize(Refs(ledger[r := f], g), Refs(ledger, g) + extra);
  }

  /** A reference taken together with its count keeps the ledger covered. */
  lemma CoveredAdd(ledger: Ledger, refCount: map<nat, nat>, managed: set<nat>, r: Ref, f: nat, refCount': map<nat, nat>)
    requires Covered(ledger, refCount, managed) && f in managed
    requires refCount.Keys == refCount'.Keys && forall g :: g in refCount && g != f ==> refCount'[g] == refCount[g]
    requires refCount'[f] > |Refs(ledger, f)|
    ensures Covered(ledger[r := f], refCount', managed)
  {
    forall g | g in managed ensures |Refs(ledger[r := f], g)| <= refCount'[g] {
      RefsAdd(ledger, r, f, g);
    }
  }

  /** Hanging a table keeps the tree, the ledger and every translation. */
  lemma LinkKeeps(mem: Memory, lay: Layout, roots: map<AS, nat>, ledger: Ledger, t: nat, x: nat, n: nat, e: PageEntry)
    requires WF(mem, lay) && Rooted(lay, roots) && (UpperFilled(mem, roots) || roots.Keys == {System})
    requires Ledgered(mem, lay, roots, ledger)
    requires t in lay.place && x < |mem[t]| == ENTRIES && mem[t][x] == ZERO && t in lay.place && lay.place[t].level < 3
    requires n !in lay.place && e.frame == n && P in e.flags && PS !in e.flags
    ensures WF(Put(mem[n := Zeros()], t, x, e), Hang(lay, t, x, n)) && Rooted(Hang(lay, t, x, n), roots)
    ensures UpperFilled(mem, roots) ==> UpperFilled(Put(mem[n := Zeros()], t, x, e), roots)
    ensures Ledgered(Put(mem[n := Zeros()], t, x, e), Hang(lay, t, x, n), roots,
      ledger[At(Child(lay.place[t], x)) := n])
  {
    hide Ledgered, WF, Rooted, UpperFilled;
    LinkTree(mem, lay, roots, t, x, n, e);
    LinkLedger(mem, lay, roots, ledger, t, x, n, e);
  }

  lemma LinkTree(mem: Memory, lay: Layout, roots: map<AS, nat>, t: nat, x: nat, n: nat, e: PageEntry)
    requires WF(mem, lay) && Rooted(lay, roots) && (UpperFilled(mem, roots) || roots.Keys == {System})
    requires t in lay.place && x < |mem[t]| == ENTRIES && mem[t][x] == ZERO && t in lay.place && lay.place[t].level < 3
    requires n !in lay.place && e.frame == n && P in e.flags && PS !in e.flags
    ensures WF(Put(mem[n := Zeros()], t, x, e), Hang(lay, t, x, n)) && Rooted(Hang(lay, t, x, n), roots)
    ensures UpperFilled(mem, roots) ==> UpperFilled(Put(mem[n := Zeros()], t, x, e), roots)
  {
    LinkRoots(mem, lay, roots, t, x, n, e);
    assert UpperFilled(mem, roots) && lay.place[t].level == 0 && x >= ENTRIES / 2 ==>
        Filled(mem, roots[lay.place[t].owner.space], x);
    HangWF(mem, lay, t, x, n, e);
  }

  lemma LinkRoots(mem: Memory, lay: Layout, roots: map<AS, nat>, t: nat, x: nat, n: nat, e: PageEntry)
    requires Rooted(lay, roots)
    requires t in mem && x < |mem[t]| && t in lay.place && n !in lay.place && e != ZERO
    ensures Rooted(Hang(lay, t, x, n), roots)
    ensures UpperFilled(mem, roots) ==> UpperFilled(Put(mem[n := Zeros()], t, x, e), roots)
  {
    if UpperFilled(mem, roots) {
      var mem' := Put(mem[n := Zeros()], t, x, e);
      forall a, y | a in roots && ENTRIES / 2 <= y < ENTRIES
        ensures Filled(mem', roots[a], y)
      {
        assert Filled(mem, roots[a], y);
      }
    }
  }

  lemma LinkLedger(mem: Memory, lay: Layout, roots: map<AS, nat>, ledger: Ledger, t: nat, x: nat, n: nat, e: PageEntry)
    requires WF(mem, lay) && Ledgered(mem, lay, roots, ledger)
    requires t in lay.place && x < |mem[t]| && mem[t][x] == ZERO && t in lay.place && lay.place[t].level < 3
    requires n !in lay.place
    requires PS !in e.flags
    ensures Ledgered(Put(mem[n := Zeros()], t, x, e), Hang(lay, t, x, n), roots,
      ledger[At(Child(lay.place[t], x)) := n])
  {
    var mem', lay', c := Put(mem[n := Zeros()], t, x, e), Hang(lay, t, x, n), Child(lay.place[t], x);
    assert c !in lay.at && n !in lay.place && (forall s :: s in lay.place ==> lay.place[s] != c) by {
      assert SlotOk(mem, lay, t, x);
    }
    hide WF;
    forall s, y | s in lay'.place && UserTable(lay'.place[s]) && 0 <= y < |mem'[s]| && mem'[s][y] != ZERO
      ensures Holds(ledger[At(c) := n], At(Child(lay'.place[s], y)), mem'[s][y].frame)
    {
      assert s in lay.place && s in lay.place && s != t;
      assert Holds(ledger, At(Child(lay.place[s], y)), mem[s][y].frame);
    }
  }

  lemma LinkLooks(mem: Memory, lay: Layout, roots: map<AS, nat>, t: nat, x: nat, n: nat, e: PageEntry)
    requires WF(mem, lay) && Rooted(lay, roots)
    requires t in lay.place && x < |mem[t]| && mem[t][x] == ZERO && t in lay.place && lay.place[t].level < 3
    requires n !in lay.place && e.frame == n && P in e.flags && PS !in e.flags
    ensures forall b, u :: b in roots && 0 <= u < PAGES ==>
      Walk(Put(mem[n := Zeros()], t, x, e), roots[b], 0, u) == Walk(mem, roots[b], 0, u)
  {
    hide SlotOk, Inverse, Closed;
    forall b, u | b in roots && 0 <= u < PAGES
      ensures Walk(Put(mem[n := Zeros()], t, x, e), roots[b], 0, u) == Walk(mem, roots[b], 0, u)
    {
      WalkLink(mem, lay, t, x, n, e, roots[b], 0, u);
    }
  }

  lemma SlotFacts(mem: Memory, lay: Layout, t: nat, x: nat)
    requires WF(mem, lay) && t in lay.place && x < ENTRIES
    ensures t in mem && |mem[t]| == ENTRIES && SlotOk(mem, lay, t, x)
  {
    hide SlotOk, Inverse, Closed;
  }

  /** A page that was free is held by nothing and is no table. */
  lemma Unheld(mem: Memory, lay: Layout, roots: map<AS, nat>, ledger: Ledger, refCount: map<nat, nat>,
          managed: set<nat>, n: nat)
    requires WF(mem, lay) && Ledgered(mem, lay, roots, ledger)
    requires n in managed && Covered(ledger, refCount[n := 0], managed)
    ensures Refs(ledger, n) == {} && n !in lay.place
  {
    hide SlotOk, Inverse, Closed;
    assert |Refs(ledger, n)| == 0;
    forall t | t in lay.place ensures t != n {
      assert Holds(ledger, At(lay.place[t]), t);
      assert At(lay.place[t]) in Refs(ledger, t);
    }
  }

  lemma LinkReach(mem: Memory, lay: Layout, roots: map<AS, nat>, t: nat, x: nat, n: nat, e: PageEntry, a: AS,
          v: nat, lev: nat)
    requires WF(mem, lay) && Rooted(lay, roots) && a in roots && lev <= 3 && n !in lay.place
    requires t in lay.place && x < |mem[t]| && mem[t][x] == ZERO && Reach(mem, roots[a], 0, v, t, lev)
    ensures Reach(Put(mem[n := Zeros()], t, x, e), roots[a], 0, v, t, lev)
    ensures t in lay.place && t != n && t in Hang(lay, t, x, n).place && Hang(lay, t, x, n).place[t] == lay.place[t]
  {
    hide SlotOk, Inverse, Closed, Reach, Put;
    ReachLink(mem, lay, t, x, n, e, roots[a], 0, v, t, lev);
  }

  lemma RootFacts(mem: Memory, lay: Layout, roots: map<AS, nat>, a: AS, v: nat)
    requires WF(mem, lay) && Rooted(lay, roots) && a in roots && v < PAGES
    ensures roots[a] in mem && |mem[roots[a]]| == ENTRIES && roots[a] in lay.place
    ensures lay.place[roots[a]] == PlaceAt(a, 0, v) == Place(Of(a), 0, 0) && Reach(mem, roots[a], 0, v, roots[a], 0)
  {
    hide SlotOk, Inverse, Closed;
    assert Num(0, v) == v / ENTRIES / ENTRIES / ENTRIES / ENTRIES;
  }

  /** The ledger after a leaf is written: a user page now holds the page it maps. */
  ghost function LeafLedger(lay: Layout, ledger: Ledger, t: nat, x: nat, e: PageEntry): Ledger
    requires t in lay.place
  {
    if UserTable(lay.place[t]) then ledger[At(Child(lay.place[t], x)) := e.frame] else ledger
  }

  lemma PutLeafTree(mem: Memory, lay: Layout, roots: map<AS, nat>, t: nat, x: nat, e: PageEntry)
    requires Tree(mem, lay, roots) && t in lay.place && x < |mem[t]| == ENTRIES && P in e.flags && t in lay.place
    requires lay.place[t].level == 3 || (lay.place[t].level == 2 && PS in e.flags)
    ensures Tree(Put(mem, t, x, e), lay, roots)
  {
    hide SlotOk, Inverse, Closed;
    assert WF(Put(mem, t, x, e), lay) by {
      PutLeafWF(mem, lay, t, x, e);
    }
    hide WF;
    assert forall a :: a in roots ==> roots[a] != t;
    forall a, y | a in roots && ENTRIES / 2 <= y < ENTRIES ensures Filled(Put(mem, t, x, e), roots[a], y) {
      assert Filled(mem, roots[a], y);
    }
  }

  lemma PutLeafLedger(mem: Memory, lay: Layout, roots: map<AS, nat>, ledger: Ledger, t: nat, x: nat, e: PageEntry)
    requires WF(mem, lay) && Ledgered(mem, lay, roots, ledger) && t in lay.place && x < |mem[t]| && t in lay.place
    requires lay.place[t].level >= 2 && !ProcTable(lay.place[t])
    ensures Ledgered(Put(mem, t, x, e), lay, roots, LeafLedger(lay, ledger, t, x, e))
  {
    var mem', ledger' := Put(mem, t, x, e), LeafLedger(lay, ledger, t, x, e);
    assert forall s :: s in lay.place ==> lay.place[s].level <= 3;
    assert forall s :: s in lay.place && lay.place[s] == lay.place[t] ==> s == t;
    hide WF;
    forall s | s in lay.place ensures Holds(ledger', At(lay.place[s]), s) {
      assert Holds(ledger, At(lay.place[s]), s);
    }
    forall s, y | s in lay.place && UserTable(lay.place[s]) && 0 <= y < |mem'[s]| && mem'[s][y] != ZERO
      ensures Holds(ledger', At(Child(lay.place[s], y)), mem'[s][y].frame)
    {
      if s == t && y == x {
      } else {
        assert Holds(ledger, At(Child(lay.place[s], y)), mem[s][y].frame);
      }
    }
  }

  lemma CoveredMore(ledger: Ledger, refCount: map<nat, nat>, managed: set<nat>, f: nat)
    requires Covered(ledger, refCount, managed) && f in managed && refCount[f] == 0
    ensures Covered(ledger, refCount[f := 1], managed) && Refs(ledger, f) == {}
  {
    hide Refs;
    assert |Refs(ledger, f)| <= 0;
  }

  /** The backing pages were free before, are in use now, and are all different. */
  ghost predicate Backing(backed: map<nat, nat>, before: map<nat, nat>, now: map<nat, nat>, managed: set<nat>) {
    && (forall u :: u in backed ==> backed[u] in managed && Taken(backed[u], before, now))
    && (forall u, w :: u in backed && w in backed && u != w ==> backed[u] != backed[w])
  }

  ghost predicate Taken(f: nat, before: map<nat, nat>, now: map<nat, nat>) {
    f in before && f in now && before[f] == 0 && now[f] > 0
  }

  lemma NoBacking(counts: map<nat, nat>, managed: set<nat>)
    ensures CountsKept(counts, counts) && Backing(map[], counts, counts, managed)
  {}

  lemma BackingStep(backed: map<nat, nat>, before: map<nat, nat>, now: map<nat, nat>, after: map<nat, nat>,
          managed: set<nat>, u: nat, got: Option<nat>)
    requires Backing(backed, before, now, managed) && CountsKept(before, now) && CountsKept(now, after)
    requires (got.Some? ==> u !in backed)
    requires managed <= before.Keys && managed <= now.Keys && managed <= after.Keys
    requires got.Some? ==> got.value in managed && now[got.value] == 0 && after[got.value] > 0
    ensures Backing(if got.Some? then backed[u := got.value] else backed, before, after, managed)
    ensures CountsKept(before, after)
  {
    forall w | w in backed ensures Taken(backed[w], before, after) {
      assert Taken(backed[w], before, now);
    }
    if got.Some? {
      forall w | w in backed ensures backed[w] != got.value {
        assert Taken(backed[w], before, now);
      }
    }
  }

  /** The state PMap_Init starts from: an empty root for the system address space. */
  lemma FirstRoot(r: nat)
    ensures WF(map[r := Zeros()], Layout(map[r := SystemRoot()], map[SystemRoot() := r]))
    ensures Rooted(Layout(map[r := SystemRoot()], map[SystemRoot() := r]), map[System := r])
    ensures Ledgered(map[r := Zeros()], Layout(map[r := SystemRoot()], map[SystemRoot() := r]), map[System := r],
      map[At(SystemRoot()) := r])
  {
    var lay := Layout(map[r := SystemRoot()], map[SystemRoot() := r]);
    assert Inverse(lay) && Closed(lay);
  }

  lemma FirstLedger(refCount: map<nat, nat>, managed: set<nat>, r: nat)
    requires managed <= refCount.Keys && r in managed
    ensures Covered(map[At(SystemRoot()) := r], refCount[r := 1], managed)
  {
    forall f ensures Refs(map[], f) == {} {}
    var none: Ledger := map[];
    CoveredAdd(none, refCount, managed, At(SystemRoot()), r, refCount[r := 1]);
    assert none[At(SystemRoot()) := r] == map[At(SystemRoot()) := r];
  }

  lemma FirstWalk(r: nat, u: nat)
    ensures Walk(map[r := Zeros()], r, 0, u) == Absent
  {}

  /** The page at the start of root slot x. */
  lemma RootSlot(x: nat)
    requires x < ENTRIES
    ensures x * 0x800_0000 < PAGES && Idx(0, x * 0x800_0000) == x
  {
    assert Num(3, x * 0x800_0000) == x * 0x4_0000;
    assert Num(2, x * 0x800_0000) == x * 0x200;
    assert Num(1, x * 0x800_0000) == x;
  }

  lemma UpperOfOne(mem: Memory, roots: map<AS, nat>)
    requires roots.Keys == {System} && forall y :: ENTRIES / 2 <= y < ENTRIES ==> Filled(mem, roots[System], y)
    ensures UpperFilled(mem, roots)
  {}

  /** A new root: empty user half, the system's kernel half. */
  function NewRootTable(sys: Table): (t: Table)
    requires |sys| == ENTRIES
    ensures |t| == ENTRIES
    ensures forall x :: 0 <= x < ENTRIES ==> t[x] == if x < ENTRIES / 2 then ZERO else sys[x]
  {
    seq(ENTRIES, x requires 0 <= x < ENTRIES => if x < ENTRIES / 2 then ZERO else sys[x])
  }

  /** The loops of PMap_NewAS that fill the new root. */
  method FillRoot(sys: Table) returns (t: Table)
    requires |sys| == ENTRIES
    ensures t == NewRootTable(sys)
  {
    t := [];
    while |t| < ENTRIES / 2
      invariant |t| <= ENTRIES / 2
      invariant forall x :: 0 <= x < |t| ==> t[x] == ZERO
    {
      t := t + [ZERO];
    }
    while |t| < ENTRIES
      invariant ENTRIES / 2 <= |t| <= ENTRIES
      invariant forall x :: 0 <= x < |t| ==> t[x] == if x < ENTRIES / 2 then ZERO else sys[x]
    {
      t := t + [sys[|t|]];
    }
  }

  function Root(a: AS): Place {
    Place(Of(a), 0, 0)
  }

  ghost function AddRoot(lay: Layout, a: AS, n: nat): Layout {
    Layout(lay.place[n := Root(a)], lay.at[Root(a) := n])
  }

  lemma AddRootLayout(lay: Layout, roots: map<AS, nat>, a: AS, n: nat)
    requires Inverse(lay) && Closed(lay) && Rooted(lay, roots) && a !in roots && n !in lay.place
    ensures Inverse(AddRoot(lay, a, n)) && Closed(AddRoot(lay, a, n))
    ensures forall p :: p in lay.at ==> p.owner != Of(a)
    ensures Rooted(AddRoot(lay, a, n), roots[a := n])
  {
    forall p | p in lay.at ensures p.owner != Of(a) {
      assert lay.place[lay.at[p]] == p;
    }
    hide Inverse, Closed, Rooted;
    AddRootInverse(lay, a, n);
    AddRootRooted(lay, roots, a, n);
  }

  lemma AddRootInverse(lay: Layout, a: AS, n: nat)
    requires Inverse(lay) && Closed(lay) && n !in lay.place && Root(a) !in lay.at
    ensures Inverse(AddRoot(lay, a, n)) && Closed(AddRoot(lay, a, n))
  {}

  lemma AddRootRooted(lay: Layout, roots: map<AS, nat>, a: AS, n: nat)
    requires Rooted(lay, roots) && a !in roots && n !in lay.place
    ensures Rooted(AddRoot(lay, a, n), roots[a := n])
  {}

  /** Slots of the new root: the kernel half leads where the system's leads. */
  lemma AddRootSlot(mem: Memory, lay: Layout, roots: map<AS, nat>, a: AS, n: nat, y: nat)
    requires WF(mem, lay) && Rooted(lay, roots) && System in roots && n !in lay.place && y < ENTRIES
    requires roots[System] in mem && |mem[roots[System]]| == ENTRIES
    requires forall p :: p in lay.at ==> p.owner != Of(a)
    ensures SlotOk(mem[n := NewRootTable(mem[roots[System]])], AddRoot(lay, a, n), n, y)
  {
    SlotFacts(mem, lay, roots[System], y);
    hide WF;
  }

  lemma AddRootWF(mem: Memory, lay: Layout, roots: map<AS, nat>, a: AS, n: nat)
    requires WF(mem, lay) && Rooted(lay, roots) && System in roots && a !in roots && n !in lay.place
    requires roots[System] in mem && |mem[roots[System]]| == ENTRIES
    ensures WF(mem[n := NewRootTable(mem[roots[System]])], AddRoot(lay, a, n))
  {
    var mem', lay' := mem[n := NewRootTable(mem[roots[System]])], AddRoot(lay, a, n);
    AddRootLayout(lay, roots, a, n);
    hide Rooted, Inverse, Closed;
    forall s, y | s in lay'.place && 0 <= y < ENTRIES
      ensures s in mem' && |mem'[s]| == ENTRIES && SlotOk(mem', lay', s, y)
    {
      if s == n {
        AddRootSlot(mem, lay, roots, a, n, y);
      } else {
        assert SlotOk(mem, lay, s, y);
      }
    }
  }

  /** An unreachable new table changes no walk. */
  lemma {:induction false} WalkAdd(mem: Memory, lay: Layout, n: nat, tab: Table, r: nat, level: nat, v: nat)
    requires WF(mem, lay) && n !in lay.place && level <= 3 && r in lay.place && lay.place[r].level == level
    ensures Walk(mem[n := tab], r, level, v) == Walk(mem, r, level, v)
    decreases 3 - level
  {
    var y := Idx(level, v);
    SlotFacts(mem, lay, r, y);
    hide WF;
    if IsPtr(level, mem[r][y]) {
      WalkAdd(mem, lay, n, tab, mem[r][y].frame, level + 1, v);
    }
  }

  lemma AddRootLooks(mem: Memory, lay: Layout, roots: map<AS, nat>, a: AS, n: nat, mem': Memory, roots': map<AS, nat>)
    requires Tree(mem, lay, roots) && System in roots && a !in roots && n !in lay.place
    requires roots[System] in mem && |mem[roots[System]]| == ENTRIES
    requires mem' == mem[n := NewRootTable(mem[roots[System]])] && roots' == roots[a := n]
    ensures forall b, u :: b in roots && 0 <= u < PAGES ==> Walk(mem', roots[b], 0, u) == Walk(mem, roots[b], 0, u)
    ensures forall u :: 0 <= u < HALF ==> Walk(mem', n, 0, u) == Absent
    ensures UpperFilled(mem', roots')
  {
    forall b, u | b in roots && 0 <= u < PAGES
      ensures Walk(mem', roots[b], 0, u) == Walk(mem, roots[b], 0, u)
    {
      RootFacts(mem, lay, roots, b, u);
      WalkAdd(mem, lay, n, mem'[n], roots[b], 0, u);
    }
    hide WF, Rooted;
    forall u | 0 <= u < HALF ensures Walk(mem', n, 0, u) == Absent {
      UpperIdx(u);
    }
    forall b, y | b in roots' && ENTRIES / 2 <= y < ENTRIES ensures Filled(mem', roots'[b], y) {
      assert Filled(mem, roots[System], y);
      assert b in roots ==> Filled(mem, roots[b], y);
    }
  }

  /** A page nothing holds is no table and no address-space record. */
  lemma NoSpace(mem: Memory, lay: Layout, roots: map<AS, nat>, ledger: Ledger, pg: nat, n: nat)
    requires WF(mem, lay) && Ledgered(mem, lay, roots, ledger)
    requires Refs(ledger, pg) == {} && Refs(ledger, n) == {}
    ensures Proc(pg) !in roots && n !in lay.place
    ensures Inverse(lay) && Closed(lay)
  {
    hide SlotOk, Inverse, Closed;
    forall t | t in lay.place ensures t != n {
      assert Holds(ledger, At(lay.place[t]), t);
      assert At(lay.place[t]) in Refs(ledger, t);
    }
    forall a | a in roots ensures a != Proc(pg) {
      assert a.Proc? ==> Holds(ledger, Record(a), a.page);
      assert a.Proc? ==> Record(a) in Refs(ledger, a.page);
    }
  }

  lemma AddRootLedger(mem: Memory, lay: Layout, roots: map<AS, nat>, ledger: Ledger, a: AS, n: nat, tab: Table)
    requires WF(mem, lay) && Ledgered(mem, lay, roots, ledger) && n !in lay.place && a.Proc? && a !in roots
    requires forall p :: p in lay.at ==> p.owner != Of(a)
    ensures Ledgered(mem[n := tab], AddRoot(lay, a, n), roots[a := n], ledger[Record(a) := a.page][At(Root(a)) := n])
  {
    var mem', lay', ledger' := mem[n := tab], AddRoot(lay, a, n), ledger[Record(a) := a.page][At(Root(a)) := n];
    assert n !in lay.place && forall t :: t in lay.place ==> lay.place[t].owner != Of(a);
    hide WF;
    forall s | s in lay'.place ensures Holds(ledger', At(lay'.place[s]), s) {
      assert s != n ==> Holds(ledger, At(lay.place[s]), s);
    }
    forall s, y | s in lay'.place && UserTable(lay'.place[s]) && 0 <= y < |mem'[s]| && mem'[s][y] != ZERO
      ensures Holds(ledger', At(Child(lay'.place[s], y)), mem'[s][y].frame)
    {
      assert Holds(ledger, At(Child(lay.place[s], y)), mem[s][y].frame);
    }
    forall b | b in roots[a := n] && b.Proc? ensures Holds(ledger', Record(b), b.page) {
      assert b != a ==> Holds(ledger, Record(b), b.page);
    }
  }

  const MEM_DIRECTMAP_BASE: nat := 0xFFFF_8000_0000_0000
  const DIRECT_PAGES: nat := 0x100_0000

  /** The page lies in a 2MB page that is mapped onto itself. */
  ghost predicate Direct(leaf: Leaf, u: nat) {
    leaf.Large? && leaf.e.frame == (u - HALF) / ENTRIES * ENTRIES
  }

  /** Under the direct map, DMPA2VA followed by translation is the identity. */
  lemma DirectIdentity(leaf: Leaf, pa: nat)
    requires pa < DIRECT_PAGES * PGSIZE && Direct(leaf, Vpn(MEM_DIRECTMAP_BASE + pa))
    ensures Physical(leaf, MEM_DIRECTMAP_BASE + pa) == pa
  {
    DirectVpn(pa);
    var u := pa / PGSIZE;
    assert leaf.e.frame == u / ENTRIES * ENTRIES;
    assert leaf.e.frame / ENTRIES == u / ENTRIES == pa / LARGE_PGSIZE;
    assert (MEM_DIRECTMAP_BASE + pa) % LARGE_PGSIZE == pa % LARGE_PGSIZE;
  }

  lemma DirectStart(phys: nat)
    requires phys % ENTRIES == 0 && phys <= DIRECT_PAGES
    ensures Vpn(MEM_DIRECTMAP_BASE + phys * PGSIZE) == HALF + phys && (HALF + phys) % ENTRIES == 0
    ensures HALF + DIRECT_PAGES <= PAGES
  {
    DirectVpn(phys * PGSIZE);
  }

  lemma DirectVpn(pa: nat)
    requires pa <= DIRECT_PAGES * PGSIZE
    ensures Vpn(MEM_DIRECTMAP_BASE + pa) == HALF + pa / PGSIZE
  {
    assert MEM_DIRECTMAP_BASE == 0xF_FFF8_0000_0000 * PGSIZE;
    assert (MEM_DIRECTMAP_BASE + pa) / PGSIZE == 0xF_FFF8_0000_0000 + pa / PGSIZE;
    assert 0xF_FFF8_0000_0000 == 0xFFFF * PAGES + HALF;
  }

  function SystemRoot(): Place {
    Place(Of(System), 0, 0)
  }
}
