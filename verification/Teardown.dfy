/** What PMap_DestroyAS finds and releases below a root (sys/amd64/pmap.c). */
module Teardown {
  import opened Common
  import opened PageAlloc
  import opened PageTables
  import opened PageLedger

  /** The references found below the first n entries of table t, whose place is p: one for
      each present entry, and those below it. */
  ghost function SubRefs(mem: Memory, t: nat, p: Place, n: nat): set<Ref>
    requires p.level <= 3
    decreases 4 - p.level, n
  {
    if n == 0 || t !in mem || |mem[t]| < n then {}
    else SubRefs(mem, t, p, n - 1) + EntryRefs(mem, mem[t][n - 1], Child(p, n - 1))
  }

  ghost function EntryRefs(mem: Memory, e: PageEntry, c: Place): set<Ref>
    requires 1 <= c.level <= 4
    decreases 4 - c.level, ENTRIES + 1
  {
    if P !in e.flags then {}
    else {At(c)} + if c.level == 4 then {} else SubRefs(mem, e.frame, c, ENTRIES)
  }

  /** The number of q's ancestor at a level. */
  function AncNum(q: Place, level: nat): nat
    requires level <= q.level
    decreases q.level
  {
    if level == q.level then q.num else AncNum(Parent(q), level)
  }

  ghost predicate Below(r: Ref, c: Place) {
    r.At? && c.level <= r.place.level && r.place.owner == c.owner && AncNum(r.place, c.level) == c.num
  }

  lemma BelowUp(q: Place, level: nat)
    requires level < q.level
    ensures AncNum(q, level) == AncNum(q, level + 1) / ENTRIES
    decreases q.level
  {
    if level + 1 < q.level {
      BelowUp(Parent(q), level);
    }
  }

  /** Everything found under an entry lies below its place. */
  lemma {:induction false} EntryBelow(mem: Memory, e: PageEntry, c: Place)
    requires 1 <= c.level <= 4
    ensures forall r :: r in EntryRefs(mem, e, c) ==> Below(r, c)
    decreases 4 - c.level, ENTRIES + 1
  {
    if P in e.flags && c.level < 4 {
      SubBelow(mem, e.frame, c, ENTRIES);
      forall r | r in SubRefs(mem, e.frame, c, ENTRIES) ensures Below(r, c) {
        BelowUp(r.place, c.level);
      }
    }
  }

  lemma {:induction false} SubBelow(mem: Memory, t: nat, p: Place, n: nat)
    requires p.level <= 3 && n <= (if p.level == 0 then ENTRIES / 2 else ENTRIES)
    ensures forall r :: r in SubRefs(mem, t, p, n) ==>
      && r.At? && p.level < r.place.level && r.place.owner == p.owner
      && p.num * ENTRIES <= AncNum(r.place, p.level + 1) < p.num * ENTRIES + n
    decreases 4 - p.level, n
  {
    if n > 0 && t in mem && |mem[t]| >= n {
      SubBelow(mem, t, p, n - 1);
      EntryBelow(mem, mem[t][n - 1], Child(p, n - 1));
    }
  }

  /** A user-half slot: its entry holds the reference the ledger names, and a table hanging
      there is again a user table. */
  lemma SlotHeld(mem: Memory, lay: Layout, roots: map<AS, nat>, ledger: Ledger, t: nat, x: nat)
    requires WF(mem, lay) && Ledgered(mem, lay, roots, ledger) && t in lay.place && x < ENTRIES && t in lay.place
    requires lay.place[t].owner.Of? && lay.place[t].owner.space.Proc? && (lay.place[t].level == 0 ==> x < ENTRIES / 2)
    requires |mem[t]| == ENTRIES && P in mem[t][x].flags
    ensures Holds(ledger, At(Child(lay.place[t], x)), mem[t][x].frame)
    ensures lay.place[t].level < 3 ==>
      mem[t][x].frame in mem && mem[t][x].frame in lay.place && lay.place[mem[t][x].frame] == Child(lay.place[t], x)
    ensures lay.place[t].level <= 3
  {
    SlotFacts(mem, lay, t, x);
    assert lay.place[t].level <= 3;
    hide WF;
    var p, e := lay.place[t], mem[t][x];
    if p.level < 3 {
      assert ProcTable(p) ==> PS !in e.flags;
      assert IsPtr(p.level, e);
      assert Holds(ledger, At(lay.place[e.frame]), e.frame);
    } else {
      assert UserTable(p);
    }
  }

  lemma {:induction false} SubHeld(mem: Memory, lay: Layout, roots: map<AS, nat>, ledger: Ledger, t: nat, n: nat)
    requires WF(mem, lay) && Ledgered(mem, lay, roots, ledger) && t in lay.place && lay.place[t].level <= 3
    requires lay.place[t].owner.Of? && lay.place[t].owner.space.Proc?
    requires n <= if lay.place[t].level == 0 then ENTRIES / 2 else ENTRIES
    ensures forall r :: r in SubRefs(mem, t, lay.place[t], n) ==> r in ledger
    decreases 4 - lay.place[t].level, n
  {
    hide WF, Ledgered;
    if n > 0 {
      SubHeld(mem, lay, roots, ledger, t, n - 1);
      SlotFacts(mem, lay, t, n - 1);
      var e := mem[t][n - 1];
      if P in e.flags {
        SlotHeld(mem, lay, roots, ledger, t, n - 1);
        if lay.place[t].level < 3 {
          SubHeld(mem, lay, roots, ledger, e.frame, ENTRIES);
        }
      }
    }
  }

  /** Dropping a reference together with its count keeps the ledger covered. */
  lemma CoveredDrop(ledger: Ledger, refCount: map<nat, nat>, managed: set<nat>, r: Ref)
    requires Covered(ledger, refCount, managed) && r in ledger
    ensures ledger[r] in managed && ledger[r] in refCount && refCount[ledger[r]] > 0
    ensures Covered(ledger - {r}, refCount[ledger[r] := refCount[ledger[r]] - 1], managed)
    ensures Balanced(ledger, refCount, ledger - {r}, refCount[ledger[r] := refCount[ledger[r]] - 1], managed)
  {
    var f := ledger[r];
    assert r in Refs(ledger, f);
    forall g | g in managed
      ensures |Refs(ledger - {r}, g)| == |Refs(ledger, g)| - (if g == f then 1 else 0)
    {
      assert Refs(ledger - {r}, g) == Refs(ledger, g) - {r};
    }
  }

  lemma {:induction false} SubMono(mem: Memory, t: nat, p: Place, x: nat, n: nat)
    requires p.level <= 3 && t in mem && x <= n <= |mem[t]|
    ensures SubRefs(mem, t, p, x) <= SubRefs(mem, t, p, n)
  {
    if x < n {
      SubMono(mem, t, p, x, n - 1);
    }
  }

  lemma SubStep(mem: Memory, t: nat, p: Place, x: nat, n: nat)
    requires p.level <= 3 && t in mem && x < n <= |mem[t]|
    requires n <= if p.level == 0 then ENTRIES / 2 else ENTRIES
    ensures SubRefs(mem, t, p, x + 1) == SubRefs(mem, t, p, x) + EntryRefs(mem, mem[t][x], Child(p, x))
    ensures SubRefs(mem, t, p, x) !! EntryRefs(mem, mem[t][x], Child(p, x))
    ensures EntryRefs(mem, mem[t][x], Child(p, x)) <= SubRefs(mem, t, p, n)
  {
    SubBelow(mem, t, p, x);
    EntryBelow(mem, mem[t][x], Child(p, x));
    SubMono(mem, t, p, x + 1, n);
  }

  /** The references of s are still in the ledger, as they were in ledger0. */
  ghost predicate Agree(ledger: Ledger, ledger0: Ledger, s: set<Ref>) {
    forall r :: r in s ==> r in ledger && r in ledger0 && ledger[r] == ledger0[r]
  }

  lemma AgreeMinus(ledger: Ledger, ledger0: Ledger, s: set<Ref>, gone: set<Ref>, rest: set<Ref>)
    requires Agree(ledger, ledger0, s) && rest <= s && gone !! rest
    ensures Agree(ledger - gone, ledger0, rest)
    ensures ledger - gone - rest == ledger - (gone + rest)
  {}

  /** log lists the references of s, each once. */
  ghost predicate Lists(log: seq<Ref>, s: set<Ref>) {
    NoDup(log) && forall r :: r in log <==> r in s
  }

  lemma ListsAppend(log: seq<Ref>, s: set<Ref>, more: seq<Ref>, u: set<Ref>)
    requires Lists(log, s) && Lists(more, u) && s !! u
    ensures Lists(log + more, s + u)
  {
    forall i, j | 0 <= i < j < |log + more| ensures (log + more)[i] != (log + more)[j] {
      if i < |log| <= j {
        assert log[i] in s && more[j - |log|] in u;
      }
    }
  }

  lemma NoLog()
    ensures Lists([], {})
  {}

  lemma OneLog(log: seq<Ref>, s: set<Ref>, r: Ref)
    requires r in s && Lists(log, s - {r})
    ensures Lists(log + [r], s)
  {
    ListsAppend(log, s - {r}, [r], {r});
    assert s - {r} + {r} == s;
  }

  // What PMap_DestroyAS finds, said without its loops.

  /** Every entry on u's path from t at one level down to another is present. */
  ghost predicate Present(mem: Memory, t: nat, level: nat, u: nat, lev: nat)
    requires level <= lev <= 4
    decreases lev - level
  {
    level == lev ||
    (t in mem && |mem[t]| == ENTRIES && P in mem[t][Idx(level, u)].flags &&
      Present(mem, mem[t][Idx(level, u)].frame, level + 1, u, lev))
  }

  lemma {:induction false} AncAt(a: AS, lev: nat, level: nat, u: nat)
    requires 1 <= level <= lev <= 4 && u < HALF
    ensures AncNum(PlaceAt(a, lev, u), level) == Num(level, u)
    decreases lev
  {
    if level < lev {
      assert Parent(PlaceAt(a, lev, u)) == PlaceAt(a, lev - 1, u);
      AncAt(a, lev - 1, level, u);
    }
  }

  /** A reference below slot x is found exactly by visiting slot x. */
  lemma {:induction false} SubAt(mem: Memory, t: nat, p: Place, n: nat, x: nat, r: Ref)
    requires p.level <= 3 && t in mem && n <= |mem[t]| && x < |mem[t]|
    requires n <= if p.level == 0 then ENTRIES / 2 else ENTRIES
    requires r.At? && p.level < r.place.level && AncNum(r.place, p.level + 1) == p.num * ENTRIES + x
    ensures r in SubRefs(mem, t, p, n) <==> x < n && r in EntryRefs(mem, mem[t][x], Child(p, x))
  {
    if n > 0 {
      SubAt(mem, t, p, n - 1, x, r);
      EntryBelow(mem, mem[t][n - 1], Child(p, n - 1));
    }
  }

  /** Below a user table, teardown finds the place at level lev on u's path exactly when
      every entry down to it is present. */
  lemma {:induction false} SubFinds(mem: Memory, lay: Layout, roots: map<AS, nat>, ledger: Ledger, t: nat,
          a: AS, level: nat, u: nat, lev: nat)
    requires WF(mem, lay) && Ledgered(mem, lay, roots, ledger) && a.Proc? && u < HALF && level < lev <= 4
    requires t in lay.place && lay.place[t] == PlaceAt(a, level, u)
    ensures At(PlaceAt(a, lev, u)) in SubRefs(mem, t, lay.place[t], if level == 0 then ENTRIES / 2 else ENTRIES)
       <==> Present(mem, t, level, u, lev)
    decreases 4 - level
  {
    hide WF, Ledgered, EntryRefs, SubRefs;
    var x, p, r := Idx(level, u), lay.place[t], At(PlaceAt(a, lev, u));
    SlotFacts(mem, lay, t, x);
    ChildAt(a, level, u);
    UpperIdx(u);
    AncAt(a, lev, level + 1, u);
    SubAt(mem, t, p, if level == 0 then ENTRIES / 2 else ENTRIES, x, r);
    EntryFinds(mem, mem[t][x], Child(p, x), r);
    if P in mem[t][x].flags {
      SlotHeld(mem, lay, roots, ledger, t, x);
      if level + 1 < lev {
        SubFinds(mem, lay, roots, ledger, mem[t][x].frame, a, level + 1, u, lev);
      }
    }
  }

  lemma EntrySplit(mem: Memory, e: PageEntry, c: Place, sub: set<Ref>)
    requires 1 <= c.level <= 4 && P in e.flags
    requires sub == if c.level == 4 then {} else SubRefs(mem, e.frame, c, ENTRIES)
    ensures EntryRefs(mem, e, c) == sub + {At(c)} && At(c) !in sub && EntryRefs(mem, e, c) - {At(c)} == sub
  {
    if c.level < 4 {
      SubBelow(mem, e.frame, c, ENTRIES);
    }
  }

  lemma EntryEmpty(mem: Memory, e: PageEntry, c: Place)
    requires 1 <= c.level <= 4 && P !in e.flags
    ensures EntryRefs(mem, e, c) == {}
  {}

  lemma EntryFinds(mem: Memory, e: PageEntry, c: Place, r: Ref)
    requires 1 <= c.level <= 4
    ensures r in EntryRefs(mem, e, c) <==>
      P in e.flags && (r == At(c) || (c.level < 4 && r in SubRefs(mem, e.frame, c, ENTRIES)))
  {}

  /** A user page is found by teardown exactly when it is mapped. */
  lemma {:induction false} PresentMapped(mem: Memory, lay: Layout, roots: map<AS, nat>, ledger: Ledger, t: nat,
          a: AS, level: nat, u: nat)
    requires WF(mem, lay) && Ledgered(mem, lay, roots, ledger) && a.Proc? && u < HALF && level <= 3
    requires t in lay.place && lay.place[t] == PlaceAt(a, level, u)
    ensures Present(mem, t, level, u, 4) <==> Walk(mem, t, level, u).Small?
    ensures !Walk(mem, t, level, u).Large?
    decreases 4 - level
  {
    hide WF, Ledgered;
    var x, p := Idx(level, u), lay.place[t];
    SlotFacts(mem, lay, t, x);
    ChildAt(a, level, u);
    UpperIdx(u);
    if P in mem[t][x].flags {
      SlotHeld(mem, lay, roots, ledger, t, x);
      NoLarge(mem, lay, roots, ledger, t, x);
      if level < 3 {
        PresentMapped(mem, lay, roots, ledger, mem[t][x].frame, a, level + 1, u);
      } else {
        assert Present(mem, mem[t][x].frame, 4, u, 4);
      }
    }
  }

  lemma NoLarge(mem: Memory, lay: Layout, roots: map<AS, nat>, ledger: Ledger, t: nat, x: nat)
    requires Ledgered(mem, lay, roots, ledger) && t in lay.place && t in mem && x < |mem[t]|
    ensures ProcTable(lay.place[t]) ==> PS !in mem[t][x].flags
  {}

  /** What is left of the layout and the ledger when address space a is gone. */
  ghost function PruneLayout(lay: Layout, a: AS): Layout {
    Layout(map t | t in lay.place && lay.place[t].owner != Of(a) :: lay.place[t],
           map p | p in lay.at && p.owner != Of(a) :: lay.at[p])
  }

  ghost predicate BelongsTo(r: Ref, a: AS) {
    match r
    case At(p) => p.owner == Of(a)
    case Record(b) => b == a
  }

  ghost function PruneLedger(ledger: Ledger, a: AS): Ledger {
    map r | r in ledger && !BelongsTo(r, a) :: ledger[r]
  }

  lemma PruneLayoutOk(lay: Layout, roots: map<AS, nat>, a: AS)
    requires Inverse(lay) && Closed(lay) && Rooted(lay, roots)
    ensures Inverse(PruneLayout(lay, a)) && Closed(PruneLayout(lay, a)) && Rooted(PruneLayout(lay, a), roots - {a})
  {
    var lay' := PruneLayout(lay, a);
    forall p | p in lay'.at && p.level >= 2 ensures Parent(p) in lay'.at {
      assert Parent(p).owner == p.owner;
    }
  }

  lemma PruneTree(mem: Memory, lay: Layout, roots: map<AS, nat>, a: AS)
    requires Tree(mem, lay, roots)
    ensures Tree(mem, PruneLayout(lay, a), roots - {a})
  {
    var lay' := PruneLayout(lay, a);
    PruneLayoutOk(lay, roots, a);
    forall b, y | b in roots - {a} && ENTRIES / 2 <= y < ENTRIES ensures Filled(mem, (roots - {a})[b], y) {
      assert Filled(mem, roots[b], y);
    }
    hide Rooted, UpperFilled, Inverse, Closed;
    forall s, y | s in lay'.place && 0 <= y < ENTRIES
      ensures s in mem && |mem[s]| == ENTRIES && SlotOk(mem, lay', s, y)
    {
      assert SlotOk(mem, lay, s, y);
    }
  }

  lemma PruneLedgered(mem: Memory, lay: Layout, roots: map<AS, nat>, ledger: Ledger, a: AS)
    requires Ledgered(mem, lay, roots, ledger) && WF(mem, lay)
    ensures Ledgered(mem, PruneLayout(lay, a), roots - {a}, PruneLedger(ledger, a))
  {
    hide WF;
    var lay', ledger' := PruneLayout(lay, a), PruneLedger(ledger, a);
    forall s | s in lay'.place ensures Holds(ledger', At(lay'.place[s]), s) {
      assert Holds(ledger, At(lay.place[s]), s);
    }
    forall s, y | s in lay'.place && s in mem && UserTable(lay'.place[s]) && 0 <= y < |mem[s]| && mem[s][y] != ZERO
      ensures Holds(ledger', At(Child(lay'.place[s], y)), mem[s][y].frame)
    {
      assert Holds(ledger, At(Child(lay.place[s], y)), mem[s][y].frame);
    }
    forall b | b in roots - {a} && b.Proc? ensures Holds(ledger', Record(b), b.page) {
      assert Holds(ledger, Record(b), b.page);
    }
  }

  /** Forgetting references keeps the ledger covered. */
  lemma CoveredLess(ledger: Ledger, less: Ledger, refCount: map<nat, nat>, managed: set<nat>)
    requires Covered(ledger, refCount, managed) && forall r :: r in less ==> r in ledger && ledger[r] == less[r]
    ensures Covered(less, refCount, managed)
  {
    forall f | f in managed ensures |Refs(less, f)| <= refCount[f] {
      SubsetSize(Refs(less, f), Refs(ledger, f));
    }
  }

  /** Every page's count changed exactly as the ledger did. */
  ghost predicate Balanced(l0: Ledger, c0: map<nat, nat>, l1: Ledger, c1: map<nat, nat>, managed: set<nat>) {
    forall f :: f in managed ==> f in c0 && f in c1 && c0[f] - |Refs(l0, f)| == c1[f] - |Refs(l1, f)|
  }

  lemma BalancedTrans(l0: Ledger, c0: map<nat, nat>, l1: Ledger, c1: map<nat, nat>, l2: Ledger,
          c2: map<nat, nat>, managed: set<nat>)
    requires Balanced(l0, c0, l1, c1, managed) && Balanced(l1, c1, l2, c2, managed)
    ensures Balanced(l0, c0, l2, c2, managed)
  {
    hide Refs;
  }

  lemma BalancedSelf(l0: Ledger, c0: map<nat, nat>, managed: set<nat>)
    requires managed <= c0.Keys
    ensures Balanced(l0, c0, l0, c0, managed)
  {}

  /** The references of s that are to page f. */
  ghost function Dropped(ledger: Ledger, s: set<Ref>, f: nat): set<Ref> {
    set r | r in s && r in ledger && ledger[r] == f
  }

  lemma BalancedDropped(l0: Ledger, c0: map<nat, nat>, s: set<Ref>, c1: map<nat, nat>, managed: set<nat>, f: nat)
    requires Balanced(l0, c0, l0 - s, c1, managed) && f in managed
    ensures f in c0 && f in c1 && c1[f] + |Dropped(l0, s, f)| == c0[f]
  {
    assert Refs(l0, f) == Refs(l0 - s, f) + Dropped(l0, s, f);
    assert Refs(l0 - s, f) !! Dropped(l0, s, f);
  }

  ghost function Elems(log: seq<Ref>): set<Ref> {
    set r | r in log
  }

  lemma Findings(mem: Memory, lay: Layout, roots: map<AS, nat>, ledger: Ledger, a: AS, log: seq<Ref>)
    requires WF(mem, lay) && Rooted(lay, roots) && Ledgered(mem, lay, roots, ledger) && a in roots && a.Proc?
    requires Lists(log, SubRefs(mem, roots[a], Root(a), ENTRIES / 2) + {Record(a)})
    ensures NoDup(log) && Record(a) in log && Elems(log) == SubRefs(mem, roots[a], Root(a), ENTRIES / 2) + {Record(a)}
    ensures forall u :: 0 <= u < HALF ==> (At(PlaceAt(a, 4, u)) in log <==> Walk(mem, roots[a], 0, u).Small?)
    ensures forall u, lev :: 0 <= u < HALF && 1 <= lev <= 3 ==>
      (At(PlaceAt(a, lev, u)) in log <==> Present(mem, roots[a], 0, u, lev))
    ensures forall r :: r in log ==> r == Record(a) || (r.At? && r.place.owner == Of(a) && r.place.level >= 1)
    ensures forall r :: r in log ==> BelongsTo(r, a)
  {
    hide WF, Rooted, Ledgered, SubRefs, Walk, Present, Num;
    SubBelow(mem, roots[a], Root(a), ENTRIES / 2);
    forall u | 0 <= u < HALF ensures At(PlaceAt(a, 4, u)) in log <==> Walk(mem, roots[a], 0, u).Small? {
      RootFacts(mem, lay, roots, a, u);
      SubFinds(mem, lay, roots, ledger, roots[a], a, 0, u, 4);
      PresentMapped(mem, lay, roots, ledger, roots[a], a, 0, u);
    }
    forall u, lev | 0 <= u < HALF && 1 <= lev <= 3
      ensures At(PlaceAt(a, lev, u)) in log <==> Present(mem, roots[a], 0, u, lev)
    {
      RootFacts(mem, lay, roots, a, u);
      SubFinds(mem, lay, roots, ledger, roots[a], a, 0, u, lev);
    }
  }
}
