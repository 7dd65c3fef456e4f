/** The ELF loader (sys/kern/loader.c): builds a process image page by page through the page
    tables of its address space. */
module Loader {
  import opened Common
  import opened PageAlloc
  import opened PageTables
  import opened PageLedger
  import opened PageRanges
  import opened Teardown
  import opened PMap

  const USER_TOP: nat := HALF * PGSIZE
  const STKBASE: nat := 0x7000_0000
  const STKLEN: nat := 0x1_0000

  datatype SegType = PtLoad | PtDynamic | PtOther
  datatype Phdr = Phdr(ptype: SegType, vaddr: nat, offset: nat, filesz: nat, memsz: nat)
  datatype Ehdr = Ehdr(magic: seq<Byte>, class64: bool, amd64: bool, phdrs: seq<Phdr>, entry: nat)

  /** Loader_CheckHeader. */
  predicate CheckHeader(ehdr: Ehdr) {
    ehdr.magic == [0x7F, 0x45, 0x4C, 0x46] && ehdr.class64 && ehdr.amd64
  }

  /** What a read of len bytes at off delivers: it stops at the end of the file. */
  function ReadBytes(file: seq<Byte>, off: nat, len: nat): seq<Byte> {
    if off > |file| then [] else if off + len > |file| then file[off..] else file[off..off + len]
  }

  lemma {:induction false} LeafHeld(mem: Memory, lay: Layout, roots: map<AS, nat>, ledger: Ledger, t: nat,
          a: AS, level: nat, u: nat)
    requires WF(mem, lay) && Ledgered(mem, lay, roots, ledger) && a.Proc? && u < HALF && level <= 3
    requires t in lay.place && lay.place[t] == PlaceAt(a, level, u)
    requires Walk(mem, t, level, u).Small?
    ensures Holds(ledger, At(PlaceAt(a, 4, u)), Walk(mem, t, level, u).e.frame)
    decreases 4 - level
  {
    hide WF, Ledgered;
    var x := Idx(level, u);
    SlotFacts(mem, lay, t, x);
    ChildAt(a, level, u);
    UpperIdx(u);
    SlotHeld(mem, lay, roots, ledger, t, x);
    if level < 3 {
      LeafHeld(mem, lay, roots, ledger, mem[t][x].frame, a, level + 1, u);
    }
  }

  lemma HeldCounted(ledger: Ledger, refCount: map<nat, nat>, managed: set<nat>, r: Ref, f: nat)
    requires Covered(ledger, refCount, managed) && Holds(ledger, r, f)
    ensures f in managed && f in refCount && refCount[f] > 0
  {
    assert r in Refs(ledger, f);
  }

  class Loader {
    const pmap: PMap
    var ram: map<nat, seq<Byte>>

    constructor (pmap: PMap, ram: map<nat, seq<Byte>>)
      ensures this.pmap == pmap && this.ram == ram
    {
      this.pmap, this.ram := pmap, ram;
    }

    ghost predicate Valid()
      reads this, pmap, pmap.palloc
    {
      && pmap.Valid()
      && forall p :: p in pmap.palloc.managed ==> p in ram && |ram[p]| == PGSIZE
    }

    /** Address va of process a is backed by a page. */
    ghost predicate Mapped(a: AS, va: nat)
      requires a in pmap.roots
      reads pmap
    {
      va < USER_TOP && pmap.Look(a, va / PGSIZE).Small?
    }

    /** No two user pages of a share a physical page. */
    ghost predicate Private(a: AS)
      requires a in pmap.roots
      reads pmap
    {
      forall u, w :: 0 <= u < w < HALF && pmap.Look(a, u).Small? && pmap.Look(a, w).Small? ==>
        pmap.Look(a, u).e.frame != pmap.Look(a, w).e.frame
    }

    /** The page holding a mapped address is in memory. */
    lemma PageOf(a: AS, u: nat)
      requires Valid() && a in pmap.roots && a.Proc? && u < HALF && pmap.Look(a, u).Small?
      ensures pmap.Look(a, u).e.frame in pmap.palloc.managed && pmap.palloc.refCount[pmap.Look(a, u).e.frame] > 0
    {
      hide WF, Rooted, UpperFilled, Ledgered, Covered, Walk, Reach, Num, Refs;
      RootFacts(pmap.mem, pmap.lay, pmap.roots, a, u);
      LeafHeld(pmap.mem, pmap.lay, pmap.roots, pmap.ledger, pmap.roots[a], a, 0, u);
      HeldCounted(pmap.ledger, pmap.palloc.refCount, pmap.palloc.managed, At(PlaceAt(a, 4, u)),
        pmap.Look(a, u).e.frame);
    }

    /** The byte process a sees at an address, if it is mapped. */
    ghost function View(a: AS, va: nat): Option<Byte>
      requires a in pmap.roots
      reads this, pmap
    {
      if !Mapped(a, va) then None else
      var f := pmap.Look(a, va / PGSIZE).e.frame;
      if f in ram && |ram[f]| == PGSIZE then Some(ram[f][va % PGSIZE]) else None
    }

    /** Copy data to the direct-mapped address of va: what VFS_Read and memset do once the
        caller has kept the chunk within one page. */
    method WriteChunk(a: AS, va: nat, data: seq<Byte>)
      requires Valid() && a in pmap.roots && a.Proc? && Private(a)
      requires Mapped(a, va) && va % PGSIZE + |data| <= PGSIZE
      modifies this`ram
      ensures Valid()
      ensures forall w: nat :: View(a, w) == if va <= w < va + |data| then Some(data[w - va]) else old(View(a, w))
    {
      hide WF, Rooted, UpperFilled, Ledgered, Covered, Walk;
      UserVpn(va);
      PageOf(a, va / PGSIZE);
      var pa := pmap.Translate(a, va);
      ghost var f := pmap.Look(a, va / PGSIZE).e.frame;
      var page, off := pa.value / PGSIZE, pa.value % PGSIZE;
      assert page == f && off == va % PGSIZE;
      ram := ram[page := ram[page][..off] + data + ram[page][off + |data|..]];
      forall w: nat
        ensures View(a, w) == if va <= w < va + |data| then Some(data[w - va]) else old(View(a, w))
      {
        SamePage(va, w, |data|);
      }
    }

    /** The pages touched by [lo, hi) are all mapped. */
    ghost predicate Backed(a: AS, lo: nat, hi: nat)
      requires a in pmap.roots
      reads pmap
    {
      hi <= USER_TOP && forall u :: lo / PGSIZE <= u < (hi + PGSIZE - 1) / PGSIZE ==> pmap.Look(a, u).Small?
    }

    lemma BackedAt(a: AS, lo: nat, hi: nat, va: nat)
      requires a in pmap.roots && Backed(a, lo, hi) && lo <= va
      requires va < hi || (va == hi && va % PGSIZE != 0)
      ensures Mapped(a, va)
    {
      hide Walk;
      assert lo / PGSIZE <= va / PGSIZE < (hi + PGSIZE - 1) / PGSIZE;
    }

    /** LoaderLoadSegment. */
    method LoadSegment(a: AS, file: seq<Byte>, vaddr0: nat, offset0: nat, len0: nat)
      requires Valid() && a in pmap.roots && a.Proc? && Private(a) && Backed(a, vaddr0, vaddr0 + len0)
      modifies this`ram
      ensures Valid()
      ensures forall w: nat :: View(a, w) == Loaded(file, vaddr0, offset0, len0, w, old(View(a, w)))
    {
      hide WF, Rooted, UpperFilled, Ledgered, Covered, Walk, Loaded, Private, Backed, Mapped, View;
      ghost var was: imap<nat, Option<Byte>> := imap w: nat | true :: View(a, w);
      var vaddr, offset, len := vaddr0, offset0, len0;
      forall w: nat ensures View(a, w) == Loaded(file, vaddr0, offset0, 0, w, was[w]) {
        LoadedNone(file, vaddr0, offset0, w, was[w]);
      }
      if vaddr % PGSIZE != 0 {
        var maxlen := PGSIZE - vaddr % PGSIZE;
        var rlen := if maxlen < len then maxlen else len;
        BackedAt(a, vaddr0, vaddr0 + len0, vaddr);
        LoadNext(a, file, vaddr0, offset0, 0, rlen, was);
        NextPage(vaddr, rlen);
        vaddr, offset, len := vaddr + rlen, offset + rlen, len - rlen;
      }
      while len > PGSIZE
        invariant Valid() && vaddr + len == vaddr0 + len0 && vaddr0 <= vaddr && offset - offset0 == vaddr - vaddr0
        invariant len >= 0 && (len > 0 ==> vaddr % PGSIZE == 0)
        invariant forall w: nat :: View(a, w) == Loaded(file, vaddr0, offset0, vaddr - vaddr0, w, was[w])
      {
        BackedAt(a, vaddr0, vaddr0 + len0, vaddr);
        LoadNext(a, file, vaddr0, offset0, vaddr - vaddr0, PGSIZE, was);
        NextPage(vaddr, PGSIZE);
        vaddr, offset, len := vaddr + PGSIZE, offset + PGSIZE, len - PGSIZE;
      }
      if len > 0 {
        BackedAt(a, vaddr0, vaddr0 + len0, vaddr);
        LoadNext(a, file, vaddr0, offset0, vaddr - vaddr0, len, was);
      }
    }

    /** The next n bytes of a segment of which done are loaded. */
    method LoadNext(a: AS, file: seq<Byte>, vaddr: nat, offset: nat, done: nat, n: nat,
            ghost was: imap<nat, Option<Byte>>)
      requires Valid() && a in pmap.roots && a.Proc? && Private(a)
      requires Mapped(a, vaddr + done) && (vaddr + done) % PGSIZE + n <= PGSIZE
      requires forall w: nat :: w in was && View(a, w) == Loaded(file, vaddr, offset, done, w, was[w])
      modifies this`ram
      ensures Valid()
      ensures forall w: nat :: View(a, w) == Loaded(file, vaddr, offset, done + n, w, was[w])
    {
      hide WF, Rooted, UpperFilled, Ledgered, Covered, Walk, Loaded, Private, Mapped, View, Vpn;
      LoadChunk(a, file, vaddr + done, offset + done, n);
      forall w: nat ensures View(a, w) == Loaded(file, vaddr, offset, done + n, w, was[w]) {
        LoadedMore(file, vaddr, offset, done, n, w, was[w]);
      }
    }

    /** One VFS_Read of the loader, of a chunk that lies within one page. */
    method LoadChunk(a: AS, file: seq<Byte>, va: nat, offset: nat, len: nat)
      requires Valid() && a in pmap.roots && a.Proc? && Private(a)
      requires Mapped(a, va) && va % PGSIZE + len <= PGSIZE
      modifies this`ram
      ensures Valid()
      ensures forall w: nat :: View(a, w) == Loaded(file, va, offset, len, w, old(View(a, w)))
    {
      hide WF, Rooted, UpperFilled, Ledgered, Covered, Walk, Vpn;
      WriteChunk(a, va, ReadBytes(file, offset, len));
    }

    /** LoaderZeroSegment. */
    method ZeroSegment(a: AS, vaddr0: nat, len0: nat)
      requires Valid() && a in pmap.roots && a.Proc? && Private(a) && Backed(a, vaddr0, vaddr0 + len0)
      modifies this`ram
      ensures Valid()
      ensures forall w: nat :: View(a, w) == if vaddr0 <= w < vaddr0 + len0 then Some(0) else old(View(a, w))
    {
      hide WF, Rooted, UpperFilled, Ledgered, Covered, Walk, Loaded, Private, Backed, Mapped, View;
      var vaddr, len := vaddr0, len0;
      if vaddr % PGSIZE != 0 {
        var maxlen := PGSIZE - vaddr % PGSIZE;
        var rlen := if maxlen < len then maxlen else len;
        BackedAt(a, vaddr0, vaddr0 + len0, vaddr);
        WriteChunk(a, vaddr, Zeroes(rlen));
        NextPage(vaddr, rlen);
        vaddr, len := vaddr + rlen, len - rlen;
      }
      while len > PGSIZE
        invariant Valid() && vaddr + len == vaddr0 + len0 && vaddr0 <= vaddr
        invariant len >= 0 && (len > 0 ==> vaddr % PGSIZE == 0)
        invariant forall w: nat :: View(a, w) == if vaddr0 <= w < vaddr then Some(0) else old(View(a, w))
      {
        BackedAt(a, vaddr0, vaddr0 + len0, vaddr);
        WriteChunk(a, vaddr, Zeroes(PGSIZE));
        NextPage(vaddr, PGSIZE);
        vaddr, len := vaddr + PGSIZE, len - PGSIZE;
      }
      if len > 0 {
        BackedAt(a, vaddr0, vaddr0 + len0, vaddr);
        WriteChunk(a, vaddr, Zeroes(len));
      }
    }

    /** The image the "Program Header" section of chapter 5 of the System V gABI requires of
        a loadable segment: file bytes, then zeros. */
    ghost predicate Image(a: AS, file: seq<Byte>, ph: Phdr)
      requires a in pmap.roots
      reads this, pmap
    {
      && (forall w: nat :: ph.vaddr <= w < ph.vaddr + ph.filesz && ph.offset + (w - ph.vaddr) < |file| ==>
            View(a, w) == Some(file[ph.offset + (w - ph.vaddr)]))
      && (forall w: nat :: ph.vaddr + ph.filesz <= w < ph.vaddr + ph.memsz ==> View(a, w) == Some(0))
    }

    /** PMap_AllocMap on a user range: the range becomes backed, pages stay private. */
    method AllocUser(a: AS, virt: nat, len: nat) returns (ok: bool)
      requires Valid() && a in pmap.roots && a.Proc? && Private(a)
      requires virt % PGSIZE == 0 && virt + len <= USER_TOP && len <= 0x8000_0000
      modifies pmap`mem, pmap`lay, pmap`ledger, pmap.palloc
      ensures Valid() && Private(a)
      ensures ok ==> Backed(a, virt, virt + len)
      ensures !ok ==> pmap.palloc.freeList == []
      ensures forall u :: 0 <= u < HALF && old(pmap.Look(a, u)).Small? ==> pmap.Look(a, u).Small?
    {
      hide WF, Rooted, UpperFilled, Ledgered, Covered, Walk, Refs, Num, Reach;
      UserVpn(virt);
      forall u | 0 <= u < HALF
        ensures !pmap.Look(a, u).Large?
        ensures pmap.Look(a, u).Small? ==>
          pmap.Look(a, u).e.frame in pmap.palloc.refCount && pmap.palloc.refCount[pmap.Look(a, u).e.frame] > 0
      {
        RootFacts(pmap.mem, pmap.lay, pmap.roots, a, u);
        PresentMapped(pmap.mem, pmap.lay, pmap.roots, pmap.ledger, pmap.roots[a], a, 0, u);
        if pmap.Look(a, u).Small? {
          PageOf(a, u);
        }
      }
      ghost var v := Vpn(virt);
      UserPages(virt, len);
      forall u, n | 0 <= u < PAGES && 0 <= n <= PagesOf(len) ensures Reached(a, u, a, v, n) <==> v <= u < v + n {
        ReachedRange(a, u, a, v, n);
      }
      hide Vpn, Reached, PagesOf;
      ghost var n, backed;
      ok, n, backed := pmap.AllocMap(a, virt, len, {W});
    }

    /** The first loop of Loader_Load; false stands for its assertions too. */
    method MapSegments(a: AS, phdrs: seq<Phdr>) returns (ok: bool)
      requires Valid() && a in pmap.roots && a.Proc? && Private(a)
      requires forall i :: 0 <= i < |phdrs| && phdrs[i].ptype.PtLoad? ==> phdrs[i].vaddr + phdrs[i].memsz <= USER_TOP
      modifies pmap`mem, pmap`lay, pmap`ledger, pmap.palloc
      ensures Valid() && Private(a)
      ensures ok ==> AllBacked(a, phdrs, |phdrs|)
      ensures !ok ==>
        pmap.palloc.freeList == [] || exists i :: 0 <= i < |phdrs| && (phdrs[i].ptype.PtDynamic? || TooLong(phdrs[i]))
    {
      hide WF, Rooted, UpperFilled, Ledgered, Covered, Walk, Private, View;
      var i := 0;
      while i < |phdrs|
        invariant 0 <= i <= |phdrs|
        invariant Valid() && Private(a) && AllBacked(a, phdrs, i)
      {
        var ph := phdrs[i];
        if ph.ptype.PtDynamic? {
          return false;
        }
        if ph.ptype.PtLoad? {
          var va := ph.vaddr - ph.vaddr % PGSIZE;
          if TooLong(ph) {
            return false;   // PMap_AllocMap backs other pages than these
          }
          ok := AllocUser(a, va, ph.memsz + (ph.vaddr - va));
          if !ok {
            return false;
          }
          assert va / PGSIZE == ph.vaddr / PGSIZE;
        }
        i := i + 1;
      }
      ok := true;
    }

    ghost predicate AllBacked(a: AS, phdrs: seq<Phdr>, n: nat)
      requires a in pmap.roots && n <= |phdrs|
      reads pmap
    {
      forall j :: 0 <= j < n && phdrs[j].ptype.PtLoad? ==> Backed(a, phdrs[j].vaddr, phdrs[j].vaddr + phdrs[j].memsz)
    }

    /** The second loop of Loader_Load. */
    method FillSegments(a: AS, phdrs: seq<Phdr>, file: seq<Byte>)
      requires Valid() && a in pmap.roots && a.Proc? && Private(a) && AllBacked(a, phdrs, |phdrs|)
      requires WellFormed(phdrs)
      modifies this`ram
      ensures Valid()
      ensures forall i :: 0 <= i < |phdrs| && phdrs[i].ptype.PtLoad? ==> Image(a, file, phdrs[i])
    {
      hide WF, Rooted, UpperFilled, Ledgered, Covered, Walk, Private, View, Loaded, Image;
      var i := 0;
      while i < |phdrs|
        invariant 0 <= i <= |phdrs| && Valid()
        invariant forall j :: 0 <= j < i && phdrs[j].ptype.PtLoad? ==> Image(a, file, phdrs[j])
      {
        var ph := phdrs[i];
        if ph.ptype.PtLoad? {
          FillSegment(a, ph, file, phdrs[..i]);
        }
        i := i + 1;
      }
    }

    method FillSegment(a: AS, ph: Phdr, file: seq<Byte>, ghost done: seq<Phdr>)
      requires Valid() && a in pmap.roots && a.Proc? && Private(a) && Backed(a, ph.vaddr, ph.vaddr + ph.memsz)
      requires ph.filesz <= ph.memsz
      requires forall j :: 0 <= j < |done| && done[j].ptype.PtLoad? ==>
        Disjoint(done[j], ph) && Image(a, file, done[j]) && done[j].filesz <= done[j].memsz
      modifies this`ram
      ensures Valid() && Image(a, file, ph)
      ensures forall j :: 0 <= j < |done| && done[j].ptype.PtLoad? ==> Image(a, file, done[j])
    {
      hide WF, Rooted, UpperFilled, Ledgered, Covered, Walk, Private, View;
      LoadSegment(a, file, ph.vaddr, ph.offset, ph.filesz);
      if ph.filesz <= ph.memsz {
        ZeroSegment(a, ph.filesz + ph.vaddr, ph.memsz - ph.filesz);
      }
    }

    /** Loader_Load. */
    method Load(a: AS, ehdr: Ehdr, file: seq<Byte>) returns (entry: Option<nat>)
      requires Valid() && a in pmap.roots && a.Proc? && Private(a)
      requires WellFormed(ehdr.phdrs)
      modifies this`ram, pmap`mem, pmap`lay, pmap`ledger, pmap.palloc
      ensures Valid() && Private(a)
      ensures entry.Some? ==> CheckHeader(ehdr) && entry.value == ehdr.entry
      ensures entry.Some? ==> forall i :: 0 <= i < |ehdr.phdrs| && ehdr.phdrs[i].ptype.PtLoad? ==>
        Image(a, file, ehdr.phdrs[i])
      ensures entry.None? ==>
        || !CheckHeader(ehdr) || pmap.palloc.freeList == []
        || exists i :: 0 <= i < |ehdr.phdrs| && (ehdr.phdrs[i].ptype.PtDynamic? || TooLong(ehdr.phdrs[i]))
      ensures !CheckHeader(ehdr) ==> entry == None && ram == old(ram) && pmap.mem == old(pmap.mem)
    {
      hide WF, Rooted, UpperFilled, Ledgered, Covered, Walk, Private, View, Image;
      if !CheckHeader(ehdr) {
        return None;
      }
      var ok := MapSegments(a, ehdr.phdrs);
      if !ok {
        return None;
      }
      var stack := AllocUser(a, STKBASE, STKLEN);
      FillSegments(a, ehdr.phdrs, file);
      entry := Some(ehdr.entry);
    }
  }

  /** The pages of the segment make more than 2^31 bytes, past which the loop of PMap_AllocMap
      overflows. */
  predicate TooLong(ph: Phdr) {
    ph.memsz + ph.vaddr % PGSIZE > 0x8000_0000
  }

  lemma UserPages(virt: nat, len: nat)
    requires virt % PGSIZE == 0 && virt + len <= USER_TOP && len <= 0x8000_0000
    ensures PagesOf(len) == (len + PGSIZE - 1) / PGSIZE == Turns(PagesOf(len)) <= INT_PAGES
    ensures Vpn(virt) == virt / PGSIZE && Vpn(virt) + PagesOf(len) <= HALF
  {}

  ghost predicate Disjoint(p: Phdr, q: Phdr) {
    p.vaddr + p.memsz <= q.vaddr || q.vaddr + q.memsz <= p.vaddr
  }

  /** Loadable segments lie in user space, hold at least their file bytes, and do not share
      bytes (they may share pages). */
  ghost predicate WellFormed(phdrs: seq<Phdr>) {
    && (forall i :: 0 <= i < |phdrs| && phdrs[i].ptype.PtLoad? ==>
          phdrs[i].vaddr + phdrs[i].memsz <= USER_TOP && phdrs[i].filesz <= phdrs[i].memsz)
    && (forall i, j :: 0 <= i < j < |phdrs| && phdrs[i].ptype.PtLoad? && phdrs[j].ptype.PtLoad? ==>
          Disjoint(phdrs[i], phdrs[j]))
  }

  /** What address w holds after len bytes of the file at offset are put at vaddr, if it
      held was before: a file that ends early leaves the rest as it was. */
  ghost function Loaded(file: seq<Byte>, vaddr: nat, offset: nat, len: nat, w: nat, was: Option<Byte>): Option<Byte> {
    if vaddr <= w < vaddr + len && offset + (w - vaddr) < |file| then Some(file[offset + (w - vaddr)]) else was
  }

  lemma LoadedNone(file: seq<Byte>, vaddr: nat, offset: nat, w: nat, was: Option<Byte>)
    ensures Loaded(file, vaddr, offset, 0, w, was) == was
  {}

  lemma LoadedMore(file: seq<Byte>, vaddr: nat, offset: nat, m: nat, n: nat, w: nat, was: Option<Byte>)
    ensures Loaded(file, vaddr + m, offset + m, n, w, Loaded(file, vaddr, offset, m, w, was)) ==
            Loaded(file, vaddr, offset, m + n, w, was)
  {}

  /** A chunk that fills up its page ends on a page boundary. */
  lemma NextPage(va: nat, n: nat)
    requires va % PGSIZE + n <= PGSIZE
    ensures (va + n) % PGSIZE == 0 <==> va % PGSIZE + n == PGSIZE || va % PGSIZE + n == 0
  {}

  lemma UserVpn(va: nat)
    requires va <= USER_TOP
    ensures Vpn(va) == va / PGSIZE
  {}

  lemma SamePage(va: nat, w: nat, n: nat)
    requires va % PGSIZE + n <= PGSIZE
    ensures va <= w < va + n ==> w / PGSIZE == va / PGSIZE
    ensures w / PGSIZE == va / PGSIZE ==> w - va == w % PGSIZE - va % PGSIZE
  {}
}
