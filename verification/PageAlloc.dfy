/** The physical page allocator (sys/kern/palloc.c).

    Pages are named by page number.  The PageInfo table is a map from page number to
    reference count; the free list is a sequence whose first element is the list head. */
module PageAlloc {
  import opened Common

  const PGSIZE: nat := 4096
  const PAGEINFO_SIZE: nat := 8

  /** s is the pages hi-1 down to lo followed by rest: what inserting a region page by page
      at the head of a list leaves. */
  ghost predicate Prepended(s: seq<nat>, lo: nat, hi: nat, rest: seq<nat>)
    requires lo <= hi
  {
    && |s| == hi - lo + |rest|
    && (forall i :: 0 <= i < hi - lo ==> s[i] == hi - 1 - i)
    && s[hi - lo..] == rest
  }

  /** Pages taken by the temporary PageInfo table covering page numbers below end. */
  function TablePages(end: nat): nat {
    (end * PAGEINFO_SIZE + PGSIZE - 1) / PGSIZE
  }

  class PAlloc {
    var freeList: seq<nat>
    var refCount: map<nat, nat>
    var haveTable: bool
    var totalPages: nat
    var freePages: nat
    ghost var managed: set<nat>

    /** The page conservation invariant: a managed page is on the free list, once, exactly
        when its reference count is 0, and both counters count what they are named for. */
    ghost predicate Valid()
      reads this
    {
      && managed <= refCount.Keys
      && NoDup(freeList)
      && (forall p :: p in freeList <==> p in managed && refCount[p] == 0)
      && freePages == |freeList|
      && totalPages == |managed|
      && (managed != {} ==> haveTable)
    }

    ghost function Referenced(): set<nat>
      requires managed <= refCount.Keys
      reads this
    {
      set p | p in managed && refCount[p] != 0
    }

    /** totalPages = freePages + referenced pages. */
    lemma Conservation()
      requires Valid()
      ensures totalPages == freePages + |Referenced()|
    {
      var free := set p | p in freeList;
      assert managed == free + Referenced();
      NoDupSize(freeList);
    }

    constructor ()
      ensures Valid() && managed == {} && freeList == [] && !haveTable
    {
      freeList, refCount, haveTable := [], map[], false;
      totalPages, freePages := 0, 0;
      managed := {};
    }

    /** The first page AddRegion puts on the free list: the first region gives up its
        leading pages to the PageInfo table. */
    function FirstUsable(start: nat, len: nat): nat
      reads this
    {
      if haveTable then start else start + TablePages(start + len)
    }

    /** The initialising loops of AddRegion: every page in [lo, hi) gets count c. */
    method SetCounts(lo: nat, hi: nat, c: nat)
      requires lo <= hi
      modifies this`refCount
      ensures forall p :: p in refCount <==> p in old(refCount) || lo <= p < hi
      ensures forall p :: p in refCount ==> refCount[p] == if lo <= p < hi then c else old(refCount)[p]
    {
      var i := lo;
      while i < hi
        invariant lo <= i <= hi
        invariant forall p :: p in refCount <==> p in old(refCount) || lo <= p < i
        invariant forall p :: p in refCount ==> refCount[p] == if lo <= p < i then c else old(refCount)[p]
      {
        refCount := refCount[i := c];
        i := i + 1;
      }
    }

    method AddRegion(start: nat, len: nat)
      requires Valid()
      requires forall p :: start <= p < start + len ==> p !in managed
      requires FirstUsable(start, len) <= start + len
      modifies this
      ensures Valid() && haveTable
      ensures forall p :: p in managed <==> p in old(managed) || old(FirstUsable(start, len)) <= p < start + len
      ensures Prepended(freeList, old(FirstUsable(start, len)), start + len, old(freeList))
      ensures forall p :: p in old(managed) ==> refCount[p] == old(refCount)[p]
      ensures totalPages == old(totalPages) + (start + len - old(FirstUsable(start, len)))
    {
      var first, end := FirstUsable(start, len), start + len;
      if !haveTable {
        SetCounts(0, start, 1);
        SetCounts(start, end, 0);
        SetCounts(start, first, 1);
        haveTable := true;
      } else {
        SetCounts(start, end, 0);
      }
      InsertRegion(first, end);
    }

    /** The closing loop of AddRegion. */
    method InsertRegion(first: nat, end: nat)
      requires Valid() && haveTable && first <= end
      requires forall p :: first <= p < end ==> p in refCount && refCount[p] == 0 && p !in managed
      modifies this`freeList, this`totalPages, this`freePages, this`managed
      ensures Valid()
      ensures forall p :: p in managed <==> p in old(managed) || first <= p < end
      ensures Prepended(freeList, first, end, old(freeList))
      ensures totalPages == old(totalPages) + (end - first)
    {
      var i := first;
      while i < end
        invariant first <= i <= end
        invariant Valid()
        invariant forall p :: p in managed <==> p in old(managed) || first <= p < i
        invariant Prepended(freeList, first, i, old(freeList))
        invariant totalPages == old(totalPages) + (i - first)
      {
        InsertFree(i);
        i := i + 1;
      }
    }

    /** One turn of AddRegion's loop: an unmanaged page joins the free list at its head. */
    method InsertFree(p: nat)
      requires Valid() && haveTable
      requires p !in managed && p in refCount && refCount[p] == 0
      modifies this`freeList, this`totalPages, this`freePages, this`managed
      ensures Valid()
      ensures freeList == [p] + old(freeList) && managed == old(managed) + {p}
      ensures totalPages == old(totalPages) + 1
    {
      freeList := [p] + freeList;
      totalPages, freePages := totalPages + 1, freePages + 1;
      managed := managed + {p};
    }

    /** PAlloc_AllocPage takes the head of the free list.  None stands for the assertion
        that stops the kernel when the list is empty. */
    method AllocPage() returns (pg: Option<nat>)
      requires Valid()
      modifies this`freeList, this`refCount, this`freePages
      ensures Valid()
      ensures pg.None? <==> old(freeList) == []
      ensures pg.None? ==> freeList == old(freeList) && refCount == old(refCount)
      ensures pg.Some? ==>
        && pg.value == old(freeList)[0] && freeList == old(freeList)[1..]
        && pg.value in managed && old(refCount[pg.value]) == 0
        && refCount == old(refCount)[pg.value := 1]
    {
      if freeList == [] {
        return None;
      }
      var p := freeList[0];
      assert p in freeList;
      assert forall q :: q in freeList <==> q == p || q in freeList[1..];
      freeList := freeList[1..];
      refCount := refCount[p := refCount[p] + 1];
      freePages := freePages - 1;
      pg := Some(p);
    }

    /** PAlloc_Retain; false stands for its assertion that the page is in use. */
    method Retain(p: nat) returns (ok: bool)
      requires Valid() && p in managed
      modifies this`refCount
      ensures Valid()
      ensures ok <==> old(refCount[p]) != 0
      ensures refCount == if ok then old(refCount)[p := old(refCount[p]) + 1] else old(refCount)
    {
      ok := refCount[p] != 0;
      if ok {
        refCount := refCount[p := refCount[p] + 1];
      }
    }

    /** PAlloc_Release and PAllocFreePage; false stands for the assertion that the page is
        in use.  The last reference returns the page to the head of the free list. */
    method Release(p: nat) returns (ok: bool)
      requires Valid() && p in managed
      modifies this`freeList, this`refCount, this`freePages
      ensures Valid()
      ensures ok <==> old(refCount[p]) != 0
      ensures refCount == if ok then old(refCount)[p := old(refCount[p]) - 1] else old(refCount)
      ensures freeList == if old(refCount[p]) == 1 then [p] + old(freeList) else old(freeList)
    {
      ok := refCount[p] != 0;
      if ok {
        refCount := refCount[p := refCount[p] - 1];
        if refCount[p] == 0 {
          freeList := [p] + freeList;
          freePages := freePages + 1;
        }
      }
    }
  }
}
