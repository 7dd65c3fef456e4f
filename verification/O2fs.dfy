/** O2FS files over the buffer cache (sys/fs/o2fs/o2fs.c). */
module O2fs {
  import opened Common
  import opened BufferCache
  import opened O2fsLayout
  import opened O2fsSpec
  import opened O2fsFiles

  datatype LookupResult = Found(ent: nat, node: nat) | NotFound | Busy

  /** Entries that were pinned stay pinned on the same block. */
  ghost predicate PinsKept(before: seq<Entry>, after: seq<Entry>) {
    && |before| == |after|
    && forall e :: 0 <= e < |before| && before[e].refCount > 0 ==>
      after[e].key == before[e].key && after[e].refCount > 0
  }

  /** Only nodes may differ from the disk. */
  ghost predicate StaleNodes(entries: seq<Entry>, stale: set<nat>, nodes: set<nat>) {
    forall e :: e in stale ==>
      e < |entries| && entries[e].key.Some? && exists n :: n in nodes && entries[e].key.value == K(n)
  }

  /** A node, or a block of the disk that O2FSLoadVNode refuses. */
  ghost predicate Loadable(store: Store, nodes: set<nat>, m: nat) {
    m in nodes || (InStore(store, m) && !IsNode(BlockAt(store, m)))
  }

  /** The entry of that name in file n, if any, can be followed. */
  ghost predicate Follows(store: Store, nodes: set<nat>, n: nat, name: Str) {
    DirLookup(store, n, name).Some? ==> Loadable(store, nodes, DirLookup(store, n, name).value)
  }

  lemma PinsAfterRead(before: seq<Entry>, after: seq<Entry>, got: Option<nat>)
    requires got.None? ==> after == before
    requires got.Some? ==> got.value < |before| == |after| && after == before[got.value := after[got.value]]
    requires got.Some? && before[got.value].refCount > 0 ==>
      after[got.value].key == before[got.value].key && after[got.value].refCount > 0
    ensures PinsKept(before, after)
  {}

  /** The search of O2FSBAlloc within one bitmap block: its first clear bit. */
  method FindClear(buf: Block) returns (r: Option<nat>)
    requires |buf| == BSIZE
    ensures r.None? ==> forall x :: 0 <= x < BITS ==> Bit(buf[x / 8], x % 8)
    ensures r.Some? ==> r.value < BITS && !Bit(buf[r.value / 8], r.value % 8)
    ensures r.Some? ==> forall x :: 0 <= x < r.value ==> Bit(buf[x / 8], x % 8)
  {
    hide Bit;
    var b := 0;
    while b < BSIZE
      invariant b <= BSIZE
      invariant forall x :: 0 <= x < 8 * b ==> Bit(buf[x / 8], x % 8)
    {
      var bi := 0;
      while bi < 8
        invariant bi <= 8
        invariant forall x :: 0 <= x < 8 * b + bi ==> Bit(buf[x / 8], x % 8)
      {
        if !Bit(buf[b], bi) {
          assert (8 * b + bi) / 8 == b && (8 * b + bi) % 8 == bi;
          return Some(8 * b + bi);
        }
        assert (8 * b + bi) / 8 == b && (8 * b + bi) % 8 == bi;
        bi := bi + 1;
      }
      b := b + 1;
    }
    r := None;
  }

  class O2fs {
    const cache: BufCache
    var bitmap: seq<nat>
    ghost var owner: map<nat, Owner>
    ghost var nodes: set<nat>

    constructor (cache: BufCache, bitmap: seq<nat>, ghost owner: map<nat, Owner>, ghost nodes: set<nat>)
      ensures this.cache == cache && this.bitmap == bitmap && this.owner == owner && this.nodes == nodes
    {
      this.cache, this.bitmap, this.owner, this.nodes := cache, bitmap, owner, nodes;
    }

    ghost predicate Valid()
      reads this, cache
    {
      && cache.Valid()
      && |bitmap| <= 16 && FsOk(cache.Store(), |bitmap|, owner, nodes)
      && BitmapPinned(bitmap, cache.entries)
      && StaleNodes(cache.entries, cache.stale, nodes)
    }

    /** VNode: a pinned entry on the block of node n. */
    ghost predicate Open(ent: nat, n: nat)
      reads this, cache
    {
      cache.Holder(ent, K(n)) && n in nodes
    }

    /** O2FSBAlloc: the first block the bitmap does not mark, or 0. */
    method BAlloc() returns (blk: nat)
      requires Valid()
      modifies cache`entries, cache`stale, cache`disk
      ensures Valid() && PinsKept(old(cache.entries), cache.entries)
      ensures blk == 0 <==> forall q :: 0 <= q < |bitmap| * BITS ==> Used(old(cache.Store()), q)
      ensures blk == 0 ==> cache.Store() == old(cache.Store())
      ensures blk != 0 ==> blk < |bitmap| * BITS && blk !in owner && !Used(old(cache.Store()), blk)
      ensures blk != 0 ==> forall q :: 0 <= q < blk ==> Used(old(cache.Store()), q)
      ensures blk != 0 ==> forall q :: 0 <= q < |bitmap| * BITS ==>
        Used(cache.Store(), q) == (q == blk || Used(old(cache.Store()), q))
      ensures forall q :: 0 <= q && !InBitmap(q, |bitmap|) ==>
        BlockAt(cache.Store(), q) == BlockAt(old(cache.Store()), q)
      ensures cache.disk.Keys == old(cache.disk.Keys)
    {
      hide Hashed, Unpinned, Coherent, View, Bit, BlockAt, Used, FsOk, Unique, StaleNodes;
      ghost var store := cache.Store();
      var i := 0;
      while i < |bitmap|
        invariant i <= |bitmap|
        invariant cache.entries == old(cache.entries) && cache.stale == old(cache.stale)
        invariant cache.disk == old(cache.disk)
        invariant forall q :: 0 <= q < i * BITS ==> Used(store, q)
      {
        BitmapBlock(i);
        var x := FindClear(cache.entries[bitmap[i]].buffer);
        UsedIn(store, i, if x.Some? then x.value else BITS);
        if x.Some? {
          blk := BITS * i + x.value;
          UsedIs(store, i, x.value);
          ZeroUsed();
          MarkInUse(i, x.value);
          return;
        }
        i := i + 1;
      }
      blk := 0;
    }

    /** A pinned entry on an owned block shows that block. */
    lemma EntryBlock(e: nat, off: nat, o: Owner)
      requires Valid() && cache.Holder(e, K(off)) && Owns(owner, off, o)
      ensures K(off) in cache.disk && cache.entries[e].buffer == BlockAt(cache.Store(), off)
    {
      hide Hashed, Unpinned, Coherent, Marked, Fixed, NodeOk;
      assert InStore(cache.Store(), off) by {
        OwnedInStore(cache.Store(), owner, off, o);
      }
      CurIs(cache.entries, cache.disk, e);
    }

    lemma BitmapBlock(i: nat)
      requires Valid() && i < |bitmap|
      ensures cache.Holder(bitmap[i], K(BitmapOff(i))) && Owns(owner, BitmapOff(i), Bitmap(i))
      ensures K(BitmapOff(i)) in cache.disk && cache.entries[bitmap[i]].buffer == BlockAt(cache.Store(), BitmapOff(i))
    {
      hide Hashed, Unpinned, Coherent, Marked, NodeOk, View;
      BitmapOwned(|bitmap|, owner, i);
      EntryBlock(bitmap[i], BitmapOff(i), Bitmap(i));
    }

    /** The superblock's own bit is set. */
    lemma ZeroUsed()
      requires Valid() && |bitmap| > 0
      ensures Used(cache.Store(), 0)
      ensures forall b :: b in owner && b < |bitmap| * BITS ==> Used(cache.Store(), b)
    {
      hide Hashed, Unpinned, Coherent, Held, NodeOk, View, Used, Unique;
    }

    /** Set bit x of bitmap block i and write the block back. */
    method MarkInUse(i: nat, x: nat)
      requires Valid() && i < |bitmap| && x < BITS
      modifies cache`entries, cache`stale, cache`disk
      ensures Valid() && PinsKept(old(cache.entries), cache.entries)
      ensures forall q :: 0 <= q < |bitmap| * BITS ==>
        Used(cache.Store(), q) == (q == BITS * i + x || Used(old(cache.Store()), q))
      ensures forall q :: 0 <= q && !InBitmap(q, |bitmap|) ==>
        BlockAt(cache.Store(), q) == BlockAt(old(cache.Store()), q)
      ensures cache.disk.Keys == old(cache.disk.Keys)
    {
      hide Hashed, Unpinned, Coherent, View, Bit, BlockAt, Used, FsOk, Unique, SetBit, BitmapPinned, StaleNodes;
      BitmapBlock(i);
      var e := bitmap[i];
      var buf := cache.entries[e].buffer;
      ghost var store := cache.Store();
      MarkedBlockIs(store, i, x);
      cache.Modify(e, buf[x / 8 := SetBit(buf[x / 8], x % 8)]);
      StaleKept(old(cache.entries), old(cache.stale), nodes, cache.entries);
      var status := cache.Write(e, true);
      StaleLess(cache.entries, old(cache.stale), nodes, cache.stale);
      BitmapKept(bitmap, old(cache.entries), cache.entries);
      MarkBit(store, |bitmap|, owner, nodes, BITS * i + x, cache.Store());
    }

    /** One turn of O2FSGrowVNode's loop: block i of the file gets a block if it has none.
        Allocation does not check for the end of the disk; the model stops there. */
    method GrowOne(ent: nat, n: nat, i: nat, ghost store: Store) returns (status: Result, ghost took: nat)
      requires Valid() && Open(ent, n) && FirstNew(store, n) <= i < DIRECT && Size(cache.Store(), n) == Size(store, n)
      requires Growing(store, cache.Store(), |bitmap|, n, i) && cache.disk.Keys == store.Keys && Sized(store)
      modifies this`owner, cache`entries, cache`stale, cache`disk
      ensures Valid() && Open(ent, n) && PinsKept(old(cache.entries), cache.entries) && OwnerGrows(old(owner), owner)
      ensures Size(cache.Store(), n) == Size(store, n) && cache.disk.Keys == store.Keys
      ensures var blk := NthFree(store, |bitmap| * BITS, Needed(store, n, FirstNew(store, n), i));
        status == if Ptr(store, n, i) != 0 then Success else if blk == |bitmap| * BITS then NoSpc
          else if !InStore(store, blk * BSIZE) then PastEnd else Success
      ensures status == Success ==> Growing(store, cache.Store(), |bitmap|, n, i + 1)
      ensures Ptr(cache.Store(), n, i) != 0 || status != Success
      ensures status == Success && Ptr(store, n, i) == 0 ==> OnDisk(store, |bitmap|, NewPtr(store, |bitmap|, n, i))
      ensures status != Success ==> Pointers(store, cache.Store(), |bitmap|, n, i)
      ensures status != Success ==>
        TookFirst(store, cache.Store(), |bitmap| * BITS, took) && Needed(store, n, FirstNew(store, n), i) <= took
    {
      hide Hashed, Unpinned, Coherent, View, Bit, BlockAt, Used, FsOk, Unique, BitmapPinned, StaleNodes;
      hide NodePtr, NodeSize;
      hide InBitmap, TookFirst, NthFree;
      hide Pointers, Needed;
      ghost var nb, k := |bitmap|, Needed(store, n, FirstNew(store, n), i);
      took := k;
      NodeBlock(ent, n);
      PointerAt(store, cache.Store(), nb, n, i);
      if NodePtr(cache.entries[ent].buffer, i) != 0 {
        GrowSkip(store, cache.Store(), nb, n, i);
        return Success, k;
      }
      ghost var mid := cache.Store();
      NotBitmapNode(n);
      var blk := BAlloc();
      ghost var marked := cache.Store();
      AllocatedIs(store, mid, nb * BITS, k, blk);
      MarkedPointers(store, mid, marked, nb, n, i);
      if blk == 0 {
        return NoSpc, k;
      }
      TookNext(store, mid, marked, nb * BITS, k, blk);
      GrowOnDisk(store, nb, n, i);
      OnDiskIs(store, blk * BSIZE);
      StoreSized();
      OnDiskIs(cache.Store(), blk * BSIZE);
      assert cache.Store().Keys == cache.disk.Keys by { cache.StoreKeys(); }
      if K(blk * BSIZE) !in cache.disk {
        return PastEnd, k + 1;
      }
      PointerAt(store, marked, nb, n, i);
      AddBlock(ent, n, i, blk);
      GrowStep(store, marked, cache.Store(), nb, n, i, blk);
      status := Success;
    }

    /** The entry of an open file shows its node. */
    lemma NodeBlock(ent: nat, n: nat)
      requires Valid() && Open(ent, n)
      ensures K(n) in cache.disk && cache.entries[ent].buffer == BlockAt(cache.Store(), n)
      ensures NodeOk(cache.Store(), owner, n)
    {
      hide Hashed, Unpinned, Coherent, Marked, Fixed, View, BlockAt;
      EntryBlock(ent, n, Node(n));
    }

    /** Store a fresh block's offset in pointer i of the node's buffer. */
    method AddBlock(ent: nat, n: nat, i: nat, blk: nat)
      requires Valid() && Open(ent, n) && i < DIRECT && Ptr(cache.Store(), n, i) == 0
      requires blk < |bitmap| * BITS && blk !in owner && Used(cache.Store(), blk) && InStore(cache.Store(), blk * BSIZE)
      modifies this`owner, cache`entries, cache`stale
      ensures Valid() && Open(ent, n) && PinsKept(old(cache.entries), cache.entries)
      ensures owner == old(owner)[blk := Data(n, i)] && cache.disk.Keys == old(cache.disk.Keys) && blk * BSIZE > 0
      ensures Size(cache.Store(), n) == Size(old(cache.Store()), n)
      ensures forall j :: 0 <= j < DIRECT ==>
        Ptr(cache.Store(), n, j) == if j == i then blk * BSIZE else Ptr(old(cache.Store()), n, j)
      ensures forall q :: 0 <= q && q != n ==> BlockAt(cache.Store(), q) == BlockAt(old(cache.Store()), q)
      ensures forall q :: 0 <= q < |bitmap| * BITS ==> Used(cache.Store(), q) == Used(old(cache.Store()), q)
    {
      hide Hashed, Unpinned, Coherent, View, BlockAt, Used, FsOk, Unique, BitmapPinned, StaleNodes, NodePtr;
      hide NodeSize, SetPtr;
      NodeBlock(ent, n);
      ghost var store := cache.Store();
      var node := SetPtr(cache.entries[ent].buffer, i, blk * BSIZE);
      cache.Modify(ent, node);
      StaleAdd(old(cache.entries), old(cache.stale), nodes, cache.entries, ent, n);
      BitmapKept(bitmap, old(cache.entries), cache.entries);
      PutPtr(store, |bitmap|, owner, nodes, n, i, blk, cache.Store());
      forall q | 0 <= q && q != n ensures BlockAt(cache.Store(), q) == BlockAt(store, q) {
        BlockPut(store, n, node, q);
      }
      owner := owner[blk := Data(n, i)];
    }

    /** O2FSGrowVNode: what it comes to is settled by the old contents of the disk. */
    method Grow(ent: nat, n: nat, filesz: nat) returns (status: Result, ghost i: nat, ghost took: nat)
      requires Valid() && Open(ent, n) && Size(cache.Store(), n) <= filesz
      modifies this`owner, cache`entries, cache`stale, cache`disk
      ensures Valid() && Open(ent, n) && PinsKept(old(cache.entries), cache.entries) && OwnerGrows(old(owner), owner)
      ensures status == if filesz > DIRECT * BSIZE then Inval
        else GrowFate(old(cache.Store()), |bitmap|, n, FirstNew(old(cache.Store()), n), Blocks(filesz))
      ensures status == Success ==> Size(cache.Store(), n) == filesz <= DIRECT * BSIZE
      ensures status == Success ==> Growing(old(cache.Store()), cache.Store(), |bitmap|, n, Blocks(filesz))
      ensures status == Success ==> i == Blocks(filesz)
      ensures status != Success ==> SameFiles(old(cache.Store()), cache.Store(), nodes)
      ensures i <= DIRECT && Pointers(old(cache.Store()), cache.Store(), |bitmap|, n, i)
      ensures Fillable(old(cache.Store()), |bitmap|, n, i) && cache.disk.Keys == old(cache.disk.Keys)
      ensures TookFirst(old(cache.Store()), cache.Store(), |bitmap| * BITS, took)
      ensures Needed(old(cache.Store()), n, FirstNew(old(cache.Store()), n), i) <= took
    {
      hide Hashed, Unpinned, Coherent, View, BlockAt, Used, FsOk, Unique, BitmapPinned, StaleNodes, NodePtr;
      hide NodeSize, SetSize;
      hide Pointers, NthFree, Needed, TookFirst, OnDisk, NewPtr;
      NodeBlock(ent, n);
      ghost var store, owner0 := cache.Store(), owner;
      assert cache.disk.Keys == store.Keys by { cache.StoreKeys(); }
      i, took := FirstNew(store, n), Needed(store, n, FirstNew(store, n), FirstNew(store, n));
      FirstFilled(store, owner, n);
      GrowingNone(store, |bitmap|, n);
      if filesz > BSIZE * DIRECT {
        FilesSelf(store, nodes);
        return Inval, i, took;
      }
      assert FsOk(store, |bitmap|, owner0, nodes) && Sized(store) by { StoreSized(); }
      var x := FirstNewOf(cache.entries[ent].buffer);
      while x < Blocks(filesz)
        invariant Valid() && Open(ent, n) && PinsKept(old(cache.entries), cache.entries) && OwnerGrows(owner0, owner)
        invariant FirstNew(store, n) <= x <= Blocks(filesz) && Size(cache.Store(), n) == Size(store, n)
        invariant Growing(store, cache.Store(), |bitmap|, n, x) && cache.disk.Keys == store.Keys
        invariant GrowFate(store, |bitmap|, n, FirstNew(store, n), Blocks(filesz)) ==
          GrowFate(store, |bitmap|, n, x, Blocks(filesz))
        invariant forall j :: 0 <= j < x ==> Ptr(cache.Store(), n, j) != 0
        invariant Fillable(store, |bitmap|, n, x)
      {
        i := x;
        ghost var before := cache.Store();
        status, took := GrowOne(ent, n, x, store);
        if status != Success {
          StoppedFiles(store, cache.Store(), |bitmap|, owner0, nodes, n, x);
          return;
        }
        PtrsStay(store, before, cache.Store(), |bitmap|, n, x);
        x := x + 1;
      }
      ghost var grown := cache.Store();
      i, took := x, Needed(store, n, FirstNew(store, n), x);
      SetFileSize(ent, n, filesz);
      SizedGrowing(store, grown, cache.Store(), |bitmap|, n, x);
      status := Success;
    }

    /** Record the size and write the node back. */
    method SetFileSize(ent: nat, n: nat, filesz: nat)
      requires Valid() && Open(ent, n) && filesz <= DIRECT * BSIZE
      requires forall j :: 0 <= j < Blocks(filesz) && j < DIRECT ==> Ptr(cache.Store(), n, j) != 0
      modifies cache`entries, cache`stale, cache`disk
      ensures Valid() && Open(ent, n) && PinsKept(old(cache.entries), cache.entries)
      ensures Size(cache.Store(), n) == filesz && cache.disk.Keys == old(cache.disk.Keys)
      ensures forall j :: 0 <= j < DIRECT ==> Ptr(cache.Store(), n, j) == Ptr(old(cache.Store()), n, j)
      ensures forall q :: 0 <= q && q != n ==> BlockAt(cache.Store(), q) == BlockAt(old(cache.Store()), q)
      ensures forall q :: 0 <= q < |bitmap| * BITS ==> Used(cache.Store(), q) == Used(old(cache.Store()), q)
    {
      hide Hashed, Unpinned, Coherent, View, BlockAt, Used, FsOk, Unique, BitmapPinned, StaleNodes, NodePtr;
      hide NodeSize, SetSize;
      NodeBlock(ent, n);
      ghost var store := cache.Store();
      var node := SetSize(cache.entries[ent].buffer, filesz);
      cache.Modify(ent, node);
      StaleAdd(old(cache.entries), old(cache.stale), nodes, cache.entries, ent, n);
      var status := cache.Write(ent, true);
      StaleLess(cache.entries, old(cache.stale) + {ent}, nodes, cache.stale);
      BitmapKept(bitmap, old(cache.entries), cache.entries);
      PutSize(store, |bitmap|, owner, nodes, n, filesz, cache.Store());
      forall q | 0 <= q && q != n ensures BlockAt(cache.Store(), q) == BlockAt(store, q) {
        BlockPut(store, n, node, q);
      }
    }

    lemma StoreSized()
      requires Valid()
      ensures Sized(cache.Store()) && FsOk(cache.Store(), |bitmap|, owner, nodes)
    {
      hide Hashed, Unpinned, Coherent, View, Unique, NodeOk, Held, Marked, Fixed;
    }

    /** A node's block is no bitmap block. */
    lemma NotBitmapNode(n: nat)
      requires Valid() && n in nodes
      ensures !InBitmap(n, |bitmap|)
    {
      hide Hashed, Unpinned, Coherent, View, Unique, Held, Marked;
      assert NodeOk(cache.Store(), owner, n);
      NotBitmap(|bitmap|, owner, n, Node(n));
    }

    /** O2FSResolveBuf: pin the block that holds block b of the file.  An empty pointer
        resolves to block 0. */
    method Resolve(ent: nat, n: nat, b: nat) returns (got: Option<nat>)
      requires Valid() && Open(ent, n) && b <= DIRECT
      modifies cache`entries, cache`lru, cache`chains, cache`stale, cache`hits, cache`misses
      ensures cache.Valid() && cache.Store() == old(cache.Store()) && cache.stale == old(cache.stale)
      ensures cache.disk == old(cache.disk)
      ensures got.None? ==> cache.entries == old(cache.entries)
      ensures got.None? ==> cache.lru == old(cache.lru) == []
      ensures got.Some? ==>
        && cache.Holder(got.value, K(Ptr(cache.Store(), n, b)))
        && cache.entries[got.value].buffer == BlockAt(cache.Store(), Ptr(cache.Store(), n, b))
        && K(Ptr(cache.Store(), n, b)) in cache.disk
        && |cache.entries| == |old(cache.entries)|
        && cache.entries == old(cache.entries)[got.value := cache.entries[got.value]]
        && (old(cache.entries)[got.value].refCount > 0 ==>
              cache.entries[got.value] ==
                old(cache.entries)[got.value].(refCount := old(cache.entries)[got.value].refCount + 1))
        && (old(cache.entries)[got.value].refCount == 0 ==> cache.entries[got.value].refCount == 1)
        && |cache.lru| == |old(cache.lru)| - if old(cache.entries)[got.value].refCount == 0 then 1 else 0
    {
      hide Hashed, Unpinned, Coherent, View, FsOk, Unique, BitmapPinned, StaleNodes, NodePtr, NodeSize;
      NodeBlock(ent, n);
      PtrInStore(n, b);
      var status;
      status, got := cache.Read(K(NodePtr(cache.entries[ent].buffer, b)), true);
      if got.Some? {
        LruAfterPin(old(cache.entries), old(cache.lru), got.value);
      }
    }

    /** Every pointer of an open file names a block of the disk. */
    lemma PtrInStore(n: nat, b: nat)
      requires Valid() && n in nodes && b <= DIRECT
      ensures InStore(cache.Store(), Ptr(cache.Store(), n, b)) && K(Ptr(cache.Store(), n, b)) in cache.disk
    {
      hide Hashed, Unpinned, Coherent, Marked, NodePtr, NodeSize, BlockAt;
      var store := cache.Store();
      assert NodeOk(store, owner, n);
      if b < DIRECT && Ptr(store, n, b) != 0 {
        assert PtrOk(store, owner, n, b);
        OwnedInStore(store, owner, Ptr(store, n, b), Data(n, b));
      } else {
        assert Owns(owner, 0, Super);
        OwnedInStore(store, owner, 0, Super);
      }
    }

    /** A block a file pointer names is never a node. */
    lemma PtrNoNode(n: nat, b: nat, m: nat)
      requires Valid() && n in nodes && m in nodes && b <= DIRECT
      ensures Ptr(cache.Store(), n, b) != m
    {
      hide Hashed, Unpinned, Coherent, Marked, NodePtr, NodeSize, BlockAt, View;
      var store := cache.Store();
      assert NodeOk(store, owner, n) && NodeOk(store, owner, m);
      if b < DIRECT {
        DataApart(store, |bitmap|, owner, n, b, m, Node(m));
      }
    }

    lemma PtrClean(n: nat, b: nat, e: nat)
      requires Valid() && n in nodes && b <= DIRECT && e < |cache.entries|
      requires cache.entries[e].key == Some(K(Ptr(cache.Store(), n, b)))
      ensures e !in cache.stale
    {
      hide Hashed, Unpinned, Coherent, FsOk, NodePtr, NodeSize, BlockAt, View;
      if e in cache.stale {
        var m :| m in nodes && cache.entries[e].key.value == K(m);
        PtrNoNode(n, b, m);
      }
    }

    /** Read one block of a file and let it go again. */
    method ReadBlock(ent: nat, n: nat, b: nat) returns (blk: Option<Block>)
      requires Valid() && Open(ent, n) && b <= DIRECT
      modifies cache`entries, cache`lru, cache`chains, cache`stale, cache`hits, cache`misses
      ensures Valid() && Open(ent, n) && PinsKept(old(cache.entries), cache.entries)
      ensures cache.Store() == old(cache.Store())
      ensures blk.Some? ==> blk.value == BlockAt(cache.Store(), Ptr(cache.Store(), n, b))
      ensures |cache.lru| == |old(cache.lru)| && (blk.None? ==> cache.lru == [])
    {
      hide Hashed, Unpinned, Coherent, View, FsOk, Unique, BitmapPinned, StaleNodes, NodePtr, NodeSize, BlockAt;
      StalePinned(cache.entries, cache.stale, nodes, cache.disk);
      var got := Resolve(ent, n, b);
      BitmapKept(bitmap, old(cache.entries), cache.entries);
      if got.None? {
        return None;
      }
      PtrClean(n, b, got.value);
      blk := Some(cache.entries[got.value].buffer);
      ghost var entries1 := cache.entries;
      cache.Release(got.value);
      BitmapKept(bitmap, old(cache.entries), cache.entries);
    }

    /** Store data at offset at of block b of a file: pin, copy, write back, release. */
    method WriteBlock(ent: nat, n: nat, b: nat, at: nat, data: seq<Byte>) returns (ok: bool)
      requires Valid() && Open(ent, n) && b <= DIRECT && at + |data| <= BSIZE
      requires data != [] ==> b < DIRECT && Ptr(cache.Store(), n, b) != 0
      modifies cache`entries, cache`lru, cache`chains, cache`stale, cache`disk, cache`hits, cache`misses
      ensures Valid() && Open(ent, n) && PinsKept(old(cache.entries), cache.entries)
      ensures !ok ==> cache.Store() == old(cache.Store()) && cache.lru == []
      ensures cache.disk.Keys == old(cache.disk.Keys)
      ensures forall m :: m in nodes ==> BlockAt(cache.Store(), m) == BlockAt(old(cache.Store()), m)
      ensures ok ==> forall m, j :: m in nodes && 0 <= j < DIRECT ==>
        FileBlock(cache.Store(), m, j) ==
          if m == n && j == b then Overwritten(FileBlock(old(cache.Store()), m, j), at, data)
          else FileBlock(old(cache.Store()), m, j)
      ensures forall q :: 0 <= q < |bitmap| * BITS ==> Used(cache.Store(), q) == Used(old(cache.Store()), q)
    {
      hide Hashed, Unpinned, Coherent, View, FsOk, Unique, BitmapPinned, StaleNodes, NodePtr, NodeSize, BlockAt, Used;
      ghost var store := cache.Store();
      StalePinned(cache.entries, cache.stale, nodes, cache.disk);
      var got := Resolve(ent, n, b);
      BitmapKept(bitmap, old(cache.entries), cache.entries);
      PtrInStore(n, b);
      ok := got.Some?;
      if ok {
        PtrClean(n, b, got.value);
        var was := cache.entries[got.value].buffer;
        var now := Overwritten(was, at, data);
        StoreBack(got.value, now);
        BitmapKept(bitmap, old(cache.entries), cache.entries);
        if data == [] {
          OverwrittenNone(at);
          PtrInStoreIs(store, n, b, now);
        } else {
          PutData(store, |bitmap|, owner, nodes, n, b, now, cache.Store());
        }
      }
    }

    lemma OverwrittenNone(at: nat)
      requires at <= BSIZE
      ensures forall b: Block :: |b| == BSIZE ==> Overwritten(b, at, []) == b
    {
      forall b: Block | |b| == BSIZE ensures Overwritten(b, at, []) == b {
        assert b[..at] + [] + b[at..] == b;
      }
    }

    /** memcpy into a pinned buffer, BufCache_Write, BufCache_Release. */
    method StoreBack(e: nat, data: Block)
      requires cache.Valid() && e < |cache.entries| && cache.entries[e].refCount > 0 && e !in cache.stale
      requires cache.entries[e].key.Some? && cache.entries[e].key.value in cache.disk
      modifies cache`entries, cache`lru, cache`stale, cache`disk
      ensures cache.Valid() && cache.stale == old(cache.stale)
      ensures cache.entries ==
        old(cache.entries)[e := Entry(old(cache.entries)[e].key, old(cache.entries)[e].refCount - 1, data)]
      ensures cache.Store() == old(cache.Store())[old(cache.entries)[e].key.value := data]
      ensures cache.disk.Keys == old(cache.disk.Keys)
    {
      hide Hashed, Unpinned, Coherent, View, Unique;
      cache.Modify(e, data);
      var status := cache.Write(e, true);
      cache.Release(e);
    }

    lemma PtrInStoreIs(store: Store, n: nat, b: nat, data: Block)
      requires b <= DIRECT && data == BlockAt(store, Ptr(store, n, b)) && InStore(store, Ptr(store, n, b))
      ensures store[K(Ptr(store, n, b)) := data] == store
    {}

    /** O2FS_Read: the bytes of the file from off on, at most len of them.  Wild exactly if the
        64-bit sum of offset and length wraps around. */
    method Read(ent: nat, n: nat, off0: nat, len0: nat) returns (status: Result, data: seq<Byte>)
      requires Valid() && Open(ent, n) && off0 < U64 && len0 < U64
      modifies cache`entries, cache`lru, cache`chains, cache`stale, cache`hits, cache`misses
      ensures Valid() && Open(ent, n) && PinsKept(old(cache.entries), cache.entries)
      ensures cache.Store() == old(cache.Store())
      ensures status == Success || status == NoMem || status == Wild
      ensures status == Wild <==> off0 <= Size(cache.Store(), n) && off0 + len0 >= U64
      ensures |cache.lru| == |old(cache.lru)| && (status == NoMem ==> cache.lru == [])
      ensures status == Success ==> IsSlice(cache.Store(), n, off0, len0, data)
    {
      hide Hashed, Unpinned, Coherent, View, FsOk, Unique, BitmapPinned, StaleNodes, NodePtr, NodeSize, BlockAt;
      NodeBlock(ent, n);
      ghost var store := cache.Store();
      var size := NodeSize(cache.entries[ent].buffer);
      assert size == Size(store, n) <= DIRECT * BSIZE;
      data := [];
      if off0 > size {
        return Success, [];
      }
      var off: nat, len: nat := off0, len0;
      ReadCutIff(size, off, len);
      if Sum(off, len) > size {
        len := size - off;
      }
      if off + len > size {
        return Wild, [];   // the loop runs past the end of the file and of its pointers
      }
      ghost var end := off + len;
      while true
        invariant Valid() && Open(ent, n) && PinsKept(old(cache.entries), cache.entries)
        invariant cache.Store() == store && off + len == end && off0 <= off && end <= size
        invariant |cache.lru| == |old(cache.lru)|
        invariant |data| == off - off0 && forall p :: off0 <= p < off ==> data[p - off0] == FileByte(store, n, p)
        decreases len
      {
        var b, at := off / BSIZE, off % BSIZE;
        var n1: nat := if at + len > BSIZE then BSIZE - at else len;
        var blk := ReadBlock(ent, n, b);
        if blk.None? {
          return NoMem, data;
        }
        ChunkBytes(store, n, off, n1);
        data := data + blk.value[at..at + n1];
        off, len := off + n1, len - n1;
        if len == 0 {
          break;
        }
      }
      status := Success;
    }

    /** O2FS_Write.  done counts the bytes stored: all of them on success, none when the
        file could not grow.  Whether it can is settled by the old contents of the disk.
        Nothing is said of a Wild one, whose loop leaves the pointers of the node. */
    method Write(ent: nat, n: nat, buf: seq<Byte>, off0: nat) returns (status: Result, ghost done: nat)
      requires Valid() && Open(ent, n) && off0 < U64 && |buf| < U64
      modifies this`owner, cache`entries, cache`lru, cache`chains, cache`stale, cache`disk, cache`hits, cache`misses
      ensures var fate := WriteFate(old(cache.Store()), |bitmap|, n, |buf|, off0);
        if fate == Success then status == Success || status == NoMem else status == fate
      ensures status != Wild ==>
        && Valid() && Open(ent, n) && PinsKept(old(cache.entries), cache.entries) && OwnerGrows(old(owner), owner)
        && Extended(old(cache.Store()), cache.Store(), |bitmap|, nodes, n)
      ensures done <= |buf| && (status == Success ==> done == |buf|)
      ensures status == NoMem ==> cache.lru == []
      ensures status == Success || status == NoMem ==>
        && off0 + |buf| <= DIRECT * BSIZE && Size(old(cache.Store()), n) <= DIRECT * BSIZE
        && Wrote(old(cache.Store()), cache.Store(), |bitmap|, nodes, n, buf, off0, done)
        && Written(old(cache.Store()), cache.Store(), nodes, n, buf, off0, done)
      ensures status != Success && status != NoMem && status != Wild ==>
        SameFiles(old(cache.Store()), cache.Store(), nodes)
    {
      hide Hashed, Unpinned, Coherent, View, FsOk, Unique, BitmapPinned, StaleNodes, NodePtr, NodeSize, BlockAt, Used;
      hide GrowFate, Stored, Wrote, Written, Pointers, Fillable, TookFirst, Needed, Extended, SameFiles;
      NodeBlock(ent, n);
      StoreSized();
      ghost var store, owner0 := cache.Store(), owner;
      assert store.Keys == cache.disk.Keys by { cache.StoreKeys(); }
      var size := NodeSize(cache.entries[ent].buffer);
      assert size == Size(store, n) <= DIRECT * BSIZE;
      ghost var i, took := FirstNew(store, n), Needed(store, n, FirstNew(store, n), FirstNew(store, n));
      GrowingNone(store, |bitmap|, n);
      NoneFillable(store, |bitmap|, n);
      if size < Sum(off0, |buf|) {
        var grown;
        grown, i, took := Grow(ent, n, Sum(off0, |buf|));
        if grown != Success {
          StoreSized();
          assert cache.Store().Keys == cache.disk.Keys by { cache.StoreKeys(); }
          GrewBy(store, cache.Store(), cache.Store(), |bitmap|, owner0, owner, nodes, n, i, took);
          return grown, 0;
        }
      }
      if off0 + |buf| >= U64 {
        return Wild, 0;
      }
      ghost var mid := cache.Store();
      StoreSized();
      ghost var owner1 := owner;
      status, done := WriteLoop(ent, n, buf, off0);
      WroteBy(store, mid, cache.Store(), |bitmap|, owner0, owner1, nodes, n, buf, off0, done);
      WroteBytes(store, cache.Store(), |bitmap|, owner0, nodes, n, buf, off0, done);
      StoreSized();
      assert cache.Store().Keys == cache.disk.Keys by { cache.StoreKeys(); }
      StoredNodes(mid, cache.Store(), |bitmap|, nodes, n, buf, off0, done);
      GrewBy(store, mid, cache.Store(), |bitmap|, owner0, owner, nodes, n, i, took);
    }

    /** The copying loop of O2FS_Write, on a file that is already long enough. */
    method WriteLoop(ent: nat, n: nat, buf: seq<Byte>, off0: nat) returns (status: Result, ghost done: nat)
      requires Valid() && Open(ent, n) && off0 + |buf| <= Size(cache.Store(), n)
      modifies cache`entries, cache`lru, cache`chains, cache`stale, cache`disk, cache`hits, cache`misses
      ensures Valid() && Open(ent, n) && PinsKept(old(cache.entries), cache.entries)
      ensures status == Success || status == NoMem
      ensures status == NoMem ==> cache.lru == []
      ensures done <= |buf| && (status == Success ==> done == |buf|)
      ensures Stored(old(cache.Store()), cache.Store(), |bitmap|, nodes, n, buf, off0, done)
      ensures cache.disk.Keys == old(cache.disk.Keys)
    {
      hide Hashed, Unpinned, Coherent, View, FsOk, Unique, BitmapPinned, StaleNodes, NodePtr, NodeSize;
      hide BlockAt, Stored;
      ghost var store := cache.Store();
      StoredNone(store, |bitmap|, nodes, n, buf, off0);
      var pos := 0;
      while true
        invariant Valid() && Open(ent, n) && PinsKept(old(cache.entries), cache.entries)
        invariant pos <= |buf| && Stored(store, cache.Store(), |bitmap|, nodes, n, buf, off0, pos)
        invariant cache.disk.Keys == old(cache.disk.Keys)
        decreases |buf| - pos
      {
        var ok, n1 := WriteNext(ent, n, buf, off0, pos, store);
        if !ok {
          return NoMem, pos;
        }
        pos := pos + n1;
        if pos == |buf| {
          break;
        }
      }
      status, done := Success, |buf|;
    }

    /** One turn of the loop: what falls into one block. */
    method WriteNext(ent: nat, n: nat, buf: seq<Byte>, off0: nat, pos: nat, ghost store: Store)
      returns (ok: bool, n1: nat)
      requires Valid() && Open(ent, n) && off0 + |buf| <= Size(store, n) && pos <= |buf|
      requires Stored(store, cache.Store(), |bitmap|, nodes, n, buf, off0, pos)
      modifies cache`entries, cache`lru, cache`chains, cache`stale, cache`disk, cache`hits, cache`misses
      ensures Valid() && Open(ent, n) && PinsKept(old(cache.entries), cache.entries)
      ensures pos + n1 <= |buf| && (n1 == 0 ==> pos == |buf|)
      ensures !ok ==> cache.lru == [] && cache.Store() == old(cache.Store())
      ensures cache.disk.Keys == old(cache.disk.Keys)
      ensures ok ==> Stored(store, cache.Store(), |bitmap|, nodes, n, buf, off0, pos + n1)
    {
      hide Hashed, Unpinned, Coherent, View, FsOk, Unique, BitmapPinned, StaleNodes, NodePtr, NodeSize;
      hide BlockAt, Used, Overwritten, PinsKept;
      NodeBlock(ent, n);
      var off := off0 + pos;
      var b, at, len := off / BSIZE, off % BSIZE, |buf| - pos;
      n1 := if at + len > BSIZE then BSIZE - at else len;
      if n1 > 0 {
        assert PtrOk(cache.Store(), owner, n, b);
      }
      ghost var before := cache.Store();
      ok := WriteBlock(ent, n, b, at, buf[pos..pos + n1]);
      if ok {
        StoredMore(store, before, cache.Store(), |bitmap|, nodes, n, buf, off0, pos, n1);
      }
    }

    /** O2FSLoadVNode of an offset that is a node, or a block of the disk without a node's
        header, which is refused and let go.  Busy stands for a read that found no free
        buffer. */
    method LoadVNode(off: nat) returns (r: LookupResult)
      requires Valid() && Loadable(cache.Store(), nodes, off)
      modifies cache`entries, cache`lru, cache`chains, cache`stale, cache`hits, cache`misses
      ensures Valid() && PinsKept(old(cache.entries), cache.entries) && cache.Store() == old(cache.Store())
      ensures r.Found? ==> r.node == off && Open(r.ent, off) && IsNode(BlockAt(cache.Store(), off))
      ensures r.NotFound? ==> !IsNode(BlockAt(cache.Store(), off)) && |cache.lru| == |old(cache.lru)|
      ensures r.Busy? ==> cache.lru == []
      ensures |cache.lru| + 1 >= |old(cache.lru)|
    {
      hide Hashed, Unpinned, Coherent, View, FsOk, Unique, BitmapPinned, StaleNodes, BlockAt, IsNode;
      StalePinned(cache.entries, cache.stale, nodes, cache.disk);
      LoadableInStore(off);
      var status, got := cache.Read(K(off), true);
      PinsAfterRead(old(cache.entries), cache.entries, got);
      BitmapKept(bitmap, old(cache.entries), cache.entries);
      if got.None? {
        return Busy;
      }
      LruAfterPin(old(cache.entries), old(cache.lru), got.value);
      if !IsNode(cache.entries[got.value].buffer) {
        NoNodeClean(off, got.value);
        cache.Release(got.value);
        PinsAfterRead(old(cache.entries), cache.entries, got);
        BitmapKept(bitmap, old(cache.entries), cache.entries);
        r := NotFound;
      } else {
        r := Found(got.value, off);
      }
    }

    lemma LoadableInStore(off: nat)
      requires Valid() && Loadable(cache.Store(), nodes, off)
      ensures K(off) in cache.disk && InStore(cache.Store(), off)
      ensures BlockAt(cache.Store(), off) == cache.Store()[K(off)]
    {
      hide Hashed, Unpinned, Coherent, Marked, Fixed, NodeOk;
      if off in nodes {
        NodeInStore(off);
      }
    }

    /** A block without a node's header is not stale. */
    lemma NoNodeClean(off: nat, e: nat)
      requires Valid() && e < |cache.entries| && cache.entries[e].key == Some(K(off))
      requires !IsNode(BlockAt(cache.Store(), off))
      ensures e !in cache.stale
    {
      hide Hashed, Unpinned, Coherent, View, Unique, Held, Marked, Fixed, IsNode, BlockAt;
      assert forall m :: m in nodes ==> NodeOk(cache.Store(), owner, m);
      assert K(off).off == off;
    }

    lemma NodeInStore(n: nat)
      requires Valid() && n in nodes
      ensures K(n) in cache.disk && InStore(cache.Store(), n) && BlockAt(cache.Store(), n) == cache.Store()[K(n)]
    {
      hide Hashed, Unpinned, Coherent, Marked, Fixed;
      OwnedInStore(cache.Store(), owner, n, Node(n));
    }

    /** O2FS_Lookup.  The block that holds a match stays pinned.  Only the entry that is
        followed has to lead somewhere. */
    method Lookup(ent: nat, n: nat, name: Str) returns (r: LookupResult)
      requires Valid() && Open(ent, n) && Follows(cache.Store(), nodes, n, name)
      modifies cache`entries, cache`lru, cache`chains, cache`stale, cache`hits, cache`misses
      ensures Valid() && Open(ent, n) && PinsKept(old(cache.entries), cache.entries)
      ensures cache.Store() == old(cache.Store())
      ensures r.Found? ==> OpenLookup(cache.Store(), n, name) == Some(r.node) && Open(r.ent, r.node)
      ensures r.NotFound? ==> OpenLookup(cache.Store(), n, name).None?
      ensures r.Busy? ==> cache.lru == []
      ensures |cache.lru| + 2 >= |old(cache.lru)|
    {
      hide Hashed, Unpinned, Coherent, View, FsOk, Unique, BitmapPinned, StaleNodes, DirLookup, BlockAt, IsNode;
      var found, off := FindEntry(ent, n, name);
      if found.None? {
        return Busy;
      }
      if !found.value {
        return NotFound;
      }
      r := LoadVNode(off);
    }

    /** The loop of O2FS_Lookup over the blocks; None when no buffer was free. */
    method FindEntry(ent: nat, n: nat, name: Str) returns (found: Option<bool>, off: nat)
      requires Valid() && Open(ent, n)
      modifies cache`entries, cache`lru, cache`chains, cache`stale, cache`hits, cache`misses
      ensures Valid() && Open(ent, n) && PinsKept(old(cache.entries), cache.entries)
      ensures cache.Store() == old(cache.Store())
      ensures found.None? ==> cache.lru == []
      ensures |cache.lru| + 1 >= |old(cache.lru)|
      ensures found.Some? ==> DirLookup(cache.Store(), n, name) == if found.value then Some(off) else None
    {
      hide Hashed, Unpinned, Coherent, View, FsOk, Unique, BitmapPinned, StaleNodes, NodePtr, NodeSize;
      hide BlockAt, IsNode, FindSlot, SlotObj, LookupIn;
      NodeBlock(ent, n);
      ghost var store := cache.Store();
      ghost var bs := FileBlocks(store, n);
      var blocks := Blocks(NodeSize(cache.entries[ent].buffer));
      assert |bs| == blocks <= DIRECT && forall i :: 0 <= i < blocks ==> bs[i] == FileBlock(store, n, i);
      hide FileBlocks, FileBlock;
      var b := 0;
      off := 0;
      while b < blocks
        invariant b <= blocks
        invariant Valid() && Open(ent, n) && PinsKept(old(cache.entries), cache.entries) && cache.Store() == store
        invariant LookupIn(bs, name, 0) == LookupIn(bs, name, b) && |cache.lru| == |old(cache.lru)|
      {
        LookupStep(bs, name, b);
        found, off := LookupBlock(ent, n, name, b);
        if found.None? || found.value {
          return;
        }
        b := b + 1;
      }
      LookupStep(bs, name, b);
      found := Some(false);
    }

    /** The inner loop of O2FS_Lookup over one block; None when no buffer was free. */
    method LookupBlock(ent: nat, n: nat, name: Str, b: nat) returns (found: Option<bool>, off: nat)
      requires Valid() && Open(ent, n) && b < DIRECT
      modifies cache`entries, cache`lru, cache`chains, cache`stale, cache`hits, cache`misses
      ensures Valid() && Open(ent, n) && PinsKept(old(cache.entries), cache.entries)
      ensures cache.Store() == old(cache.Store())
      ensures found.None? ==> cache.lru == []
      ensures if found == Some(true) then |cache.lru| + 1 >= |old(cache.lru)| else |cache.lru| == |old(cache.lru)|
      ensures found.Some? ==> var blk := FileBlock(cache.Store(), n, b);
        var e := FindSlot(blk, name, 0);
        found.value == e.Some? && (e.Some? ==> e.value < SLOTS && off == SlotObj(blk, e.value))
    {
      hide Hashed, Unpinned, Coherent, View, FsOk, Unique, BitmapPinned, StaleNodes, NodePtr, NodeSize;
      hide BlockAt, SlotIs, SlotObj;
      StalePinned(cache.entries, cache.stale, nodes, cache.disk);
      off := 0;
      var got := Resolve(ent, n, b);
      BitmapKept(bitmap, old(cache.entries), cache.entries);
      if got.None? {
        return None, 0;
      }
      var dir := cache.entries[got.value].buffer;
      var e := FirstSlot(dir, name);
      if e.Some? {
        return Some(true), SlotObj(dir, e.value);
      }
      PtrClean(n, b, got.value);
      cache.Release(got.value);
      BitmapKept(bitmap, old(cache.entries), cache.entries);
      found := Some(false);
    }
  }

  /** The entry loop of O2FS_Lookup. */
  method FirstSlot(dir: Block, name: Str) returns (r: Option<nat>)
    requires |dir| == BSIZE
    ensures r == FindSlot(dir, name, 0) && (r.Some? ==> r.value < SLOTS)
  {
    hide SlotIs;
    var e := 0;
    while e < SLOTS
      invariant e <= SLOTS && FindSlot(dir, name, 0) == FindSlot(dir, name, e)
    {
      if SlotIs(dir, e, name) {
        return Some(e);
      }
      e := e + 1;
    }
    r := None;
  }

  /** Stale entries are pinned, so they stay on their nodes while pins are kept. */
  lemma StalePinned(entries: seq<Entry>, stale: set<nat>, nodes: set<nat>, disk: map<Key, Block>)
    requires Coherent(entries, disk, stale) && StaleNodes(entries, stale, nodes)
    ensures forall entries' :: PinsKept(entries, entries') ==> StaleNodes(entries', stale, nodes)
  {}

  lemma StaleAdd(entries: seq<Entry>, stale: set<nat>, nodes: set<nat>, entries': seq<Entry>, e: nat, n: nat)
    requires StaleNodes(entries, stale, nodes) && |entries| == |entries'| && e < |entries|
    requires forall f :: 0 <= f < |entries| ==> entries'[f].key == entries[f].key
    requires n in nodes && entries[e].key == Some(K(n))
    ensures StaleNodes(entries', stale + {e}, nodes)
  {}

  lemma MarkedBlockIs(store: Store, i: nat, x: nat)
    requires x < BITS
    ensures (BITS * i + x) / BITS == i
    ensures var b := BlockAt(store, BitmapOff(i));
      MarkedBlock(store, BITS * i + x) == b[x / 8 := SetBit(b[x / 8], x % 8)]
  {
    hide SetBit, BlockAt;
    BitIndex(i, x);
  }

  /** Where bit x of bitmap block i is. */
  lemma BitIndex(i: nat, x: nat)
    requires x < BITS
    ensures (BITS * i + x) / BITS == i && (BITS * i + x) % BITS == x && (BITS * i + x) % 8 == x % 8
  {
    BlockIndex(i, x);
    BytePart(0x4000 * i, x);
  }

  lemma BitmapKept(bitmap: seq<nat>, before: seq<Entry>, after: seq<Entry>)
    requires BitmapPinned(bitmap, before) && PinsKept(before, after)
    ensures BitmapPinned(bitmap, after)
  {}

  lemma StaleKept(entries: seq<Entry>, stale: set<nat>, nodes: set<nat>, entries': seq<Entry>)
    requires StaleNodes(entries, stale, nodes) && |entries| == |entries'|
    requires forall e :: 0 <= e < |entries| ==> entries'[e].key == entries[e].key
    ensures StaleNodes(entries', stale, nodes)
  {}

  lemma StaleLess(entries: seq<Entry>, stale: set<nat>, nodes: set<nat>, stale': set<nat>)
    requires StaleNodes(entries, stale, nodes) && stale' <= stale
    ensures StaleNodes(entries, stale', nodes)
  {}

  lemma UsedIs(store: Store, i: nat, x: nat)
    requires x < BITS
    ensures Used(store, BITS * i + x) == Bit(BlockAt(store, BitmapOff(i))[x / 8], x % 8)
  {
    hide Bit, BlockAt;
    BitIndex(i, x);
  }

  lemma UsedIn(store: Store, i: nat, n: nat)
    requires n <= BITS && forall x :: 0 <= x < n ==> Bit(BlockAt(store, BitmapOff(i))[x / 8], x % 8)
    ensures forall q :: i * BITS <= q < i * BITS + n ==> Used(store, q)
  {
    hide Bit, BlockAt, Used;
    forall q | i * BITS <= q < i * BITS + n ensures Used(store, q) {
      var x := q - i * BITS;
      assert q == BITS * i + x;
      UsedIs(store, i, x);
    }
  }

  lemma OnDiskIs(store: Store, off: nat)
    requires Sized(store)
    ensures InStore(store, off) <==> K(off) in store
  {}

  ghost predicate BitmapPinned(bitmap: seq<nat>, entries: seq<Entry>) {
    forall i :: 0 <= i < |bitmap| ==>
      bitmap[i] < |entries| && entries[bitmap[i]].key == Some(K(BitmapOff(i))) && entries[bitmap[i]].refCount > 0
  }
}
