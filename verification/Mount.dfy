/** Mounting an O2FS volume (O2FS_Mount and O2FS_GetRoot in sys/fs/o2fs/o2fs.c). */
module Mounting {
  import opened Common
  import opened BufferCache
  import opened O2fsLayout
  import opened O2fsSpec
  import opened O2fs
  import opened Newfs

  /** The magic and version test of O2FS_Mount. */
  predicate HasHeader(b: Block) {
    |b| == BSIZE && BytesAt(b, 0, SUPER_MAGIC) && GetLE(b, 8, 2) == 1 && GetLE(b, 10, 2) == 0
  }

  /** A volume as newfs_o2fs leaves it and the file system keeps it. */
  ghost predicate Volume(store: Store, count: nat, nb: nat, root: nat, owner: map<nat, Owner>, nodes: set<nat>)
  {
    FsOk(store, nb, owner, nodes) && IsSuper(BlockAt(store, 0), count, nb, root) && root in nodes
  }

  /** BufCache_Read of a block of the disk. */
  method Pin(cache: BufCache, off: nat, ghost nodes: set<nat>) returns (got: Option<nat>)
    requires cache.Valid() && StaleNodes(cache.entries, cache.stale, nodes) && InStore(cache.Store(), off)
    modifies cache
    ensures cache.Valid() && StaleNodes(cache.entries, cache.stale, nodes)
    ensures cache.Store() == old(cache.Store()) && PinsKept(old(cache.entries), cache.entries)
    ensures got.None? ==> cache.lru == []
    ensures |cache.lru| + 1 >= |old(cache.lru)|
    ensures got.Some? ==>
      cache.Holder(got.value, K(off)) && cache.entries[got.value].buffer == BlockAt(cache.Store(), off)
    ensures got.Some? ==> got.value < |cache.entries| && cache.entries[got.value].refCount > 0
    ensures got.Some? && cache.entries[got.value].refCount == 1 ==> got.value !in cache.stale
  {
    StaleHeld(cache.entries, cache.disk, cache.stale);
    hide Hashed, Unpinned, Coherent, Unique;
    assert K(off) in cache.disk by { InDisk(cache, off); }
    hide View;
    StalePinned(cache.entries, cache.stale, nodes, cache.disk);
    hide StaleNodes;
    var status;
    status, got := cache.Read(K(off), true);
    PinsAfterRead(old(cache.entries), cache.entries, got);
    if got.Some? {
      LruAfterPin(old(cache.entries), old(cache.lru), got.value);
    }
  }

  lemma StaleHeld(entries: seq<Entry>, disk: map<Key, Block>, stale: set<nat>)
    requires Coherent(entries, disk, stale)
    ensures forall e :: e in stale ==> e < |entries| && entries[e].refCount > 0
  {}

  lemma InDisk(cache: BufCache, off: nat)
    requires cache.Valid() && InStore(cache.Store(), off)
    ensures K(off) in cache.disk
  {}

  /** The loop of O2FS_Mount over the bitmap. */
  method PinBitmap(cache: BufCache, size: nat, offset: nat, blockSize: nat, ghost owner: map<nat, Owner>,
          ghost nodes: set<nat>)
    returns (bitmap: Option<seq<nat>>)
    requires cache.Valid() && StaleNodes(cache.entries, cache.stale, nodes) && FsOk(cache.Store(), size, owner, nodes)
    requires offset == BSIZE == blockSize
    modifies cache
    ensures cache.Valid() && StaleNodes(cache.entries, cache.stale, nodes)
    ensures cache.Store() == old(cache.Store()) && PinsKept(old(cache.entries), cache.entries)
    ensures bitmap.None? ==> cache.lru == []
    ensures |cache.lru| + size >= |old(cache.lru)|
    ensures bitmap.Some? ==> |bitmap.value| == size && BitmapPinned(bitmap.value, cache.entries)
  {
    hide Hashed, Unpinned, Coherent, Unique, View, StaleNodes, FsOk;
    var b: seq<nat> := [];
    var i := 0;
    while i < size
      invariant i <= size && |b| == i && cache.Valid() && StaleNodes(cache.entries, cache.stale, nodes)
      invariant cache.Store() == old(cache.Store()) && PinsKept(old(cache.entries), cache.entries)
      invariant BitmapPinned(b, cache.entries) && |cache.lru| + i >= |old(cache.lru)|
    {
      BitmapInStore(cache.Store(), size, owner, nodes, i);
      assert offset + i * blockSize == BitmapOff(i);
      ghost var before := cache.entries;
      var got := Pin(cache, offset + i * blockSize, nodes);
      if got.None? {
        return None;
      }
      BitmapKept(b, before, cache.entries);
      b := b + [got.value];
      i := i + 1;
    }
    bitmap := Some(b);
  }

  lemma BitmapInStore(store: Store, nb: nat, owner: map<nat, Owner>, nodes: set<nat>, i: nat)
    requires FsOk(store, nb, owner, nodes) && i < nb
    ensures InStore(store, BitmapOff(i))
  {
    BitmapOwned(nb, owner, i);
    OwnedInStore(store, owner, BitmapOff(i), Bitmap(i));
  }

  /** O2FS_Mount: a disk without the superblock's magic and version is refused.  A volume is
      mounted unless its bitmap has more than 16 blocks or all buffers are pinned, and then the
      file system is in order with its
      root directory open. */
  method Mount(cache: BufCache, ghost count: nat, ghost nb: nat, ghost owner: map<nat, Owner>,
          ghost nodes: set<nat>, ghost root0: nat)
    returns (fs: O2fs?, ent: nat, root: nat)
    requires cache.Valid() && StaleNodes(cache.entries, cache.stale, nodes) && InStore(cache.Store(), 0)
    requires HasHeader(BlockAt(cache.Store(), 0)) ==> Volume(cache.Store(), count, nb, root0, owner, nodes)
    modifies cache
    ensures cache.Valid() && cache.Store() == old(cache.Store())
    ensures !HasHeader(BlockAt(cache.Store(), 0)) ==> fs == null
    ensures HasHeader(BlockAt(cache.Store(), 0)) ==>
      |cache.lru| + nb + 2 >= |old(cache.lru)| && (fs == null ==> nb > 16 || cache.lru == [])
    ensures fs != null ==> fs.cache == cache && fs.owner == owner && fs.nodes == nodes && root == root0
    ensures fs != null ==> fs.Valid() && |fs.bitmap| == nb && fs.Open(ent, root)
  {
    hide Hashed, Unpinned, Coherent, Unique, View, StaleNodes, FsOk, Get64, BlockAt, IsNode, BytesAt, GetLE;
    hide BitmapPinned;
    fs, ent, root := null, 0, 0;
    var got := Pin(cache, 0, nodes);
    if got.None? {
      return;
    }
    var sb := cache.entries[got.value].buffer;
    if !HasHeader(sb) {
      cache.Release(got.value);
      return;
    }
    if Get64(sb, 40) > 16 {
      return;   // the kernel stops: it has room for 16 blocks of bitmap
    }
    var size, offset, blockSize := Get64(sb, 40), Get64(sb, 48), Get64(sb, 32);
    root := Get64(sb, 104);
    var bitmap := PinBitmap(cache, size, offset, blockSize, owner, nodes);
    if bitmap.None? {
      return;
    }
    assert InStore(cache.Store(), root) by { RootInStore(cache.Store(), nb, owner, nodes, root); }
    ghost var before := cache.entries;
    var entry := Pin(cache, root, nodes);
    BitmapKept(bitmap.value, before, cache.entries);
    if entry.None? {
      return;
    }
    RootIsNode(cache.Store(), nb, owner, nodes, root);
    if !IsNode(cache.entries[entry.value].buffer) {
      return;
    }
    ent := entry.value;
    fs := new O2fs(cache, bitmap.value, owner, nodes);
  }

  lemma RootIsNode(store: Store, nb: nat, owner: map<nat, Owner>, nodes: set<nat>, root: nat)
    requires FsOk(store, nb, owner, nodes) && root in nodes
    ensures IsNode(BlockAt(store, root))
  {
    assert NodeOk(store, owner, root);
  }

  lemma RootInStore(store: Store, nb: nat, owner: map<nat, Owner>, nodes: set<nat>, root: nat)
    requires FsOk(store, nb, owner, nodes) && root in nodes
    ensures InStore(store, root)
  {
    assert NodeOk(store, owner, root);
    OwnedInStore(store, owner, root, Node(root));
  }
}
