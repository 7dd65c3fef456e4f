/** The disk below the blocks: the driver reads 512-byte sectors (sys/dev/x86/ide.c), so an entry
    whose offset is no multiple of the block size is read all the same. */
module RawDisks {
  import opened Common
  import opened BufferCache
  import opened O2fsLayout
  import opened O2fsSpec
  import opened Vfs
  import opened Manifest
  import opened Image
  import opened Newfs

  const SECTOR: nat := 512

  function ByteAt(image: Store, p: nat): Byte {
    BlockAt(image, p / BSIZE * BSIZE)[p % BSIZE]
  }

  /** BufCache_Read of a byte offset: a block's worth from the sector it lies in. */
  function SectorRead(image: Store, off: nat): (b: Block)
    ensures |b| == BSIZE
  {
    seq<Byte>(BSIZE, i requires 0 <= i < BSIZE => ByteAt(image, off / SECTOR * SECTOR + i))
  }

  /** A disk of that many bytes as the file system sees it: something can be read at every byte
      offset up to the last block. */
  function Raw(image: Store, size: nat): Store {
    map k | k in Offsets(size) :: SectorRead(image, k.off)
  }

  function Offsets(size: nat): set<Key> {
    set m: nat | m < size && m / SECTOR * SECTOR + BSIZE <= size :: K(m)
  }

  lemma RawAt(image: Store, size: nat, off: nat)
    requires off < size && off / SECTOR * SECTOR + BSIZE <= size
    ensures BlockAt(Raw(image, size), off) == SectorRead(image, off)
  {
    assert K(off) in Offsets(size);
  }

  /** Anywhere in the first sector of a block, that block is read. */
  lemma SameSector(image: Store, size: nat, off: nat, d: nat)
    requires off % BSIZE == 0 && d < SECTOR && off + BSIZE <= size
    ensures BlockAt(Raw(image, size), off + d) == BlockAt(image, off)
  {
    hide BlockAt, Raw;
    FirstSector(off, d);
    RawAt(image, size, off + d);
    forall i | 0 <= i < BSIZE ensures SectorRead(image, off + d)[i] == BlockAt(image, off)[i] {
      InBlock(off, i);
    }
  }

  lemma FirstSector(off: nat, d: nat)
    requires off % BSIZE == 0 && d < SECTOR
    ensures (off + d) / SECTOR * SECTOR == off
  {
    var q := off / BSIZE;
    assert off == (32 * q) * SECTOR;
  }

  lemma InBlock(off: nat, i: nat)
    requires off % BSIZE == 0 && i < BSIZE
    ensures (off + i) / BSIZE * BSIZE == off && (off + i) % BSIZE == i
  {}

  /** The disk holds every block that has an owner. */
  ghost predicate Holds(size: nat, owner: map<nat, Owner>) {
    forall blk :: blk in owner ==> blk * BSIZE + BSIZE <= size
  }

  lemma RawTrees(image: Store, size: nat, owner: map<nat, Owner>)
    requires Holds(size, owner)
    ensures TreesKept(image, Raw(image, size), owner)
  {
    hide BlockAt, Raw;
    forall off | 0 <= off && off % BSIZE == 0 && off / BSIZE in owner
      ensures BlockAt(Raw(image, size), off) == BlockAt(image, off)
    {
      assert off / BSIZE * BSIZE + BSIZE <= size;
      SameSector(image, size, off, 0);
    }
  }

  /** On the disk that newfs_o2fs leaves, over all paths: what is found is exactly what the
      manifest has, if and only if no file of it reads as a directory with a usable name that
      leads to a byte offset where a node is read. */
  lemma DiskFindsTreeIff(image: Store, size: nat, pos: nat, owner: map<nat, Owner>, trees: map<nat, Tree>, root: nat,
          items: seq<Item>)
    requires AllPlaced(image, pos, owner, trees) && Has(trees, root, Dir(items)) && Named(Dir(items))
    requires Holds(size, owner)
    ensures FindsTree(Raw(image, size), root, Dir(items)) <==>
      forall comps, name :: !Pretends(Raw(image, size), Dir(items), comps, name)
  {
    hide AllPlaced, TreesKept, FindsTree, Pretends, Rep, NodeOk, Children, Named, Raw;
    RawTrees(image, size, owner);
    TreeKept(image, Raw(image, size), pos, owner, trees, root);
    FindsTreeIff(Raw(image, size), root, Dir(items), pos);
  }

  /** An entry for an offset just behind that of the root: the path below it is found. */
  lemma OffGridEntry(image: Store, size: nat, pos: nat, owner: map<nat, Owner>, trees: map<nat, Tree>, root: nat,
          items: seq<Item>, comps: seq<Str>, host: Str, name: Str, d: nat, now: nat)
    requires AllPlaced(image, pos, owner, trees) && Has(trees, root, Dir(items)) && Named(Dir(items))
    requires Holds(size, owner)
    requires Components(comps) && Component(name) && |name| <= MAXNAMELEN && d < SECTOR && root + d < U64
    requires Resolve(Dir(items), comps) == Some(File(host, MakeEntry(name, root + d, now)))
    ensures LookupPath(Raw(image, size), root, PathOf(comps + [name])).Some?
    ensures Resolve(Dir(items), comps + [name]).None?
  {
    hide TreesKept, Rep, Children, Named, Raw, BlockAt, Resolve, MakeEntry, IsNode, PathOf;
    RawTrees(image, size, owner);
    assert Placed(image, pos, owner, trees, root, Dir(items));
    assert root / BSIZE * BSIZE + BSIZE <= size;
    SameSector(image, size, root, d);
    hide AllPlaced, NodeOk;
    TreeKept(image, Raw(image, size), pos, owner, trees, root);
    FakeEntry(Raw(image, size), root, Dir(items), pos, comps, host, name, root + d, now);
  }
}
