/** What an O2FS image means: which block belongs to what, and which bytes a file has. */
module O2fsSpec {
  import opened Common
  import opened BufferCache
  import opened O2fsLayout

  type Store = map<Key, Block>

  datatype Owner = Super | Bitmap(index: nat) | Node(node: nat) | Data(node: nat, index: nat)

  function ZeroBlock(): (b: Block)
    ensures |b| == BSIZE && forall i :: 0 <= i < BSIZE ==> b[i] == 0
  {
    seq(BSIZE, _ => 0)
  }

  /** The block at a disk offset. */
  function BlockAt(store: Store, off: nat): (b: Block)
    ensures |b| == BSIZE
  {
    if K(off) in store && |store[K(off)]| == BSIZE then store[K(off)] else ZeroBlock()
  }

  function Blocks(size: nat): nat {
    (size + BSIZE - 1) / BSIZE
  }

  function Size(store: Store, n: nat): nat {
    NodeSize(BlockAt(store, n))
  }

  function Ptr(store: Store, n: nat, i: nat): nat
    requires i <= DIRECT
  {
    NodePtr(BlockAt(store, n), i)
  }

  /** Block i of the file whose node is at n. */
  function FileBlock(store: Store, n: nat, i: nat): (b: Block)
    requires i <= DIRECT
    ensures |b| == BSIZE
  {
    BlockAt(store, Ptr(store, n, i))
  }

  /** Byte p of the file whose node is at n. */
  function FileByte(store: Store, n: nat, p: nat): Byte
    requires p < DIRECT * BSIZE
  {
    FileBlock(store, n, p / BSIZE)[p % BSIZE]
  }

  function BitmapOff(i: nat): nat {
    BSIZE * (1 + i)
  }

  ghost predicate InBitmap(q: nat, nb: nat) {
    exists j :: 0 <= j < nb && q == BitmapOff(j)
  }

  function Used(store: Store, blk: nat): bool {
    Bit(BlockAt(store, BitmapOff(blk / BITS))[blk % BITS / 8], blk % 8)
  }

  // ---------------------------------------------------------------- the image invariant

  ghost predicate InStore(store: Store, off: nat) {
    K(off) in store && |store[K(off)]| == BSIZE
  }

  /** The disk is made of whole blocks. */
  ghost predicate Sized(store: Store) {
    forall k :: k in store ==> |store[k]| == BSIZE
  }

  /** Every owned block is on the disk. */
  ghost predicate Held(store: Store, owner: map<nat, Owner>) {
    forall blk :: blk in owner ==> InStore(store, blk * BSIZE)
  }

  /** Every owned block that the bitmap covers is marked in it. */
  ghost predicate Marked(store: Store, nb: nat, owner: map<nat, Owner>) {
    forall blk :: blk in owner && blk < nb * BITS ==> Used(store, blk)
  }

  ghost predicate Fixed(nb: nat, owner: map<nat, Owner>) {
    && 0 in owner && owner[0] == Super
    && (forall i :: 0 <= i < nb ==> Owns(owner, BitmapOff(i), Bitmap(i)))
  }

  ghost predicate Owns(owner: map<nat, Owner>, off: nat, o: Owner) {
    off % BSIZE == 0 && off / BSIZE in owner && owner[off / BSIZE] == o
  }

  /** Pointer i of node n: the block it names belongs to it; only pointers past the end of
      the file may be empty. */
  ghost predicate PtrOk(store: Store, owner: map<nat, Owner>, n: nat, i: nat)
    requires i < DIRECT
  {
    if Ptr(store, n, i) == 0 then i >= Blocks(Size(store, n)) else Owns(owner, Ptr(store, n, i), Data(n, i))
  }

  ghost predicate NodeOk(store: Store, owner: map<nat, Owner>, n: nat) {
    && Owns(owner, n, Node(n)) && IsNode(BlockAt(store, n))
    && Size(store, n) <= DIRECT * BSIZE && Ptr(store, n, DIRECT) == 0
    && forall i :: 0 <= i < DIRECT ==> PtrOk(store, owner, n, i)
  }

  /** No block has two owners (owner is a function), everything reachable is marked and on
      the disk.  The disk may be smaller than its bitmap. */
  ghost predicate FsOk(store: Store, nb: nat, owner: map<nat, Owner>, nodes: set<nat>) {
    && Sized(store) && Held(store, owner) && Marked(store, nb, owner) && Fixed(nb, owner)
    && forall n :: n in nodes ==> NodeOk(store, owner, n)
  }

  lemma OwnedInStore(store: Store, owner: map<nat, Owner>, off: nat, o: Owner)
    requires Held(store, owner) && Owns(owner, off, o)
    ensures InStore(store, off) && BlockAt(store, off) == store[K(off)]
  {
    assert off == off / BSIZE * BSIZE;
    assert InStore(store, off / BSIZE * BSIZE);
  }

  /** Different owners, different offsets. */
  lemma OwnersDiffer(owner: map<nat, Owner>, off: nat, o: Owner, off': nat, o': Owner)
    requires Owns(owner, off, o) && Owns(owner, off', o') && o != o'
    ensures off != off'
  {}

  // ---------------------------------------------------------------- storing one block

  lemma BlockPut(store: Store, off: nat, data: Block, off': nat)
    requires |data| == BSIZE
    ensures BlockAt(store[K(off) := data], off') == if off' == off then data else BlockAt(store, off')
  {}

  lemma HeldPut(store: Store, owner: map<nat, Owner>, off: nat, data: Block)
    requires Held(store, owner) && |data| == BSIZE
    ensures Held(store[K(off) := data], owner)
  {
    forall blk | blk in owner ensures InStore(store[K(off) := data], blk * BSIZE) {
      assert InStore(store, blk * BSIZE);
    }
  }

  /** Blocks that are no bitmap do not matter to the bitmap. */
  lemma MarkedPut(store: Store, nb: nat, owner: map<nat, Owner>, off: nat, o: Owner, data: Block)
    requires Marked(store, nb, owner) && Fixed(nb, owner) && |data| == BSIZE && Owns(owner, off, o) && !o.Bitmap?
    ensures Marked(store[K(off) := data], nb, owner)
    ensures forall blk :: 0 <= blk < nb * BITS ==> Used(store[K(off) := data], blk) == Used(store, blk)
  {
    forall blk | 0 <= blk < nb * BITS ensures Used(store[K(off) := data], blk) == Used(store, blk) {
      var i := blk / BITS;
      assert Owns(owner, BitmapOff(i), Bitmap(i));
      OwnersDiffer(owner, off, o, BitmapOff(i), Bitmap(i));
      BlockPut(store, off, data, BitmapOff(i));
    }
  }

  /** Storing into a data block changes that block of its file and nothing else. */
  lemma PutData(store: Store, nb: nat, owner: map<nat, Owner>, nodes: set<nat>, n: nat, i: nat, data: Block,
          store': Store)
    requires FsOk(store, nb, owner, nodes) && n in nodes && i < DIRECT && Ptr(store, n, i) != 0 && |data| == BSIZE
    requires store' == store[K(Ptr(store, n, i)) := data]
    ensures FsOk(store', nb, owner, nodes)
    ensures forall m :: m in nodes ==> BlockAt(store', m) == BlockAt(store, m)
    ensures forall m, j :: m in nodes && 0 <= j < DIRECT ==>
      FileBlock(store', m, j) == if m == n && j == i then data else FileBlock(store, m, j)
    ensures forall q :: 0 <= q < nb * BITS ==> Used(store', q) == Used(store, q)
  {
    hide NodePtr, NodeSize, Held, Marked, Fixed, BlockAt, IsNode;
    var off := Ptr(store, n, i);
    assert NodeOk(store, owner, n) && PtrOk(store, owner, n, i);
    HeldPut(store, owner, off, data);
    MarkedPut(store, nb, owner, off, Data(n, i), data);
    forall m | m in nodes ensures BlockAt(store', m) == BlockAt(store, m) && NodeOk(store', owner, m) {
      assert NodeOk(store, owner, m);
      OwnersDiffer(owner, off, Data(n, i), m, Node(m));
      BlockPut(store, off, data, m);
      NodeKept(store, store', owner, m);
    }
    forall m, j | m in nodes && 0 <= j < DIRECT
      ensures FileBlock(store', m, j) == if m == n && j == i then data else FileBlock(store, m, j)
    {
      DataApart(store, nb, owner, m, j, off, Data(n, i));
      BlockPut(store, off, data, Ptr(store, m, j));
    }
  }

  /** A node's facts are in its own block. */
  lemma NodeKept(store: Store, store': Store, owner: map<nat, Owner>, m: nat)
    requires NodeOk(store, owner, m) && BlockAt(store', m) == BlockAt(store, m)
    ensures NodeOk(store', owner, m)
  {
    forall i | 0 <= i < DIRECT ensures PtrOk(store', owner, m, i) {
      assert PtrOk(store, owner, m, i);
    }
  }

  lemma DataApart(store: Store, nb: nat, owner: map<nat, Owner>, m: nat, i: nat, off: nat, o: Owner)
    requires Fixed(nb, owner) && NodeOk(store, owner, m) && i < DIRECT && Owns(owner, off, o) && o != Super
    ensures o != Data(m, i) ==> Ptr(store, m, i) != off
  {
    assert PtrOk(store, owner, m, i);
  }

  /** Storing into node n's own block leaves every other node and every data block alone. */
  lemma PutNode(store: Store, nb: nat, owner: map<nat, Owner>, nodes: set<nat>, n: nat, data: Block, store': Store)
    requires FsOk(store, nb, owner, nodes) && n in nodes && |data| == BSIZE && store' == store[K(n) := data]
    ensures Sized(store') && Held(store', owner) && Marked(store', nb, owner)
    ensures forall blk :: 0 <= blk < nb * BITS ==> Used(store', blk) == Used(store, blk)
    ensures BlockAt(store', n) == data
    ensures forall m :: m in nodes && m != n ==> BlockAt(store', m) == BlockAt(store, m) && NodeOk(store', owner, m)
    ensures forall m, i :: m in nodes && 0 <= i < DIRECT ==> BlockAt(store', Ptr(store, m, i)) == FileBlock(store, m, i)
  {
    hide NodePtr, NodeSize, Held, Marked, Fixed, BlockAt, IsNode;
    assert NodeOk(store, owner, n);
    HeldPut(store, owner, n, data);
    MarkedPut(store, nb, owner, n, Node(n), data);
    BlockPut(store, n, data, n);
    forall m | m in nodes && m != n ensures BlockAt(store', m) == BlockAt(store, m) && NodeOk(store', owner, m) {
      assert NodeOk(store, owner, m);
      BlockPut(store, n, data, m);
      NodeKept(store, store', owner, m);
    }
    forall m, i | m in nodes && 0 <= i < DIRECT ensures BlockAt(store', Ptr(store, m, i)) == FileBlock(store, m, i) {
      DataApart(store, nb, owner, m, i, n, Node(n));
      BlockPut(store, n, data, Ptr(store, m, i));
    }
  }

  /** Giving an empty pointer a fresh marked block of the disk. */
  lemma PutPtr(store: Store, nb: nat, owner: map<nat, Owner>, nodes: set<nat>, n: nat, i: nat, blk: nat, store': Store)
    requires FsOk(store, nb, owner, nodes) && n in nodes && i < DIRECT && Ptr(store, n, i) == 0
    requires blk < nb * BITS && blk !in owner && Used(store, blk) && blk * BSIZE < U64 && InStore(store, blk * BSIZE)
    requires store' == store[K(n) := SetPtr(BlockAt(store, n), i, blk * BSIZE)]
    ensures FsOk(store', nb, owner[blk := Data(n, i)], nodes)
    ensures Size(store', n) == Size(store, n) && blk * BSIZE > 0
    ensures forall j :: 0 <= j < DIRECT ==> Ptr(store', n, j) == if j == i then blk * BSIZE else Ptr(store, n, j)
    ensures forall q :: 0 <= q < nb * BITS ==> Used(store', q) == Used(store, q)
  {
    hide NodePtr, NodeSize, BlockAt, Used, SetPtr, IsNode;
    assert NodeOk(store, owner, n) && PtrOk(store, owner, n, i);
    var data := SetPtr(BlockAt(store, n), i, blk * BSIZE);
    SetPtrFacts(BlockAt(store, n), i, blk * BSIZE);
    assert IsNode(data) by { SetPtrStays(BlockAt(store, n), i, blk * BSIZE); }
    PutNode(store, nb, owner, nodes, n, data, store');
    var owner' := owner[blk := Data(n, i)];
    assert Owns(owner', blk * BSIZE, Data(n, i));
    forall m | m in nodes ensures NodeOk(store', owner', m) {
      if m != n {
        NodeGrows(store', owner, owner', m);
      } else {
        forall j | 0 <= j < DIRECT ensures PtrOk(store', owner', n, j) {
          assert PtrOk(store, owner, n, j);
        }
      }
    }
    FixedGrows(nb, owner, owner');
    assert Held(store', owner') by { HeldMore(store, owner, n, data, blk, Data(n, i)); }
  }

  lemma HeldMore(store: Store, owner: map<nat, Owner>, off: nat, data: Block, blk: nat, o: Owner)
    requires Held(store, owner) && |data| == BSIZE && InStore(store, blk * BSIZE)
    ensures Held(store[K(off) := data], owner[blk := o])
  {
    HeldPut(store, owner, off, data);
  }

  lemma NodeGrows(store: Store, owner: map<nat, Owner>, owner': map<nat, Owner>, m: nat)
    requires NodeOk(store, owner, m) && forall b :: b in owner ==> b in owner' && owner'[b] == owner[b]
    ensures NodeOk(store, owner', m)
  {
    forall i | 0 <= i < DIRECT ensures PtrOk(store, owner', m, i) {
      assert PtrOk(store, owner, m, i);
    }
  }

  lemma FixedGrows(nb: nat, owner: map<nat, Owner>, owner': map<nat, Owner>)
    requires Fixed(nb, owner) && forall b :: b in owner ==> b in owner' && owner'[b] == owner[b]
    ensures Fixed(nb, owner')
  {
    forall i | 0 <= i < nb ensures Owns(owner', BitmapOff(i), Bitmap(i)) {
      assert Owns(owner, BitmapOff(i), Bitmap(i));
    }
  }

  /** Recording a larger size once its blocks are there. */
  lemma PutSize(store: Store, nb: nat, owner: map<nat, Owner>, nodes: set<nat>, n: nat, size: nat, store': Store)
    requires FsOk(store, nb, owner, nodes) && n in nodes && size <= DIRECT * BSIZE
    requires forall i :: 0 <= i < Blocks(size) && i < DIRECT ==> Ptr(store, n, i) != 0
    requires store' == store[K(n) := SetSize(BlockAt(store, n), size)]
    ensures FsOk(store', nb, owner, nodes)
    ensures Size(store', n) == size
    ensures forall i :: 0 <= i < DIRECT ==> Ptr(store', n, i) == Ptr(store, n, i)
    ensures forall q :: 0 <= q < nb * BITS ==> Used(store', q) == Used(store, q)
  {
    hide NodePtr, NodeSize, BlockAt, Used, SetSize, IsNode;
    assert NodeOk(store, owner, n);
    var data := SetSize(BlockAt(store, n), size);
    SetSizeFacts(BlockAt(store, n), size);
    assert IsNode(data) by { SetSizeStays(BlockAt(store, n), size); }
    PutNode(store, nb, owner, nodes, n, data, store');
    forall j | 0 <= j < DIRECT ensures PtrOk(store', owner, n, j) {
      assert PtrOk(store, owner, n, j);
    }
  }

  /** The bitmap block that covers blk, with blk's bit set. */
  function MarkedBlock(store: Store, blk: nat): (b: Block)
    ensures |b| == BSIZE
  {
    var b := BlockAt(store, BitmapOff(blk / BITS));
    b[blk % BITS / 8 := SetBit(b[blk % BITS / 8], blk % 8)]
  }

  lemma MarkBit(store: Store, nb: nat, owner: map<nat, Owner>, nodes: set<nat>, blk: nat, store': Store)
    requires FsOk(store, nb, owner, nodes) && blk < nb * BITS
    requires store' == store[K(BitmapOff(blk / BITS)) := MarkedBlock(store, blk)]
    ensures forall q :: 0 <= q < nb * BITS ==> Used(store', q) == (q == blk || Used(store, q))
    ensures FsOk(store', nb, owner, nodes)
    ensures forall q :: 0 <= q && !InBitmap(q, nb) ==> BlockAt(store', q) == BlockAt(store, q)
  {
    hide NodePtr, NodeSize, Fixed, IsNode, Held;
    var i := blk / BITS;
    var off := BitmapOff(i);
    assert Owns(owner, off, Bitmap(i)) by { BitmapOwned(nb, owner, i); }
    HeldPut(store, owner, off, MarkedBlock(store, blk));
    forall q | 0 <= q < nb * BITS ensures Used(store', q) == (q == blk || Used(store, q)) {
      MarkOne(store, blk, q, store');
    }
    hide Used, BlockAt, MarkedBlock;
    forall q | 0 <= q && !InBitmap(q, nb) ensures BlockAt(store', q) == BlockAt(store, q) {
      BlockPut(store, off, MarkedBlock(store, blk), q);
    }
    forall m | m in nodes ensures NodeOk(store', owner, m) {
      assert NodeOk(store, owner, m);
      OwnersDiffer(owner, off, Bitmap(i), m, Node(m));
      BlockPut(store, off, MarkedBlock(store, blk), m);
      NodeKept(store, store', owner, m);
    }
  }

  lemma BitmapOwned(nb: nat, owner: map<nat, Owner>, i: nat)
    requires Fixed(nb, owner) && i < nb
    ensures Owns(owner, BitmapOff(i), Bitmap(i))
  {}

  /** Nodes and blocks of files are no bitmap blocks. */
  lemma NotBitmap(nb: nat, owner: map<nat, Owner>, off: nat, o: Owner)
    requires Fixed(nb, owner) && Owns(owner, off, o) && !o.Bitmap?
    ensures !InBitmap(off, nb)
  {}

  lemma BlockIndex(i: nat, x: nat)
    requires x < BITS
    ensures (BITS * i + x) / BITS == i && (BITS * i + x) % BITS == x
  {}

  lemma BytePart(a: nat, x: nat)
    ensures (8 * a + x) % 8 == x % 8
  {}

  /** A block is told by its bitmap block, byte and bit. */
  lemma BitPlace(blk: nat)
    ensures blk == BITS * (blk / BITS) + 8 * (blk % BITS / 8) + blk % 8
  {
    var k, x := blk / BITS, blk % BITS;
    assert blk == BITS * k + x;
    BytePart(0x4000 * k, x);
  }

  lemma MarkOne(store: Store, blk: nat, q: nat, store': Store)
    requires store' == store[K(BitmapOff(blk / BITS)) := MarkedBlock(store, blk)]
    ensures Used(store', q) == (q == blk || Used(store, q))
  {
    hide SetBit, Bit;
    BlockPut(store, BitmapOff(blk / BITS), MarkedBlock(store, blk), BitmapOff(q / BITS));
    BitOfSetBit(BlockAt(store, BitmapOff(blk / BITS))[blk % BITS / 8], blk % 8, q % 8);
    BitPlace(q);
    BitPlace(blk);
  }

  lemma BitOfSetBit(x: Byte, i: nat, j: nat)
    requires i < 8
    ensures Bit(SetBit(x, i), j) == (i == j || Bit(x, j))
  {
    BitOfWithBit(x, i, j);
  }

  // ---------------------------------------------------------------- free blocks

  /** The first unmarked block from lo on, or the end of the bitmap. */
  function FreeFrom(store: Store, end: nat, lo: nat): (q: nat)
    requires lo <= end
    ensures lo <= q <= end && (q < end ==> !Used(store, q)) && forall r :: lo <= r < q ==> Used(store, r)
    decreases end - lo
  {
    if lo == end || !Used(store, lo) then lo else FreeFrom(store, end, lo + 1)
  }

  /** The unmarked blocks in order: the k-th, or the end of the bitmap. */
  function NthFree(store: Store, end: nat, k: nat): (q: nat)
    ensures q <= end && (q < end ==> !Used(store, q))
  {
    if k == 0 then FreeFrom(store, end, 0)
    else
      var q := NthFree(store, end, k - 1);
      if q == end then end else FreeFrom(store, end, q + 1)
  }

  /** The first k unmarked blocks have been marked since store, and no others. */
  ghost predicate TookFirst(store: Store, store': Store, end: nat, k: nat) {
    forall q :: 0 <= q < end ==> Used(store', q) == (Used(store, q) || q < Past(store, end, k))
  }

  /** Just past the first k unmarked blocks. */
  function Past(store: Store, end: nat, k: nat): (q: nat)
    ensures q <= end
  {
    if k == 0 then 0 else var q := NthFree(store, end, k - 1); if q == end then end else q + 1
  }

  /** The next block allocated is the next unmarked one of the beginning. */
  lemma NextFree(store: Store, store': Store, end: nat, k: nat, blk: nat)
    requires TookFirst(store, store', end, k)
    requires blk <= end && (blk < end ==> !Used(store', blk)) && forall q :: 0 <= q < blk ==> Used(store', q)
    ensures blk == NthFree(store, end, k)
  {
    hide Used;
    var lo := Past(store, end, k);
    var p := NthFree(store, end, k);
    assert p == FreeFrom(store, end, lo) || (p == end && lo == end);
    assert forall q :: 0 <= q < p ==> Used(store', q);
    if p < end {
      assert !Used(store', p);
    }
  }

  lemma TookNext(store: Store, mid: Store, store': Store, end: nat, k: nat, blk: nat)
    requires TookFirst(store, mid, end, k) && blk == NthFree(store, end, k) < end
    requires forall q :: 0 <= q < end ==> Used(store', q) == (q == blk || Used(mid, q))
    ensures TookFirst(store, store', end, k + 1)
  {
    hide Used;
    var lo := Past(store, end, k);
    assert blk == FreeFrom(store, end, lo);
  }

  // ---------------------------------------------------------------- directories

  /** The blocks of a file. */
  function FileBlocks(store: Store, n: nat): (bs: seq<Block>)
    ensures |bs| <= DIRECT && forall i :: 0 <= i < |bs| ==> |bs[i]| == BSIZE
  {
    var count := if Blocks(Size(store, n)) < DIRECT then Blocks(Size(store, n)) else DIRECT;
    seq(count, i requires 0 <= i < count => FileBlock(store, n, i))
  }

  /** The node offset in the first entry of that name from block b on. */
  function LookupIn(bs: seq<Block>, name: Str, b: nat): Option<nat>
    requires b <= |bs| && forall i :: 0 <= i < |bs| ==> |bs[i]| == BSIZE
    decreases |bs| - b
  {
    if b == |bs| then None else
    var e := FindSlot(bs[b], name, 0);
    if e.Some? then FindSlotFacts(bs[b], name, 0); Some(SlotObj(bs[b], e.value)) else LookupIn(bs, name, b + 1)
  }

  /** One block of the search. */
  lemma {:induction false} LookupStep(bs: seq<Block>, name: Str, b: nat)
    requires b <= |bs| && forall i :: 0 <= i < |bs| ==> |bs[i]| == BSIZE
    ensures b == |bs| ==> LookupIn(bs, name, b) == None
    ensures b < |bs| ==>
      var e := FindSlot(bs[b], name, 0);
      && (e.Some? ==> e.value < SLOTS && LookupIn(bs, name, b) == Some(SlotObj(bs[b], e.value)))
      && (e.None? ==> LookupIn(bs, name, b) == LookupIn(bs, name, b + 1))
  {
    hide FindSlot, SlotObj;
    if b < |bs| {
      FindSlotFacts(bs[b], name, 0);
    }
  }

  /** The entry O2FS_Lookup finds in file n.  Any file can be looked into; only its bytes
      matter. */
  function DirLookup(store: Store, n: nat, name: Str): Option<nat> {
    LookupIn(FileBlocks(store, n), name, 0)
  }

  /** And the node it opens: an entry that leads to no node opens nothing. */
  function OpenLookup(store: Store, n: nat, name: Str): Option<nat> {
    var m := DirLookup(store, n, name);
    if m.Some? && IsNode(BlockAt(store, m.value)) then m else None
  }

  const SLASH: Byte := 0x2F

  /** A name the path walk can pass to O2FS_Lookup. */
  predicate Component(name: Str) {
    0 < |name| <= 256 && IsStr(name) && SLASH !in name
  }

  /** The entries of the blocks lead to nodes. */
  ghost predicate EntriesLead(bs: seq<Block>, nodes: set<nat>)
    requires forall i :: 0 <= i < |bs| ==> |bs[i]| == BSIZE
  {
    forall name :: Component(name) && LookupIn(bs, name, 0).Some? ==> LookupIn(bs, name, 0).value in nodes
  }

  /** Entries of all files lead to nodes. */
  ghost predicate Linked(store: Store, nodes: set<nat>) {
    forall n :: n in nodes ==> EntriesLead(FileBlocks(store, n), nodes)
  }
}
