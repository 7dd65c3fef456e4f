/** How O2FS files grow and are written (O2FSGrowVNode and O2FS_Write in sys/fs/o2fs/o2fs.c),
    in terms of the blocks of the disk. */
module O2fsFiles {
  import opened Common
  import opened BufferCache
  import opened O2fsLayout
  import opened O2fsSpec

  /** PastEnd stands for an allocation beyond the end of the disk, and Wild for an access beyond
      the pointers of a node; the code notices neither. */
  datatype Result = Success | NoMem | Inval | NoSpc | PastEnd | Wild

  /** The 64-bit sum of an offset and a length. */
  function Sum(off: nat, len: nat): (r: nat)
    ensures r < U64 && (off + len < U64 ==> r == off + len)
  {
    (off + len) % U64
  }

  /** Every file keeps its size and its blocks. */
  ghost predicate SameFiles(store: Store, store': Store, nodes: set<nat>) {
    forall m :: m in nodes ==> Size(store', m) == Size(store, m) && FileBlocks(store', m) == FileBlocks(store, m)
  }

  lemma SameFilesBytes(store: Store, store': Store, nodes: set<nat>, m: nat, p: nat)
    requires SameFiles(store, store', nodes) && m in nodes && p < Size(store, m) && p < DIRECT * BSIZE
    ensures FileByte(store', m, p) == FileByte(store, m, p)
  {
    hide BlockAt, NodePtr, NodeSize;
    assert FileBlocks(store', m)[p / BSIZE] == FileBlocks(store, m)[p / BSIZE];
  }

  // ---------------------------------------------------------------- where a file grows

  /** How many of the pointers in [start, i) are empty. */
  function Needed(store: Store, n: nat, start: nat, i: nat): (k: nat)
    requires i <= DIRECT
    ensures start <= i ==> k <= i - start
  {
    if i <= start then 0 else Needed(store, n, start, i - 1) + if Ptr(store, n, i - 1) == 0 then 1 else 0
  }

  function FirstNew(store: Store, n: nat): nat {
    Blocks(Size(store, n))
  }

  /** Pointer i once the file has grown over it: empty ones take the unmarked blocks in
      order. */
  function NewPtr(store: Store, nb: nat, n: nat, i: nat): nat
    requires i < DIRECT
  {
    if Ptr(store, n, i) != 0 then Ptr(store, n, i)
    else NthFree(store, nb * BITS, Needed(store, n, FirstNew(store, n), i)) * BSIZE
  }

  /** What O2FSGrowVNode comes to from pointer i on, if the file is to have end blocks. */
  ghost function GrowFate(store: Store, nb: nat, n: nat, i: nat, end: nat): (r: Result)
    requires end <= DIRECT
    ensures r == Success || r == NoSpc || r == PastEnd
    decreases end - i
  {
    if i >= end then Success
    else if Ptr(store, n, i) != 0 then GrowFate(store, nb, n, i + 1, end)
    else
      var blk := NthFree(store, nb * BITS, Needed(store, n, FirstNew(store, n), i));
      if blk == nb * BITS then NoSpc
      else if !InStore(store, blk * BSIZE) then PastEnd
      else GrowFate(store, nb, n, i + 1, end)
  }

  /** What O2FS_Write comes to, but for a lack of buffers. */
  ghost function WriteFate(store: Store, nb: nat, n: nat, len: nat, off: nat): (r: Result)
    ensures r != NoMem
  {
    var end := Sum(off, len);
    var grown := if Size(store, n) >= end then Success else if end > DIRECT * BSIZE then Inval
      else GrowFate(store, nb, n, FirstNew(store, n), Blocks(end));
    if grown == Success && off + len >= U64 then Wild else grown
  }

  /** A write beyond the 64 blocks of a file is refused exactly if the 64-bit sum of its offset
      and length is beyond them, too; otherwise the loop leaves the pointers of the node, or
      the file cannot grow by what is left of the sum. */
  lemma RefusedIff(store: Store, nb: nat, n: nat, len: nat, off: nat)
    requires Size(store, n) <= DIRECT * BSIZE && off < U64 && len < U64 && off + len > DIRECT * BSIZE
    ensures WriteFate(store, nb, n, len, off) == Inval <==> off + len < U64 || off + len - U64 > DIRECT * BSIZE
  {
    hide GrowFate, NodeSize;
    if off + len >= U64 {
      assert Sum(off, len) == off + len - U64;
    }
  }

  /** The write that should be refused first of all: at the last offset there is. */
  lemma WriteWraps(store: Store, nb: nat, n: nat)
    ensures WriteFate(store, nb, n, 1, U64 - 1) == Wild && (U64 - 1) / BSIZE > DIRECT
  {
    assert Sum(U64 - 1, 1) == 0;
  }

  /** The length O2FS_Read goes on with. */
  function ReadLen(size: nat, off: nat, len: nat): nat
    requires off <= size
  {
    if Sum(off, len) > size then size - off else len
  }

  /** It is cut off at the end of the file exactly if offset and length do not wrap around. */
  lemma ReadCutIff(size: nat, off: nat, len: nat)
    requires off <= size < U64 && len < U64
    ensures off + ReadLen(size, off, len) <= size <==> off + len < U64
  {
    if off + len >= U64 {
      assert Sum(off, len) == off + len - U64;
    }
  }

  /** A read that is not cut off. */
  lemma ReadWraps(size: nat)
    requires 1 <= size < U64
    ensures ReadLen(size, 1, U64 - 1) == U64 - 1
  {
    assert Sum(1, U64 - 1) == 0;
  }

  /** It succeeds exactly if all the unmarked blocks it takes exist and are on the disk. */
  lemma {:induction false} GrowsIff(store: Store, nb: nat, n: nat, i: nat, end: nat)
    requires end <= DIRECT
    ensures GrowFate(store, nb, n, i, end) == Success <==>
      forall j :: i <= j < end && Ptr(store, n, j) == 0 ==> OnDisk(store, nb, NewPtr(store, nb, n, j))
    decreases end - i
  {
    hide NodePtr, BlockAt, Used, NthFree, Needed, NewPtr, OnDisk;
    if i < end {
      GrowsIff(store, nb, n, i + 1, end);
      if Ptr(store, n, i) == 0 {
        GrowOnDisk(store, nb, n, i);
      }
    }
  }

  lemma GrowOnDisk(store: Store, nb: nat, n: nat, i: nat)
    requires i < DIRECT && Ptr(store, n, i) == 0
    ensures var blk := NthFree(store, nb * BITS, Needed(store, n, FirstNew(store, n), i));
      OnDisk(store, nb, NewPtr(store, nb, n, i)) <==> blk != nb * BITS && InStore(store, blk * BSIZE)
  {
    hide NodePtr, BlockAt, Used, NthFree, Needed;
  }

  ghost predicate OwnerGrows(owner: map<nat, Owner>, owner': map<nat, Owner>) {
    forall b :: b in owner ==> b in owner' && owner'[b] == owner[b]
  }

  function FirstNewOf(node: Block): nat
    requires |node| == BSIZE
  {
    Blocks(NodeSize(node))
  }

  /** The block BAlloc returned, in terms of the beginning. */
  lemma AllocatedIs(store: Store, mid: Store, end: nat, k: nat, blk: nat)
    requires TookFirst(store, mid, end, k)
    requires blk == 0 <==> forall q :: 0 <= q < end ==> Used(mid, q)
    requires blk != 0 ==> blk < end && !Used(mid, blk) && forall q :: 0 <= q < blk ==> Used(mid, q)
    ensures NthFree(store, end, k) == if blk == 0 then end else blk
  {
    hide Used, NthFree;
    NextFree(store, mid, end, k, if blk == 0 then end else blk);
  }

  lemma GrowingNone(store: Store, nb: nat, n: nat)
    requires FirstNew(store, n) <= DIRECT
    ensures Growing(store, store, nb, n, FirstNew(store, n))
  {
    hide Used, BlockAt, NodePtr, NodeSize;
  }

  lemma PointerAt(store: Store, store': Store, nb: nat, n: nat, i: nat)
    requires i < DIRECT && Pointers(store, store', nb, n, i)
    ensures Ptr(store', n, i) == Ptr(store, n, i)
  {
    hide BlockAt, NodePtr;
  }

  /** A pointer that is not empty needs no block. */
  lemma GrowSkip(store: Store, store': Store, nb: nat, n: nat, i: nat)
    requires FirstNew(store, n) <= i < DIRECT && Growing(store, store', nb, n, i) && Ptr(store, n, i) != 0
    ensures Growing(store, store', nb, n, i + 1)
  {
    hide BlockAt, NodePtr, TookFirst;
  }

  /** Marking a block in the bitmap moves no pointer. */
  lemma MarkedPointers(store: Store, mid: Store, store': Store, nb: nat, n: nat, i: nat)
    requires i < DIRECT && Pointers(store, mid, nb, n, i) && !InBitmap(n, nb)
    requires forall q :: 0 <= q && !InBitmap(q, nb) ==> BlockAt(store', q) == BlockAt(mid, q)
    ensures Pointers(store, store', nb, n, i) && Size(store', n) == Size(mid, n)
  {
    hide BlockAt, NodePtr, NewPtr, NodeSize, InBitmap;
  }

  /** The pointer takes the next unmarked block. */
  lemma GrowStep(store: Store, mid: Store, store': Store, nb: nat, n: nat, i: nat, blk: nat)
    requires FirstNew(store, n) <= i < DIRECT && Pointers(store, mid, nb, n, i) && Ptr(store, n, i) == 0
    requires blk == NthFree(store, nb * BITS, Needed(store, n, FirstNew(store, n), i))
    requires TookFirst(store, mid, nb * BITS, Needed(store, n, FirstNew(store, n), i) + 1)
    requires forall j :: 0 <= j < DIRECT ==> Ptr(store', n, j) == if j == i then blk * BSIZE else Ptr(mid, n, j)
    requires forall q :: 0 <= q && q != n ==> BlockAt(store', q) == BlockAt(mid, q)
    requires forall q :: 0 <= q < nb * BITS ==> Used(store', q) == Used(mid, q)
    ensures Growing(store, store', nb, n, i + 1)
  {
    hide BlockAt, NodePtr, NodeSize, InBitmap, Used, NthFree, Past;
  }

  lemma FirstFilled(store: Store, owner: map<nat, Owner>, n: nat)
    requires NodeOk(store, owner, n)
    ensures FirstNew(store, n) <= DIRECT && forall j :: 0 <= j < FirstNew(store, n) ==> Ptr(store, n, j) != 0
  {
    forall j | 0 <= j < FirstNew(store, n) && j < DIRECT ensures Ptr(store, n, j) != 0 {
      assert PtrOk(store, owner, n, j);
    }
  }

  lemma StoppedFiles(store: Store, store': Store, nb: nat, owner: map<nat, Owner>, nodes: set<nat>, n: nat, i: nat)
    requires FsOk(store, nb, owner, nodes) && n in nodes && i <= DIRECT && Pointers(store, store', nb, n, i)
    requires Size(store', n) == Size(store, n)
    ensures SameFiles(store, store', nodes)
  {
    hide FileBlocks, BlockAt, NodeSize, Pointers, FsOk;
    forall m | m in nodes ensures Size(store', m) == Size(store, m) && FileBlocks(store', m) == FileBlocks(store, m) {
      GrowingKeeps(store, store', nb, owner, nodes, n, i, m);
    }
  }

  lemma PtrsStay(store: Store, mid: Store, store': Store, nb: nat, n: nat, i: nat)
    requires i < DIRECT && Growing(store, mid, nb, n, i) && Growing(store, store', nb, n, i + 1)
    ensures forall j :: 0 <= j < i ==> Ptr(store', n, j) == Ptr(mid, n, j)
  {
    hide Used, BlockAt, NodePtr, NodeSize, NewPtr;
  }

  lemma SizedGrowing(store: Store, mid: Store, store': Store, nb: nat, n: nat, i: nat)
    requires i <= DIRECT && Growing(store, mid, nb, n, i)
    requires forall j :: 0 <= j < DIRECT ==> Ptr(store', n, j) == Ptr(mid, n, j)
    requires forall q :: 0 <= q && q != n ==> BlockAt(store', q) == BlockAt(mid, q)
    requires forall q :: 0 <= q < nb * BITS ==> Used(store', q) == Used(mid, q)
    ensures Growing(store, store', nb, n, i)
  {
    hide Used, BlockAt, NodePtr, NodeSize, NewPtr;
  }

  ghost predicate OnDisk(store: Store, nb: nat, off: nat) {
    off / BSIZE < nb * BITS && InStore(store, off)
  }

  /** The pointers in [FirstNew, i) have their blocks; nothing but node n and the bitmap has
      changed. */
  ghost predicate Pointers(store: Store, store': Store, nb: nat, n: nat, i: nat)
    requires i <= DIRECT
  {
    && (forall j :: 0 <= j < DIRECT ==>
          Ptr(store', n, j) == if FirstNew(store, n) <= j < i then NewPtr(store, nb, n, j) else Ptr(store, n, j))
    && (forall q :: 0 <= q && q != n && !InBitmap(q, nb) ==> BlockAt(store', q) == BlockAt(store, q))
  }

  /** And the unmarked blocks they needed are marked. */
  ghost predicate Growing(store: Store, store': Store, nb: nat, n: nat, i: nat)
    requires i <= DIRECT
  {
    Pointers(store, store', nb, n, i) && TookFirst(store, store', nb * BITS, Needed(store, n, FirstNew(store, n), i))
  }

  /** Nodes other than n, and the blocks of all files, are as before. */
  lemma GrowingKeeps(store: Store, store': Store, nb: nat, owner: map<nat, Owner>, nodes: set<nat>, n: nat, i: nat,
          m: nat)
    requires FsOk(store, nb, owner, nodes) && n in nodes && m in nodes && i <= DIRECT
    requires Pointers(store, store', nb, n, i)
    ensures m != n ==> BlockAt(store', m) == BlockAt(store, m) && FileBlocks(store', m) == FileBlocks(store, m)
    ensures Size(store', n) == Size(store, n) ==> FileBlocks(store', n) == FileBlocks(store, n)
  {
    hide NodePtr, NodeSize, BlockAt, Held, Marked, IsNode, NewPtr;
    assert NodeOk(store, owner, m) && NodeOk(store, owner, n);
    if m != n {
      NotBitmap(nb, owner, m, Node(m));
    }
    forall j | 0 <= j < DIRECT && j < Blocks(Size(store, m))
      ensures BlockAt(store', Ptr(store, m, j)) == FileBlock(store, m, j)
    {
      KeptBlock(store, store', nb, owner, n, m, j);
    }
    forall j | 0 <= j < DIRECT && j < Blocks(Size(store, n))
      ensures BlockAt(store', Ptr(store, n, j)) == FileBlock(store, n, j)
    {
      KeptBlock(store, store', nb, owner, n, n, j);
    }
  }

  lemma KeptBlock(store: Store, store': Store, nb: nat, owner: map<nat, Owner>, n: nat, m: nat, j: nat)
    requires Fixed(nb, owner) && NodeOk(store, owner, n) && NodeOk(store, owner, m)
    requires j < DIRECT && j < Blocks(Size(store, m))
    requires forall q :: 0 <= q && q != n && !InBitmap(q, nb) ==> BlockAt(store', q) == BlockAt(store, q)
    ensures BlockAt(store', Ptr(store, m, j)) == FileBlock(store, m, j)
  {
    hide NodePtr, NodeSize, BlockAt, IsNode;
    assert PtrOk(store, owner, m, j);
    NotBitmap(nb, owner, Ptr(store, m, j), Data(m, j));
    OwnersDiffer(owner, Ptr(store, m, j), Data(m, j), n, Node(n));
  }

  lemma FilesSelf(store: Store, nodes: set<nat>)
    ensures SameFiles(store, store, nodes)
  {}

  // ---------------------------------------------------------------- writing into blocks

  /** Block j of a file after data has been stored at off. */
  function Patch(b: Block, data: seq<Byte>, off: nat, j: nat): (r: Block)
    requires |b| == BSIZE
    ensures |r| == BSIZE
    ensures forall x :: 0 <= x < BSIZE ==>
      r[x] == if off <= BSIZE * j + x < off + |data| then data[BSIZE * j + x - off] else b[x]
  {
    seq(BSIZE, x requires 0 <= x < BSIZE =>
      if off <= BSIZE * j + x < off + |data| then data[BSIZE * j + x - off] else b[x])
  }

  lemma PatchNone(b: Block, off: nat, j: nat)
    requires |b| == BSIZE
    ensures Patch(b, [], off, j) == b
  {}

  /** The next piece of a write falls into one block. */
  lemma PatchMore(b: Block, buf: seq<Byte>, off: nat, pos: nat, n: nat, j: nat)
    requires |b| == BSIZE && pos + n <= |buf| && (off + pos) % BSIZE + n <= BSIZE
    ensures var x, at := Patch(b, buf[..pos], off, j), (off + pos) % BSIZE;
      Patch(b, buf[..pos + n], off, j) ==
        if j == (off + pos) / BSIZE then x[..at] + buf[pos..pos + n] + x[at + n..] else x
  {
    var s := off + pos;
    var k, at := s / BSIZE, s % BSIZE;
    assert s == BSIZE * k + at;
    var x, y := Patch(b, buf[..pos], off, j), Patch(b, buf[..pos + n], off, j);
    if j == k {
      var z := x[..at] + buf[pos..pos + n] + x[at + n..];
      forall i | 0 <= i < BSIZE ensures y[i] == z[i] {}
    } else {
      forall i | 0 <= i < BSIZE ensures y[i] == x[i] {
        assert !(s <= BSIZE * j + i < s + n);
      }
    }
  }

  /** The first done bytes of buf are stored at off in the blocks of file n; every node and
      every other block of a file is as before. */
  ghost predicate Stored(store: Store, store': Store, nb: nat, nodes: set<nat>, n: nat, buf: seq<Byte>, off: nat,
          done: nat)
    requires done <= |buf|
  {
    && (forall m :: m in nodes ==> BlockAt(store', m) == BlockAt(store, m))
    && (forall m, j :: m in nodes && 0 <= j < DIRECT ==>
          FileBlock(store', m, j) ==
            if m == n then Patch(FileBlock(store, m, j), buf[..done], off, j) else FileBlock(store, m, j))
    && (forall q :: 0 <= q < nb * BITS ==> Used(store', q) == Used(store, q))
  }

  lemma StoredNone(store: Store, nb: nat, nodes: set<nat>, n: nat, buf: seq<Byte>, off: nat)
    ensures Stored(store, store, nb, nodes, n, buf, off, 0)
  {
    hide BlockAt, Used, NodePtr, Patch;
    forall m, j | m in nodes && 0 <= j < DIRECT && m == n
      ensures FileBlock(store, m, j) == Patch(FileBlock(store, m, j), buf[..0], off, j)
    {
      PatchNone(FileBlock(store, m, j), off, j);
    }
  }

  lemma StoredNodes(store: Store, store': Store, nb: nat, nodes: set<nat>, n: nat, buf: seq<Byte>, off: nat, done: nat)
    requires done <= |buf| && Stored(store, store', nb, nodes, n, buf, off, done)
    ensures forall m :: m in nodes ==> BlockAt(store', m) == BlockAt(store, m)
    ensures forall q :: 0 <= q < nb * BITS ==> Used(store', q) == Used(store, q)
  {
    hide BlockAt, Used;
  }

  lemma StoredMore(store: Store, mid: Store, store': Store, nb: nat, nodes: set<nat>, n: nat, buf: seq<Byte>, off: nat,
          done: nat, more: nat)
    requires done + more <= |buf| && Stored(store, mid, nb, nodes, n, buf, off, done)
    requires (off + done) % BSIZE + more <= BSIZE && (off + done) / BSIZE <= DIRECT
    requires forall m :: m in nodes ==> BlockAt(store', m) == BlockAt(mid, m)
    requires forall m, j :: m in nodes && 0 <= j < DIRECT ==>
      FileBlock(store', m, j) == if m == n && j == (off + done) / BSIZE then
        Overwritten(FileBlock(mid, m, j), (off + done) % BSIZE, buf[done..done + more]) else FileBlock(mid, m, j)
    requires forall q :: 0 <= q < nb * BITS ==> Used(store', q) == Used(mid, q)
    ensures Stored(store, store', nb, nodes, n, buf, off, done + more)
  {
    hide BlockAt, Used, NodePtr, Patch;
    forall m, j | m in nodes && 0 <= j < DIRECT
      ensures FileBlock(store', m, j) ==
        if m == n then Patch(FileBlock(store, m, j), buf[..done + more], off, j) else FileBlock(store, m, j)
    {
      if m == n {
        PatchMore(FileBlock(store, m, j), buf, off, done, more, j);
      }
    }
  }

  /** b with data at offset at. */
  function Overwritten(b: Block, at: nat, data: seq<Byte>): (r: Block)
    requires |b| == BSIZE && at + |data| <= BSIZE
    ensures |r| == BSIZE
  {
    b[..at] + data + b[at + |data|..]
  }

  // ---------------------------------------------------------------- the effect of a write

  function NewSize(store: Store, n: nat, len: nat, off: nat): nat {
    if Size(store, n) < off + len then off + len else Size(store, n)
  }

  /** The effect of O2FS_Write, block by block: the first done bytes of buf are stored, the
      file has grown over the unmarked blocks in order, and no other file has changed. */
  ghost predicate Wrote(store: Store, store': Store, nb: nat, nodes: set<nat>, n: nat, buf: seq<Byte>, off: nat,
          done: nat)
    requires done <= |buf| && off + |buf| <= DIRECT * BSIZE && Size(store, n) <= DIRECT * BSIZE
  {
    var end := Blocks(NewSize(store, n, |buf|, off));
    && Size(store', n) == NewSize(store, n, |buf|, off)
    && (forall j :: 0 <= j < DIRECT ==>
          Ptr(store', n, j) == if FirstNew(store, n) <= j < end then NewPtr(store, nb, n, j) else Ptr(store, n, j))
    && (forall j :: 0 <= j < end ==>
          FileBlock(store', n, j) == Patch(BlockAt(store, Ptr(store', n, j)), buf[..done], off, j))
    && (forall m :: m in nodes && m != n ==>
          BlockAt(store', m) == BlockAt(store, m) && FileBlocks(store', m) == FileBlocks(store, m))
    && TookFirst(store, store', nb * BITS, Needed(store, n, FirstNew(store, n), end))
  }

  /** Growing and storing make up a write. */
  lemma WroteBy(store: Store, mid: Store, store': Store, nb: nat, owner: map<nat, Owner>, owner': map<nat, Owner>,
          nodes: set<nat>, n: nat, buf: seq<Byte>, off: nat, done: nat)
    requires FsOk(store, nb, owner, nodes) && FsOk(mid, nb, owner', nodes) && n in nodes
    requires done <= |buf| && off + |buf| <= DIRECT * BSIZE && Size(store, n) <= DIRECT * BSIZE
    requires Size(mid, n) == NewSize(store, n, |buf|, off)
    requires Growing(store, mid, nb, n, Blocks(NewSize(store, n, |buf|, off)))
    requires Stored(mid, store', nb, nodes, n, buf, off, done)
    ensures Wrote(store, store', nb, nodes, n, buf, off, done)
  {
    hide NodePtr, NodeSize, BlockAt, Held, Marked, IsNode, Used, NewPtr, Patch;
    var end := Blocks(NewSize(store, n, |buf|, off));
    assert NodeOk(mid, owner', n) && NodeOk(store, owner, n);
    forall j | 0 <= j < end
      ensures FileBlock(store', n, j) == Patch(BlockAt(store, Ptr(store', n, j)), buf[..done], off, j)
    {
      assert PtrOk(mid, owner', n, j);
      NotBitmap(nb, owner', Ptr(mid, n, j), Data(n, j));
      OwnersDiffer(owner', Ptr(mid, n, j), Data(n, j), n, Node(n));
    }
    forall m | m in nodes && m != n
      ensures BlockAt(store', m) == BlockAt(store, m) && FileBlocks(store', m) == FileBlocks(store, m)
    {
      GrowingKeeps(store, mid, nb, owner, nodes, n, end, m);
      StoredOthers(mid, store', nb, nodes, n, buf, off, done, m);
    }
    StoredTook(store, mid, store', nb, Needed(store, n, FirstNew(store, n), end));
  }

  lemma StoredTook(store: Store, mid: Store, store': Store, nb: nat, k: nat)
    requires TookFirst(store, mid, nb * BITS, k) && forall q :: 0 <= q < nb * BITS ==> Used(store', q) == Used(mid, q)
    ensures TookFirst(store, store', nb * BITS, k)
  {
    hide Used;
  }

  lemma StoredOthers(store: Store, store': Store, nb: nat, nodes: set<nat>, n: nat, buf: seq<Byte>, off: nat, done: nat,
          m: nat)
    requires done <= |buf| && Stored(store, store', nb, nodes, n, buf, off, done) && m in nodes && m != n
    ensures BlockAt(store', m) == BlockAt(store, m) && FileBlocks(store', m) == FileBlocks(store, m)
  {
    hide NodePtr, NodeSize, BlockAt, Used, Patch;
  }

  // ---------------------------------------------------------------- owners

  /** The empty pointers below i can have the blocks they take. */
  ghost predicate Fillable(store: Store, nb: nat, n: nat, i: nat)
    requires i <= DIRECT
  {
    forall j :: FirstNew(store, n) <= j < i && Ptr(store, n, j) == 0 ==> OnDisk(store, nb, NewPtr(store, nb, n, j))
  }

  /** What a write does to the disk beside the blocks of its file, told by its blocks alone:
      node n keeps its header and has pointers up to i filled, all those of its size; other
      nodes stay; the first k unmarked blocks are marked. */
  ghost predicate Grew(store: Store, store': Store, nb: nat, nodes: set<nat>, n: nat, i: nat, k: nat)
    requires i <= DIRECT
  {
    && store'.Keys == store.Keys && Sized(store') && Fillable(store, nb, n, i)
    && IsNode(BlockAt(store', n)) && Ptr(store', n, DIRECT) == 0 && Size(store', n) <= DIRECT * BSIZE
    && (forall j :: 0 <= j < DIRECT ==>
          Ptr(store', n, j) == if FirstNew(store, n) <= j < i then NewPtr(store, nb, n, j) else Ptr(store, n, j))
    && (forall j :: 0 <= j < DIRECT && j < Blocks(Size(store', n)) ==> Ptr(store', n, j) != 0)
    && (forall m :: m in nodes && m != n ==> BlockAt(store', m) == BlockAt(store, m))
    && TookFirst(store, store', nb * BITS, k) && Needed(store, n, FirstNew(store, n), i) <= k
  }

  lemma NoneFillable(store: Store, nb: nat, n: nat)
    requires FirstNew(store, n) <= DIRECT
    ensures Fillable(store, nb, n, FirstNew(store, n))
  {}

  ghost predicate Extended(store: Store, store': Store, nb: nat, nodes: set<nat>, n: nat) {
    exists i, k :: 0 <= i <= DIRECT && 0 <= k && Grew(store, store', nb, nodes, n, i, k)
  }

  /** Growing, and then storing into blocks of files. */
  lemma GrewBy(store: Store, mid: Store, store': Store, nb: nat, owner: map<nat, Owner>, owner': map<nat, Owner>,
          nodes: set<nat>, n: nat, i: nat, k: nat)
    requires FsOk(store, nb, owner, nodes) && FsOk(store', nb, owner', nodes) && n in nodes && i <= DIRECT
    requires Pointers(store, mid, nb, n, i) && Fillable(store, nb, n, i)
    requires TookFirst(store, mid, nb * BITS, k) && Needed(store, n, FirstNew(store, n), i) <= k
    requires forall m :: m in nodes ==> BlockAt(store', m) == BlockAt(mid, m)
    requires forall q :: 0 <= q < nb * BITS ==> Used(store', q) == Used(mid, q)
    requires store'.Keys == store.Keys
    ensures Extended(store, store', nb, nodes, n)
  {
    hide NodePtr, NodeSize, BlockAt, Used, NthFree, Needed, IsNode, Past, NewPtr, Held, Marked, Fixed, Fillable;
    assert NodeOk(store', owner', n);
    forall m | m in nodes && m != n ensures BlockAt(store', m) == BlockAt(store, m) {
      assert NodeOk(store, owner, m);
      NotBitmap(nb, owner, m, Node(m));
    }
    forall j | 0 <= j < DIRECT && j < Blocks(Size(store', n)) ensures Ptr(store', n, j) != 0 {
      assert PtrOk(store', owner', n, j);
    }
    StoredTook(store, mid, store', nb, k);
    assert Grew(store, store', nb, nodes, n, i, k);
  }

  /** The owners after that: the blocks taken belong to the file. */
  ghost function GrownOwner(owner: map<nat, Owner>, store: Store, nb: nat, n: nat, i: nat): map<nat, Owner>
    requires i <= DIRECT
  {
    if i <= FirstNew(store, n) then owner
    else
      var o := GrownOwner(owner, store, nb, n, i - 1);
      if Ptr(store, n, i - 1) == 0 then o[NewPtr(store, nb, n, i - 1) / BSIZE := Data(n, i - 1)] else o
  }

  lemma {:induction false} NthFreeLater(store: Store, end: nat, k: nat, k': nat)
    requires k < k' && NthFree(store, end, k) < end
    ensures NthFree(store, end, k) < NthFree(store, end, k')
  {
    hide Used, FreeFrom;
    if k + 1 < k' {
      NthFreeLater(store, end, k, k' - 1);
    }
  }

  lemma {:induction false} NeededMore(store: Store, n: nat, start: nat, j: nat, i: nat)
    requires start <= j < i <= DIRECT && Ptr(store, n, j) == 0
    ensures Needed(store, n, start, j) < Needed(store, n, start, i)
  {
    hide NodePtr, BlockAt;
    if j + 1 < i {
      NeededMore(store, n, start, j, i - 1);
    }
  }

  /** The new blocks of two pointers differ. */
  lemma NewPtrsDiffer(store: Store, nb: nat, n: nat, j: nat, i: nat)
    requires FirstNew(store, n) <= j < i < DIRECT && Ptr(store, n, j) == 0 && Ptr(store, n, i) == 0
    requires OnDisk(store, nb, NewPtr(store, nb, n, j))
    ensures NewPtr(store, nb, n, j) < NewPtr(store, nb, n, i)
  {
    hide NodePtr, BlockAt, Used, NthFree, Needed;
    NeededMore(store, n, FirstNew(store, n), j, i);
    NthFreeLater(store, nb * BITS, Needed(store, n, FirstNew(store, n), j), Needed(store, n, FirstNew(store, n), i));
  }

  /** Block blk was given to one of the pointers below i. */
  ghost predicate GivenTo(store: Store, nb: nat, n: nat, i: nat, blk: nat, j: nat)
    requires i <= DIRECT
  {
    FirstNew(store, n) <= j < i && Ptr(store, n, j) == 0 && blk == NewPtr(store, nb, n, j) / BSIZE
  }

  lemma {:induction false} GrownFacts(owner: map<nat, Owner>, store: Store, nb: nat, n: nat, i: nat)
    requires i <= DIRECT && Marked(store, nb, owner) && Fillable(store, nb, n, i)
    ensures var owner' := GrownOwner(owner, store, nb, n, i);
      && OwnerGrows(owner, owner')
      && (forall b :: b in owner' && b !in owner ==> exists j :: GivenTo(store, nb, n, i, b, j))
      && (forall j :: FirstNew(store, n) <= j < i && Ptr(store, n, j) == 0 ==>
        Owns(owner', NewPtr(store, nb, n, j), Data(n, j)))
  {
    hide NodePtr, BlockAt, Used, NthFree, Needed, NewPtr;
    if i > FirstNew(store, n) {
      var o, owner' := GrownOwner(owner, store, nb, n, i - 1), GrownOwner(owner, store, nb, n, i);
      GrownFacts(owner, store, nb, n, i - 1);
      if Ptr(store, n, i - 1) == 0 {
        var p := NewPtr(store, nb, n, i - 1);
        TakenUnowned(owner, store, nb, n, i - 1);
        var h, q := i - 1, p / BSIZE;
        forall j: nat ensures !GivenTo(store, nb, n, h, q, j) {
          if FirstNew(store, n) <= j < h && Ptr(store, n, j) == 0 {
            NewPtrsDiffer(store, nb, n, j, h);
            TakenUnowned(owner, store, nb, n, j);
          }
        }
        assert p / BSIZE !in o;
        assert GivenTo(store, nb, n, i, p / BSIZE, i - 1);
      }
      forall b | b in owner' && b !in owner ensures exists j :: GivenTo(store, nb, n, i, b, j) {
        if b in o {
          var j :| GivenTo(store, nb, n, i - 1, b, j);
          assert GivenTo(store, nb, n, i, b, j);
        }
      }
    }
  }

  /** A block taken was unmarked, so nobody owned it. */
  lemma TakenUnowned(owner: map<nat, Owner>, store: Store, nb: nat, n: nat, j: nat)
    requires j < DIRECT && Marked(store, nb, owner) && Ptr(store, n, j) == 0
    requires OnDisk(store, nb, NewPtr(store, nb, n, j))
    ensures var p := NewPtr(store, nb, n, j); p % BSIZE == 0 && p / BSIZE !in owner && !Used(store, p / BSIZE)
  {
    hide NodePtr, BlockAt, Used, NthFree, Needed;
    var q := NthFree(store, nb * BITS, Needed(store, n, FirstNew(store, n), j));
    assert q * BSIZE / BSIZE == q;
  }

  /** Single ownership survives a write: it follows from what the write does to the blocks. */
  lemma GrewOwners(store: Store, store': Store, nb: nat, owner: map<nat, Owner>, nodes: set<nat>, n: nat, i: nat,
          k: nat)
    requires FsOk(store, nb, owner, nodes) && n in nodes && i <= DIRECT && Grew(store, store', nb, nodes, n, i, k)
    ensures FsOk(store', nb, GrownOwner(owner, store, nb, n, i), nodes)
    ensures OwnerGrows(owner, GrownOwner(owner, store, nb, n, i))
  {
    hide NodePtr, NodeSize, BlockAt, Used, NthFree, Needed, IsNode, GrownOwner, Past;
    var owner' := GrownOwner(owner, store, nb, n, i);
    GrownFacts(owner, store, nb, n, i);
    FixedGrows(nb, owner, owner');
    forall b | b in owner' ensures InStore(store', b * BSIZE) && (b < nb * BITS ==> Used(store', b)) {
      GrewBlock(store, store', nb, owner, nodes, n, i, k, b);
    }
    forall m | m in nodes ensures NodeOk(store', owner', m) {
      assert NodeOk(store, owner, m);
      if m != n {
        NodeKept(store, store', owner, m);
        NodeGrows(store', owner, owner', m);
      } else {
        forall j | 0 <= j < DIRECT ensures PtrOk(store', owner', n, j) {
          assert PtrOk(store, owner, n, j);
        }
      }
    }
  }

  lemma GrewBlock(store: Store, store': Store, nb: nat, owner: map<nat, Owner>, nodes: set<nat>, n: nat, i: nat, k: nat,
          b: nat)
    requires FsOk(store, nb, owner, nodes) && n in nodes && i <= DIRECT && Grew(store, store', nb, nodes, n, i, k)
    requires b in owner || exists j :: GivenTo(store, nb, n, i, b, j)
    ensures InStore(store', b * BSIZE) && (b < nb * BITS ==> Used(store', b))
  {
    hide NodePtr, NodeSize, BlockAt, Used, NthFree, IsNode, Past;
    if b in owner {
      assert InStore(store, b * BSIZE);
    } else {
      var j :| GivenTo(store, nb, n, i, b, j);
      NeededMore(store, n, FirstNew(store, n), j, i);
      PastTaken(store, nb * BITS, Needed(store, n, FirstNew(store, n), j), k);
      TakenUnowned(owner, store, nb, n, j);
    }
  }

  /** The first k unmarked blocks lie below Past. */
  lemma {:induction false} PastTaken(store: Store, end: nat, j: nat, k: nat)
    requires j < k && NthFree(store, end, j) < end
    ensures NthFree(store, end, j) < Past(store, end, k)
  {
    hide Used, FreeFrom, NthFree;
    if j + 1 < k {
      NthFreeLater(store, end, j, k - 1);
    }
  }

  // ---------------------------------------------------------------- in bytes

  /** The same in bytes: the file is at least as long as the write, the stored bytes are
      there, and all other bytes of all files are as before. */
  ghost predicate Written(store: Store, store': Store, nodes: set<nat>, n: nat, buf: seq<Byte>, off: nat, done: nat)
    requires done <= |buf|
  {
    && Size(store', n) == NewSize(store, n, |buf|, off)
    && (forall m :: m in nodes && m != n ==> Size(store', m) == Size(store, m))
    && (forall m, p :: m in nodes && m != n && 0 <= p < Size(store, m) && p < DIRECT * BSIZE ==>
          FileByte(store', m, p) == FileByte(store, m, p))
    && (forall p :: off <= p < off + done && p < DIRECT * BSIZE ==> FileByte(store', n, p) == buf[p - off])
    && (forall p :: 0 <= p < Size(store, n) && p < DIRECT * BSIZE && !(off <= p < off + done) ==>
          FileByte(store', n, p) == FileByte(store, n, p))
  }

  lemma WroteBytes(store: Store, store': Store, nb: nat, owner: map<nat, Owner>, nodes: set<nat>, n: nat,
          buf: seq<Byte>, off: nat, done: nat)
    requires done <= |buf| && off + |buf| <= DIRECT * BSIZE && Size(store, n) <= DIRECT * BSIZE
    requires FsOk(store, nb, owner, nodes) && n in nodes && Wrote(store, store', nb, nodes, n, buf, off, done)
    ensures Written(store, store', nodes, n, buf, off, done)
  {
    hide NodePtr, NodeSize, BlockAt, Held, Marked, Fixed, IsNode, Used, NewPtr, Patch, TookFirst, Needed;
    forall m, p | m in nodes && m != n && 0 <= p < Size(store, m) && p < DIRECT * BSIZE
      ensures FileByte(store', m, p) == FileByte(store, m, p)
    {
      OtherByte(store, store', m, p);
    }
    forall p | 0 <= p < DIRECT * BSIZE && p < Size(store', n)
      ensures FileByte(store', n, p) ==
        if off <= p < off + done then buf[p - off] else BlockAt(store, Ptr(store', n, p / BSIZE))[p % BSIZE]
    {
      PatchedByte(store, store', n, buf[..done], off, p);
    }
  }

  lemma OtherByte(store: Store, store': Store, m: nat, p: nat)
    requires BlockAt(store', m) == BlockAt(store, m) && FileBlocks(store', m) == FileBlocks(store, m)
    requires p < Size(store, m) && p < DIRECT * BSIZE
    ensures FileByte(store', m, p) == FileByte(store, m, p)
  {
    hide NodePtr, NodeSize, BlockAt;
    assert FileBlocks(store', m)[p / BSIZE] == FileBlocks(store, m)[p / BSIZE];
  }

  lemma PatchedByte(store: Store, store': Store, n: nat, data: seq<Byte>, off: nat, p: nat)
    requires p < DIRECT * BSIZE
    requires FileBlock(store', n, p / BSIZE) == Patch(BlockAt(store, Ptr(store', n, p / BSIZE)), data, off, p / BSIZE)
    ensures FileByte(store', n, p) ==
      if off <= p < off + |data| then data[p - off] else BlockAt(store, Ptr(store', n, p / BSIZE))[p % BSIZE]
  {
    hide NodePtr, NodeSize, BlockAt;
    assert p == BSIZE * (p / BSIZE) + p % BSIZE;
  }

  /** data is the file's bytes in [off, off + len), cut off at its end. */
  ghost predicate IsSlice(store: Store, n: nat, off: nat, len: nat, data: seq<Byte>) {
    var size := Size(store, n);
    && |data| == (if off > size then 0 else if off + len > size then size - off else len)
    && forall p :: off <= p < off + |data| && p < DIRECT * BSIZE ==> data[p - off] == FileByte(store, n, p)
  }

  lemma ChunkBytes(store: Store, n: nat, off: nat, len: nat)
    requires off % BSIZE + len <= BSIZE && off + len <= DIRECT * BSIZE
    ensures forall p :: off <= p < off + len ==>
      p / BSIZE == off / BSIZE && FileByte(store, n, p) == BlockAt(store, Ptr(store, n, off / BSIZE))[p % BSIZE]
  {
    hide BlockAt, NodePtr;
  }

  /** Reading back what a successful write stored yields it. */
  lemma ReadBack(store: Store, store': Store, nodes: set<nat>, n: nat, buf: seq<Byte>, off: nat, data: seq<Byte>)
    requires Written(store, store', nodes, n, buf, off, |buf|) && off + |buf| <= DIRECT * BSIZE
    requires IsSlice(store', n, off, |buf|, data)
    ensures data == buf
  {
    hide FileByte, NodeSize, BlockAt;
    forall k | 0 <= k < |buf| ensures k < |data| && data[k] == buf[k] {
      assert data[off + k - off] == FileByte(store', n, off + k);
    }
  }
}
