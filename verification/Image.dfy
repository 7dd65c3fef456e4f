/** How newfs_o2fs lays a manifest tree out in blocks, and how the kernel finds it again. */
module Image {
  import opened Common
  import opened BufferCache
  import opened O2fsLayout
  import opened O2fsSpec
  import opened Manifest
  import opened Vfs

  // ---------------------------------------------------------------- building blocks

  /** FlushBlock: the bytes given, zeros up to the block size. */
  function Pad(buf: seq<Byte>): (b: Block)
    requires |buf| <= BSIZE
    ensures |b| == BSIZE && b[..|buf|] == buf && forall i :: |buf| <= i < BSIZE ==> b[i] == 0
  {
    buf + Zeroes(BSIZE - |buf|)
  }

  /** Overwrite the bytes at p. */
  function Splice(b: seq<Byte>, p: nat, s: seq<Byte>): (r: seq<Byte>)
    requires p + |s| <= |b|
    ensures |r| == |b| && r[p..p + |s|] == s
    ensures forall i :: 0 <= i < |b| && !(p <= i < p + |s|) ==> r[i] == b[i]
  {
    b[..p] + s + b[p + |s|..]
  }

  /** strncpy into the 256-byte name field keeps at most 255 bytes. */
  function Stored(name: Str): (s: Str)
    ensures |s| <= MAXNAMELEN
  {
    if |name| > MAXNAMELEN then name[..MAXNAMELEN] else name
  }

  const ROOT_USER: Str := [0x72, 0x6F, 0x6F, 0x74]

  /** A directory entry as AddDirectory fills it in. */
  function MakeEntry(name: Str, obj: nat, now: nat): (rec: seq<Byte>)
    ensures |rec| == ENTRY_SIZE
  {
    var a := Splice(Zeroes(ENTRY_SIZE), NAME_AT, Stored(name));
    var b := Put64(a, OBJ_AT, obj);
    var c := Splice(b, 0, BDIR_MAGIC);
    var d := Put64(Put64(c, 72, now), 80, now);
    Splice(Splice(d, 88, ROOT_USER), 120, ROOT_USER)
  }

  lemma MakeEntryFacts(name: Str, obj: nat, now: nat)
    requires obj < U64
    ensures StrAt(MakeEntry(name, obj, now), 0, BDIR_MAGIC)
    ensures StrAt(MakeEntry(name, obj, now), NAME_AT, Stored(name))
    ensures Get64(MakeEntry(name, obj, now), OBJ_AT) == obj
  {
    hide PutLE, GetLE, StrAt, Get64;
    var z := Zeroes(ENTRY_SIZE);
    var a := Splice(z, NAME_AT, Stored(name));
    var b := Put64(a, OBJ_AT, obj);
    var c := Splice(b, 0, BDIR_MAGIC);
    var d := Put64(Put64(c, 72, now), 80, now);
    var r := Splice(Splice(d, 88, ROOT_USER), 120, ROOT_USER);
    assert r == MakeEntry(name, obj, now);
    hide Splice, Put64;
    assert forall i :: 0 <= i < 72 || NAME_AT <= i < ENTRY_SIZE ==> r[i] == c[i];
    StrPlaced(c, 0, BDIR_MAGIC, r);
    assert c[8] == b[8] == a[8] == z[8] == 0;
    var n := |Stored(name)|;
    assert forall i :: NAME_AT <= i < ENTRY_SIZE ==> c[i] == a[i];
    assert a[NAME_AT + n] == z[NAME_AT + n] == 0;
    StrPlaced(a, NAME_AT, Stored(name), r);
    Get64Put64(a, OBJ_AT, obj, OBJ_AT);
    assert r[OBJ_AT..OBJ_AT + 8] == b[OBJ_AT..OBJ_AT + 8];
    FieldSame(r, OBJ_AT, b);
  }

  lemma StrPlaced(b: seq<Byte>, p: nat, s: Str, r: seq<Byte>)
    requires p + |s| < |b| == |r| && b[p..p + |s|] == s && b[p + |s|] == 0
    requires forall i :: p <= i <= p + |s| ==> r[i] == b[i]
    ensures StrAt(r, p, s)
  {
    assert r[p..p + |s|] == b[p..p + |s|];
  }

  lemma FieldSame(r: seq<Byte>, p: nat, b: seq<Byte>)
    requires p + 8 <= |r| && p + 8 <= |b| && r[p..p + 8] == b[p..p + 8]
    ensures Get64(r, p) == Get64(b, p)
  {
    GetSame(r, p, b, p, 8);
  }

  /** Record e of a directory: an entry of that name for the node at obj. */
  ghost predicate Record(b: seq<Byte>, e: nat, name: Str, obj: nat) {
    && ENTRY_SIZE * (e + 1) <= |b|
    && StrAt(b, ENTRY_SIZE * e, BDIR_MAGIC)
    && StrAt(b, ENTRY_SIZE * e + NAME_AT, Stored(name))
    && Get64(b, ENTRY_SIZE * e + OBJ_AT) == obj
  }

  /** A record depends on its own 512 bytes. */
  lemma RecordMoved(b: seq<Byte>, e: nat, c: seq<Byte>, f: nat, name: Str, obj: nat)
    requires Record(b, e, name, obj) && ENTRY_SIZE * (f + 1) <= |c|
    requires b[ENTRY_SIZE * e..ENTRY_SIZE * (e + 1)] == c[ENTRY_SIZE * f..ENTRY_SIZE * (f + 1)]
    ensures Record(c, f, name, obj)
  {
    hide GetLE, StrAt, Stored;
    var p, q, n := ENTRY_SIZE * e, ENTRY_SIZE * f, ENTRY_SIZE;
    StrMoved(b, p, c, q, n, 0, BDIR_MAGIC);
    StrMoved(b, p, c, q, n, NAME_AT, Stored(name));
    SubSame(b, p, c, q, n, OBJ_AT, OBJ_AT + 8);
    GetSame(b, p + OBJ_AT, c, q + OBJ_AT, 8);
  }

  lemma SubSame(b: seq<Byte>, p: nat, c: seq<Byte>, q: nat, n: nat, i: nat, j: nat)
    requires p + n <= |b| && q + n <= |c| && b[p..p + n] == c[q..q + n] && i <= j <= n
    ensures b[p + i..p + j] == c[q + i..q + j]
  {
    var x, y := b[p + i..p + j], c[q + i..q + j];
    forall k | 0 <= k < |x| ensures x[k] == y[k] {
      assert b[p..p + n][i + k] == c[q..q + n][i + k];
    }
  }

  lemma StrMoved(b: seq<Byte>, p: nat, c: seq<Byte>, q: nat, n: nat, i: nat, s: Str)
    requires p + n <= |b| && q + n <= |c| && b[p..p + n] == c[q..q + n] && i + |s| < n
    requires StrAt(b, p + i, s)
    ensures StrAt(c, q + i, s)
  {
    SubSame(b, p, c, q, n, i, i + |s|);
    assert b[p + i + |s|] == b[p..p + n][i + |s|] == c[q..q + n][i + |s|] == c[q + i + |s|];
  }

  /** The bytes at p are one string only. */
  lemma StrUnique(b: seq<Byte>, p: nat, s: Str, t: Str)
    requires StrAt(b, p, s) && StrAt(b, p, t) && IsStr(s) && IsStr(t)
    ensures s == t
  {
    forall j | p <= j < p + |s| ensures b[j] != 0 {
      assert b[p..p + |s|][j - p] == s[j - p];
    }
    forall j | p <= j < p + |t| ensures b[j] != 0 {
      assert b[p..p + |t|][j - p] == t[j - p];
    }
    assert |s| == |t|;
  }

  /** b starts with the records of the items. */
  ghost predicate Records(b: seq<Byte>, items: seq<Item>, objs: seq<nat>) {
    |objs| == |items| && forall e :: 0 <= e < |items| ==> Record(b, e, items[e].name, objs[e])
  }

  /** One more record. */
  lemma RecordsAppend(b: seq<Byte>, items: seq<Item>, objs: seq<nat>, i: Item, obj: nat, now: nat)
    requires Records(b, items, objs) && |b| == ENTRY_SIZE * |items| && obj < U64
    ensures Records(b + MakeEntry(i.name, obj, now), items + [i], objs + [obj])
  {
    hide MakeEntry, Record;
    var rec := MakeEntry(i.name, obj, now);
    MakeEntryRecord(i.name, obj, now);
    var b' := b + rec;
    forall e | 0 <= e <= |items| ensures Record(b', e, (items + [i])[e].name, (objs + [obj])[e]) {
      if e < |items| {
        assert b[ENTRY_SIZE * e..ENTRY_SIZE * (e + 1)] == b'[ENTRY_SIZE * e..ENTRY_SIZE * (e + 1)];
        RecordMoved(b, e, b', e, items[e].name, objs[e]);
      } else {
        assert b'[ENTRY_SIZE * e..ENTRY_SIZE * (e + 1)] == rec == rec[0..ENTRY_SIZE];
        RecordMoved(rec, 0, b', e, i.name, obj);
      }
    }
  }

  lemma MakeEntryRecord(name: Str, obj: nat, now: nat)
    requires obj < U64
    ensures Record(MakeEntry(name, obj, now), 0, name, obj)
  {
    MakeEntryFacts(name, obj, now);
    hide MakeEntry;
  }

  lemma RecordsPad(b: seq<Byte>, items: seq<Item>, objs: seq<nat>)
    requires Records(b, items, objs) && |b| == ENTRY_SIZE * |items| <= BSIZE
    ensures Records(Pad(b), items, objs)
  {
    hide Record;
    forall e | 0 <= e < |items| ensures Record(Pad(b), e, items[e].name, objs[e]) {
      assert Record(b, e, items[e].name, objs[e]);
      assert ENTRY_SIZE * (e + 1) <= |b|;
      assert Pad(b)[ENTRY_SIZE * e..ENTRY_SIZE * (e + 1)] == b[ENTRY_SIZE * e..ENTRY_SIZE * (e + 1)];
      RecordMoved(b, e, Pad(b), e, items[e].name, objs[e]);
    }
  }

  // ---------------------------------------------------------------- trees in images

  /** The bytes of a file that fall into block i. */
  function Chunk(data: seq<Byte>, i: nat): (c: seq<Byte>)
    requires i < Blocks(|data|)
    ensures |c| <= BSIZE
  {
    var end := if BSIZE * (i + 1) <= |data| then BSIZE * (i + 1) else |data|;
    data[BSIZE * i..end]
  }

  ghost predicate RepFile(image: Store, off: nat, data: seq<Byte>, hi: nat) {
    && |data| <= DIRECT * BSIZE && Size(image, off) == |data|
    && (forall i :: 0 <= i < DIRECT && i < Blocks(|data|) ==>
          0 < Ptr(image, off, i) < hi && BlockAt(image, Ptr(image, off, i)) == Pad(Chunk(data, i)))
  }

  ghost predicate RepDir(image: Store, off: nat, items: seq<Item>, hi: nat) {
    && |items| < SLOTS && Size(image, off) == ENTRY_SIZE * |items|
    && 0 < Ptr(image, off, 0) < hi
    && (forall e :: 0 <= e < |items| ==>
          Record(DirBlock(image, off), e, items[e].name, SlotObj(DirBlock(image, off), e)))
    && (forall e :: |items| <= e < SLOTS ==> DirBlock(image, off)[ENTRY_SIZE * e] == 0)
  }

  function DirBlock(image: Store, off: nat): Block {
    BlockAt(image, Ptr(image, off, 0))
  }

  function ChildOff(image: Store, off: nat, e: nat): nat
    requires e < SLOTS
  {
    SlotObj(DirBlock(image, off), e)
  }

  /** The node at off, and the blocks below hi, hold the tree. */
  ghost predicate Rep(image: Store, off: nat, t: Tree, hi: nat)
    decreases t
  {
    && off < hi && IsNode(BlockAt(image, off))
    && match t
       case File(_, data) => RepFile(image, off, data, hi)
       case Dir(items) =>
         && RepDir(image, off, items, hi)
         && forall e :: 0 <= e < |items| ==> Rep(image, ChildOff(image, off, e), items[e].tree, hi)
  }

  /** A tree stays where it is while other blocks are written. */
  lemma {:induction false} RepKept(image: Store, image': Store, off: nat, t: Tree, hi: nat, hi': nat)
    requires Rep(image, off, t, hi) && hi <= hi'
    requires forall o :: 0 <= o < hi ==> BlockAt(image', o) == BlockAt(image, o)
    ensures Rep(image', off, t, hi')
    decreases t
  {
    hide BlockAt, NodePtr, NodeSize, Record, SlotObj;
    assert Size(image', off) == Size(image, off);
    match t
    case File(_, data) =>
      forall i | 0 <= i < DIRECT && i < Blocks(|data|)
        ensures 0 < Ptr(image', off, i) < hi' && BlockAt(image', Ptr(image', off, i)) == Pad(Chunk(data, i))
      {
        assert Ptr(image', off, i) == Ptr(image, off, i) < hi;
      }
    case Dir(items) =>
      assert DirBlock(image', off) == DirBlock(image, off);
      forall e | 0 <= e < |items| ensures Rep(image', ChildOff(image', off, e), items[e].tree, hi') {
        RepKept(image, image', ChildOff(image, off, e), items[e].tree, hi, hi');
      }
  }

  // ---------------------------------------------------------------- looking paths up

  /** The first item from e on whose stored name is the given one. */
  function FindItem(items: seq<Item>, name: Str, e: nat): (r: Option<nat>)
    requires e <= |items|
    ensures r.Some? ==> e <= r.value < |items| && Stored(items[r.value].name) == name
    decreases |items| - e
  {
    if e == |items| then None else if Stored(items[e].name) == name then Some(e) else FindItem(items, name, e + 1)
  }

  /** The tree a path of components leads to. */
  function Resolve(t: Tree, comps: seq<Str>): Option<Tree> {
    if comps == [] then Some(t) else
    match t
    case File(_, _) => None
    case Dir(items) =>
      var e := FindItem(items, comps[0], 0);
      if e.None? then None else Resolve(items[e.value].tree, comps[1..])
  }

  /** The components of a path from start on, up to the first empty one. */
  function Comps(path: Str, start: nat): seq<Str>
    requires start <= |path|
    decreases |path| - start
  {
    var end := CompEnd(path, start);
    if end == start then []
    else [path[start..end]] + if end == |path| then [] else Comps(path, end + 1)
  }

  lemma {:induction false} SlotsAreItems(b: Block, items: seq<Item>, objs: seq<nat>, name: Str, e: nat)
    requires |b| == BSIZE && Records(b, items, objs) && e <= |items| < SLOTS && IsStr(name)
    requires forall f :: 0 <= f < |items| ==> IsStr(items[f].name)
    requires forall f :: |items| <= f < SLOTS ==> b[ENTRY_SIZE * f] == 0
    ensures FindSlot(b, name, e) == FindItem(items, name, e)
    decreases |items| - e
  {
    hide StrAt;
    if e < |items| {
      assert Record(b, e, items[e].name, objs[e]);
      if SlotIs(b, e, name) {
        StrUnique(b, ENTRY_SIZE * e + NAME_AT, name, Stored(items[e].name));
      }
      SlotsAreItems(b, items, objs, name, e + 1);
    } else {
      EmptySlots(b, name, e);
    }
  }

  lemma {:induction false} EmptySlots(b: Block, name: Str, e: nat)
    requires |b| == BSIZE && e <= SLOTS
    requires forall f :: e <= f < SLOTS ==> !StrAt(b, ENTRY_SIZE * f, BDIR_MAGIC) || b[ENTRY_SIZE * f] == 0
    ensures FindSlot(b, name, e) == None
    decreases SLOTS - e
  {
    if e < SLOTS {
      EmptySlots(b, name, e + 1);
      if b[ENTRY_SIZE * e] == 0 {
        ZeroIsNoMagic(b, ENTRY_SIZE * e);
      }
    }
  }

  lemma ZeroIsNoMagic(b: Block, p: nat)
    requires p < |b| && b[p] == 0
    ensures !StrAt(b, p, BDIR_MAGIC)
  {
    assert p + 8 < |b| ==> b[p..p + 8][0] == b[p];
  }

  /** The blocks a file is stored in. */
  function DataBlocks(data: seq<Byte>): (bs: seq<Block>)
    ensures forall i :: 0 <= i < |bs| ==> |bs[i]| == BSIZE
  {
    seq(Blocks(|data|), i requires 0 <= i < Blocks(|data|) => Pad(Chunk(data, i)))
  }

  lemma RepFileBlocks(image: Store, off: nat, t: Tree, hi: nat)
    requires t.File? && Rep(image, off, t, hi)
    ensures FileBlocks(image, off) == DataBlocks(t.data)
  {
    hide BlockAt, NodePtr, NodeSize, Pad, Chunk;
    assert Blocks(|t.data|) <= DIRECT;
  }

  lemma RepDirBlocks(image: Store, off: nat, items: seq<Item>, hi: nat)
    requires RepDir(image, off, items, hi)
    ensures FileBlocks(image, off) == if items == [] then [] else [DirBlock(image, off)]
  {
    hide BlockAt, NodePtr, NodeSize, Record;
    assert Blocks(Size(image, off)) == if items == [] then 0 else 1;
  }

  /** O2FS_Lookup in a directory of the image finds the item of that name, if any. */
  lemma LookupDir(image: Store, off: nat, items: seq<Item>, hi: nat, name: Str)
    requires Rep(image, off, Dir(items), hi) && Named(Dir(items)) && IsStr(name)
    ensures |items| < SLOTS
    ensures DirLookup(image, off, name) ==
      var e := FindItem(items, name, 0); if e.Some? then Some(ChildOff(image, off, e.value)) else None
    ensures OpenLookup(image, off, name) == DirLookup(image, off, name)
    ensures FindItem(items, name, 0).Some? ==>
      var e := FindItem(items, name, 0).value;
      Rep(image, ChildOff(image, off, e), items[e].tree, hi) && Named(items[e].tree) && |name| <= 256
  {
    hide BlockAt, NodePtr, NodeSize, Record, SlotObj, SlotIs, FindSlot, IsNode;
    var b := DirBlock(image, off);
    var objs := seq(|items|, e requires 0 <= e < |items| => SlotObj(b, e));
    assert Records(b, items, objs);
    SlotsAreItems(b, items, objs, name, 0);
    RepDirBlocks(image, off, items, hi);
    var e := FindItem(items, name, 0);
    if items != [] {
      assert LookupIn([b], name, 1) == None;
    }
    if e.Some? {
      RepNode(image, ChildOff(image, off, e.value), items[e.value].tree, hi);
    }
  }

  lemma RepNode(image: Store, n: nat, t: Tree, hi: nat)
    requires Rep(image, n, t, hi)
    ensures IsNode(BlockAt(image, n))
  {}

  // ---------------------------------------------------------------- every path of the tree is found

  /** VFS_Lookup on the image finds every path of the tree, at a node that holds its subtree,
      whatever the files contain: it looks into directories only. */
  lemma {:induction false} TreeFound(image: Store, off: nat, t: Tree, hi: nat, path: Str, start: nat)
    requires Rep(image, off, t, hi) && Named(t) && IsStr(path) && start <= |path|
    requires Resolve(t, Comps(path, start)).Some?
    ensures var m := WalkPath(image, off, path, start);
      m.Some? && Rep(image, m.value, Resolve(t, Comps(path, start)).value, hi)
    decreases |path| - start
  {
    hide Rep, Named, BlockAt, OpenLookup, DirLookup, ChildOff, FindItem, Comps, WalkPath, Resolve;
    var end := CompEnd(path, start);
    WalkUnfold(image, off, path, start, end);
    ResolveUnfold(t, path, start, end);
    if start < end {
      var name := path[start..end];
      assert IsStr(name);
      LookupDir(image, off, t.items, hi, name);
      var e := FindItem(t.items, name, 0);
      if end < |path| {
        TreeFound(image, ChildOff(image, off, e.value), t.items[e.value].tree, hi, path, end + 1);
      }
    }
  }

  /** One component of the walk in the image. */
  lemma {:induction false} WalkUnfold(image: Store, off: nat, path: Str, start: nat, end: nat)
    requires start <= |path| && end == CompEnd(path, start)
    ensures WalkPath(image, off, path, start) ==
      if start == end then Some(off) else if end - start > 256 then None
      else if end == |path| || OpenLookup(image, off, path[start..end]).None? then
        OpenLookup(image, off, path[start..end])
      else WalkPath(image, OpenLookup(image, off, path[start..end]).value, path, end + 1)
  {
    hide OpenLookup, CompEnd;
  }

  /** One component of the walk in the tree. */
  lemma {:induction false} ResolveUnfold(t: Tree, path: Str, start: nat, end: nat)
    requires start <= |path| && end == CompEnd(path, start)
    ensures Resolve(t, Comps(path, start)) ==
      if start == end then Some(t) else if t.File? || FindItem(t.items, path[start..end], 0).None? then None
      else var u := t.items[FindItem(t.items, path[start..end], 0).value].tree;
        if end == |path| then Some(u) else Resolve(u, Comps(path, end + 1))
  {
    hide FindItem, CompEnd, Comps, Resolve;
    CompsUnfold(path, start, end);
    if start < end {
      ResolveCons(t, path[start..end], if end == |path| then [] else Comps(path, end + 1));
    }
    ResolveNone(t);
    if start < end && t.Dir? && FindItem(t.items, path[start..end], 0).Some? {
      ResolveNone(t.items[FindItem(t.items, path[start..end], 0).value].tree);
    }
  }

  lemma {:induction false} CompsUnfold(path: Str, start: nat, end: nat)
    requires start <= |path| && end == CompEnd(path, start)
    ensures Comps(path, start) ==
      if start == end then [] else [path[start..end]] + if end == |path| then [] else Comps(path, end + 1)
  {
    hide CompEnd;
  }

  lemma {:induction false} ResolveCons(t: Tree, name: Str, rest: seq<Str>)
    ensures Resolve(t, [name] + rest) ==
      if t.File? || FindItem(t.items, name, 0).None? then None
      else Resolve(t.items[FindItem(t.items, name, 0).value].tree, rest)
  {
    hide FindItem;
    assert ([name] + rest)[1..] == rest;
  }

  lemma {:induction false} ResolveNone(t: Tree)
    ensures Resolve(t, []) == Some(t)
  {}

  /** A file of the image has exactly its source's bytes. */
  lemma FileContent(image: Store, off: nat, t: Tree, hi: nat)
    requires t.File? && Rep(image, off, t, hi)
    ensures Size(image, off) == |t.data| <= DIRECT * BSIZE
    ensures forall p :: 0 <= p < |t.data| ==> FileByte(image, off, p) == t.data[p]
  {
    hide BlockAt, NodePtr, NodeSize;
    forall p | 0 <= p < |t.data| ensures FileByte(image, off, p) == t.data[p] {
      var i := p / BSIZE;
      assert BlockAt(image, Ptr(image, off, i)) == Pad(Chunk(t.data, i));
      assert Pad(Chunk(t.data, i))[..|Chunk(t.data, i)|][p % BSIZE] == Chunk(t.data, i)[p % BSIZE] == t.data[p];
    }
  }

  /** The path ends in the tree, or leaves it at a directory or at a file without an entry of
      the next component. */
  ghost predicate Clear(t: Tree, comps: seq<Str>)
    decreases |comps|
  {
    comps == [] ||
      match t
      case File(_, data) => |comps[0]| > 256 || LookupIn(DataBlocks(data), comps[0], 0).None?
      case Dir(items) =>
        var e := FindItem(items, comps[0], 0);
        e.Some? ==> Clear(items[e.value].tree, comps[1..])
  }

  /** One component of Clear. */
  lemma ClearUnfold(t: Tree, path: Str, start: nat, end: nat)
    requires start <= |path| && end == CompEnd(path, start) && start < end
    ensures var name := path[start..end]; Clear(t, Comps(path, start)) <==>
      match t
      case File(_, data) => |name| > 256 || LookupIn(DataBlocks(data), name, 0).None?
      case Dir(items) => var e := FindItem(items, name, 0);
        e.Some? ==> Clear(items[e.value].tree, if end == |path| then [] else Comps(path, end + 1))
  {
    hide Comps, LookupIn, DataBlocks, FindItem;
    CompsUnfold(path, start, end);
    var rest := if end == |path| then [] else Comps(path, end + 1);
    assert ([path[start..end]] + rest)[1..] == rest;
  }

  /** Such a path is found exactly if the tree has it. */
  lemma {:induction false} WalkClear(image: Store, off: nat, t: Tree, hi: nat, path: Str, start: nat)
    requires Rep(image, off, t, hi) && Named(t) && IsStr(path) && start <= |path| && Clear(t, Comps(path, start))
    ensures WalkPath(image, off, path, start).Some? <==> Resolve(t, Comps(path, start)).Some?
    decreases |path| - start
  {
    hide Rep, Named, BlockAt, ChildOff, FindItem, Comps, WalkPath, Resolve, Clear, IsNode, LookupIn, DataBlocks;
    var end := CompEnd(path, start);
    WalkUnfold(image, off, path, start, end);
    ResolveUnfold(t, path, start, end);
    if start < end {
      ClearUnfold(t, path, start, end);
      var name := path[start..end];
      if t.File? {
        RepFileBlocks(image, off, t, hi);
      } else {
        LookupDir(image, off, t.items, hi, name);
        var e := FindItem(t.items, name, 0);
        if e.Some? && end < |path| {
          WalkClear(image, ChildOff(image, off, e.value), t.items[e.value].tree, hi, path, end + 1);
        }
      }
    }
  }

  /** An empty component ends the walk: whatever follows "//" is ignored. */
  lemma EmptyComponent(store: Store, root: nat, rest: Str)
    ensures LookupPath(store, root, [SLASH, SLASH] + rest) == Some(root)
  {
    var path := [SLASH, SLASH] + rest;
    assert CompEnd(path, 1) == 1;
  }

  // ---------------------------------------------------------------- exactly when no other path is found

  ghost predicate Components(comps: seq<Str>) {
    forall i :: 0 <= i < |comps| ==> Component(comps[i])
  }

  /** The file the components lead to reads as a directory: one of its slots has the magic of
      an entry and the given name, and leads to a block with a node's header. */
  ghost predicate Pretends(image: Store, t: Tree, comps: seq<Str>, name: Str) {
    && Components(comps) && Component(name)
    && var u := Resolve(t, comps);
      && u.Some? && u.value.File?
      && var m := LookupIn(DataBlocks(u.value.data), name, 0);
        m.Some? && IsNode(BlockAt(image, m.value))
  }

  /** On exactly the paths of the tree something is found. */
  ghost predicate FindsTree(image: Store, root: nat, t: Tree) {
    forall path :: IsStr(path) && path != [] && path[0] == SLASH ==>
      (LookupPath(image, root, path).Some? <==> Resolve(t, Comps(path, 1)).Some?)
  }

  /** No path outside the tree is found exactly if no file of it reads as a directory. */
  lemma FindsTreeIff(image: Store, root: nat, t: Tree, hi: nat)
    requires Rep(image, root, t, hi) && Named(t)
    ensures FindsTree(image, root, t) <==> forall comps, name :: !Pretends(image, t, comps, name)
  {
    hide Rep, Named, Pretends, WalkPath, Resolve, Comps;
    if FindsTree(image, root, t) {
      forall comps, name ensures !Pretends(image, t, comps, name) {
        if Pretends(image, t, comps, name) {
          FakePath(image, root, t, hi, comps, name);
        }
      }
    } else {
      var path :| IsStr(path) && path != [] && path[0] == SLASH &&
        !(LookupPath(image, root, path).Some? <==> Resolve(t, Comps(path, 1)).Some?);
      if Resolve(t, Comps(path, 1)).Some? {
        TreeFound(image, root, t, hi, path, 1);
      } else {
        var comps, name := Culprit(image, root, t, hi, path, 1);
      }
    }
  }

  /** A path that is found although the tree does not have it passes through a file that reads
      as a directory. */
  lemma {:induction false} Culprit(image: Store, off: nat, t: Tree, hi: nat, path: Str, start: nat)
    returns (comps: seq<Str>, name: Str)
    requires Rep(image, off, t, hi) && Named(t) && IsStr(path) && start <= |path|
    requires WalkPath(image, off, path, start).Some? && Resolve(t, Comps(path, start)).None?
    ensures Pretends(image, t, comps, name)
    decreases |path| - start
  {
    hide Rep, Named, BlockAt, ChildOff, FindItem, Comps, WalkPath, Resolve, IsNode, LookupIn;
    var end := CompEnd(path, start);
    WalkUnfold(image, off, path, start, end);
    ResolveUnfold(t, path, start, end);
    name := path[start..end];
    assert Component(name);
    if t.File? {
      RepFileBlocks(image, off, t, hi);
      ResolveNone(t);
      comps := [];
    } else {
      LookupDir(image, off, t.items, hi, name);
      var e := FindItem(t.items, name, 0).value;
      var more;
      var first := name;
      more, name := Culprit(image, ChildOff(image, off, e), t.items[e].tree, hi, path, end + 1);
      comps := [first] + more;
      ResolveCons(t, first, more);
    }
  }

  /** The path of components, each after a slash. */
  function PathOf(comps: seq<Str>): Str {
    if comps == [] then [] else [SLASH] + comps[0] + PathOf(comps[1..])
  }

  /** Conversely, a file that reads as a directory gives a path that is found although the
      tree does not have it. */
  lemma FakePath(image: Store, root: nat, t: Tree, hi: nat, comps: seq<Str>, name: Str)
    requires Rep(image, root, t, hi) && Named(t) && Pretends(image, t, comps, name)
    ensures var path := PathOf(comps + [name]);
      && IsStr(path) && path != [] && path[0] == SLASH
      && LookupPath(image, root, path).Some? && Resolve(t, Comps(path, 1)).None?
  {
    hide Rep, Named, BlockAt, ChildOff, FindItem, WalkPath, IsNode, LookupIn, Comps, Resolve, DataBlocks;
    var all := comps + [name];
    var path := PathOf(all);
    PathIsStr(all);
    assert path[1..] == all[0] + PathOf(all[1..]);
    CompsOfPath(path, 1, all);
    ResolveBeyond(t, comps, name);
    FakeWalk(image, root, t, hi, comps, name);
    WalkIsComps(image, root, path, 1);
  }

  lemma {:induction false} PathIsStr(comps: seq<Str>)
    requires Components(comps)
    ensures IsStr(PathOf(comps))
  {
    if comps != [] {
      PathIsStr(comps[1..]);
    }
  }

  /** Nothing lies below a file. */
  lemma {:induction false} ResolveBeyond(t: Tree, comps: seq<Str>, name: Str)
    requires Resolve(t, comps).Some? && Resolve(t, comps).value.File?
    ensures Resolve(t, comps + [name]).None?
  {
    if comps == [] {
      assert comps + [name] == [name];
    } else {
      assert (comps + [name])[1..] == comps[1..] + [name];
      var e := FindItem(t.items, comps[0], 0);
      ResolveBeyond(t.items[e.value].tree, comps[1..], name);
    }
  }

  /** The component at start is the first one of the rest of the path. */
  lemma {:induction false} EndOf(path: Str, start: nat, c: Str, rest: Str)
    requires start <= |path| && path[start..] == c + rest && SLASH !in c && (rest == [] || rest[0] == SLASH)
    ensures CompEnd(path, start) == start + |c| && path[start..start + |c|] == c && path[start + |c|..] == rest
    decreases |c|
  {
    if c != [] {
      assert path[start] == path[start..][0] == c[0];
      assert path[start + 1..] == path[start..][1..] == c[1..] + rest;
      EndOf(path, start + 1, c[1..], rest);
      assert path[start..start + |c|] == path[start..][..|c|];
      assert path[start + |c|..] == path[start..][|c|..];
    } else {
      assert path[start..] == rest;
      assert rest != [] ==> path[start] == rest[0];
    }
  }

  lemma {:induction false} CompsOfPath(path: Str, start: nat, comps: seq<Str>)
    requires start <= |path| && comps != [] && Components(comps) && path[start..] == comps[0] + PathOf(comps[1..])
    ensures Comps(path, start) == comps
    decreases |comps|
  {
    hide Comps, CompEnd;
    var c, rest := comps[0], PathOf(comps[1..]);
    EndOf(path, start, c, rest);
    var end := start + |c|;
    CompsUnfold(path, start, end);
    assert comps == [c] + comps[1..];
    if |comps| > 1 {
      AfterSlash(path, end, comps[1..]);
      CompsOfPath(path, end + 1, comps[1..]);
    }
  }

  lemma {:induction false} AfterSlash(path: Str, end: nat, comps: seq<Str>)
    requires end <= |path| && path[end..] == PathOf(comps) && comps != []
    ensures end < |path| && path[end + 1..] == comps[0] + PathOf(comps[1..])
  {
    var more := comps[0] + PathOf(comps[1..]);
    assert path[end..] == [SLASH] + more;
    hide PathOf;
    assert path[end + 1..] == path[end..][1..] == more;
  }

  /** The file lies below the item named by the first component. */
  lemma PretendsBelow(image: Store, t: Tree, comps: seq<Str>, name: Str)
    requires Pretends(image, t, comps, name) && comps != []
    ensures t.Dir?
    ensures var e := FindItem(t.items, comps[0], 0); e.Some? && Pretends(image, t.items[e.value].tree, comps[1..], name)
  {
    hide LookupIn, DataBlocks, BlockAt, IsNode;
  }

  /** The walk over components. */
  function WalkComps(store: Store, n: nat, comps: seq<Str>): Option<nat>
    decreases |comps|
  {
    if comps == [] then Some(n) else if |comps[0]| > 256 then None else
    var m := OpenLookup(store, n, comps[0]);
    if m.None? then None else WalkComps(store, m.value, comps[1..])
  }

  lemma {:induction false} WalkIsComps(store: Store, n: nat, path: Str, start: nat)
    requires start <= |path|
    ensures WalkPath(store, n, path, start) == WalkComps(store, n, Comps(path, start))
    decreases |path| - start
  {
    hide OpenLookup, Comps, WalkPath;
    var end := CompEnd(path, start);
    WalkUnfold(store, n, path, start, end);
    CompsUnfold(path, start, end);
    if start < end {
      var rest := if end == |path| then [] else Comps(path, end + 1);
      assert ([path[start..end]] + rest)[1..] == rest;
      var m := OpenLookup(store, n, path[start..end]);
      if m.Some? && end < |path| {
        WalkIsComps(store, m.value, path, end + 1);
      }
    }
  }

  lemma {:induction false} FakeWalk(image: Store, off: nat, t: Tree, hi: nat, comps: seq<Str>, name: Str)
    requires Rep(image, off, t, hi) && Named(t) && Pretends(image, t, comps, name)
    ensures WalkComps(image, off, comps + [name]).Some?
    decreases |comps|
  {
    hide Rep, Named, BlockAt, ChildOff, FindItem, IsNode, LookupIn, DataBlocks;
    if comps == [] {
      assert comps + [name] == [name];
      RepFileBlocks(image, off, t, hi);
      assert WalkComps(image, off, [name]) == OpenLookup(image, off, name);
    } else {
      assert (comps + [name])[1..] == comps[1..] + [name];
      PretendsBelow(image, t, comps, name);
      LookupDir(image, off, t.items, hi, comps[0]);
      hide Pretends, OpenLookup, DirLookup;
      var e := FindItem(t.items, comps[0], 0).value;
      FakeWalk(image, ChildOff(image, off, e), t.items[e].tree, hi, comps[1..], name);
    }
  }

  /** So it is with a file that starts with the bytes of an entry for a node. */
  lemma FakeEntry(image: Store, root: nat, t: Tree, hi: nat, comps: seq<Str>, host: Str, name: Str, obj: nat, now: nat)
    requires Rep(image, root, t, hi) && Named(t) && Components(comps) && Component(name) && |name| <= MAXNAMELEN
    requires Resolve(t, comps) == Some(File(host, MakeEntry(name, obj, now))) && obj < U64
    requires IsNode(BlockAt(image, obj))
    ensures Pretends(image, t, comps, name)
    ensures LookupPath(image, root, PathOf(comps + [name])).Some? && Resolve(t, comps + [name]).None?
  {
    hide BlockAt, MakeEntry, Resolve, IsNode, Rep, Named;
    var data := MakeEntry(name, obj, now);
    assert Blocks(|data|) == 1 && Chunk(data, 0) == data;
    var b := Pad(data);
    MakeEntryRecord(name, obj, now);
    assert b[0..ENTRY_SIZE] == data == data[0..ENTRY_SIZE];
    RecordMoved(data, 0, b, 0, name, obj);
    assert DataBlocks(data)[0] == b;
    assert FindSlot(b, name, 0) == Some(0);
    FakePath(image, root, t, hi, comps, name);
    ResolveBeyond(t, comps, name);
  }
}
