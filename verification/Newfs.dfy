/** newfs_o2fs (sbin/newfs_o2fs/newfs_o2fs.c): writes a manifest tree, bottom up, to
    consecutive blocks, then the bitmap and the superblock. */
module Newfs {
  import opened Common
  import opened BufferCache
  import opened O2fsLayout
  import opened O2fsSpec
  import opened Manifest
  import opened Image
  import opened Vfs

  // ---------------------------------------------------------------- nodes under construction

  /** A block that starts with a magic string and version 1.0. */
  function Header(magic: Str): (b: Block)
    requires |magic| == 8
    ensures |b| == BSIZE
  {
    Splice(ZeroBlock(), 0, magic + [1, 0, 0, 0])
  }

  lemma HeaderFacts(magic: Str)
    requires |magic| == 8
    ensures var b := Header(magic); BytesAt(b, 0, magic) && GetLE(b, 8, 2) == 1 && GetLE(b, 10, 2) == 0
    ensures forall i :: 12 <= i < BSIZE ==> Header(magic)[i] == 0
  {
    var b, h := Header(magic), magic + [1, 0, 0, 0];
    assert b[0..12] == h;
    assert b[0..8] == b[0..12][..8] == magic;
    assert b[8] == b[0..12][8] == 1 && b[9] == b[0..12][9] == 0 && b[10] == b[0..12][10] == 0;
    assert b[11] == b[0..12][11] == 0;
    TwoBytes(b, 8);
    TwoBytes(b, 10);
  }

  /** An empty BNode. */
  function NewNode(): (b: Block)
    ensures |b| == BSIZE
  {
    Header(BNODE_MAGIC)
  }

  lemma NewNodeFacts()
    ensures IsNode(NewNode()) && NodeSize(NewNode()) == 0 && forall i :: 0 <= i <= DIRECT ==> NodePtr(NewNode(), i) == 0
  {
    hide Header, GetLE;
    HeaderFacts(BNODE_MAGIC);
    var b := NewNode();
    ZeroField(b, SIZE_AT, 8);
    forall i | 0 <= i <= DIRECT ensures NodePtr(b, i) == 0 {
      ZeroField(b, PtrAt(i), 8);
    }
  }

  lemma TwoBytes(b: Block, p: nat)
    requires p + 2 <= |b|
    ensures GetLE(b, p, 2) == b[p] as int + 256 * (b[p + 1] as int)
  {
    assert GetLE(b, p + 1, 1) == b[p + 1] + 256 * GetLE(b, p + 2, 0);
  }

  lemma {:induction false} ZeroField(b: Block, p: nat, n: nat)
    requires p + n <= |b| && forall i :: p <= i < p + n ==> b[i] == 0
    ensures GetLE(b, p, n) == 0
    decreases n
  {
    if n > 0 {
      ZeroField(b, p + 1, n - 1);
    }
  }

  /** One more block recorded in a node. */
  function Extended(node: Block, i: nat, off: nat, size: nat): (b: Block)
    requires |node| == BSIZE && i < DIRECT
    ensures |b| == BSIZE
  {
    SetSize(SetPtr(node, i, off), size)
  }

  lemma ExtendedFacts(node: Block, i: nat, off: nat, size: nat)
    requires |node| == BSIZE && IsNode(node) && i < DIRECT && off < U64 && size < U64
    ensures IsNode(Extended(node, i, off, size)) && NodeSize(Extended(node, i, off, size)) == size
    ensures forall j :: 0 <= j <= DIRECT ==>
      NodePtr(Extended(node, i, off, size), j) == if j == i then off else NodePtr(node, j)
  {
    hide NodePtr, NodeSize, IsNode, PutLE;
    var a := SetPtr(node, i, off);
    NodeStays(node, PtrAt(i), off);
    NodeStays(a, SIZE_AT, size);
    SetPtrFacts(node, i, off);
    SetSizeFacts(a, size);
  }

  // ---------------------------------------------------------------- the image so far

  /** The children of a directory are recorded trees themselves. */
  ghost predicate Children(image: Store, n: nat, t: Tree, trees: map<nat, Tree>) {
    t.Dir? ==> forall e :: 0 <= e < |t.items| && e < SLOTS ==> Has(trees, ChildOff(image, n, e), t.items[e].tree)
  }

  ghost predicate Has(trees: map<nat, Tree>, n: nat, t: Tree) {
    n in trees && trees[n] == t
  }

  /** Node n is in place. */
  ghost predicate Placed(image: Store, pos: nat, owner: map<nat, Owner>, trees: map<nat, Tree>, n: nat, t: Tree) {
    NodeOk(image, owner, n) && Rep(image, n, t, pos) && Children(image, n, t, trees)
  }

  /** Blocks below pos are owned, exactly those; every recorded tree is in place. */
  ghost predicate Built(image: Store, pos: nat, nb: nat, owner: map<nat, Owner>, trees: map<nat, Tree>) {
    && pos % BSIZE == 0 && Fixed(nb, owner) && Sized(image) && Held(image, owner)
    && (forall blk :: blk in owner <==> 0 <= blk < pos / BSIZE)
    && (forall n :: n in trees ==> Placed(image, pos, owner, trees, n, trees[n]))
  }

  lemma {:induction false} ChildrenKept(image: Store, image': Store, n: nat, t: Tree, trees: map<nat, Tree>,
          trees': map<nat, Tree>, hi: nat)
    requires Children(image, n, t, trees) && Rep(image, n, t, hi)
    requires forall o :: 0 <= o < hi ==> BlockAt(image', o) == BlockAt(image, o)
    requires forall m :: m in trees ==> Has(trees', m, trees[m])
    ensures Children(image', n, t, trees')
  {
    hide BlockAt, NodePtr, SlotObj, Record;
    if t.Dir? {
      assert DirBlock(image', n) == DirBlock(image, n);
      forall e | 0 <= e < |t.items| && e < SLOTS ensures Has(trees', ChildOff(image', n, e), t.items[e].tree) {
        assert Has(trees, ChildOff(image, n, e), t.items[e].tree);
      }
    }
  }

  /** Appending a block leaves everything in place. */
  lemma AppendBuilt(image: Store, pos: nat, nb: nat, owner: map<nat, Owner>, trees: map<nat, Tree>, b: Block,
          o: Owner, image': Store, owner': map<nat, Owner>)
    requires Built(image, pos, nb, owner, trees) && |b| == BSIZE
    requires image' == image[K(pos) := b] && owner' == owner[pos / BSIZE := o]
    ensures Built(image', pos + BSIZE, nb, owner', trees)
    ensures forall q :: 0 <= q < pos ==> BlockAt(image', q) == BlockAt(image, q)
    ensures BlockAt(image', pos) == b && Owns(owner', pos, o)
  {
    hide NodePtr, NodeSize, Rep, Children;
    forall q | 0 <= q < pos ensures BlockAt(image', q) == BlockAt(image, q) {
      BlockPut(image, pos, b, q);
    }
    BlockPut(image, pos, b, pos);
    hide BlockAt;
    AppendHeld(image, owner, pos, b, o);
    FixedGrows(nb, owner, owner');
    forall n | n in trees ensures Placed(image', pos + BSIZE, owner', trees, n, trees[n]) {
      assert Placed(image, pos, owner, trees, n, trees[n]);
      assert n < pos;
      NodeKept(image, image', owner, n);
      NodeGrows(image', owner, owner', n);
      RepKept(image, image', n, trees[n], pos, pos + BSIZE);
      ChildrenKept(image, image', n, trees[n], trees, trees, pos);
    }
    assert (pos + BSIZE) / BSIZE == pos / BSIZE + 1;
  }

  lemma AppendHeld(image: Store, owner: map<nat, Owner>, pos: nat, b: Block, o: Owner)
    requires Held(image, owner) && |b| == BSIZE && pos % BSIZE == 0
    ensures Held(image[K(pos) := b], owner[pos / BSIZE := o])
  {
    assert pos / BSIZE * BSIZE == pos;
    HeldPut(image, owner, pos, b);
    HeldMore(image[K(pos) := b], owner, pos, b, pos / BSIZE, o);
    assert image[K(pos) := b][K(pos) := b] == image[K(pos) := b];
  }

  /** Recording one more tree. */
  lemma RecordBuilt(image: Store, pos: nat, nb: nat, owner: map<nat, Owner>, trees: map<nat, Tree>, n: nat, t: Tree)
    requires Built(image, pos, nb, owner, trees) && n !in trees && Placed(image, pos, owner, trees, n, t)
    ensures Built(image, pos, nb, owner, trees[n := t])
  {
    hide NodeOk, Rep, Held, Fixed;
    var trees' := trees[n := t];
    forall m | m in trees' ensures Placed(image, pos, owner, trees', m, trees'[m]) {
      assert Placed(image, pos, owner, trees, m, trees'[m]);
      ChildrenKept(image, image, m, trees'[m], trees, trees', pos);
    }
  }

  // ---------------------------------------------------------------- files

  /** The first i chunks of a file are on the disk and recorded in the node under construction. */
  ghost predicate Filling(image: Store, owner: map<nat, Owner>, node: Block, data: seq<Byte>, i: nat, n: nat,
          pos: nat) {
    && IsNode(node) && |data| <= DIRECT * BSIZE && i <= Blocks(|data|)
    && NodeSize(node) == (if BSIZE * i <= |data| then BSIZE * i else |data|)
    && NodePtr(node, DIRECT) == 0
    && (forall j :: 0 <= j < i ==> Filled(image, owner, node, data, j, n, pos))
    && (forall j :: i <= j < DIRECT ==> NodePtr(node, j) == 0)
  }

  ghost predicate Filled(image: Store, owner: map<nat, Owner>, node: Block, data: seq<Byte>, j: nat, n: nat, pos: nat)
    requires |node| == BSIZE
  {
    && j < DIRECT && j < Blocks(|data|) && 0 < NodePtr(node, j) < pos
    && Owns(owner, NodePtr(node, j), Data(n, j))
    && BlockAt(image, NodePtr(node, j)) == Pad(Chunk(data, j))
  }

  lemma FillStep(image: Store, owner: map<nat, Owner>, image': Store, owner': map<nat, Owner>, node: Block,
          data: seq<Byte>, i: nat, n: nat, pos: nat)
    requires |node| == BSIZE && Filling(image, owner, node, data, i, n, pos) && i < Blocks(|data|) && 0 < pos < U64
    requires forall q :: 0 <= q < pos ==> BlockAt(image', q) == BlockAt(image, q)
    requires owner' == owner[pos / BSIZE := Data(n, i)] && pos / BSIZE !in owner
    requires BlockAt(image', pos) == Pad(Chunk(data, i)) && Owns(owner', pos, Data(n, i))
    ensures Filling(image', owner', Extended(node, i, pos, NodeSize(node) + |Chunk(data, i)|), data, i + 1, n,
      pos + BSIZE)
  {
    hide NodePtr, NodeSize, BlockAt, Extended, IsNode, Pad;
    var size := NodeSize(node) + |Chunk(data, i)|;
    var b := Extended(node, i, pos, size);
    ExtendedFacts(node, i, pos, size);
    var hi := pos + BSIZE;
    forall j | 0 <= j < i + 1 ensures Filled(image', owner', b, data, j, n, hi) {
      if j < i {
        assert Filled(image, owner, node, data, j, n, pos);
      }
    }
  }

  /** A node stored after its chunks holds its file. */
  lemma FileNode(image: Store, owner: map<nat, Owner>, image': Store, owner': map<nat, Owner>,
          trees: map<nat, Tree>, node: Block, path: Str, data: seq<Byte>, n: nat)
    requires Filling(image, owner, node, data, Blocks(|data|), n, n)
    requires forall q :: 0 <= q < n ==> BlockAt(image', q) == BlockAt(image, q)
    requires owner' == owner[n / BSIZE := Node(n)] && n / BSIZE !in owner
    requires BlockAt(image', n) == node && Owns(owner', n, Node(n))
    ensures Placed(image', n + BSIZE, owner', trees, n, File(path, data))
  {
    hide NodePtr, NodeSize, BlockAt, IsNode;
    forall j | 0 <= j < DIRECT ensures PtrOk(image', owner', n, j) {
      if j < Blocks(|data|) {
        assert Filled(image, owner, node, data, j, n, n);
      }
    }
    forall j | 0 <= j < DIRECT && j < Blocks(|data|)
      ensures 0 < Ptr(image', n, j) < n + BSIZE && BlockAt(image', Ptr(image', n, j)) == Pad(Chunk(data, j))
    {
      assert Filled(image, owner, node, data, j, n, n);
    }
  }

  // ---------------------------------------------------------------- directories

  /** The node and block of a directory whose items are in place hold the directory. */
  lemma DirNode(image: Store, owner: map<nat, Owner>, trees: map<nat, Tree>, items: seq<Item>, objs: seq<nat>,
          entries: seq<Byte>, node: Block, off: nat)
    requires Records(entries, items, objs) && |entries| == ENTRY_SIZE * |items| && |items| < SLOTS
    requires 0 < off < U64 && node == Extended(NewNode(), 0, off, |entries|)
    requires BlockAt(image, off) == Pad(entries) && BlockAt(image, off + BSIZE) == node
    requires Owns(owner, off, Data(off + BSIZE, 0)) && Owns(owner, off + BSIZE, Node(off + BSIZE))
    requires forall e :: 0 <= e < |items| ==>
      Has(trees, objs[e], items[e].tree) && Rep(image, objs[e], items[e].tree, off + 2 * BSIZE)
    ensures Placed(image, off + 2 * BSIZE, owner, trees, off + BSIZE, Dir(items))
  {
    hide NodePtr, NodeSize, BlockAt, Extended, IsNode, NewNode, Has, Record, SlotObj, Rep, Pad;
    var n := off + BSIZE;
    NewNodeFacts();
    ExtendedFacts(NewNode(), 0, off, |entries|);
    RecordsPad(entries, items, objs);
    DirChildren(image, n, items, objs);
    forall j | 0 <= j < DIRECT ensures PtrOk(image, owner, n, j) {}
    DirRep(image, n, items, off + 2 * BSIZE);
  }

  lemma DirChildren(image: Store, n: nat, items: seq<Item>, objs: seq<nat>)
    requires Records(DirBlock(image, n), items, objs) && |items| < SLOTS
    ensures forall e :: 0 <= e < |items| ==>
      ChildOff(image, n, e) == objs[e] && Record(DirBlock(image, n), e, items[e].name, ChildOff(image, n, e))
  {
    forall e | 0 <= e < |items| ensures ChildOff(image, n, e) == objs[e] {
      assert Record(DirBlock(image, n), e, items[e].name, objs[e]);
    }
  }

  lemma DirRep(image: Store, n: nat, items: seq<Item>, hi: nat)
    requires n < hi && IsNode(BlockAt(image, n)) && RepDir(image, n, items, hi)
    requires forall e :: 0 <= e < |items| ==> Rep(image, ChildOff(image, n, e), items[e].tree, hi)
    ensures Rep(image, n, Dir(items), hi)
  {}

  // ---------------------------------------------------------------- sizes and limits

  /** Blocks a tree takes: a file's data and node, a directory's items, block and node. */
  function TreeBlocks(t: Tree): nat {
    match t
    case File(_, data) => Blocks(|data|) + 1
    case Dir(items) => ItemsBlocks(items) + 2
  }

  function ItemsBlocks(items: seq<Item>): nat {
    if items == [] then 0 else TreeBlocks(items[0].tree) + ItemsBlocks(items[1..])
  }

  lemma {:induction false} ItemsBlocksAppend(items: seq<Item>, i: Item)
    ensures ItemsBlocks(items + [i]) == ItemsBlocks(items) + TreeBlocks(i.tree)
  {
    if items == [] {
      assert items + [i] == [i];
    } else {
      ItemsBlocksAppend(items[1..], i);
      assert (items + [i])[1..] == items[1..] + [i];
    }
  }

  /** Directories of one block, files within the direct pointers. */
  ghost predicate Fits(items: seq<Item>)
    decreases items
  {
    |items| < SLOTS && forall e :: 0 <= e < |items| ==> ItemFits(items[e])
  }

  ghost predicate ItemFits(i: Item)
    decreases i
  {
    match i.tree
    case File(_, data) => |data| <= DIRECT * BSIZE
    case Dir(sub) => Fits(sub)
  }

  /** The tokens ahead are those of the items, a closing END and the rest. */
  ghost predicate Ahead(tokens: seq<Str>, host: map<Str, seq<Byte>>, items: seq<Item>, rest: seq<Str>) {
    tokens == Unparse(items) + [T_END] + rest && FromHost(items, host)
  }

  lemma AheadNext(tokens: seq<Str>, host: map<Str, seq<Byte>>, items: seq<Item>, rest: seq<Str>)
    requires Ahead(tokens, host, items, rest)
    ensures items == [] ==> tokens == [T_END] + rest
    ensures items != [] ==> ItemFromHost(items[0], host)
    ensures items != [] && items[0].tree.File? ==>
      && |tokens| >= 3 && tokens[0] == T_FILE && tokens[1] == items[0].name && tokens[2] == items[0].tree.path
      && Ahead(tokens[3..], host, items[1..], rest)
    ensures items != [] && items[0].tree.Dir? ==>
      && |tokens| >= 2 && tokens[0] == T_DIR && tokens[1] == items[0].name
      && Ahead(tokens[2..], host, items[0].tree.items, Unparse(items[1..]) + [T_END] + rest)
  {
    if items != [] {
      var more := Unparse(items[1..]) + [T_END] + rest;
      assert tokens == UnparseItem(items[0]) + more;
      assert FromHost(items[1..], host);
      if items[0].tree.File? {
        assert tokens[3..] == more;
      } else {
        assert tokens[2..] == Unparse(items[0].tree.items) + [T_END] + more;
      }
    }
  }

  /** The entries that can be read in the files of a tree lead to nodes. */
  ghost predicate Leads(t: Tree, nodes: set<nat>)
    decreases t
  {
    match t
    case File(_, data) => EntriesLead(DataBlocks(data), nodes)
    case Dir(items) => forall e :: 0 <= e < |items| ==> Leads(items[e].tree, nodes)
  }

  ghost predicate AllLead(trees: map<nat, Tree>, nodes: set<nat>) {
    forall n :: n in trees ==> Leads(trees[n], nodes)
  }

  /** Every recorded tree of trees' was there before or is part of t. */
  ghost predicate Parts(trees: map<nat, Tree>, trees': map<nat, Tree>, t: Tree) {
    forall nodes: set<nat> :: AllLead(trees, nodes) && Leads(t, nodes) ==> AllLead(trees', nodes)
  }

  // ---------------------------------------------------------------- the program

  class Mkfs {
    const host: map<Str, seq<Byte>>   // the files that can be opened
    const text: Str                   // the manifest
    const megabytes: nat              // the size given with -s, or 0
    const nb: nat                     // blocks of the bitmap
    const now: nat                    // time(NULL)
    var cur: nat                      // tokenCur
    var image: Store                  // the disk
    var pos: nat                      // its seek position
    ghost var owner: map<nat, Owner>
    ghost var trees: map<nat, Tree>

    /** Offsets are 64-bit integers; nothing is claimed once the position is past them. */
    ghost predicate Valid()
      reads this
    {
      && [] !in host
      && cur <= |text| && (forall t :: t in Tokens(text, cur) ==> |t| < TOKEN_MAX)
      && (pos <= U64 ==> Built(image, pos, nb, owner, trees))
    }

    constructor (host: map<Str, seq<Byte>>, manifest: Str, megabytes: nat, now: nat, image: Store)
      ensures this.host == host && text == CString(manifest) && this.now == now && this.image == image && cur == 0
      ensures this.megabytes == megabytes && nb == BitmapBlocks(megabytes)
    {
      this.host, text, this.now := host, CString(manifest), now;
      this.megabytes, nb := megabytes, BitmapBlocks(megabytes);
      this.image, cur, pos := image, 0, 0;
      owner, trees := map[], map[];
    }

    /** FlushBlock at the current position, and the seek past it. */
    method Append(buf: seq<Byte>, ghost o: Owner) returns (off: nat)
      requires |buf| <= BSIZE
      modifies this`image, this`pos, this`owner
      ensures off == old(pos) && pos == off + BSIZE
      ensures image == old(image)[K(off) := Pad(buf)] && owner == old(owner)[off / BSIZE := o]
    {
      off := pos;
      image, pos, owner := image[K(pos) := Pad(buf)], pos + BSIZE, owner[pos / BSIZE := o];
    }

    method AppendBlock(buf: seq<Byte>, ghost o: Owner) returns (off: nat)
      requires Valid() && |buf| <= BSIZE
      modifies this
      ensures old(image).Keys <= image.Keys
      ensures Valid() && cur == old(cur) && trees == old(trees)
      ensures off == old(pos) && pos == off + BSIZE
      ensures image == old(image)[K(off) := Pad(buf)] && owner == old(owner)[off / BSIZE := o]
      ensures pos <= U64 ==> BlockAt(image, off) == Pad(buf) && Owns(owner, off, o) && off / BSIZE !in old(owner)
      ensures pos <= U64 ==> forall q :: 0 <= q < off ==> BlockAt(image, q) == BlockAt(old(image), q)
    {
      hide Built, Pad, BlockAt;
      off := Append(buf, o);
      if pos <= U64 {
        assert off / BSIZE !in old(owner) by { BuiltOwner(old(image), off, nb, old(owner), trees); }
        AppendBuilt(old(image), off, nb, old(owner), trees, Pad(buf), o, image, owner);
      }
    }

    method NextToken() returns (tok: Str)
      requires Valid()
      modifies this`cur
      ensures Valid() && old(cur) <= cur <= |text|
      ensures var was := old(Tokens(text, cur)); if was == [] then tok == [] && Tokens(text, cur) == [] else
        tok == was[0] && tok != [] && Tokens(text, cur) == was[1..] && old(cur) < cur
    {
      ghost var was := Tokens(text, cur);
      tok, cur := GetToken(text, cur);
      hide Tokens, Built;
      if was != [] {
        assert was == [tok] + Tokens(text, cur);
      }
    }

    /** AddFile: the file's blocks, then its node. */
    method AddFile(path: Str) returns (r: Option<nat>)
      requires Valid()
      modifies this
      ensures old(image).Keys <= image.Keys
      ensures Valid() && cur == old(cur)
      ensures r.Some? <==> path in host && |host[path]| <= DIRECT * BSIZE
      ensures r.Some? ==> var t := File(path, host[path]);
        && r.value < pos == old(pos) + BSIZE * TreeBlocks(t)
        && (pos <= U64 ==> r.value !in old(trees) && trees == old(trees)[r.value := t])
    {
      hide Built, Tokens, BlockAt, NodePtr, NodeSize, IsNode, Owns, Extended, NewNode, Pad;
      if path !in host || |host[path]| > DIRECT * BSIZE {
        return None;
      }
      var data := host[path];
      var node := NewNode();
      var i := 0;
      ghost var start := pos;
      ghost var n := pos + BSIZE * Blocks(|data|);
      if pos <= U64 {
        NewNodeFacts();
      }
      while i < Blocks(|data|)
        invariant Valid() && cur == old(cur) && trees == old(trees) && old(image).Keys <= image.Keys
        invariant i <= Blocks(|data|) && pos == start + BSIZE * i && |node| == BSIZE
        invariant pos <= U64 ==> Filling(image, owner, node, data, i, n, pos)
      {
        ghost var image0, owner0, node0 := image, owner, node;
        if pos <= U64 {
          BuiltOwner(image, pos, nb, owner, trees);
        }
        var chunk := Chunk(data, i);
        var off := AppendBlock(chunk, Data(n, i));
        node := Extended(node, i, off, NodeSize(node) + |chunk|);
        if pos <= U64 {
          FillStep(image0, owner0, image, owner, node0, data, i, n, off);
        }
        i := i + 1;
      }
      ghost var image0, owner0 := image, owner;
      var off := AppendBlock(node, Node(n));
      r := Some(off);
      if pos <= U64 {
        assert Pad(node) == node by { PadWhole(node); }
        FileNode(image0, owner0, image, owner, trees, node, path, data, n);
        FreshNode(image0, n, nb, owner0, trees);
        RecordBuilt(image, pos, nb, owner, trees, n, File(path, data));
        trees := trees[n := File(path, data)];
      }
    }

    /** The rest of a FILE item: a name and the path of a file. */
    method AddFileItem(ghost want: seq<Item>, ghost rest: seq<Str>) returns (r: Option<(Str, nat)>, ghost item: Item)
      requires Valid()
      modifies this
      ensures old(image).Keys <= image.Keys
      ensures Valid() && old(cur) <= cur <= |text|
      ensures r.Some? ==> Step([T_FILE] + old(Tokens(text, cur)), host, item, Tokens(text, cur))
      ensures r.Some? ==> item.name == r.value.0 && pos == old(pos) + BSIZE * TreeBlocks(item.tree)
      ensures r.Some? && pos <= U64 ==> Added(old(trees), trees, r.value.1, item.tree)
      ensures want != [] && Ahead([T_FILE] + old(Tokens(text, cur)), host, want, rest) && ItemFits(want[0]) ==> r.Some?
    {
      hide Built, Tokens, Unparse, TreeBlocks, FromHost, Ahead;
      item, r := Item([], Dir([])), None;
      ghost var all := [T_FILE] + Tokens(text, cur);
      if want != [] && Ahead(all, host, want, rest) {
        AheadNext(all, host, want, rest);
      }
      var name := NextToken();
      var path := NextToken();
      assert |all| >= 3 ==> path == all[2];
      var obj := AddFile(path);
      if obj.None? {
        return;
      }
      assert all == [T_FILE, name, path] + Tokens(text, cur);
      r, item := Some((name, obj.value)), Item(name, File(path, host[path]));
    }

    /** The rest of a DIR item: a name and the items of a directory. */
    method AddDirItem(ghost want: seq<Item>, ghost rest: seq<Str>) returns (r: Option<(Str, nat)>, ghost item: Item)
      requires Valid()
      modifies this
      ensures old(image).Keys <= image.Keys
      ensures Valid() && old(cur) <= cur <= |text|
      ensures r.Some? ==> Step([T_DIR] + old(Tokens(text, cur)), host, item, Tokens(text, cur))
      ensures r.Some? ==> item.name == r.value.0 && pos == old(pos) + BSIZE * TreeBlocks(item.tree)
      ensures r.Some? && pos <= U64 ==> Added(old(trees), trees, r.value.1, item.tree)
      ensures want != [] && Ahead([T_DIR] + old(Tokens(text, cur)), host, want, rest) && ItemFits(want[0]) ==> r.Some?
      decreases |text| - cur, 2
    {
      hide Built, Tokens, Unparse, UnparseItem, TreeBlocks, FromHost, Ahead, Added, Step;
      item, r := Item([], Dir([])), None;
      ghost var all := [T_DIR] + Tokens(text, cur);
      ghost var dir := want != [] && want[0].tree.Dir? && Ahead(all, host, want, rest);
      ghost var sub := if dir then want[0].tree.items else [];
      ghost var more := if dir then Unparse(want[1..]) + [T_END] + rest else [];
      if want != [] && Ahead(all, host, want, rest) {
        AheadNext(all, host, want, rest);
      }
      var name := NextToken();
      ghost var ahead := Tokens(text, cur);
      assert |all| >= 2 ==> ahead == all[2..];
      var obj, items := AddDirectory(sub, more);
      if obj.None? {
        return;
      }
      assert ahead != [] ==> all == [T_DIR, name] + ahead;
      DirItem(all, host, name, items, ahead, Tokens(text, cur));
      r, item := Some((name, obj.value)), Item(name, Dir(items));
    }

    /** A FILE or DIR item whose first token has been read. */
    method AddItem(tok: Str, ghost want: seq<Item>, ghost rest: seq<Str>)
      returns (r: Option<(Str, nat)>, ghost item: Item)
      requires Valid() && (tok == T_FILE || tok == T_DIR)
      modifies this
      ensures old(image).Keys <= image.Keys
      ensures Valid() && old(cur) <= cur <= |text|
      ensures r.Some? ==> Step([tok] + old(Tokens(text, cur)), host, item, Tokens(text, cur))
      ensures r.Some? ==> item.name == r.value.0 && pos == old(pos) + BSIZE * TreeBlocks(item.tree)
      ensures r.Some? && pos <= U64 ==> Added(old(trees), trees, r.value.1, item.tree) && r.value.1 < U64
      ensures want != [] && Ahead([tok] + old(Tokens(text, cur)), host, want, rest) ==>
        if r.Some? then item == want[0] && Ahead(Tokens(text, cur), host, want[1..], rest) else !ItemFits(want[0])
      decreases |text| - cur, 3
    {
      hide Built, Tokens, Unparse, UnparseItem, TreeBlocks, FromHost, Ahead, Added, Step, ItemFits;
      if tok == T_FILE {
        r, item := AddFileItem(want, rest);
      } else {
        r, item := AddDirItem(want, rest);
      }
      if r.Some? && pos <= U64 {
        HasBelow(image, pos, nb, owner, old(trees), trees, r.value.1, item.tree);
      }
      if r.Some? && want != [] && Ahead([tok] + old(Tokens(text, cur)), host, want, rest) {
        StepUnique([tok] + old(Tokens(text, cur)), host, item, Tokens(text, cur), want, rest);
      }
    }

    /** The loop of AddDirectory: the items up to END, with the entries that list them. */
    method AddItems(ghost want: seq<Item>, ghost rest: seq<Str>)
      returns (ok: bool, entries: seq<Byte>, ghost items: seq<Item>, ghost objs: seq<nat>)
      requires Valid() && cur <= |text|
      modifies this
      ensures old(image).Keys <= image.Keys
      ensures Valid() && old(cur) <= cur <= |text|
      ensures ok ==> Parsed(old(Tokens(text, cur)), host, items, [T_END] + Tokens(text, cur))
      ensures ok ==> pos == old(pos) + BSIZE * ItemsBlocks(items) && |entries| == ENTRY_SIZE * |items|
      ensures ok && pos <= U64 ==> Listed(old(trees), trees, entries, items, objs)
      ensures Ahead(old(Tokens(text, cur)), host, want, rest) && Fits(want) ==> ok && |items| == |want|
      decreases |text| - cur, 0
    {
      hide Built, Tokens, Unparse, UnparseItem, TreeBlocks, ItemsBlocks, MakeEntry, Ahead, Added, Listed;
      hide Parsed, Step, ItemFits, Valid;
      ok, items, objs, entries := false, [], [], [];
      ghost var tokens := Tokens(text, cur);
      ghost var good := Ahead(tokens, host, want, rest) && Fits(want);
      NothingYet(tokens, host, want, rest, trees);
      while true
        invariant Valid() && old(cur) <= cur <= |text| && old(image).Keys <= image.Keys
        invariant Parsed(tokens, host, items, Tokens(text, cur))
        invariant good ==> |items| <= |want| && Ahead(Tokens(text, cur), host, want[|items|..], rest)
        invariant pos == old(pos) + BSIZE * ItemsBlocks(items) && |entries| == ENTRY_SIZE * |items|
        invariant pos <= U64 ==> Listed(old(trees), trees, entries, items, objs)
        decreases |text| - cur
      {
        ghost var ahead, was := Tokens(text, cur), trees;
        ghost var want' := if good then want[|items|..] else [];
        if good {
          AheadNext(ahead, host, want', rest);
        }
        var tok := NextToken();
        assert tok != [] ==> ahead == [tok] + Tokens(text, cur);
        if tok == T_END {
          ok := true;
          return;
        }
        if tok != T_FILE && tok != T_DIR {
          return;
        }
        var e, item := AddItem(tok, want', rest);
        if e.None? {
          return;
        }
        ParsedStep(tokens, host, items, ahead, item, Tokens(text, cur));
        if pos <= U64 {
          ListedStep(old(trees), was, trees, entries, items, objs, item, e.value.1, now);
        }
        ItemsBlocksAppend(items, item);
        entries := entries + MakeEntry(e.value.0, e.value.1, now);
        items, objs := items + [item], objs + [e.value.1];
      }
    }

    /** The end of AddDirectory: the block of entries and the node. */
    method WriteDirectory(entries: seq<Byte>, ghost items: seq<Item>, ghost objs: seq<nat>,
            ghost before: map<nat, Tree>) returns (n: nat)
      requires Valid() && |items| < SLOTS && |entries| == ENTRY_SIZE * |items|
      requires pos <= U64 ==> Listed(before, trees, entries, items, objs)
      modifies this
      ensures old(image).Keys <= image.Keys
      ensures Valid() && cur == old(cur) && pos == old(pos) + 2 * BSIZE
      ensures pos <= U64 ==> Added(before, trees, n, Dir(items))
    {
      hide Built, Tokens, BlockAt, Owns, Extended, NewNode, Pad, Listed, Added;
      ghost var image0, owner0 := image, owner;
      var off := AppendBlock(entries, Data(pos + BSIZE, 0));
      ghost var image1, owner1 := image, owner;
      n := AppendBlock(Extended(NewNode(), 0, off, |entries|), Node(pos));
      if pos <= U64 {
        NewDirectory(image1, n, image, nb, owner1, owner, before, trees, items, objs, entries, off);
        trees := trees[n := Dir(items)];
      }
    }

    /** AddDirectory.  It succeeds on every directory that fits, whatever follows it in the
        manifest. */
    method AddDirectory(ghost want: seq<Item>, ghost rest: seq<Str>) returns (r: Option<nat>, ghost items: seq<Item>)
      requires Valid()
      modifies this
      ensures old(image).Keys <= image.Keys
      ensures Valid() && old(cur) <= cur <= |text|
      ensures r.Some? ==> Ahead(old(Tokens(text, cur)), host, items, Tokens(text, cur)) && Fits(items)
      ensures r.Some? ==> pos == old(pos) + BSIZE * TreeBlocks(Dir(items))
      ensures r.Some? && pos <= U64 ==> Added(old(trees), trees, r.value, Dir(items))
      ensures Ahead(old(Tokens(text, cur)), host, want, rest) && Fits(want) ==> r.Some?
      decreases |text| - cur, 1
    {
      hide Built, Tokens, Unparse, ItemsBlocks, Ahead, Added, Listed, ItemFits;
      r := None;
      var ok, entries;
      ghost var objs;
      ok, entries, items, objs := AddItems(want, rest);
      if !ok || |entries| >= BSIZE {
        return;
      }
      var n := WriteDirectory(entries, items, objs, old(trees));
      r := Some(n);
      ParsedAll(old(Tokens(text, cur)), host, items, Tokens(text, cur));
    }

    /** The start of main: make a new image as long as the disk, skip the superblock and zero
        the bitmap. */
    method ZeroBitmap() returns (ok: bool)
      requires DiskImage(image)
      modifies this
      ensures ok <==> old(image) != map[] || megabytes > 0
      ensures ok ==> cur == old(cur) && pos == BSIZE * (1 + nb) && trees == map[] && Built(image, pos, nb, owner, trees)
      ensures ok && old(image) == map[] ==> Covers(image, 64 * megabytes)
    {
      hide Pad;
      if image == map[] && megabytes == 0 {
        return false;
      }
      if image == map[] {
        image := Blank(64 * megabytes);
      }
      pos, owner, trees := BSIZE, map[0 := Super], map[];
      var i := 0;
      while i < nb
        invariant i <= nb && pos == BSIZE * (1 + i) && cur == old(cur) && trees == map[] && Sized(image)
        invariant forall blk :: blk in owner <==> 0 <= blk < 1 + i
        invariant owner[0] == Super && forall j :: 0 <= j < i ==> Owns(owner, BitmapOff(j), Bitmap(j))
        invariant Held(image, owner)
        invariant old(image) == map[] ==> Covers(image, 64 * megabytes)
      {
        AppendHeld(image, owner, pos, Pad(Zeroes(BSIZE)), Bitmap(i));
        ghost var was := image;
        var _ := Append(Zeroes(BSIZE), Bitmap(i));
        if old(image) == map[] {
          CoversMore(was, image, 64 * megabytes);
        }
        i := i + 1;
      }
      ok := true;
    }

    /** BlockBitmap: exactly the blocks up to the current position are marked. */
    method BlockBitmap() returns (ok: bool)
      requires nb <= TEMP_BLOCKS && Sized(image)
      modifies this`image
      ensures ok <==> 8 < pos / BSIZE < BSIZE
      ensures Sized(image) && old(image).Keys <= image.Keys
      ensures ok ==> forall q :: 0 <= q && !InBitmap(q, nb) ==> BlockAt(image, q) == BlockAt(old(image), q)
      ensures ok ==> forall blk :: 0 <= blk < nb * BITS ==> (Used(image, blk) <==> blk < pos / BSIZE)
    {
      hide BlockAt, Used;
      var off := pos / BSIZE;
      if off >= BSIZE || off <= 8 {
        return false;
      }
      var bits := MarkUpTo(off);
      var i := 0;
      while i < nb
        invariant i <= nb && Sized(image) && old(image).Keys <= image.Keys
        invariant forall q :: 0 <= q && !InBitmap(q, i) ==> BlockAt(image, q) == BlockAt(old(image), q)
        invariant forall j :: 0 <= j < i ==> BlockAt(image, BitmapOff(j)) == if j == 0 then bits else ZeroBlock()
      {
        ghost var was := image;
        var b := if i == 0 then bits else ZeroBlock();
        image := image[K(BitmapOff(i)) := b];
        forall q | 0 <= q ensures BlockAt(image, q) == if q == BitmapOff(i) then b else BlockAt(was, q) {
          BlockPut(was, BitmapOff(i), b, q);
        }
        i := i + 1;
      }
      forall blk | 0 <= blk < nb * BITS ensures Used(image, blk) <==> blk < off {
        MarkedUpTo(image, blk, off, bits);
      }
      ok := true;
    }

    /** main, for a manifest: the image holds exactly the tree the manifest describes, and the
        blocks marked are exactly the owned ones.  It succeeds on every manifest of host files
        whose tree fits and whose block count is within the limits of BlockBitmap, on an image
        that exists or has its size given. */
    method Format(ghost want: seq<Item>) returns (ok: bool, root: nat, ghost items: seq<Item>)
      requires DiskImage(image) && nb <= TEMP_BLOCKS && [] !in host && megabytes < U64 / 64
      requires cur == 0 && forall t :: t in Tokens(text, 0) ==> |t| < TOKEN_MAX
      modifies this
      ensures ok ==> Acceptable(text, host, nb, items) && (old(image) != map[] || megabytes > 0)
      ensures Acceptable(text, host, nb, want) && (old(image) != map[] || megabytes > 0) ==> ok
      ensures ok ==> IsSuper(BlockAt(image, 0), 64 * megabytes, nb, root) && FsOk(image, nb, owner, trees.Keys)
      ensures ok ==> Has(trees, root, Dir(items)) && AllPlaced(image, pos, owner, trees)
      ensures ok ==> forall blk :: 0 <= blk < nb * BITS ==> (Used(image, blk) <==> blk in owner)
      ensures ok ==> (Linked(image, trees.Keys) <==> Leads(Dir(items), trees.Keys))
      ensures ok && old(image) == map[] ==> Covers(image, 64 * megabytes)
    {
      hide Built, Tokens, TreeBlocks, Manifested, Added, BlockAt, Used, Fits, Sized, Linked, Covers, Leads;
      hide IsSuper, FsOk;
      ok, root, items := false, 0, [];
      var sized := ZeroBitmap();
      if !sized {
        return;
      }
      ghost var blank := image;
      ok, root, items := AddTree(want);
      if !ok {
        return;
      }
      ok := Finish(root, items);
      if ok && old(image) == map[] {
        CoversMore(blank, image, 64 * megabytes);
      }
    }

    /** The middle of main: the root directory and nothing after it. */
    method AddTree(ghost want: seq<Item>) returns (ok: bool, root: nat, ghost items: seq<Item>)
      requires Valid() && cur == 0 && trees == map[]
      modifies this
      ensures Valid() && old(image).Keys <= image.Keys
      ensures ok ==> Manifested(text, host, items) && Fits(items) && pos == old(pos) + BSIZE * TreeBlocks(Dir(items))
      ensures ok && pos <= U64 ==> Added(map[], trees, root, Dir(items))
      ensures Manifested(text, host, want) && Fits(want) ==> ok && items == want
    {
      hide Built, Tokens, Unparse, TreeBlocks, FromHost, Ahead, Added, Fits;
      ok, root, items := false, 0, [];
      ghost var tokens := Tokens(text, 0);
      ghost var good := Manifested(text, host, want) && Fits(want);
      if good {
        ManifestStart(text, host, want);
      }
      var tok := NextToken();
      if tok != T_DIR {
        return;
      }
      tok := NextToken();
      if tok != [SLASH] {
        return;
      }
      ghost var ahead := Tokens(text, cur);
      assert tokens == [T_DIR, [SLASH]] + ahead;
      var r;
      r, items := AddDirectory(want, []);
      if r.None? {
        return;
      }
      root := r.value;
      assert good ==> items == want && Tokens(text, cur) == [] by {
        if good {
          AheadUnique(ahead, host, items, Tokens(text, cur), want, []);
        }
      }
      tok := NextToken();
      if tok != [] {
        return;
      }
      ManifestEnd(text, host, items, ahead);
      ok := true;
    }

    /** The end of main: bitmap and superblock. */
    method Finish(root: nat, ghost items: seq<Item>) returns (ok: bool)
      requires Valid() && nb <= TEMP_BLOCKS && megabytes < U64 / 64
      requires pos <= U64 ==> Added(map[], trees, root, Dir(items))
      modifies this`image
      ensures ok <==> 8 < pos / BSIZE < BSIZE
      ensures ok ==> IsSuper(BlockAt(image, 0), 64 * megabytes, nb, root) && FsOk(image, nb, owner, trees.Keys)
      ensures ok ==> Has(trees, root, Dir(items)) && AllPlaced(image, pos, owner, trees)
      ensures ok ==> forall blk :: 0 <= blk < nb * BITS ==> (Used(image, blk) <==> blk in owner)
      ensures ok ==> (Linked(image, trees.Keys) <==> Leads(Dir(items), trees.Keys))
      ensures old(image).Keys <= image.Keys && (ok ==> Sized(image))
    {
      hide Tokens, BlockAt, Used, Rep, Leads, Placed, Fixed, SuperBlock, IsSuper, Built, Added, Linked;
      ok := pos / BSIZE < BSIZE;
      if !ok {
        return;
      }
      ghost var built := image;
      BuiltOwner(image, pos, nb, owner, trees);
      HasBelow(image, pos, nb, owner, map[], trees, root, Dir(items));
      ok := BlockBitmap();
      if !ok {
        return;
      }
      ghost var marked := image;
      image := image[K(0) := SuperBlock(64 * megabytes, nb, root)];
      SuperFacts(64 * megabytes, nb, root);
      FinishBuilt(built, marked, image, pos, nb, owner, trees, SuperBlock(64 * megabytes, nb, root));
      FinishTree(image, pos, owner, trees, root, items);
    }
  }

  /** Whole blocks, from the first one on. */
  ghost predicate DiskImage(image: Store) {
    Sized(image) && (image != map[] ==> K(0) in image)
  }

  ghost predicate Covers(image: Store, count: nat) {
    forall i :: 0 <= i < count ==> InStore(image, i * BSIZE)
  }

  lemma CoversMore(image: Store, image': Store, count: nat)
    requires Covers(image, count) && image.Keys <= image'.Keys && Sized(image')
    ensures Covers(image', count)
  {
    forall i | 0 <= i < count ensures InStore(image', i * BSIZE) {
      assert InStore(image, i * BSIZE);
    }
  }

  /** An image of that many blocks, all zero. */
  function Blank(count: nat): (image: Store)
    ensures Sized(image) && Covers(image, count)
  {
    map i | 0 <= i < count :: K(i * BSIZE) := ZeroBlock()
  }

  /** The blocks of bitmap for a disk of that many megabytes: one bit per block of the disk,
      8 per byte, rounded up to blocks. */
  function BitmapBlocks(megabytes: nat): (nb: nat)
    ensures nb * BITS >= 64 * megabytes
  {
    (megabytes * 1024 * 1024 / (BSIZE * 8) + BSIZE - 1) / BSIZE
  }

  /** Blocks of bitmap that BlockBitmap's buffer holds. */
  const TEMP_BLOCKS: nat := 4096

  ghost predicate AllPlaced(image: Store, pos: nat, owner: map<nat, Owner>, trees: map<nat, Tree>) {
    forall n :: n in trees ==> Placed(image, pos, owner, trees, n, trees[n])
  }

  /** The manifest describes the items, and they fit on the disk. */
  ghost predicate Acceptable(text: Str, host: map<Str, seq<Byte>>, nb: nat, items: seq<Item>) {
    Manifested(text, host, items) && Fits(items) && 8 < 1 + nb + TreeBlocks(Dir(items)) < BSIZE
  }

  const SUPER_MAGIC: Str := [0x53, 0x55, 0x50, 0x52, 0x42, 0x4C, 0x4F, 0x4B]

  /** Superblock: version 1.0, with the geometry and the root node. */
  function SuperBlock(count: nat, nb: nat, root: nat): (b: Block)
    ensures |b| == BSIZE
  {
    var h := Header(SUPER_MAGIC);
    Put64(Put64(Put64(Put64(Put64(h, 24, count), 32, BSIZE), 40, nb), 48, BSIZE), 104, root)
  }

  /** What O2FS_Mount checks in the superblock and takes from it. */
  predicate IsSuper(b: Block, count: nat, nb: nat, root: nat) {
    && |b| == BSIZE && BytesAt(b, 0, SUPER_MAGIC) && GetLE(b, 8, 2) == 1 && GetLE(b, 10, 2) == 0
    && Get64(b, 24) == count
    && Get64(b, 32) == BSIZE && Get64(b, 40) == nb && Get64(b, 48) == BSIZE && Get64(b, 104) == root
  }

  lemma HeaderStays(b: Block, p: nat, v: nat)
    requires 12 <= p && p + 8 <= |b|
    ensures Put64(b, p, v)[0..12] == b[0..12]
  {}

  lemma SuperFacts(count: nat, nb: nat, root: nat)
    requires count < U64 && nb < U64 && root < U64
    ensures IsSuper(SuperBlock(count, nb, root), count, nb, root)
  {
    hide GetLE, PutLE, Put64, Get64, Header;
    var h := Header(SUPER_MAGIC);
    HeaderFacts(SUPER_MAGIC);
    var a := Put64(h, 24, count);
    var b := Put64(a, 32, BSIZE);
    var c := Put64(b, 40, nb);
    var d := Put64(c, 48, BSIZE);
    var e := Put64(d, 104, root);
    HeaderStays(h, 24, count);
    HeaderStays(a, 32, BSIZE);
    HeaderStays(b, 40, nb);
    HeaderStays(c, 48, BSIZE);
    HeaderStays(d, 104, root);
    assert e[0..12] == h[0..12];
    assert e[0..8] == h[0..12][..8] && e[8..10] == h[8..10] && e[10..12] == h[10..12];
    GetSame(e, 8, h, 8, 2);
    GetSame(e, 10, h, 10, 2);
    Get64Put64(h, 24, count, 24);
    Get64Put64(a, 32, BSIZE, 24);
    Get64Put64(b, 40, nb, 24);
    Get64Put64(c, 48, BSIZE, 24);
    Get64Put64(d, 104, root, 24);
    Get64Put64(a, 32, BSIZE, 32);
    Get64Put64(b, 40, nb, 32);
    Get64Put64(b, 40, nb, 40);
    Get64Put64(c, 48, BSIZE, 32);
    Get64Put64(c, 48, BSIZE, 40);
    Get64Put64(c, 48, BSIZE, 48);
    Get64Put64(d, 104, root, 32);
    Get64Put64(d, 104, root, 40);
    Get64Put64(d, 104, root, 48);
    Get64Put64(d, 104, root, 104);
  }

  /** The whole manifest: DIR / with the items, and nothing after its END. */
  ghost predicate Manifested(text: Str, host: map<Str, seq<Byte>>, items: seq<Item>) {
    Tokens(text, 0) == [T_DIR, [SLASH]] + Unparse(items) + [T_END] && FromHost(items, host)
  }

  lemma ManifestStart(text: Str, host: map<Str, seq<Byte>>, items: seq<Item>)
    requires Manifested(text, host, items)
    ensures var t := Tokens(text, 0); |t| >= 3 && t[0] == T_DIR && t[1] == [SLASH] && Ahead(t[2..], host, items, [])
  {
    hide Unparse, Tokens;
    assert Tokens(text, 0)[2..] == Unparse(items) + [T_END] + [];
  }

  lemma ManifestEnd(text: Str, host: map<Str, seq<Byte>>, items: seq<Item>, ahead: seq<Str>)
    requires Tokens(text, 0) == [T_DIR, [SLASH]] + ahead && Ahead(ahead, host, items, [])
    ensures Manifested(text, host, items)
  {
    hide Unparse, Tokens;
    assert [T_DIR, [SLASH]] + ahead == [T_DIR, [SLASH]] + Unparse(items) + [T_END];
  }

  lemma AheadUnique(tokens: seq<Str>, host: map<Str, seq<Byte>>, items: seq<Item>, after: seq<Str>,
          want: seq<Item>, rest: seq<Str>)
    requires Ahead(tokens, host, items, after) && Ahead(tokens, host, want, rest)
    ensures items == want && after == rest
  {
    UnparseUnique(items, want, after, rest, host);
  }

  /** A manifest is a string, and so are the names in it. */
  lemma ManifestNamed(text: Str, host: map<Str, seq<Byte>>, items: seq<Item>)
    requires IsStr(text) && Manifested(text, host, items)
    ensures Named(Dir(items))
  {
    hide Tokens, Unparse, FromHost;
    TokensAreStr(text, 0);
    assert forall t :: t in Unparse(items) ==> t in Tokens(text, 0);
    UnparseNamed(items);
  }

  /** The round trip: on an image of the items, VFS_Lookup from the root finds every path of
      the manifest, and a file found has the bytes of its host file.  A path outside the
      manifest is not found unless it runs into a file that holds an entry of its name. */
  lemma RoundTrip(image: Store, root: nat, items: seq<Item>, hi: nat, host: map<Str, seq<Byte>>, path: Str)
    requires Rep(image, root, Dir(items), hi) && Named(Dir(items)) && FromHost(items, host)
    requires IsStr(path) && path != [] && path[0] == SLASH
    ensures var m := LookupPath(image, root, path); var u := Resolve(Dir(items), Comps(path, 1));
      && (u.Some? ==> m.Some? && Rep(image, m.value, u.value, hi))
      && (u.None? && Clear(Dir(items), Comps(path, 1)) ==> m.None?)
      && (u.Some? && u.value.File? ==>
           && u.value.path in host && Size(image, m.value) == |host[u.value.path]| <= DIRECT * BSIZE
           && forall p :: 0 <= p < Size(image, m.value) ==> FileByte(image, m.value, p) == host[u.value.path][p])
  {
    hide Rep, Named, WalkPath, Resolve, Comps, Size, FileByte, FromHost, Clear;
    var u, m := Resolve(Dir(items), Comps(path, 1)), LookupPath(image, root, path);
    if u.Some? {
      TreeFound(image, root, Dir(items), hi, path, 1);
    } else if Clear(Dir(items), Comps(path, 1)) {
      WalkClear(image, root, Dir(items), hi, path, 1);
    }
    if u.Some? && u.value.File? {
      ResolveFromHost(Dir(items), Comps(path, 1), host);
      FileContent(image, m.value, u.value, hi);
    }
  }

  lemma PlacedAt(image: Store, pos: nat, owner: map<nat, Owner>, trees: map<nat, Tree>, n: nat)
    requires AllPlaced(image, pos, owner, trees) && n in trees
    ensures Placed(image, pos, owner, trees, n, trees[n])
  {}

  ghost predicate TreeFromHost(t: Tree, host: map<Str, seq<Byte>>) {
    match t
    case File(path, data) => path in host && host[path] == data
    case Dir(items) => FromHost(items, host)
  }

  lemma {:induction false} ResolveFromHost(t: Tree, comps: seq<Str>, host: map<Str, seq<Byte>>)
    requires TreeFromHost(t, host) && Resolve(t, comps).Some?
    ensures TreeFromHost(Resolve(t, comps).value, host)
    decreases |comps|
  {
    if comps != [] && t.Dir? {
      var e := FindItem(t.items, comps[0], 0);
      assert ItemFromHost(t.items[e.value], host);
      ResolveFromHost(t.items[e.value].tree, comps[1..], host);
    }
  }

  // ---------------------------------------------------------------- bitmap and superblock over the tree

  /** Blocks of nodes and files are as before. */
  ghost predicate TreesKept(image: Store, image': Store, owner: map<nat, Owner>) {
    forall off :: 0 <= off && off % BSIZE == 0 && off / BSIZE in owner ==>
      owner[off / BSIZE].Node? || owner[off / BSIZE].Data? ==> BlockAt(image', off) == BlockAt(image, off)
  }

  /** Rewriting superblock and bitmap moves no tree. */
  lemma {:induction false} TreeKept(image: Store, image': Store, pos: nat, owner: map<nat, Owner>,
          trees: map<nat, Tree>, n: nat)
    requires AllPlaced(image, pos, owner, trees) && TreesKept(image, image', owner) && n in trees
    ensures Placed(image', pos, owner, trees, n, trees[n])
    decreases trees[n]
  {
    hide NodePtr, NodeSize, BlockAt, Record, SlotObj, Held, Fixed;
    var t := trees[n];
    assert Placed(image, pos, owner, trees, n, t);
    assert BlockAt(image', n) == BlockAt(image, n);
    NodeKept(image, image', owner, n);
    match t
    case File(_, data) =>
      forall i | 0 <= i < DIRECT && i < Blocks(|data|)
        ensures BlockAt(image', Ptr(image', n, i)) == Pad(Chunk(data, i))
      {
        assert PtrOk(image, owner, n, i);
      }
    case Dir(items) =>
      assert PtrOk(image, owner, n, 0);
      assert DirBlock(image', n) == DirBlock(image, n);
      forall e | 0 <= e < |items|
        ensures Rep(image', ChildOff(image', n, e), items[e].tree, pos)
        ensures Has(trees, ChildOff(image', n, e), items[e].tree)
      {
        assert Has(trees, ChildOff(image, n, e), items[e].tree);
        TreeKept(image, image', pos, owner, trees, ChildOff(image, n, e));
      }
  }

  lemma FinishBuilt(built: Store, marked: Store, image: Store, pos: nat, nb: nat, owner: map<nat, Owner>,
          trees: map<nat, Tree>, sb: Block)
    requires Built(built, pos, nb, owner, trees) && Sized(marked) && built.Keys <= marked.Keys && |sb| == BSIZE
    requires image == marked[K(0) := sb]
    requires forall q :: 0 <= q && !InBitmap(q, nb) ==> BlockAt(marked, q) == BlockAt(built, q)
    requires forall blk :: 0 <= blk < nb * BITS ==> (Used(marked, blk) <==> blk < pos / BSIZE)
    ensures BlockAt(image, 0) == sb && FsOk(image, nb, owner, trees.Keys)
    ensures forall blk :: 0 <= blk < nb * BITS ==> (Used(image, blk) <==> blk in owner)
    ensures AllPlaced(image, pos, owner, trees)
  {
    BlockPut(marked, 0, sb, 0);
    forall blk | 0 <= blk < nb * BITS ensures Used(image, blk) == Used(marked, blk) {
      BlockPut(marked, 0, sb, BitmapOff(blk / BITS));
    }
    TreesUntouched(built, marked, image, nb, owner, sb);
    assert Held(image, owner) by { FinishHeld(built, image, owner); }
    hide Rep, NodeOk, BlockAt, Used, Held, Fixed, Children;
    forall n | n in trees ensures Placed(image, pos, owner, trees, n, trees[n]) {
      TreeKept(built, image, pos, owner, trees, n);
    }
  }

  lemma FinishHeld(built: Store, image: Store, owner: map<nat, Owner>)
    requires Held(built, owner) && Sized(image) && built.Keys <= image.Keys
    ensures Held(image, owner)
  {
    forall blk | blk in owner ensures InStore(image, blk * BSIZE) {
      assert InStore(built, blk * BSIZE);
    }
  }

  lemma TreesUntouched(built: Store, marked: Store, image: Store, nb: nat, owner: map<nat, Owner>, sb: Block)
    requires Fixed(nb, owner) && |sb| == BSIZE && image == marked[K(0) := sb]
    requires forall q :: 0 <= q && !InBitmap(q, nb) ==> BlockAt(marked, q) == BlockAt(built, q)
    ensures TreesKept(built, image, owner)
  {
    hide BlockAt;
    forall off | 0 <= off && off % BSIZE == 0 && off / BSIZE in owner &&
      (owner[off / BSIZE].Node? || owner[off / BSIZE].Data?)
      ensures BlockAt(image, off) == BlockAt(built, off)
    {
      BlockPut(marked, 0, sb, off);
      assert !InBitmap(off, nb);
    }
  }

  lemma FinishTree(image: Store, pos: nat, owner: map<nat, Owner>, trees: map<nat, Tree>, root: nat, items: seq<Item>)
    requires AllPlaced(image, pos, owner, trees) && Added(map[], trees, root, Dir(items))
    ensures Has(trees, root, Dir(items))
    ensures Linked(image, trees.Keys) <==> Leads(Dir(items), trees.Keys)
  {
    hide AllPlaced, Linked, Leads;
    var nodes := trees.Keys;
    assert AllLead(map[], nodes);
    if Leads(Dir(items), nodes) {
      BuiltLinked(image, pos, owner, trees);
    }
    if Linked(image, nodes) {
      LinkedLeads(image, pos, owner, trees, root);
    }
  }

  /** Directories lead to recorded nodes, so only files matter. */
  lemma BuiltLinked(image: Store, pos: nat, owner: map<nat, Owner>, trees: map<nat, Tree>)
    requires AllPlaced(image, pos, owner, trees) && AllLead(trees, trees.Keys)
    ensures Linked(image, trees.Keys)
  {
    hide NodeOk, Rep, Children, BlockAt, FileBlocks, LookupIn, DataBlocks, EntriesLead;
    forall n | n in trees.Keys ensures EntriesLead(FileBlocks(image, n), trees.Keys) {
      assert Placed(image, pos, owner, trees, n, trees[n]);
      if trees[n].File? {
        RepFileBlocks(image, n, trees[n], pos);
      } else {
        DirLeads(image, n, trees[n].items, trees, pos);
      }
    }
  }

  lemma DirLeads(image: Store, n: nat, items: seq<Item>, trees: map<nat, Tree>, hi: nat)
    requires Rep(image, n, Dir(items), hi) && Children(image, n, Dir(items), trees)
    ensures EntriesLead(FileBlocks(image, n), trees.Keys)
  {
    hide Rep, Children, BlockAt, FileBlocks, LookupIn;
    forall name | Component(name) && DirLookup(image, n, name).Some?
      ensures DirLookup(image, n, name).value in trees.Keys
    {
      var e := LookupSlot(image, n, items, hi, name);
      ChildIn(image, n, items, trees, e);
    }
  }

  /** Every file of the tree is recorded. */
  lemma {:induction false} LinkedLeads(image: Store, pos: nat, owner: map<nat, Owner>, trees: map<nat, Tree>, n: nat)
    requires AllPlaced(image, pos, owner, trees) && Linked(image, trees.Keys) && n in trees
    ensures Leads(trees[n], trees.Keys)
    decreases trees[n]
  {
    hide NodeOk, Rep, Children, BlockAt, FileBlocks, LookupIn, DataBlocks, EntriesLead, ChildOff;
    var t := trees[n];
    assert Placed(image, pos, owner, trees, n, t);
    if t.File? {
      RepFileBlocks(image, n, t, pos);
    } else {
      RepSlots(image, n, t.items, pos);
      forall e | 0 <= e < |t.items| ensures Leads(t.items[e].tree, trees.Keys) {
        ChildIn(image, n, t.items, trees, e);
        LinkedLeads(image, pos, owner, trees, ChildOff(image, n, e));
      }
    }
  }

  lemma RepSlots(image: Store, n: nat, items: seq<Item>, hi: nat)
    requires Rep(image, n, Dir(items), hi)
    ensures |items| < SLOTS
  {}

  lemma ChildIn(image: Store, n: nat, items: seq<Item>, trees: map<nat, Tree>, e: nat)
    requires Children(image, n, Dir(items), trees) && e < |items| && e < SLOTS
    ensures Has(trees, ChildOff(image, n, e), items[e].tree)
  {}

  /** Whatever name is found in a directory is found in the slot of an item. */
  lemma LookupSlot(image: Store, n: nat, items: seq<Item>, hi: nat, name: Str) returns (e: nat)
    requires Rep(image, n, Dir(items), hi) && DirLookup(image, n, name).Some?
    ensures e < |items| < SLOTS && DirLookup(image, n, name) == Some(ChildOff(image, n, e))
  {
    hide BlockAt, NodePtr, NodeSize, Record, SlotObj, SlotIs;
    var b := DirBlock(image, n);
    RepDirBlocks(image, n, items, hi);
    assert items != [] ==> LookupIn([b], name, 1) == None;
    FindSlotFacts(b, name, 0);
    e := FindSlot(b, name, 0).value;
    assert e < |items| by {
      if e >= |items| {
        ZeroIsNoMagic(b, ENTRY_SIZE * e);
        SlotMagic(b, e, name);
      }
    }
  }

  lemma SlotMagic(b: Block, e: nat, name: Str)
    requires |b| == BSIZE && SlotIs(b, e, name)
    ensures StrAt(b, ENTRY_SIZE * e, BDIR_MAGIC)
  {}

  lemma MarkedUpTo(image: Store, blk: nat, off: nat, bits: Block)
    requires |bits| == BSIZE && off < BSIZE && forall k :: 0 <= k < BITS ==> (Marks(bits, k) <==> k < off)
    requires BlockAt(image, BitmapOff(blk / BITS)) == if blk / BITS == 0 then bits else ZeroBlock()
    ensures Used(image, blk) <==> blk < off
  {
    if blk / BITS == 0 {
      assert Marks(bits, blk) == Used(image, blk);
    } else {
      BitZero(blk % 8);
    }
  }

  predicate Marks(bits: Block, k: nat)
    requires |bits| == BSIZE && k < BITS
  {
    Bit(bits[k / 8], k % 8)
  }

  lemma {:induction false} BitZero(i: nat)
    ensures !Bit(0, i)
  {
    if i > 0 {
      BitZero(i - 1);
    }
  }

  lemma BitFull(i: nat)
    requires i < 8
    ensures Bit(0xFF, i)
  {
    assert Bit(1, 0) && Bit(3, 1) && Bit(7, 2) && Bit(15, 3);
    assert Bit(31, 4) && Bit(63, 5) && Bit(127, 6) && Bit(255, 7);
  }

  /** The first off bits, eight at a time and then one by one. */
  method MarkUpTo(off: nat) returns (bits: Block)
    requires off < BSIZE
    ensures |bits| == BSIZE && forall k :: 0 <= k < BITS ==> (Marks(bits, k) <==> k < off)
  {
    hide Bit, SetBit;
    bits := ZeroBlock();
    var i := 0;
    while i < off / 8
      invariant i <= off / 8 && |bits| == BSIZE
      invariant forall j :: 0 <= j < BSIZE ==> bits[j] == if j < i then 0xFF else 0
    {
      bits := bits[i := 0xFF];
      i := i + 1;
    }
    forall k | 0 <= k < BITS ensures Marks(bits, k) <==> k < off / 8 * 8 {
      BitZero(k % 8);
      BitFull(k % 8);
    }
    i := 0;
    while i < off % 8
      invariant i <= off % 8 && |bits| == BSIZE
      invariant forall k :: 0 <= k < BITS ==> (Marks(bits, k) <==> k < off / 8 * 8 + i)
    {
      ghost var was := bits;
      bits := bits[off / 8 := SetBit(bits[off / 8], i)];
      forall k | 0 <= k < BITS ensures Marks(bits, k) <==> Marks(was, k) || k == off / 8 * 8 + i {
        BitOfSetBit(was[off / 8], i, k % 8);
      }
      i := i + 1;
    }
  }

  ghost predicate Added(trees: map<nat, Tree>, trees': map<nat, Tree>, n: nat, t: Tree) {
    && Has(trees', n, t) && Keeps(trees, trees')
    && Parts(trees, trees', t)
  }

  ghost predicate Keeps(trees: map<nat, Tree>, trees': map<nat, Tree>) {
    forall m :: m in trees ==> Has(trees', m, trees[m])
  }

  /** An item has been read off the front of the tokens. */
  ghost predicate Step(tokens: seq<Str>, host: map<Str, seq<Byte>>, item: Item, after: seq<Str>) {
    tokens == UnparseItem(item) + after && ItemFromHost(item, host) && ItemFits(item)
  }

  lemma StepUnique(tokens: seq<Str>, host: map<Str, seq<Byte>>, item: Item, after: seq<Str>, want: seq<Item>,
          rest: seq<Str>)
    requires Step(tokens, host, item, after) && Ahead(tokens, host, want, rest)
    ensures want != [] && item == want[0] && Ahead(after, host, want[1..], rest)
  {
    AheadNext(tokens, host, want, rest);
    assert tokens[0] != T_END;
    if item.tree.File? {
      assert tokens[..3] == [T_FILE, item.name, item.tree.path];
      assert tokens[3..] == after;
    } else {
      assert tokens[..2] == [T_DIR, item.name];
      assert tokens[2..] == Unparse(item.tree.items) + [T_END] + after;
      UnparseUnique(item.tree.items, want[0].tree.items, after, Unparse(want[1..]) + [T_END] + rest, host);
      TailFromHost(want, host);
    }
  }

  ghost predicate Parsed(tokens: seq<Str>, host: map<Str, seq<Byte>>, items: seq<Item>, ahead: seq<Str>) {
    && tokens == Unparse(items) + ahead
    && forall e :: 0 <= e < |items| ==> ItemFromHost(items[e], host) && ItemFits(items[e])
  }

  lemma ParsedStep(tokens: seq<Str>, host: map<Str, seq<Byte>>, items: seq<Item>, ahead: seq<Str>, item: Item,
          after: seq<Str>)
    requires Parsed(tokens, host, items, ahead) && Step(ahead, host, item, after)
    ensures Parsed(tokens, host, items + [item], after)
  {
    UnparseAppend(items, item);
  }

  lemma {:induction false} ParsedAll(tokens: seq<Str>, host: map<Str, seq<Byte>>, items: seq<Item>, after: seq<Str>)
    requires Parsed(tokens, host, items, [T_END] + after)
    ensures Ahead(tokens, host, items, after) && (|items| < SLOTS ==> Fits(items))
  {
    hide Unparse, ItemFromHost, ItemFits;
    assert Unparse(items) + ([T_END] + after) == Unparse(items) + [T_END] + after;
  }

  lemma NothingYet(tokens: seq<Str>, host: map<Str, seq<Byte>>, want: seq<Item>, rest: seq<Str>, trees: map<nat, Tree>)
    ensures Parsed(tokens, host, [], tokens) && Listed(trees, trees, [], [], []) && ItemsBlocks([]) == 0
    ensures want[0..] == want
  {}

  /** The entries so far, for items whose trees are recorded. */
  ghost predicate Listed(trees: map<nat, Tree>, trees': map<nat, Tree>, entries: seq<Byte>, items: seq<Item>,
          objs: seq<nat>) {
    && Records(entries, items, objs) && |objs| == |items| && Keeps(trees, trees')
    && (forall e :: 0 <= e < |items| ==> Has(trees', objs[e], items[e].tree))
    && Parts(trees, trees', Dir(items))
  }

  lemma ListedStep(trees: map<nat, Tree>, was: map<nat, Tree>, trees': map<nat, Tree>, entries: seq<Byte>,
          items: seq<Item>, objs: seq<nat>, item: Item, obj: nat, now: nat)
    requires Listed(trees, was, entries, items, objs) && Added(was, trees', obj, item.tree) && obj < U64
    requires |entries| == ENTRY_SIZE * |items|
    ensures Listed(trees, trees', entries + MakeEntry(item.name, obj, now), items + [item], objs + [obj])
  {
    hide MakeEntry, Record, Records;
    RecordsAppend(entries, items, objs, item, obj, now);
    assert |objs| == |items| by { RecordsSize(entries, items, objs); }
    PartsStep(trees, was, trees', items, item);
  }

  lemma PartsStep(trees: map<nat, Tree>, was: map<nat, Tree>, trees': map<nat, Tree>, items: seq<Item>, item: Item)
    requires Parts(trees, was, Dir(items)) && Parts(was, trees', item.tree)
    ensures Parts(trees, trees', Dir(items + [item]))
  {
    hide AllLead;
    var all := items + [item];
    forall nodes: set<nat> | AllLead(trees, nodes) && Leads(Dir(all), nodes) ensures AllLead(trees', nodes) {
      assert Leads(all[|items|].tree, nodes);
      assert forall e :: 0 <= e < |items| ==> all[e] == items[e];
    }
  }

  lemma RecordsSize(entries: seq<Byte>, items: seq<Item>, objs: seq<nat>)
    requires Records(entries, items, objs)
    ensures |objs| == |items|
  {}

  lemma DirItem(all: seq<Str>, host: map<Str, seq<Byte>>, name: Str, items: seq<Item>, ahead: seq<Str>, after: seq<Str>)
    requires Ahead(ahead, host, items, after) && (ahead != [] ==> all == [T_DIR, name] + ahead) && Fits(items)
    ensures Step(all, host, Item(name, Dir(items)), after)
  {}

  lemma PadWhole(b: Block)
    requires |b| == BSIZE
    ensures Pad(b) == b
  {
    assert Pad(b)[..BSIZE] == b;
  }

  lemma BuiltOwner(image: Store, pos: nat, nb: nat, owner: map<nat, Owner>, trees: map<nat, Tree>)
    requires Built(image, pos, nb, owner, trees)
    ensures pos / BSIZE !in owner && pos % BSIZE == 0 && pos >= BSIZE && Sized(image)
  {
    assert 0 in owner;
  }

  lemma FreshNode(image: Store, n: nat, nb: nat, owner: map<nat, Owner>, trees: map<nat, Tree>)
    requires Built(image, n, nb, owner, trees)
    ensures n !in trees
  {
    assert n in trees ==> Placed(image, n, owner, trees, n, trees[n]);
  }

  /** A directory's block and node have been appended. */
  lemma NewDirectory(image: Store, n: nat, image': Store, nb: nat, owner: map<nat, Owner>,
          owner': map<nat, Owner>, before: map<nat, Tree>, trees: map<nat, Tree>, items: seq<Item>,
          objs: seq<nat>, entries: seq<Byte>, off: nat)
    requires Built(image, n, nb, owner, trees) && Built(image', n + BSIZE, nb, owner', trees) && n == off + BSIZE <= U64
    requires |items| < SLOTS && |entries| == ENTRY_SIZE * |items| && Listed(before, trees, entries, items, objs)
    requires BlockAt(image, off) == Pad(entries) && Owns(owner, off, Data(n, 0))
    requires BlockAt(image', n) == Pad(Extended(NewNode(), 0, off, |entries|)) && Owns(owner', n, Node(n))
    requires n / BSIZE !in owner && owner' == owner[n / BSIZE := Node(n)] && BlockAt(image', off) == BlockAt(image, off)
    ensures Built(image', n + BSIZE, nb, owner', trees[n := Dir(items)])
    ensures Added(before, trees[n := Dir(items)], n, Dir(items))
  {
    hide Built, BlockAt, Extended, NewNode, Pad, Records, Leads, Rep, Placed;
    PadWhole(Extended(NewNode(), 0, off, |entries|));
    NotSuper(image, n, nb, owner, trees, off, n);
    forall e | 0 <= e < |items| ensures Rep(image', objs[e], items[e].tree, n + BSIZE) {
      HasBelow(image', n + BSIZE, nb, owner', trees, trees, objs[e], items[e].tree);
    }
    DirNode(image', owner', trees, items, objs, entries, Extended(NewNode(), 0, off, |entries|), off);
    FreshNode(image, n, nb, owner, trees);
    RecordBuilt(image', n + BSIZE, nb, owner', trees, n, Dir(items));
  }

  lemma NotSuper(image: Store, pos: nat, nb: nat, owner: map<nat, Owner>, trees: map<nat, Tree>, off: nat, n: nat)
    requires Built(image, pos, nb, owner, trees) && Owns(owner, off, Data(n, 0))
    ensures off > 0
  {}

  lemma HasBelow(image: Store, pos: nat, nb: nat, owner: map<nat, Owner>, was: map<nat, Tree>,
          trees: map<nat, Tree>, n: nat, t: Tree)
    requires Built(image, pos, nb, owner, trees) && (Has(trees, n, t) || Added(was, trees, n, t))
    ensures n < pos && Rep(image, n, t, pos)
  {
    assert Placed(image, pos, owner, trees, n, trees[n]);
  }
}
