/** Whole runs on a mounted O2FS volume: paths are opened, files read and written
    (VFS_Lookup in sys/kern/vfs.c, O2FS_Read and O2FS_Write in sys/fs/o2fs/o2fs.c). */
module Sessions {
  import opened Common
  import opened BufferCache
  import opened O2fsLayout
  import opened O2fsSpec
  import opened O2fsFiles
  import O2fs
  import Vfs
  import opened Manifest
  import opened Image
  import Newfs
  import EndToEnd

  // ---------------------------------------------------------------- when a write keeps the links

  /** The blocks file n has after a write that stores the first done bytes of buf. */
  function WriteView(store: Store, nb: nat, n: nat, buf: seq<Byte>, off: nat, done: nat): (bs: seq<Block>)
    requires done <= |buf| && off + |buf| <= DIRECT * BSIZE && Size(store, n) <= DIRECT * BSIZE
    ensures forall i :: 0 <= i < |bs| ==> |bs[i]| == BSIZE
  {
    var end := Blocks(NewSize(store, n, |buf|, off));
    seq(end, j requires 0 <= j < end =>
      Patch(BlockAt(store, if j < FirstNew(store, n) then Ptr(store, n, j) else NewPtr(store, nb, n, j)),
        buf[..done], off, j))
  }

  lemma ViewIs(store: Store, store': Store, nb: nat, nodes: set<nat>, n: nat, buf: seq<Byte>, off: nat, done: nat)
    requires done <= |buf| && off + |buf| <= DIRECT * BSIZE && Size(store, n) <= DIRECT * BSIZE
    requires Wrote(store, store', nb, nodes, n, buf, off, done)
    ensures FileBlocks(store', n) == WriteView(store, nb, n, buf, off, done)
  {
    hide BlockAt, NodePtr, NodeSize, Patch, NewPtr, TookFirst, Needed;
    var end := Blocks(NewSize(store, n, |buf|, off));
    assert end <= DIRECT;
    var view := WriteView(store, nb, n, buf, off, done);
    forall j | 0 <= j < end ensures FileBlocks(store', n)[j] == view[j] {
      assert FileBlocks(store', n)[j] == FileBlock(store', n, j);
    }
  }

  /** A write keeps all entries leading to nodes exactly if those it leaves in its own file
      do.  This depends on the disk before the write and on the bytes written. */
  lemma KeepsLinkedIff(store: Store, store': Store, nb: nat, nodes: set<nat>, n: nat, buf: seq<Byte>, off: nat,
          done: nat)
    requires done <= |buf| && off + |buf| <= DIRECT * BSIZE && Size(store, n) <= DIRECT * BSIZE
    requires Linked(store, nodes) && n in nodes && Wrote(store, store', nb, nodes, n, buf, off, done)
    ensures Linked(store', nodes) <==> EntriesLead(WriteView(store, nb, n, buf, off, done), nodes)
  {
    hide BlockAt, FileBlocks, WriteView, EntriesLead, TookFirst, Patch;
    ViewIs(store, store', nb, nodes, n, buf, off, done);
  }

  lemma SameFilesLinked(store: Store, store': Store, nodes: set<nat>)
    requires SameFiles(store, store', nodes)
    ensures Linked(store', nodes) <==> Linked(store, nodes)
  {
    hide BlockAt, FileBlocks, EntriesLead;
  }

  /** Two writes to plain files that break it: the header of a node to one, an entry for that
      block to the other.  The lookup then opens the block although it is no node but belongs
      to a file. */
  lemma Forging(store: Store, mid: Store, store': Store, nb: nat, owner: map<nat, Owner>, nodes: set<nat>,
          f: nat, g: nat, node: Block, name: Str, now: nat)
    requires FsOk(mid, nb, owner, nodes) && f in nodes && g in nodes && f != g
    requires Size(store, g) <= DIRECT * BSIZE && Size(mid, f) <= DIRECT * BSIZE
    requires |node| == BSIZE && IsNode(node) && Component(name) && |name| <= MAXNAMELEN
    requires Wrote(store, mid, nb, nodes, g, node, 0, BSIZE)
    requires Wrote(mid, store', nb, nodes, f, MakeEntry(name, Ptr(mid, g, 0), now), 0, ENTRY_SIZE)
    ensures var obj := Ptr(mid, g, 0);
      && Owns(owner, obj, Data(g, 0)) && obj !in nodes
      && OpenLookup(store', f, name) == Some(obj) && !Linked(store', nodes)
  {
    var obj := Ptr(mid, g, 0);
    hide BlockAt, NodePtr, NodeSize, IsNode, MakeEntry, TookFirst, NewPtr, LookupIn, Patch, NodeOk;
    ForgedNode(store, mid, nb, owner, nodes, g, node);
    FirstBlockKept(mid, store', nb, nodes, f, MakeEntry(name, obj, now), g);
    hide Wrote, FileBlocks, FsOk, Linked;
    ForgedEntry(mid, store', nb, nodes, f, name, obj, now);
  }

  lemma FirstBlockKept(store: Store, store': Store, nb: nat, nodes: set<nat>, f: nat, buf: seq<Byte>, g: nat)
    requires |buf| <= DIRECT * BSIZE && Size(store, f) <= DIRECT * BSIZE
    requires Wrote(store, store', nb, nodes, f, buf, 0, |buf|)
    requires g in nodes && g != f && Size(store, g) > 0
    ensures Ptr(store', g, 0) == Ptr(store, g, 0)
    ensures BlockAt(store', Ptr(store, g, 0)) == BlockAt(store, Ptr(store, g, 0))
  {
    hide BlockAt, NodePtr, NodeSize, TookFirst, NewPtr, Patch, Needed;
    assert FileBlocks(store', g)[0] == FileBlock(store', g, 0);
    assert FileBlocks(store, g)[0] == FileBlock(store, g, 0);
  }

  lemma ForgedNode(store: Store, mid: Store, nb: nat, owner: map<nat, Owner>, nodes: set<nat>, g: nat, node: Block)
    requires FsOk(mid, nb, owner, nodes) && g in nodes && Size(store, g) <= DIRECT * BSIZE && |node| == BSIZE
    requires Wrote(store, mid, nb, nodes, g, node, 0, BSIZE)
    ensures var obj := Ptr(mid, g, 0);
      Owns(owner, obj, Data(g, 0)) && obj !in nodes && BlockAt(mid, obj) == node && Size(mid, g) > 0
  {
    hide BlockAt, NodePtr, NodeSize, IsNode, TookFirst, NewPtr, Patch;
    var obj := Ptr(mid, g, 0);
    assert NodeOk(mid, owner, g) && PtrOk(mid, owner, g, 0);
    assert forall m :: m in nodes ==> Owns(owner, m, Node(m));
    assert FileBlock(mid, g, 0) == Patch(BlockAt(store, obj), node[..BSIZE], 0, 0);
    PatchWhole(BlockAt(store, obj), node);
  }

  lemma PatchWhole(b: Block, data: Block)
    requires |b| == BSIZE && |data| == BSIZE
    ensures Patch(b, data[..BSIZE], 0, 0) == data
  {}

  lemma ForgedEntry(store: Store, store': Store, nb: nat, nodes: set<nat>, f: nat, name: Str, obj: nat, now: nat)
    requires f in nodes && Size(store, f) <= DIRECT * BSIZE && obj < U64 && |name| <= MAXNAMELEN && Component(name)
    requires Wrote(store, store', nb, nodes, f, MakeEntry(name, obj, now), 0, ENTRY_SIZE)
    ensures DirLookup(store', f, name) == Some(obj) && (obj !in nodes ==> !Linked(store', nodes))
  {
    hide BlockAt, NodePtr, NodeSize, MakeEntry, TookFirst, NewPtr;
    var data := MakeEntry(name, obj, now);
    var b := FileBlock(store', f, 0);
    assert FileBlocks(store', f)[0] == b;
    var was := BlockAt(store, Ptr(store', f, 0));
    assert b == Patch(was, data[..ENTRY_SIZE], 0, 0);
    assert b[0..ENTRY_SIZE] == data == data[0..ENTRY_SIZE];
    MakeEntryRecord(name, obj, now);
    RecordMoved(data, 0, b, 0, name, obj);
    assert FindSlot(b, name, 0) == Some(0);
    hide FileBlocks, FileBlock, Patch;
    assert LookupIn(FileBlocks(store', f), name, 0) == Some(obj);
  }

  // ---------------------------------------------------------------- runs

  /** What a call did: a path looked up (unless all buffers were pinned), a file read, or
      written as far as done. */
  datatype Event =
    | Opened(path: Str, found: Option<nat>, busy: bool)
    | Got(node: nat, off: nat, len: nat, data: Option<seq<Byte>>)
    | Put(node: nat, buf: seq<Byte>, off: nat, status: Result, done: nat)

  /** The file was written, in part if the buffers ran out. */
  predicate Stores(ev: Event) {
    ev.Put? && (ev.status == Success || ev.status == NoMem)
  }

  ghost predicate InRange(d: Store, ev: Event)
    requires ev.Put?
  {
    ev.done <= |ev.buf| && ev.off + |ev.buf| <= DIRECT * BSIZE && Size(d, ev.node) <= DIRECT * BSIZE
  }

  /** One call, as its contract describes it. */
  ghost predicate Does(d: Store, ev: Event, d': Store, nb: nat, nodes: set<nat>, root: nat) {
    match ev
    case Opened(path, found, busy) => d' == d && found == if busy then None else Vfs.LookupPath(d, root, path)
    case Got(n, off, len, data) => d' == d && n in nodes && (data.Some? ==> IsSlice(d, n, off, len, data.value))
    case Put(n, buf, off, status, done) =>
      && n in nodes && Extended(d, d', nb, nodes, n)
      && if Stores(ev) then InRange(d, ev) && Wrote(d, d', nb, nodes, n, buf, off, done)
         else SameFiles(d, d', nodes)
  }

  /** The entries a write leaves in its file lead to nodes. */
  ghost predicate Honest(d: Store, ev: Event, nb: nat, nodes: set<nat>) {
    Stores(ev) && InRange(d, ev) ==>
      EntriesLead(WriteView(d, nb, ev.node, ev.buf, ev.off, ev.done), nodes)
  }

  ghost predicate Trace(disks: seq<Store>, log: seq<Event>, nb: nat, nodes: set<nat>, root: nat) {
    && |disks| == |log| + 1 && root in nodes
    && forall i :: 0 <= i < |log| ==> Does(disks[i], log[i], disks[i + 1], nb, nodes, root)
  }

  ghost predicate AllHonest(disks: seq<Store>, log: seq<Event>, nb: nat, nodes: set<nat>)
    requires |disks| == |log| + 1
  {
    forall i :: 0 <= i < |log| ==> Honest(disks[i], log[i], nb, nodes)
  }

  /** Throughout a run no block has two owners, and blocks keep their owners.  This follows from
      what the calls do to the blocks of the disk. */
  lemma {:induction false} RunOwners(disks: seq<Store>, log: seq<Event>, nb: nat, nodes: set<nat>, root: nat,
          owner: map<nat, Owner>)
    returns (owners: seq<map<nat, Owner>>)
    requires Trace(disks, log, nb, nodes, root) && FsOk(disks[0], nb, owner, nodes)
    ensures |owners| == |disks| && owners[0] == owner
    ensures forall i :: 0 <= i < |disks| ==> FsOk(disks[i], nb, owners[i], nodes)
    ensures forall i, j :: 0 <= i <= j < |disks| ==> OwnerGrows(owners[i], owners[j])
  {
    hide FsOk, Does;
    owners := [owner];
    while |owners| < |disks|
      invariant 1 <= |owners| <= |disks| && owners[0] == owner
      invariant forall i :: 0 <= i < |owners| ==> FsOk(disks[i], nb, owners[i], nodes)
      invariant forall i, j :: 0 <= i <= j < |owners| ==> OwnerGrows(owners[i], owners[j])
    {
      var k := |owners| - 1;
      var next := StepOwners(disks[k], log[k], disks[k + 1], nb, nodes, root, owners[k]);
      forall i | 0 <= i <= k ensures OwnerGrows(owners[i], next) {
        assert OwnerGrows(owners[i], owners[k]);
      }
      owners := owners + [next];
    }
  }

  lemma StepOwners(d: Store, ev: Event, d': Store, nb: nat, nodes: set<nat>, root: nat, owner: map<nat, Owner>)
    returns (owner': map<nat, Owner>)
    requires Does(d, ev, d', nb, nodes, root) && FsOk(d, nb, owner, nodes)
    ensures FsOk(d', nb, owner', nodes) && OwnerGrows(owner, owner')
  {
    hide FsOk, Grew, Wrote, SameFiles, IsSlice, GrownOwner, Vfs.LookupPath;
    owner' := owner;
    if ev.Put? {
      var i, k :| 0 <= i <= DIRECT && 0 <= k && Grew(d, d', nb, nodes, ev.node, i, k);
      owner' := GrownOwner(owner, d, nb, ev.node, i);
      GrewOwners(d, d', nb, owner, nodes, ev.node, i, k);
    }
  }

  /** Entries lead to nodes throughout a run exactly if every write is honest. */
  lemma {:induction false} RunLinkedIff(disks: seq<Store>, log: seq<Event>, nb: nat, nodes: set<nat>, root: nat)
    requires Trace(disks, log, nb, nodes, root) && Linked(disks[0], nodes)
    ensures (forall i :: 0 <= i < |disks| ==> Linked(disks[i], nodes)) <==> AllHonest(disks, log, nb, nodes)
  {
    hide FsOk, Wrote, SameFiles, Linked, Does, Honest;
    if AllHonest(disks, log, nb, nodes) {
      forall i | 0 <= i < |disks| ensures Linked(disks[i], nodes) {
        RunLinked(disks, log, nb, nodes, root, i);
      }
    }
    if forall i :: 0 <= i < |disks| ==> Linked(disks[i], nodes) {
      forall i | 0 <= i < |log| ensures Honest(disks[i], log[i], nb, nodes) {
        StepLinkedIff(disks[i], log[i], disks[i + 1], nb, nodes, root);
      }
    }
  }

  lemma {:induction false} RunLinked(disks: seq<Store>, log: seq<Event>, nb: nat, nodes: set<nat>, root: nat, i: nat)
    requires Trace(disks, log, nb, nodes, root) && Linked(disks[0], nodes) && AllHonest(disks, log, nb, nodes)
    requires i <= |log|
    ensures Linked(disks[i], nodes)
  {
    hide FsOk, Linked, Does, Honest;
    if i > 0 {
      RunLinked(disks, log, nb, nodes, root, i - 1);
      StepLinkedIff(disks[i - 1], log[i - 1], disks[i], nb, nodes, root);
    }
  }

  lemma StepLinkedIff(d: Store, ev: Event, d': Store, nb: nat, nodes: set<nat>, root: nat)
    requires Does(d, ev, d', nb, nodes, root) && Linked(d, nodes)
    ensures Linked(d', nodes) <==> Honest(d, ev, nb, nodes)
  {
    hide FsOk, Wrote, SameFiles, Linked, EntriesLead, WriteView, IsSlice, Vfs.LookupPath;
    if Stores(ev) {
      KeepsLinkedIff(d, d', nb, nodes, ev.node, ev.buf, ev.off, ev.done);
    } else if ev.Put? {
      SameFilesLinked(d, d', nodes);
    }
  }

  /** On a volume whose entries lead to nodes the path walk stays among them. */
  lemma {:induction false} LinkedWalk(store: Store, nodes: set<nat>, n: nat, path: Str, start: nat)
    requires Linked(store, nodes) && n in nodes && start <= |path| && IsStr(path)
    ensures Vfs.Followed(store, nodes, n, path, start)
    ensures Vfs.WalkPath(store, n, path, start).Some? ==> Vfs.WalkPath(store, n, path, start).value in nodes
    decreases |path| - start
  {
    hide BlockAt, FileBlocks, LookupIn, IsNode, Vfs.Followed, Vfs.WalkPath, Vfs.CompEnd;
    var end := Vfs.CompEnd(path, start);
    Vfs.FollowedUnfold(store, nodes, n, path, start, end);
    WalkUnfold(store, n, path, start, end);
    if start < end && end - start <= 256 {
      var name := path[start..end];
      assert Component(name);
      assert EntriesLead(FileBlocks(store, n), nodes);
      var m := OpenLookup(store, n, name);
      if m.Some? && end < |path| {
        LinkedWalk(store, nodes, m.value, path, end + 1);
      }
    }
  }

  /** Throughout a run of honest writes, opening a path opens a node. */
  lemma RunOpens(disks: seq<Store>, log: seq<Event>, nb: nat, nodes: set<nat>, root: nat, i: nat)
    requires Trace(disks, log, nb, nodes, root) && Linked(disks[0], nodes) && AllHonest(disks, log, nb, nodes)
    requires i < |log| && log[i].Opened? && log[i].found.Some? && IsStr(log[i].path)
    ensures log[i].found.value in nodes
  {
    hide FsOk, Wrote, SameFiles, Linked, Honest, Vfs.WalkPath, IsSlice;
    RunLinkedIff(disks, log, nb, nodes, root);
    assert Does(disks[i], log[i], disks[i + 1], nb, nodes, root);
    LinkedWalk(disks[i], nodes, root, log[i].path, 1);
  }

  // ---------------------------------------------------------------- the files of a run

  /** The bytes of a file. */
  ghost function Contents(store: Store, n: nat): seq<Byte>
    requires Size(store, n) <= DIRECT * BSIZE
  {
    seq(Size(store, n), p requires 0 <= p < Size(store, n) => FileByte(store, n, p))
  }

  /** The bytes of every file. */
  ghost function Files(store: Store, nodes: set<nat>): map<nat, seq<Byte>>
    requires forall n :: n in nodes ==> Size(store, n) <= DIRECT * BSIZE
  {
    map n | n in nodes :: Contents(store, n)
  }

  /** A file system without blocks: files are byte strings.  A write past the end leaves a gap
      of arbitrary bytes. */
  ghost predicate Spec(files: map<nat, seq<Byte>>, ev: Event, files': map<nat, seq<Byte>>) {
    match ev
    case Opened(_, _, _) => files' == files
    case Got(n, off, len, data) =>
      && files' == files && n in files
      && (data.Some? ==> data.value == Slice(files[n], off, len))
    case Put(n, buf, off, _, done) =>
      if !Stores(ev) then files' == files
      else
        && files'.Keys == files.Keys && n in files && done <= |buf|
        && (forall m :: m in files && m != n ==> files'[m] == files[m])
        && |files'[n]| == (if |files[n]| < off + |buf| then off + |buf| else |files[n]|)
        && files'[n][off..off + done] == buf[..done]
        && (forall p :: 0 <= p < |files[n]| && !(off <= p < off + done) ==> files'[n][p] == files[n][p])
  }

  /** At most len bytes from off on. */
  function Slice(s: seq<Byte>, off: nat, len: nat): seq<Byte> {
    if off > |s| then [] else if off + len > |s| then s[off..] else s[off..off + len]
  }

  lemma Bounded(store: Store, nb: nat, owner: map<nat, Owner>, nodes: set<nat>)
    requires FsOk(store, nb, owner, nodes)
    ensures forall n :: n in nodes ==> Size(store, n) <= DIRECT * BSIZE
  {
    assert forall n :: n in nodes ==> NodeOk(store, owner, n);
  }

  /** Every call of a run does to the files what the file system without blocks does. */
  lemma StepRefines(d: Store, ev: Event, d': Store, nb: nat, nodes: set<nat>, root: nat, owner: map<nat, Owner>)
    requires FsOk(d, nb, owner, nodes)
    requires Does(d, ev, d', nb, nodes, root)
    ensures (forall n :: n in nodes ==> Size(d, n) <= DIRECT * BSIZE && Size(d', n) <= DIRECT * BSIZE)
    ensures Spec(Files(d, nodes), ev, Files(d', nodes))
  {
    hide FsOk, Wrote, SameFiles, FileByte, Size, Vfs.LookupPath;
    var owner' := StepOwners(d, ev, d', nb, nodes, root, owner);
    Bounded(d, nb, owner, nodes);
    Bounded(d', nb, owner', nodes);
    if Stores(ev) {
      WroteBytes(d, d', nb, owner, nodes, ev.node, ev.buf, ev.off, ev.done);
      WriteRefines(d, d', nodes, ev);
    } else if ev.Put? {
      forall m | m in nodes ensures Contents(d', m) == Contents(d, m) {
        SameContents(d, d', nodes, m);
      }
    } else if ev.Got? && ev.data.Some? {
      ReadRefines(d, ev.node, ev.off, ev.len, ev.data.value);
    }
  }

  lemma SameContents(store: Store, store': Store, nodes: set<nat>, m: nat)
    requires SameFiles(store, store', nodes) && m in nodes && Size(store, m) <= DIRECT * BSIZE
    ensures Size(store', m) == Size(store, m) && Contents(store', m) == Contents(store, m)
  {
    hide FileByte, FileBlocks, NodeSize, BlockAt;
    forall p | 0 <= p < Size(store, m) ensures FileByte(store', m, p) == FileByte(store, m, p) {
      SameFilesBytes(store, store', nodes, m, p);
    }
  }

  lemma ReadRefines(store: Store, n: nat, off: nat, len: nat, data: seq<Byte>)
    requires IsSlice(store, n, off, len, data) && Size(store, n) <= DIRECT * BSIZE
    ensures data == Slice(Contents(store, n), off, len)
  {
    hide FileByte, Size;
    var want := Slice(Contents(store, n), off, len);
    assert |data| == |want|;
    forall k | 0 <= k < |data| ensures data[k] == want[k] {
      assert data[off + k - off] == FileByte(store, n, off + k);
    }
  }

  lemma WriteRefines(store: Store, store': Store, nodes: set<nat>, ev: Event)
    requires Stores(ev) && ev.node in nodes && ev.done <= |ev.buf| && ev.off + |ev.buf| <= DIRECT * BSIZE
    requires forall n :: n in nodes ==> Size(store, n) <= DIRECT * BSIZE && Size(store', n) <= DIRECT * BSIZE
    requires Written(store, store', nodes, ev.node, ev.buf, ev.off, ev.done)
    ensures Spec(Files(store, nodes), ev, Files(store', nodes))
  {
    hide FileByte, Size;
    var n, files, files' := ev.node, Files(store, nodes), Files(store', nodes);
    forall m | m in nodes && m != n ensures files'[m] == files[m] {
      assert |files'[m]| == |files[m]|;
    }
    assert files'[n][ev.off..ev.off + ev.done] == ev.buf[..ev.done];
  }

  /** Files no write names stay as they are. */
  lemma {:induction false} RunFrame(disks: seq<Store>, log: seq<Event>, nb: nat, nodes: set<nat>, root: nat,
          m: nat, i: nat)
    requires Trace(disks, log, nb, nodes, root) && m in nodes && i <= |log|
    requires forall j :: 0 <= j < i ==> !(Stores(log[j]) && log[j].node == m)
    ensures Size(disks[i], m) == Size(disks[0], m)
    ensures FileBlocks(disks[i], m) == FileBlocks(disks[0], m)
  {
    hide FsOk, FileBlocks, BlockAt, NodeSize, TookFirst, Patch, NewPtr, IsSlice;
    if i > 0 {
      RunFrame(disks, log, nb, nodes, root, m, i - 1);
      assert Does(disks[i - 1], log[i - 1], disks[i], nb, nodes, root);
    }
  }

  // ---------------------------------------------------------------- the mounted volume

  /** A mounted volume with the run so far. */
  class Session {
    const fs: O2fs.O2fs
    const rootEnt: nat
    const root: nat
    ghost var disks: seq<Store>
    ghost var log: seq<Event>

    ghost predicate Valid()
      reads this, fs, fs.cache
    {
      && fs.Valid() && fs.Open(rootEnt, root) && Trace(disks, log, |fs.bitmap|, fs.nodes, root)
      && disks[|log|] == fs.cache.Store()
    }

    /** Entries led to nodes at the start, and every write since was honest. */
    ghost predicate Sound()
      reads this, fs
      requires |disks| == |log| + 1
    {
      Linked(disks[0], fs.nodes) && AllHonest(disks, log, |fs.bitmap|, fs.nodes)
    }

    constructor (fs: O2fs.O2fs, ent: nat, root: nat)
      requires fs.Valid() && fs.Open(ent, root)
      ensures Valid() && this.fs == fs && this.root == root && log == [] && disks == [fs.cache.Store()]
    {
      this.fs, rootEnt, this.root := fs, ent, root;
      disks, log := [fs.cache.Store()], [];
    }

    /** Record a call. */
    ghost method Record(ev: Event)
      requires fs.Valid() && fs.Open(rootEnt, root) && Trace(disks, log, |fs.bitmap|, fs.nodes, root)
      requires Does(disks[|log|], ev, fs.cache.Store(), |fs.bitmap|, fs.nodes, root)
      modifies this
      ensures Valid() && log == old(log) + [ev] && disks == old(disks) + [fs.cache.Store()]
      ensures Sound() <==> old(Sound()) && Honest(old(disks)[|old(log)|], ev, |fs.bitmap|, fs.nodes)
    {
      hide FsOk, Does, Honest, Linked;
      ghost var disks0, log0 := disks, log;
      disks, log := disks + [fs.cache.Store()], log + [ev];
      assert log[..|log0|] == log0 && disks[..|disks0|] == disks0;
      assert log[|log0|] == ev && disks[|log0|] == disks0[|log0|];
    }

    /** VFS_Lookup. */
    method OpenPath(path: Str) returns (r: O2fs.LookupResult)
      requires Valid() && Sound() && IsStr(path)
      modifies this, fs.cache
      ensures Valid() && Sound() && O2fs.PinsKept(old(fs.cache.entries), fs.cache.entries)
      ensures log == old(log) + [Opened(path, if r.Found? then Some(r.node) else None, r.Busy?)]
      ensures r.Found? ==> fs.Open(r.ent, r.node)
    {
      hide FsOk, Linked, Honest, Vfs.WalkPath, Vfs.Followed, AllHonest;
      ghost var at := |log|;
      RunLinkedIff(disks, log, |fs.bitmap|, fs.nodes, root);
      if path != [] && path[0] == SLASH {
        LinkedWalk(fs.cache.Store(), fs.nodes, root, path, 1);
      }
      r := Vfs.Lookup(fs, rootEnt, root, path);
      ghost var ev := Opened(path, if r.Found? then Some(r.node) else None, r.Busy?);
      assert Honest(disks[at], ev, |fs.bitmap|, fs.nodes) by { OnlyWrites(disks[at], ev, |fs.bitmap|, fs.nodes); }
      Record(ev);
    }

    /** O2FS_Read. */
    method ReadFile(ent: nat, n: nat, off: nat, len: nat) returns (r: Option<seq<Byte>>)
      requires Valid() && fs.Open(ent, n) && off < U64 && len < U64
      modifies this, fs.cache
      ensures Valid() && (Sound() <==> old(Sound())) && O2fs.PinsKept(old(fs.cache.entries), fs.cache.entries)
      ensures log == old(log) + [Got(n, off, len, r)] && (r.None? ==> fs.cache.lru == [] || off + len >= U64)
    {
      hide FsOk, Linked, Honest, AllHonest, IsSlice;
      ghost var at := |log|;
      var status, data := fs.Read(ent, n, off, len);
      r := if status == Success then Some(data) else None;
      ghost var ev := Got(n, off, len, r);
      assert Honest(disks[at], ev, |fs.bitmap|, fs.nodes) by { OnlyWrites(disks[at], ev, |fs.bitmap|, fs.nodes); }
      Record(ev);
    }

    /** O2FS_Write.  A Wild one, which leaves the pointers of the node, ends what is known of
        the volume. */
    method WriteFile(ent: nat, n: nat, buf: seq<Byte>, off: nat) returns (status: Result, ghost done: nat)
      requires Valid() && fs.Open(ent, n) && off < U64 && |buf| < U64
      modifies this, fs`owner, fs.cache
      ensures status == Wild ==> off + |buf| >= U64
      ensures status != Wild ==>
        && Valid() && fs.Open(ent, n) && O2fs.PinsKept(old(fs.cache.entries), fs.cache.entries)
        && log == old(log) + [Put(n, buf, off, status, done)] && (status == Success ==> done == |buf|)
        && (Sound() <==>
             old(Sound()) && Honest(old(fs.cache.Store()), Put(n, buf, off, status, done), |fs.bitmap|, fs.nodes))
    {
      hide FsOk, Linked, Honest, AllHonest, Wrote, Written, SameFiles, Extended, GrowFate;
      status, done := fs.Write(ent, n, buf, off);
      if status != Wild {
        Record(Put(n, buf, off, status, done));
      }
    }
  }

  lemma OnlyWrites(d: Store, ev: Event, nb: nat, nodes: set<nat>)
    requires !ev.Put?
    ensures Honest(d, ev, nb, nodes)
  {}

  /** Format a disk and mount it.  Its entries lead to nodes exactly if those that can be read
      in the host's files do. */
  method Begin(host: map<Str, seq<Byte>>, manifest: Str, megabytes: nat, now: nat, disk: Store, buffers: nat)
    returns (s: Session?, ghost items: seq<Item>)
    requires Newfs.DiskImage(disk) && Newfs.BitmapBlocks(megabytes) <= Newfs.TEMP_BLOCKS && [] !in host
    requires forall t :: t in Tokens(CString(manifest), 0) ==> |t| < TOKEN_MAX
    ensures s != null ==> fresh(s) && fresh(s.fs) && fresh(s.fs.cache) && s.Valid() && s.log == []
    ensures s != null ==> Newfs.Acceptable(CString(manifest), host, Newfs.BitmapBlocks(megabytes), items)
    ensures s != null ==> exists hi :: Rep(s.disks[0], s.root, Dir(items), hi)
    ensures s != null ==> (s.Sound() <==> Newfs.Leads(Dir(items), s.fs.nodes))
  {
    hide Tokens, Newfs.Acceptable, Rep, FsOk, Newfs.IsSuper, Linked, Used, BlockAt, Newfs.AllPlaced, Newfs.Leads;
    hide Newfs.BitmapBlocks, CString, Newfs.Covers, Sized;
    s := null;
    EndToEnd.SizeBound(megabytes);
    var mk := new Newfs.Mkfs(host, manifest, megabytes, now, disk);
    var ok, root;
    ok, root, items := mk.Format([]);
    if !ok {
      return;
    }
    ghost var nb := Newfs.BitmapBlocks(megabytes);
    EndToEnd.Formatted(mk.image, 64 * megabytes, nb, root, mk.owner, mk.trees.Keys);
    assert Rep(mk.image, root, Dir(items), mk.pos) by {
      Newfs.PlacedAt(mk.image, mk.pos, mk.owner, mk.trees, root);
    }
    var fs, ent, top := EndToEnd.Boot(mk.image, buffers, 64 * megabytes, nb, mk.owner, mk.trees.Keys, root);
    if fs != null {
      s := new Session(fs, ent, top);
    }
  }
}
