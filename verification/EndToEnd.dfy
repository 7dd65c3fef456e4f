/** The mkfs tool, the buffer cache, the file system and the path walk together: what is
    written from a manifest is what the kernel reads back. */
module EndToEnd {
  import opened Common
  import opened BufferCache
  import opened O2fsLayout
  import opened O2fsSpec
  import opened O2fs
  import O2fsFiles
  import opened Vfs
  import opened Manifest
  import opened Image
  import opened Newfs
  import opened Mounting

  datatype Outcome =
    | Contents(data: seq<Byte>)
    | Missing        // no such path
    | NoBuffers      // all buffers are pinned
    | Halted         // the kernel stops at a bitmap of more than 16 blocks
    | Rejected       // newfs_o2fs stopped with an error

  /** The walk of a path of the tree, or one that leaves the tree clear of entries, only
      follows entries to recorded nodes. */
  lemma {:induction false} TreeFollowed(image: Store, pos: nat, owner: map<nat, Owner>, trees: map<nat, Tree>, n: nat,
          path: Str, start: nat)
    requires AllPlaced(image, pos, owner, trees) && n in trees && Named(trees[n]) && IsStr(path) && start <= |path|
    requires Clear(trees[n], Comps(path, start))
    ensures Followed(image, trees.Keys, n, path, start)
    decreases |path| - start
  {
    hide Rep, NodeOk, Children, Named, BlockAt, FindItem, Comps, Clear, ChildOff, AllPlaced, Followed, CompEnd;
    assert Placed(image, pos, owner, trees, n, trees[n]) by { PlacedAt(image, pos, owner, trees, n); }
    var t, end := trees[n], CompEnd(path, start);
    FollowedUnfold(image, trees.Keys, n, path, start, end);
    if start < end && end - start <= 256 {
      var name := path[start..end];
      ClearUnfold(t, path, start, end);
      if t.File? {
        FileFollows(image, n, t, pos, trees.Keys, name);
      } else {
        LookupDir(image, n, t.items, pos, name);
        hide OpenLookup, DirLookup;
        var e := FindItem(t.items, name, 0);
        if e.Some? {
          ChildIn(image, n, t.items, trees, e.value);
          if end < |path| {
            TreeFollowed(image, pos, owner, trees, ChildOff(image, n, e.value), path, end + 1);
          }
        }
      }
    }
  }

  lemma FileFollows(image: Store, n: nat, t: Tree, hi: nat, nodes: set<nat>, name: Str)
    requires t.File? && Rep(image, n, t, hi) && LookupIn(DataBlocks(t.data), name, 0).None?
    ensures Follows(image, nodes, n, name) && OpenLookup(image, n, name).None?
  {
    hide Rep, LookupIn, DataBlocks, BlockAt;
    RepFileBlocks(image, n, t, hi);
  }

  /** The kernel's side: look a path up and read the file it names. */
  method ReadPath(fs: O2fs, ent: nat, root: nat, path: Str, ghost items: seq<Item>, ghost hi: nat,
          ghost trees: map<nat, Tree>, ghost host: map<Str, seq<Byte>>)
    returns (r: Outcome)
    requires fs.Valid() && fs.Open(ent, root) && AllPlaced(fs.cache.Store(), hi, fs.owner, trees)
    requires trees.Keys == fs.nodes
    requires Has(trees, root, Dir(items)) && Named(Dir(items)) && FromHost(items, host)
    requires IsStr(path) && path != [] && path[0] == SLASH && Clear(Dir(items), Comps(path, 1))
    modifies fs.cache
    ensures r.Contents? ==> var u := Resolve(Dir(items), Comps(path, 1));
      u.Some? && (u.value.File? ==> u.value.path in host && r.data == host[u.value.path])
    ensures r.Missing? ==> Resolve(Dir(items), Comps(path, 1)).None?
    ensures !r.Rejected? && !r.Halted? && (r.NoBuffers? ==> |old(fs.cache.lru)| <= 2 * |path|)
  {
    hide Rep, NodeOk, Children, Named, Clear, Resolve, Comps, FsOk, Followed, WalkPath, Size, FileByte;
    hide Hashed, Unpinned, Coherent, View, Unique, BitmapPinned, StaleNodes;
    assert Placed(fs.cache.Store(), hi, fs.owner, trees, root, Dir(items));
    hide AllPlaced;
    RoundTrip(fs.cache.Store(), root, items, hi, host, path);
    TreeFollowed(fs.cache.Store(), hi, fs.owner, trees, root, path, 1);
    var found := Vfs.Lookup(fs, ent, root, path);
    if found.Busy? {
      return NoBuffers;
    }
    if found.NotFound? {
      return Missing;
    }
    var status, data := fs.Read(found.ent, found.node, 0, DIRECT * BSIZE);
    r := if status == O2fsFiles.Success then Contents(data) else NoBuffers;
  }

  /** Format a disk of the given size, mount it with the given number of buffers, look a path
      up and read the file it names.  Every path of the manifest is found and a file has the
      bytes of its host file, as long as there are buffers; and so is no other path, unless
      it runs into a file that holds an entry of its name. */
  method PublishAndRead(host: map<Str, seq<Byte>>, manifest: Str, megabytes: nat, now: nat, disk: Store,
          buffers: nat, path: Str)
    returns (r: Outcome, ghost items: seq<Item>)
    requires DiskImage(disk) && BitmapBlocks(megabytes) <= TEMP_BLOCKS && [] !in host
    requires forall t :: t in Tokens(CString(manifest), 0) ==> |t| < TOKEN_MAX
    requires IsStr(path) && path != [] && path[0] == SLASH
    requires forall xs :: Manifested(CString(manifest), host, xs) ==> Clear(Dir(xs), Comps(path, 1))
    ensures r.Rejected? <==>
      || (disk == map[] && megabytes == 0)
      || forall xs :: !Acceptable(CString(manifest), host, BitmapBlocks(megabytes), xs)
    ensures !r.Rejected? ==> Acceptable(CString(manifest), host, BitmapBlocks(megabytes), items)
    ensures r.Contents? ==> var u := Resolve(Dir(items), Comps(path, 1));
      u.Some? && (u.value.File? ==> u.value.path in host && r.data == host[u.value.path])
    ensures r.Missing? ==> Resolve(Dir(items), Comps(path, 1)).None?
    ensures r.Halted? ==> BitmapBlocks(megabytes) > 16
    ensures BitmapBlocks(megabytes) <= 16 && buffers > 18 + 2 * |path| ==> !r.NoBuffers? && !r.Halted?
  {
    hide Tokens, Manifested, Fits, Rep, Named, Clear, Resolve, Comps, FsOk, IsSuper, Linked, Used, TreeBlocks, Volume;
    hide HasHeader, BlockAt, StaleNodes, AllPlaced, Leads, BitmapBlocks, CString, Covers, Sized;
    ghost var text, nb := CString(manifest), BitmapBlocks(megabytes);
    ghost var want: seq<Item> := [];
    if xs :| Acceptable(text, host, nb, xs) {
      want := xs;
    }
    SizeBound(megabytes);
    var mk := new Mkfs(host, manifest, megabytes, now, disk);
    var ok, root;
    ok, root, items := mk.Format(want);
    if !ok {
      return Rejected, items;
    }
    assert Acceptable(text, host, nb, items);
    ManifestHost(text, host, items);
    ManifestNamed(text, host, items);
    Formatted(mk.image, 64 * megabytes, nb, root, mk.owner, mk.trees.Keys);
    var fs, ent, top := Boot(mk.image, buffers, 64 * megabytes, nb, mk.owner, mk.trees.Keys, root);
    if fs == null {
      r := if BitmapBlocks(megabytes) > 16 then Halted else NoBuffers;
      return;
    }
    r := ReadPath(fs, ent, top, path, items, mk.pos, mk.trees, host);
  }

  lemma SizeBound(megabytes: nat)
    requires BitmapBlocks(megabytes) <= TEMP_BLOCKS
    ensures megabytes < U64 / 64
  {}

  /** Mount a volume with a fresh cache. */
  method Boot(image: Store, buffers: nat, ghost count: nat, ghost nb: nat, ghost owner: map<nat, Owner>,
          ghost nodes: set<nat>, ghost root0: nat)
    returns (fs: O2fs?, ent: nat, root: nat)
    requires Volume(image, count, nb, root0, owner, nodes) && HasHeader(BlockAt(image, 0)) && InStore(image, 0)
    ensures fs == null ==> nb > 16 || buffers <= nb + 2
    ensures fs != null ==> fresh(fs) && fresh(fs.cache) && fs.nodes == nodes && fs.owner == owner && root == root0
    ensures fs != null ==> fs.cache.Store() == image && |fs.bitmap| == nb
    ensures fs != null ==> fs.Valid() && fs.Open(ent, root) && |fs.cache.lru| + nb + 2 >= buffers
  {
    hide Hashed, Unpinned, Coherent, View, Unique, Volume, HasHeader, BlockAt, FsOk, BitmapPinned;
    var cache := new BufCache(buffers, ZeroBlock(), image);
    EmptyCache(cache);
    fs, ent, root := Mount(cache, count, nb, owner, nodes, root0);
  }

  lemma Formatted(image: Store, count: nat, nb: nat, root: nat, owner: map<nat, Owner>, nodes: set<nat>)
    requires FsOk(image, nb, owner, nodes) && IsSuper(BlockAt(image, 0), count, nb, root) && root in nodes
    ensures Volume(image, count, nb, root, owner, nodes) && HasHeader(BlockAt(image, 0)) && InStore(image, 0)
  {
    OwnedInStore(image, owner, 0, Super);
  }

  lemma ManifestHost(text: Str, host: map<Str, seq<Byte>>, items: seq<Item>)
    requires Manifested(text, host, items)
    ensures FromHost(items, host)
  {}

  /** A cache without blocks shows the disk. */
  lemma EmptyCache(cache: BufCache)
    requires cache.Valid() && cache.stale == {} && forall e :: 0 <= e < |cache.entries| ==> cache.entries[e].key.None?
    ensures cache.Store() == cache.disk
  {}
}
