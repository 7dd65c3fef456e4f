/** Path lookup (sys/kern/vfs.c) over O2FS directories. */
module Vfs {
  import opened Common
  import opened BufferCache
  import opened O2fsLayout
  import opened O2fsSpec
  import opened O2fs

  /** The end of the component that starts at i. */
  function CompEnd(path: Str, i: nat): (e: nat)
    requires i <= |path|
    ensures i <= e <= |path| && (e < |path| ==> path[e] == SLASH) && forall j :: i <= j < e ==> path[j] != SLASH
    decreases |path| - i
  {
    if i == |path| || path[i] == SLASH then i else CompEnd(path, i + 1)
  }

  /** What VFS_Lookup finds from directory n on.  An empty component ends the walk, whatever
      follows it. */
  function WalkPath(store: Store, n: nat, path: Str, start: nat): Option<nat>
    requires start <= |path|
    decreases |path| - start
  {
    var end := CompEnd(path, start);
    if end == start then Some(n)
    else if end - start > 256 then None
    else
      var m := OpenLookup(store, n, path[start..end]);
      if m.None? || end == |path| then m else WalkPath(store, m.value, path, end + 1)
  }

  function LookupPath(store: Store, root: nat, path: Str): Option<nat> {
    if path == [] || path[0] != SLASH then None else WalkPath(store, root, path, 1)
  }

  /** The entries the walk follows lead to nodes, or to blocks that are refused. */
  ghost predicate Followed(store: Store, nodes: set<nat>, n: nat, path: Str, start: nat)
    requires start <= |path|
    decreases |path| - start
  {
    var end := CompEnd(path, start);
    end == start || end - start > 256 ||
      (Follows(store, nodes, n, path[start..end]) &&
       (OpenLookup(store, n, path[start..end]).Some? && end < |path| ==>
          Followed(store, nodes, OpenLookup(store, n, path[start..end]).value, path, end + 1)))
  }

  lemma FollowedUnfold(store: Store, nodes: set<nat>, n: nat, path: Str, start: nat, end: nat)
    requires start <= |path| && end == CompEnd(path, start)
    ensures Followed(store, nodes, n, path, start) <==>
      || end == start || end - start > 256
      || (&& Follows(store, nodes, n, path[start..end])
          && (OpenLookup(store, n, path[start..end]).Some? && end < |path| ==>
                Followed(store, nodes, OpenLookup(store, n, path[start..end]).value, path, end + 1)))
  {
    hide Follows, OpenLookup, CompEnd;
  }

  /** VFS_Lookup from the mounted root. */
  method Lookup(fs: O2fs, rootEnt: nat, root: nat, path: Str) returns (r: LookupResult)
    requires fs.Valid() && fs.Open(rootEnt, root)
    requires path != [] && path[0] == SLASH ==> Followed(fs.cache.Store(), fs.nodes, root, path, 1)
    modifies fs.cache`entries, fs.cache`lru, fs.cache`chains, fs.cache`stale, fs.cache`hits, fs.cache`misses
    ensures fs.Valid() && PinsKept(old(fs.cache.entries), fs.cache.entries) && fs.cache.Store() == old(fs.cache.Store())
    ensures r.Found? ==> LookupPath(fs.cache.Store(), root, path) == Some(r.node) && fs.Open(r.ent, r.node)
    ensures r.NotFound? ==> LookupPath(fs.cache.Store(), root, path) == None
    ensures r.Busy? ==> fs.cache.lru == []
    ensures |fs.cache.lru| + 2 * |path| >= |old(fs.cache.lru)|
  {
    hide Hashed, Unpinned, Coherent, View, FsOk, Unique, BitmapPinned, StaleNodes, OpenLookup, Follows;
    if path == [] || path[0] != SLASH {
      return NotFound;
    }
    ghost var store := fs.cache.Store();
    var start, end, cur, n := 1, 1, rootEnt, root;
    while true
      invariant fs.Valid() && fs.Open(cur, n) && PinsKept(old(fs.cache.entries), fs.cache.entries)
      invariant fs.cache.Store() == store
      invariant |fs.cache.lru| + 2 * start >= |old(fs.cache.lru)|
      invariant start == end <= |path| && Followed(store, fs.nodes, n, path, start)
      invariant LookupPath(store, root, path) == WalkPath(store, n, path, start)
      decreases |path| - start
    {
      end := ScanComp(path, end);
      if end - start == 0 {
        return Found(cur, n);
      }
      if end - start > 256 {
        return NotFound;
      }
      var next := fs.Lookup(cur, n, path[start..end]);
      if !next.Found? {
        return next;
      }
      cur, n := next.ent, next.node;
      if end == |path| {
        return Found(cur, n);
      }
      start, end := end + 1, end + 1;
    }
  }

  method ScanComp(path: Str, i: nat) returns (end: nat)
    requires i <= |path|
    ensures end == CompEnd(path, i)
  {
    end := i;
    while end < |path| && path[end] != SLASH
      invariant i <= end <= |path| && CompEnd(path, i) == CompEnd(path, end)
    {
      end := end + 1;
    }
  }
}
