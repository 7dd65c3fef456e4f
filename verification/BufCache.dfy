/** The buffer cache (sys/kern/bufcache.c): a hash table of 128 chains, an LRU queue of the
    unpinned entries, and the disk underneath.  Entries are numbered; queues hold numbers. */
module BufferCache {
  import opened Common

  const HASHTABLEENTRIES: nat := 128

  type Block = seq<Byte>

  /** A block's address: the disk and the offset on it. */
  datatype Key = Key(disk: nat, off: nat)

  datatype Entry = Entry(key: Option<Key>, refCount: nat, buffer: Block)

  type Chains = seq<seq<nat>>

  function Bucket(k: Key): (b: nat)
    ensures b < HASHTABLEENTRIES
  {
    k.off % HASHTABLEENTRIES
  }

  /** Chain b lists, once each, exactly the entries whose block hashes to b. */
  ghost predicate Hashed(entries: seq<Entry>, chains: Chains) {
    && |chains| == HASHTABLEENTRIES
    && (forall b :: 0 <= b < HASHTABLEENTRIES ==> NoDup(chains[b]))
    && (forall b, e :: 0 <= b < HASHTABLEENTRIES ==> (e in chains[b] <==> InChain(entries, e, b)))
  }

  ghost predicate InChain(entries: seq<Entry>, e: nat, b: nat) {
    e < |entries| && entries[e].key.Some? && Bucket(entries[e].key.value) == b
  }

  /** At most one entry per block. */
  ghost predicate Unique(entries: seq<Entry>) {
    forall e, f :: 0 <= e < |entries| && 0 <= f < |entries| && entries[e].key.Some? ==>
      entries[e].key == entries[f].key ==> e == f
  }

  /** The LRU queue holds exactly the unpinned entries. */
  ghost predicate Unpinned(entries: seq<Entry>, lru: seq<nat>) {
    NoDup(lru) && forall e: nat :: e in lru <==> e < |entries| && entries[e].refCount == 0
  }

  /** Every entry that is not stale holds what is on the disk; stale entries are pinned. */
  ghost predicate Coherent(entries: seq<Entry>, disk: map<Key, Block>, stale: set<nat>) {
    && (forall e :: e in stale ==> e < |entries| && entries[e].refCount > 0)
    && (forall e :: 0 <= e < |entries| && e !in stale && entries[e].key.Some? ==>
          entries[e].key.value in disk && disk[entries[e].key.value] == entries[e].buffer)
  }

  ghost predicate Cached(entries: seq<Entry>, k: Key) {
    exists e :: 0 <= e < |entries| && entries[e].key == Some(k)
  }

  /** The current content of block k: the cached buffer if there is one, else the disk. */
  ghost function Cur(entries: seq<Entry>, disk: map<Key, Block>, k: Key): Block
    requires k in disk
  {
    if Cached(entries, k) then
      var e :| 0 <= e < |entries| && entries[e].key == Some(k);
      entries[e].buffer
    else disk[k]
  }

  /** The block store the cache and the disk present together. */
  ghost function View(entries: seq<Entry>, disk: map<Key, Block>): map<Key, Block> {
    map k | k in disk :: Cur(entries, disk, k)
  }

  lemma CurIs(entries: seq<Entry>, disk: map<Key, Block>, e: nat)
    requires Unique(entries) && e < |entries| && entries[e].key.Some? && entries[e].key.value in disk
    ensures Cur(entries, disk, entries[e].key.value) == entries[e].buffer
    ensures entries[e].key.value in View(entries, disk)
    ensures View(entries, disk)[entries[e].key.value] == entries[e].buffer
  {
    assert Cached(entries, entries[e].key.value);
  }

  /** Entries that keep their blocks and buffers keep the view. */
  lemma ViewKept(entries: seq<Entry>, entries': seq<Entry>, disk: map<Key, Block>)
    requires Unique(entries) && Unique(entries') && |entries| == |entries'|
    requires forall e :: 0 <= e < |entries| ==>
      entries'[e].key == entries[e].key && entries'[e].buffer == entries[e].buffer
    ensures View(entries', disk) == View(entries, disk)
  {
    forall k | k in disk ensures Cur(entries', disk, k) == Cur(entries, disk, k) {
      if Cached(entries, k) {
        var e :| 0 <= e < |entries| && entries[e].key == Some(k);
        CurIs(entries, disk, e);
        CurIs(entries', disk, e);
      } else {
        assert !Cached(entries', k);
      }
    }
  }

  /** Storing into one buffer changes the view at its block only. */
  lemma ViewStored(entries: seq<Entry>, disk: map<Key, Block>, e: nat, data: Block)
    requires Unique(entries) && e < |entries| && entries[e].key.Some? && entries[e].key.value in disk
    ensures View(entries[e := entries[e].(buffer := data)], disk) == View(entries, disk)[entries[e].key.value := data]
  {
    var entries' := entries[e := entries[e].(buffer := data)];
    assert Unique(entries');
    forall k | k in disk
      ensures Cur(entries', disk, k) == if k == entries[e].key.value then data else Cur(entries, disk, k)
    {
      if Cached(entries, k) {
        var f :| 0 <= f < |entries| && entries[f].key == Some(k);
        CurIs(entries, disk, f);
        CurIs(entries', disk, f);
      } else {
        assert !Cached(entries', k);
      }
    }
  }

  /** Replacing a clean entry by a freshly read block keeps the view. */
  lemma ViewEvicted(entries: seq<Entry>, disk: map<Key, Block>, e: nat, k: Key, n: nat)
    requires Unique(entries) && e < |entries| && k in disk && !Cached(entries, k)
    requires entries[e].key.Some? ==> entries[e].key.value in disk && disk[entries[e].key.value] == entries[e].buffer
    ensures View(entries[e := Entry(Some(k), n, disk[k])], disk) == View(entries, disk)
  {
    var entries' := entries[e := Entry(Some(k), n, disk[k])];
    assert Unique(entries') by {
      forall f | 0 <= f < |entries| ensures entries[f].key != Some(k) {}
    }
    forall q | q in disk ensures Cur(entries', disk, q) == Cur(entries, disk, q) {
      if Cached(entries, q) {
        var f :| 0 <= f < |entries| && entries[f].key == Some(q);
        CurIs(entries, disk, f);
        if f != e {
          CurIs(entries', disk, f);
        } else {
          assert !Cached(entries', q);
        }
      } else if q == k {
        CurIs(entries', disk, e);
      } else {
        assert !Cached(entries', q);
      }
    }
  }

  /** Writing a buffer back keeps the view. */
  lemma ViewWritten(entries: seq<Entry>, disk: map<Key, Block>, e: nat)
    requires Unique(entries) && e < |entries| && entries[e].key.Some? && entries[e].key.value in disk
    ensures View(entries, disk[entries[e].key.value := entries[e].buffer]) == View(entries, disk)
  {
    var disk' := disk[entries[e].key.value := entries[e].buffer];
    forall k | k in disk ensures Cur(entries, disk', k) == Cur(entries, disk, k) {
      if Cached(entries, k) {
        var f :| 0 <= f < |entries| && entries[f].key == Some(k);
        CurIs(entries, disk, f);
        CurIs(entries, disk', f);
      }
    }
  }

  /** The chains after entry e moves from its old block, if any, to block k. */
  function Rehash(chains: Chains, e: nat, was: Option<Key>, k: Key): Chains
    requires |chains| == HASHTABLEENTRIES
  {
    var cut := if was.Some? then chains[Bucket(was.value) := Without(chains[Bucket(was.value)], e)] else chains;
    cut[Bucket(k) := [e] + cut[Bucket(k)]]
  }

  lemma CutHashed(entries: seq<Entry>, chains: Chains, e: nat)
    requires Hashed(entries, chains) && e < |entries| && entries[e].key.Some?
    ensures var b := Bucket(entries[e].key.value);
      Hashed(entries[e := entries[e].(key := None)], chains[b := Without(chains[b], e)])
  {
    var b := Bucket(entries[e].key.value);
    WithoutFacts(chains[b], e);
    var entries', chains' := entries[e := entries[e].(key := None)], chains[b := Without(chains[b], e)];
    forall c, f: nat | 0 <= c < HASHTABLEENTRIES
      ensures NoDup(chains'[c]) && (f in chains'[c] <==> InChain(entries', f, c))
    {
      assert f in chains[c] <==> InChain(entries, f, c);
    }
  }

  lemma PushHashed(entries: seq<Entry>, chains: Chains, e: nat, k: Key)
    requires Hashed(entries, chains) && e < |entries| && entries[e].key.None?
    ensures Hashed(entries[e := entries[e].(key := Some(k))], chains[Bucket(k) := [e] + chains[Bucket(k)]])
  {
    var b := Bucket(k);
    var entries', chains' := entries[e := entries[e].(key := Some(k))], chains[b := [e] + chains[b]];
    assert e !in chains[b] by { assert !InChain(entries, e, b); }
    assert NoDup(chains'[b]);
    forall c, f: nat | 0 <= c < HASHTABLEENTRIES
      ensures f in chains'[c] <==> InChain(entries', f, c)
    {
      assert f in chains[c] <==> InChain(entries, f, c);
      assert c == b ==> (f in chains'[c] <==> f == e || f in chains[b]);
    }
    assert Hashed(entries', chains');
  }

  lemma RehashHashed(entries: seq<Entry>, chains: Chains, e: nat, k: Key, x: Entry)
    requires Hashed(entries, chains) && e < |entries| && x.key == Some(k)
    ensures Hashed(entries[e := x], Rehash(chains, e, entries[e].key, k))
  {
    var cleared := entries[e := entries[e].(key := None)];
    if entries[e].key.Some? {
      CutHashed(entries, chains, e);
    } else {
      assert cleared == entries;
    }
    var cut :=
      if entries[e].key.None? then chains
      else chains[Bucket(entries[e].key.value) := Without(chains[Bucket(entries[e].key.value)], e)];
    PushHashed(cleared, cut, e, k);
    SameKeys(cleared[e := cleared[e].(key := Some(k))], entries[e := x], Rehash(chains, e, entries[e].key, k));
  }

  /** The chains depend only on the entries' blocks. */
  lemma SameKeys(entries: seq<Entry>, entries': seq<Entry>, chains: Chains)
    requires Hashed(entries, chains) && |entries'| == |entries|
    requires forall e :: 0 <= e < |entries| ==> entries'[e].key == entries[e].key
    ensures Hashed(entries', chains)
  {
    forall b, e: nat | 0 <= b < HASHTABLEENTRIES ensures e in chains[b] <==> InChain(entries', e, b) {
      assert e in chains[b] <==> InChain(entries, e, b);
    }
  }

  // ---------------------------------------------------------------- the cache

  datatype Status = Ok | ENoMem | EIo

  class BufCache {
    var entries: seq<Entry>
    var chains: Chains
    var lru: seq<nat>
    var disk: map<Key, Block>
    var hits: nat
    var misses: nat
    ghost var stale: set<nat>

    ghost predicate Valid()
      reads this
    {
      Hashed(entries, chains) && Unique(entries) && Unpinned(entries, lru) && Coherent(entries, disk, stale)
    }

    /** The block store the cache presents to its clients. */
    ghost function Store(): map<Key, Block>
      reads this
    {
      View(entries, disk)
    }

    lemma StoreKeys()
      ensures Store().Keys == disk.Keys
    {}

    /** BufCache_Init with n entries, none of them holding a block. */
    constructor (n: nat, buffer: Block, disk: map<Key, Block>)
      ensures Valid() && |entries| == n && this.disk == disk && stale == {}
      ensures forall e :: 0 <= e < n ==> entries[e] == Entry(None, 0, buffer)
      ensures |lru| == n && forall e :: 0 <= e < n ==> lru[e] == e
    {
      this.disk, stale, hits, misses := disk, {}, 0, 0;
      entries, lru := [], [];
      chains := seq(HASHTABLEENTRIES, _ => []);
      new;
      while |entries| < n
        invariant |entries| == |lru| <= n && this.disk == disk && stale == {}
        invariant chains == seq(HASHTABLEENTRIES, _ => [])
        invariant forall e :: 0 <= e < |entries| ==> entries[e] == Entry(None, 0, buffer) && lru[e] == e
      {
        lru := lru + [|entries|];
        entries := entries + [Entry(None, 0, buffer)];
      }
    }

    /** BufCacheLookup: pin the entry that holds block k, if there is one. */
    method Lookup(k: Key) returns (found: Option<nat>)
      requires Valid()
      modifies this`entries, this`lru
      ensures Valid()
      ensures found.None? <==> !old(Cached(entries, k))
      ensures found.None? ==> entries == old(entries) && lru == old(lru)
      ensures found.Some? ==> var e := found.value;
        && e < |old(entries)| && old(entries)[e].key == Some(k)
        && entries == old(entries)[e := old(entries)[e].(refCount := old(entries)[e].refCount + 1)]
        && lru == if old(entries)[e].refCount == 0 then Without(old(lru), e) else old(lru)
    {
      var chain, i := chains[Bucket(k)], 0;
      while i < |chain|
        invariant i <= |chain|
        invariant forall j :: 0 <= j < i ==> chain[j] < |entries| && entries[chain[j]].key != Some(k)
      {
        var e := chain[i];
        assert e in chain && InChain(entries, e, Bucket(k));
        if entries[e].key == Some(k) {
          Pin(e);
          return Some(e);
        }
        i := i + 1;
      }
      NotCached(entries, chains, k);
      found := None;
    }

    method Pin(e: nat)
      requires Valid() && e < |entries|
      modifies this`entries, this`lru
      ensures Valid()
      ensures entries == old(entries)[e := old(entries)[e].(refCount := old(entries)[e].refCount + 1)]
      ensures lru == if old(entries)[e].refCount == 0 then Without(old(lru), e) else old(lru)
    {
      WithoutFacts(lru, e);
      ghost var entries0 := entries;
      entries := entries[e := entries[e].(refCount := entries[e].refCount + 1)];
      if entries[e].refCount == 1 {
        lru := Without(lru, e);
      }
      SameKeys(entries0, entries, chains);
    }

    /** BufCacheAlloc: give block k the least recently released entry.  Its buffer is not
        yet the block's, so the entry is stale. */
    method AllocEntry(k: Key) returns (got: Option<nat>)
      requires Valid() && !Cached(entries, k)
      modifies this`entries, this`lru, this`chains, this`stale
      ensures Valid()
      ensures got.None? <==> old(lru) == []
      ensures got.None? ==> entries == old(entries) && lru == old(lru) && chains == old(chains) && stale == old(stale)
      ensures got.Some? ==> var e := got.value;
        && e == old(lru)[0] && lru == old(lru)[1..] && e < |old(entries)| && old(entries)[e].refCount == 0
        && entries == old(entries)[e := Entry(Some(k), 1, old(entries)[e].buffer)]
        && stale == old(stale) + {e}
    {
      if lru == [] {
        return None;
      }
      var e := lru[0];
      assert e in lru;
      assert forall f :: f in lru <==> f == e || f in lru[1..];
      RehashHashed(entries, chains, e, k, Entry(Some(k), 1, entries[e].buffer));
      lru := lru[1..];
      chains := Rehash(chains, e, entries[e].key, k);
      entries := entries[e := Entry(Some(k), 1, entries[e].buffer)];
      stale := stale + {e};
      got := Some(e);
    }

    /** BufCache_Alloc. */
    method Alloc(k: Key) returns (status: Status, got: Option<nat>)
      requires Valid()
      modifies this`entries, this`lru, this`chains, this`stale
      ensures Valid()
      ensures status == ENoMem <==> got.None?
      ensures got.None? <==>
        !old(Cached(entries, k)) && forall e :: 0 <= e < |old(entries)| ==> old(entries)[e].refCount > 0
      ensures got.Some? ==> status == Ok && Holder(got.value, k)
      ensures got.Some? && got.value !in stale ==> k in disk && entries[got.value].buffer == disk[k]
      ensures got.Some? ==> |old(entries)| == |entries| && got.value < |entries|
      ensures entries == if got.Some? then old(entries)[got.value := entries[got.value]] else old(entries)
      ensures got.Some? ==> lru == Without(old(lru), got.value)
      ensures got.None? ==> lru == old(lru)
      ensures got.Some? && old(Cached(entries, k)) ==>
        && old(entries)[got.value].key == Some(k)
        && entries[got.value] == old(entries)[got.value].(refCount := old(entries)[got.value].refCount + 1)
      ensures got.Some? && !old(Cached(entries, k)) ==>
        && old(lru) != [] && got.value == old(lru)[0]
        && entries[got.value].refCount == 1 && old(entries)[got.value].refCount == 0
    {
      AllPinned(entries, lru);
      got := Lookup(k);
      if got.None? {
        got := AllocEntry(k);
      } else {
        WithoutAbsent(old(lru), got.value);
      }
      status := if got.None? then ENoMem else Ok;
    }

    /** Entry e is pinned and holds block k. */
    ghost predicate Holder(e: nat, k: Key)
      reads this
    {
      e < |entries| && entries[e].key == Some(k) && entries[e].refCount > 0
    }

    /** BufCache_Read; io says whether the device read succeeds.  A read that returns Ok
        yields the disk's block unless the entry is stale, and an entry already cached, or
        one read successfully, is stale only if it was before.  A failed device read leaves
        a pinned stale entry behind. */
    method Read(k: Key, io: bool) returns (status: Status, got: Option<nat>)
      requires Valid() && (io ==> k in disk)
      modifies this`entries, this`lru, this`chains, this`stale, this`hits, this`misses
      ensures Valid()
      ensures status == ENoMem <==> got.None?
      ensures got.None? <==>
        !old(Cached(entries, k)) && forall e :: 0 <= e < |old(entries)| ==> old(entries)[e].refCount > 0
      ensures status == EIo <==> got.Some? && !old(Cached(entries, k)) && !io
      ensures got.Some? ==> Holder(got.value, k)
      ensures got.Some? && got.value !in stale ==> k in disk && entries[got.value].buffer == disk[k]
      ensures got.Some? ==> |old(entries)| == |entries| && got.value < |entries|
      ensures entries == if got.Some? then old(entries)[got.value := entries[got.value]] else old(entries)
      ensures got.Some? ==> lru == Without(old(lru), got.value)
      ensures got.None? ==> lru == old(lru) == []
      ensures got.Some? && old(Cached(entries, k)) ==>
        && old(entries)[got.value].key == Some(k)
        && entries[got.value] == old(entries)[got.value].(refCount := old(entries)[got.value].refCount + 1)
      ensures got.Some? && !old(Cached(entries, k)) ==>
        && old(lru) != [] && got.value == old(lru)[0]
        && entries[got.value].refCount == 1 && old(entries)[got.value].refCount == 0
      ensures io ==> Store() == old(Store()) && k in Store() && (got.Some? ==> entries[got.value].buffer == Store()[k])
      ensures status == EIo ==>
        stale == old(stale) + {got.value} && entries[got.value].buffer == old(entries)[got.value].buffer
      ensures status != EIo ==> stale == old(stale)
      ensures hits + misses == old(hits) + old(misses) + 1 && (hits > old(hits) <==> old(Cached(entries, k)))
    {
      hide Hashed, Unpinned, View, Cur, Cached;
      AllPinned(entries, lru);
      got := Lookup(k);
      if got.Some? {
        WithoutAbsent(old(lru), got.value);
        OnQueue(old(entries), old(lru));
        ViewKept(old(entries), entries, disk);
        if io {
          CurIs(entries, disk, got.value);
        }
        hits := hits + 1;
        return Ok, got;
      }
      misses := misses + 1;
      status, got := Miss(k, io);
    }

    /** The rest of BufCache_Read once the lookup has failed. */
    method Miss(k: Key, io: bool) returns (status: Status, got: Option<nat>)
      requires Valid() && !Cached(entries, k) && (io ==> k in disk)
      modifies this`entries, this`lru, this`chains, this`stale
      ensures Valid()
      ensures got.None? <==> old(lru) == []
      ensures status == if got.None? then ENoMem else if io then Ok else EIo
      ensures got.None? ==> entries == old(entries) && lru == old(lru) && stale == old(stale)
      ensures got.Some? ==> var e := got.value;
        && e == old(lru)[0] && lru == old(lru)[1..] && e < |old(entries)| && old(entries)[e].refCount == 0
        && entries == old(entries)[e := Entry(Some(k), 1, if io then disk[k] else old(entries)[e].buffer)]
        && stale == if io then old(stale) else old(stale) + {e}
      ensures io ==> Store() == old(Store()) && k in Store() && (got.Some? ==> entries[got.value].buffer == Store()[k])
    {
      hide Hashed, Unpinned, Cur;
      OnQueue(entries, lru);
      got := AllocEntry(k);
      if got.None? {
        return ENoMem, None;
      }
      if !io {
        return EIo, got;
      }
      assert got.value in old(lru);
      Fill(got.value, disk[k]);
      ViewEvicted(old(entries), disk, got.value, k, 1);
      CurIs(entries, disk, got.value);
      status := Ok;
    }

    /** The buffer of e receives the block from the device. */
    method Fill(e: nat, data: Block)
      requires Valid() && e < |entries| && e in stale && entries[e].key.Some?
      requires entries[e].key.value in disk && disk[entries[e].key.value] == data
      modifies this`entries, this`stale
      ensures Valid() && entries == old(entries)[e := old(entries)[e].(buffer := data)] && stale == old(stale) - {e}
    {
      ghost var entries0 := entries;
      entries := entries[e := entries[e].(buffer := data)];
      stale := stale - {e};
      SameKeys(entries0, entries, chains);
    }

    /** A client stores into the buffer of an entry it holds. */
    method Modify(e: nat, data: Block)
      requires Valid() && e < |entries| && entries[e].refCount > 0
      modifies this`entries, this`stale
      ensures Valid() && entries == old(entries)[e := old(entries)[e].(buffer := data)] && stale == old(stale) + {e}
      ensures entries[e].key.Some? && entries[e].key.value in disk ==>
        Store() == old(Store())[entries[e].key.value := data]
    {
      if entries[e].key.Some? && entries[e].key.value in disk {
        ViewStored(entries, disk, e, data);
      }
      ghost var entries0 := entries;
      entries := entries[e := entries[e].(buffer := data)];
      stale := stale + {e};
      SameKeys(entries0, entries, chains);
    }

    /** BufCache_Write: the buffer goes to the disk, and the entry is no longer stale. */
    method Write(e: nat, io: bool) returns (status: Status)
      requires Valid() && e < |entries| && entries[e].refCount > 0 && entries[e].key.Some?
      modifies this`disk, this`stale
      ensures Valid() && (status == Ok <==> io) && (status == Ok || status == EIo)
      ensures io ==> disk == old(disk)[entries[e].key.value := entries[e].buffer] && stale == old(stale) - {e}
      ensures !io ==> disk == old(disk) && stale == old(stale) + {e}
      ensures entries[e].key.value in old(disk) ==> Store() == old(Store())
    {
      if io {
        if entries[e].key.value in disk {
          ViewWritten(entries, disk, e);
        }
        disk := disk[entries[e].key.value := entries[e].buffer];
        stale := stale - {e};
        return Ok;
      }
      stale := stale + {e};
      status := EIo;
    }

    /** BufCache_Release, by a client that wrote its changes back before its last release. */
    method Release(e: nat)
      requires Valid() && e < |entries| && entries[e].refCount > 0
      requires entries[e].refCount == 1 ==> e !in stale
      modifies this`entries, this`lru
      ensures Valid()
      ensures entries == old(entries)[e := old(entries)[e].(refCount := old(entries)[e].refCount - 1)]
      ensures lru == if old(entries)[e].refCount == 1 then old(lru) + [e] else old(lru)
      ensures Store() == old(Store())
    {
      ghost var entries0 := entries;
      entries := entries[e := entries[e].(refCount := entries[e].refCount - 1)];
      if entries[e].refCount == 0 {
        lru := lru + [e];
      }
      SameKeys(entries0, entries, chains);
      ViewKept(entries0, entries, disk);
    }
  }

  /** A failed device read is remembered: the next read of the block succeeds without
      touching the device and returns whatever the evicted buffer held. */
  method ReadAfterFailure(c: BufCache, k: Key) returns (status: Status, got: Option<nat>)
    requires c.Valid() && k in c.disk && !Cached(c.entries, k) && c.lru != []
    modifies c
    ensures status == Ok && got == Some(old(c.lru)[0])
    ensures got.value < |old(c.entries)| == |c.entries|
    ensures c.entries[got.value].buffer == old(c.entries)[got.value].buffer
    ensures c.disk == old(c.disk)
  {
    AllPinned(c.entries, c.lru);
    var failed, first := c.Read(k, false);
    assert Cached(c.entries, k) by { assert c.entries[first.value].key == Some(k); }
    status, got := c.Read(k, true);
  }

  /** Pinning takes one entry off the queue, or none. */
  lemma LruAfterPin(entries: seq<Entry>, lru: seq<nat>, e: nat)
    requires Unpinned(entries, lru) && e < |entries|
    ensures |Without(lru, e)| == if entries[e].refCount == 0 then |lru| - 1 else |lru|
  {
    WithoutFacts(lru, e);
  }

  lemma AllPinned(entries: seq<Entry>, lru: seq<nat>)
    requires Unpinned(entries, lru)
    ensures lru == [] <==> forall e :: 0 <= e < |entries| ==> entries[e].refCount > 0
  {
    if lru != [] {
      assert lru[0] in lru;
    }
  }

  lemma OnQueue(entries: seq<Entry>, lru: seq<nat>)
    requires Unpinned(entries, lru)
    ensures forall e: nat :: e in lru <==> e < |entries| && entries[e].refCount == 0
  {}

  lemma NotCached(entries: seq<Entry>, chains: Chains, k: Key)
    requires Hashed(entries, chains)
    requires forall j :: 0 <= j < |chains[Bucket(k)]| ==>
      chains[Bucket(k)][j] < |entries| && entries[chains[Bucket(k)][j]].key != Some(k)
    ensures !Cached(entries, k)
  {
    forall e | 0 <= e < |entries| ensures entries[e].key != Some(k) {
      assert InChain(entries, e, Bucket(k)) <==> e in chains[Bucket(k)];
    }
  }
}
