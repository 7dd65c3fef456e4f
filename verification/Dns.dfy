/** The DNS resolver table (lib/liblwip/src/core/dns.c).  A callback may itself start queries;
    the requests it makes are part of every step that can call one. */
module Dns {
  import opened Common

  const TABLE_SIZE: nat := 4
  const MAX_SERVERS: nat := 2
  const MAX_RETRIES: nat := 4
  const MAX_TTL: nat := 604800
  const MSG_SIZE: nat := 512
  const MIN_SIZE: nat := 26        // header, query and answer
  const U8: nat := 0x100
  const U32: nat := 0x1_0000_0000

  type Id = nat                    // a caller's callback and argument
  type Ip = nat

  datatype Phase = Unused | New | Asking | Done
  datatype Entry = Entry(phase: Phase, numdns: nat, tmr: nat, retries: nat, seqno: nat, err: nat, ttl: nat,
                         name: string, ip: Ip, found: Option<Id>)
  datatype Request = Request(name: string, found: Option<Id>)
  datatype Call = Call(id: Id, name: string, ip: Option<Ip>)

  /** The table, dns_seqno, and what has been promised and done so far. */
  datatype State = State(table: seq<Entry>, seqno: nat, accepted: seq<Id>, calls: seq<Call>)

  /** What dns_recv reads of a packet: matches says that its question is the entry's name, and
      answers are the records its loop goes through. */
  datatype Packet = Packet(len: nat, id: nat, response: bool, err: nat, questions: nat, matches: bool,
                           answers: seq<Answer>)
  datatype Answer = Answer(address: bool, ttl: nat, ip: Ip)

  // ---------------------------------------------------------------- dns_enqueue

  /** The first unused entry from i on. */
  function FirstUnused(table: seq<Entry>, i: nat): (r: nat)
    requires i <= |table|
    ensures i <= r <= |table| && (r < |table| ==> table[r].phase == Unused)
    ensures forall j :: i <= j < r ==> table[j].phase != Unused
    decreases |table| - i
  {
    if i == |table| || table[i].phase == Unused then i else FirstUnused(table, i + 1)
  }

  /** lseq and lseqi after the first n entries.  The difference of two u8 values is an int. */
  function Oldest(table: seq<Entry>, seqno: nat, n: nat): (r: (int, nat))
    requires n <= |table|
    ensures r.0 >= 0 && (r.1 < n || r.1 == 0)
    ensures r.0 > 0 ==> r.1 < n && table[r.1].phase == Done && r.0 == seqno - table[r.1].seqno
    ensures forall j :: 0 <= j < n && table[j].phase == Done ==> seqno - table[j].seqno <= r.0
    ensures r.0 == 0 ==> r.1 == 0
  {
    if n == 0 then (0, 0)
    else
      var r, e := Oldest(table, seqno, n - 1), table[n - 1];
      if e.phase == Done && seqno - e.seqno > r.0 then (seqno - e.seqno, n - 1) else r
  }

  /** The entry a new query gets. */
  function Pick(y: State): (r: Option<nat>)
    requires |y.table| == TABLE_SIZE
  {
    var i := FirstUnused(y.table, 0);
    if i < TABLE_SIZE then Some(i)
    else
      var k := Oldest(y.table, y.seqno, TABLE_SIZE).1;
      if y.table[k].phase == Done then Some(k) else None
  }

  function Enqueue(y: State, r: Request): (z: State)
    requires |y.table| == TABLE_SIZE
    ensures |z.table| == TABLE_SIZE
  {
    var i := Pick(y);
    if i.None? then y
    else
      y.(table := y.table[i.value := Fresh(y.table[i.value], y.seqno, r)], seqno := (y.seqno + 1) % U8,
         accepted := y.accepted + if r.found.Some? then [r.found.value] else [])
  }

  /** The entry of a new query, which dns_check_entry starts at once. */
  function Fresh(e: Entry, seqno: nat, r: Request): Entry {
    e.(phase := Asking, numdns := 0, tmr := 1, retries := 0, seqno := seqno, name := r.name, found := r.found)
  }

  function EnqueueAll(y: State, rs: seq<Request>): (z: State)
    requires |y.table| == TABLE_SIZE
    ensures |z.table| == TABLE_SIZE
    decreases |rs|
  {
    if rs == [] then y else EnqueueAll(Enqueue(y, rs[0]), rs[1..])
  }

  // ---------------------------------------------------------------- callbacks, ticks, packets

  /** The callback of entry i, if any, and the requests it makes. */
  function Notify(y: State, i: nat, ip: Option<Ip>, rs: seq<Request>): (z: State)
    requires |y.table| == TABLE_SIZE && i < TABLE_SIZE
    ensures |z.table| == TABLE_SIZE
  {
    var e := y.table[i];
    if e.found.None? then y else EnqueueAll(y.(calls := y.calls + [Call(e.found.value, e.name, ip)]), rs)
  }

  function Put(y: State, i: nat, e: Entry): (z: State)
    requires |y.table| == TABLE_SIZE && i < TABLE_SIZE
    ensures |z.table| == TABLE_SIZE
  {
    y.(table := y.table[i := e])
  }

  function Flush(y: State, i: nat): (z: State)
    requires |y.table| == TABLE_SIZE && i < TABLE_SIZE
    ensures |z.table| == TABLE_SIZE
  {
    Put(y, i, y.table[i].(phase := Unused, found := None))
  }

  /** dns_check_entry; second says that a second server is configured. */
  function Check(y: State, i: nat, second: bool, rs: seq<Request>): (z: State)
    requires |y.table| == TABLE_SIZE && i < TABLE_SIZE
    ensures |z.table| == TABLE_SIZE
  {
    var e := y.table[i];
    match e.phase
    case Unused => y
    case New => Put(y, i, e.(phase := Asking, numdns := 0, tmr := 1, retries := 0))
    case Done =>
      var ttl := (e.ttl + U32 - 1) % U32;
      if ttl == 0 then Flush(Put(y, i, e.(ttl := 0)), i) else Put(y, i, e.(ttl := ttl))
    case Asking =>
      var tmr := (e.tmr + U8 - 1) % U8;
      if tmr != 0 then Put(y, i, e.(tmr := tmr))
      else if e.retries + 1 != MAX_RETRIES then Put(y, i, e.(tmr := e.retries + 1, retries := e.retries + 1))
      else if e.numdns + 1 < MAX_SERVERS && second then Put(y, i, e.(numdns := e.numdns + 1, tmr := 1, retries := 0))
      else Flush(Notify(Put(y, i, e.(tmr := 0, retries := MAX_RETRIES)), i, None, rs), i)
  }

  /** dns_tmr, from entry i on. */
  function Tick(y: State, i: nat, second: bool, rs: seq<seq<Request>>): (z: State)
    requires |y.table| == TABLE_SIZE == |rs| && i <= TABLE_SIZE
    ensures |z.table| == TABLE_SIZE
    decreases TABLE_SIZE - i
  {
    if i == TABLE_SIZE then y else Tick(Check(y, i, second, rs[i]), i + 1, second, rs)
  }

  /** The first address among the answers. */
  function FirstAddress(records: seq<Answer>): Option<Answer> {
    if records == [] then None else if records[0].address then Some(records[0]) else FirstAddress(records[1..])
  }

  predicate Sized(p: Packet) {
    MIN_SIZE <= p.len <= MSG_SIZE
  }

  predicate Concerns(y: State, p: Packet)
    requires |y.table| == TABLE_SIZE
  {
    Sized(p) && p.id < TABLE_SIZE && y.table[p.id].phase == Asking
  }

  predicate Fails(p: Packet) {
    !p.response || p.err != 0 || p.questions != 1 || !p.matches || FirstAddress(p.answers).None?
  }

  /** The entry once a packet has been read. */
  function Answered(e: Entry, p: Packet): Entry {
    if Fails(p) then e.(phase := Done, err := p.err)
    else
      var a := FirstAddress(p.answers).value;
      e.(phase := Done, err := p.err, ttl := if a.ttl > MAX_TTL then MAX_TTL else a.ttl, ip := a.ip)
  }

  function Recv(y: State, p: Packet, rs: seq<Request>): (z: State)
    requires |y.table| == TABLE_SIZE
    ensures |z.table| == TABLE_SIZE
  {
    if !Concerns(y, p) then y
    else
      var e := Answered(y.table[p.id], p);
      var z := Put(y, p.id, e);
      if Fails(p) then Flush(Notify(z, p.id, None, rs), p.id) else Notify(z, p.id, Some(e.ip), rs)
  }

  // ---------------------------------------------------------------- the invariant

  predicate Waits(e: Entry, q: Id) {
    e.phase == Asking && e.found == Some(q)
  }

  /** Some entry other than entry x waits for q; x is TABLE_SIZE to mean all entries. */
  ghost predicate Pending(y: State, q: Id, x: nat) {
    exists i :: 0 <= i < |y.table| && i != x && Waits(y.table[i], q)
  }

  ghost predicate Called(y: State, q: Id) {
    exists k :: 0 <= k < |y.calls| && y.calls[k].id == q
  }

  predicate TimerOk(e: Entry) {
    && e.phase != New
    && (e.phase == Asking ==>
          e.numdns < MAX_SERVERS && e.retries < MAX_RETRIES && 1 <= e.tmr && (e.tmr <= e.retries || e.tmr == 1))
  }

  /** Every accepted query waits in one entry other than x or has been called back once. */
  ghost predicate Ledger(y: State, x: nat) {
    && NoDup(y.accepted)
    && (forall j, k :: 0 <= j < k < |y.calls| ==> y.calls[j].id != y.calls[k].id)
    && (forall i, j, q :: 0 <= i < j < |y.table| && i != x && j != x && Waits(y.table[i], q) ==> !Waits(y.table[j], q))
    && (forall q :: Pending(y, q, x) ==> !Called(y, q))
    && (forall q :: q in y.accepted <==> Pending(y, q, x) || Called(y, q))
  }

  ghost predicate Timers(y: State, x: nat) {
    forall i :: 0 <= i < |y.table| && i != x ==> TimerOk(y.table[i])
  }

  ghost predicate Inv(y: State) {
    |y.table| == TABLE_SIZE && y.seqno < U8 && Ledger(y, TABLE_SIZE) && Timers(y, TABLE_SIZE)
  }

  // ---------------------------------------------------------------- which entry a query gets

  /** A pending entry is never evicted: a query goes to an unused entry, or else to one that
      is done. */
  lemma NeverEvicts(y: State)
    requires |y.table| == TABLE_SIZE && Pick(y).Some?
    ensures var i := Pick(y).value; i < TABLE_SIZE && (y.table[i].phase == Unused || y.table[i].phase == Done)
  {}

  /** When a query is refused: no entry is unused, the first one is not done, and the sequence
      number has wrapped around below those of all entries that are done. */
  lemma RefusedIff(y: State)
    requires |y.table| == TABLE_SIZE
    ensures Pick(y).None? <==>
      && (forall i :: 0 <= i < TABLE_SIZE ==> y.table[i].phase != Unused)
      && y.table[0].phase != Done
      && (forall i :: 0 <= i < TABLE_SIZE && y.table[i].phase == Done ==> y.table[i].seqno >= y.seqno)
  {
    var r := Oldest(y.table, y.seqno, TABLE_SIZE);
    if FirstUnused(y.table, 0) == TABLE_SIZE && r.0 > 0 {
      assert y.table[r.1].seqno < y.seqno;
    }
  }

  // ---------------------------------------------------------------- one entry changes

  lemma PutPending(y: State, i: nat, e: Entry, x: nat)
    requires |y.table| == TABLE_SIZE && i < TABLE_SIZE && Ledger(y, x)
    ensures forall q :: Pending(Put(y, i, e), q, x) <==>
      (i != x && Waits(e, q)) || (Pending(y, q, x) && (i == x || !Waits(y.table[i], q)))
  {
    var z := Put(y, i, e);
    forall q
      ensures Pending(z, q, x) <==> (i != x && Waits(e, q)) || (Pending(y, q, x) && (i == x || !Waits(y.table[i], q)))
    {
      if j :| 0 <= j < |y.table| && j != x && Waits(y.table[j], q) {
        assert j != i ==> Waits(z.table[j], q);
      }
      if j :| 0 <= j < |z.table| && j != x && Waits(z.table[j], q) {
        assert j != i ==> Waits(y.table[j], q);
      }
      if i != x && Waits(e, q) {
        assert Waits(z.table[i], q);
      }
    }
  }

  /** Flushing entry x settles the books exactly if they balance without it. */
  lemma FlushLedger(y: State, x: nat)
    requires |y.table| == TABLE_SIZE && x < TABLE_SIZE
    ensures Ledger(Flush(y, x), TABLE_SIZE) <==> Ledger(y, x)
    ensures Timers(y, x) ==> Timers(Flush(y, x), TABLE_SIZE)
  {
    var z := Flush(y, x);
    forall q ensures Pending(z, q, TABLE_SIZE) <==> Pending(y, q, x) {
      if j :| 0 <= j < |y.table| && j != x && Waits(y.table[j], q) {
        assert Waits(z.table[j], q);
      }
      if j :| 0 <= j < |z.table| && Waits(z.table[j], q) {
        assert Waits(y.table[j], q) && j != x;
      }
    }
    assert forall i, q :: 0 <= i < TABLE_SIZE && i != x ==> Waits(z.table[i], q) == Waits(y.table[i], q);
    assert forall q :: !Waits(z.table[x], q);
  }

  // ---------------------------------------------------------------- new queries

  /** Callers do not reuse a callback and argument. */
  ghost predicate FreshIds(accepted: seq<Id>, rs: seq<Request>) {
    && (forall k :: 0 <= k < |rs| && rs[k].found.Some? ==> rs[k].found.value !in accepted)
    && (forall j, k :: 0 <= j < k < |rs| && rs[j].found.Some? ==> rs[j].found != rs[k].found)
  }

  /** Accepting a query in an entry other than x keeps the books without x. */
  lemma EnqueueLedger(y: State, r: Request, x: nat)
    requires |y.table| == TABLE_SIZE && Ledger(y, x) && FreshIds(y.accepted, [r])
    requires Pick(y) == Some(x) ==> r.found.None?
    ensures Ledger(Enqueue(y, r), x)
  {
    hide Pick;
    if Pick(y).Some? {
      var i := Pick(y).value;
      NeverEvicts(y);
      var e := Fresh(y.table[i], y.seqno, r);
      var z := Enqueue(y, r);
      PutPending(y, i, e, x);
      assert z.table == Put(y, i, e).table;
      assert [r][0] == r;
      assert forall q :: Called(z, q) <==> Called(y, q);
      assert forall q :: Pending(z, q, x) <==> Pending(Put(y, i, e), q, x);
      assert forall j, q :: 0 <= j < TABLE_SIZE && j != i ==> Waits(z.table[j], q) == Waits(y.table[j], q);
      assert forall q: Id :: Waits(z.table[i], q) <==> r.found == Some(q);
      forall j, q | 0 <= j < TABLE_SIZE && j != x && Waits(y.table[j], q) ensures q in y.accepted {
        assert Pending(y, q, x);
      }
    }
  }

  lemma EnqueueEntry(y: State, r: Request, x: nat)
    requires |y.table| == TABLE_SIZE && x <= TABLE_SIZE && y.seqno < U8 && Timers(y, x)
    ensures var z := Enqueue(y, r); z.calls == y.calls && z.seqno < U8 && Timers(z, x)
    ensures x < TABLE_SIZE && y.table[x].phase == Asking ==> Enqueue(y, r).table[x] == y.table[x] && Pick(y) != Some(x)
    ensures forall id :: id in Enqueue(y, r).accepted ==> id in y.accepted || r.found == Some(id)
    ensures forall id :: id in y.accepted ==> id in Enqueue(y, r).accepted
  {
    hide Pick;
    if Pick(y).Some? {
      NeverEvicts(y);
    }
  }

  /** Entry x is given to one of the queries that come with a callback. */
  predicate Taken(y: State, rs: seq<Request>, x: nat)
    requires |y.table| == TABLE_SIZE
    decreases |rs|
  {
    rs != [] && ((Pick(y) == Some(x) && rs[0].found.Some?) || Taken(Enqueue(y, rs[0]), rs[1..], x))
  }

  lemma FreshRest(y: State, rs: seq<Request>)
    requires |y.table| == TABLE_SIZE && FreshIds(y.accepted, rs) && rs != []
    ensures FreshIds(y.accepted, [rs[0]]) && FreshIds(Enqueue(y, rs[0]).accepted, rs[1..])
  {
    hide Pick;
  }

  /** The books without x are kept by a sequence of queries exactly if none with a callback
      gets entry x. */
  lemma {:induction false} EnqueueAllLedger(y: State, rs: seq<Request>, x: nat)
    requires |y.table| == TABLE_SIZE && Ledger(y, x) && FreshIds(y.accepted, rs)
    ensures Ledger(EnqueueAll(y, rs), x) <==> !Taken(y, rs, x)
    decreases |rs|
  {
    hide Pick, Ledger, Enqueue;
    if rs != [] {
      FreshRest(y, rs);
      if Pick(y) == Some(x) && rs[0].found.Some? {
        LoseOne(y, rs[0], x);
        StaysLost(Enqueue(y, rs[0]), rs[1..], x, rs[0].found.value);
        LostBreaks(EnqueueAll(Enqueue(y, rs[0]), rs[1..]), x, rs[0].found.value);
      } else {
        EnqueueLedger(y, rs[0], x);
        EnqueueAllLedger(Enqueue(y, rs[0]), rs[1..], x);
      }
    }
  }

  /** A query that was accepted but is neither waiting outside x nor called back. */
  ghost predicate Lost(y: State, x: nat, q: Id) {
    q in y.accepted && !Pending(y, q, x) && !Called(y, q)
  }

  lemma LostBreaks(y: State, x: nat, q: Id)
    requires Lost(y, x, q)
    ensures !Ledger(y, x)
  {}

  lemma LoseOne(y: State, r: Request, x: nat)
    requires |y.table| == TABLE_SIZE && Ledger(y, x) && FreshIds(y.accepted, [r]) && Pick(y) == Some(x) && r.found.Some?
    ensures Lost(Enqueue(y, r), x, r.found.value)
  {
    var z, q := Enqueue(y, r), r.found.value;
    NeverEvicts(y);
    hide Pick;
    assert [r][0] == r && q !in y.accepted && !Called(y, q);
    assert forall j :: 0 <= j < |z.table| && j != x ==> z.table[j] == y.table[j];
    assert !Pending(y, q, x);
  }

  lemma {:induction false} StaysLost(y: State, rs: seq<Request>, x: nat, q: Id)
    requires |y.table| == TABLE_SIZE && Lost(y, x, q) && forall k :: 0 <= k < |rs| ==> rs[k].found != Some(q)
    ensures Lost(EnqueueAll(y, rs), x, q)
    decreases |rs|
  {
    hide Pick;
    if rs != [] {
      var z := Enqueue(y, rs[0]);
      assert z.calls == y.calls;
      assert forall j :: 0 <= j < |z.table| && Waits(z.table[j], q) ==> Waits(y.table[j], q);
      StaysLost(z, rs[1..], x, q);
    }
  }

  lemma {:induction false} EnqueueAllEntry(y: State, rs: seq<Request>, x: nat)
    requires |y.table| == TABLE_SIZE && x <= TABLE_SIZE && y.seqno < U8 && Timers(y, x)
    ensures var z := EnqueueAll(y, rs); z.calls == y.calls && z.seqno < U8 && Timers(z, x)
    ensures x < TABLE_SIZE && y.table[x].phase == Asking ==>
      EnqueueAll(y, rs).table[x] == y.table[x] && !Taken(y, rs, x)
    ensures forall id :: id in EnqueueAll(y, rs).accepted ==>
      id in y.accepted || exists k :: 0 <= k < |rs| && rs[k].found == Some(id)
    ensures forall id :: id in y.accepted ==> id in EnqueueAll(y, rs).accepted
    decreases |rs|
  {
    hide Enqueue, Pick, Timers;
    if rs != [] {
      EnqueueEntry(y, rs[0], x);
      EnqueueAllEntry(Enqueue(y, rs[0]), rs[1..], x);
    }
  }

  // ---------------------------------------------------------------- callbacks

  /** The query of entry x moves from the pending to the called ones. */
  lemma CallLedger(y: State, x: nat, ip: Option<Ip>)
    requires |y.table| == TABLE_SIZE && x < TABLE_SIZE && Ledger(y, TABLE_SIZE) && y.table[x].phase == Asking
    requires y.table[x].found.Some?
    ensures Ledger(y.(calls := y.calls + [Call(y.table[x].found.value, y.table[x].name, ip)]), x)
  {
    var q := y.table[x].found.value;
    var z := y.(calls := y.calls + [Call(q, y.table[x].name, ip)]);
    assert Waits(y.table[x], q) && Pending(y, q, TABLE_SIZE);
    forall p ensures Called(z, p) <==> Called(y, p) || p == q {
      if k :| 0 <= k < |y.calls| && y.calls[k].id == p {
        assert z.calls[k].id == p;
      }
      assert z.calls[|y.calls|].id == q;
    }
    forall p ensures Pending(z, p, x) <==> Pending(y, p, TABLE_SIZE) && p != q {
      if j :| 0 <= j < |y.table| && Waits(y.table[j], p) {
        assert j != x ==> Waits(z.table[j], p);
      }
      if j :| 0 <= j < |z.table| && j != x && Waits(z.table[j], p) {
        assert Waits(y.table[j], p);
      }
    }
    assert !Called(y, q);
    forall k | 0 <= k < |y.calls| ensures y.calls[k].id != q {
      assert Called(y, y.calls[k].id);
    }
  }

  /** An entry without callback waits for nobody. */
  lemma QuietLedger(y: State, x: nat)
    requires |y.table| == TABLE_SIZE && x < TABLE_SIZE && (y.table[x].phase != Asking || y.table[x].found.None?)
    ensures Ledger(y, x) <==> Ledger(y, TABLE_SIZE)
  {
    assert forall q :: !Waits(y.table[x], q);
    forall q ensures Pending(y, q, x) <==> Pending(y, q, TABLE_SIZE) {}
  }

  /** Entry x changes, but not for the books without x. */
  lemma PutAside(y: State, x: nat, e: Entry)
    requires |y.table| == TABLE_SIZE && x < TABLE_SIZE
    ensures Ledger(Put(y, x, e), x) <==> Ledger(y, x)
    ensures Timers(Put(y, x, e), x) <==> Timers(y, x)
  {
    var z := Put(y, x, e);
    forall q ensures Pending(z, q, x) <==> Pending(y, q, x) {
      if j :| 0 <= j < |y.table| && j != x && Waits(y.table[j], q) {
        assert Waits(z.table[j], q);
      }
      if j :| 0 <= j < |z.table| && j != x && Waits(z.table[j], q) {
        assert Waits(y.table[j], q);
      }
    }
    assert forall j :: 0 <= j < TABLE_SIZE && j != x ==> z.table[j] == y.table[j];
  }

  /** Entry x, asking, is set to e and its callback made, with the requests that makes. */
  lemma NotifyLedger(y: State, x: nat, e: Entry, ip: Option<Ip>, rs: seq<Request>)
    requires Inv(y) && x < TABLE_SIZE && y.table[x].phase == Asking && e.found == y.table[x].found
    requires e.name == y.table[x].name && FreshIds(y.accepted, rs)
    ensures var z := Notify(Put(y, x, e), x, ip, rs);
      && z.seqno < U8 && Timers(z, x)
      && (Ledger(z, x) <==>
           e.found.None? || !Taken(Put(y, x, e).(calls := y.calls + [Call(e.found.value, e.name, ip)]), rs, x))
  {
    hide Ledger, Timers, EnqueueAll, Taken, FreshIds;
    var z := Put(y, x, e);
    PutAside(y, x, e);
    assert Timers(y, x) by { FewerTimers(y, x); }
    if e.found.None? {
      QuietLedger(y, x);
    } else {
      CallLedger(y, x, ip);
      var c := z.(calls := y.calls + [Call(e.found.value, e.name, ip)]);
      PutAside(y.(calls := c.calls), x, e);
      assert Put(y.(calls := c.calls), x, e) == c;
      EnqueueAllLedger(c, rs, x);
      assert Timers(c, x) by { SameTimers(z, c, x); }
      EnqueueAllEntry(c, rs, x);
    }
  }

  lemma FewerTimers(y: State, x: nat)
    requires Timers(y, TABLE_SIZE) && |y.table| == TABLE_SIZE
    ensures Timers(y, x)
  {}

  lemma SameTimers(y: State, z: State, x: nat)
    requires Timers(y, x) && y.table == z.table
    ensures Timers(z, x)
  {}

  // ---------------------------------------------------------------- ticks and packets keep the invariant

  /** An entry changes its timers but not its query. */
  lemma PutInv(y: State, i: nat, e: Entry)
    requires Inv(y) && i < TABLE_SIZE && TimerOk(e) && forall q :: Waits(e, q) == Waits(y.table[i], q)
    ensures Inv(Put(y, i, e))
  {
    PutPending(y, i, e, TABLE_SIZE);
    var z := Put(y, i, e);
    assert forall j, q :: 0 <= j < TABLE_SIZE ==> Waits(z.table[j], q) == Waits(y.table[j], q);
    assert forall q :: Called(z, q) <==> Called(y, q);
    forall q ensures Pending(z, q, TABLE_SIZE) <==> Pending(y, q, TABLE_SIZE) {
      if j :| 0 <= j < |y.table| && Waits(y.table[j], q) {
        assert Waits(z.table[j], q);
      }
    }
  }

  /** A timer tick keeps the books, whatever the callbacks do. */
  lemma CheckInv(y: State, i: nat, second: bool, rs: seq<Request>)
    requires Inv(y) && i < TABLE_SIZE && FreshIds(y.accepted, rs)
    ensures Inv(Check(y, i, second, rs))
  {
    hide Ledger, Timers, Notify, FreshIds, Pending, Called;
    var e := y.table[i];
    assert TimerOk(e) by { TimerAt(y, i); }
    var expired := e.(tmr := 0, retries := MAX_RETRIES);
    if e.phase == Asking && e.tmr == 1 && e.retries + 1 == MAX_RETRIES && !(e.numdns + 1 < MAX_SERVERS && second) {
      NotifyLedger(y, i, expired, None, rs);
      if e.found.Some? {
        var c := Put(y, i, expired).(calls := y.calls + [Call(e.found.value, e.name, None)]);
        assert Timers(c, i) by { PutAside(y, i, expired); FewerTimers(y, i); SameTimers(Put(y, i, expired), c, i); }
        EnqueueAllEntry(c, rs, i);
      }
      FlushLedger(Notify(Put(y, i, expired), i, None, rs), i);
    } else if e.phase != Unused {
      var z := Check(y, i, second, rs);
      assert z.table == y.table[i := z.table[i]];
      PutInv(y, i, z.table[i]);
    }
  }

  lemma TimerAt(y: State, i: nat)
    requires Timers(y, TABLE_SIZE) && i < |y.table| == TABLE_SIZE
    ensures TimerOk(y.table[i])
  {}

  /** A callback that is told of an error and starts a query of its own, which is given the
      entry that is then flushed. */
  predicate Loses(y: State, p: Packet, rs: seq<Request>)
    requires |y.table| == TABLE_SIZE
  {
    && Concerns(y, p) && Fails(p) && y.table[p.id].found.Some?
    && var e := Answered(y.table[p.id], p);
       Taken(Put(y, p.id, e).(calls := y.calls + [Call(e.found.value, e.name, None)]), rs, p.id)
  }

  /** It happens whenever all entries are asking and the sequence number has not wrapped since
      the entry was filled. */
  lemma FullTableLoses(y: State, p: Packet, q: Id, name: string)
    requires |y.table| == TABLE_SIZE && Concerns(y, p) && Fails(p) && y.table[p.id].found.Some?
    requires (forall i :: 0 <= i < TABLE_SIZE ==> y.table[i].phase == Asking) && y.table[p.id].seqno < y.seqno
    ensures Loses(y, p, [Request(name, Some(q))])
  {
    hide FirstAddress;
    var e := Answered(y.table[p.id], p);
    var c := Put(y, p.id, e).(calls := y.calls + [Call(e.found.value, e.name, None)]);
    assert c.table[p.id].phase == Done;
    var r := Oldest(c.table, c.seqno, TABLE_SIZE);
    assert r.0 > 0 && r.1 == p.id;
    assert Pick(c) == Some(p.id);
  }

  /** A packet keeps the books, except exactly in that case. */
  lemma RecvInv(y: State, p: Packet, rs: seq<Request>)
    requires Inv(y) && FreshIds(y.accepted, rs)
    ensures Inv(Recv(y, p, rs)) <==> !Loses(y, p, rs)
  {
    hide Ledger, Timers, Notify, FreshIds, Pending, Called, Taken, FirstAddress;
    if Concerns(y, p) {
      var e := Answered(y.table[p.id], p);
      if Fails(p) {
        NotifyLedger(y, p.id, e, None, rs);
        FlushLedger(Notify(Put(y, p.id, e), p.id, None, rs), p.id);
      } else {
        SuccessInv(y, p, rs);
      }
    }
  }

  /** A successful answer: the entry is done, so even if a new query takes it over, nothing
      is lost. */
  lemma SuccessInv(y: State, p: Packet, rs: seq<Request>)
    requires Inv(y) && FreshIds(y.accepted, rs) && Concerns(y, p) && !Fails(p)
    ensures Inv(Recv(y, p, rs))
  {
    hide Ledger, Timers, FreshIds, Pending, Called, FirstAddress, EnqueueAll, Taken, Pick;
    var x := p.id;
    var e := Answered(y.table[x], p);
    var z := Put(y, x, e);
    PutAside(y, x, e);
    assert Timers(z, TABLE_SIZE) by { DoneTimers(y, x, e); }
    if e.found.None? {
      QuietLedger(y, x);
      QuietLedger(z, x);
    } else {
      CallLedger(y, x, Some(e.ip));
      var c := z.(calls := y.calls + [Call(e.found.value, e.name, Some(e.ip))]);
      PutAside(y.(calls := c.calls), x, e);
      assert Put(y.(calls := c.calls), x, e) == c;
      QuietLedger(c, x);
      assert Timers(c, TABLE_SIZE) by { SameTimers(z, c, TABLE_SIZE); }
      EnqueueAllLedger(c, rs, TABLE_SIZE);
      NotTaken(c, rs);
      EnqueueAllEntry(c, rs, TABLE_SIZE);
    }
  }

  lemma DoneTimers(y: State, x: nat, e: Entry)
    requires Timers(y, TABLE_SIZE) && |y.table| == TABLE_SIZE && x < TABLE_SIZE && e.phase == Done
    ensures Timers(Put(y, x, e), TABLE_SIZE)
  {}

  lemma {:induction false} NotTaken(y: State, rs: seq<Request>)
    requires |y.table| == TABLE_SIZE
    ensures !Taken(y, rs, TABLE_SIZE)
    decreases |rs|
  {
    if rs != [] {
      NotTaken(Enqueue(y, rs[0]), rs[1..]);
      if Pick(y).Some? {
        NeverEvicts(y);
      }
    }
  }

  // ---------------------------------------------------------------- the retry timer

  /** Ticks until an asking entry gives up, at the latest. */
  function Left(e: Entry): nat
    requires TimerOk(e) && e.phase == Asking
  {
    var rest := if e.retries == 0 then 6 else if e.retries == 1 then 5 else if e.retries == 2 then 3 else 0;
    e.tmr + rest + 7 * (MAX_SERVERS - 1 - e.numdns)
  }

  /** A new query has 7 ticks for each server. */
  lemma FullTime(e: Entry, seqno: nat, r: Request)
    ensures TimerOk(Fresh(e, seqno, r)) && Left(Fresh(e, seqno, r)) == 7 * MAX_SERVERS
  {}

  /** Query q is done with, or its entry i has at most left ticks. */
  ghost predicate Within(y: State, i: nat, q: Id, left: int) {
    Called(y, q) || (i < |y.table| && Waits(y.table[i], q) && TimerOk(y.table[i]) && Left(y.table[i]) <= left)
  }

  lemma CalledStays(y: State, z: State, q: Id)
    requires Called(y, q) && y.calls <= z.calls
    ensures Called(z, q)
  {
    var k :| 0 <= k < |y.calls| && y.calls[k].id == q;
    assert z.calls[k].id == q;
  }

  lemma {:induction false} NotifyCalls(y: State, i: nat, ip: Option<Ip>, rs: seq<Request>)
    requires |y.table| == TABLE_SIZE && i < TABLE_SIZE && y.seqno < U8 && Timers(y, i)
    ensures y.calls <= Notify(y, i, ip, rs).calls
    ensures y.table[i].found.Some? ==> Called(Notify(y, i, ip, rs), y.table[i].found.value)
  {
    hide EnqueueAll;
    var e := y.table[i];
    if e.found.Some? {
      var c := y.(calls := y.calls + [Call(e.found.value, e.name, ip)]);
      assert c.calls[|y.calls|].id == e.found.value;
      SameTimers(y, c, i);
      EnqueueAllEntry(c, rs, i);
    }
  }

  /** The callback of one entry leaves an asking entry alone. */
  lemma NotifyOthers(y: State, i: nat, ip: Option<Ip>, rs: seq<Request>, j: nat)
    requires |y.table| == TABLE_SIZE && i < TABLE_SIZE && j < TABLE_SIZE && y.seqno < U8 && Timers(y, i)
    requires y.table[j].phase == Asking
    ensures Notify(y, i, ip, rs).table[j] == y.table[j]
  {
    var e := y.table[i];
    if e.found.Some? {
      AskingStays(y.(calls := y.calls + [Call(e.found.value, e.name, ip)]), rs, j);
    }
  }

  lemma {:induction false} AskingStays(y: State, rs: seq<Request>, j: nat)
    requires |y.table| == TABLE_SIZE && j < TABLE_SIZE && y.table[j].phase == Asking
    ensures EnqueueAll(y, rs).table[j] == y.table[j]
    decreases |rs|
  {
    hide Pick;
    if rs != [] {
      if Pick(y).Some? {
        NeverEvicts(y);
      }
      AskingStays(Enqueue(y, rs[0]), rs[1..], j);
    }
  }

  /** dns_check_entry takes one tick off its entry, until the query is called back; the other
      entries it leaves alone. */
  lemma CheckWithin(y: State, j: nat, second: bool, rs: seq<Request>, i: nat, q: Id, left: int)
    requires Inv(y) && j < TABLE_SIZE && i < TABLE_SIZE && Within(y, i, q, left)
    ensures Within(Check(y, j, second, rs), i, q, if i == j then left - 1 else left)
  {
    hide Ledger, Timers, Notify, Pending, Called;
    var e, z := y.table[j], Check(y, j, second, rs);
    TimerAt(y, j);
    var expired := e.(tmr := 0, retries := MAX_RETRIES);
    var out := e.phase == Asking && e.tmr == 1 && e.retries + 1 == MAX_RETRIES &&
      !(e.numdns + 1 < MAX_SERVERS && second);
    if out {
      assert Timers(Put(y, j, expired), j) by { FewerTimers(y, j); PutAside(y, j, expired); }
      NotifyCalls(Put(y, j, expired), j, None, rs);
      if i != j && y.table[i].phase == Asking {
        NotifyOthers(Put(y, j, expired), j, None, rs, i);
      }
      if i == j && Waits(y.table[i], q) {
        CalledStays(Notify(Put(y, j, expired), j, None, rs), z, q);
      }
    }
    assert y.calls <= z.calls;
    if Called(y, q) {
      CalledStays(y, z, q);
    }
  }

  /** An undisturbed entry loses exactly one tick while a second server is configured. */
  lemma CheckExact(y: State, i: nat, rs: seq<Request>)
    requires Inv(y) && i < TABLE_SIZE && y.table[i].phase == Asking && TimerOk(y.table[i])
    ensures Left(y.table[i]) > 1 ==>
      var e := Check(y, i, true, rs).table[i];
      TimerOk(e) && e.phase == Asking && Left(e) == Left(y.table[i]) - 1
    ensures Left(y.table[i]) == 1 ==> Check(y, i, true, rs).table[i].phase == Unused
  {}

  // ---------------------------------------------------------------- runs

  function Flat(rs: seq<seq<Request>>, k: nat): seq<Request>
    requires k <= |rs|
    decreases |rs| - k
  {
    if k == |rs| then [] else rs[k] + Flat(rs, k + 1)
  }

  ghost predicate Among(id: Id, rs: seq<Request>) {
    exists k :: 0 <= k < |rs| && rs[k].found == Some(id)
  }

  lemma FreshSplit(accepted: seq<Id>, a: seq<Request>, b: seq<Request>, accepted': seq<Id>)
    requires FreshIds(accepted, a + b) && forall id :: id in accepted' ==> id in accepted || Among(id, a)
    ensures FreshIds(accepted, a) && FreshIds(accepted', b)
  {
    var ab := a + b;
    forall k | 0 <= k < |a| ensures ab[k] == a[k] {}
    forall k | 0 <= k < |b| ensures b[k] == ab[|a| + k] {}
    forall k | 0 <= k < |b| && b[k].found.Some? ensures b[k].found.value !in accepted' {
      var id := b[k].found.value;
      assert b[k] == ab[|a| + k];
      forall j | 0 <= j < |a| ensures a[j].found != Some(id) {
        assert a[j] == ab[j];
      }
    }
  }

  lemma CheckAccepted(y: State, i: nat, second: bool, rs: seq<Request>)
    requires |y.table| == TABLE_SIZE && y.seqno < U8 && Timers(y, TABLE_SIZE) && i < TABLE_SIZE
    ensures forall id :: id in Check(y, i, second, rs).accepted ==> id in y.accepted || Among(id, rs)
  {
    hide EnqueueAll, Timers;
    var e := y.table[i];
    var expired := e.(tmr := 0, retries := MAX_RETRIES);
    if e.found.Some? {
      var c := Put(y, i, expired).(calls := y.calls + [Call(e.found.value, e.name, None)]);
      assert Timers(c, i) by { FewerTimers(y, i); PutAside(y, i, expired); SameTimers(Put(y, i, expired), c, i); }
      EnqueueAllEntry(c, rs, i);
    }
  }

  lemma {:induction false} TickInv(y: State, k: nat, second: bool, rs: seq<seq<Request>>)
    requires Inv(y) && k <= TABLE_SIZE == |rs| && |y.table| == TABLE_SIZE && FreshIds(y.accepted, Flat(rs, k))
    ensures Inv(Tick(y, k, second, rs))
    decreases TABLE_SIZE - k
  {
    hide Check, FreshIds, Ledger, Timers;
    if k < TABLE_SIZE {
      var z := Check(y, k, second, rs[k]);
      CheckAccepted(y, k, second, rs[k]);
      FreshSplit(y.accepted, rs[k], Flat(rs, k + 1), z.accepted);
      CheckInv(y, k, second, rs[k]);
      TickInv(z, k + 1, second, rs);
    }
  }

  lemma {:induction false} TickWithin(y: State, k: nat, second: bool, rs: seq<seq<Request>>, i: nat, q: Id, left: int)
    requires Inv(y) && k <= TABLE_SIZE == |rs| && |y.table| == TABLE_SIZE && i < TABLE_SIZE
    requires Within(y, i, q, left) && FreshIds(y.accepted, Flat(rs, k))
    ensures Within(Tick(y, k, second, rs), i, q, if k <= i then left - 1 else left)
    decreases TABLE_SIZE - k
  {
    hide Check, FreshIds, Ledger, Timers, Within;
    if k < TABLE_SIZE {
      var z := Check(y, k, second, rs[k]);
      CheckAccepted(y, k, second, rs[k]);
      FreshSplit(y.accepted, rs[k], Flat(rs, k + 1), z.accepted);
      CheckInv(y, k, second, rs[k]);
      CheckWithin(y, k, second, rs[k], i, q, left);
      TickWithin(z, k + 1, second, rs, i, q, if i == k then left - 1 else left);
    }
  }

  /** A packet answers its own entry and leaves the other asking ones alone. */
  lemma RecvWithin(y: State, p: Packet, rs: seq<Request>, i: nat, q: Id, left: int)
    requires Inv(y) && i < TABLE_SIZE && Within(y, i, q, left)
    ensures Within(Recv(y, p, rs), i, q, left)
  {
    hide Ledger, Timers, Notify, Pending, Called, FirstAddress;
    if Concerns(y, p) {
      var x, e := p.id, Answered(y.table[p.id], p);
      var z, ip := Put(y, x, e), if Fails(p) then None else Some(e.ip);
      assert Timers(z, x) by { FewerTimers(y, x); PutAside(y, x, e); }
      NotifyCalls(z, x, ip, rs);
      if i != x && y.table[i].phase == Asking {
        NotifyOthers(z, x, ip, rs, i);
      }
      if i == x && Waits(y.table[i], q) {
        CalledStays(Notify(z, x, ip, rs), Recv(y, p, rs), q);
      }
      if Called(y, q) {
        CalledStays(y, Recv(y, p, rs), q);
      }
    }
  }

  datatype Step = Ask(r: Request) | Timer(second: bool, rs: seq<seq<Request>>) | Input(p: Packet, nested: seq<Request>)

  /** Callbacks are not reused. */
  ghost predicate Fair(y: State, s: Step)
    requires |y.table| == TABLE_SIZE
  {
    match s
    case Ask(r) => FreshIds(y.accepted, [r])
    case Timer(_, rs) => |rs| == TABLE_SIZE && FreshIds(y.accepted, Flat(rs, 0))
    case Input(_, rs) => FreshIds(y.accepted, rs)
  }

  /** And no query is started from the callback of a failed one that would get the very same
      entry. */
  ghost predicate Legal(y: State, s: Step)
    requires |y.table| == TABLE_SIZE
  {
    Fair(y, s) && (s.Input? ==> !Loses(y, s.p, s.nested))
  }

  ghost function Next(y: State, s: Step): (z: State)
    requires |y.table| == TABLE_SIZE && Fair(y, s)
    ensures |z.table| == TABLE_SIZE
  {
    match s
    case Ask(r) => Enqueue(y, r)
    case Timer(second, rs) => Tick(y, 0, second, rs)
    case Input(p, rs) => Recv(y, p, rs)
  }

  lemma NextInv(y: State, s: Step)
    requires Inv(y) && Legal(y, s)
    ensures Inv(Next(y, s))
  {
    hide Ledger, Timers, Check, Notify, Pick, FreshIds, Loses;
    match s
    case Ask(r) =>
      assert Pick(y) != Some(TABLE_SIZE) by { if Pick(y).Some? { NeverEvicts(y); } }
      EnqueueLedger(y, r, TABLE_SIZE);
      EnqueueEntry(y, r, TABLE_SIZE);
    case Timer(second, rs) => TickInv(y, 0, second, rs);
    case Input(p, rs) => RecvInv(y, p, rs);
  }

  lemma NextWithin(y: State, s: Step, i: nat, q: Id, left: int)
    requires Inv(y) && Legal(y, s) && i < TABLE_SIZE && Within(y, i, q, left)
    ensures Within(Next(y, s), i, q, if s.Timer? then left - 1 else left)
  {
    hide Ledger, Timers, Check, Notify, Pick, FreshIds, Loses;
    match s
    case Ask(r) =>
      EnqueueEntry(y, r, TABLE_SIZE);
      if Called(y, q) {
        CalledStays(y, Enqueue(y, r), q);
      } else {
        assert Enqueue(y, r).table[i] == y.table[i] by { FewerTimers(y, i); EnqueueEntry(y, r, i); }
      }
    case Timer(second, rs) => TickWithin(y, 0, second, rs, i, q, left);
    case Input(p, rs) => RecvWithin(y, p, rs, i, q, left);
  }

  ghost predicate LegalRun(y: State, run: seq<Step>)
    requires |y.table| == TABLE_SIZE
    decreases |run|
  {
    run == [] || (Legal(y, run[0]) && LegalRun(Next(y, run[0]), run[1..]))
  }

  ghost function After(y: State, run: seq<Step>): (z: State)
    requires |y.table| == TABLE_SIZE && LegalRun(y, run)
    ensures |z.table| == TABLE_SIZE
    decreases |run|
  {
    if run == [] then y else After(Next(y, run[0]), run[1..])
  }

  function Ticks(run: seq<Step>): nat {
    if run == [] then 0 else (if run[0].Timer? then 1 else 0) + Ticks(run[1..])
  }

  lemma {:induction false} AfterWithin(y: State, run: seq<Step>, i: nat, q: Id, left: int)
    requires Inv(y) && LegalRun(y, run) && i < TABLE_SIZE && Within(y, i, q, left)
    ensures Inv(After(y, run)) && Within(After(y, run), i, q, left - Ticks(run))
    decreases |run|
  {
    hide Ledger, Timers, Next, Fair, Loses, Within;
    if run != [] {
      NextInv(y, run[0]);
      NextWithin(y, run[0], i, q, left);
      AfterWithin(Next(y, run[0]), run[1..], i, q, if run[0].Timer? then left - 1 else left);
    }
  }

  lemma {:induction false} AfterInv(y: State, run: seq<Step>)
    requires Inv(y) && LegalRun(y, run)
    ensures Inv(After(y, run))
    decreases |run|
  {
    hide Ledger, Timers, Next, Fair, Loses;
    if run != [] {
      NextInv(y, run[0]);
      AfterInv(Next(y, run[0]), run[1..]);
    }
  }

  lemma OnlyOnce(z: State, i: nat, q: Id, left: int)
    requires Inv(z) && Within(z, i, q, left) && left <= 0
    ensures CalledExactlyOnce(z, q)
  {
    var k :| 0 <= k < |z.calls| && z.calls[k].id == q;
    assert forall j :: 0 <= j < |z.calls| && j != k ==> z.calls[j].id != q;
  }

  ghost predicate CalledExactlyOnce(z: State, q: Id) {
    exists k :: 0 <= k < |z.calls| && z.calls[k].id == q &&
      forall j :: 0 <= j < |z.calls| && j != k ==> z.calls[j].id != q
  }

  // ---------------------------------------------------------------- runs that lose queries

  /** The accepted queries but those of a set. */
  function Without(accepted: seq<Id>, lost: set<Id>): (r: seq<Id>)
    ensures forall q :: q in r <==> q in accepted && q !in lost
  {
    if accepted == [] then []
    else
      var n := |accepted| - 1;
      Without(accepted[..n], lost) + if accepted[n] in lost then [] else [accepted[n]]
  }

  lemma WithoutAppend(accepted: seq<Id>, q: Id, lost: set<Id>)
    ensures Without(accepted + [q], lost) == Without(accepted, lost) + if q in lost then [] else [q]
  {
    assert (accepted + [q])[..|accepted|] == accepted;
  }

  lemma {:induction false} WithoutNew(accepted: seq<Id>, lost: set<Id>, q: Id)
    requires q !in accepted
    ensures Without(accepted, lost + {q}) == Without(accepted, lost)
  {
    if accepted != [] {
      WithoutNew(accepted[..|accepted| - 1], lost, q);
    }
  }

  lemma {:induction false} WithoutNone(accepted: seq<Id>)
    ensures Without(accepted, {}) == accepted
  {
    if accepted != [] {
      WithoutNone(accepted[..|accepted| - 1]);
      assert accepted == accepted[..|accepted| - 1] + [accepted[|accepted| - 1]];
    }
  }

  /** The state as if the lost queries had come without a callback. */
  function Forget(y: State, lost: set<Id>): State {
    y.(accepted := Without(y.accepted, lost))
  }

  ghost predicate Off(lost: set<Id>, rs: seq<Request>) {
    forall k :: 0 <= k < |rs| && rs[k].found.Some? ==> rs[k].found.value !in lost
  }

  lemma EnqueueForget(y: State, r: Request, lost: set<Id>)
    requires |y.table| == TABLE_SIZE && Off(lost, [r])
    ensures Enqueue(Forget(y, lost), r) == Forget(Enqueue(y, r), lost)
  {
    hide Pick, Without;
    assert Pick(Forget(y, lost)) == Pick(y) by { SamePick(y, Forget(y, lost)); }
    assert [r][0] == r;
    if r.found.Some? {
      WithoutAppend(y.accepted, r.found.value, lost);
    }
    assert forall a: seq<Id> :: a + [] == a;
  }

  /** The choice of an entry depends on phases and sequence numbers only. */
  lemma SamePick(y: State, z: State)
    requires |y.table| == TABLE_SIZE == |z.table| && y.seqno == z.seqno
    requires forall i :: 0 <= i < TABLE_SIZE ==>
      y.table[i].phase == z.table[i].phase && y.table[i].seqno == z.table[i].seqno
    ensures Pick(y) == Pick(z)
  {
    SameOldest(y, z, TABLE_SIZE);
  }

  lemma OldestStep(table: seq<Entry>, seqno: nat, n: nat)
    requires n <= |table|
    ensures Oldest(table, seqno, n) ==
      if n == 0 then (0, 0)
      else
        var r, e := Oldest(table, seqno, n - 1), table[n - 1];
        if e.phase == Done && seqno - e.seqno > r.0 then (seqno - e.seqno, n - 1) else r
  {}

  lemma {:induction false} SameOldest(y: State, z: State, n: nat)
    requires n <= |y.table| == |z.table| && y.seqno == z.seqno
    requires forall i :: 0 <= i < |y.table| ==>
      y.table[i].phase == z.table[i].phase && y.table[i].seqno == z.table[i].seqno
    ensures Oldest(y.table, y.seqno, n) == Oldest(z.table, z.seqno, n)
  {
    hide Oldest;
    OldestStep(y.table, y.seqno, n);
    OldestStep(z.table, z.seqno, n);
    if n > 0 {
      SameOldest(y, z, n - 1);
    }
  }

  lemma {:induction false} EnqueueAllForget(y: State, rs: seq<Request>, lost: set<Id>)
    requires |y.table| == TABLE_SIZE && Off(lost, rs)
    ensures EnqueueAll(Forget(y, lost), rs) == Forget(EnqueueAll(y, rs), lost)
    decreases |rs|
  {
    hide Enqueue, Forget;
    if rs != [] {
      assert Off(lost, [rs[0]]);
      EnqueueForget(y, rs[0], lost);
      EnqueueAllForget(Enqueue(y, rs[0]), rs[1..], lost);
      assert |Forget(y, lost).table| == TABLE_SIZE by { ForgetTable(y, lost); }
    }
  }

  lemma ForgetTable(y: State, lost: set<Id>)
    ensures Forget(y, lost).table == y.table && Forget(y, lost).calls == y.calls && Forget(y, lost).seqno == y.seqno
  {}

  lemma NotifyForget(y: State, i: nat, ip: Option<Ip>, rs: seq<Request>, lost: set<Id>)
    requires |y.table| == TABLE_SIZE && i < TABLE_SIZE && Off(lost, rs)
    ensures Notify(Forget(y, lost), i, ip, rs) == Forget(Notify(y, i, ip, rs), lost)
  {
    hide EnqueueAll;
    var e := y.table[i];
    if e.found.Some? {
      EnqueueAllForget(y.(calls := y.calls + [Call(e.found.value, e.name, ip)]), rs, lost);
    }
  }

  lemma CheckForget(y: State, i: nat, second: bool, rs: seq<Request>, lost: set<Id>)
    requires |y.table| == TABLE_SIZE && i < TABLE_SIZE && Off(lost, rs)
    ensures Check(Forget(y, lost), i, second, rs) == Forget(Check(y, i, second, rs), lost)
  {
    hide Notify, Without;
    var e := y.table[i];
    NotifyForget(Put(y, i, e.(tmr := 0, retries := MAX_RETRIES)), i, None, rs, lost);
  }

  lemma OffSplit(lost: set<Id>, a: seq<Request>, b: seq<Request>)
    requires Off(lost, a + b)
    ensures Off(lost, a) && Off(lost, b)
  {
    forall k | 0 <= k < |a| ensures a[k] == (a + b)[k] {}
    forall k | 0 <= k < |b| ensures b[k] == (a + b)[|a| + k] {}
  }

  lemma {:induction false} TickForget(y: State, k: nat, second: bool, rs: seq<seq<Request>>, lost: set<Id>)
    requires |y.table| == TABLE_SIZE == |rs| && k <= TABLE_SIZE && Off(lost, Flat(rs, k))
    ensures Tick(Forget(y, lost), k, second, rs) == Forget(Tick(y, k, second, rs), lost)
    decreases TABLE_SIZE - k
  {
    hide Check, Forget, Without;
    if k < TABLE_SIZE {
      OffSplit(lost, rs[k], Flat(rs, k + 1));
      ForgetTable(y, lost);
      CheckForget(y, k, second, rs[k], lost);
      TickForget(Check(y, k, second, rs[k]), k + 1, second, rs, lost);
    }
  }

  lemma RecvForget(y: State, p: Packet, rs: seq<Request>, lost: set<Id>)
    requires |y.table| == TABLE_SIZE && Off(lost, rs)
    ensures Recv(Forget(y, lost), p, rs) == Forget(Recv(y, p, rs), lost)
  {
    hide Notify, Without, FirstAddress;
    if Concerns(y, p) {
      var e := Answered(y.table[p.id], p);
      NotifyForget(Put(y, p.id, e), p.id, if Fails(p) then None else Some(e.ip), rs, lost);
    }
  }

  /** The requests, but the one with a callback that gets entry x comes without it. */
  function Silence(y: State, rs: seq<Request>, x: nat): (r: seq<Request>)
    requires |y.table| == TABLE_SIZE
    ensures |r| == |rs| && forall k :: 0 <= k < |rs| ==> r[k] == rs[k] || r[k] == rs[k].(found := None)
    decreases |rs|
  {
    if rs == [] then []
    else if Pick(y) == Some(x) && rs[0].found.Some? then [rs[0].(found := None)] + rs[1..]
    else [rs[0]] + Silence(Enqueue(y, rs[0]), rs[1..], x)
  }

  /** Its callback. */
  function Victim(y: State, rs: seq<Request>, x: nat): (q: Id)
    requires |y.table| == TABLE_SIZE && Taken(y, rs, x)
    ensures exists k :: 0 <= k < |rs| && rs[k].found == Some(q)
    decreases |rs|
  {
    if Pick(y) == Some(x) && rs[0].found.Some? then rs[0].found.value
    else
      var q := Victim(Enqueue(y, rs[0]), rs[1..], x);
      assert exists k :: 0 <= k < |rs[1..]| && rs[1..][k].found == Some(q);
      q
  }

  /** The states agree but for the callback of entry x, which is asking, and the lost query. */
  ghost predicate Alike(y: State, z: State, x: nat, q: Id) {
    && |y.table| == TABLE_SIZE && x < TABLE_SIZE && y.table[x].phase == Asking
    && z.table == y.table[x := y.table[x].(found := None)] && z.seqno == y.seqno && z.calls == y.calls
    && z.accepted == Without(y.accepted, {q}) && q in y.accepted
  }

  lemma {:induction false} AlikeAll(y: State, z: State, rs: seq<Request>, x: nat, q: Id)
    requires Alike(y, z, x, q) && Off({q}, rs)
    ensures Alike(EnqueueAll(y, rs), EnqueueAll(z, rs), x, q) && !Taken(z, rs, x)
    decreases |rs|
  {
    hide Enqueue, Alike, Pick;
    if rs != [] {
      AlikeOne(y, z, rs[0], x, q);
      AlikeAll(Enqueue(y, rs[0]), Enqueue(z, rs[0]), rs[1..], x, q);
    }
  }

  lemma AlikeOne(y: State, z: State, r: Request, x: nat, q: Id)
    requires Alike(y, z, x, q) && r.found != Some(q)
    ensures |z.table| == TABLE_SIZE == |y.table| && Alike(Enqueue(y, r), Enqueue(z, r), x, q) && Pick(z) != Some(x)
  {
    hide Without;
    SamePick(y, z);
    var i := Pick(y);
    if i.Some? {
      NeverEvicts(y);
      hide Pick;
      if r.found.Some? {
        WithoutAppend(y.accepted, r.found.value, {q});
      }
      assert Enqueue(z, r).table == Enqueue(y, r).table[x := y.table[x].(found := None)];
      assert forall a: seq<Id> :: a + [] == a;
    }
  }

  /** Without its callback the query that gets entry x is not missed. */
  lemma {:induction false} SilenceAll(y: State, rs: seq<Request>, x: nat)
    requires |y.table| == TABLE_SIZE && x < TABLE_SIZE && FreshIds(y.accepted, rs) && Taken(y, rs, x)
    ensures Alike(EnqueueAll(y, rs), EnqueueAll(y, Silence(y, rs, x)), x, Victim(y, rs, x))
    ensures !Taken(y, Silence(y, rs, x), x)
    decreases |rs|
  {
    hide Pick, Without, Alike;
    var r, more := rs[0], rs[1..];
    FreshRest(y, rs);
    if Pick(y) == Some(x) && r.found.Some? {
      var quiet := r.(found := None);
      assert Silence(y, rs, x)[1..] == more && Silence(y, rs, x)[0] == quiet;
      SilenceOne(y, r, x);
      assert Off({r.found.value}, more);
      AlikeAll(Enqueue(y, r), Enqueue(y, quiet), more, x, r.found.value);
    } else {
      assert Silence(y, rs, x)[1..] == Silence(Enqueue(y, r), more, x) && Silence(y, rs, x)[0] == r;
      SilenceAll(Enqueue(y, r), more, x);
    }
  }

  lemma SilenceOne(y: State, r: Request, x: nat)
    requires |y.table| == TABLE_SIZE && Pick(y) == Some(x) && r.found.Some? && r.found.value !in y.accepted
    ensures Alike(Enqueue(y, r), Enqueue(y, r.(found := None)), x, r.found.value)
  {
    hide Without;
    NeverEvicts(y);
    hide Pick;
    var q := r.found.value;
    WithoutAppend(y.accepted, q, {q});
    WithoutNew(y.accepted, {}, q);
    WithoutNone(y.accepted);
    assert {} + {q} == {q};
    assert y.accepted + [] == y.accepted;
  }

  lemma {:induction false} WithoutTwice(accepted: seq<Id>, lost: set<Id>, q: Id)
    ensures Without(Without(accepted, {q}), lost) == Without(accepted, lost + {q})
  {
    hide Without;
    if accepted == [] {
      WithoutLast(accepted, {q});
      WithoutLast(accepted, lost);
      WithoutLast(accepted, lost + {q});
    } else {
      var n := |accepted| - 1;
      var a := Without(accepted[..n], {q});
      WithoutLast(accepted, {q});
      WithoutLast(accepted, lost + {q});
      WithoutTwice(accepted[..n], lost, q);
      assert a + [] == a;
      if accepted[n] != q {
        WithoutAppend(a, accepted[n], lost);
      }
    }
  }

  lemma WithoutLast(accepted: seq<Id>, lost: set<Id>)
    ensures accepted == [] ==> Without(accepted, lost) == []
    ensures accepted != [] ==> var n := |accepted| - 1;
      Without(accepted, lost) == Without(accepted[..n], lost) + if accepted[n] in lost then [] else [accepted[n]]
  {}

  lemma {:induction false} TakenForget(y: State, rs: seq<Request>, x: nat, lost: set<Id>)
    requires |y.table| == TABLE_SIZE && Off(lost, rs)
    ensures Taken(Forget(y, lost), rs, x) == Taken(y, rs, x)
    decreases |rs|
  {
    hide Pick, Enqueue, Without;
    if rs != [] {
      SamePick(y, Forget(y, lost));
      assert Off(lost, [rs[0]]);
      EnqueueForget(y, rs[0], lost);
      TakenForget(Enqueue(y, rs[0]), rs[1..], x, lost);
    }
  }

  /** The state in which the callback of a failed query makes its requests. */
  function Failing(y: State, p: Packet): (c: State)
    requires |y.table| == TABLE_SIZE && Concerns(y, p) && y.table[p.id].found.Some?
    ensures |c.table| == TABLE_SIZE
  {
    var e := Answered(y.table[p.id], p);
    Put(y, p.id, e).(calls := y.calls + [Call(e.found.value, e.name, None)])
  }

  /** The query a packet loses: it was accepted, but its entry is flushed at once. */
  lemma RecvLossy(y: State, p: Packet, rs: seq<Request>, lost: set<Id>)
    requires |y.table| == TABLE_SIZE && Loses(y, p, rs) && FreshIds(y.accepted, rs)
    requires forall q :: q in lost ==> q in y.accepted
    ensures var c := Failing(y, p);
      var q, quiet := Victim(c, rs, p.id), Silence(c, rs, p.id);
      && Recv(Forget(y, lost), p, quiet) == Forget(Recv(y, p, rs), lost + {q}) && !Loses(Forget(y, lost), p, quiet)
      && q !in y.accepted && q in Recv(y, p, rs).accepted
  {
    hide EnqueueAll, Taken, Pick, Without, FirstAddress;
    var c, x := Failing(y, p), p.id;
    var q, quiet := Victim(c, rs, x), Silence(c, rs, x);
    SilenceAll(c, rs, x);
    var a, b := EnqueueAll(c, rs), EnqueueAll(c, quiet);
    assert Recv(y, p, rs) == Flush(a, x) && Recv(y, p, quiet) == Flush(b, x);
    assert Flush(a, x).table == Flush(b, x).table;
    assert Off(lost, quiet);
    RecvForget(y, p, quiet, lost);
    WithoutTwice(a.accepted, lost, q);
    TakenForget(c, quiet, x, lost);
    assert Concerns(Forget(y, lost), p) ==> Failing(Forget(y, lost), p) == Forget(c, lost);
  }

  ghost function LostBy(y: State, s: Step): set<Id>
    requires |y.table| == TABLE_SIZE
  {
    if s.Input? && Loses(y, s.p, s.nested) then {Victim(Failing(y, s.p), s.nested, s.p.id)} else {}
  }

  ghost function Quiet(y: State, s: Step): Step
    requires |y.table| == TABLE_SIZE
  {
    if s.Input? && Loses(y, s.p, s.nested) then Input(s.p, Silence(Failing(y, s.p), s.nested, s.p.id)) else s
  }

  lemma FreshOff(accepted: seq<Id>, rs: seq<Request>, lost: set<Id>)
    requires FreshIds(accepted, rs) && forall q :: q in lost ==> q in accepted
    ensures Off(lost, rs) && FreshIds(Without(accepted, lost), rs)
  {
    hide Without;
  }

  lemma FreshSilence(y: State, rs: seq<Request>, x: nat)
    requires |y.table| == TABLE_SIZE && FreshIds(y.accepted, rs)
    ensures FreshIds(y.accepted, Silence(y, rs, x))
  {
    hide Pick, Enqueue;
    var r := Silence(y, rs, x);
    assert forall k :: 0 <= k < |rs| && r[k].found.Some? ==> r[k].found == rs[k].found;
  }

  /** A step that loses a query is one that does not, of a caller that gave it no callback. */
  lemma StepQuiet(y: State, s: Step, lost: set<Id>)
    requires |y.table| == TABLE_SIZE && Fair(y, s) && forall q :: q in lost ==> q in y.accepted
    ensures Legal(Forget(y, lost), Quiet(y, s))
    ensures Next(Forget(y, lost), Quiet(y, s)) == Forget(Next(y, s), lost + LostBy(y, s))
    ensures forall q :: q in LostBy(y, s) ==> q in Next(y, s).accepted
    ensures LostBy(y, s) != {} ==> forall q :: q in LostBy(y, s) ==> q !in y.accepted
  {
    hide Enqueue, Tick, Recv, Without, Loses, FreshIds, Silence, Victim, Flat, Pick;
    assert lost + {} == lost;
    match s
    case Ask(r) =>
      FreshOff(y.accepted, [r], lost);
      EnqueueForget(y, r, lost);
    case Timer(second, rs) =>
      FreshOff(y.accepted, Flat(rs, 0), lost);
      TickForget(y, 0, second, rs, lost);
    case Input(p, rs) =>
      FreshOff(y.accepted, rs, lost);
      if Loses(y, p, rs) {
        RecvLossy(y, p, rs, lost);
        SilenceFresh(y, p, rs);
        FreshOff(y.accepted, Silence(Failing(y, p), rs, p.id), lost);
      } else {
        RecvForget(y, p, rs, lost);
        LosesForget(y, p, rs, lost);
      }
  }

  lemma SilenceFresh(y: State, p: Packet, rs: seq<Request>)
    requires |y.table| == TABLE_SIZE && Loses(y, p, rs) && FreshIds(y.accepted, rs)
    ensures Concerns(y, p) && y.table[p.id].found.Some?
    ensures FreshIds(y.accepted, Silence(Failing(y, p), rs, p.id))
  {
    hide FirstAddress;
    FreshSilence(Failing(y, p), rs, p.id);
  }

  lemma LosesForget(y: State, p: Packet, rs: seq<Request>, lost: set<Id>)
    requires |y.table| == TABLE_SIZE && Off(lost, rs)
    ensures Loses(Forget(y, lost), p, rs) == Loses(y, p, rs)
  {
    hide Taken, Without, FirstAddress;
    if Concerns(y, p) && y.table[p.id].found.Some? {
      TakenForget(Failing(y, p), rs, p.id, lost);
    }
  }

  // ---------------------------------------------------------------- whole runs

  ghost predicate FairRun(y: State, run: seq<Step>)
    requires |y.table| == TABLE_SIZE
    decreases |run|
  {
    run == [] || (Fair(y, run[0]) && FairRun(Next(y, run[0]), run[1..]))
  }

  ghost function Go(y: State, run: seq<Step>): (z: State)
    requires |y.table| == TABLE_SIZE && FairRun(y, run)
    ensures |z.table| == TABLE_SIZE
    decreases |run|
  {
    if run == [] then y else Go(Next(y, run[0]), run[1..])
  }

  /** The queries a run loses. */
  ghost function LostIn(y: State, run: seq<Step>): set<Id>
    requires |y.table| == TABLE_SIZE && FairRun(y, run)
    decreases |run|
  {
    if run == [] then {} else LostBy(y, run[0]) + LostIn(Next(y, run[0]), run[1..])
  }

  ghost function QuietRun(y: State, run: seq<Step>): seq<Step>
    requires |y.table| == TABLE_SIZE && FairRun(y, run)
    decreases |run|
  {
    if run == [] then [] else [Quiet(y, run[0])] + QuietRun(Next(y, run[0]), run[1..])
  }

  lemma {:induction false} RunQuiet(y: State, run: seq<Step>, lost: set<Id>)
    requires |y.table| == TABLE_SIZE && FairRun(y, run) && forall q :: q in lost ==> q in y.accepted
    ensures |Forget(y, lost).table| == TABLE_SIZE && LegalRun(Forget(y, lost), QuietRun(y, run))
    ensures After(Forget(y, lost), QuietRun(y, run)) == Forget(Go(y, run), lost + LostIn(y, run))
    ensures forall q :: q in lost + LostIn(y, run) ==> q in Go(y, run).accepted
    ensures Ticks(QuietRun(y, run)) == Ticks(run)
    decreases |run|
  {
    hide Fair, Next, Legal, Quiet, LostBy, Without;
    if run == [] {
      assert lost + {} == lost;
    } else {
      var s, z := run[0], Next(y, run[0]);
      StepQuiet(y, s, lost);
      NextAccepted(y, s);
      var more := lost + LostBy(y, s);
      RunQuiet(z, run[1..], more);
      assert more + LostIn(z, run[1..]) == lost + LostIn(y, run);
      assert QuietRun(y, run)[0] == Quiet(y, s) && QuietRun(y, run)[1..] == QuietRun(z, run[1..]);
      assert Quiet(y, s).Timer? == s.Timer? by { QuietKind(y, s); }
    }
  }

  lemma QuietKind(y: State, s: Step)
    requires |y.table| == TABLE_SIZE
    ensures Quiet(y, s).Timer? == s.Timer?
  {
    hide Loses;
  }

  lemma {:induction false} EnqueueAllAccepted(y: State, rs: seq<Request>)
    requires |y.table| == TABLE_SIZE
    ensures y.accepted <= EnqueueAll(y, rs).accepted
    decreases |rs|
  {
    hide Pick;
    if rs != [] {
      EnqueueAllAccepted(Enqueue(y, rs[0]), rs[1..]);
    }
  }

  lemma NotifyAccepted(y: State, i: nat, ip: Option<Ip>, rs: seq<Request>)
    requires |y.table| == TABLE_SIZE && i < TABLE_SIZE
    ensures y.accepted <= Notify(y, i, ip, rs).accepted
  {
    hide EnqueueAll;
    var e := y.table[i];
    if e.found.Some? {
      EnqueueAllAccepted(y.(calls := y.calls + [Call(e.found.value, e.name, ip)]), rs);
    }
  }

  lemma {:induction false} TickAccepted(y: State, k: nat, second: bool, rs: seq<seq<Request>>)
    requires |y.table| == TABLE_SIZE == |rs| && k <= TABLE_SIZE
    ensures y.accepted <= Tick(y, k, second, rs).accepted
    decreases TABLE_SIZE - k
  {
    hide Notify;
    if k < TABLE_SIZE {
      var e := y.table[k];
      NotifyAccepted(Put(y, k, e.(tmr := 0, retries := MAX_RETRIES)), k, None, rs[k]);
      var z := Check(y, k, second, rs[k]);
      assert y.accepted <= z.accepted;
      hide Check;
      TickAccepted(z, k + 1, second, rs);
    }
  }

  /** Accepted queries stay accepted. */
  lemma NextAccepted(y: State, s: Step)
    requires |y.table| == TABLE_SIZE && Fair(y, s)
    ensures forall q :: q in y.accepted ==> q in Next(y, s).accepted
  {
    hide Pick, Tick, Notify, FirstAddress, FreshIds;
    match s
    case Ask(r) =>
    case Timer(second, rs) => TickAccepted(y, 0, second, rs);
    case Input(p, rs) =>
      if Concerns(y, p) {
        var e := Answered(y.table[p.id], p);
        NotifyAccepted(Put(y, p.id, e), p.id, if Fails(p) then None else Some(e.ip), rs);
      }
  }

  /** The books balance but for the lost queries. */
  ghost predicate Books(y: State, lost: set<Id>) {
    (forall q :: q in lost ==> q in y.accepted) && Inv(Forget(y, lost))
  }

  lemma RunBooks(y: State, run: seq<Step>, lost: set<Id>)
    requires Books(y, lost) && |y.table| == TABLE_SIZE && FairRun(y, run)
    ensures Books(Go(y, run), lost + LostIn(y, run))
  {
    hide Ledger, Timers, Forget;
    RunQuiet(y, run, lost);
    AfterInv(Forget(y, lost), QuietRun(y, run));
  }

  /** A lost query waits nowhere and is never called back. */
  lemma LostForGood(y: State, lost: set<Id>, q: Id)
    requires Books(y, lost) && q in lost
    ensures Lost(y, TABLE_SIZE, q)
  {
    hide Without, Timers;
    var z := Forget(y, lost);
    assert q !in z.accepted;
    assert Pending(z, q, TABLE_SIZE) <==> Pending(y, q, TABLE_SIZE);
    assert Called(z, q) <==> Called(y, q);
  }

  /** After a run the books balance exactly if it lost nothing. */
  lemma BalancedIff(y: State, run: seq<Step>)
    requires Inv(y) && FairRun(y, run)
    ensures Inv(Go(y, run)) <==> LostIn(y, run) == {}
  {
    hide Ledger, Timers, Go, LostIn, FairRun;
    var z, lost := Go(y, run), LostIn(y, run);
    WithoutNone(y.accepted);
    assert Forget(y, {}) == y;
    RunBooks(y, run, {});
    assert {} + lost == lost;
    if lost == {} {
      WithoutNone(z.accepted);
      assert Forget(z, {}) == z;
    } else {
      var q :| q in lost;
      LostForGood(z, lost, q);
      LostBreaks(z, TABLE_SIZE, q);
    }
  }

  /** Whatever packets arrive and whatever the callbacks ask: every query accepted so far is
      called back exactly once, at the latest by the 14th timer tick from here, except those
      that were lost when they were accepted. */
  lemma CalledOnce(y: State, lost: set<Id>, run: seq<Step>, q: Id)
    requires Books(y, lost) && |y.table| == TABLE_SIZE && FairRun(y, run) && Ticks(run) >= 7 * MAX_SERVERS
    requires q in y.accepted && q !in lost
    ensures CalledExactlyOnce(Go(y, run), q)
  {
    hide Timers, Ledger, Within, Without, FairRun, Go, LostIn, QuietRun, LegalRun, After, Ticks;
    var w, quiet := Forget(y, lost), QuietRun(y, run);
    RunQuiet(y, run, lost);
    var i := WithinNow(w, q);
    AfterWithin(w, quiet, i, q, 7 * MAX_SERVERS);
    OnlyOnce(After(w, quiet), i, q, 7 * MAX_SERVERS - Ticks(run));
  }

  lemma WithinNow(y: State, q: Id) returns (i: nat)
    requires Inv(y) && q in y.accepted
    ensures i < TABLE_SIZE && Within(y, i, q, 7 * MAX_SERVERS)
  {
    i := 0;
    if !Called(y, q) {
      i :| 0 <= i < |y.table| && Waits(y.table[i], q);
      TimerAt(y, i);
    }
  }

  function Start(): (y: State)
    ensures |y.table| == TABLE_SIZE
  {
    State(seq(TABLE_SIZE, _ => Entry(Unused, 0, 0, 0, 0, 0, 0, "", 0, None)), 0, [], [])
  }

  /** In every run each accepted query is waiting in exactly one entry, has been called back
      exactly once, or was lost: one of the three. */
  lemma Conservation(run: seq<Step>, q: Id)
    requires FairRun(Start(), run)
    ensures var z, lost := Go(Start(), run), LostIn(Start(), run);
      && (q in z.accepted <==> Pending(z, q, TABLE_SIZE) || Called(z, q) || q in lost)
      && !(Pending(z, q, TABLE_SIZE) && Called(z, q)) && !(q in lost && (Pending(z, q, TABLE_SIZE) || Called(z, q)))
      && (forall j, k :: 0 <= j < k < |z.calls| ==> z.calls[j].id != z.calls[k].id)
      && (forall i, j :: 0 <= i < j < TABLE_SIZE && Waits(z.table[i], q) ==> !Waits(z.table[j], q))
  {
    hide FairRun, Go, LostIn, Without;
    var z, lost := Go(Start(), run), LostIn(Start(), run);
    StartBooks();
    RunBooks(Start(), run, {});
    assert {} + lost == lost;
    var w := Forget(z, lost);
    assert Pending(w, q, TABLE_SIZE) <==> Pending(z, q, TABLE_SIZE);
    assert Called(w, q) <==> Called(z, q);
  }

  lemma StartBooks()
    ensures Books(Start(), {}) && Inv(Start())
  {
    assert Forget(Start(), {}) == Start();
  }

  // ---------------------------------------------------------------- two runs from the empty table

  /** The first k entries ask, in order, with sequence numbers from n on. */
  ghost predicate Filled(y: State, k: nat, n: nat) {
    && |y.table| == TABLE_SIZE && k <= TABLE_SIZE && y.seqno == (n + k) % U8
    && forall i :: 0 <= i < TABLE_SIZE ==>
      if i < k then y.table[i].phase == Asking && y.table[i].seqno == (n + i) % U8 else y.table[i].phase == Unused
  }

  lemma AskFills(y: State, r: Request, k: nat, n: nat)
    requires Filled(y, k, n) && k < TABLE_SIZE
    ensures var z := Enqueue(y, r);
      && Filled(z, k + 1, n) && z.table == y.table[k := z.table[k]] && z.table[k].found == r.found && z.calls == y.calls
      && z.accepted == y.accepted + if r.found.Some? then [r.found.value] else []
  {
    var f := FirstUnused(y.table, 0);
    assert y.table[k].phase == Unused;
    assert forall i :: 0 <= i < k ==> y.table[i].phase != Unused;
    hide Oldest, FirstUnused;
    assert Pick(y) == Some(k);
    assert ((n + k) % U8 + 1) % U8 == (n + k + 1) % U8;
  }

  /** A query is lost: all four entries ask, the first fails, and its callback asks again. */
  lemma LosingRun(ids: seq<Id>, q: Id, p: Packet) returns (run: seq<Step>)
    requires |ids| == TABLE_SIZE && NoDup(ids) && q !in ids && Sized(p) && p.id == 0 && Fails(p)
    ensures FairRun(Start(), run) && LostIn(Start(), run) == {q} && |run| == TABLE_SIZE + 1
  {
    hide Enqueue, Pick, FirstAddress, Loses;
    var y, k := Start(), 0;
    var asks: seq<Step> := [];
    while k < TABLE_SIZE
      invariant k <= TABLE_SIZE && |asks| == k && Filled(y, k, 0) && y.accepted == ids[..k]
      invariant FairRun(Start(), asks) && Go(Start(), asks) == y && LostIn(Start(), asks) == {}
      invariant k > 0 ==> y.table[0].found.Some?
    {
      var r := Request("", Some(ids[k]));
      assert ids[k] !in ids[..k];
      AskFills(y, r, k, 0);
      assert ids[..k + 1] == ids[..k] + [ids[k]];
      RunMore(Start(), asks, Ask(r));
      asks, y, k := asks + [Ask(r)], Enqueue(y, r), k + 1;
    }
    assert ids[..k] == ids;
    var rs := [Request("", Some(q))];
    assert Filled(y, 4, 0);
    FullTableLoses(y, p, q, "");
    RunMore(Start(), asks, Input(p, rs));
    run := asks + [Input(p, rs)];
    assert LostBy(y, Input(p, rs)) == {q} by { OneVictim(y, p, q); }
  }

  lemma OneVictim(y: State, p: Packet, q: Id)
    requires |y.table| == TABLE_SIZE && Loses(y, p, [Request("", Some(q))])
    ensures LostBy(y, Input(p, [Request("", Some(q))])) == {q}
  {
    hide FirstAddress, Pick;
    var rs := [Request("", Some(q))];
    assert rs[0].found == Some(q);
  }

  lemma {:induction false} RunMore(y: State, run: seq<Step>, s: Step)
    requires |y.table| == TABLE_SIZE && FairRun(y, run) && Fair(Go(y, run), s)
    ensures FairRun(y, run + [s]) && Go(y, run + [s]) == Next(Go(y, run), s)
    ensures LostIn(y, run + [s]) == LostIn(y, run) + LostBy(Go(y, run), s)
    decreases |run|
  {
    hide Fair, Next, LostBy;
    if run == [] {
      assert run + [s] == [s] && [s][1..] == [];
    } else {
      RunMore(Next(y, run[0]), run[1..], s);
      assert (run + [s])[1..] == run[1..] + [s] && (run + [s])[0] == run[0];
    }
  }

  const BAD: Packet := Packet(MIN_SIZE, 0, true, 3, 1, true, [])
  const GOOD: Packet := Packet(MIN_SIZE, 3, true, 0, 1, true, [Answer(true, 60, 7)])
  const PLAIN: Request := Request("", None)

  /** n queries that fail at once. */
  lemma {:induction false} FailingRun(n: nat) returns (run: seq<Step>)
    ensures FairRun(Start(), run) && Filled(Go(Start(), run), 0, n)
  {
    hide Enqueue, Pick;
    if n == 0 {
      run := [];
    } else {
      run := FailingRun(n - 1);
      var y := Go(Start(), run);
      FailStep(y, n - 1);
      hide Recv, Filled;
      RunMore(Start(), run, Ask(PLAIN));
      RunMore(Start(), run + [Ask(PLAIN)], Input(BAD, []));
      run := run + [Ask(PLAIN)] + [Input(BAD, [])];
    }
  }

  lemma FailStep(y: State, n: nat)
    requires Filled(y, 0, n)
    ensures Filled(Recv(Enqueue(y, PLAIN), BAD, []), 0, n + 1)
  {
    hide Enqueue;
    AskFills(y, PLAIN, 0, n);
    assert FirstAddress(BAD.answers).None?;
  }

  /** A query is refused although an entry is done: the sequence number has wrapped around. */
  lemma RefusedByWrap() returns (run: seq<Step>)
    ensures FairRun(Start(), run)
    ensures var z := Go(Start(), run); Pick(z).None? && z.table[3].phase == Done
  {
    hide Enqueue, Pick, Recv;
    run := FailingRun(252);
    var k := 0;
    while k < TABLE_SIZE
      invariant k <= TABLE_SIZE && FairRun(Start(), run) && Filled(Go(Start(), run), k, 252)
      invariant k == TABLE_SIZE ==> Go(Start(), run).table[3].found.None?
    {
      AskFills(Go(Start(), run), PLAIN, k, 252);
      RunMore(Start(), run, Ask(PLAIN));
      run, k := run + [Ask(PLAIN)], k + 1;
    }
    var y := Go(Start(), run);
    RunMore(Start(), run, Input(GOOD, []));
    run := run + [Input(GOOD, [])];
    LastDone(y);
    RefusedIff(Recv(y, GOOD, []));
  }

  lemma LastDone(y: State)
    requires Filled(y, TABLE_SIZE, 252) && y.table[3].found.None?
    ensures var z := Recv(y, GOOD, []);
      && z.seqno == 0 && z.table[3].phase == Done && z.table[3].seqno == 255
      && forall i :: 0 <= i < 3 ==> z.table[i].phase == Asking
  {
    assert FirstAddress(GOOD.answers) == Some(Answer(true, 60, 7));
    assert (252 + 4) % U8 == 0 && (252 + 3) % U8 == 255;
  }

  // ---------------------------------------------------------------- the code

  class Resolver {
    const table: array<Entry>
    var seqno: nat
    ghost var accepted: seq<Id>
    var calls: seq<Call>             // the callbacks made so far

    ghost predicate Valid()
      reads this
    {
      table.Length == TABLE_SIZE && seqno < U8
    }

    ghost function S(): State
      reads this, table
    {
      State(table[..], seqno, accepted, calls)
    }

    constructor ()
      ensures Valid() && fresh(table) && Inv(S()) && accepted == [] && calls == []
    {
      table := new Entry[TABLE_SIZE](_ => Entry(Unused, 0, 0, 0, 0, 0, 0, "", 0, None));
      seqno, accepted, calls := 0, [], [];
    }

    /** dns_enqueue; the result says whether the query is in progress. */
    method AddQuery(r: Request) returns (ok: bool)
      requires Valid()
      modifies this, table
      ensures Valid() && S() == old(Enqueue(S(), r)) && ok == old(Pick(S())).Some?
    {
      hide Pick, Oldest, FirstUnused;
      var e := FindEntry();
      if e.None? {
        return false;
      }
      var i := e.value;
      NeverEvicts(S());
      table[i] := table[i].(phase := New, seqno := seqno, name := r.name, found := r.found);
      seqno := (seqno + 1) % U8;
      accepted := accepted + if r.found.Some? then [r.found.value] else [];
      table[i] := table[i].(phase := Asking, numdns := 0, tmr := 1, retries := 0);
      assert table[..] == old(table[..])[i := Fresh(old(table[..])[i], old(seqno), r)];
      ok := true;
    }

    /** The search of dns_enqueue: an unused entry, or the oldest completed one. */
    method FindEntry() returns (r: Option<nat>)
      requires Valid()
      ensures r == Pick(S())
    {
      var i, lseq, lseqi := 0, 0, 0;
      while i < TABLE_SIZE && table[i].phase != Unused
        invariant i <= TABLE_SIZE && (lseq, lseqi) == Oldest(table[..], seqno, i)
        invariant FirstUnused(table[..], i) == FirstUnused(table[..], 0)
      {
        if table[i].phase == Done && seqno - table[i].seqno > lseq {
          lseq := seqno - table[i].seqno;
          lseqi := i;
        }
        i := i + 1;
      }
      assert i == FirstUnused(table[..], 0);
      if i == TABLE_SIZE {
        if table[lseqi].phase != Done {
          return None;
        }
        i := lseqi;
      }
      r := Some(i);
    }

    /** The callback of an entry, which makes the requests rs. */
    method RunCallback(i: nat, ip: Option<Ip>, rs: seq<Request>)
      requires Valid() && i < TABLE_SIZE
      modifies this, table
      ensures Valid() && S() == old(Notify(S(), i, ip, rs))
    {
      hide Enqueue, Pick;
      if table[i].found.Some? {
        calls := calls + [Call(table[i].found.value, table[i].name, ip)];
        ghost var c := S();
        var k := 0;
        while k < |rs|
          invariant Valid() && k <= |rs| && EnqueueAll(S(), rs[k..]) == EnqueueAll(c, rs)
        {
          assert rs[k..][1..] == rs[k + 1..];
          var _ := AddQuery(rs[k]);
          k := k + 1;
        }
      }
    }

    /** dns_check_entry. */
    method CheckEntry(i: nat, second: bool, rs: seq<Request>)
      requires Valid() && i < TABLE_SIZE
      modifies this, table
      ensures Valid() && S() == old(Check(S(), i, second, rs))
    {
      hide Notify;
      var e := table[i];
      match e.phase
      case Unused =>
      case New =>
        table[i] := e.(phase := Asking, numdns := 0, tmr := 1, retries := 0);
      case Asking =>
        var tmr := (e.tmr + U8 - 1) % U8;
        table[i] := e.(tmr := tmr);
        if tmr == 0 {
          table[i] := table[i].(retries := e.retries + 1);
          if table[i].retries == MAX_RETRIES {
            if e.numdns + 1 < MAX_SERVERS && second {
              table[i] := table[i].(numdns := e.numdns + 1, tmr := 1, retries := 0);
            } else {
              assert table[..] == old(table[..])[i := e.(tmr := 0, retries := MAX_RETRIES)];
              RunCallback(i, None, rs);
              table[i] := table[i].(phase := Unused, found := None);
            }
          } else {
            table[i] := table[i].(tmr := table[i].retries);
          }
        }
      case Done =>
        table[i] := e.(ttl := (e.ttl + U32 - 1) % U32);
        if table[i].ttl == 0 {
          table[i] := table[i].(phase := Unused, found := None);
        }
    }

    /** dns_check_entries. */
    method CheckEntries(second: bool, rs: seq<seq<Request>>)
      requires Valid() && |rs| == TABLE_SIZE
      modifies this, table
      ensures Valid() && S() == old(Tick(S(), 0, second, rs))
    {
      hide Check;
      var i := 0;
      while i < TABLE_SIZE
        invariant Valid() && i <= TABLE_SIZE && Tick(S(), i, second, rs) == old(Tick(S(), 0, second, rs))
      {
        CheckEntry(i, second, rs[i]);
        i := i + 1;
      }
    }

    /** dns_recv. */
    method Receive(p: Packet, rs: seq<Request>)
      requires Valid()
      modifies this, table
      ensures Valid() && S() == old(Recv(S(), p, rs))
    {
      hide Notify;
      if p.len > MSG_SIZE || p.len < MIN_SIZE || p.id >= TABLE_SIZE || table[p.id].phase != Asking {
        return;
      }
      var i, e := p.id, table[p.id];
      table[i] := e.(phase := Done, err := p.err);
      if p.response && p.err == 0 && p.questions == 1 && p.matches {
        var k := 0;
        while k < |p.answers| && !p.answers[k].address
          invariant k <= |p.answers| && FirstAddress(p.answers[k..]) == FirstAddress(p.answers)
        {
          assert p.answers[k..][1..] == p.answers[k + 1..];
          k := k + 1;
        }
        if k < |p.answers| {
          assert FirstAddress(p.answers) == Some(p.answers[k]);
          var ttl := if p.answers[k].ttl > MAX_TTL then MAX_TTL else p.answers[k].ttl;
          table[i] := table[i].(ttl := ttl, ip := p.answers[k].ip);
          assert table[..] == old(table[..])[i := Answered(e, p)];
          RunCallback(i, Some(table[i].ip), rs);
          return;
        }
      }
      assert Fails(p);
      assert table[..] == old(table[..])[i := Answered(e, p)];
      RunCallback(i, None, rs);
      table[i] := table[i].(phase := Unused, found := None);
    }
  }
}
