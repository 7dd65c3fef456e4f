/** The mailbox of the lwIP port (lib/liblwip/src/arch/sys_arch.c): a ring of 128 slots, a
    mutex, and two binary semaphores.  Threads are interleaved at every semaphore operation. */
module Mailboxes {
  import opened Common

  const SIZE: nat := 128

  type Tid = nat
  type Msg = nat

  /** The ring and the threads waiting for room; a semaphore is true when it can be taken. */
  datatype Box = Box(first: nat, last: nat, ring: seq<Msg>, waitSend: nat, mutex: bool, notEmpty: bool, notFull: bool)

  predicate RingOk(b: Box) {
    |b.ring| == SIZE && b.first <= b.last < b.first + SIZE
  }

  /** The queued messages, oldest first. */
  function Contents(b: Box): (s: seq<Msg>)
    requires RingOk(b)
    ensures |s| == b.last - b.first && forall i :: 0 <= i < |s| ==> s[i] == b.ring[(b.first + i) % SIZE]
  {
    seq(b.last - b.first, i requires 0 <= i < b.last - b.first => b.ring[(b.first + i) % SIZE])
  }

  predicate Full(b: Box) {
    b.last + 1 >= b.first + SIZE
  }

  function Put(b: Box, m: Msg): Box
    requires RingOk(b)
  {
    b.(ring := b.ring[b.last % SIZE := m], last := b.last + 1)
  }

  function Take(b: Box): Box
    requires b.first < b.last
  {
    b.(first := b.first + 1)
  }

  /** The ring is a queue: a message stored comes last, and the first one is taken. */
  lemma PutAppends(b: Box, m: Msg)
    requires RingOk(b) && !Full(b)
    ensures RingOk(Put(b, m)) && Contents(Put(b, m)) == Contents(b) + [m]
  {
    var c := Put(b, m);
    forall i | 0 <= i < c.last - c.first ensures Contents(c)[i] == (Contents(b) + [m])[i] {
      if i < b.last - b.first {
        SlotsDiffer(b.first + i, b.last);
      }
    }
  }

  lemma SlotsDiffer(a: nat, b: nat)
    requires a < b < a + SIZE
    ensures a % SIZE != b % SIZE
  {}

  lemma TakePops(b: Box)
    requires RingOk(b) && b.first < b.last
    ensures RingOk(Take(b)) && Contents(b) == [b.ring[b.first % SIZE]] + Contents(Take(b))
  {
    var c := Take(b);
    forall i | 1 <= i < b.last - b.first ensures Contents(b)[i] == Contents(c)[i - 1] {
      assert b.first + i == c.first + (i - 1);
    }
  }

  // ---------------------------------------------------------------- threads

  /** Where a thread is.  Fetching, Posting, Signal* and Unlocking hold the mutex. */
  datatype Pc =
    | Idle
    | WantPost(m: Msg, once: bool)     // sem_wait(mutex); once: sys_mbox_trypost
    | Posting(m: Msg, once: bool)
    | Blocked(m: Msg)                  // sem_wait(not_full)
    | Rejoin(m: Msg)                   // sem_wait(mutex) after not_full
    | SignalEmpty                      // sem_signal(not_empty)
    | WantFetch(once: bool)            // sem_wait(mutex); once: sys_arch_mbox_tryfetch
    | Fetching(once: bool)
    | Waiting                          // sem_wait(not_empty)
    | SignalFull                       // sem_signal(not_full)
    | Unlocking                        // sem_signal(mutex)

  predicate Holds(p: Pc) {
    p.Posting? || p.Fetching? || p.SignalEmpty? || p.SignalFull? || p.Unlocking?
  }

  /** The mailbox, the threads, and all messages posted and fetched so far. */
  datatype System = System(box: Box, pcs: map<Tid, Pc>, posted: seq<Msg>, fetched: seq<Msg>)

  datatype Action = Post(t: Tid, m: Msg, once: bool) | Fetch(t: Tid, once: bool) | Go(t: Tid) | TimeOut(t: Tid)

  function PcOf(y: System, t: Tid): Pc {
    if t in y.pcs then y.pcs[t] else Idle
  }

  function At(y: System, b: Box, t: Tid, p: Pc): System {
    y.(box := b, pcs := y.pcs[t := p])
  }

  /** A step of thread t can be taken: what it waits for is there. */
  predicate Enabled(y: System, a: Action) {
    var b := y.box;
    match a
    case Post(t, _, _) => PcOf(y, t).Idle?
    case Fetch(t, _) => PcOf(y, t).Idle?
    case TimeOut(t) => PcOf(y, t).Waiting?
    case Go(t) =>
      match PcOf(y, t)
      case Idle => false
      case WantPost(_, _) => b.mutex
      case Rejoin(_) => b.mutex
      case WantFetch(_) => b.mutex
      case Blocked(_) => b.notFull
      case Waiting => b.notEmpty
      case _ => true
  }

  function Next(y: System, a: Action): System
    requires RingOk(y.box) && Enabled(y, a)
  {
    var b := y.box;
    match a
    case Post(t, m, once) => At(y, b, t, WantPost(m, once))
    case Fetch(t, once) => At(y, b, t, WantFetch(once))
    case TimeOut(t) => At(y, b, t, Idle)
    case Go(t) => Advance(y, t)
  }

  function Advance(y: System, t: Tid): System
    requires RingOk(y.box) && Enabled(y, Go(t))
  {
    var b := y.box;
    match PcOf(y, t)
    case WantPost(m, once) => At(y, b.(mutex := false), t, Posting(m, once))
    case Rejoin(m) =>
      At(y, b.(mutex := false, waitSend := if b.waitSend > 0 then b.waitSend - 1 else 0), t, Posting(m, false))
    case Posting(m, once) =>
      if Full(b) then
        (if once then At(y, b, t, Unlocking) else At(y, b.(waitSend := b.waitSend + 1, mutex := true), t, Blocked(m)))
      else
        At(y, Put(b, m), t, if b.last == b.first then SignalEmpty else Unlocking).(posted := y.posted + [m])
    case Blocked(m) => At(y, b.(notFull := false), t, Rejoin(m))
    case SignalEmpty => At(y, b.(notEmpty := true), t, Unlocking)
    case WantFetch(once) => At(y, b.(mutex := false), t, Fetching(once))
    case Fetching(once) =>
      if b.first == b.last then
        (if once then At(y, b, t, Unlocking) else At(y, b.(mutex := true), t, Waiting))
      else
        var z := At(y, Take(b), t, if b.waitSend > 0 then SignalFull else Unlocking);
        z.(fetched := y.fetched + [b.ring[b.first % SIZE]])
    case Waiting => At(y, b.(notEmpty := false), t, WantFetch(false))
    case SignalFull => At(y, b.(notFull := true), t, Unlocking)
    case Unlocking => At(y, b.(mutex := true), t, Idle)
  }

  // ---------------------------------------------------------------- invariants

  /** The messages fetched are the first ones posted, the others are in the ring. */
  ghost predicate Fifo(y: System) {
    RingOk(y.box) && y.posted == y.fetched + Contents(y.box)
  }

  ghost predicate Exclusive(y: System) {
    && (y.box.mutex ==> forall t :: !Holds(PcOf(y, t)))
    && (forall t, u :: Holds(PcOf(y, t)) && Holds(PcOf(y, u)) ==> t == u)
  }

  function Senders(y: System): set<Tid> {
    set t | t in y.pcs && (y.pcs[t].Blocked? || y.pcs[t].Rejoin?)
  }

  /** wait_send counts the posters that wait for room or come back from it. */
  ghost predicate Counted(y: System) {
    y.box.waitSend == |Senders(y)|
  }

  /** While a poster waits for room, a message is queued for some fetch to announce room, or
      room has been or is about to be announced, or a poster that found room is at work. */
  ghost predicate PostersServed(y: System) {
    (exists t :: PcOf(y, t).Blocked?) ==>
      y.box.first < y.box.last || y.box.notFull || exists u :: Serves(PcOf(y, u))
  }

  predicate Serves(p: Pc) {
    p.SignalFull? || p.Rejoin? || p.Posting?
  }

  ghost predicate Inv(y: System) {
    Fifo(y) && Exclusive(y) && Counted(y) && PostersServed(y)
  }

  predicate Fetches(p: Pc) {
    p.WantFetch? || p.Fetching? || p.Waiting? || p.SignalFull?
  }

  /** Only thread f fetches, and if it waits although a message is queued, not_empty is
      signalled or a poster is about to signal it. */
  ghost predicate FetcherServed(y: System, f: Tid) {
    && (forall t :: Fetches(PcOf(y, t)) ==> t == f)
    && (PcOf(y, f).Waiting? && y.box.first < y.box.last ==> y.box.notEmpty || exists u :: PcOf(y, u).SignalEmpty?)
  }

  // ---------------------------------------------------------------- every step keeps them

  /** A step moves one thread. */
  lemma Moves(y: System, a: Action)
    requires RingOk(y.box) && Enabled(y, a)
    ensures var y' := Next(y, a);
      y'.pcs == y.pcs[a.t := PcOf(y', a.t)] && forall u :: u != a.t ==> PcOf(y', u) == PcOf(y, u)
  {}

  /** What a step does to the ring. */
  lemma RingEffect(y: System, a: Action)
    requires Fifo(y) && Enabled(y, a)
    ensures var y' := Next(y, a); RingOk(y'.box) && y'.posted == y'.fetched + Contents(y'.box)
  {
    hide Contents, Put, Take, Full;
    var b, y' := y.box, Next(y, a);
    if a.Go? && PcOf(y, a.t).Posting? && !Full(b) {
      var m := PcOf(y, a.t).m;
      PutAppends(b, m);
      assert y.fetched + (Contents(b) + [m]) == y.fetched + Contents(b) + [m];
      assert y'.box == Put(b, m);
    } else if a.Go? && PcOf(y, a.t).Fetching? && b.first < b.last {
      TakePops(b);
      var m := b.ring[b.first % SIZE];
      assert y.fetched + ([m] + Contents(Take(b))) == y.fetched + [m] + Contents(Take(b));
    } else {
      SameRing(b, y'.box);
    }
  }

  lemma SameRing(b: Box, c: Box)
    requires RingOk(b) && c.ring == b.ring && c.first == b.first && c.last == b.last
    ensures RingOk(c) && Contents(c) == Contents(b)
  {}

  lemma MutexEffect(y: System, a: Action)
    requires RingOk(y.box) && Enabled(y, a)
    ensures var y' := Next(y, a); var before, after := Holds(PcOf(y, a.t)), Holds(PcOf(y', a.t));
      y'.box.mutex == (if before == after then y.box.mutex else before) && (!before && after ==> y.box.mutex)
  {}

  lemma NextExclusive(y: System, a: Action)
    requires RingOk(y.box) && Exclusive(y) && Enabled(y, a)
    ensures Exclusive(Next(y, a))
  {
    hide Next, Enabled, Holds, PcOf;
    Moves(y, a);
    MutexEffect(y, a);
  }

  predicate Sends(p: Pc) {
    p.Blocked? || p.Rejoin?
  }

  lemma SendEffect(y: System, a: Action)
    requires RingOk(y.box) && Enabled(y, a)
    ensures var y' := Next(y, a); var before, after := Sends(PcOf(y, a.t)), Sends(PcOf(y', a.t));
      y'.box.waitSend ==
        if before == after then y.box.waitSend
        else if after then y.box.waitSend + 1
        else if y.box.waitSend > 0 then y.box.waitSend - 1 else 0
  {}

  lemma NextCounted(y: System, a: Action)
    requires RingOk(y.box) && Counted(y) && Enabled(y, a)
    ensures Counted(Next(y, a))
  {
    hide Next, Enabled, Senders, Sends, PcOf;
    Moves(y, a);
    SendEffect(y, a);
    SendersMove(y, Next(y, a), a.t);
  }

  lemma SendersMove(y: System, y': System, t: Tid)
    requires y'.pcs == y.pcs[t := PcOf(y', t)]
    ensures |Senders(y')| == |Senders(y)| + (if Sends(PcOf(y', t)) then 1 else 0) - (if Sends(PcOf(y, t)) then 1 else 0)
  {
    var s := Senders(y) - {t};
    assert Senders(y) == if Sends(PcOf(y, t)) then s + {t} else s;
    assert Senders(y') == if Sends(PcOf(y', t)) then s + {t} else s;
  }

  lemma NextPosters(y: System, a: Action)
    requires RingOk(y.box) && Counted(y) && PostersServed(y) && Enabled(y, a)
    ensures PostersServed(Next(y, a))
  {
    var y', p := Next(y, a), PcOf(y, a.t);
    if u :| PcOf(y', u).Blocked? {
      Moves(y, a);
      if p.Posting? {
        assert y'.box.first < y'.box.last;
      } else {
        assert PcOf(y, u).Blocked?;
        assert u in Senders(y);
        if v :| Serves(PcOf(y, v)) {
          assert v == a.t || Serves(PcOf(y', v));
        }
        assert p.Rejoin? || p.Blocked? || (p.Fetching? && y.box.first < y.box.last) ==> Serves(PcOf(y', a.t));
      }
    }
  }

  lemma NextFetcher(y: System, a: Action, f: Tid)
    requires RingOk(y.box) && FetcherServed(y, f) && Enabled(y, a) && (a.Fetch? ==> a.t == f)
    ensures FetcherServed(Next(y, a), f)
  {
    var y', p := Next(y, a), PcOf(y, a.t);
    Moves(y, a);
    if v :| PcOf(y, v).SignalEmpty? {
      assert v == a.t || PcOf(y', v).SignalEmpty?;
    }
    assert p.Posting? && y.box.first == y.box.last ==> PcOf(y', a.t).SignalEmpty?;
  }

  lemma NextInv(y: System, a: Action)
    requires Inv(y) && Enabled(y, a)
    ensures Inv(Next(y, a))
  {
    hide Next, Enabled, Exclusive, Counted, PostersServed, Contents;
    RingEffect(y, a);
    NextExclusive(y, a);
    NextCounted(y, a);
    NextPosters(y, a);
  }

  // ---------------------------------------------------------------- runs

  /** A new mailbox. */
  function Start(): System {
    System(Box(0, 0, seq(SIZE, _ => 0), 0, true, false, false), map[], [], [])
  }

  /** The state after a sequence of actions, if each was possible. */
  function Exec(run: seq<Action>): Option<System> {
    if run == [] then Some(Start())
    else
      var y, a := Exec(run[..|run| - 1]), run[|run| - 1];
      if y.Some? && RingOk(y.value.box) && Enabled(y.value, a) then Some(Next(y.value, a)) else None
  }

  lemma {:induction false} ExecInv(run: seq<Action>)
    requires Exec(run).Some?
    ensures Inv(Exec(run).value)
    decreases |run|
  {
    hide Next, Enabled, Inv;
    if run == [] {
      StartInv();
    } else {
      ExecInv(run[..|run| - 1]);
      NextInv(Exec(run[..|run| - 1]).value, run[|run| - 1]);
    }
  }

  lemma StartInv()
    ensures Inv(Start()) && forall f :: FetcherServed(Start(), f)
  {
    assert Senders(Start()) == {};
    assert Contents(Start().box) == [];
  }

  /** In every run, messages are fetched in the order in which they were posted, none is lost
      or doubled, and at most 127 are under way. */
  lemma FetchOrder(run: seq<Action>)
    requires Exec(run).Some?
    ensures var y := Exec(run).value; y.fetched <= y.posted && |y.posted| - |y.fetched| < SIZE
  {
    ExecInv(run);
  }

  /** In every run a poster that waits for room is not forgotten. */
  lemma PosterNotForgotten(run: seq<Action>, t: Tid)
    requires Exec(run).Some? && PcOf(Exec(run).value, t).Blocked?
    ensures var y := Exec(run).value; y.box.first < y.box.last || y.box.notFull || exists u :: Serves(PcOf(y, u))
  {
    ExecInv(run);
  }

  /** In every run with any number of posters and one fetching thread, no wakeup of the
      fetcher is lost. */
  lemma {:induction false} FetcherNotForgotten(run: seq<Action>, f: Tid)
    requires Exec(run).Some? && forall a :: a in run && a.Fetch? ==> a.t == f
    ensures FetcherServed(Exec(run).value, f)
    decreases |run|
  {
    hide Next, Enabled, FetcherServed;
    if run == [] {
      StartInv();
    } else {
      FetcherNotForgotten(run[..|run| - 1], f);
      NextFetcher(Exec(run[..|run| - 1]).value, run[|run| - 1], f);
    }
  }

  lemma Forward(run: seq<Action>, y: System, a: Action) returns (run': seq<Action>, y': System)
    requires Exec(run) == Some(y) && RingOk(y.box) && Enabled(y, a)
    ensures Exec(run') == Some(y') && y' == Next(y, a)
  {
    run', y' := run + [a], Next(y, a);
    assert run'[..|run|] == run;
  }

  /** Thread t fetches from an empty mailbox. */
  lemma FetchWaits(run: seq<Action>, y: System, t: Tid) returns (run': seq<Action>, y': System)
    requires Exec(run) == Some(y) && RingOk(y.box) && y.box.mutex && PcOf(y, t).Idle? && y.box.first == y.box.last
    ensures Exec(run') == Some(y') && y' == y.(pcs := y.pcs[t := Waiting])
  {
    hide Exec;
    run', y' := Forward(run, y, Fetch(t, false));
    run', y' := Forward(run', y', Go(t));
    run', y' := Forward(run', y', Go(t));
  }

  /** Thread t posts while nobody else moves. */
  lemma PostAlone(run: seq<Action>, y: System, t: Tid, m: Msg) returns (run': seq<Action>, y': System)
    requires Exec(run) == Some(y) && RingOk(y.box) && y.box.mutex && PcOf(y, t).Idle? && !Full(y.box)
    ensures Exec(run') == Some(y') && y'.pcs == y.pcs[t := Idle]
    ensures y'.box == Put(y.box, m).(notEmpty := y.box.notEmpty || y.box.first == y.box.last)
  {
    hide Exec;
    run', y' := Forward(run, y, Post(t, m, true));
    run', y' := Forward(run', y', Go(t));
    run', y' := Forward(run', y', Go(t));
    if y.box.first == y.box.last {
      run', y' := Forward(run', y', Go(t));
    }
    run', y' := Forward(run', y', Go(t));
  }

  /** Thread t takes the announcement of a message. */
  lemma WakeAlone(run: seq<Action>, y: System, t: Tid) returns (run': seq<Action>, y': System)
    requires Exec(run) == Some(y) && RingOk(y.box) && y.box.notEmpty && PcOf(y, t).Waiting?
    ensures Exec(run') == Some(y') && y'.pcs == y.pcs[t := WantFetch(false)] && y'.box == y.box.(notEmpty := false)
  {
    hide Exec;
    run', y' := Forward(run, y, Go(t));
  }

  /** Thread t, woken, fetches while nobody else moves. */
  lemma FetchAlone(run: seq<Action>, y: System, t: Tid) returns (run': seq<Action>, y': System)
    requires Exec(run) == Some(y) && RingOk(y.box) && y.box.mutex && PcOf(y, t).WantFetch?
    requires y.box.first < y.box.last && y.box.waitSend == 0
    ensures Exec(run') == Some(y') && y'.pcs == y.pcs[t := Idle] && y'.box == Take(y.box)
  {
    hide Exec;
    run', y' := Forward(run, y, Go(t));
    run', y' := Forward(run', y', Go(t));
    run', y' := Forward(run', y', Go(t));
  }

  /** With two fetching threads a wakeup can be lost: both wait, two messages are posted, and
      the second is not announced because the first is still queued.  In the end thread b
      waits although a message is queued, and nobody is left to wake it.  This goes for any
      two fetchers and any third thread that posts. */
  lemma TwoFetchers(a: Tid, b: Tid, p: Tid, m: Msg, n: Msg) returns (run: seq<Action>)
    requires a != b && a != p && b != p
    ensures Exec(run).Some? && RingOk(Exec(run).value.box)
    ensures var y := Exec(run).value;
      && PcOf(y, b).Waiting? && Contents(y.box) == [n] && !y.box.notEmpty && y.box.mutex
      && forall t :: t != b ==> PcOf(y, t).Idle?
  {
    var y;
    run, y := BothWait(a, b, p, m);
    hide Exec, Next, Enabled, Advance, Contents;
    run, y := WakeAlone(run, y, a);
    run, y := PostAlone(run, y, p, n);
    run, y := FetchAlone(run, y, a);
  }

  /** The beginning of that run: two fetchers wait and one message is posted. */
  lemma BothWait(a: Tid, b: Tid, p: Tid, m: Msg) returns (run: seq<Action>, y: System)
    requires a != b && a != p && b != p
    ensures Exec(run) == Some(y) && RingOk(y.box) && Contents(y.box) == [m]
    ensures y.pcs == map[a := Waiting, b := Waiting, p := Idle]
    ensures y.box.first == 0 && y.box.waitSend == 0 && y.box.notEmpty && y.box.mutex
  {
    y := Start();
    assert Exec([]) == Some(y);
    hide Exec, Next, Enabled, Advance;
    run, y := FetchWaits([], y, a);
    run, y := FetchWaits(run, y, b);
    run, y := PostAlone(run, y, p, m);
  }

  // ---------------------------------------------------------------- the code

  /** The sections of the code that run while the mutex is held. */
  class Mailbox {
    var first: nat
    var last: nat
    const msgs: array<Msg>
    var waitSend: nat

    ghost predicate Valid()
      reads this, msgs
    {
      msgs.Length == SIZE && RingOk(B())
    }

    function B(): Box
      reads this, msgs
    {
      Box(first, last, msgs[..], waitSend, false, false, false)
    }

    constructor ()
      ensures Valid() && fresh(msgs) && Contents(B()) == [] && waitSend == 0
    {
      first, last, waitSend := 0, 0, 0;
      msgs := new Msg[SIZE];
    }

    /** sys_mbox_post and sys_mbox_trypost once there may be room: wake says that the mailbox
        was empty, so that not_empty has to be signalled. */
    method TryPost(msg: Msg) returns (ok: bool, wake: bool)
      requires Valid()
      modifies this`last, msgs
      ensures Valid() && ok == (|old(Contents(B()))| < SIZE - 1) && wake == (ok && old(Contents(B())) == [])
      ensures Contents(B()) == if ok then old(Contents(B())) + [msg] else old(Contents(B()))
    {
      if last + 1 >= first + SIZE {
        return false, false;
      }
      ghost var b := B();
      PutAppends(b, msg);
      msgs[last % SIZE] := msg;
      wake := last == first;
      last := last + 1;
      assert B() == Put(b, msg);
      ok := true;
    }

    /** sys_arch_mbox_fetch and sys_arch_mbox_tryfetch once there may be a message: wake says
        that not_full has to be signalled. */
    method TryFetch() returns (r: Option<Msg>, wake: bool)
      requires Valid()
      modifies this`first
      ensures Valid() && (r.None? <==> old(Contents(B())) == []) && wake == (r.Some? && waitSend > 0)
      ensures r.Some? ==> old(Contents(B())) == [r.value] + Contents(B())
      ensures r.None? ==> Contents(B()) == old(Contents(B()))
    {
      if first == last {
        return None, false;
      }
      ghost var b := B();
      TakePops(b);
      r := Some(msgs[first % SIZE]);
      first := first + 1;
      assert B() == Take(b);
      wake := waitSend > 0;
    }
  }
}
