/** lwip_select and event_callback (lib/liblwip/src/api/sockets.c), interleaved at every
    protected section.  Sockets stay open while a select waits for them. */
module Selects {
  import opened Common

  type Cid = nat    // a select call
  type Eid = nat    // a run of event_callback

  /** The events of a socket, data left over from a partial read, and select_waiting. */
  datatype Sock = Sock(rcv: int, send: bool, err: bool, last: bool, waiting: nat)
  datatype Sets = Sets(read: set<nat>, write: set<nat>, except: set<nat>, max: nat)

  datatype Round = First | Second | Third
  datatype Pc =
    | Scan(round: Round, i: nat, n: nat)   // lwip_selscan at socket i, n events found
    | Link                                 // put the select_cb on the list
    | Count(i: nat)                        // select_waiting++ at socket i
    | Block                                // sem_wait
    | Uncount(i: nat)                      // select_waiting-- at socket i
    | Unlink                               // take the select_cb off the list

  datatype Sel = Sel(sets: Sets, poll: bool, pc: Pc, signalled: bool, sem: bool, timedOut: bool)

  /** A callback for sock that has visited scb and then let go of the protection. */
  datatype Visitor = Visitor(sock: nat, scb: Cid, ctr: nat)

  datatype State = State(socks: map<nat, Sock>, list: seq<Cid>, ctr: nat, sels: map<Cid, Sel>,
                         visitors: map<Eid, Visitor>)

  datatype Event = RcvPlus | RcvMinus | SendPlus | SendMinus | Error

  datatype Step =
    | Select(c: Cid, sets: Sets, poll: bool)
    | Go(c: Cid)
    | TimeOut(c: Cid)
    | Callback(e: Eid, s: nat, evt: Event)
    | Continue(e: Eid)
    | LeaveData(s: nat, last: bool)        // lwip_recvfrom sets or clears lastdata

  predicate Interest(x: Sets, s: nat) {
    s < x.max && (s in x.read || s in x.write || s in x.except)
  }

  /** The test of event_callback. */
  predicate Wants(x: Sets, k: Sock, s: nat) {
    (k.rcv > 0 && s in x.read) || (k.send && s in x.write) || (k.err && s in x.except)
  }

  /** What lwip_selscan counts for one socket. */
  function Ready(x: Sets, k: Sock, s: nat): (n: nat)
    ensures n == 0 ==> !Wants(x, k, s)
  {
    var read := if s in x.read && (k.last || k.rcv > 0) then 1 else 0;
    read + (if s in x.write && k.send then 1 else 0) + (if s in x.except && k.err then 1 else 0)
  }

  function Happen(k: Sock, evt: Event): Sock {
    match evt
    case RcvPlus => k.(rcv := k.rcv + 1)
    case RcvMinus => k.(rcv := k.rcv - 1)
    case SendPlus => k.(send := true)
    case SendMinus => k.(send := false)
    case Error => k.(err := true)
  }

  // ---------------------------------------------------------------- steps

  predicate Enabled(y: State, a: Step) {
    match a
    case Select(c, x, _) => c !in y.sels && forall s :: 0 <= s < x.max && Interest(x, s) ==> s in y.socks
    case Go(c) => c in y.sels && (y.sels[c].pc.Block? ==> y.sels[c].sem)
    case TimeOut(c) => c in y.sels && y.sels[c].pc.Block?
    case Callback(e, s, _) => e !in y.visitors && s in y.socks
    case Continue(e) => e in y.visitors
    case LeaveData(s, _) => s in y.socks
  }

  function Next(y: State, a: Step): State
    requires Enabled(y, a)
  {
    match a
    case Select(c, x, poll) => y.(sels := y.sels[c := Sel(x, poll, Scan(First, 0, 0), false, false, false)])
    case Go(c) => Advance(y, c)
    case TimeOut(c) => At(y, c, y.sels[c].(pc := Uncount(0), timedOut := true))
    case Callback(e, s, evt) =>
      var z := y.(socks := y.socks[s := Happen(y.socks[s], evt)]);
      if z.socks[s].waiting == 0 then z else Visit(z, e, s, z.list)
    case Continue(e) =>
      var v := y.visitors[e];
      Visit(y, e, v.sock, if v.ctr != y.ctr then y.list else Behind(y.list, v.scb))
    case LeaveData(s, last) => y.(socks := y.socks[s := y.socks[s].(last := last)])
  }

  function At(y: State, c: Cid, x: Sel): State {
    y.(sels := y.sels[c := x])
  }

  function Moved(y: State, c: Cid, p: Pc): State
    requires c in y.sels
  {
    At(y, c, y.sels[c].(pc := p))
  }

  function Advance(y: State, c: Cid): State
    requires c in y.sels
  {
    var x := y.sels[c];
    match x.pc
    case Scan(round, i, n) =>
      if i < x.sets.max then
        Moved(y, c, Scan(round, i + 1, n + if i in y.socks then Ready(x.sets, y.socks[i], i) else 0))
      else if round == First && n == 0 && !x.poll then Moved(y, c, Link)
      else if round == Second then Moved(y, c, if n == 0 then Block else Uncount(0))
      else y.(sels := y.sels - {c})
    case Link => At(y, c, x.(pc := Count(0), signalled := false, sem := false)).(list := [c] + y.list, ctr := y.ctr + 1)
    case Count(i) =>
      if i >= x.sets.max then Moved(y, c, Scan(Second, 0, 0))
      else Moved(Waiting(y, x.sets, i, 1), c, Count(i + 1))
    case Block => At(y, c, x.(sem := false, pc := Uncount(0)))
    case Uncount(i) =>
      if i >= x.sets.max then Moved(y, c, Unlink)
      else Moved(Waiting(y, x.sets, i, -1), c, Uncount(i + 1))
    case Unlink =>
      var z := y.(list := Without(y.list, c), ctr := y.ctr + 1);
      if x.timedOut then z.(sels := z.sels - {c}) else Moved(z, c, Scan(Third, 0, 0))
  }

  /** select_waiting of socket i, if the select is interested in it. */
  function Waiting(y: State, x: Sets, i: nat, d: int): (z: State)
    ensures z == y.(socks := z.socks)
  {
    if Interest(x, i) && i in y.socks then
      var w := y.socks[i].waiting + d;
      y.(socks := y.socks[i := y.socks[i].(waiting := if w < 0 then 0 else w)])
    else y
  }

  /** One protected section of the loop of event_callback, with rest the part of the list
      still to be visited. */
  function Visit(y: State, e: Eid, s: nat, rest: seq<Cid>): State {
    if rest == [] then y.(visitors := y.visitors - {e})
    else
      var c := rest[0];
      var z := if c in y.sels && s in y.socks && !y.sels[c].signalled && Wants(y.sels[c].sets, y.socks[s], s)
        then At(y, c, y.sels[c].(signalled := true, sem := true)) else y;
      z.(visitors := z.visitors[e := Visitor(s, c, y.ctr)])
  }

  /** What follows c in the list. */
  function Behind(list: seq<Cid>, c: Cid): seq<Cid> {
    if list == [] then [] else if list[0] == c then list[1..] else Behind(list[1..], c)
  }

  // ---------------------------------------------------------------- the invariant

  predicate Listed(p: Pc) {
    p.Count? || (p.Scan? && p.round == Second) || p.Block? || p.Uncount? || p.Unlink?
  }

  /** The select has raised select_waiting of socket s and not lowered it again. */
  predicate Counts(x: Sel, s: nat) {
    && Interest(x.sets, s)
    && match x.pc
       case Count(i) => s < i
       case Scan(round, _, _) => round == Second
       case Block => true
       case Uncount(i) => s >= i
       case _ => false
  }

  /** The select relies on callbacks for socket s: it found nothing there and blocks, or is
      about to. */
  predicate Relies(x: Sel, s: nat) {
    Interest(x.sets, s) && (x.pc.Block? || (x.pc.Scan? && x.pc.round == Second && x.pc.n == 0 && s < x.pc.i))
  }

  function Counters(y: State, s: nat): set<Cid> {
    set c | c in y.sels && Counts(y.sels[c], s)
  }

  ghost predicate CountOk(y: State) {
    forall s :: s in y.socks ==> y.socks[s].waiting == |Counters(y, s)|
  }

  ghost predicate ListOk(y: State) {
    NoDup(y.list) && forall c :: c in y.list <==> c in y.sels && Listed(y.sels[c].pc)
  }

  ghost predicate SelOk(y: State, c: Cid) {
    c in y.sels ==>
      && (forall s :: 0 <= s < y.sels[c].sets.max && Interest(y.sels[c].sets, s) ==> s in y.socks)
      && (Listed(y.sels[c].pc) && !y.sels[c].pc.Uncount? && !y.sels[c].pc.Unlink? ==>
           y.sels[c].sem == y.sels[c].signalled)
  }

  ghost predicate VisitorOk(y: State, e: Eid) {
    e in y.visitors ==>
      && y.visitors[e].ctr <= y.ctr && y.visitors[e].sock in y.socks
      && (y.visitors[e].ctr == y.ctr ==> y.visitors[e].scb in y.list)
  }

  /** A callback for socket s is under way and has yet to visit c. */
  predicate Coming(y: State, e: Eid, s: nat, c: Cid) {
    && e in y.visitors && y.visitors[e].sock == s
    && (y.visitors[e].ctr != y.ctr || c in Behind(y.list, y.visitors[e].scb))
  }

  /** No event is overlooked by a select that relies on its callback. */
  ghost predicate Covered(y: State, c: Cid, s: nat) {
    c in y.sels && s in y.socks && Relies(y.sels[c], s) && Wants(y.sels[c].sets, y.socks[s], s) ==>
      y.sels[c].signalled || exists e :: Coming(y, e, s, c)
  }

  ghost predicate Inv(y: State) {
    && CountOk(y) && ListOk(y)
    && (forall c :: SelOk(y, c)) && (forall e :: VisitorOk(y, e)) && (forall c, s :: Covered(y, c, s))
  }

  // ---------------------------------------------------------------- steps of one select

  ghost predicate Same(y: State, c: Cid, x: Sel) {
    && Listed(x.pc) == (c in y.sels && Listed(y.sels[c].pc))
    && forall s :: 0 <= s < x.sets.max ==> Counts(x, s) == (c in y.sels && Counts(y.sels[c], s))
  }

  /** A select moves without touching anything shared. */
  lemma LocalInv(y: State, c: Cid, x: Sel)
    requires Inv(y) && Same(y, c, x) && (c in y.sels ==> x.sets == y.sels[c].sets)
    requires SelOk(At(y, c, x), c) && forall s :: Covered(At(y, c, x), c, s)
    ensures Inv(At(y, c, x))
  {
    hide NoDup, Relies, Wants, Listed, Counts;
    var z := At(y, c, x);
    forall s | s in y.socks ensures Counters(z, s) == Counters(y, s) {
      Unaffected(y, c, x, s);
    }
    forall d | d != c ensures SelOk(z, d) {
      assert SelOk(y, d);
    }
    forall e ensures VisitorOk(z, e) {
      assert VisitorOk(y, e);
    }
    forall d, s | d != c ensures Covered(z, d, s) {
      assert Covered(y, d, s);
      StillComing(y, z, d, s);
    }
  }

  lemma Unaffected(y: State, c: Cid, x: Sel, s: nat)
    requires Same(y, c, x) && (c in y.sels ==> x.sets == y.sels[c].sets)
    ensures Counters(At(y, c, x), s) == Counters(y, s)
  {
    assert s >= x.sets.max || Counts(x, s) == (c in y.sels && Counts(y.sels[c], s));
  }

  /** Callbacks under way stay under way while list, counter and visitors are the same. */
  lemma StillComing(y: State, z: State, c: Cid, s: nat)
    requires z.list == y.list && z.ctr == y.ctr && z.visitors == y.visitors
    ensures (exists e :: Coming(y, e, s, c)) ==> exists e :: Coming(z, e, s, c)
  {
    if e :| Coming(y, e, s, c) {
      assert Coming(z, e, s, c);
    }
  }

  /** A select that is on no list returns. */
  lemma ReturnInv(y: State, c: Cid)
    requires Inv(y) && c in y.sels && !Listed(y.sels[c].pc)
    ensures Inv(y.(sels := y.sels - {c}))
  {
    hide NoDup, Relies, Wants;
    var z := y.(sels := y.sels - {c});
    forall s | s in y.socks ensures Counters(z, s) == Counters(y, s) {}
    forall d ensures SelOk(z, d) {
      assert SelOk(y, d);
    }
    forall e ensures VisitorOk(z, e) {
      assert VisitorOk(y, e);
    }
    forall d, s ensures Covered(z, d, s) {
      assert Covered(y, d, s);
      StillComing(y, z, d, s);
    }
  }

  /** Scanning: a select that finds nothing at socket i may rely on callbacks for it. */
  lemma ScanInv(y: State, c: Cid)
    requires Inv(y) && c in y.sels && y.sels[c].pc.Scan?
    ensures Inv(Advance(y, c))
  {
    var x := y.sels[c];
    assert SelOk(y, c);
    var z := Advance(y, c);
    if x.pc.i >= x.sets.max && (x.pc.round == Third || (x.pc.round == First && (x.pc.n > 0 || x.poll))) {
      ReturnInv(y, c);
    } else {
      var x' := z.sels[c];
      forall s ensures Covered(z, c, s) {
        assert Covered(y, c, s);
        StillComing(y, z, c, s);
      }
      LocalInv(y, c, x');
    }
  }

  lemma WakeInv(y: State, c: Cid, x: Sel)
    requires Inv(y) && c in y.sels && y.sels[c].pc.Block? && x.pc == Uncount(0) && x.sets == y.sels[c].sets
    ensures Inv(At(y, c, x))
  {
    assert SelOk(y, c);
    LocalInv(y, c, x);
  }

  /** select_waiting of one socket and the place of the select change together. */
  lemma CountInv(y: State, c: Cid, up: bool)
    requires Inv(y) && c in y.sels && y.sels[c].pc == (if up then Count(I(y, c)) else Uncount(I(y, c)))
    requires I(y, c) < y.sels[c].sets.max
    ensures Inv(Advance(y, c))
  {
    var x, i, z := y.sels[c], I(y, c), Advance(y, c);
    assert SelOk(y, c);
    CountMoves(y, c, up);
    hide NoDup, Wants, Relies, Advance, Counts, Listed;
    forall s | s in z.socks ensures z.socks[s].waiting == |Counters(z, s)| {
      CountersMove(y, z, c, s);
    }
    forall d ensures SelOk(z, d) {
      assert SelOk(y, d);
    }
    forall e ensures VisitorOk(z, e) {
      assert VisitorOk(y, e);
    }
    forall d, s ensures Covered(z, d, s) {
      assert Covered(y, d, s);
      if d in y.sels && s in y.socks {
        SameWants(y, z, d, s);
      }
      StillComing(y, z, d, s);
    }
  }

  lemma CountMoves(y: State, c: Cid, up: bool)
    requires CountOk(y) && SelOk(y, c) && c in y.sels
    requires y.sels[c].pc == (if up then Count(I(y, c)) else Uncount(I(y, c))) && I(y, c) < y.sels[c].sets.max
    ensures var z, x := Advance(y, c), y.sels[c]; c in z.sels && var x' := z.sels[c];
      && z == y.(socks := z.socks, sels := y.sels[c := x']) && z.socks.Keys == y.socks.Keys
      && x' == x.(pc := x'.pc) && Listed(x'.pc) && x'.pc.Uncount? == x.pc.Uncount? && !x'.pc.Unlink?
      && (forall s :: !Relies(x', s) && !Relies(x, s))
      && (forall s :: s in y.socks ==> z.socks[s] == y.socks[s].(waiting := z.socks[s].waiting))
      && (forall s :: s in y.socks ==>
           z.socks[s].waiting - y.socks[s].waiting ==
             (if Counts(x', s) then 1 else 0) - (if Counts(x, s) then 1 else 0))
  {
    hide Advance, Counts, Waiting;
    var i, x, d := I(y, c), y.sels[c], if up then 1 else -1;
    var x' := x.(pc := if up then Count(i + 1) else Uncount(i + 1));
    CountAdvance(y, c, x', d, up);
    CountsMove(x, x', i, up);
    if i in y.socks && Counts(x, i) {
      assert c in Counters(y, i);
    }
    WaitingMoves(y, x.sets, i, d);
  }

  lemma CountAdvance(y: State, c: Cid, x': Sel, d: int, up: bool)
    requires c in y.sels && I(y, c) < y.sels[c].sets.max
    requires y.sels[c].pc == (if up then Count(I(y, c)) else Uncount(I(y, c)))
    requires x' == y.sels[c].(pc := if up then Count(I(y, c) + 1) else Uncount(I(y, c) + 1))
    requires d == if up then 1 else -1
    ensures Advance(y, c) == At(Waiting(y, y.sels[c].sets, I(y, c), d), c, x')
  {
    hide Waiting, Ready;
  }

  lemma CountsMove(x: Sel, x': Sel, i: nat, up: bool)
    requires x.pc == (if up then Count(i) else Uncount(i))
    requires x' == x.(pc := if up then Count(i + 1) else Uncount(i + 1)) && i < x.sets.max
    ensures forall s :: s != i ==> Counts(x', s) == Counts(x, s)
    ensures Interest(x.sets, i) ==> (Counts(x', i) == up) && (Counts(x, i) == !up)
    ensures !Interest(x.sets, i) ==> !Counts(x', i) && !Counts(x, i)
  {}

  lemma WaitingMoves(y: State, x: Sets, i: nat, d: int)
    requires d == 1 || (d == -1 && (Interest(x, i) && i in y.socks ==> y.socks[i].waiting > 0))
    ensures var z := Waiting(y, x, i, d);
      && z.socks.Keys == y.socks.Keys
      && forall s :: s in y.socks ==>
        z.socks[s] == y.socks[s].(waiting := y.socks[s].waiting + if s == i && Interest(x, i) then d else 0)
  {}

  lemma CountersMove(y: State, z: State, c: Cid, s: nat)
    requires c in y.sels && c in z.sels && z.sels == y.sels[c := z.sels[c]]
    ensures |Counters(z, s)| - |Counters(y, s)| ==
      (if Counts(z.sels[c], s) then 1 else 0) - (if Counts(y.sels[c], s) then 1 else 0)
  {
    hide Counts;
    var others := Counters(y, s) - {c};
    assert Counters(y, s) == if Counts(y.sels[c], s) then others + {c} else others;
    assert Counters(z, s) == if Counts(z.sels[c], s) then others + {c} else others;
  }

  /** The socket a counting select is at. */
  function I(y: State, c: Cid): nat
    requires c in y.sels
  {
    match y.sels[c].pc
    case Count(i) => i
    case Uncount(i) => i
    case _ => 0
  }

  lemma SameWants(y: State, z: State, d: Cid, s: nat)
    requires d in y.sels && d in z.sels && y.sels[d].sets == z.sels[d].sets && s in y.socks && s in z.socks
    requires z.socks[s] == y.socks[s].(waiting := z.socks[s].waiting, last := z.socks[s].last)
    ensures Wants(z.sels[d].sets, z.socks[s], s) == Wants(y.sels[d].sets, y.socks[s], s)
  {}

  // ---------------------------------------------------------------- the list

  /** When the list changes, every callback under way starts over. */
  lemma ListInv(y: State, z: State, c: Cid)
    requires Inv(y) && z.ctr == y.ctr + 1 && z.socks == y.socks && z.visitors == y.visitors && ListOk(z)
    requires forall d :: d != c ==> (d in z.sels <==> d in y.sels) && (d in y.sels ==> z.sels[d] == y.sels[d])
    requires c in z.sels ==> SelOk(z, c) && forall s :: !Counts(z.sels[c], s) && !Relies(z.sels[c], s)
    requires c in y.sels ==> forall s :: !Counts(y.sels[c], s)
    ensures Inv(z)
  {
    hide NoDup, Relies, Wants, Listed, Counts;
    forall s | s in y.socks ensures Counters(z, s) == Counters(y, s) {}
    forall d ensures SelOk(z, d) {
      assert SelOk(y, d);
    }
    forall e ensures VisitorOk(z, e) {
      assert VisitorOk(y, e);
    }
    forall d, s ensures Covered(z, d, s) {
      assert Covered(y, d, s);
      if e :| Coming(y, e, s, d) {
        assert VisitorOk(y, e);
        assert Coming(z, e, s, d);
      }
    }
  }

  lemma LinkInv(y: State, c: Cid)
    requires Inv(y) && c in y.sels && y.sels[c].pc.Link?
    ensures Inv(Advance(y, c))
  {
    var z := Advance(y, c);
    assert SelOk(y, c);
    assert c !in y.list;
    assert NoDup(z.list) && forall d :: d in z.list <==> d == c || d in y.list;
    ListInv(y, z, c);
  }

  lemma UnlinkInv(y: State, c: Cid)
    requires Inv(y) && c in y.sels && y.sels[c].pc.Unlink?
    ensures Inv(Advance(y, c))
  {
    var z := Advance(y, c);
    assert SelOk(y, c);
    WithoutFacts(y.list, c);
    ListInv(y, z, c);
  }

  // ---------------------------------------------------------------- callbacks

  lemma {:induction false} BehindSuffix(list: seq<Cid>, k: nat)
    requires NoDup(list) && k < |list|
    ensures Behind(list, list[k]) == list[k + 1..]
  {
    if k > 0 {
      BehindSuffix(list[1..], k - 1);
      assert list[1..][k - 1] == list[k] && list[1..][k..] == list[k + 1..];
    }
  }

  /** Everything but the selects that rely on socket s, which are all still to be visited by
      e or covered by another callback. */
  ghost predicate Visiting(y: State, e: Eid, s: nat, rest: seq<Cid>) {
    && CountOk(y) && ListOk(y) && s in y.socks
    && (exists k :: 0 <= k <= |y.list| && rest == y.list[k..])
    && (forall c :: SelOk(y, c)) && (forall f :: f != e ==> VisitorOk(y, f))
    && (forall c, t :: CoveredBut(y, e, s, rest, c, t))
  }

  ghost predicate CoveredBut(y: State, e: Eid, s: nat, rest: seq<Cid>, c: Cid, t: nat) {
    c in y.sels && t in y.socks && Relies(y.sels[c], t) && Wants(y.sels[c].sets, y.socks[t], t) ==>
      y.sels[c].signalled || (t == s && c in rest) || exists f :: f != e && Coming(y, f, t, c)
  }

  lemma VisitInv(y: State, e: Eid, s: nat, rest: seq<Cid>)
    requires Visiting(y, e, s, rest)
    ensures Inv(Visit(y, e, s, rest))
  {
    hide NoDup, Relies, Wants, Listed, Counts, Visit;
    if rest != [] {
      RestBehind(y.list, rest);
    }
    VisitSignals(y, e, s, rest);
    VisitRecords(y, e, s, rest);
    var z := Visit(y, e, s, rest);
    forall t | t in y.socks ensures Counters(z, t) == Counters(y, t) {
      SameCounters(y, z, t);
    }
    forall c ensures SelOk(z, c) {
      assert SelOk(y, c);
    }
    forall f ensures VisitorOk(z, f) {
      assert f != e ==> VisitorOk(y, f);
    }
    forall c, t ensures Covered(z, c, t) {
      assert CoveredBut(y, e, s, rest, c, t);
      if f :| f != e && Coming(y, f, t, c) {
        assert Coming(z, f, t, c);
      }
      assert t == s && c in rest && c != rest[0] ==> Coming(z, e, s, c);
    }
  }

  /** A visit signals the first select of rest if it wants to know. */
  lemma VisitSignals(y: State, e: Eid, s: nat, rest: seq<Cid>)
    requires s in y.socks && (rest != [] ==> rest[0] in y.sels)
    ensures var z := Visit(y, e, s, rest);
      && z == y.(sels := z.sels, visitors := z.visitors) && z.sels.Keys == y.sels.Keys
      && (forall c :: c in y.sels ==> z.sels[c] == y.sels[c] || z.sels[c] == y.sels[c].(signalled := true, sem := true))
      && (rest != [] && Wants(y.sels[rest[0]].sets, y.socks[s], s) ==> z.sels[rest[0]].signalled)
  {
    hide Wants;
  }

  /** And it records where the callback is. */
  lemma VisitRecords(y: State, e: Eid, s: nat, rest: seq<Cid>)
    ensures var z := Visit(y, e, s, rest);
      z.visitors == if rest == [] then y.visitors - {e} else y.visitors[e := Visitor(s, rest[0], y.ctr)]
  {
    hide Wants;
  }

  lemma {:induction false} RestBehind(list: seq<Cid>, rest: seq<Cid>)
    requires NoDup(list) && rest != [] && exists k :: 0 <= k <= |list| && rest == list[k..]
    ensures rest[0] in list && Behind(list, rest[0]) == rest[1..]
  {
    hide Behind;
    var k :| 0 <= k <= |list| && rest == list[k..];
    assert rest[0] == list[k] && rest[1..] == list[k + 1..];
    BehindSuffix(list, k);
  }

  lemma SameCounters(y: State, z: State, t: nat)
    requires z.sels.Keys == y.sels.Keys
    requires forall c :: c in y.sels ==> z.sels[c].pc == y.sels[c].pc && z.sels[c].sets == y.sels[c].sets
    ensures Counters(z, t) == Counters(y, t)
  {}

  lemma ContinueInv(y: State, e: Eid)
    requires Inv(y) && e in y.visitors
    ensures Inv(Next(y, Continue(e)))
  {
    hide NoDup, Relies, Wants, Listed, Counts;
    hide Behind, Visit;
    var v := y.visitors[e];
    var rest := if v.ctr != y.ctr then y.list else Behind(y.list, v.scb);
    assert VisitorOk(y, e);
    if v.ctr != y.ctr {
      assert rest == y.list[0..];
    } else {
      var k :| 0 <= k < |y.list| && y.list[k] == v.scb;
      BehindSuffix(y.list, k);
      assert rest == y.list[k + 1..];
    }
    forall c, t ensures CoveredBut(y, e, v.sock, rest, c, t) {
      assert Covered(y, c, t);
      if f :| Coming(y, f, t, c) {
        ReliesListed(y, c, t);
        assert f == e ==> t == v.sock && (c in y.list ==> c in rest);
      }
    }
    VisitInv(y, e, v.sock, rest);
  }

  lemma ReliesListed(y: State, c: Cid, s: nat)
    requires ListOk(y)
    ensures c in y.sels && Relies(y.sels[c], s) ==> c in y.list && Counts(y.sels[c], s)
  {}

  lemma CallbackInv(y: State, e: Eid, s: nat, evt: Event)
    requires Inv(y) && e !in y.visitors && s in y.socks
    ensures Inv(Next(y, Callback(e, s, evt)))
  {
    hide NoDup, Relies, Wants, Listed, Counts;
    var z := y.(socks := y.socks[s := Happen(y.socks[s], evt)]);
    forall t | t in y.socks ensures Counters(z, t) == Counters(y, t) {}
    forall c ensures SelOk(z, c) {
      assert SelOk(y, c);
    }
    forall f ensures VisitorOk(z, f) {
      assert VisitorOk(y, f);
    }
    assert z.list == z.list[0..];
    forall c, t ensures CoveredBut(z, e, s, z.list, c, t) {
      assert Covered(y, c, t);
      ReliesListed(y, c, t);
      if f :| Coming(y, f, t, c) {
        assert f != e && Coming(z, f, t, c);
      }
    }
    if z.socks[s].waiting == 0 {
      forall c, t ensures Covered(z, c, t) {
        assert CoveredBut(z, e, s, z.list, c, t);
        ReliesListed(z, c, t);
        assert t == s && c in z.sels && Counts(z.sels[c], s) ==> c in Counters(z, s);
      }
    } else {
      VisitInv(z, e, s, z.list);
    }
  }

  lemma LeaveDataInv(y: State, s: nat, last: bool)
    requires Inv(y) && s in y.socks
    ensures Inv(Next(y, LeaveData(s, last)))
  {
    hide NoDup, Relies, Listed, Counts;
    var z := Next(y, LeaveData(s, last));
    forall t | t in y.socks ensures Counters(z, t) == Counters(y, t) {}
    forall c ensures SelOk(z, c) {
      assert SelOk(y, c);
    }
    forall f ensures VisitorOk(z, f) {
      assert VisitorOk(y, f);
    }
    forall c, t ensures Covered(z, c, t) {
      assert Covered(y, c, t);
      StillComing(y, z, c, t);
    }
  }

  // ---------------------------------------------------------------- runs

  lemma AdvanceInv(y: State, c: Cid)
    requires Inv(y) && Enabled(y, Go(c))
    ensures Inv(Advance(y, c))
  {
    hide Inv;
    var x := y.sels[c];
    match x.pc
    case Scan(_, _, _) => ScanInv(y, c);
    case Link => LinkInv(y, c);
    case Count(i) => if i < x.sets.max { CountInv(y, c, true); } else { CountedInv(y, c); }
    case Block => WakeInv(y, c, x.(sem := false, pc := Uncount(0)));
    case Uncount(i) => if i < x.sets.max { CountInv(y, c, false); } else { CountedInv(y, c); }
    case Unlink => UnlinkInv(y, c);
  }

  /** The end of a counting loop. */
  lemma CountedInv(y: State, c: Cid)
    requires Inv(y) && c in y.sels && (y.sels[c].pc.Count? || y.sels[c].pc.Uncount?) && I(y, c) >= y.sels[c].sets.max
    ensures Inv(Advance(y, c))
  {
    assert SelOk(y, c);
    LocalInv(y, c, Advance(y, c).sels[c]);
  }

  lemma NextInv(y: State, a: Step)
    requires Inv(y) && Enabled(y, a)
    ensures Inv(Next(y, a))
  {
    match a
    case Select(c, x, poll) => LocalInv(y, c, Sel(x, poll, Scan(First, 0, 0), false, false, false));
    case Go(c) => AdvanceInv(y, c);
    case TimeOut(c) => WakeInv(y, c, y.sels[c].(pc := Uncount(0), timedOut := true));
    case Callback(e, s, evt) => CallbackInv(y, e, s, evt);
    case Continue(e) => ContinueInv(y, e);
    case LeaveData(s, last) => LeaveDataInv(y, s, last);
  }

  /** The state after a sequence of steps from open sockets nobody waits for, if each step
      was possible. */
  function Exec(socks: map<nat, Sock>, run: seq<Step>): Option<State> {
    if run == [] then Some(State(socks, [], 0, map[], map[]))
    else
      var y, a := Exec(socks, run[..|run| - 1]), run[|run| - 1];
      if y.Some? && Enabled(y.value, a) then Some(Next(y.value, a)) else None
  }

  lemma {:induction false} ExecInv(socks: map<nat, Sock>, run: seq<Step>)
    requires (forall s :: s in socks ==> socks[s].waiting == 0) && Exec(socks, run).Some?
    ensures Inv(Exec(socks, run).value)
    decreases |run|
  {
    if run == [] {
      var y := Exec(socks, run).value;
      assert forall s :: Counters(y, s) == {};
    } else {
      ExecInv(socks, run[..|run| - 1]);
      NextInv(Exec(socks, run[..|run| - 1]).value, run[|run| - 1]);
    }
  }

  /** Under every interleaving of select calls and event callbacks: when a select blocks
      although a socket of its sets has an event, its semaphore is signalled, or a callback
      for that socket is under way that has yet to visit it. */
  lemma NoLostWakeup(socks: map<nat, Sock>, run: seq<Step>, c: Cid, s: nat)
    requires (forall t :: t in socks ==> socks[t].waiting == 0) && Exec(socks, run).Some?
    requires var y := Exec(socks, run).value;
      c in y.sels && y.sels[c].pc.Block? && s in y.socks && Interest(y.sels[c].sets, s) &&
        Wants(y.sels[c].sets, y.socks[s], s)
    ensures var y := Exec(socks, run).value; y.sels[c].sem || exists e :: Coming(y, e, s, c)
  {
    ExecInv(socks, run);
    var y := Exec(socks, run).value;
    assert SelOk(y, c) && Covered(y, c, s);
  }

  /** lwip_selscan also counts data left over from a partial read, which no callback tells
      of: a select that blocks beside a socket the scan would report has its wakeup, or the
      socket is readable by leftover data only. */
  lemma ReadyUnwoken(socks: map<nat, Sock>, run: seq<Step>, c: Cid, s: nat)
    requires (forall t :: t in socks ==> socks[t].waiting == 0) && Exec(socks, run).Some?
    requires var y := Exec(socks, run).value;
      c in y.sels && y.sels[c].pc.Block? && s in y.socks && s < y.sels[c].sets.max &&
        Ready(y.sels[c].sets, y.socks[s], s) > 0
    ensures var y := Exec(socks, run).value;
      || y.sels[c].sem || (exists e :: Coming(y, e, s, c))
      || (s in y.sels[c].sets.read && y.socks[s].last && y.socks[s].rcv <= 0)
  {
    hide Exec;
    var y := Exec(socks, run).value;
    if Wants(y.sels[c].sets, y.socks[s], s) {
      NoLostWakeup(socks, run, c, s);
    }
  }

  /** No select that relies on callbacks for a socket stands beside leftover data. */
  ghost predicate NoLeftover(y: State) {
    forall c, s :: c in y.sels && s in y.socks && Relies(y.sels[c], s) && s in y.sels[c].sets.read ==> !y.socks[s].last
  }

  /** lwip_recvfrom leaves data over while a select relies on callbacks for the socket. */
  ghost predicate Late(y: State, a: Step) {
    a.LeaveData? && a.last && a.s in y.socks && exists c :: ReliesRead(y, c, a.s)
  }

  ghost predicate ReliesRead(y: State, c: Cid, s: nat) {
    c in y.sels && Relies(y.sels[c], s) && s in y.sels[c].sets.read
  }

  /** A step keeps it exactly if it does not. */
  lemma LeftoverStep(y: State, a: Step)
    requires NoLeftover(y) && Enabled(y, a)
    ensures NoLeftover(Next(y, a)) <==> !Late(y, a)
  {
    var z := Next(y, a);
    if a.LeaveData? {
      if Late(y, a) {
        var c :| ReliesRead(y, c, a.s);
        assert c in z.sels && Relies(z.sels[c], a.s) && z.socks[a.s].last;
      } else {
        forall c, s | c in z.sels && s in z.socks && Relies(z.sels[c], s) && s in z.sels[c].sets.read
          ensures !z.socks[s].last
        {
          assert ReliesRead(y, c, s);
        }
      }
    } else {
      forall c, s | c in z.sels && s in z.socks && Relies(z.sels[c], s) && s in z.sels[c].sets.read
        ensures !z.socks[s].last
      {
        KeepsLast(y, a, s);
        NewlyRelies(y, a, c, s);
      }
    }
  }

  /** A visit changes nothing but signals and visitors. */
  lemma VisitKeeps(y: State, e: Eid, s: nat, rest: seq<Cid>)
    ensures var z := Visit(y, e, s, rest);
      && z.socks == y.socks && z.sels.Keys == y.sels.Keys
      && forall c :: c in y.sels ==> z.sels[c].pc == y.sels[c].pc && z.sels[c].sets == y.sels[c].sets
  {
    hide Wants;
  }

  /** Only LeaveData changes what is left over. */
  lemma KeepsLast(y: State, a: Step, s: nat)
    requires Enabled(y, a) && !a.LeaveData?
    ensures s in Next(y, a).socks <==> s in y.socks
    ensures s in y.socks ==> Next(y, a).socks[s].last == y.socks[s].last
  {
    hide Visit, Ready, Behind, Without;
    match a
    case Callback(e, t, evt) =>
      var z := y.(socks := y.socks[t := Happen(y.socks[t], evt)]);
      VisitKeeps(z, e, t, z.list);
    case Continue(e) =>
      var v := y.visitors[e];
      VisitKeeps(y, e, v.sock, if v.ctr != y.ctr then y.list else Behind(y.list, v.scb));
    case _ =>
  }

  /** A select comes to rely on a socket only by finding nothing there. */
  lemma NewlyRelies(y: State, a: Step, c: Cid, s: nat)
    requires Enabled(y, a) && !a.LeaveData? && c in Next(y, a).sels && Relies(Next(y, a).sels[c], s) && s in y.socks
    ensures c in y.sels && Next(y, a).sels[c].sets == y.sels[c].sets
    ensures Relies(y.sels[c], s) || Ready(y.sels[c].sets, y.socks[s], s) == 0
  {
    hide Visit, Ready, Behind, Without;
    match a
    case Callback(e, t, evt) =>
      var z := y.(socks := y.socks[t := Happen(y.socks[t], evt)]);
      VisitKeeps(z, e, t, z.list);
    case Continue(e) =>
      var v := y.visitors[e];
      VisitKeeps(y, e, v.sock, if v.ctr != y.ctr then y.list else Behind(y.list, v.scb));
    case Go(d) => AdvanceRelies(y, d, c, s);
    case _ =>
  }

  lemma AdvanceRelies(y: State, d: Cid, c: Cid, s: nat)
    requires d in y.sels && c in Advance(y, d).sels && Relies(Advance(y, d).sels[c], s) && s in y.socks
    ensures c in y.sels && Advance(y, d).sels[c].sets == y.sels[c].sets
    ensures Relies(y.sels[c], s) || Ready(y.sels[c].sets, y.socks[s], s) == 0
  {
    hide Advance, Relies, Ready;
    if c != d {
      AdvanceOthers(y, d, c);
    } else if y.sels[d].pc.Scan? {
      ScanRelies(y, d, s);
    } else {
      AdvanceElse(y, d, s);
    }
  }

  lemma AdvanceOthers(y: State, d: Cid, c: Cid)
    requires d in y.sels && c != d
    ensures c in Advance(y, d).sels <==> c in y.sels
    ensures c in y.sels ==> Advance(y, d).sels[c] == y.sels[c]
  {
    hide Ready, Without;
  }

  lemma ScanRelies(y: State, d: Cid, s: nat)
    requires d in y.sels && y.sels[d].pc.Scan? && d in Advance(y, d).sels && Relies(Advance(y, d).sels[d], s)
    requires s in y.socks
    ensures Advance(y, d).sels[d].sets == y.sels[d].sets
    ensures Relies(y.sels[d], s) || Ready(y.sels[d].sets, y.socks[s], s) == 0
  {
    hide Ready, Without;
  }

  lemma AdvanceElse(y: State, d: Cid, s: nat)
    requires d in y.sels && !y.sels[d].pc.Scan?
    ensures d in Advance(y, d).sels ==> !Relies(Advance(y, d).sels[d], s)
  {
    hide Ready, Without;
  }

  /** The states of a run. */
  lemma {:induction false} ExecPrefix(socks: map<nat, Sock>, run: seq<Step>, k: nat)
    requires Exec(socks, run).Some? && k <= |run|
    ensures Exec(socks, run[..k]).Some?
    ensures k < |run| ==>
      && Enabled(Exec(socks, run[..k]).value, run[k])
      && Exec(socks, run[..k + 1]) == Some(Next(Exec(socks, run[..k]).value, run[k]))
    decreases |run|
  {
    hide Next, Enabled;
    assert run[..|run|] == run;
    if k < |run| {
      var n := |run| - 1;
      if k == n {
        assert run[..k + 1] == run;
      } else {
        ExecPrefix(socks, run[..n], k);
        assert run[..n][..k] == run[..k] && run[..n][..k + 1] == run[..k + 1] && run[..n][k] == run[k];
      }
    }
  }

  /** Data is left over late at no step before k. */
  ghost predicate NeverLate(socks: map<nat, Sock>, run: seq<Step>, k: nat)
    requires Exec(socks, run).Some? && k <= |run|
  {
    forall j :: 0 <= j < k ==> !LateAt(socks, run, j)
  }

  ghost predicate LateAt(socks: map<nat, Sock>, run: seq<Step>, j: nat)
    requires Exec(socks, run).Some? && j < |run|
  {
    ExecPrefix(socks, run, j);
    Late(Exec(socks, run[..j]).value, run[j])
  }

  ghost predicate CleanAt(socks: map<nat, Sock>, run: seq<Step>, k: nat)
    requires Exec(socks, run).Some? && k <= |run|
  {
    ExecPrefix(socks, run, k);
    NoLeftover(Exec(socks, run[..k]).value)
  }

  /** Throughout a run no select relies on callbacks for a socket with leftover data, if and only
      if no data is left over late. */
  lemma LeftoverIff(socks: map<nat, Sock>, run: seq<Step>)
    requires Exec(socks, run).Some?
    ensures (forall k :: 0 <= k <= |run| ==> CleanAt(socks, run, k)) <==> NeverLate(socks, run, |run|)
  {
    hide CleanAt, LateAt;
    if NeverLate(socks, run, |run|) {
      forall k | 0 <= k <= |run| ensures CleanAt(socks, run, k) {
        CleanUntil(socks, run, k);
      }
    }
    if forall k :: 0 <= k <= |run| ==> CleanAt(socks, run, k) {
      forall k | 0 <= k < |run| ensures !LateAt(socks, run, k) {
        assert CleanAt(socks, run, k) && CleanAt(socks, run, k + 1);
        CleanStep(socks, run, k);
      }
    }
  }

  lemma {:induction false} CleanUntil(socks: map<nat, Sock>, run: seq<Step>, k: nat)
    requires Exec(socks, run).Some? && k <= |run| && NeverLate(socks, run, k)
    ensures CleanAt(socks, run, k)
  {
    hide LateAt;
    if k == 0 {
      assert run[..0] == [];
      NothingYet(socks);
    } else {
      hide CleanAt;
      CleanUntil(socks, run, k - 1);
      CleanStep(socks, run, k - 1);
    }
  }

  lemma CleanStep(socks: map<nat, Sock>, run: seq<Step>, k: nat)
    requires Exec(socks, run).Some? && k < |run| && CleanAt(socks, run, k)
    ensures CleanAt(socks, run, k + 1) <==> !LateAt(socks, run, k)
  {
    hide NoLeftover, Late, Next, Enabled, Exec;
    ExecPrefix(socks, run, k);
    LeftoverStep(Exec(socks, run[..k]).value, run[k]);
  }

  lemma NothingYet(socks: map<nat, Sock>)
    ensures NoLeftover(Exec(socks, []).value)
  {}

  /** Without late data, a select that blocks beside a socket the scan would report has its
      wakeup. */
  lemma ReadyWoken(socks: map<nat, Sock>, run: seq<Step>, c: Cid, s: nat)
    requires (forall t :: t in socks ==> socks[t].waiting == 0) && Exec(socks, run).Some?
    requires NeverLate(socks, run, |run|)
    requires var y := Exec(socks, run).value;
      c in y.sels && y.sels[c].pc.Block? && s in y.socks && s < y.sels[c].sets.max &&
        Ready(y.sels[c].sets, y.socks[s], s) > 0
    ensures var y := Exec(socks, run).value; y.sels[c].sem || exists e :: Coming(y, e, s, c)
  {
    assert NoLeftover(Exec(socks, run).value) by {
      CleanUntil(socks, run, |run|);
      assert run[..|run|] == run;
    }
    hide Exec, NeverLate;
    ReadyUnwoken(socks, run, c, s);
  }

  lemma Forward(socks: map<nat, Sock>, run: seq<Step>, y: State, a: Step) returns (run': seq<Step>, y': State)
    requires Exec(socks, run) == Some(y) && Enabled(y, a)
    ensures Exec(socks, run') == Some(y') && y' == Next(y, a)
  {
    run', y' := run + [a], Next(y, a);
    assert run'[..|run'| - 1] == run;
  }

  /** The second case happens: lwip_recvfrom takes the last packet, a select finds nothing and
      blocks, and only then lwip_recvfrom leaves data over.  The select sleeps beside a socket
      it would report, and nothing is on its way to wake it. */
  lemma LeftoverSleeps(c: Cid, e: Eid) returns (run: seq<Step>, y: State)
    ensures Exec(map[0 := Sock(1, false, false, false, 0)], run) == Some(y)
    ensures c in y.sels && y.sels[c].pc.Block? && !y.sels[c].sem && y.visitors == map[]
    ensures 0 in y.socks && Ready(y.sels[c].sets, y.socks[0], 0) > 0
  {
    var socks := map[0 := Sock(1, false, false, false, 0)];
    var sets := Sets({0}, {}, {}, 1);
    run, y := [], State(socks, [], 0, map[], map[]);
    assert Exec(socks, run) == Some(y);
    hide Exec;
    run, y := Forward(socks, run, y, Callback(e, 0, RcvMinus));
    run, y := Forward(socks, run, y, Select(c, sets, false));
    run, y := Forward(socks, run, y, Go(c));
    run, y := Forward(socks, run, y, Go(c));
    assert y.sels[c].pc == Link && y.visitors == map[] && y.socks == map[0 := Sock(0, false, false, false, 0)];
    run, y := SleepOn(socks, run, y, c);
    run, y := Forward(socks, run, y, LeaveData(0, true));
  }

  lemma SleepOn(socks: map<nat, Sock>, run: seq<Step>, y: State, c: Cid) returns (run': seq<Step>, y': State)
    requires Exec(socks, run) == Some(y) && y.visitors == map[] && y.socks == map[0 := Sock(0, false, false, false, 0)]
    requires c in y.sels && y.sels[c].pc == Link && y.sels[c].sets == Sets({0}, {}, {}, 1)
    ensures Exec(socks, run') == Some(y') && y'.visitors == map[] && 0 in y'.socks
    ensures c in y'.sels && y'.sels[c].pc == Block && !y'.sels[c].sem && y'.sels[c].sets == y.sels[c].sets
  {
    hide Exec;
    run', y' := Forward(socks, run, y, Go(c));
    run', y' := Forward(socks, run', y', Go(c));
    run', y' := Forward(socks, run', y', Go(c));
    assert y'.sels[c].pc == Scan(Second, 0, 0) && y'.socks == map[0 := Sock(0, false, false, false, 1)];
    run', y' := Forward(socks, run', y', Go(c));
    run', y' := Forward(socks, run', y', Go(c));
  }

  // ---------------------------------------------------------------- without protection

  /** SYS_ARCH_PROTECT is empty in the shipped configuration (lwipopts.h).  Putting a
      select_cb on the list is then two steps: the old head becomes its next link, and it
      becomes the head. */
  datatype Half = Load(c: Cid) | Store(c: Cid)

  function Insert(list: seq<Cid>, loaded: map<Cid, seq<Cid>>, run: seq<Half>): seq<Cid>
    decreases |run|
  {
    if run == [] then list else var y := Do(list, loaded, run[0]); Insert(y.0, y.1, run[1..])
  }

  /** Two selects put themselves on the list, in some order. */
  predicate TwoInserts(run: seq<Half>, a: Cid, b: Cid) {
    || run == [Load(a), Store(a), Load(b), Store(b)] || run == [Load(b), Store(b), Load(a), Store(a)]
    || run == [Load(a), Load(b), Store(a), Store(b)] || run == [Load(a), Load(b), Store(b), Store(a)]
    || run == [Load(b), Load(a), Store(a), Store(b)] || run == [Load(b), Load(a), Store(b), Store(a)]
  }

  /** Both are on the list exactly if one was done before the other began; otherwise one is
      not, and no callback will find it. */
  lemma UnprotectedIff(list: seq<Cid>, a: Cid, b: Cid, run: seq<Half>)
    requires a != b && a !in list && b !in list && TwoInserts(run, a, b)
    ensures var after := Insert(list, map[], run);
      a in after && b in after <==> run[1] == Store(run[0].c)
  {
    assert run == [run[0]] + [run[1]] + [run[2]] + [run[3]];
    FourSteps(list, run[0], run[1], run[2], run[3]);
  }

  lemma FourSteps(list: seq<Cid>, w: Half, x: Half, y: Half, z: Half)
    ensures Insert(list, map[], [w, x, y, z]) == Insert(Do(list, map[], w).0, Do(list, map[], w).1, [x, y, z])
    ensures forall l, m :: Insert(l, m, [x, y, z]) == Insert(Do(l, m, x).0, Do(l, m, x).1, [y, z])
    ensures forall l, m :: Insert(l, m, [y, z]) == Insert(Do(l, m, y).0, Do(l, m, y).1, [z])
    ensures forall l, m :: Insert(l, m, [z]) == Do(l, m, z).0
  {
    assert [w, x, y, z][1..] == [x, y, z] && [x, y, z][1..] == [y, z] && [y, z][1..] == [z] && [z][1..] == [];
  }

  function Do(list: seq<Cid>, loaded: map<Cid, seq<Cid>>, h: Half): (seq<Cid>, map<Cid, seq<Cid>>) {
    match h
    case Load(c) => (list, loaded[c := list])
    case Store(c) => ([c] + if c in loaded then loaded[c] else [], loaded)
  }

  // ---------------------------------------------------------------- the scan

  /** lwip_selscan while nothing else runs: the sockets with events in each set, and their
      number.  If it is zero no callback would have had anything to signal. */
  method SelScan(socks: map<nat, Sock>, x: Sets) returns (n: nat, r: set<nat>, w: set<nat>, e: set<nat>)
    ensures forall s :: s in r <==> s < x.max && s in x.read && s in socks && (socks[s].last || socks[s].rcv > 0)
    ensures forall s :: s in w <==> s < x.max && s in x.write && s in socks && socks[s].send
    ensures forall s :: s in e <==> s < x.max && s in x.except && s in socks && socks[s].err
    ensures n == |r| + |w| + |e|
    ensures n == 0 <==> forall s :: s in socks && s < x.max ==> Ready(x, socks[s], s) == 0
  {
    n, r, w, e := 0, {}, {}, {};
    var i := 0;
    while i < x.max
      invariant i <= x.max && n == |r| + |w| + |e|
      invariant forall s :: s in r <==> s < i && s in x.read && s in socks && (socks[s].last || socks[s].rcv > 0)
      invariant forall s :: s in w <==> s < i && s in x.write && s in socks && socks[s].send
      invariant forall s :: s in e <==> s < i && s in x.except && s in socks && socks[s].err
    {
      if i in socks {
        var k := socks[i];
        if i in x.read && (k.last || k.rcv > 0) {
          r, n := r + {i}, n + 1;
        }
        if i in x.write && k.send {
          w, n := w + {i}, n + 1;
        }
        if i in x.except && k.err {
          e, n := e + {i}, n + 1;
        }
      }
      i := i + 1;
    }
    assert n == 0 <==> r == {} && w == {} && e == {};
    assert forall s :: s in socks && s < x.max ==> (Ready(x, socks[s], s) == 0 <==> s !in r && s !in w && s !in e);
  }
}
