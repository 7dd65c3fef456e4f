/** The kernel's timing wheel (sys/kern/ktimer.c). */
module Timers {
  import opened Common

  const WHEEL: nat := 256

  type Id = nat
  datatype Event = Event(deadline: nat, refs: nat)

  function Slot(head: nat, ahead: nat): (s: nat)
    ensures s < WHEEL
  {
    (head + ahead) % WHEEL
  }

  /** The slot of a deadline in the future. */
  function Place(head: nat, now: nat, deadline: nat): (s: nat)
    requires deadline > now
    ensures s < WHEEL
  {
    Slot(head, deadline - now - 1)
  }

  ghost predicate Pending(slots: seq<seq<Id>>, id: Id) {
    exists s :: 0 <= s < |slots| && id in slots[s]
  }

  /** Event id is in the slot of its deadline, which is in the future, and the wheel holds a
      reference to it. */
  ghost predicate Placed(head: nat, now: nat, events: map<Id, Event>, s: nat, id: Id) {
    id in events && events[id].refs > 0 && events[id].deadline > now && s == Place(head, now, events[id].deadline)
  }

  /** Every event is in one slot at most, once, and the wheel holds a reference to it. */
  ghost predicate Loose(slots: seq<seq<Id>>, head: nat, events: map<Id, Event>) {
    && |slots| == WHEEL && head < WHEEL
    && (forall s :: 0 <= s < WHEEL ==> NoDup(slots[s]))
    && (forall s, id :: 0 <= s < WHEEL && id in slots[s] ==> id in events && events[id].refs > 0)
    && (forall s, t, id :: 0 <= s < WHEEL && 0 <= t < WHEEL && id in slots[s] && id in slots[t] ==> s == t)
  }

  /** And each is in its place. */
  ghost predicate Wheel(slots: seq<seq<Id>>, head: nat, now: nat, events: map<Id, Event>) {
    && Loose(slots, head, events)
    && (forall s, id :: 0 <= s < WHEEL && id in slots[s] ==> Placed(head, now, events, s, id))
  }

  /** When the wheel first comes to slot s: within the next 256 ticks. */
  function Visit(head: nat, now: nat, s: nat): (v: nat)
    requires head < WHEEL && s < WHEEL
    ensures now < v <= now + WHEEL
  {
    now + 1 + (s + WHEEL - head) % WHEEL
  }

  /** The wheel has come to the event's slot by the given time, and it is due at clock time. */
  ghost predicate Fires(slots: seq<seq<Id>>, head: nat, now: nat, events: map<Id, Event>, time: nat,
          clock: nat, id: Id) {
    && head < WHEEL && Due(events, clock, id)
    && exists s :: 0 <= s < |slots| && s < WHEEL && id in slots[s] && Visit(head, now, s) <= time
  }

  /** Events in their place are visited before they are due. */
  lemma PlacedFires(slots: seq<seq<Id>>, head: nat, now: nat, events: map<Id, Event>, clock: nat, id: Id)
    requires Wheel(slots, head, now, events)
    ensures Fires(slots, head, now, events, clock, clock, id) <==> Pending(slots, id) && Due(events, clock, id)
  {
    if Pending(slots, id) && Due(events, clock, id) {
      var s :| 0 <= s < |slots| && id in slots[s];
      assert Placed(head, now, events, s, id);
      VisitPlace(head, now, events[id].deadline);
    }
  }

  lemma VisitPlace(head: nat, now: nat, deadline: nat)
    requires head < WHEEL && deadline > now
    ensures Visit(head, now, Place(head, now, deadline)) <= deadline
  {
    var d := deadline - now - 1;
    assert ((head + d) % WHEEL + WHEEL - head) % WHEEL == d % WHEEL;
  }

  /** KTimer_Create reads the time before it takes the lock.  The event it files is in its
      place exactly when the time read is current up to whole turns of the wheel and the
      deadline is still ahead; in particular the timeout is not zero. */
  lemma FiledInPlace(head: nat, now: nat, seen: nat, timeout: nat)
    requires head < WHEEL && seen <= now
    ensures (now - seen) % WHEEL == 0 && seen + timeout > now <==>
      seen + timeout > now && Place(head, now, seen + timeout) == (head + timeout + WHEEL - 1) % WHEEL
  {
    if seen + timeout > now {
      var a, b := head + (seen + timeout - now - 1), head + timeout + WHEEL - 1;
      assert b - a == now - seen + WHEEL;
      SameSlot(a, b);
    }
  }

  /** A timeout of zero is filed in the slot the wheel comes to last. */
  lemma ZeroSlot(head: nat, now: nat)
    requires head < WHEEL
    ensures Visit(head, now, (head + 0 + WHEEL - 1) % WHEEL) == now + WHEEL
  {}

  lemma SameSlot(a: nat, b: nat)
    requires a <= b
    ensures a % WHEEL == b % WHEEL <==> (b - a) % WHEEL == 0
  {}

  // ---------------------------------------------------------------- references

  /** KTimer_Release: the last reference frees the event. */
  function Dropped(events: map<Id, Event>, id: Id): map<Id, Event>
    requires id in events && events[id].refs > 0
  {
    if events[id].refs == 1 then events - {id} else events[id := events[id].(refs := events[id].refs - 1)]
  }

  /** Events is old with one reference less for each of the ids. */
  ghost predicate DroppedOnce(old_: map<Id, Event>, events: map<Id, Event>, ids: seq<Id>) {
    forall id :: After(old_, events, id, id in ids)
  }

  ghost predicate After(old_: map<Id, Event>, events: map<Id, Event>, id: Id, dropped: bool) {
    if id !in old_ then id !in events
    else if !dropped then id in events && events[id] == old_[id]
    else if old_[id].refs <= 1 then id !in events
    else id in events && events[id] == old_[id].(refs := old_[id].refs - 1)
  }

  lemma DropNext(old_: map<Id, Event>, events: map<Id, Event>, ids: seq<Id>, id: Id)
    requires DroppedOnce(old_, events, ids) && id !in ids && id in events && events[id].refs > 0
    ensures DroppedOnce(old_, Dropped(events, id), ids + [id])
  {
    var next := Dropped(events, id);
    forall x ensures After(old_, next, x, x in ids + [id]) {
      assert After(old_, events, x, x in ids);
    }
  }

  lemma DropChain(a: map<Id, Event>, b: map<Id, Event>, c: map<Id, Event>, xs: seq<Id>, ys: seq<Id>)
    requires DroppedOnce(a, b, xs) && DroppedOnce(b, c, ys) && forall id :: id in ys ==> id !in xs
    ensures DroppedOnce(a, c, xs + ys)
  {
    forall x ensures After(a, c, x, x in xs + ys) {
      assert After(a, b, x, x in xs) && After(b, c, x, x in ys);
    }
  }

  predicate Due(events: map<Id, Event>, now: nat, id: Id) {
    id in events && events[id].deadline <= now
  }

  // ---------------------------------------------------------------- turning the wheel

  /** Once the slot at the head holds nothing due, the wheel can turn. */
  lemma Turn(slots: seq<seq<Id>>, head: nat, now: nat, events: map<Id, Event>)
    requires Wheel(slots, head, now, events) && forall id :: id in slots[head] ==> events[id].deadline > now + 1
    ensures Wheel(slots, (head + 1) % WHEEL, now + 1, events)
  {
    forall s, id | 0 <= s < WHEEL && id in slots[s] ensures Placed((head + 1) % WHEEL, now + 1, events, s, id) {
      assert Placed(head, now, events, s, id);
      var d := events[id].deadline;
      assert d == now + 1 ==> s == head;
      TurnSlot(head, d - now - 1);
    }
  }

  lemma TurnSlot(head: nat, ahead: nat)
    requires head < WHEEL && ahead >= 1
    ensures Slot((head + 1) % WHEEL, ahead - 1) == Slot(head, ahead)
  {}

  /** The slot at the head holds what is due next, and nothing else that is due this turn. */
  lemma HeadSlot(slots: seq<seq<Id>>, head: nat, now: nat, events: map<Id, Event>, id: Id)
    requires Wheel(slots, head, now, events) && id in slots[head]
    ensures id in events && events[id].refs > 0 && (events[id].deadline == now + 1 || events[id].deadline > now + WHEEL)
  {
    assert Placed(head, now, events, head, id);
  }

  /** The slots hold what they held, but for the events of ids. */
  ghost predicate Less(slots0: seq<seq<Id>>, slots: seq<seq<Id>>, ids: seq<Id>) {
    && |slots0| == WHEEL == |slots|
    && forall s, id :: 0 <= s < WHEEL ==> (id in slots[s] <==> id in slots0[s] && id !in ids)
  }

  lemma LessAt(slots0: seq<seq<Id>>, slots: seq<seq<Id>>, ids: seq<Id>, s: nat, id: Id)
    requires Less(slots0, slots, ids) && s < WHEEL
    ensures id in slots[s] <==> id in slots0[s] && id !in ids
  {}

  lemma LessMore(slots0: seq<seq<Id>>, mid: seq<seq<Id>>, slots: seq<seq<Id>>, ids: seq<Id>, more: seq<Id>)
    requires Less(slots0, mid, ids) && Less(mid, slots, more)
    ensures Less(slots0, slots, ids + more)
  {
    forall s, id | 0 <= s < WHEEL ensures id in slots[s] <==> id in slots0[s] && id !in ids + more {
      LessAt(slots0, mid, ids, s, id);
      LessAt(mid, slots, more, s, id);
    }
  }

  /** Unlinking an event. */
  lemma Unlink(slots: seq<seq<Id>>, head: nat, events: map<Id, Event>, s: nat, id: Id)
    requires Loose(slots, head, events) && s < WHEEL && id in slots[s]
    ensures var slots' := slots[s := Without(slots[s], id)];
      && Loose(slots', head, Dropped(events, id))
      && Less(slots, slots', [id])
      && forall x :: Pending(slots', x) <==> Pending(slots, x) && x != id
  {
    var slots', events' := slots[s := Without(slots[s], id)], Dropped(events, id);
    WithoutFacts(slots[s], id);
    forall t, x | 0 <= t < WHEEL ensures x in slots'[t] <==> x in slots[t] && x != id {
      if t != s && x == id {
        assert x !in slots[t];
      }
    }
    forall x ensures Pending(slots', x) <==> Pending(slots, x) && x != id {
      if Pending(slots', x) {
        var t :| 0 <= t < |slots'| && x in slots'[t];
        assert x in slots[t];
      }
      if Pending(slots, x) && x != id {
        var t :| 0 <= t < |slots| && x in slots[t];
        assert x in slots'[t];
      }
    }
  }

  /** The events left are still in their place. */
  lemma UnlinkPlaced(slots: seq<seq<Id>>, head: nat, now: nat, events: map<Id, Event>, s: nat, id: Id)
    requires Wheel(slots, head, now, events) && s < WHEEL && id in slots[s]
    ensures Wheel(slots[s := Without(slots[s], id)], head, now, Dropped(events, id))
  {
    var slots', events' := slots[s := Without(slots[s], id)], Dropped(events, id);
    Unlink(slots, head, events, s, id);
    forall t, x | 0 <= t < WHEEL && x in slots'[t] ensures Placed(head, now, events', t, x) {
      assert x in slots[t] && x !in [id];
      assert Placed(head, now, events, t, x);
    }
  }

  // ---------------------------------------------------------------- the code

  class KTimer {
    const slots: array<seq<Id>>
    var head: nat
    var now: nat
    var events: map<Id, Event>
    var fired: seq<Id>               // the callbacks made so far

    ghost predicate Valid()
      reads this, slots
    {
      slots.Length == WHEEL && Loose(slots[..], head, events)
    }

    /** Every event on the wheel is in the slot of its deadline. */
    ghost predicate InPlace()
      reads this, slots
    {
      Wheel(slots[..], head, now, events)
    }

    constructor (epoch: nat)
      ensures Valid() && InPlace() && fresh(slots)
      ensures now == epoch && events == map[] && fired == [] && forall id :: !Pending(slots[..], id)
    {
      slots := new seq<Id>[WHEEL](_ => []);
      head, now, events, fired := 0, epoch, map[], [];
    }

    /** KTimer_Create, with seen the time read before the lock is taken: the wheel stays in
        order exactly if that time is current up to whole turns and the deadline is ahead. */
    method Create(id: Id, seen: nat, timeout: nat)
      requires Valid() && id !in events && seen <= now
      modifies this`events, slots
      ensures Valid() && events == old(events)[id := Event(seen + timeout, 2)]
      ensures forall x :: Pending(slots[..], x) <==> old(Pending(slots[..], x)) || x == id
      ensures id in slots[(head + timeout + WHEEL - 1) % WHEEL]
      ensures old(InPlace()) ==> (InPlace() <==> (now - seen) % WHEEL == 0 && seen + timeout > now)
    {
      ghost var slots0, events0 := slots[..], events;
      events := events[id := Event(seen + timeout, 2)];
      var slot := (head + timeout + WHEEL - 1) % WHEEL;
      slots[slot] := [id] + slots[slot];
      assert slots[..] == slots0[slot := [id] + slots0[slot]];
      FiledInPlace(head, now, seen, timeout);
      Filed(slots0, head, now, events0, slot, id, Event(seen + timeout, 2));
    }

    /** KTimer_Cancel, of an event still on the wheel. */
    method Cancel(id: Id)
      requires Valid() && Pending(slots[..], id)
      modifies this`events, slots
      ensures Valid() && (old(InPlace()) ==> InPlace())
      ensures old(id in events && events[id].refs > 0) && events == old(Dropped(events, id))
      ensures forall x :: Pending(slots[..], x) <==> old(Pending(slots[..], x)) && x != id
    {
      ghost var slots0 := slots[..];
      var slot := 0;
      while id !in slots[slot]
        invariant slot < WHEEL && forall s :: 0 <= s < slot ==> id !in slots[s]
        decreases WHEEL - slot
      {
        assert exists s :: 0 <= s < WHEEL && id in slots[s];
        slot := slot + 1;
      }
      hide Loose;
      Unlinked(slot, id);
      slots[slot] := Without(slots[slot], id);
      assert slots[..] == slots0[slot := Without(slots0[slot], id)];
      Release(id);
    }

    /** What unlinking an event of a slot does. */
    lemma Unlinked(s: nat, id: Id)
      requires Valid() && s < WHEEL && id in slots[s]
      ensures id in events && events[id].refs > 0
      ensures var slots' := slots[..][s := Without(slots[s], id)];
        && Loose(slots', head, Dropped(events, id))
        && (InPlace() ==> Wheel(slots', head, now, Dropped(events, id)))
        && Less(slots[..], slots', [id])
        && forall x :: Pending(slots', x) <==> Pending(slots[..], x) && x != id
    {
      Unlink(slots[..], head, events, s, id);
      if InPlace() {
        UnlinkPlaced(slots[..], head, now, events, s, id);
      }
    }

    /** Whether the event is on the wheel. */
    method OnWheel(id: Id) returns (yes: bool)
      requires slots.Length == WHEEL
      ensures yes <==> Pending(slots[..], id)
    {
      var s := 0;
      while s < WHEEL
        invariant s <= WHEEL && forall t :: 0 <= t < s ==> id !in slots[t]
      {
        if id in slots[s] {
          assert id in slots[..][s];
          return true;
        }
        s := s + 1;
      }
      yes := false;
    }

    method Release(id: Id)
      requires id in events && events[id].refs > 0
      modifies this`events
      ensures events == old(Dropped(events, id))
    {
      if events[id].refs == 1 {
        events := events - {id};
      } else {
        events := events[id := events[id].(refs := events[id].refs - 1)];
      }
    }

    /** The events of the slot at the head that are due fire and leave the wheel. */
    method Dispatch(clock: nat) returns (ghost batch: seq<Id>)
      requires Valid()
      modifies this`events, this`fired, slots
      ensures fired == old(fired) + batch
      ensures Valid() && (old(InPlace()) ==> InPlace()) && DroppedOnce(old(events), events, batch) && NoDup(batch)
      ensures forall id :: id in batch <==> id in old(slots[..])[head] && Due(old(events), clock, id)
      ensures Less(old(slots[..]), slots[..], batch)
    {
      hide DroppedOnce, Wheel, Loose;
      ghost var slots0, events0 := slots[..], events;
      HeadFits(slots0, head, events);
      NoneDropped(events);
      assert Less(slots0, slots[..], []);
      var list, i := slots[head], 0;
      batch := [];
      while i < |list|
        invariant i <= |list| && Valid() && (old(InPlace()) ==> InPlace())
        invariant fired == old(fired) + batch && NoDup(batch) && DroppedOnce(events0, events, batch)
        invariant Less(slots0, slots[..], batch)
        invariant forall id :: id in batch <==> id in list[..i] && Due(events0, clock, id)
      {
        var it := list[i];
        assert list[..i + 1] == list[..i] + [it] && it !in list[..i];
        ghost var mid := slots[..];
        assert it in mid[head];
        Unlinked(head, it);
        StillThere(events0, events, batch, it);
        if events[it].deadline <= clock {
          DropNext(events0, events, batch, it);
          fired := fired + [it];
          Expire(it);
          LessMore(slots0, mid, slots[..], batch, [it]);
          batch := batch + [it];
        }
        i := i + 1;
      }
      assert list[..i] == list;
    }

    /** An event of the slot at the head leaves the wheel. */
    method Expire(id: Id)
      requires Valid() && head < WHEEL && id in slots[head]
      modifies this`events, slots
      ensures Valid() && (old(InPlace()) ==> InPlace())
      ensures old(id in events && events[id].refs > 0) && events == old(Dropped(events, id))
      ensures Less(old(slots[..]), slots[..], [id])
    {
      hide Pending, Wheel, Loose;
      ghost var slots0 := slots[..];
      Unlinked(head, id);
      slots[head] := Without(slots[head], id);
      assert slots[..] == slots0[head := Without(slots0[head], id)];
      Release(id);
    }

    /** KTimer_Process at clock time: exactly the events that are due and whose slot the wheel
        comes to fire, each once, and each loses the wheel's reference.  If the events are in
        their place, these are the events that are due; and within one turn of the wheel they
        fire in the order of their deadlines. */
    method Process(clock: nat) returns (ghost batch: seq<Id>)
      requires Valid()
      modifies this, slots
      ensures fired == old(fired) + batch
      ensures Valid() && now == if clock > old(now) then clock else old(now)
      ensures NoDup(batch) && forall id :: id in batch <==> old(Fires(slots[..], head, now, events, clock, clock, id))
      ensures Less(old(slots[..]), slots[..], batch)
      ensures DroppedOnce(old(events), events, batch)
      ensures old(InPlace()) ==>
        && InPlace() && (forall id :: id in batch <==> old(Pending(slots[..], id)) && Due(old(events), clock, id))
        && (clock <= old(now) + WHEEL ==> Sorted(old(events), batch))
    {
      hide DroppedOnce, Wheel, Loose, Sorted, Due, Fires, Until;
      ghost var slots0, events0, start, head0 := slots[..], events, now, head;
      ghost var tidy := InPlace();
      batch := [];
      NoneDropped(events);
      EmptySorted(events, now);
      HeadFits(slots0, head, events);
      NoneYet(slots0, head, now, events, clock);
      assert Less(slots0, slots[..], batch);
      while clock > now
        invariant Valid() && start <= now && (clock > start ==> now <= clock) && (clock <= start ==> now == start)
        invariant head == (head0 + now - start) % WHEEL
        invariant fired == old(fired) + batch && NoDup(batch) && DroppedOnce(events0, events, batch)
        invariant forall id :: id in batch <==> Fires(slots0, head0, start, events0, now, clock, id)
        invariant Less(slots0, slots[..], batch)
        invariant tidy ==>
          InPlace() && (clock <= start + WHEEL ==> Sorted(events0, batch) && Until(events0, batch, now))
      {
        ghost var events1, slots1 := events, slots[..];
        HeadFits(slots1, head, events);
        ghost var more := Dispatch(clock);
        Added(slots0, slots1, head0, start, head, now, events0, events1, batch, more, clock);
        DropChain(events0, events1, events, batch, more);
        LessMore(slots0, slots1, slots[..], batch, more);
        if tidy {
          InOrder(slots1, head, now, events0, events1, batch, more, clock);
          AfterDispatch(slots1, slots[..], head, now, events1, events, more, clock);
          Turn(slots[..], head, now, events);
        }
        SameLoose(slots[..], head, events);
        TurnHead(head0, now - start);
        now := now + 1;
        head := (head + 1) % WHEEL;
        batch := batch + more;
      }
      if clock <= start {
        BeforeStart(slots0, head0, start, events0, clock);
      }
      if tidy {
        forall id ensures id in batch <==> Pending(slots0, id) && Due(events0, clock, id) {
          PlacedFires(slots0, head0, start, events0, clock, id);
        }
      }
    }
  }

  /** A timeout of zero: the event fires, but 256 ticks late. */
  method ZeroTimeout(k: KTimer, id: Id, clock: nat) returns (ghost batch: seq<Id>)
    requires k.Valid() && id !in k.events
    modifies k, k.slots
    ensures id in batch <==> clock >= old(k.now) + WHEEL
  {
    hide Loose, Wheel;
    HeadFits(k.slots[..], k.head, k.events);
    ghost var head, now := k.head, k.now;
    k.Create(id, k.now, 0);
    ghost var slots, events := k.slots[..], k.events;
    ZeroSlot(head, now);
    ghost var s := (head + 0 + WHEEL - 1) % WHEEL;
    assert id in slots[s];
    assert forall t :: 0 <= t < WHEEL && id in slots[t] ==> t == s by { OneSlot(slots, head, events, s, id); }
    batch := k.Process(clock);
  }

  lemma OneSlot(slots: seq<seq<Id>>, head: nat, events: map<Id, Event>, s: nat, id: Id)
    requires Loose(slots, head, events) && s < WHEEL && id in slots[s]
    ensures forall t :: 0 <= t < WHEEL && id in slots[t] ==> t == s
  {}

  lemma NoneYet(slots: seq<seq<Id>>, head: nat, now: nat, events: map<Id, Event>, clock: nat)
    ensures forall id :: !Fires(slots, head, now, events, now, clock, id)
  {}

  lemma BeforeStart(slots: seq<seq<Id>>, head: nat, now: nat, events: map<Id, Event>, clock: nat)
    requires clock <= now
    ensures forall id :: !Fires(slots, head, now, events, clock, clock, id)
  {}

  lemma SameLoose(slots: seq<seq<Id>>, head: nat, events: map<Id, Event>)
    requires Loose(slots, head, events)
    ensures Loose(slots, (head + 1) % WHEEL, events)
  {}

  lemma TurnHead(head: nat, turns: nat)
    ensures ((head + turns) % WHEEL + 1) % WHEEL == (head + turns + 1) % WHEEL
  {}

  /** The slot visited at time now + 1 is the one at the head. */
  lemma Visited(head0: nat, start: nat, head: nat, now: nat, s: nat)
    requires head0 < WHEEL && s < WHEEL && start <= now && head == (head0 + now - start) % WHEEL
    ensures Visit(head0, start, s) == now + 1 ==> s == head
    ensures Visit(head0, start, head) <= now + 1
  {
    var turns := now - start;
    assert (head + WHEEL - head0) % WHEEL == turns % WHEEL;
    if (s + WHEEL - head0) % WHEEL == turns {
      assert (head0 + turns) % WHEEL == s;
    }
  }

  /** What one slot adds to the batch. */
  lemma Added(slots0: seq<seq<Id>>, slots: seq<seq<Id>>, head0: nat, start: nat, head: nat, now: nat,
          events0: map<Id, Event>, events: map<Id, Event>, batch: seq<Id>, more: seq<Id>, clock: nat)
    requires |slots0| == WHEEL == |slots| && head0 < WHEEL && start <= now && head == (head0 + now - start) % WHEEL
    requires Loose(slots, head, events) && DroppedOnce(events0, events, batch) && NoDup(batch) && NoDup(more)
    requires forall id :: id in batch <==> Fires(slots0, head0, start, events0, now, clock, id)
    requires Less(slots0, slots, batch)
    requires forall id :: id in more <==> id in slots[head] && Due(events, clock, id)
    ensures NoDup(batch + more) && forall id :: id in more ==> id !in batch
    ensures forall id :: id in batch + more <==> Fires(slots0, head0, start, events0, now + 1, clock, id)
  {
    hide DroppedOnce;
    forall id | id in more ensures id !in batch {
      assert id in slots[head];
    }
    var all := batch + more;
    forall i, j | 0 <= i < j < |all| ensures all[i] != all[j] {
      if i < |batch| <= j {
        assert all[i] in batch && all[j] in more;
      }
    }
    forall id ensures id in batch + more <==> Fires(slots0, head0, start, events0, now + 1, clock, id) {
      Visited(head0, start, head, now, head);
      if id in batch {
        FiresLater(slots0, head0, start, events0, now, clock, id);
      } else if id in slots0[head] {
        assert id in slots[head];
        StillThere(events0, events, batch, id);
      }
      if Fires(slots0, head0, start, events0, now + 1, clock, id) && id !in batch {
        var s :| 0 <= s < |slots0| && s < WHEEL && id in slots0[s] && Visit(head0, start, s) <= now + 1;
        Visited(head0, start, head, now, s);
        assert id in slots[s];
        StillThere(events0, events, batch, id);
      }
    }
  }

  lemma FiresLater(slots: seq<seq<Id>>, head: nat, start: nat, events: map<Id, Event>, now: nat, clock: nat, id: Id)
    requires Fires(slots, head, start, events, now, clock, id)
    ensures Fires(slots, head, start, events, now + 1, clock, id)
  {}

  // ---------------------------------------------------------------- cancelling an event that has fired

  /** The reference of its holder outlives KTimer_Cancel exactly if the event has not fired: by
      then the wheel has given its own reference back, and the cancel drops the other. */
  method CancelAfter(k: KTimer, id: Id, timeout: nat, clock: nat)
    requires k.Valid() && k.InPlace() && id !in k.events && timeout > 0
    modifies k, k.slots
    ensures id in k.events <==> clock < old(k.now) + timeout
    ensures id in k.events ==> k.events[id].refs == 1
  {
    hide Loose, Wheel, DroppedOnce, Fires, Sorted;
    k.Create(id, k.now, timeout);
    ghost var events0, slots0 := k.events, k.slots[..];
    ghost var batch := k.Process(clock);
    AfterOf(events0, k.events, batch, id);
    ghost var s := StillFiled(slots0, k.slots[..], batch, id);
    if id in k.slots[..][s] {
      assert Pending(k.slots[..], id);
    }
    var filed := k.OnWheel(id);
    if filed {
      k.Cancel(id);
    } else {
      k.Release(id);   // the unlink that goes with it is CancelFired below
    }
  }

  lemma AfterOf(old_: map<Id, Event>, events: map<Id, Event>, ids: seq<Id>, id: Id)
    requires DroppedOnce(old_, events, ids)
    ensures After(old_, events, id, id in ids)
  {}

  lemma StillFiled(slots0: seq<seq<Id>>, slots: seq<seq<Id>>, ids: seq<Id>, id: Id) returns (s: nat)
    requires Less(slots0, slots, ids) && Pending(slots0, id)
    ensures s < |slots| && (id in slots[s] <==> id !in ids)
    ensures Pending(slots, id) <==> id !in ids
  {
    s :| 0 <= s < |slots0| && id in slots0[s];
    LessAt(slots0, slots, ids, s, id);
    if Pending(slots, id) {
      var t :| 0 <= t < |slots| && id in slots[t];
      LessAt(slots0, slots, ids, t, id);
    }
  }

  /** A list of queue.h: the first element, and the links of all events, on it or not.  A
      previous link of None leads to the head of the list. */
  datatype Link = Link(next: Option<Id>, prev: Option<Id>)
  datatype List = List(first: Option<Id>, links: map<Id, Link>)

  function SetNext(l: List, prev: Option<Id>, next: Option<Id>): List {
    if prev.None? then l.(first := next)
    else if prev.value !in l.links then l
    else l.(links := l.links[prev.value := l.links[prev.value].(next := next)])
  }

  function SetPrev(l: List, next: Option<Id>, prev: Option<Id>): List {
    if next.None? || next.value !in l.links then l
    else l.(links := l.links[next.value := l.links[next.value].(prev := prev)])
  }

  /** LIST_INSERT_HEAD. */
  function InsertHead(l: List, e: Id): List {
    var m := SetPrev(l, l.first, Some(e));
    m.(first := Some(e), links := m.links[e := Link(l.first, None)])
  }

  /** LIST_REMOVE, which leaves the links of the element itself alone. */
  function Remove(l: List, e: Id): List
    requires e in l.links
  {
    var x := l.links[e];
    SetNext(SetPrev(l, x.next, x.prev), x.prev, x.next)
  }

  /** From the element at on, which prev leads to, come the elements of s. */
  ghost predicate From(links: map<Id, Link>, at: Option<Id>, prev: Option<Id>, s: seq<Id>)
    decreases |s|
  {
    if s == [] then at == None
    else at == Some(s[0]) && s[0] in links && links[s[0]].prev == prev && From(links, links[s[0]].next, at, s[1..])
  }

  /** The list holds the elements of s in order. */
  ghost predicate Chain(l: List, s: seq<Id>) {
    NoDup(s) && From(l.links, l.first, None, s)
  }

  lemma {:induction false} FromFrame(links: map<Id, Link>, links': map<Id, Link>, at: Option<Id>,
          prev: Option<Id>, s: seq<Id>)
    requires From(links, at, prev, s) && forall x :: x in s && x in links ==> x in links' && links'[x] == links[x]
    ensures From(links', at, prev, s)
    decreases |s|
  {
    if s != [] {
      FromFrame(links, links', links[s[0]].next, at, s[1..]);
    }
  }

  lemma {:induction false} FromTail(links: map<Id, Link>, at: Option<Id>, prev: Option<Id>, s: seq<Id>, t: seq<Id>)
    requires From(links, at, prev, s + t)
    ensures exists first, p :: From(links, first, p, t)
    decreases |s|
  {
    if s == [] {
      assert s + t == t;
    } else {
      assert (s + t)[1..] == s[1..] + t;
      FromTail(links, links[s[0]].next, at, s[1..], t);
    }
  }

  lemma InsertChain(l: List, s: seq<Id>, e: Id)
    requires Chain(l, s) && e !in s
    ensures Chain(InsertHead(l, e), [e] + s)
  {
    var m := InsertHead(l, e);
    assert ([e] + s)[1..] == s;
    if s != [] {
      assert s[0] !in s[1..] && e !in s[1..];
      FromFrame(l.links, m.links, l.links[s[0]].next, l.first, s[1..]);
    }
  }

  /** The links of an element of a chain are its neighbours. */
  lemma {:induction false} FromAt(links: map<Id, Link>, at: Option<Id>, prev: Option<Id>, s: seq<Id>, k: nat)
    requires From(links, at, prev, s) && k < |s|
    ensures s[k] in links
    ensures links[s[k]] == Link(if k + 1 < |s| then Some(s[k + 1]) else None, if k == 0 then prev else Some(s[k - 1]))
    decreases |s|
  {
    var t := s[1..];
    if k > 0 {
      FromAt(links, links[s[0]].next, at, t, k - 1);
    } else if t != [] {
      assert t[0] == s[1];
    }
  }

  /** The stale links of event a, which is not on the list, agree with the list. */
  predicate Harmless(l: List, s: seq<Id>, a: Id)
    requires a in l.links
  {
    var x := l.links[a];
    && (x.prev.None? ==> l.first == x.next)
    && (x.prev.Some? && x.prev.value in s && x.prev.value in l.links ==> l.links[x.prev.value].next == x.next)
    && (x.next.Some? && x.next.value in s && x.next.value in l.links ==> l.links[x.next.value].prev == x.prev)
  }

  /** Unlinking an event that is not on the list any more leaves the list as it is exactly if
      its stale links still agree with it. */
  lemma UnlinkAgainIff(l: List, s: seq<Id>, a: Id)
    requires Chain(l, s) && a in l.links && a !in s
    ensures Chain(Remove(l, a), s) <==> Harmless(l, s, a)
  {
    var m, x := Remove(l, a), l.links[a];
    if Harmless(l, s, a) {
      FromFrame(l.links, m.links, l.first, None, s);
    }
    if Chain(m, s) {
      if x.prev.Some? && x.prev.value in s {
        var k :| 0 <= k < |s| && s[k] == x.prev.value;
        FromAt(l.links, l.first, None, s, k);
        FromAt(m.links, m.first, None, s, k);
      }
      if x.next.Some? && x.next.value in s {
        var k :| 0 <= k < |s| && s[k] == x.next.value;
        FromAt(l.links, l.first, None, s, k);
        FromAt(m.links, m.first, None, s, k);
      }
    }
  }

  function Front(s: seq<Id>): Option<Id> {
    if s == [] then None else Some(s[0])
  }

  function Back(prev: Option<Id>, s: seq<Id>): Option<Id> {
    if s == [] then prev else Some(s[|s| - 1])
  }

  /** LIST_REMOVE takes an element off its list, and leaves its own links as they were: to its
      neighbours. */
  lemma RemoveOne(l: List, x: seq<Id>, y: seq<Id>, a: Id)
    requires Chain(l, x + [a] + y)
    ensures a in l.links && Chain(Remove(l, a), x + y)
    ensures a in Remove(l, a).links && Remove(l, a).links[a] == l.links[a] == Link(Front(y), Back(None, x))
  {
    var s := x + [a] + y;
    assert s[|x|] == a;
    FromAt(l.links, l.first, None, s, |x|);
    assert a !in x && a !in y by {
      assert forall i :: 0 <= i < |x| ==> x[i] == s[i];
      assert forall i :: 0 <= i < |y| ==> y[i] == s[|x| + 1 + i];
    }
    Bypassed(l, x, [a], y, a);
  }

  /** Where the links of an event lead around a stretch of the list, that stretch is lost.  So if
      event a has fired from the front of its slot, what was filed there since drops out when
      it is cancelled, and will not fire. */
  lemma CancelFired(l: List, x: seq<Id>, between: seq<Id>, y: seq<Id>, a: Id)
    requires Chain(l, x + between + y) && a in l.links && a !in x + between + y
    requires l.links[a] == Link(Front(y), Back(None, x))
    ensures Chain(Remove(l, a), x + y)
    ensures Chain(Remove(l, a), x + between + y) <==> between == []
  {
    var s := x + between + y;
    Bypassed(l, x, between, y, a);
    if between == [] {
      assert s == x + y;
    } else {
      UnlinkAgainIff(l, s, a);
      assert s[|x|] == between[0];
      if x != [] {
        FromAt(l.links, l.first, None, s, |x| - 1);
      }
      if y != [] {
        assert y[0] == s[|x| + |between|];
      }
    }
  }

  lemma Bypassed(l: List, x: seq<Id>, between: seq<Id>, y: seq<Id>, a: Id)
    requires Chain(l, x + between + y) && a in l.links && a !in x && a !in y
    requires l.links[a] == Link(Front(y), Back(None, x))
    ensures Chain(Remove(l, a), x + y)
  {
    var s, t, m := x + between + y, x + y, Remove(l, a);
    SpliceLinks(l, x, between, y, a);
    Spliced(l.links, m.links, l.first, None, x, between, y);
    forall i, j | 0 <= i < j < |t| ensures t[i] != t[j] {
      assert t[i] == if i < |x| then s[i] else s[|between| + i];
      assert t[j] == if j < |x| then s[j] else s[|between| + j];
    }
  }

  lemma SpliceLinks(l: List, x: seq<Id>, between: seq<Id>, y: seq<Id>, a: Id)
    requires Chain(l, x + between + y) && a in l.links && a !in x && a !in y
    requires l.links[a] == Link(Front(y), Back(None, x))
    ensures Remove(l, a).first == if x == [] then Front(y) else l.first
    ensures Joined(l.links, Remove(l, a).links, None, x, y)
  {
    var s := x + between + y;
    if x != [] {
      assert x[|x| - 1] == s[|x| - 1];
      FromAt(l.links, l.first, None, s, |x| - 1);
    }
    if y != [] {
      assert y[0] == s[|x| + |between|];
      FromAt(l.links, l.first, None, s, |x| + |between|);
    }
  }

  /** The links of x and y are as before, but the last of x and the first of y are joined. */
  ghost predicate Joined(links: map<Id, Link>, links': map<Id, Link>, prev: Option<Id>, x: seq<Id>, y: seq<Id>) {
    forall e :: (e in x || e in y) && e in links ==>
      && e in links'
      && links'[e].next == (if Some(e) == Back(None, x) then Front(y) else links[e].next)
      && links'[e].prev == (if Some(e) == Front(y) then Back(prev, x) else links[e].prev)
  }

  lemma {:induction false} Spliced(links: map<Id, Link>, links': map<Id, Link>, at: Option<Id>, prev: Option<Id>,
          x: seq<Id>, between: seq<Id>, y: seq<Id>)
    requires From(links, at, prev, x + between + y) && NoDup(x + between + y) && Joined(links, links', prev, x, y)
    ensures From(links', if x == [] then Front(y) else at, prev, x + y)
    decreases |x|
  {
    if x == [] {
      assert x + between + y == between + y && x + y == y;
      SplicedFront(links, links', at, prev, between, y);
    } else {
      var s, x' := x + between + y, x[1..];
      assert s[1..] == x' + between + y && s[0] == x[0] && (x + y)[1..] == x' + y;
      assert NoDup(x' + between + y) by { assert forall i :: 0 <= i < |s| - 1 ==> s[1..][i] == s[i + 1]; }
      JoinedRest(links, links', at, prev, x, between, y);
      Spliced(links, links', links[x[0]].next, at, x', between, y);
      assert links'[x[0]].prev == prev && (x' == [] ==> links'[x[0]].next == Front(y));
    }
  }

  lemma SplicedFront(links: map<Id, Link>, links': map<Id, Link>, at: Option<Id>, prev: Option<Id>, between: seq<Id>,
          y: seq<Id>)
    requires From(links, at, prev, between + y) && NoDup(between + y) && Joined(links, links', prev, [], y)
    ensures From(links', Front(y), prev, y)
  {
    FromTail(links, at, prev, between, y);
    if y != [] {
      var s, y' := between + y, y[1..];
      assert forall i :: 0 <= i < |y'| ==> y'[i] == s[|between| + 1 + i];
      assert y[0] == s[|between|];
      FromFrame(links, links', links[y[0]].next, Some(y[0]), y');
    }
  }

  lemma JoinedRest(links: map<Id, Link>, links': map<Id, Link>, at: Option<Id>, prev: Option<Id>, x: seq<Id>,
          between: seq<Id>, y: seq<Id>)
    requires x != [] && at == Some(x[0]) && x[0] in links && NoDup(x + between + y) && Joined(links, links', prev, x, y)
    ensures Joined(links, links', at, x[1..], y)
    ensures x[0] in links' && links'[x[0]].prev == links[x[0]].prev
    ensures links'[x[0]].next == if |x| == 1 then Front(y) else links[x[0]].next
  {
    var s, x' := x + between + y, x[1..];
    assert forall i :: 0 <= i < |x'| ==> x'[i] == s[i + 1];
    assert forall i :: 0 <= i < |y| ==> y[i] == s[|x| + |between| + i];
    assert s[0] == x[0] && x[0] !in x' && x[0] !in y;
    assert Back(at, x') == Back(prev, x);
    assert x' != [] ==> Back(None, x') == Back(None, x);
  }

  /** The batch is in the order of deadlines. */
  ghost predicate Sorted(events: map<Id, Event>, batch: seq<Id>) {
    && (forall i :: 0 <= i < |batch| ==> batch[i] in events)
    && (forall i, j :: 0 <= i < j < |batch| ==> events[batch[i]].deadline <= events[batch[j]].deadline)
  }

  ghost predicate Until(events: map<Id, Event>, batch: seq<Id>, now: nat) {
    forall id :: id in batch ==> Due(events, now, id)
  }

  lemma EmptySorted(events: map<Id, Event>, now: nat)
    ensures Sorted(events, []) && Until(events, [], now)
  {}

  /** What one slot adds to the batch is due last. */
  lemma InOrder(slots: seq<seq<Id>>, head: nat, now: nat, events0: map<Id, Event>, events: map<Id, Event>,
          batch: seq<Id>, more: seq<Id>, clock: nat)
    requires Wheel(slots, head, now, events) && DroppedOnce(events0, events, batch)
    requires forall id :: id in more <==> id in slots[head] && Due(events, clock, id)
    requires forall id :: id in more ==> id !in batch
    ensures clock <= now + WHEEL && Sorted(events0, batch) && Until(events0, batch, now) ==>
      Sorted(events0, batch + more) && Until(events0, batch + more, now + 1)
  {
    hide DroppedOnce, Wheel;
    forall id | id in more
      ensures Due(events0, clock, id) && (clock <= now + WHEEL ==> events0[id].deadline == now + 1)
    {
      StillThere(events0, events, batch, id);
      HeadSlot(slots, head, now, events, id);
    }
    var all := batch + more;
    if clock <= now + WHEEL && Sorted(events0, batch) && Until(events0, batch, now) {
      forall i | 0 <= i < |all| ensures all[i] in events0 {
        assert all[i] in batch || all[i] in more;
      }
      forall i, j | 0 <= i < j < |all|
        ensures all[i] in events0 && all[j] in events0 && events0[all[i]].deadline <= events0[all[j]].deadline
      {
        assert all[i] in batch || all[i] in more;
        assert all[j] in batch || all[j] in more;
        assert i < |batch| ==> all[i] in batch && Due(events0, now, all[i]);
      }
    }
  }

  lemma AfterDispatch(slots: seq<seq<Id>>, slots': seq<seq<Id>>, head: nat, now: nat, events: map<Id, Event>,
          events': map<Id, Event>, more: seq<Id>, clock: nat)
    requires Wheel(slots, head, now, events) && Wheel(slots', head, now, events')
    requires DroppedOnce(events, events', more) && clock > now
    requires forall id :: id in more <==> id in slots[head] && Due(events, clock, id)
    requires Less(slots, slots', more)
    ensures forall id :: id in slots'[head] ==> id in events' && events'[id].deadline > now + 1
  {
    forall id | id in slots'[head] ensures id in events' && events'[id].deadline > now + 1 {
      HeadSlot(slots', head, now, events', id);
      StillThere(events, events', more, id);
    }
  }

  lemma HeadFits(slots: seq<seq<Id>>, head: nat, events: map<Id, Event>)
    requires Loose(slots, head, events)
    ensures head < WHEEL == |slots| && NoDup(slots[head])
  {}

  lemma NoneDropped(events: map<Id, Event>)
    ensures DroppedOnce(events, events, [])
  {}

  lemma StillThere(old_: map<Id, Event>, events: map<Id, Event>, ids: seq<Id>, id: Id)
    requires DroppedOnce(old_, events, ids) && id !in ids && id in events
    ensures id in old_ && events[id] == old_[id]
  {
    assert After(old_, events, id, false);
  }

  lemma Filed(slots: seq<seq<Id>>, head: nat, now: nat, events: map<Id, Event>, s: nat, id: Id, e: Event)
    requires Loose(slots, head, events) && s < WHEEL && id !in events && e.refs > 0
    ensures var slots' := slots[s := [id] + slots[s]];
      && Loose(slots', head, events[id := e])
      && (Wheel(slots, head, now, events) ==>
           (Wheel(slots', head, now, events[id := e]) <==> Placed(head, now, events[id := e], s, id)))
      && forall x :: Pending(slots', x) <==> Pending(slots, x) || x == id
  {
    var slots', events' := slots[s := [id] + slots[s]], events[id := e];
    assert id in slots'[s];
    assert forall t, x :: 0 <= t < WHEEL ==> (x in slots'[t] <==> x in slots[t] || (t == s && x == id));
    if Wheel(slots, head, now, events) {
      forall t, x | 0 <= t < WHEEL && x in slots[t] ensures x != id && Placed(head, now, events', t, x) {
        assert Placed(head, now, events, t, x);
      }
    }
    forall x ensures Pending(slots', x) <==> Pending(slots, x) || x == id {
      if Pending(slots, x) {
        var t :| 0 <= t < |slots| && x in slots[t];
        assert x in slots'[t];
      }
    }
  }
}
