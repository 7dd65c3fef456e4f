/** Condition variables of the C library (lib/libc/posix/pthread.c): two ticket counters.
    Every operation is one section under the variable's own lock; a waiter then polls until
    its ticket is below exit. */
module CondVars {
  import opened Common

  type Ticket = nat
  datatype Cond = Cond(enter: nat, exit: nat)
  datatype Op = Wait | Signal | Broadcast

  function Apply(c: Cond, op: Op): Cond {
    match op
    case Wait => c.(enter := c.enter + 1)
    case Signal => c.(exit := c.exit + 1)
    case Broadcast => c.(exit := c.enter)
  }

  function After(c: Cond, run: seq<Op>): Cond
    decreases |run|
  {
    if run == [] then c else After(Apply(c, run[0]), run[1..])
  }

  predicate Issued(c: Cond, t: Ticket) {
    t < c.enter
  }

  /** The poll of pthread_cond_wait succeeds. */
  predicate Released(c: Cond, t: Ticket) {
    t < c.exit
  }

  // ---------------------------------------------------------------- tickets

  /** Broadcast may lower exit, yet a waiter once released stays released whatever follows,
      so it passes whenever it polls. */
  lemma {:induction false} StaysReleased(c: Cond, t: Ticket, run: seq<Op>)
    requires Issued(c, t) && Released(c, t)
    ensures Issued(After(c, run), t) && Released(After(c, run), t)
    decreases |run|
  {
    if run != [] {
      StaysReleased(Apply(c, run[0]), t, run[1..]);
    }
  }

  /** Tickets not yet issued can be released and taken back: only for those does the order of
      a broadcast and a wait matter. */
  lemma LoweredExit(t: Ticket)
    ensures var c := Cond(t, t + 1); !Issued(c, t) && Released(c, t) && !Released(Apply(c, Broadcast), t)
  {}

  // ---------------------------------------------------------------- a queue of waiters

  /** The waiters that are blocked, oldest first, the signals saved up for waiters to come,
      and the next ticket. */
  datatype Waiters = Waiters(queue: seq<Ticket>, saved: nat, next: Ticket)

  function Step(w: Waiters, op: Op): Waiters {
    match op
    case Wait =>
      if w.saved > 0 then Waiters(w.queue, w.saved - 1, w.next + 1) else Waiters(w.queue + [w.next], 0, w.next + 1)
    case Signal =>
      if w.queue != [] then w.(queue := w.queue[1..]) else w.(saved := w.saved + 1)
    case Broadcast => Waiters([], 0, w.next)
  }

  function Steps(w: Waiters, run: seq<Op>): Waiters
    decreases |run|
  {
    if run == [] then w else Steps(Step(w, run[0]), run[1..])
  }

  function Range(a: nat, b: nat): (s: seq<nat>)
    ensures |s| == if a < b then b - a else 0
    ensures forall i :: 0 <= i < |s| ==> s[i] == a + i
    ensures forall t :: t in s <==> a <= t < b
    decreases b - a
  {
    if a >= b then [] else [a] + Range(a + 1, b)
  }

  function Abs(c: Cond): (w: Waiters)
    ensures forall t :: t in w.queue <==> Issued(c, t) && !Released(c, t)
  {
    Waiters(Range(c.exit, c.enter), if c.exit > c.enter then c.exit - c.enter else 0, c.enter)
  }

  lemma Refines(c: Cond, op: Op)
    ensures Abs(Apply(c, op)) == Step(Abs(c), op)
  {
    hide Range;
    RangeEnds(c.exit, c.enter);
  }

  lemma {:induction false} RangeEnds(a: nat, b: nat)
    ensures a <= b ==> Range(a, b + 1) == Range(a, b) + [b]
    ensures a < b ==> Range(a, b)[1..] == Range(a + 1, b)
    ensures a >= b ==> Range(a, b) == []
  {}

  /** On every run the two counters are the queue of waiters: a signal releases exactly the
      oldest blocked waiter, a broadcast all of them, and a signal without waiters is saved
      for the next one. */
  lemma {:induction false} RefinesRun(c: Cond, run: seq<Op>)
    ensures Abs(After(c, run)) == Steps(Abs(c), run)
    decreases |run|
  {
    if run != [] {
      Refines(c, run[0]);
      RefinesRun(Apply(c, run[0]), run[1..]);
    }
  }

  // ---------------------------------------------------------------- against a strict condition variable

  /** A condition variable without spurious wakeups: a signal without waiters has no effect. */
  function Strict(queue: seq<Ticket>, next: Ticket, op: Op): seq<Ticket> {
    match op
    case Wait => queue + [next]
    case Signal => if queue != [] then queue[1..] else queue
    case Broadcast => []
  }

  function StrictAfter(queue: seq<Ticket>, next: Ticket, run: seq<Op>): seq<Ticket>
    decreases |run|
  {
    if run == [] then queue
    else StrictAfter(Strict(queue, next, run[0]), if run[0].Wait? then next + 1 else next, run[1..])
  }

  /** The same threads are blocked after every step of the run. */
  predicate Agree(c: Cond, queue: seq<Ticket>, run: seq<Op>)
    decreases |run|
  {
    Abs(c).queue == queue && (run == [] || Agree(Apply(c, run[0]), Strict(queue, c.enter, run[0]), run[1..]))
  }

  /** No thread starts to wait while a signal is saved. */
  predicate NoSavedWait(c: Cond, run: seq<Op>)
    decreases |run|
  {
    run == [] || ((run[0].Wait? ==> c.exit <= c.enter) && NoSavedWait(Apply(c, run[0]), run[1..]))
  }

  /** The counters behave as the strict variable exactly on the runs in which no wait consumes
      a saved signal. */
  lemma {:induction false} StrictIff(c: Cond, run: seq<Op>)
    ensures Agree(c, Abs(c).queue, run) <==> NoSavedWait(c, run)
    decreases |run|
  {
    if run != [] {
      var op := run[0];
      Refines(c, op);
      StrictIff(Apply(c, op), run[1..]);
      if op.Wait? && c.exit > c.enter {
        assert |Strict(Abs(c).queue, c.enter, Wait)| == |Abs(Apply(c, Wait)).queue| + 1;
      }
    }
  }

  /** On every other run a saved signal amounts to a spurious wakeup, which POSIX allows:
      whoever is blocked is blocked in the strict variable, too. */
  lemma NeverLate(run: seq<Op>, t: Ticket)
    requires t in Abs(After(Cond(0, 0), run)).queue
    ensures t in StrictAfter([], 0, run)
  {
    var _ := StrictBehind(Cond(0, 0), 0, run);
  }

  lemma {:induction false} StrictBehind(c: Cond, x: nat, run: seq<Op>) returns (y: nat)
    requires x <= c.exit && x <= c.enter
    ensures y <= After(c, run).exit && StrictAfter(Range(x, c.enter), c.enter, run) == Range(y, After(c, run).enter)
    decreases |run|
  {
    if run == [] {
      y := x;
    } else {
      hide Range;
      RangeEnds(x, c.enter);
      RangeEnds(c.enter, c.enter);
      var x' := match run[0]
        case Wait => x
        case Signal => if x < c.enter then x + 1 else x
        case Broadcast => c.enter;
      y := StrictBehind(Apply(c, run[0]), x', run[1..]);
    }
  }

  /** The shortest run that differs: a wait after a lone signal does not block. */
  lemma SavedSignal()
    ensures Abs(After(Cond(0, 0), [Signal, Wait])).queue == [] && StrictAfter([], 0, [Signal, Wait]) == [0]
    ensures !NoSavedWait(Cond(0, 0), [Signal, Wait])
  {
    assert [Signal, Wait][1..] == [Wait] && [Wait][1..] == [];
    assert After(Cond(0, 1), [Wait]) == After(Cond(1, 1), []);
    assert StrictAfter([], 0, [Wait]) == StrictAfter([0], 1, []);
    assert !NoSavedWait(Cond(0, 1), [Wait]);
  }

  // ---------------------------------------------------------------- the code

  class CondVar {
    var enter: nat
    var exit: nat

    function C(): Cond
      reads this
    {
      Cond(enter, exit)
    }

    constructor ()
      ensures C() == Cond(0, 0) && Abs(C()) == Waiters([], 0, 0)
    {
      enter, exit := 0, 0;
    }

    /** pthread_cond_wait up to its loop: the new ticket blocks unless a signal is saved. */
    method TakeTicket() returns (level: Ticket)
      modifies this
      ensures C() == old(Apply(C(), Wait)) && Abs(C()) == old(Step(Abs(C()), Wait))
      ensures level == old(Abs(C())).next && (Released(C(), level) <==> old(Abs(C())).saved > 0)
    {
      Refines(C(), Wait);
      level := enter;
      enter := enter + 1;
    }

    /** The condition of the loop of pthread_cond_wait. */
    method Poll(level: Ticket) returns (pass: bool)
      requires Issued(C(), level)
      ensures pass <==> level !in Abs(C()).queue
    {
      pass := !(level >= exit);
    }

    method SignalOne()
      modifies this
      ensures C() == old(Apply(C(), Signal)) && Abs(C()) == old(Step(Abs(C()), Signal))
    {
      Refines(C(), Signal);
      exit := exit + 1;
    }

    method SignalAll()
      modifies this
      ensures C() == old(Apply(C(), Broadcast)) && Abs(C()) == old(Step(Abs(C()), Broadcast))
    {
      Refines(C(), Broadcast);
      exit := enter;
    }
  }
}
