/** The scheduler queues (sys/kern/sched.c).  Every operation is one section under schedLock. */
module Scheduling {
  import opened Common

  type Tid = nat
  datatype RunState = Null | Runnable | Running | Waiting | Zombie

  /** Thread states, the two queues, and the current thread of every CPU. */
  datatype Queues = Queues(states: map<Tid, RunState>, runnable: seq<Tid>, waiting: seq<Tid>, current: seq<Tid>)

  datatype Step = MakeRunnable(t: Tid) | MakeWaiting(t: Tid) | MakeZombie(t: Tid) | Schedule(cpu: nat)

  function StateOf(q: Queues, t: Tid): RunState {
    if t in q.states then q.states[t] else Null
  }

  /** RUNNABLE is being in the run queue once, WAITING is being in the wait queue once, and a
      RUNNING thread is some CPU's current thread. */
  ghost predicate Inv(q: Queues) {
    && NoDup(q.runnable) && NoDup(q.waiting)
    && (forall t :: StateOf(q, t) == Runnable <==> t in q.runnable)
    && (forall t :: StateOf(q, t) == Waiting <==> t in q.waiting)
    && (forall t :: StateOf(q, t) == Running ==> t in q.current)
  }

  /** What a caller owes: a thread is not queued twice, only a running thread waits (asserted)
      or dies, and an idle CPU has a running thread to go back to (asserted). */
  predicate Legal(q: Queues, s: Step) {
    match s
    case MakeRunnable(t) => StateOf(q, t) != Runnable
    case MakeWaiting(t) => StateOf(q, t) == Running
    case MakeZombie(t) => StateOf(q, t) == Running
    case Schedule(cpu) => cpu < |q.current| && (q.runnable == [] ==> StateOf(q, q.current[cpu]) == Running)
  }

  function Apply(q: Queues, s: Step): (r: Queues)
    requires Legal(q, s)
    ensures |r.current| == |q.current|
  {
    match s
    case MakeRunnable(t) => Queues(q.states[t := Runnable], q.runnable + [t], Without(q.waiting, t), q.current)
    case MakeWaiting(t) => q.(states := q.states[t := Waiting], waiting := q.waiting + [t])
    case MakeZombie(t) => q.(states := q.states[t := Zombie])
    case Schedule(cpu) => if q.runnable == [] then q else Dispatch(q, cpu)
  }

  /** The first runnable thread replaces the CPU's current one, which goes to the tail if it
      was running.  The two can be the same thread. */
  function Dispatch(q: Queues, cpu: nat): (r: Queues)
    requires cpu < |q.current| && q.runnable != []
    ensures |r.current| == |q.current| && r.current[cpu] == q.runnable[0]
  {
    var prev := q.current[cpu];
    var r := Take(q, cpu);
    if StateOf(r, prev) == Running then r.(states := r.states[prev := Runnable], runnable := r.runnable + [prev]) else r
  }

  function Take(q: Queues, cpu: nat): (r: Queues)
    requires cpu < |q.current| && q.runnable != []
  {
    var next := q.runnable[0];
    Queues(q.states[next := Running], q.runnable[1..], q.waiting, q.current[cpu := next])
  }

  // ---------------------------------------------------------------- the invariant

  lemma StepInv(q: Queues, s: Step)
    requires Inv(q) && Legal(q, s)
    ensures Inv(Apply(q, s))
  {
    match s
    case MakeRunnable(t) => WithoutFacts(q.waiting, t);
    case MakeWaiting(t) =>
    case MakeZombie(t) =>
    case Schedule(cpu) =>
      if q.runnable != [] {
        DispatchInv(q, cpu);
      }
  }

  ghost predicate Covered(q: Queues, but: Tid) {
    forall t :: StateOf(q, t) == Running && t != but ==> t in q.current
  }

  ghost predicate Queued(q: Queues) {
    && NoDup(q.runnable) && NoDup(q.waiting)
    && (forall t :: StateOf(q, t) == Runnable <==> t in q.runnable)
    && (forall t :: StateOf(q, t) == Waiting <==> t in q.waiting)
  }

  lemma DispatchInv(q: Queues, cpu: nat)
    requires Inv(q) && cpu < |q.current| && q.runnable != []
    ensures Inv(Dispatch(q, cpu))
  {
    hide NoDup, Take;
    TakeQueued(q, cpu);
    TakeCovered(q, cpu);
    var r, prev := Take(q, cpu), q.current[cpu];
    if StateOf(r, prev) == Running {
      NoDupAppend(r.runnable, prev);
    }
  }

  lemma NoDupAppend<T>(s: seq<T>, x: T)
    requires NoDup(s) && x !in s
    ensures NoDup(s + [x])
  {}

  lemma TakeQueued(q: Queues, cpu: nat)
    requires Inv(q) && cpu < |q.current| && q.runnable != []
    ensures Queued(Take(q, cpu))
  {
    var next, rest := q.runnable[0], q.runnable[1..];
    assert forall t :: t in q.runnable <==> t == next || t in rest;
    assert next !in rest;
  }

  lemma TakeCovered(q: Queues, cpu: nat)
    requires Inv(q) && cpu < |q.current| && q.runnable != []
    ensures Covered(Take(q, cpu), q.current[cpu])
  {
    hide NoDup;
    var r, next := Take(q, cpu), q.runnable[0];
    forall t | StateOf(r, t) == Running && t != q.current[cpu] ensures t in r.current {
      if t == next {
        assert r.current[cpu] == t;
      } else {
        assert t in q.current by { assert StateOf(q, t) == Running; }
        var c :| 0 <= c < |q.current| && q.current[c] == t;
        assert r.current[c] == t;
      }
    }
  }

  /** Queueing a thread that is runnable already is exactly what breaks the invariant. */
  lemma RunnableTwice(q: Queues, t: Tid)
    requires Inv(q)
    ensures Inv(Queues(q.states[t := Runnable], q.runnable + [t], Without(q.waiting, t), q.current)) <==>
      StateOf(q, t) != Runnable
  {
    var r := Queues(q.states[t := Runnable], q.runnable + [t], Without(q.waiting, t), q.current);
    if StateOf(q, t) == Runnable {
      var i :| 0 <= i < |q.runnable| && q.runnable[i] == t;
      assert r.runnable[i] == r.runnable[|q.runnable|];
    } else {
      StepInv(q, MakeRunnable(t));
    }
  }

  // ---------------------------------------------------------------- runs

  ghost predicate LegalRun(q: Queues, run: seq<Step>)
    decreases |run|
  {
    run == [] || (Legal(q, run[0]) && LegalRun(Apply(q, run[0]), run[1..]))
  }

  ghost function After(q: Queues, run: seq<Step>): (r: Queues)
    requires LegalRun(q, run)
    ensures |r.current| == |q.current|
    decreases |run|
  {
    if run == [] then q else After(Apply(q, run[0]), run[1..])
  }

  lemma {:induction false} RunInv(q: Queues, run: seq<Step>)
    requires Inv(q) && LegalRun(q, run)
    ensures Inv(After(q, run))
    decreases |run|
  {
    if run != [] {
      StepInv(q, run[0]);
      RunInv(Apply(q, run[0]), run[1..]);
    }
  }

  /** The threads that the scheduler calls of a run switch to, in order. */
  ghost function Picks(q: Queues, run: seq<Step>): seq<Tid>
    requires LegalRun(q, run)
    decreases |run|
  {
    if run == [] then []
    else
      var later := Picks(Apply(q, run[0]), run[1..]);
      if run[0].Schedule? && q.runnable != [] then [q.runnable[0]] + later else later
  }

  /** Round robin: whatever happens in between, the next scheduler calls pick the threads of
      the run queue in order.  So the thread at position k is dispatched by exactly the
      (k+1)-th call. */
  lemma {:induction false} QueueOrder(q: Queues, run: seq<Step>, k: nat)
    requires LegalRun(q, run) && k < |q.runnable| && k < |Picks(q, run)|
    ensures Picks(q, run)[k] == q.runnable[k]
    decreases |run|
  {
    if run != [] {
      var r := Apply(q, run[0]);
      if !run[0].Schedule? {
        QueueOrder(r, run[1..], k);
      } else if k > 0 {
        QueueOrder(r, run[1..], k - 1);
      }
    }
  }

  /** Every scheduler call up to the k-th finds the queue non-empty, so it is a pick. */
  lemma {:induction false} PicksCount(q: Queues, run: seq<Step>)
    requires LegalRun(q, run)
    ensures |Picks(q, run)| <= Calls(run) && (Calls(run) <= |q.runnable| ==> |Picks(q, run)| == Calls(run))
    decreases |run|
  {
    if run != [] {
      PicksCount(Apply(q, run[0]), run[1..]);
    }
  }

  function Calls(run: seq<Step>): nat {
    if run == [] then 0 else (if run[0].Schedule? then 1 else 0) + Calls(run[1..])
  }

  /** Bounded wait, on the state: the (k+1)-th scheduler call of a run makes the thread at
      position k the current thread of its CPU, and no earlier call does. */
  lemma BoundedWait(q: Queues, run: seq<Step>, cpu: nat, k: nat)
    requires Inv(q) && LegalRun(q, run) && k < |q.runnable| && Calls(run) == k && Legal(After(q, run), Schedule(cpu))
    ensures Apply(After(q, run), Schedule(cpu)).current[cpu] == q.runnable[k]
    ensures q.runnable[k] !in Picks(q, run)
  {
    StillQueued(q, run, k);
    PicksCount(q, run);
    forall j | 0 <= j < |Picks(q, run)| ensures Picks(q, run)[j] != q.runnable[k] {
      QueueOrder(q, run, j);
    }
  }

  lemma {:induction false} StillQueued(q: Queues, run: seq<Step>, k: nat)
    requires LegalRun(q, run) && Calls(run) <= k < |q.runnable|
    ensures var r := After(q, run).runnable; k - Calls(run) < |r| && r[k - Calls(run)] == q.runnable[k]
    decreases |run|
  {
    if run != [] {
      StillQueued(Apply(q, run[0]), run[1..], if run[0].Schedule? then k - 1 else k);
    }
  }

  /** SetWaiting and the scheduler call after it are two steps: a thread woken in between can
      be dispatched by another CPU while it is still current on its own. */
  lemma CurrentTwice(q: Queues, c: nat, d: nat)
    requires Inv(q) && c < |q.current| && d < |q.current| && c != d && q.runnable == []
    requires StateOf(q, q.current[c]) == Running
    ensures var t := q.current[c]; var run := [MakeWaiting(t), MakeRunnable(t), Schedule(d)];
      LegalRun(q, run) && After(q, run).current[c] == After(q, run).current[d] == t
  {
    var t := q.current[c];
    var q1 := Apply(q, MakeWaiting(t));
    var q2 := Apply(q1, MakeRunnable(t));
    assert q2.runnable == [t] && Legal(q2, Schedule(d));
    var q3 := Apply(q2, Schedule(d));
    assert q3.current[c] == q3.current[d] == t;
    hide Apply;
    OneMore(q2, Schedule(d), []);
    OneMore(q1, MakeRunnable(t), [Schedule(d)]);
    OneMore(q, MakeWaiting(t), [MakeRunnable(t), Schedule(d)]);
  }

  lemma OneMore(q: Queues, s: Step, run: seq<Step>)
    requires Legal(q, s) && LegalRun(Apply(q, s), run)
    ensures LegalRun(q, [s] + run) && After(q, [s] + run) == After(Apply(q, s), run)
  {
    assert ([s] + run)[1..] == run;
  }

  // ---------------------------------------------------------------- the code

  class Sched {
    var states: map<Tid, RunState>
    var runnable: seq<Tid>
    var waiting: seq<Tid>
    var current: seq<Tid>

    function Q(): Queues
      reads this
    {
      Queues(states, runnable, waiting, current)
    }

    constructor (current: seq<Tid>)
      requires current != []
      ensures Inv(Q()) && this.current == current && runnable == [] && waiting == []
    {
      states, runnable, waiting := map t | t in current :: Running, [], [];
      this.current := current;
    }

    method SetRunnable(t: Tid)
      requires Inv(Q()) && Legal(Q(), MakeRunnable(t))
      modifies this
      ensures Q() == old(Apply(Q(), MakeRunnable(t))) && Inv(Q())
    {
      StepInv(Q(), MakeRunnable(t));
      if t in states && states[t] == Waiting {
        waiting := Without(waiting, t);
      } else {
        WithoutAbsent(waiting, t);
      }
      states := states[t := Runnable];
      runnable := runnable + [t];
    }

    method SetWaiting(t: Tid)
      requires Inv(Q()) && Legal(Q(), MakeWaiting(t))
      modifies this
      ensures Q() == old(Apply(Q(), MakeWaiting(t))) && Inv(Q())
    {
      StepInv(Q(), MakeWaiting(t));
      states := states[t := Waiting];
      waiting := waiting + [t];
    }

    method SetZombie(t: Tid)
      requires Inv(Q()) && Legal(Q(), MakeZombie(t))
      modifies this
      ensures Q() == old(Apply(Q(), MakeZombie(t))) && Inv(Q())
    {
      StepInv(Q(), MakeZombie(t));
      states := states[t := Zombie];
    }

    /** Sched_Scheduler on one CPU; the assertion on the next thread's state always holds. */
    method Scheduler(cpu: nat)
      requires Inv(Q()) && Legal(Q(), Schedule(cpu))
      modifies this
      ensures Q() == old(Apply(Q(), Schedule(cpu))) && Inv(Q())
    {
      StepInv(Q(), Schedule(cpu));
      if runnable == [] {
        return;
      }
      var next := runnable[0];
      assert StateOf(Q(), next) == Runnable;
      runnable := runnable[1..];
      var prev := current[cpu];
      current := current[cpu := next];
      states := states[next := Running];
      if prev in states && states[prev] == Running {
        states := states[prev := Runnable];
        runnable := runnable + [prev];
      }
    }
  }
}
