/** Kernel semaphores (sys/kern/semaphore.c) over the scheduler.  Every operation is one
    section under the semaphore's lock; the retry loop of Semaphore_Acquire is a sequence of
    attempts by the same thread. */
module Semaphores {
  import opened Common
  import K = Scheduling

  type Tid = K.Tid

  /** The semaphore, the threads it has woken that have not retried yet, and what it has done
      so far. */
  datatype Sema = Sema(count: nat, waiters: seq<Tid>, woken: set<Tid>, initial: nat, releases: nat, acquires: nat)

  datatype System = System(sema: Sema, queues: K.Queues)

  datatype Event =
    | Attempt(t: Tid)      // one round of Semaphore_Acquire
    | Release
    | TryAcquire
    | Other(step: K.Step)    // the scheduler and the rest of the kernel

  /** Tokens are conserved, and while threads wait every token left is promised to a woken
      thread. */
  ghost predicate SemaInv(s: Sema) {
    && s.count + s.acquires == s.initial + s.releases
    && NoDup(s.waiters) && (forall t :: t in s.waiters ==> t !in s.woken)
    && (s.waiters != [] ==> s.count <= |s.woken|)
  }

  /** Waiters wait; the woken threads are runnable or running. */
  ghost predicate Inv(y: System) {
    && SemaInv(y.sema) && K.Inv(y.queues)
    && (forall t :: t in y.sema.waiters ==> K.StateOf(y.queues, t) == K.Waiting)
    && (forall t :: t in y.sema.woken ==> Ready(y.queues, t))
  }

  predicate Ready(q: K.Queues, t: Tid) {
    K.StateOf(q, t) == K.Runnable || K.StateOf(q, t) == K.Running
  }

  /** An attempt is made by a running thread.  The rest of the kernel neither wakes this
      semaphore's waiters nor puts its woken threads, which are inside Semaphore_Acquire,
      to sleep or to death. */
  ghost predicate Legal(y: System, e: Event) {
    match e
    case Attempt(t) => K.StateOf(y.queues, t) == K.Running
    case Release => true
    case TryAcquire => true
    case Other(step) =>
      && K.Legal(y.queues, step)
      && (step.Schedule? || (step.t !in y.sema.waiters && step.t !in y.sema.woken))
  }

  ghost function Apply(y: System, e: Event): System
    requires Inv(y) && Legal(y, e)
  {
    var s, q := y.sema, y.queues;
    match e
    case Attempt(t) =>
      if s.count > 0 then System(Taken(s).(woken := s.woken - {t}), q)
      else System(s.(waiters := s.waiters + [t], woken := s.woken - {t}), K.Apply(q, K.MakeWaiting(t)))
    case Release =>
      var r := s.(count := s.count + 1, releases := s.releases + 1);
      if s.waiters == [] then System(r, q)
      else System(r.(waiters := s.waiters[1..], woken := s.woken + {s.waiters[0]}),
        K.Apply(q, K.MakeRunnable(s.waiters[0])))
    case TryAcquire =>
      if s.count > 0 then System(Taken(s), q) else y
    case Other(step) => System(s, K.Apply(q, step))
  }

  function Taken(s: Sema): Sema
    requires s.count > 0
  {
    s.(count := s.count - 1, acquires := s.acquires + 1)
  }

  // ---------------------------------------------------------------- the invariant

  lemma StepInv(y: System, e: Event)
    requires Inv(y) && Legal(y, e)
    ensures Inv(Apply(y, e))
  {
    match e
    case Attempt(t) => AttemptInv(y, t);
    case Release => ReleaseInv(y);
    case TryAcquire =>
    case Other(step) => OtherInv(y, step);
  }

  lemma AttemptInv(y: System, t: Tid)
    requires Inv(y) && K.StateOf(y.queues, t) == K.Running
    ensures Inv(Apply(y, Attempt(t)))
  {
    var s := y.sema;
    assert t !in s.waiters;
    OneLess(s.woken, t);
    if s.count == 0 {
      K.StepInv(y.queues, K.MakeWaiting(t));
      Waits(y.queues, t);
    }
    hide K.Inv, K.Apply;
  }

  lemma OneLess(s: set<Tid>, t: Tid)
    ensures |s - {t}| >= |s| - 1 && t !in s - {t}
  {
    assert t in s ==> s == (s - {t}) + {t};
    assert t !in s ==> s - {t} == s;
  }

  /** Putting a thread to sleep changes its own state only. */
  lemma Waits(q: K.Queues, t: Tid)
    requires K.StateOf(q, t) == K.Running
    ensures var r := K.Apply(q, K.MakeWaiting(t));
      K.StateOf(r, t) == K.Waiting && forall u :: u != t ==> K.StateOf(r, u) == K.StateOf(q, u)
  {}

  lemma ReleaseInv(y: System)
    requires Inv(y)
    ensures Inv(Apply(y, Release))
  {
    var s := y.sema;
    if s.waiters != [] {
      var t := s.waiters[0];
      K.StepInv(y.queues, K.MakeRunnable(t));
      assert |s.woken + {t}| == |s.woken| + 1;
      assert forall u :: u in s.waiters[1..] ==> u in s.waiters && u != t;
    }
  }

  lemma OtherInv(y: System, step: K.Step)
    requires Inv(y) && Legal(y, Other(step))
    ensures Inv(Apply(y, Other(step)))
  {
    hide K.Inv;
    K.StepInv(y.queues, step);
    var q := K.Apply(y.queues, step);
    if step.Schedule? {
      ScheduleStates(y.queues, step.cpu);
    }
  }

  /** The scheduler wakes and blocks nobody. */
  lemma ScheduleStates(q: K.Queues, cpu: nat)
    requires K.Inv(q) && K.Legal(q, K.Schedule(cpu))
    ensures forall t :: K.StateOf(K.Apply(q, K.Schedule(cpu)), t) == K.Waiting <==> K.StateOf(q, t) == K.Waiting
    ensures forall t :: Ready(K.Apply(q, K.Schedule(cpu)), t) <==> Ready(q, t)
  {
    if q.runnable != [] {
      assert K.StateOf(q, q.runnable[0]) == K.Runnable;
    }
  }

  // ---------------------------------------------------------------- runs

  ghost predicate LegalRun(y: System, run: seq<Event>)
    requires Inv(y)
    decreases |run|
  {
    run == [] || (Legal(y, run[0]) && (StepInv(y, run[0]); LegalRun(Apply(y, run[0]), run[1..])))
  }

  ghost function After(y: System, run: seq<Event>): (r: System)
    requires Inv(y) && LegalRun(y, run)
    ensures Inv(r) && r.sema.initial == y.sema.initial
    decreases |run|
  {
    if run == [] then y else StepInv(y, run[0]); After(Apply(y, run[0]), run[1..])
  }

  /** In every run from a fresh semaphore: tokens are conserved, and no wakeup is lost.  When
      threads wait although tokens are left, at least as many woken threads are on their way
      to them; each is running or at a place of the run queue from which the scheduler
      reaches it. */
  lemma NoLostWakeup(initial: nat, q: K.Queues, run: seq<Event>)
    requires K.Inv(q)
    requires Inv(System(Sema(initial, [], {}, initial, 0, 0), q))
    requires LegalRun(System(Sema(initial, [], {}, initial, 0, 0), q), run)
    ensures var r := After(System(Sema(initial, [], {}, initial, 0, 0), q), run);
      && r.sema.count == initial + r.sema.releases - r.sema.acquires
      && (r.sema.waiters != [] ==> |r.sema.woken| >= r.sema.count)
      && forall t :: t in r.sema.woken ==> K.StateOf(r.queues, t) == K.Running || t in r.queues.runnable
  {
    var r := After(System(Sema(initial, [], {}, initial, 0, 0), q), run);
    forall t | t in r.sema.woken ensures K.StateOf(r.queues, t) == K.Running || t in r.queues.runnable {
      assert Ready(r.queues, t);
    }
  }

  /** The oldest waiter is woken first, and by a single release. */
  lemma {:induction false} FifoWakeups(y: System, n: nat)
    requires Inv(y) && n <= |y.sema.waiters| && LegalRun(y, Releases(n))
    ensures var r := After(y, Releases(n)).sema;
      && r.waiters == y.sema.waiters[n..] && r.woken == y.sema.woken + (set t | t in y.sema.waiters[..n])
      && r.count == y.sema.count + n
    decreases n
  {
    hide K.Inv, K.Apply, NoDup, Inv;
    if n == 0 {
      assert y.sema.woken + (set t | t in y.sema.waiters[..0]) == y.sema.woken;
    } else {
      StepInv(y, Release);
      var y' := Apply(y, Release);
      assert Releases(n)[1..] == Releases(n - 1);
      FifoWakeups(y', n - 1);
      var w := y.sema.waiters;
      assert w[..n] == [w[0]] + w[1..][..n - 1];
    }
  }

  function Releases(n: nat): seq<Event> {
    seq(n, _ => Release)
  }

  // ---------------------------------------------------------------- the code

  class Semaphore {
    var count: nat
    var waiters: seq<Tid>
    const sched: K.Sched
    ghost var woken: set<Tid>
    ghost var initial: nat
    ghost var releases: nat
    ghost var acquires: nat

    ghost function S(): System
      reads this, sched
    {
      System(Sema(count, waiters, woken, initial, releases, acquires), sched.Q())
    }

    constructor (count: nat, sched: K.Sched)
      requires K.Inv(sched.Q())
      ensures this.sched == sched && S() == System(Sema(count, [], {}, count, 0, 0), sched.Q()) && Inv(S())
    {
      this.count, waiters, this.sched := count, [], sched;
      woken, initial, releases, acquires := {}, count, 0, 0;
    }

    /** One round of the loop of Semaphore_Acquire by thread cur. */
    method AcquireOnce(cur: Tid) returns (done: bool)
      requires Inv(S()) && Legal(S(), Attempt(cur))
      modifies this, sched
      ensures S() == old(Apply(S(), Attempt(cur))) && Inv(S())
      ensures done == (old(count) > 0)
    {
      hide K.Inv, K.Apply, NoDup;
      StepInv(S(), Attempt(cur));
      woken := woken - {cur};
      if count > 0 {
        count := count - 1;
        acquires := acquires + 1;
        return true;
      }
      waiters := waiters + [cur];
      sched.SetWaiting(cur);
      return false;
    }

    method Signal()
      requires Inv(S())
      modifies this, sched
      ensures S() == old(Apply(S(), Release)) && Inv(S())
    {
      hide K.Inv, K.Apply, NoDup;
      StepInv(S(), Release);
      count := count + 1;
      releases := releases + 1;
      if waiters != [] {
        var thr := waiters[0];
        waiters := waiters[1..];
        woken := woken + {thr};
        sched.SetRunnable(thr);
      }
    }

    method Try() returns (got: bool)
      requires Inv(S())
      modifies this
      ensures S() == old(Apply(S(), TryAcquire)) && Inv(S())
      ensures got == (old(count) > 0)
    {
      StepInv(S(), TryAcquire);
      if count > 0 {
        count := count - 1;
        acquires := acquires + 1;
        return true;
      }
      return false;
    }
  }
}
