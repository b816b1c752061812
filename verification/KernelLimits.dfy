/**
 Where the kernel's steps stop being safe. An exiting task wakes its parent whenever the parent
 is BLOCKED with a matching wait target, wherever it is parked, and reads its parent again after
 having tested it. A wait frees a child that may still be on its CPU, and a reschedule may free a
 task that is still listed. Each failure has its exact condition and a run from boot to it.
 */
module KernelLimits {
  import opened Options
  import opened Sequences
  import opened Scheduler
  import opened Mutexes
  import opened Waiting
  import opened Sleepers
  import opened Reaping
  import opened KernelRuns

  // ---- the wake of a parent parked elsewhere ---------------------------------------------------------

  lemma BlockedParked(s: Sched, p: Task)
    requires Inv(s) && p in s.state && s.state[p] == Blocked
    ensures p in s.place
  {
    assert TaskOk(s, p);
  }

  /** A waiter woken out of a mutex is still linked in its queue. */
  lemma WakeBreaksMutex(place: map<Task, Place>, x: Locks, p: Task)
    requires LocksInv(place, x) && p in place && place[p].InMutex?
    ensures !LocksInv(place - {p}, x)
  {
    assert Locking(place, x, p);
    var m := x.inLock[p];
    assert MutexOk(place, x, m) && p in x.mutex[m].queue;
    assert !Waits(place - {p}, x, m, p);
    assert !MutexOk(place - {p}, x, m);
  }

  /** A sleeper woken out of turn is still linked in its sleep list. */
  lemma WakeBreaksSleep(s: Sched, z: map<Cpu, seq<Sleeper>>, p: Task)
    requires SleepInv(s, z) && p in s.place && s.place[p] == Asleep
    ensures !SleepInv(Wake(s, p), z)
  {
    assert Listed(s, z, p);
    var c := s.home[p];
    assert !SleepsOn(Wake(s, p), c, p);
    assert !ListOk(Wake(s, p), z[c], c);
  }

  /** Listing an exited task keeps the kernel consistent exactly when it wakes a waiter or nobody. */
  lemma PublishExact(k: Kernel, t: Task)
    requires KernelInv(k) && Enabled(k, Publish(t))
    ensures KernelInv(Apply(k, Publish(t))) <==> WakesWaiter(k, t)
  {
    hide KernelInv, Apply;
    if WakesWaiter(k, t) { StepKeeps(k, Publish(t)); } else { PublishBreaks(k, Publish(t)); }
  }

  lemma PublishBreaks(k: Kernel, e: Event)
    requires KernelInv(k) && Enabled(k, e) && e.Publish? && !Heeds(k, e)
    ensures !KernelInv(Apply(k, e))
  {
    hide Inv, LocksInv, FamilyInv, SleepInv, ReapInv;
    var p := k.f.parent[e.t];
    BlockedParked(k.s, p);
    if k.s.place[p].InMutex? { WakeBreaksMutex(k.s.place, k.x, p); } else { WakeBreaksSleep(k.s, k.z, p); }
  }

  // ---- freeing too early ----------------------------------------------------------------------------

  lemma OnSomeCpu(s: Sched, z: Task)
    requires Inv(s)
    ensures OnCpu(s, z) <==> exists c :: c in s.current && s.current[c] == z
  {
    forall c | c in s.current && s.current[c] == z ensures OnCpu(s, z) { Current(s, c); }
  }

  /** No CPU runs what t has claimed. */
  ghost predicate LeftAllCpus(k: Kernel, t: Task) {
    forall c :: t in k.r.reaping && c in k.s.current ==> k.s.current[c] != k.r.reaping[t]
  }

  /** A wait may free the child it claimed if and only if no CPU runs that child any more. */
  lemma FreeChildExact(k: Kernel, t: Task)
    requires KernelInv(k) && Enabled(k, FreeChild(t))
    ensures KernelInv(Apply(k, FreeChild(t))) <==> LeftAllCpus(k, t)
  {
    hide Inv, LocksInv, FamilyInv, SleepInv, ReapInv, OnCpu;
    OnSomeCpu(k.s, k.r.reaping[t]);
    FreeClaimedExact(k.s, k.f, k.r, t);
  }

  /** A reschedule may free what is in the reap slot if and only if that is not listed. */
  lemma DrainsExact(k: Kernel, e: Event)
    requires KernelInv(k) && Enabled(k, e) && (e.Resched? || e.Drain?)
    ensures KernelInv(Apply(k, e)) <==> (e.c in k.r.slot ==> k.r.slot[e.c] !in k.f.zombies)
  {
    hide Inv, LocksInv, FamilyInv, SleepInv, ReapInv, Schedule, Drained;
    if e.c in k.r.slot && k.r.slot[e.c] in k.f.zombies {
      var n := Apply(k, e);
      DrainBreaks(k.s, n.s, k.f, k.r, e.c, n.r);
    } else if e.Resched? {
      ReschedStep(k, e.c);
    } else {
      DrainStep(k, e.c);
    }
  }

  /** Of all steps from a consistent state, exactly those that do not heed break it. */
  lemma StepExact(k: Kernel, e: Event)
    requires KernelInv(k) && Enabled(k, e)
    ensures KernelInv(Apply(k, e)) <==> Heeds(k, e)
  {
    hide KernelInv, Apply;
    match e
    case Publish(t) => PublishExact(k, t);
    case FreeChild(t) =>
      FreeChildExact(k, t);
      Schedules(k);
      OnSomeCpu(k.s, k.r.reaping[t]);
    case Resched(c) => DrainsExact(k, e);
    case Drain(c) => DrainsExact(k, e);
    case _ => StepKeeps(k, e);
  }

  lemma Schedules(k: Kernel)
    requires KernelInv(k)
    ensures Inv(k.s)
  {}

  /** Every state the run passes through is consistent. */
  ghost predicate AllSafe(k: Kernel, es: seq<Event>)
    requires IsRun(k, es)
    decreases |es|
  {
    KernelInv(k) && (es != [] ==> AllSafe(Apply(k, es[0]), es[1..]))
  }

  lemma {:induction false} RunExact(k: Kernel, es: seq<Event>)
    requires KernelInv(k) && IsRun(k, es)
    ensures AllSafe(k, es) <==> Heedful(k, es)
    decreases |es|
  {
    hide KernelInv, Apply, Enabled, Heeds;
    if es != [] {
      StepExact(k, es[0]);
      if KernelInv(Apply(k, es[0])) { RunExact(Apply(k, es[0]), es[1..]); }
      else { assert !AllSafe(Apply(k, es[0]), es[1..]); }
    }
  }

  /** An exit that wakes its parent: the parent is READY and about to be linked. */
  lemma WokenByChild(k: Kernel, t: Task, p: Task)
    requires Enabled(k, Publish(t)) && p == k.f.parent[t] && ExitWakes(k.s, k.f, t)
    ensures var n := Apply(k, Publish(t));
      && n.s.home == k.s.home && n.s.current == k.s.current && n.s.rq == k.s.rq && n.x == k.x && n.z == k.z
      && p in n.s.transit && p in n.s.state && n.s.state[p] == Ready
      && n.f.exiting == k.f.exiting && n.f.publishing <= k.f.publishing
  {}

  lemma LinkedAtHome(k: Kernel, p: Task, c: Cpu)
    requires p in k.s.transit && p in k.s.home && k.s.home[p] == c && c in k.s.rq
    ensures Enabled(k, Link(p))
    ensures var n := Apply(k, Link(p));
      && n.s.home == k.s.home && n.s.current == k.s.current && n.s.state == k.s.state && n.x == k.x && n.z == k.z && n.f == k.f
      && c in n.s.rq && n.s.rq[c] == k.s.rq[c] + [p]
  {}

  /** A CPU whose task is woken before it has left picks that task again. */
  lemma PicksAgain(k: Kernel, p: Task, c: Cpu)
    requires c in k.s.current && c in k.s.rq && k.s.current[c] == p && k.s.rq[c] == [p] && p in k.s.state && k.s.state[p] == Ready
    requires p in k.s.home && k.s.home[p] == c && p !in k.f.exiting && p !in k.f.publishing
    ensures Enabled(k, Resched(c))
    ensures var n := Apply(k, Resched(c)); n.x == k.x && p in n.s.state && n.s.state[p] == Running
  {
    hide Drained, Filled;
  }

  lemma ReturnHolds(k: Kernel, p: Task, m: nat)
    requires p in k.s.state && k.s.state[p] == Running && p in k.x.inLock && k.x.inLock[p] == m
    ensures Enabled(k, LockReturn(p))
    ensures (m, p) in Apply(k, LockReturn(p)).x.holding && k.x.holding <= Apply(k, LockReturn(p)).x.holding
  {}

  /** p waits for mutex m, which o holds; its child t is about to list itself and wake it. */
  ghost predicate WakesLockWaiter(k: Kernel, t: Task, p: Task, c: Cpu, m: nat, o: Task) {
    && Enabled(k, Publish(t)) && p == k.f.parent[t] && ExitWakes(k.s, k.f, t)
    && p in k.s.place && k.s.place[p] == InMutex(m) && (m, o) in k.x.holding
    && p in k.s.home && c == k.s.home[p] && c in k.s.current && c in k.s.rq && k.s.current[c] == p && k.s.rq[c] == []
  }

  /** A mutex waiter woken by its child's exit runs on and returns from lock beside the owner. */
  lemma ExitWakeBreaksExclusion(k: Kernel, t: Task, p: Task, c: Cpu, m: nat, o: Task)
    requires KernelInv(k) && WakesLockWaiter(k, t, p, c, m, o)
    ensures var es := [Publish(t), Link(p), Resched(c), LockReturn(p)];
      IsRun(k, es) && p != o && (m, p) in Run(k, es).x.holding && (m, o) in Run(k, es).x.holding
  {
    hide KernelInv, Run, IsRun, Apply, Enabled, ExitWakes;
    WaiterFacts(k, p, m, o);
    WokenByChild(k, t, p);
    var k1 := Apply(k, Publish(t));
    LinkedAtHome(k1, p, c);
    var k2 := Apply(k1, Link(p));
    assert [] + [p] == [p];
    PicksAgain(k2, p, c);
    var k3 := Apply(k2, Resched(c));
    ReturnHolds(k3, p, m);
    FourSteps(k, [Publish(t), Link(p), Resched(c), LockReturn(p)], k1, k2, k3, Apply(k3, LockReturn(p)));
  }

  lemma FourSteps(k: Kernel, es: seq<Event>, k1: Kernel, k2: Kernel, k3: Kernel, k4: Kernel)
    requires |es| == 4 && Enabled(k, es[0]) && k1 == Apply(k, es[0]) && Enabled(k1, es[1]) && k2 == Apply(k1, es[1])
    requires Enabled(k2, es[2]) && k3 == Apply(k2, es[2]) && Enabled(k3, es[3]) && k4 == Apply(k3, es[3])
    ensures IsRun(k, es) && Run(k, es) == k4
  {
    hide Apply, Enabled;
    var e1, e2, e3 := es[1..], es[1..][1..], es[1..][1..][1..];
    assert e1[0] == es[1] && e2[0] == es[2] && e3[0] == es[3] && e3[1..] == [];
    assert IsRun(k4, []) && Run(k4, []) == k4;
    assert IsRun(k3, e3) && Run(k3, e3) == k4;
    assert IsRun(k2, e2) && Run(k2, e2) == k4;
    assert IsRun(k1, e1) && Run(k1, e1) == k4;
  }

  lemma WaiterFacts(k: Kernel, p: Task, m: nat, o: Task)
    requires KernelInv(k) && p in k.s.place && k.s.place[p] == InMutex(m) && (m, o) in k.x.holding
    ensures p in k.s.home && p in k.s.state && k.s.state[p] == Blocked && p !in k.f.exiting && p !in k.f.publishing
    ensures p != o && p in k.x.inLock && k.x.inLock[p] == m
  {
    ParkedKnown(k.s, p);
    assert !Dead(k.s, k.f, p);
    hide Inv, SleepInv, ReapInv;
    assert Locking(k.s.place, k.x, p) && Holder(k.x, m, o) && MutexOk(k.s.place, k.x, m);
  }

  /** p sleeps first in line on CPU c; its child t is about to list itself and wake it. */
  ghost predicate WakesSleeper(k: Kernel, t: Task, p: Task, c: Cpu, now: nat) {
    && Enabled(k, Publish(t)) && p == k.f.parent[t] && ExitWakes(k.s, k.f, t)
    && c in k.z && k.z[c] != [] && k.z[c][0].task == p && k.z[c][0].deadline <= now
    && p in k.s.home && k.s.home[p] == c && c in k.s.rq
  }

  /** A sleeper woken by its child's exit is woken once more by its deadline, and linked twice. */
  lemma ExitWakeLinksTwice(k: Kernel, t: Task, p: Task, c: Cpu, now: nat)
    requires WakesSleeper(k, t, p, c, now)
    ensures var es := [Publish(t), Link(p), WakeSleeper(c, now), Link(p)];
      IsRun(k, es) && c in Run(k, es).s.rq && Run(k, es).s.rq[c] == k.s.rq[c] + [p, p]
  {
    hide Run, IsRun, Apply, Enabled, ExitWakes;
    WokenByChild(k, t, p);
    var k1 := Apply(k, Publish(t));
    LinkedAtHome(k1, p, c);
    var k2 := Apply(k1, Link(p));
    DeadlinePasses(k2, p, c, now);
    var k3 := Apply(k2, WakeSleeper(c, now));
    LinkedAtHome(k3, p, c);
    assert (k.s.rq[c] + [p]) + [p] == k.s.rq[c] + [p, p];
    FourSteps(k, [Publish(t), Link(p), WakeSleeper(c, now), Link(p)], k1, k2, k3, Apply(k3, Link(p)));
  }

  lemma DeadlinePasses(k: Kernel, p: Task, c: Cpu, now: nat)
    requires c in k.z && k.z[c] != [] && k.z[c][0].task == p && k.z[c][0].deadline <= now
    ensures Enabled(k, WakeSleeper(c, now))
    ensures var n := Apply(k, WakeSleeper(c, now)); p in n.s.transit && n.s.home == k.s.home && n.s.rq == k.s.rq
  {}

  // ---- the parent that is gone ----------------------------------------------------------------------

  lemma PublishingKnown(k: Kernel, t: Task)
    requires KernelInv(k) && t in k.f.publishing
    ensures t in k.s.home && t in k.s.state && k.s.state[t] == Zombie && t !in k.f.exiting
  {
    hide Inv, LocksInv, SleepInv, ReapInv;
    assert Dead(k.s, k.f, t);
    assert t !in k.f.exiting;
    assert k.s.state.Keys == k.s.home.Keys by { KeysAgree(k.s); }
  }

  /** A child between the test of its parent and its listing loses the parent exactly by the parent's exit. */
  lemma ParentVanishesExact(k: Kernel, e: Event, t: Task)
    requires KernelInv(k) && Enabled(k, e) && t in k.f.publishing && t in k.f.parent
    ensures t !in Apply(k, e).f.parent <==> e.Exit? && e.t == k.f.parent[t]
  {
    hide KernelInv, Schedule, Spawn, Lock, Unlock, Enqueue, Inserted, FirstMatch, Park, Wake, Kill, Held, FreeClaimed, Drained, Filled;
    PublishingKnown(k, t);
  }

  /** Then it stays so for good: its next read of the parent has nothing to read. */
  lemma VanishedStaysStuck(k: Kernel, e: Event, t: Task)
    requires KernelInv(k) && Enabled(k, e) && t in k.f.publishing && t !in k.f.parent
    ensures !Enabled(k, Publish(t)) && t in Apply(k, e).f.publishing && t !in Apply(k, e).f.parent
  {
    hide KernelInv, Schedule, Spawn, Lock, Unlock, Enqueue, Inserted, FirstMatch, Park, Wake, Kill, Held, FreeClaimed, Drained, Filled;
    PublishingKnown(k, t);
  }

  // ---- runs from boot -------------------------------------------------------------------------------

  /** Tasks 1, 4 and 3 on CPUs 0, 1 and 2. */
  function Three(): Kernel {
    Boot(map[1 := 0, 4 := 1, 3 := 2], map[0 := 1, 1 := 4, 2 := 3], {0})
  }

  /** 1 has forked 2, which runs on CPU 1; nothing is locked, parked or dead, and CPU 0 has only 1. */
  ghost predicate ChildRuns(k: Kernel) {
    && 1 in k.s.state && 2 in k.s.state && 3 in k.s.state
    && k.s.state[1] == Running && k.s.state[2] == Running && k.s.state[3] == Running
    && 1 in k.s.home && k.s.home[1] == 0 && 0 in k.s.rq && k.s.rq[0] == [] && 0 in k.s.current && k.s.current[0] == 1
    && k.s.place == map[] && k.x.inLock == map[] && k.x.holding == {}
    && k.x.mutex == map[0 := Mutex(false, None, [])] && 0 in k.x.arrived && 0 in k.x.granted
    && 2 in k.s.home && k.s.home[2] == 1 && 1 in k.s.rq && k.s.rq[1] == [4] && 1 in k.s.current && k.s.current[1] == 2
    && 4 in k.s.state && k.s.state[4] == Ready && 4 in k.s.home && k.s.home[4] == 1
    && k.f.parent == map[2 := 1] && k.f.target == map[] && k.f.exiting == {} && k.f.publishing == {} && k.f.zombies == []
    && 0 in k.z && k.z[0] == [] && k.r == Reap(map[], map[], [])
  }

  function Start(): seq<Event> { [ForkChild(1, 2, 1), Resched(1)] }

  ghost predicate ChildQueued(k: Kernel) {
    && 1 in k.s.state && 2 in k.s.state && 3 in k.s.state && 4 in k.s.state
    && k.s.state[1] == Running && k.s.state[2] == Ready && k.s.state[3] == Running && k.s.state[4] == Running
    && 1 in k.s.home && k.s.home[1] == 0 && 0 in k.s.rq && k.s.rq[0] == [] && 0 in k.s.current && k.s.current[0] == 1
    && 1 in k.s.rq && k.s.rq[1] == [2] && 1 in k.s.current && k.s.current[1] == 4 && 4 in k.s.home && k.s.home[4] == 1
    && k.s.place == map[] && k.x.inLock == map[] && k.x.holding == {}
    && k.x.mutex == map[0 := Mutex(false, None, [])] && 0 in k.x.arrived && 0 in k.x.granted
    && 2 in k.s.home && k.s.home[2] == 1
    && k.f.parent == map[2 := 1] && k.f.target == map[] && k.f.exiting == {} && k.f.publishing == {} && k.f.zombies == []
    && 0 in k.z && k.z[0] == [] && k.r == Reap(map[], map[], [])
  }

  lemma ForkQueues()
    ensures Enabled(Three(), ForkChild(1, 2, 1)) && ChildQueued(Apply(Three(), ForkChild(1, 2, 1)))
  {}

  lemma ForkRuns(k: Kernel)
    requires ChildQueued(k)
    ensures Enabled(k, Resched(1)) && ChildRuns(Apply(k, Resched(1)))
  {}

  lemma ForkReached()
    ensures IsRun(Three(), Start()) && ChildRuns(Run(Three(), Start())) && Heedful(Three(), Start())
    ensures KernelInv(Run(Three(), Start()))
  {
    hide KernelInv, Apply, Enabled, ChildRuns, Three;
    ForkQueues();
    var k1 := Apply(Three(), ForkChild(1, 2, 1));
    ForkRuns(k1);
    var k2 := Apply(k1, Resched(1));
    var es := Start();
    assert es[1..] == [Resched(1)] && es[1..][1..] == [];
    assert IsRun(k2, []) && Run(k2, []) == k2;
    assert Heedful(k1, es[1..]) && Run(k1, es[1..]) == k2;
    ThreeSafe();
    EveryRunKeeps(Three(), es);
  }

  /** 3 locks, 1 waits; 2 exits and is about to list itself. */
  lemma ToMutexWaiter(k: Kernel)
    requires ChildRuns(k)
    ensures var es := [LockCall(3, 0), LockCall(1, 0), Exit(2, 7), TestParent(2)];
      IsRun(k, es) && WakesLockWaiter(Run(k, es), 2, 1, 0, 0, 3)
  {
    hide ChildRuns, ChildRunsOn, Apply, Enabled, WakesLockWaiter;
    OneLocks(k);
    var k1 := Apply(k, LockCall(3, 0));
    var k2 := Apply(k1, LockCall(1, 0));
    OneExits(k2);
    var k3 := Apply(k2, Exit(2, 7));
    var k4 := Apply(k3, TestParent(2));
    FourSteps(k, [LockCall(3, 0), LockCall(1, 0), Exit(2, 7), TestParent(2)], k1, k2, k3, k4);
  }

  /** 1 waits for the mutex 3 holds, while its child 2 runs. */
  ghost predicate ChildRunsOn(k: Kernel) {
    && 1 in k.s.state && k.s.state[1] == Blocked && 2 in k.s.state && k.s.state[2] == Running && 2 !in k.x.inLock
    && 1 in k.s.place && k.s.place[1] == InMutex(0) && (0, 3) in k.x.holding
    && 1 in k.s.home && k.s.home[1] == 0 && 0 in k.s.current && 0 in k.s.rq && k.s.current[0] == 1 && k.s.rq[0] == []
    && k.f.parent == map[2 := 1] && k.f.target == map[] && k.r.reaping == map[]
  }

  lemma OneLocks(k: Kernel)
    requires ChildRuns(k)
    ensures Enabled(k, LockCall(3, 0)) && Enabled(Apply(k, LockCall(3, 0)), LockCall(1, 0))
    ensures ChildRunsOn(Apply(Apply(k, LockCall(3, 0)), LockCall(1, 0)))
  {}

  lemma OneExits(k: Kernel)
    requires ChildRunsOn(k)
    ensures Enabled(k, Exit(2, 7)) && Enabled(Apply(k, Exit(2, 7)), TestParent(2))
    ensures WakesLockWaiter(Apply(Apply(k, Exit(2, 7)), TestParent(2)), 2, 1, 0, 0, 3)
  {}

  /** 1 sleeps; 2 exits and is about to list itself. */
  lemma ToSleeper(k: Kernel)
    requires ChildRuns(k)
    ensures var es := [Sleep(1, 5), Exit(2, 7), TestParent(2)];
      IsRun(k, es) && WakesSleeper(Run(k, es), 2, 1, 0, 5) && Run(k, es).s.rq[0] == []
  {
    var k1 := Apply(k, Sleep(1, 5));
    var k2 := Apply(k1, Exit(2, 7));
    var k3 := Apply(k2, TestParent(2));
    ThreeSteps(k, [Sleep(1, 5), Exit(2, 7), TestParent(2)], k1, k2, k3);
  }

  /** 2 exits and tests its parent; 1 exits. */
  lemma ToVanished(k: Kernel)
    requires ChildRuns(k)
    ensures var es := [Exit(2, 7), TestParent(2), Exit(1, 0)];
      IsRun(k, es) && 2 in Run(k, es).f.publishing && 2 !in Run(k, es).f.parent
  {
    var k1 := Apply(k, Exit(2, 7));
    var k2 := Apply(k1, TestParent(2));
    var k3 := Apply(k2, Exit(1, 0));
    ThreeSteps(k, [Exit(2, 7), TestParent(2), Exit(1, 0)], k1, k2, k3);
  }

  lemma ThreeSteps(k: Kernel, es: seq<Event>, k1: Kernel, k2: Kernel, k3: Kernel)
    requires |es| == 3 && Enabled(k, es[0]) && k1 == Apply(k, es[0]) && Enabled(k1, es[1]) && k2 == Apply(k1, es[1])
    requires Enabled(k2, es[2]) && k3 == Apply(k2, es[2])
    ensures IsRun(k, es) && Run(k, es) == k3
  {
    hide Apply, Enabled;
    var e1, e2 := es[1..], es[1..][1..];
    assert e1[0] == es[1] && e2[0] == es[2] && e2[1..] == [];
    assert IsRun(k3, []) && Run(k3, []) == k3;
    assert IsRun(k2, e2) && Run(k2, e2) == k3;
    assert IsRun(k1, e1) && Run(k1, e1) == k3;
  }

  lemma {:induction false} RunsJoin(k: Kernel, a: seq<Event>, b: seq<Event>)
    requires IsRun(k, a) && IsRun(Run(k, a), b)
    ensures IsRun(k, a + b) && Run(k, a + b) == Run(Run(k, a), b)
    decreases |a|
  {
    hide Apply, Enabled;
    if a == [] {
      assert a + b == b;
    } else {
      TailOfSum(a, b);
      RunsJoin(Apply(k, a[0]), a[1..], b);
    }
  }

  /** Steps that neither list, wake nor free anybody. */
  lemma {:induction false} PlainRun(k: Kernel, a: seq<Event>)
    requires KernelInv(k) && IsRun(k, a)
    requires forall i :: 0 <= i < |a| ==> !a[i].Publish? && !a[i].FreeChild? && !a[i].Resched? && !a[i].Drain?
    ensures Heedful(k, a) && KernelInv(Run(k, a))
    decreases |a|
  {
    hide KernelInv, Apply, Enabled;
    if a != [] {
      StepKeeps(k, a[0]);
      PlainRun(Apply(k, a[0]), a[1..]);
    }
  }

  lemma ThreeSafe()
    ensures KernelInv(Three())
  {
    hide KernelInv, Boot;
    BootSafe(map[1 := 0, 4 := 1, 3 := 2], map[0 := 1, 1 := 4, 2 := 3], {0});
  }

  /** From boot to two tasks holding one mutex. */
  lemma ExclusionLost()
    ensures var es := Start() + [LockCall(3, 0), LockCall(1, 0), Exit(2, 7), TestParent(2)]
                      + [Publish(2), Link(1), Resched(0), LockReturn(1)];
      IsRun(Three(), es) && (0, 1) in Run(Three(), es).x.holding && (0, 3) in Run(Three(), es).x.holding
  {
    hide KernelInv, Apply, Enabled, IsRun, Run, ChildRuns, Heedful, Three;
    var a, b := Start(), [LockCall(3, 0), LockCall(1, 0), Exit(2, 7), TestParent(2)];
    ForkReached();
    var k := Run(Three(), a);
    ToMutexWaiter(k);
    RunsJoin(Three(), a, b);
    PlainRun(k, b);
    var w := Run(Three(), a + b);
    ExitWakeBreaksExclusion(w, 2, 1, 0, 0, 3);
    RunsJoin(Three(), a + b, [Publish(2), Link(1), Resched(0), LockReturn(1)]);
  }

  /** From boot to a task linked twice in one run queue. */
  lemma TaskLinkedTwice()
    ensures var es := Start() + [Sleep(1, 5), Exit(2, 7), TestParent(2)] + [Publish(2), Link(1), WakeSleeper(0, 5), Link(1)];
      IsRun(Three(), es) && 0 in Run(Three(), es).s.rq && Run(Three(), es).s.rq[0] == [1, 1]
  {
    hide KernelInv, Apply, Enabled, IsRun, Run, ChildRuns, Heedful, Three;
    var a, b := Start(), [Sleep(1, 5), Exit(2, 7), TestParent(2)];
    ForkReached();
    var k := Run(Three(), a);
    ToSleeper(k);
    RunsJoin(Three(), a, b);
    PlainRun(k, b);
    var w := Run(Three(), a + b);
    ExitWakeLinksTwice(w, 2, 1, 0, 5);
    assert [] + [1, 1] == [1, 1];
    RunsJoin(Three(), a + b, [Publish(2), Link(1), WakeSleeper(0, 5), Link(1)]);
  }

  /** From boot to an exiting child whose parent is gone between its two reads. */
  lemma ParentGone()
    ensures var es := Start() + [Exit(2, 7), TestParent(2), Exit(1, 0)];
      IsRun(Three(), es) && 2 in Run(Three(), es).f.publishing && 2 !in Run(Three(), es).f.parent
  {
    hide KernelInv, Apply, Enabled, IsRun, Run, ChildRuns, Three;
    ForkReached();
    ToVanished(Run(Three(), Start()));
    RunsJoin(Three(), Start(), [Exit(2, 7), TestParent(2), Exit(1, 0)]);
  }
}
