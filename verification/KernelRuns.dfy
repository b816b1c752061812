/**
 Every interleaving of the scheduler, the mutexes and the exit/wait handshake, on any number
 of CPUs. A run is a sequence of atomic steps, each enabled where it is taken.
 */
module KernelRuns {
  import opened Options
  import opened Scheduler
  import opened Mutexes
  import opened Waiting
  import opened Sleepers
  import opened Reaping

  /** z: the sleep list of each CPU; r: what is being freed. */
  datatype Kernel = Kernel(s: Sched, x: Locks, f: Family, z: map<Cpu, seq<Sleeper>>, r: Reap)

  datatype Event =
    | Create(t: Task, c: Cpu)                  // create_kernel_task
    | ForkChild(p: Task, t: Task, c: Cpu)      // a child of p
    | Resched(c: Cpu)                          // schedule() with a queued task
    | Drain(c: Cpu)                            // schedule() with an empty queue
    | LockCall(t: Task, m: nat)
    | LockReturn(t: Task)
    | UnlockCall(t: Task, m: nat)
    | Link(t: Task)                            // rq_enqueue_external by a waker
    | Sleep(t: Task, deadline: nat)
    | WakeSleeper(c: Cpu, now: nat)            // the head of a sleep list, once expired
    | Scan(t: Task, want: nat)
    | ScanOrPark(t: Task, want: nat)
    | FreeChild(t: Task)                       // the end of a wait that claimed a zombie
    | Exit(t: Task, code: nat)
    | TestParent(t: Task)
    | Publish(t: Task)

  /** t is on its CPU, outside any blocking call. */
  predicate Active(k: Kernel, t: Task) {
    t in k.s.state && k.s.state[t] == Running && t !in k.x.inLock && t !in k.r.reaping
  }

  predicate Enabled(k: Kernel, e: Event) {
    match e
    case Create(t, c) => t !in k.s.home && c in k.s.rq
    case ForkChild(p, t, c) => Active(k, p) && t !in k.s.home && c in k.s.rq
    case Resched(c) =>
      && c in k.s.current && c in k.s.rq && k.s.rq[c] != []
      && k.s.current[c] in k.s.home && k.s.current[c] in k.s.state && k.s.home[k.s.current[c]] in k.s.rq
      && k.s.current[c] !in k.f.exiting && k.s.current[c] !in k.f.publishing
    case Drain(c) =>
      && c in k.s.current && c in k.s.rq && k.s.rq[c] == []
      && k.s.current[c] !in k.f.exiting && k.s.current[c] !in k.f.publishing
    case LockCall(t, m) =>
      Active(k, t) && m in k.x.mutex && m in k.x.arrived && m in k.x.granted && k.x.mutex[m].owner != Some(t)
    case LockReturn(t) => t in k.s.state && k.s.state[t] == Running && t in k.x.inLock
    case UnlockCall(t, m) => Active(k, t) && (m, t) in k.x.holding && m in k.x.mutex && m in k.x.granted
    case Link(t) => t in k.s.transit && t in k.s.home && k.s.home[t] in k.s.rq
    case Sleep(t, deadline) => Active(k, t) && t in k.s.home && k.s.home[t] in k.z
    case WakeSleeper(c, now) => c in k.z && k.z[c] != [] && k.z[c][0].deadline <= now
    case Scan(t, want) => Active(k, t)
    case ScanOrPark(t, want) => Active(k, t)
    case FreeChild(t) => t in k.s.state && k.s.state[t] == Running && t in k.r.reaping
    case Exit(t, code) => Active(k, t)
    case TestParent(t) => t in k.f.exiting
    case Publish(t) => t in k.f.publishing && t in k.f.parent
  }

  function Apply(k: Kernel, e: Event): Kernel
    requires Enabled(k, e)
  {
    match e
    case Create(t, c) => k.(s := Spawn(k.s, t, c))
    case ForkChild(p, t, c) => k.(s := Spawn(k.s, t, c), f := Fork(k.f, p, t))
    case Resched(c) => k.(s := Schedule(k.s, c), r := Filled(k.s, k.f, Drained(k.s, k.f, k.r, c), c))
    case Drain(c) => k.(r := Drained(k.s, k.f, k.r, c))
    case LockCall(t, m) => var r := Lock(k.s, k.x, t, m); k.(s := r.0, x := r.1)
    case LockReturn(t) => k.(x := LockReturns(k.x, t))
    case UnlockCall(t, m) => var r := Unlock(k.s, k.x, t, m); k.(s := r.0, x := r.1)
    case Link(t) => k.(s := Enqueue(k.s, t))
    case Sleep(t, deadline) =>
      var h := k.s.home[t];
      k.(s := Park(k.s, t, Asleep), z := k.z[h := Inserted(k.z[h], Sleeper(t, deadline))])
    case WakeSleeper(c, now) => k.(s := Wake(k.s, k.z[c][0].task), z := k.z[c := k.z[c][1..]])
    case Scan(t, want) => k.(f := WaitScan(k.f, t, want), r := Held(k.r, k.f, t, want))
    case ScanOrPark(t, want) => var r := WaitPark(k.s, k.f, t, want); k.(s := r.0, f := r.1, r := Held(k.r, k.f, t, want))
    case FreeChild(t) => k.(r := FreeClaimed(k.r, t))
    case Exit(t, code) => var r := ExitMark(k.s, k.f, t, code); k.(s := r.0, f := r.1)
    case TestParent(t) => k.(f := ExitTest(k.s, k.f, t))
    case Publish(t) => var r := ExitPublish(k.s, k.f, t); k.(s := r.0, f := r.1)
  }

  ghost predicate KernelInv(k: Kernel) {
    Inv(k.s) && LocksInv(k.s.place, k.x) && FamilyInv(k.s, k.f) && SleepInv(k.s, k.z) && ReapInv(k.s, k.f, k.r)
  }

  /** If this exit wakes its parent, the parent is parked in its wait call. */
  predicate WakesWaiter(k: Kernel, t: Task) {
    t in k.f.parent && ExitWakes(k.s, k.f, t) ==> k.f.parent[t] in k.s.place && k.s.place[k.f.parent[t]] == InWait
  }

  /**
   The steps that need care: an exit that lists itself wakes a waiter or nobody; a wait frees a
   child that has left its CPU; a reschedule frees a task that is not listed.
   */
  predicate Heeds(k: Kernel, e: Event) {
    match e
    case Publish(t) => WakesWaiter(k, t)
    case FreeChild(t) => t in k.r.reaping ==> !OnCpu(k.s, k.r.reaping[t])
    case Resched(c) => c in k.r.slot ==> k.r.slot[c] !in k.f.zombies
    case Drain(c) => c in k.r.slot ==> k.r.slot[c] !in k.f.zombies
    case _ => true
  }

  // ---- what the parts need to know of each other ---------------------------------------------

  lemma RunningUnparked(s: Sched, t: Task)
    requires Inv(s) && t in s.state && s.state[t] == Running
    ensures t in s.home && t !in s.place
  {
    assert TaskOk(s, t);
  }

  lemma ParkedKnown(s: Sched, t: Task)
    requires Inv(s) && t in s.place
    ensures t in s.home && t in s.state && s.state[t] == Blocked
  {
    assert TaskOk(s, t);
  }

  // ---- one step -----------------------------------------------------------------------------------

  lemma CreateStep(k: Kernel, t: Task, c: Cpu)
    requires KernelInv(k) && Enabled(k, Create(t, c))
    ensures KernelInv(Apply(k, Create(t, c)))
  {
    hide Inv, LocksInv, FamilyInv, SleepInv, ReapInv, SameDead;
    SpawnKeeps(k.s, t, c);
    assert t !in k.s.state by { KeysAgree(k.s); }
    FamilyFrame(k.s, Spawn(k.s, t, c), k.f);
    SleepFrame(k.s, Spawn(k.s, t, c), k.z);
    SpawnStep(k.s, t, c);
    ReapFrame(k.s, Spawn(k.s, t, c), k.f, k.r);
  }

  lemma KeysAgree(s: Sched)
    requires Inv(s)
    ensures s.state.Keys == s.home.Keys
  {}

  lemma ForkStep(k: Kernel, p: Task, t: Task, c: Cpu)
    requires KernelInv(k) && Enabled(k, ForkChild(p, t, c))
    ensures KernelInv(Apply(k, ForkChild(p, t, c)))
  {
    hide Inv, LocksInv, FamilyInv, SleepInv, ReapInv, SameDead;
    SpawnKeeps(k.s, t, c);
    assert t !in k.s.state by { KeysAgree(k.s); }
    ForkKeeps(k.s, Spawn(k.s, t, c), k.f, p, t);
    SleepFrame(k.s, Spawn(k.s, t, c), k.z);
    SpawnStep(k.s, t, c);
    ForkReap(k.s, Spawn(k.s, t, c), k.f, k.r, p, t);
  }

  lemma ReschedStep(k: Kernel, c: Cpu)
    requires KernelInv(k) && Enabled(k, Resched(c)) && Heeds(k, Resched(c))
    ensures KernelInv(Apply(k, Resched(c)))
  {
    hide Inv, LocksInv, FamilyInv, SleepInv, ReapInv, Schedule, Switched, Drained, Filled;
    ScheduleKeeps(k.s, c);
    HeadReady(k.s, c);
    ScheduleSpares(k.s, c);
    FamilyFrame(k.s, Schedule(k.s, c), k.f);
    SleepFrame(k.s, Schedule(k.s, c), k.z);
    DrainReap(k.s, k.f, k.r, c);
    ScheduleSwitches(k.s, c);
    SwitchReap(k.s, Schedule(k.s, c), k.f, Drained(k.s, k.f, k.r, c), c);
  }

  lemma DrainStep(k: Kernel, c: Cpu)
    requires KernelInv(k) && Enabled(k, Drain(c)) && Heeds(k, Drain(c))
    ensures KernelInv(Apply(k, Drain(c)))
  {
    hide Inv, LocksInv, FamilyInv, SleepInv, ReapInv, Drained;
    DrainReap(k.s, k.f, k.r, c);
  }

  lemma FreeStep(k: Kernel, t: Task)
    requires KernelInv(k) && Enabled(k, FreeChild(t)) && Heeds(k, FreeChild(t))
    ensures KernelInv(Apply(k, FreeChild(t)))
  {
    hide Inv, LocksInv, FamilyInv, SleepInv, ReapInv, OnCpu;
    FreeClaimedExact(k.s, k.f, k.r, t);
  }

  lemma LockStep(k: Kernel, t: Task, m: nat)
    requires KernelInv(k) && Enabled(k, LockCall(t, m))
    ensures KernelInv(Apply(k, LockCall(t, m)))
  {
    hide Inv, LocksInv, FamilyInv, SleepInv, ReapInv, SameDead;
    RunningUnparked(k.s, t);
    if k.x.mutex[m].locked {
      LockWaits(k.s.place, k.s, k.x, t, m);
      ParkKeeps(k.s, t, InMutex(m));
      FamilyFrame(k.s, Park(k.s, t, InMutex(m)), k.f);
      SleepFrame(k.s, Park(k.s, t, InMutex(m)), k.z);
      LivingStep(k.s, Park(k.s, t, InMutex(m)), t);
      ReapFrame(k.s, Park(k.s, t, InMutex(m)), k.f, k.r);
    } else {
      LockFree(k.s.place, k.s, k.x, t, m);
    }
  }

  lemma ReturnStep(k: Kernel, t: Task)
    requires KernelInv(k) && Enabled(k, LockReturn(t))
    ensures KernelInv(Apply(k, LockReturn(t)))
  {
    hide Inv, LocksInv, FamilyInv, SleepInv, ReapInv, SameDead;
    RunningUnparked(k.s, t);
    LockReturnKeeps(k.s.place, k.x, t);
  }

  lemma UnlockStep(k: Kernel, t: Task, m: nat)
    requires KernelInv(k) && Enabled(k, UnlockCall(t, m))
    ensures KernelInv(Apply(k, UnlockCall(t, m)))
  {
    hide Inv, LocksInv, FamilyInv, SleepInv, ReapInv, SameDead;
    if k.x.mutex[m].queue != [] {
      var w := k.x.mutex[m].queue[0];
      UnlockHandsOver(k.s.place, k.s, k.x, t, m);
      WakeStep(k, w);
      assert k.s.place[w] != Asleep by { FirstWaiter(k, m); }
      SleepFrame(k.s, Wake(k.s, w), k.z);
    } else {
      UnlockIdle(k.s.place, k.s, k.x, t, m);
    }
  }

  lemma FirstWaiter(k: Kernel, m: nat)
    requires KernelInv(k) && m in k.x.mutex && k.x.mutex[m].queue != []
    ensures var w := k.x.mutex[m].queue[0]; w in k.s.place && k.s.place[w] == InMutex(m)
  {
    hide Inv, FamilyInv, SleepInv, ReapInv;
    assert MutexOk(k.s.place, k.x, m);
    assert k.x.mutex[m].queue[0] in k.x.mutex[m].queue && Waits(k.s.place, k.x, m, k.x.mutex[m].queue[0]);
  }

  lemma WakeStep(k: Kernel, w: Task)
    requires KernelInv(k) && w in k.s.place
    ensures Inv(Wake(k.s, w)) && FamilyInv(Wake(k.s, w), k.f) && SameDead(k.s, Wake(k.s, w)) && ReapInv(Wake(k.s, w), k.f, k.r)
  {
    hide Inv, LocksInv, FamilyInv, SleepInv, ReapInv, SameDead;
    ParkedKnown(k.s, w);
    WakeKeeps(k.s, w);
    FamilyFrame(k.s, Wake(k.s, w), k.f);
    LivingStep(k.s, Wake(k.s, w), w);
    ReapFrame(k.s, Wake(k.s, w), k.f, k.r);
  }

  lemma LinkStep(k: Kernel, t: Task)
    requires KernelInv(k) && Enabled(k, Link(t))
    ensures KernelInv(Apply(k, Link(t)))
  {
    hide Inv, LocksInv, FamilyInv, SleepInv, ReapInv, SameDead;
    EnqueueKeeps(k.s, t);
    FamilyFrame(k.s, Enqueue(k.s, t), k.f);
    SleepFrame(k.s, Enqueue(k.s, t), k.z);
    SameDeadStates(k.s, Enqueue(k.s, t));
    ReapFrame(k.s, Enqueue(k.s, t), k.f, k.r);
  }

  lemma SleepStep(k: Kernel, t: Task, deadline: nat)
    requires KernelInv(k) && Enabled(k, Sleep(t, deadline))
    ensures KernelInv(Apply(k, Sleep(t, deadline)))
  {
    hide Inv, LocksInv, FamilyInv, SleepInv, ReapInv, SameDead;
    RunningUnparked(k.s, t);
    ParkKeeps(k.s, t, Asleep);
    LocksFrame(k.s.place, Park(k.s, t, Asleep).place, k.x);
    FamilyFrame(k.s, Park(k.s, t, Asleep), k.f);
    SleepInserts(k.s, k.z, t, deadline);
    LivingStep(k.s, Park(k.s, t, Asleep), t);
    ReapFrame(k.s, Park(k.s, t, Asleep), k.f, k.r);
  }

  /** A task parked anywhere but in a mutex is not inside a lock call. */
  lemma OutsideLocks(place: map<Task, Place>, x: Locks, t: Task)
    requires LocksInv(place, x) && t in place && !place[t].InMutex?
    ensures LocksInv(place - {t}, x)
  {
    assert t in x.inLock ==> Locking(place, x, t);
    LocksFrame(place, place - {t}, x);
  }

  lemma WakeSleeperStep(k: Kernel, c: Cpu, now: nat)
    requires KernelInv(k) && Enabled(k, WakeSleeper(c, now))
    ensures KernelInv(Apply(k, WakeSleeper(c, now)))
  {
    hide Inv, LocksInv, FamilyInv, SleepInv, ReapInv, SameDead;
    SleepPops(k.s, k.z, c);
    WakeStep(k, k.z[c][0].task);
    OutsideLocks(k.s.place, k.x, k.z[c][0].task);
  }

  lemma ScanOrParkStep(k: Kernel, t: Task, want: nat)
    requires KernelInv(k) && Enabled(k, ScanOrPark(t, want))
    ensures KernelInv(Apply(k, ScanOrPark(t, want)))
  {
    hide Inv, LocksInv, FamilyInv, SleepInv, ReapInv, SameDead, FirstMatch;
    WaitParkKeeps(k.s, k.f, t, want);
    RunningUnparked(k.s, t);
    ParkKeeps(k.s, t, InWait);
    LocksFrame(k.s.place, Park(k.s, t, InWait).place, k.x);
    SleepFrame(k.s, Park(k.s, t, InWait), k.z);
    KeysAgree(k.s);
    if Taken(k.f, t, want).Some? {
      HeldKeeps(k.s, k.f, k.r, t, want);
    } else {
      LivingStep(k.s, Park(k.s, t, InWait), t);
      TargetReap(k.s, Park(k.s, t, InWait), k.f, k.r, t, want);
    }
  }

  lemma ExitStep(k: Kernel, t: Task, code: nat)
    requires KernelInv(k) && Enabled(k, Exit(t, code))
    ensures KernelInv(Apply(k, Exit(t, code)))
  {
    hide Inv, LocksInv, FamilyInv, SleepInv, ReapInv, SameDead;
    RunningUnparked(k.s, t);
    KillKeeps(k.s, t);
    ExitMarkKeeps(k.s, k.f, t, code);
    SleepFrame(k.s, Kill(k.s, t), k.z);
    RunsHere(k.s, t);
    ExitReap(k.s, k.f, k.r, t, code);
  }

  lemma PublishStep(k: Kernel, t: Task)
    requires KernelInv(k) && Enabled(k, Publish(t)) && WakesWaiter(k, t)
    ensures KernelInv(Apply(k, Publish(t)))
  {
    hide Inv, LocksInv, FamilyInv, SleepInv, ReapInv, SameDead;
    ExitPublishKeeps(k.s, k.f, t);
    assert t !in k.f.exiting by { Published(k, t); }
    if ExitWakes(k.s, k.f, t) {
      var p := k.f.parent[t];
      WakeStep(k, p);
      OutsideLocks(k.s.place, k.x, p);
      SleepFrame(k.s, Wake(k.s, p), k.z);
      PublishReap(k.s, Wake(k.s, p), k.f, ExitPublish(k.s, k.f, t).1, k.r, t);
    } else {
      SameDeadStates(k.s, k.s);
      PublishReap(k.s, k.s, k.f, ExitPublish(k.s, k.f, t).1, k.r, t);
    }
  }

  lemma Published(k: Kernel, t: Task)
    requires KernelInv(k) && t in k.f.publishing
    ensures t !in k.f.exiting
  {
    hide Inv, LocksInv, SleepInv, ReapInv, Dead;
  }

  lemma RunsHere(s: Sched, t: Task)
    requires Inv(s) && t in s.state && s.state[t] == Running
    ensures OnCpu(s, t)
  {
    assert TaskOk(s, t);
  }

  lemma StepKeeps(k: Kernel, e: Event)
    requires KernelInv(k) && Enabled(k, e) && Heeds(k, e)
    ensures KernelInv(Apply(k, e))
  {
    hide KernelInv, Apply;
    match e
    case Create(t, c) => CreateStep(k, t, c);
    case ForkChild(p, t, c) => ForkStep(k, p, t, c);
    case Resched(c) => ReschedStep(k, c);
    case Drain(c) => DrainStep(k, c);
    case LockCall(t, m) => LockStep(k, t, m);
    case LockReturn(t) => ReturnStep(k, t);
    case UnlockCall(t, m) => UnlockStep(k, t, m);
    case Link(t) => LinkStep(k, t);
    case Sleep(t, deadline) => SleepStep(k, t, deadline);
    case WakeSleeper(c, now) => WakeSleeperStep(k, c, now);
    case Scan(t, want) => ScanStep(k, t, want);
    case ScanOrPark(t, want) => ScanOrParkStep(k, t, want);
    case FreeChild(t) => FreeStep(k, t);
    case Exit(t, code) => ExitStep(k, t, code);
    case TestParent(t) => TestStep(k, t);
    case Publish(t) => PublishStep(k, t);
  }

  lemma ScanStep(k: Kernel, t: Task, want: nat)
    requires KernelInv(k) && Enabled(k, Scan(t, want))
    ensures KernelInv(Apply(k, Scan(t, want)))
  {
    hide Inv, LocksInv, FamilyInv, SleepInv, ReapInv, SameDead;
    ScanKeeps(k.s, k.f, t, want);
    KeysAgree(k.s);
    if Taken(k.f, t, want).Some? { HeldKeeps(k.s, k.f, k.r, t, want); }
  }

  lemma TestStep(k: Kernel, t: Task)
    requires KernelInv(k) && Enabled(k, TestParent(t))
    ensures KernelInv(Apply(k, TestParent(t)))
  {
    hide Inv, LocksInv, FamilyInv, SleepInv, ReapInv, SameDead;
    ExitTestKeeps(k.s, k.f, t);
    TestReap(k.s, k.f, k.r, t);
  }

  // ---- whole runs ----------------------------------------------------------------------------------

  predicate IsRun(k: Kernel, es: seq<Event>)
    decreases |es|
  {
    es != [] ==> Enabled(k, es[0]) && IsRun(Apply(k, es[0]), es[1..])
  }

  function Run(k: Kernel, es: seq<Event>): Kernel
    requires IsRun(k, es)
    decreases |es|
  {
    if es == [] then k else Run(Apply(k, es[0]), es[1..])
  }

  /** Every step of the run heeds. */
  predicate Heedful(k: Kernel, es: seq<Event>)
    requires IsRun(k, es)
    decreases |es|
  {
    es != [] ==> Heeds(k, es[0]) && Heedful(Apply(k, es[0]), es[1..])
  }

  lemma {:induction false} EveryRunKeeps(k: Kernel, es: seq<Event>)
    requires KernelInv(k) && IsRun(k, es) && Heedful(k, es)
    ensures KernelInv(Run(k, es))
    decreases |es|
  {
    hide KernelInv, Apply, Enabled, Heeds;
    if es != [] {
      StepKeeps(k, es[0]);
      EveryRunKeeps(Apply(k, es[0]), es[1..]);
    }
  }

  /** No task is current twice or linked twice, each stays on its home CPU, and wakes equal dispatches. */
  lemma TasksInOnePlace(k: Kernel, es: seq<Event>, c: Cpu, d: Cpu, t: Task)
    requires KernelInv(k) && IsRun(k, es) && Heedful(k, es) && t in Run(k, es).s.home
    ensures var s := Run(k, es).s;
      && t in s.readied && t in s.dispatched && t in s.state
      && s.readied[t] == s.dispatched[t] + (if s.state[t] == Ready then 1 else 0)
      && (c in s.current && s.current[c] == t ==> s.home[t] == c)
      && (c in s.current && d in s.current && s.current[c] == t && s.current[d] == t ==> c == d)
      && (c in s.rq && t in s.rq[c] ==> s.home[t] == c && s.state[t] == Ready && t !in s.transit)
      && (c in s.rq ==> forall i, j :: 0 <= i < j < |s.rq[c]| ==> s.rq[c][i] != s.rq[c][j])
      && (c in s.current ==> c in s.rq && c in s.linked && c in s.picked && s.linked[c] == s.picked[c] + s.rq[c])
  {
    EveryRunKeeps(k, es);
    hide Run, IsRun, Heedful, LocksInv, FamilyInv, SleepInv, ReapInv;
    var s := Run(k, es).s;
    assert TaskOk(s, t);
    assert c in s.current ==> CpuOk(s, c);
    assert d in s.current ==> CpuOk(s, d);
    assert c in s.rq && t in s.rq[c] ==> Queued(s, c, t);
  }

  lemma OneHolder(k: Kernel, es: seq<Event>, m: nat, t: Task, u: Task)
    requires KernelInv(k) && IsRun(k, es) && Heedful(k, es)
    ensures var x := Run(k, es).x;
      && ((m, t) in x.holding && (m, u) in x.holding ==> t == u)
      && (m in x.mutex && x.mutex[m].locked ==>
            x.mutex[m].owner.Some? && var o := x.mutex[m].owner.value; (m, o) in x.holding || (o in x.inLock && x.inLock[o] == m))
      && (m in x.mutex ==>
            && (x.mutex[m].queue != [] ==> x.mutex[m].locked)
            && (x.mutex[m].owner == Some(t) ==> t !in x.mutex[m].queue)
            && m in x.arrived && m in x.granted && x.granted[m] <= x.arrived[m])
  {
    EveryRunKeeps(k, es);
    hide Run, IsRun, Heedful, Inv, FamilyInv, SleepInv, ReapInv;
    var n := Run(k, es);
    if (m, t) in n.x.holding && (m, u) in n.x.holding { MutualExclusion(n.s.place, n.x, m, t, u); }
    if m in n.x.mutex { assert MutexOk(n.s.place, n.x, m); }
  }

  lemma NoMissedChild(k: Kernel, es: seq<Event>, p: Task, z: Task, i: nat, j: nat)
    requires KernelInv(k) && IsRun(k, es) && Heedful(k, es)
    ensures var n := Run(k, es);
      && (p in n.s.place && n.s.place[p] == InWait && z in n.f.zombies && z in n.f.parent && n.f.parent[z] == p ==>
            p in n.f.target && n.f.target[p] != 0 && n.f.target[p] != z)
      && (i < |n.f.claims| ==>
            var c := n.f.claims[i];
            && (c.want == 0 || c.want == c.child)
            && c.child in n.s.state && n.s.state[c.child] == Zombie && c.child in n.f.code && n.f.code[c.child] == c.code
            && c.child in n.f.born && n.f.born[c.child] == c.parent)
      && (i < j < |n.f.claims| ==> n.f.claims[i].child != n.f.claims[j].child)
  {
    EveryRunKeeps(k, es);
    hide Run, IsRun, Heedful, Inv, LocksInv, SleepInv, ReapInv;
    var n := Run(k, es);
    assert i < |n.f.claims| ==> ClaimOk(n.s, n.f, i);
    assert p in n.s.place && n.s.place[p] == InWait && z in n.f.zombies ==> !Matches(n.f, p, Target(n.f, p), z);
  }

  // ---- where runs start --------------------------------------------------------------------------

  /** Each CPU runs the bootstrap task attached to it; nothing is queued, locked, parked or dead. */
  function Boot(home: map<Task, Cpu>, current: map<Cpu, Task>, mutexes: set<nat>): Kernel {
    Kernel(
      Sched(home, map t | t in home :: Running, current, map c | c in current :: [], {}, map[],
            map t | t in home :: 0, map t | t in home :: 0,
            map c | c in current :: [], map c | c in current :: []),
      Locks(map m | m in mutexes :: Mutex(false, None, []), map[], {}, map m | m in mutexes :: [], map m | m in mutexes :: []),
      Family(map[], map[], map[], [], {}, {}, map[], []),
      map c | c in current :: [],
      Reap(map[], map[], []))
  }

  lemma BootSafe(home: map<Task, Cpu>, current: map<Cpu, Task>, mutexes: set<nat>)
    requires forall t :: t in home ==> home[t] in current && current[home[t]] == t
    requires forall c :: c in current ==> current[c] in home && home[current[c]] == c
    ensures KernelInv(Boot(home, current, mutexes))
  {
    hide Inv, LocksInv, FamilyInv, SleepInv, ReapInv;
    BootSched(home, current, mutexes);
    BootRest(home, current, mutexes);
  }

  lemma BootSched(home: map<Task, Cpu>, current: map<Cpu, Task>, mutexes: set<nat>)
    requires forall t :: t in home ==> home[t] in current && current[home[t]] == t
    requires forall c :: c in current ==> current[c] in home && home[current[c]] == c
    ensures Inv(Boot(home, current, mutexes).s)
  {
    var s := Boot(home, current, mutexes).s;
    forall t | t in s.home ensures TaskOk(s, t) {}
    forall c | c in s.current ensures CpuOk(s, c) {}
  }

  lemma BootRest(home: map<Task, Cpu>, current: map<Cpu, Task>, mutexes: set<nat>)
    ensures var k := Boot(home, current, mutexes);
      LocksInv(k.s.place, k.x) && FamilyInv(k.s, k.f) && SleepInv(k.s, k.z) && ReapInv(k.s, k.f, k.r)
  {
    var k := Boot(home, current, mutexes);
    forall m | m in k.x.mutex ensures MutexOk(k.s.place, k.x, m) {}
    assert ReapInv(k.s, k.f, k.r) by {
      forall z ensures !Corpse(k.s, z) {}
    }
  }
}
