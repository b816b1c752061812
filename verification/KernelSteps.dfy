/**
 What the kernel's calls do for their callers, stated over the states before and after a step
 and not through the functions that compute it; and what follows over whole runs: queues are
 served in order, and a listed child stays listed until its parent claims it.
 */
module KernelSteps {
  import opened Options
  import opened Sequences
  import opened Scheduler
  import opened Mutexes
  import opened Waiting
  import opened Sleepers
  import opened Reaping
  import opened KernelRuns

  // ---- the effects -------------------------------------------------------------------------

  /** Task u is as it was. */
  ghost predicate SameTask(s: Sched, n: Sched, u: Task) {
    && (u in s.home <==> u in n.home) && (u in s.home ==> n.home[u] == s.home[u])
    && (u in s.state <==> u in n.state) && (u in s.state ==> n.state[u] == s.state[u])
    && (u in s.place <==> u in n.place) && (u in s.place ==> n.place[u] == s.place[u])
    && (u in s.transit <==> u in n.transit)
  }

  ghost predicate OthersSame(s: Sched, n: Sched, t: Task) {
    forall u :: u != t ==> SameTask(s, n, u)
  }

  /** A new READY task, last in the queue of CPU c. */
  ghost predicate Born(s: Sched, n: Sched, t: Task, c: Cpu) {
    && t in n.home && n.home[t] == c && t in n.state && n.state[t] == Ready && t !in n.transit && t !in n.place
    && c in s.rq && n.rq == s.rq[c := s.rq[c] + [t]] && n.current == s.current && OthersSame(s, n, t)
  }

  /** t is BLOCKED and linked where p says. */
  ghost predicate Parked(s: Sched, n: Sched, t: Task, p: Place) {
    && t in n.state && n.state[t] == Blocked && t in n.place && n.place[t] == p && n.transit == s.transit
    && n.rq == s.rq && n.current == s.current && n.home == s.home && OthersSame(s, n, t)
  }

  /** t is READY, linked nowhere, and on its way to its run queue. */
  ghost predicate Woken(s: Sched, n: Sched, t: Task) {
    && t in n.state && n.state[t] == Ready && t !in n.place && n.transit == s.transit + {t}
    && n.rq == s.rq && n.current == s.current && n.home == s.home && OthersSame(s, n, t)
  }

  ghost predicate Requeued(s: Sched, n: Sched, t: Task) {
    && t in s.home && s.home[t] in s.rq && n.rq == s.rq[s.home[t] := s.rq[s.home[t]] + [t]]
    && n.transit == s.transit - {t} && n.current == s.current && n.home == s.home && n.state == s.state && n.place == s.place
  }

  /**
   CPU c runs the head of its queue, which may be the task it ran before; a task that was running
   there goes to the tail.
   */
  ghost predicate Switches(s: Sched, n: Sched, c: Cpu) {
    && c in s.current && c in s.rq && s.rq[c] != [] && s.current[c] in s.state
    && var prev, next := s.current[c], s.rq[c][0];
       && n.current == s.current[c := next] && next in n.state && n.state[next] == Running
       && prev in n.state
       && (prev != next ==> n.state[prev] == if s.state[prev] == Running then Ready else s.state[prev])
       && n.rq == s.rq[c := s.rq[c][1..] + if s.state[prev] == Running then [prev] else []]
       && n.home == s.home && n.place == s.place && n.transit == s.transit
       && (forall u :: u != prev && u != next ==> SameTask(s, n, u))
  }

  /** What was in the reap slot of c is freed. */
  ghost predicate Reaped(r: Reap, q: Reap, c: Cpu) {
    q.freed == r.freed + (if c in r.slot then [r.slot[c]] else []) && q.reaping == r.reaping
  }

  /** x joins the list at place i: behind everybody with the same deadline or an earlier one. */
  ghost predicate SleepsAt(z: seq<Sleeper>, n: seq<Sleeper>, x: Sleeper, i: nat) {
    && i <= |z| && n == z[..i] + [x] + z[i..]
    && (forall j :: 0 <= j < i ==> z[j].deadline <= x.deadline) && (forall j :: i <= j < |z| ==> x.deadline < z[j].deadline)
  }

  ghost predicate Candidate(f: Family, p: Task, want: nat, z: Task) {
    z in f.zombies && z in f.parent && f.parent[z] == p && (want == 0 || want == z)
  }

  /** The wait of p claims the first listed child it asked for. */
  ghost predicate Claims(k: Kernel, n: Kernel, p: Task, want: nat) {
    exists i: nat :: i < |k.f.zombies| && ClaimsAt(k, n, p, want, i)
  }

  ghost predicate ClaimsAt(k: Kernel, n: Kernel, p: Task, want: nat, i: nat)
    requires i < |k.f.zombies|
  {
    var z := k.f.zombies[i];
    && Candidate(k.f, p, want, z) && (forall j :: 0 <= j < i ==> !Candidate(k.f, p, want, k.f.zombies[j]))
    && z in k.f.code && n.s == k.s && n.r == k.r.(reaping := k.r.reaping[p := z])
    && n.f == k.f.(zombies := k.f.zombies[..i] + k.f.zombies[i + 1..], claims := k.f.claims + [Claim(p, z, k.f.code[z], want)])
  }

  ghost predicate Does(k: Kernel, e: Event, n: Kernel) {
    match e
    case Create(t, c) => Born(k.s, n.s, t, c) && n == k.(s := n.s)
    case ForkChild(p, t, c) =>
      && Born(k.s, n.s, t, c) && n == k.(s := n.s, f := n.f)
      && n.f == k.f.(parent := k.f.parent[t := p], born := k.f.born[t := p])
    case Resched(c) =>
      && Switches(k.s, n.s, c) && Reaped(k.r, n.r, c) && n == k.(s := n.s, r := n.r)
      && var prev := k.s.current[c];
         n.r.slot == if k.s.state[prev] == Zombie && prev !in k.f.parent then k.r.slot[c := prev] else k.r.slot - {c}
    case Drain(c) => Reaped(k.r, n.r, c) && n.r.slot == k.r.slot - {c} && n == k.(r := n.r)
    case LockCall(t, m) => n == k.(s := n.s, x := n.x) && LockDone(k, n, t, m)
    case LockReturn(t) =>
      && n == k.(x := n.x) && t in k.x.inLock && Owns(n.x, k.x.inLock[t], t)
      && n.x == k.x.(inLock := k.x.inLock - {t}, holding := k.x.holding + {(k.x.inLock[t], t)})
    case UnlockCall(t, m) => n == k.(s := n.s, x := n.x) && UnlockDone(k, n, t, m)
    case Link(t) => Requeued(k.s, n.s, t) && n == k.(s := n.s)
    case Sleep(t, deadline) =>
      && Parked(k.s, n.s, t, Asleep) && n == k.(s := n.s, z := n.z) && t in k.s.home
      && var h := k.s.home[t];
         h in k.z && h in n.z && n.z == k.z[h := n.z[h]] && exists i: nat :: SleepsAt(k.z[h], n.z[h], Sleeper(t, deadline), i)
    case WakeSleeper(c, now) =>
      && c in k.z && k.z[c] != [] && k.z[c][0].deadline <= now
      && Woken(k.s, n.s, k.z[c][0].task) && n == k.(s := n.s, z := k.z[c := k.z[c][1..]])
    case Scan(t, want) => if exists z :: Candidate(k.f, t, want, z) then Claims(k, n, t, want) && n == k.(f := n.f, r := n.r) else n == k
    case ScanOrPark(t, want) =>
      if exists z :: Candidate(k.f, t, want, z) then Claims(k, n, t, want) && n == k.(f := n.f, r := n.r)
      else Parked(k.s, n.s, t, InWait) && n == k.(s := n.s, f := k.f.(target := k.f.target[t := want]))
    case FreeChild(t) =>
      && t in k.r.reaping && n == k.(r := k.r.(reaping := k.r.reaping - {t}, freed := k.r.freed + [k.r.reaping[t]]))
    case Exit(t, code) => n == k.(s := n.s, f := n.f) && ExitDone(k, n, t, code)
    case TestParent(t) =>
      && n == k.(f := k.f.(exiting := n.f.exiting, publishing := n.f.publishing)) && n.f.exiting == k.f.exiting - {t}
      && n.f.publishing == k.f.publishing + if t in k.f.parent then {t} else {}
    case Publish(t) => n == k.(s := n.s, f := n.f) && PublishDone(k, n, t)
  }

  /** An unlocked mutex is the caller's at once; otherwise the caller parks as the last waiter. */
  ghost predicate LockDone(k: Kernel, n: Kernel, t: Task, m: nat) {
    && m in k.x.mutex && m in n.x.mutex && n.x.mutex == k.x.mutex[m := n.x.mutex[m]]
    && if !k.x.mutex[m].locked then
         n.s == k.s && Owns(n.x, m, t) && n.x.mutex[m].queue == [] && n.x.holding == k.x.holding + {(m, t)} && n.x.inLock == k.x.inLock
       else
         && Parked(k.s, n.s, t, InMutex(m)) && n.x.mutex[m] == k.x.mutex[m].(queue := k.x.mutex[m].queue + [t])
         && n.x.holding == k.x.holding && n.x.inLock == k.x.inLock[t := m]
  }

  /** The first waiter becomes the owner and is woken; without one the mutex is free. */
  ghost predicate UnlockDone(k: Kernel, n: Kernel, t: Task, m: nat) {
    && m in k.x.mutex && m in n.x.mutex && n.x.mutex == k.x.mutex[m := n.x.mutex[m]]
    && n.x.holding == k.x.holding - {(m, t)} && n.x.inLock == k.x.inLock
    && if k.x.mutex[m].queue == [] then
         n.s == k.s && !n.x.mutex[m].locked && n.x.mutex[m].owner == None && n.x.mutex[m].queue == []
       else
         && Woken(k.s, n.s, k.x.mutex[m].queue[0]) && Owns(n.x, m, k.x.mutex[m].queue[0])
         && n.x.mutex[m].queue == k.x.mutex[m].queue[1..]
  }

  /** t is dead with its code recorded, and nobody's parent. */
  ghost predicate ExitDone(k: Kernel, n: Kernel, t: Task, code: nat) {
    && t in n.s.state && n.s.state[t] == Zombie && OthersSame(k.s, n.s, t) && n.s.rq == k.s.rq && n.s.current == k.s.current
    && n.f == k.f.(code := k.f.code[t := code], exiting := k.f.exiting + {t}, parent := n.f.parent)
    && (forall x :: x in n.f.parent <==> x in k.f.parent && k.f.parent[x] != t)
    && (forall x :: x in n.f.parent ==> n.f.parent[x] == k.f.parent[x])
  }

  /** t is listed, and its parent is woken if and only if it is BLOCKED and waits for t or for any child. */
  ghost predicate PublishDone(k: Kernel, n: Kernel, t: Task) {
    && t in k.f.parent && n.f == k.f.(publishing := k.f.publishing - {t}, zombies := [t] + k.f.zombies)
    && var p := k.f.parent[t];
       if p in k.s.state && k.s.state[p] == Blocked && (p in k.f.target ==> k.f.target[p] == 0 || k.f.target[p] == t)
       then Woken(k.s, n.s, p)
       else n.s == k.s
  }

  // ---- every step has its effect ---------------------------------------------------------------

  lemma SpawnDoes(s: Sched, t: Task, c: Cpu)
    requires Inv(s) && t !in s.home && c in s.rq
    ensures Born(s, Spawn(s, t, c), t, c)
  {
    hide AllTasks, AllCpus;
    assert t !in s.place && t !in s.transit;
  }

  lemma ParkDoes(s: Sched, t: Task, p: Place)
    ensures Parked(s, Park(s, t, p), t, p)
  {}

  lemma WakeDoes(s: Sched, t: Task)
    ensures Woken(s, Wake(s, t), t)
  {}

  lemma LinkDoes(s: Sched, t: Task)
    requires t in s.home && s.home[t] in s.rq
    ensures Requeued(s, Enqueue(s, t), t)
  {}

  lemma ScheduleDoes(s: Sched, c: Cpu)
    requires Inv(s) && c in s.current && c in s.rq && s.rq[c] != []
    ensures s.current[c] in s.home && s.current[c] in s.state && s.home[s.current[c]] in s.rq
    ensures Switches(s, Schedule(s, c), c)
  {
    hide Inv, Schedule, Switches;
    Current(s, c);
    HeadReady(s, c);
    if s.state[s.current[c]] == Running { PreemptDoes(s, c); } else { DispatchDoes(s, c); }
  }

  lemma PreemptDoes(s: Sched, c: Cpu)
    requires c in s.current && c in s.rq && s.rq[c] != [] && s.rq[c][0] in s.state && s.state[s.rq[c][0]] == Ready
    requires s.current[c] in s.home && s.home[s.current[c]] == c && s.current[c] in s.state && s.state[s.current[c]] == Running
    ensures Switches(s, Schedule(s, c), c)
  {
    hide Bump, Log;
    var prev := s.current[c];
    var n := Schedule(s, c);
    assert n.rq == s.rq[c := s.rq[c][1..] + [prev]];
    forall u | u != prev && u != s.rq[c][0] ensures SameTask(s, n, u) {}
  }

  lemma DispatchDoes(s: Sched, c: Cpu)
    requires c in s.current && c in s.rq && s.rq[c] != [] && s.rq[c][0] in s.state
    requires s.current[c] in s.home && s.home[s.current[c]] == c && s.current[c] in s.state && s.state[s.current[c]] != Running
    ensures Switches(s, Schedule(s, c), c)
  {
    hide Bump, Log;
    assert s.rq[c][1..] + [] == s.rq[c][1..];
    var n := Schedule(s, c);
    forall u | u != s.current[c] && u != s.rq[c][0] ensures SameTask(s, n, u) {}
  }

  lemma {:induction false} InsertDoes(s: seq<Sleeper>, x: Sleeper) returns (i: nat)
    requires Ordered(s)
    ensures SleepsAt(s, Inserted(s, x), x, i)
    decreases |s|
  {
    if s == [] || x.deadline < s[0].deadline {
      i := 0;
      assert s[..0] + [x] + s[0..] == [x] + s;
    } else {
      var j := InsertDoes(s[1..], x);
      i := j + 1;
      assert s[..i] == [s[0]] + s[1..][..j] && s[1..][j..] == s[i..];
    }
  }

  lemma LockDoes(k: Kernel, t: Task, m: nat)
    requires KernelInv(k) && Enabled(k, LockCall(t, m))
    ensures Does(k, LockCall(t, m), Apply(k, LockCall(t, m)))
  {
    hide Inv, FamilyInv, SleepInv, ReapInv, Parked;
    assert MutexOk(k.s.place, k.x, m);
    ParkDoes(k.s, t, InMutex(m));
  }

  lemma UnlockDoes(k: Kernel, t: Task, m: nat)
    requires KernelInv(k) && Enabled(k, UnlockCall(t, m))
    ensures Does(k, UnlockCall(t, m), Apply(k, UnlockCall(t, m)))
  {
    hide Inv, FamilyInv, SleepInv, ReapInv, Woken;
    assert Holder(k.x, m, t) && MutexOk(k.s.place, k.x, m);
    if k.x.mutex[m].queue != [] { WakeDoes(k.s, k.x.mutex[m].queue[0]); }
  }

  /** The scan finds the first candidate. */
  lemma {:induction false} FirstAt(f: Family, zs: seq<Task>, p: Task, want: nat) returns (i: nat)
    requires FirstMatch(f, zs, p, want).Some?
    ensures i < |zs| && FirstMatch(f, zs, p, want) == Some(zs[i])
    ensures forall j :: 0 <= j < i ==> !(zs[j] in f.parent && f.parent[zs[j]] == p && (want == 0 || want == zs[j]))
    decreases |zs|
  {
    if Matches(f, p, want, zs[0]) {
      i := 0;
    } else {
      i := FirstAt(f, zs[1..], p, want);
      i := i + 1;
    }
  }

  lemma ScanDoes(k: Kernel, t: Task, want: nat)
    requires KernelInv(k)
    ensures Taken(k.f, t, want).None? <==> !exists z :: Candidate(k.f, t, want, z)
    ensures FirstMatch(k.f, k.f.zombies, t, want) == Taken(k.f, t, want)
    ensures Taken(k.f, t, want).Some? ==>
              Claims(k, k.(f := WaitScan(k.f, t, want), r := Held(k.r, k.f, t, want)), t, want)
  {
    hide KernelInv, FirstMatch;
    FirstMatchMeaning(k.f, k.f.zombies, t, want);
    var z := FirstMatch(k.f, k.f.zombies, t, want);
    if z.Some? {
      assert Candidate(k.f, t, want, z.value);
      Listing(k, z.value);
      var i := FirstAt(k.f, k.f.zombies, t, want);
      FirstRemoved(k.f.zombies, i);
      assert ClaimsAt(k, k.(f := WaitScan(k.f, t, want), r := Held(k.r, k.f, t, want)), t, want, i);
    }
  }

  lemma Listing(k: Kernel, z: Task)
    requires KernelInv(k) && z in k.f.zombies
    ensures NoDup(k.f.zombies) && z in k.f.code
  {
    hide Inv, LocksInv, SleepInv, ReapInv;
    assert Dead(k.s, k.f, z);
  }

  lemma FirstRemoved(zs: seq<Task>, i: nat)
    requires NoDup(zs) && i < |zs|
    ensures Remove(zs, zs[i]) == zs[..i] + zs[i + 1..]
  {
    RemoveAt(zs, zs[i], i);
  }

  lemma WaitDoes(k: Kernel, t: Task, want: nat)
    requires KernelInv(k) && Enabled(k, ScanOrPark(t, want))
    ensures Does(k, Scan(t, want), Apply(k, Scan(t, want))) && Does(k, ScanOrPark(t, want), Apply(k, ScanOrPark(t, want)))
  {
    hide KernelInv, FirstMatch, Claims, Parked;
    ScanDoes(k, t, want);
    ParkDoes(k.s, t, InWait);
  }

  lemma ExitDoes(k: Kernel, t: Task, code: nat)
    requires Enabled(k, Exit(t, code))
    ensures Does(k, Exit(t, code), Apply(k, Exit(t, code)))
  {}

  lemma PublishDoes(k: Kernel, t: Task)
    requires Enabled(k, Publish(t))
    ensures Does(k, Publish(t), Apply(k, Publish(t)))
  {
    hide Woken;
    WakeDoes(k.s, k.f.parent[t]);
  }

  lemma TestDoes(k: Kernel, t: Task)
    requires KernelInv(k) && Enabled(k, TestParent(t))
    ensures Does(k, TestParent(t), Apply(k, TestParent(t)))
  {
    hide Inv, LocksInv, FamilyInv, SleepInv, Slots, Reapers, Departing, Freed, Accounts;
    assert t in k.f.parent ==> Alive(k.s, k.f.parent[t]);
  }

  lemma ReschedDoes(k: Kernel, c: Cpu)
    requires KernelInv(k) && Enabled(k, Resched(c))
    ensures Does(k, Resched(c), Apply(k, Resched(c)))
  {
    hide Inv, LocksInv, FamilyInv, SleepInv, Reapers, Departing, Freed, Accounts, Schedule, Switches, Slots;
    ScheduleDoes(k.s, c);
    DrainFrees(k.s, k.f, k.r, c);
    assert k.r.slot[c := k.s.current[c]] == (k.r.slot - {c})[c := k.s.current[c]];
  }

  lemma DrainDoes(k: Kernel, c: Cpu)
    requires KernelInv(k) && Enabled(k, Drain(c))
    ensures Does(k, Drain(c), Apply(k, Drain(c)))
  {
    hide Inv, LocksInv, FamilyInv, SleepInv, Reapers, Departing, Freed, Accounts, Slots;
    DrainFrees(k.s, k.f, k.r, c);
  }

  lemma SleepDoes(k: Kernel, t: Task, deadline: nat)
    requires KernelInv(k) && Enabled(k, Sleep(t, deadline))
    ensures Does(k, Sleep(t, deadline), Apply(k, Sleep(t, deadline)))
  {
    hide Inv, LocksInv, FamilyInv, ReapInv, Parked, Inserted;
    var h := k.s.home[t];
    assert ListOk(k.s, k.z[h], h);
    ParkDoes(k.s, t, Asleep);
    var i := InsertDoes(k.z[h], Sleeper(t, deadline));
  }

  lemma ReturnDoes(k: Kernel, t: Task)
    requires KernelInv(k) && Enabled(k, LockReturn(t))
    ensures Does(k, LockReturn(t), Apply(k, LockReturn(t)))
  {
    RunningUnparked(k.s, t);
    hide Inv, FamilyInv, SleepInv, ReapInv;
    assert Locking(k.s.place, k.x, t);
  }

  lemma CreateDoes(k: Kernel, t: Task, c: Cpu)
    requires KernelInv(k) && Enabled(k, Create(t, c))
    ensures Does(k, Create(t, c), Apply(k, Create(t, c)))
    ensures forall p :: Enabled(k, ForkChild(p, t, c)) ==> Does(k, ForkChild(p, t, c), Apply(k, ForkChild(p, t, c)))
  {
    hide Inv, LocksInv, FamilyInv, SleepInv, ReapInv, Born, Spawn;
    SpawnDoes(k.s, t, c);
  }

  /** A waker's second half, an expired sleeper, and the end of a wait. */
  lemma WakersDo(k: Kernel, t: Task, c: Cpu, now: nat)
    ensures Enabled(k, Link(t)) ==> Does(k, Link(t), Apply(k, Link(t)))
    ensures Enabled(k, WakeSleeper(c, now)) ==> Does(k, WakeSleeper(c, now), Apply(k, WakeSleeper(c, now)))
    ensures Enabled(k, FreeChild(t)) ==> Does(k, FreeChild(t), Apply(k, FreeChild(t)))
  {
    hide Requeued, Woken, Enqueue, Wake;
    if Enabled(k, Link(t)) { LinkDoes(k.s, t); }
    if Enabled(k, WakeSleeper(c, now)) { WakeDoes(k.s, k.z[c][0].task); }
  }

  /** Every step does what its caller is promised. */
  lemma StepDoes(k: Kernel, e: Event)
    requires KernelInv(k) && Enabled(k, e)
    ensures Does(k, e, Apply(k, e))
  {
    hide KernelInv, Does, Apply;
    match e
    case Create(t, c) => CreateDoes(k, t, c);
    case ForkChild(p, t, c) => CreateDoes(k, t, c);
    case Resched(c) => ReschedDoes(k, c);
    case Drain(c) => DrainDoes(k, c);
    case LockCall(t, m) => LockDoes(k, t, m);
    case LockReturn(t) => ReturnDoes(k, t);
    case UnlockCall(t, m) => UnlockDoes(k, t, m);
    case Link(t) => WakersDo(k, t, 0, 0);
    case Sleep(t, deadline) => SleepDoes(k, t, deadline);
    case WakeSleeper(c, now) => WakersDo(k, 0, c, now);
    case Scan(t, want) => WaitDoes(k, t, want);
    case ScanOrPark(t, want) => WaitDoes(k, t, want);
    case FreeChild(t) => WakersDo(k, t, 0, 0);
    case Exit(t, code) => ExitDoes(k, t, code);
    case TestParent(t) => TestDoes(k, t);
    case Publish(t) => PublishDoes(k, t);
  }
}
