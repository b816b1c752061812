/**
 When dead tasks are freed too early, and when never. A wait may free a child that is still on
 its CPU; a reschedule may free a task that is still listed, namely one whose parent exited
 between the listing and the switch; and a listed task whose parent exited is never claimed.
 */
module KernelFrees {
  import opened Options
  import opened Sequences
  import opened Scheduler
  import opened Mutexes
  import opened Waiting
  import opened Sleepers
  import opened Reaping
  import opened KernelRuns
  import opened KernelLimits

  // ---- freed on its CPU, freed while listed ------------------------------------------------------------

  /** 2 exits and lists itself. */
  lemma ToListed(k: Kernel)
    requires ChildRuns(k)
    ensures var es := [Exit(2, 7), TestParent(2), Publish(2)];
      IsRun(k, es) && Heedful(k, es) && ChildListed(Run(k, es))
  {
    hide Apply, Enabled, Heeds, ChildRuns, ChildLeaving, ChildListed;
    ChildExits(k);
    var k1 := Apply(k, Exit(2, 7));
    var k2 := Apply(k1, TestParent(2));
    ChildLists(k2);
    var es := [Exit(2, 7), TestParent(2), Publish(2)];
    ThreeSteps(k, es, k1, k2, Apply(k2, Publish(2)));
    ThreeHeed(k, es, k1, k2);
  }

  ghost predicate ChildLeaving(k: Kernel) {
    && 1 in k.s.state && k.s.state[1] == Running && k.x.inLock == map[] && k.r == Reap(map[], map[], [])
    && k.f.parent == map[2 := 1] && k.f.zombies == [] && k.f.exiting == {} && k.f.publishing == {2} && 2 in k.f.code && k.f.code[2] == 7
    && 2 in k.s.state && k.s.state[2] == Zombie && 2 in k.s.home && k.s.home[2] == 1
    && 1 in k.s.rq && k.s.rq[1] == [4] && 1 in k.s.current && k.s.current[1] == 2
    && 4 in k.s.state && k.s.state[4] == Ready && 4 in k.s.home && k.s.home[4] == 1
  }

  lemma ChildExits(k: Kernel)
    requires ChildRuns(k)
    ensures Enabled(k, Exit(2, 7)) && Heeds(k, Exit(2, 7)) && Enabled(Apply(k, Exit(2, 7)), TestParent(2))
    ensures Heeds(Apply(k, Exit(2, 7)), TestParent(2)) && ChildLeaving(Apply(Apply(k, Exit(2, 7)), TestParent(2)))
  {
    assert Apply(k, Exit(2, 7)).f.parent == k.f.parent;
  }

  lemma ChildLists(k: Kernel)
    requires ChildLeaving(k)
    ensures Enabled(k, Publish(2)) && Heeds(k, Publish(2)) && ChildListed(Apply(k, Publish(2)))
  {}

  lemma ThreeHeed(k: Kernel, es: seq<Event>, k1: Kernel, k2: Kernel)
    requires |es| == 3 && IsRun(k, es) && k1 == Apply(k, es[0]) && Enabled(k1, es[1]) && k2 == Apply(k1, es[1])
    requires Heeds(k, es[0]) && Heeds(k1, es[1]) && Heeds(k2, es[2])
    ensures Heedful(k, es)
  {
    hide Apply, Enabled, Heeds;
    var e1, e2 := es[1..], es[1..][1..];
    assert e1[0] == es[1] && e2[0] == es[2] && e2[1..] == [];
    assert Heedful(k2, e2) && Heedful(k1, e1);
  }

  ghost predicate ChildListed(k: Kernel) {
    && 1 in k.s.state && k.s.state[1] == Running && k.x.inLock == map[] && k.r == Reap(map[], map[], [])
    && k.f.parent == map[2 := 1] && k.f.zombies == [2] && k.f.exiting == {} && k.f.publishing == {} && 2 in k.f.code && k.f.code[2] == 7
    && 2 in k.s.state && k.s.state[2] == Zombie && 2 in k.s.home && k.s.home[2] == 1
    && 1 in k.s.rq && k.s.rq[1] == [4] && 1 in k.s.current && k.s.current[1] == 2
    && 4 in k.s.state && k.s.state[4] == Ready && 4 in k.s.home && k.s.home[4] == 1
  }

  /** From boot, by steps that heed, to a wait that frees its child under the child's CPU. */
  lemma FreedOnCpu()
    ensures var es := Start() + [Exit(2, 7), TestParent(2), Publish(2)] + [Scan(1, 0), FreeChild(1)];
      IsRun(Three(), es) && 2 in Run(Three(), es).r.freed && 1 in Run(Three(), es).s.current && Run(Three(), es).s.current[1] == 2
  {
    hide KernelInv, Apply, Enabled, IsRun, Run, ChildRuns, Heedful, Three, ChildListed;
    var a, b, d := Start(), [Exit(2, 7), TestParent(2), Publish(2)], [Scan(1, 0), FreeChild(1)];
    ForkReached();
    ToListed(Run(Three(), a));
    RunsJoin(Three(), a, b);
    FreesRunning(Run(Three(), a + b));
    RunsJoin(Three(), a + b, d);
  }

  lemma FreesRunning(k: Kernel)
    requires ChildListed(k)
    ensures var es := [Scan(1, 0), FreeChild(1)];
      IsRun(k, es) && 2 in Run(k, es).r.freed && 1 in Run(k, es).s.current && Run(k, es).s.current[1] == 2
  {
    assert FirstMatch(k.f, [2], 1, 0) == Some(2);
    var k1 := Apply(k, Scan(1, 0));
    var k2 := Apply(k1, FreeChild(1));
    var es := [Scan(1, 0), FreeChild(1)];
    TwoSteps(k, es, k1, k2);
  }

  lemma TwoSteps(k: Kernel, es: seq<Event>, k1: Kernel, k2: Kernel)
    requires |es| == 2 && Enabled(k, es[0]) && k1 == Apply(k, es[0]) && Enabled(k1, es[1]) && k2 == Apply(k1, es[1])
    ensures IsRun(k, es) && Run(k, es) == k2
  {
    hide Apply, Enabled;
    var e1 := es[1..];
    assert e1[0] == es[1] && e1[1..] == [];
    assert IsRun(k2, []) && Run(k2, []) == k2;
    assert IsRun(k1, e1) && Run(k1, e1) == k2;
  }

  /** From boot, by steps that heed, to a reschedule that frees a task still on the zombie list. */
  lemma FreedWhileListed()
    ensures var es := Start() + [Exit(2, 7), TestParent(2), Publish(2)] + [Exit(1, 0), Resched(1), Drain(1)];
      IsRun(Three(), es) && 2 in Run(Three(), es).r.freed && 2 in Run(Three(), es).f.zombies
  {
    hide KernelInv, Apply, Enabled, IsRun, Run, ChildRuns, Heedful, Three, ChildListed;
    var a, b, d := Start(), [Exit(2, 7), TestParent(2), Publish(2)], [Exit(1, 0), Resched(1), Drain(1)];
    ForkReached();
    ToListed(Run(Three(), a));
    RunsJoin(Three(), a, b);
    FreesListed(Run(Three(), a + b));
    RunsJoin(Three(), a + b, d);
  }

  lemma FreesListed(k: Kernel)
    requires ChildListed(k)
    ensures var es := [Exit(1, 0), Resched(1), Drain(1)];
      IsRun(k, es) && 2 in Run(k, es).r.freed && 2 in Run(k, es).f.zombies
  {
    var k1 := Apply(k, Exit(1, 0));
    assert 2 !in k1.f.parent;
    var k2 := Apply(k1, Resched(1));
    var k3 := Apply(k2, Drain(1));
    ThreeSteps(k, [Exit(1, 0), Resched(1), Drain(1)], k1, k2, k3);
  }

  // ---- which listed tasks are freed by a reschedule -----------------------------------------------------

  /** z is listed and nobody will claim it. */
  predicate Stray(k: Kernel, z: Task) { z in k.f.zombies && z !in k.f.parent }

  /** A stray that a reschedule of its CPU frees although it is listed. */
  predicate Doomed(k: Kernel, z: Task) { Stray(k, z) && (OnCpu(k.s, z) || InSlot(k.s, k.r, z)) }

  /** The parent exits while z is listed. */
  predicate Strands(k: Kernel, e: Event, z: Task) {
    e.Exit? && z in k.f.zombies && z in k.f.parent && k.f.parent[z] == e.t
  }

  /** A listed task is claimable until its parent exits, and never again. */
  lemma StrayExact(k: Kernel, e: Event, z: Task)
    requires KernelInv(k) && Enabled(k, e)
    ensures Stray(Apply(k, e), z) <==> Stray(k, z) || Strands(k, e, z)
  {
    hide KernelInv, Schedule, Spawn, Lock, Unlock, Enqueue, Inserted, Park, Wake, Kill, Held, FreeClaimed, Drained, Filled;
    ListedKnown(k, z);
    match e
    case Scan(t, want) => ScanStray(k, t, want, z);
    case ScanOrPark(t, want) => ScanStray(k, t, want, z);
    case _ =>
  }

  lemma ListedKnown(k: Kernel, z: Task)
    requires KernelInv(k)
    ensures NoDup(k.f.zombies)
    ensures z in k.f.zombies ==> z in k.s.home && z in k.s.state && k.s.state[z] == Zombie && !Leaving(k.f, z)
  {
    KeysAgree(k.s);
    assert z in k.f.zombies ==> Dead(k.s, k.f, z);
    hide Inv, LocksInv, SleepInv, ReapInv, ClaimsOk, NoneMissed;
  }

  lemma ScanStray(k: Kernel, t: Task, want: nat, z: Task)
    requires NoDup(k.f.zombies)
    ensures var g := WaitScan(k.f, t, want); z in g.zombies && z !in g.parent <==> Stray(k, z)
  {
    FirstMatchMeaning(k.f, k.f.zombies, t, want);
    var y := FirstMatch(k.f, k.f.zombies, t, want);
    if y.Some? { RemoveMembers(k.f.zombies, y.value); }
  }

  /** A task is doomed exactly by its parent's exit between its listing and its leaving the CPU. */
  lemma DoomedExact(k: Kernel, e: Event, z: Task)
    requires KernelInv(k) && Enabled(k, e) && Heeds(k, e)
    ensures Doomed(Apply(k, e), z) <==> Doomed(k, z) || (Strands(k, e, z) && OnCpu(k.s, z))
  {
    hide KernelInv, Apply, OnCpu, InSlot;
    StrayExact(k, e, z);
    ListedKnown(k, z);
    if Stray(k, z) { WhereStays(k, e, z); }
    if Strands(k, e, z) { ExitLeaves(k, e.t, e.code, z); }
  }

  lemma ExitLeaves(k: Kernel, t: Task, code: nat, z: Task)
    requires KernelInv(k) && Enabled(k, Exit(t, code)) && z in k.f.parent
    ensures var n := Apply(k, Exit(t, code)); (OnCpu(n.s, z) <==> OnCpu(k.s, z)) && !InSlot(n.s, n.r, z)
  {
    hide Inv, LocksInv, FamilyInv, SleepInv;
    SlotsHold(k.s, k.f, k.r, z);
  }

  /** A stray on its CPU or in the slot goes from the one to the other, and out only by a drain that frees it. */
  lemma WhereStays(k: Kernel, e: Event, z: Task)
    requires KernelInv(k) && Enabled(k, e) && Heeds(k, e) && Stray(k, z)
    ensures var n := Apply(k, e); OnCpu(n.s, z) || InSlot(n.s, n.r, z) <==> OnCpu(k.s, z) || InSlot(k.s, k.r, z)
  {
    hide KernelInv, Schedule, Inserted, FirstMatch;
    ListedKnown(k, z);
    if e.Resched? { ReschedMoves(k, e.c, z); }
  }

  lemma ReschedMoves(k: Kernel, c: Cpu, z: Task)
    requires KernelInv(k) && Enabled(k, Resched(c)) && Heeds(k, Resched(c)) && Stray(k, z)
    requires z in k.s.home && z in k.s.state && k.s.state[z] == Zombie
    ensures var n := Apply(k, Resched(c)); OnCpu(n.s, z) || InSlot(n.s, n.r, z) <==> OnCpu(k.s, z) || InSlot(k.s, k.r, z)
  {
    hide Inv, LocksInv, FamilyInv, SleepInv, ReapInv, Schedule;
    ScheduleSwitches(k.s, c);
    assert Corpse(k.s, z);
  }

  /** The run strands z while it is on its CPU. */
  predicate Overtaken(k: Kernel, es: seq<Event>, z: Task)
    requires IsRun(k, es)
    decreases |es|
  {
    es != [] && ((Strands(k, es[0], z) && OnCpu(k.s, z)) || Overtaken(Apply(k, es[0]), es[1..], z))
  }

  lemma {:induction false} DoomedRun(k: Kernel, es: seq<Event>, z: Task)
    requires KernelInv(k) && IsRun(k, es) && Heedful(k, es)
    ensures Doomed(Run(k, es), z) <==> Doomed(k, z) || Overtaken(k, es, z)
    decreases |es|
  {
    hide KernelInv, Apply, Enabled, Heeds, Doomed, Strands, OnCpu;
    if es != [] {
      DoomedExact(k, es[0], z);
      StepKeeps(k, es[0]);
      DoomedRun(Apply(k, es[0]), es[1..], z);
    }
  }

  /**
   After any heedful run from a state without listed tasks, a reschedule may free what is in the
   slot of its CPU if and only if that task's parent did not exit between the task's listing and
   its leaving the CPU.
   */
  lemma SlotExact(k: Kernel, es: seq<Event>, c: Cpu)
    requires KernelInv(k) && IsRun(k, es) && Heedful(k, es) && k.f.zombies == [] && c in Run(k, es).r.slot
    ensures Run(k, es).r.slot[c] in Run(k, es).f.zombies <==> Overtaken(k, es, Run(k, es).r.slot[c])
  {
    EveryRunKeeps(k, es);
    hide IsRun, Run, Heedful, Overtaken, Inv, LocksInv, FamilyInv, SleepInv;
    var n := Run(k, es);
    DoomedRun(k, es, n.r.slot[c]);
    assert SlotOk(n.s, n.f, n.r, c);
  }

  /** A listed task whose parent is gone stays listed for good, and no wait returns it. */
  lemma {:induction false} StrayForever(k: Kernel, es: seq<Event>, z: Task)
    requires KernelInv(k) && IsRun(k, es) && Heedful(k, es) && Stray(k, z)
    ensures Stray(Run(k, es), z) && !Claimed(Run(k, es).f, z)
    decreases |es|
  {
    hide KernelInv, Apply, Enabled, Heeds, Stray, Claimed;
    if es == [] {
      NotClaimed(k, z);
    } else {
      StrayExact(k, es[0], z);
      StepKeeps(k, es[0]);
      StrayForever(Apply(k, es[0]), es[1..], z);
    }
  }

  lemma NotClaimed(k: Kernel, z: Task)
    requires KernelInv(k) && Stray(k, z)
    ensures !Claimed(k.f, z)
  {
    hide Inv, LocksInv, SleepInv, ReapInv, Dead, Claimed;
  }

  /** In every heedful run, what has been freed was freed once and is nowhere: its memory may be used again. */
  lemma FreedIsGone(k: Kernel, es: seq<Event>, z: Task, c: Cpu, m: nat)
    requires KernelInv(k) && IsRun(k, es) && Heedful(k, es) && z in Run(k, es).r.freed
    ensures var n := Run(k, es);
      && NoDup(n.r.freed) && Nowhere(n.s, n.f, n.r, z) && z !in n.s.place
      && (c in n.s.current ==> n.s.current[c] != z && c in n.s.rq && z !in n.s.rq[c])
      && (m in n.x.mutex ==> z !in n.x.mutex[m].queue)
      && (c in n.z ==> z !in Tasks(n.z[c]))
  {
    EveryRunKeeps(k, es);
    hide IsRun, Run, Heedful;
    var n := Run(k, es);
    FreedState(n, z, c);
    NotLinked(n, z, c, m);
  }

  lemma FreedState(n: Kernel, z: Task, c: Cpu)
    requires KernelInv(n) && z in n.r.freed
    ensures NoDup(n.r.freed) && Nowhere(n.s, n.f, n.r, z) && z !in n.s.place
    ensures z in n.s.home && n.s.state.Keys == n.s.home.Keys && n.s.state[z] == Zombie
    ensures c in n.s.current ==> n.s.current[c] != z && c in n.s.rq && z !in n.s.rq[c]
  {
    hide LocksInv, FamilyInv, SleepInv, Slots, Reapers, Accounts;
    assert Corpse(n.s, z) && Nowhere(n.s, n.f, n.r, z);
    assert TaskOk(n.s, z);
    OffQueues(n.s, z);
    if c in n.s.current { Current(n.s, c); }
  }

  lemma NotLinked(n: Kernel, z: Task, c: Cpu, m: nat)
    requires KernelInv(n) && z !in n.s.place
    ensures m in n.x.mutex ==> z !in n.x.mutex[m].queue
    ensures c in n.z ==> z !in Tasks(n.z[c])
  {
    hide Inv, FamilyInv, ReapInv;
    assert m in n.x.mutex ==> MutexOk(n.s.place, n.x, m);
    assert !Waits(n.s.place, n.x, m, z);
    assert c in n.z ==> ListOk(n.s, n.z[c], c);
    assert !SleepsOn(n.s, c, z);
  }

  /** In every heedful run, whoever is dead is on the way out, listed, claimed, in a reap slot or freed. */
  lemma DeadAccounted(k: Kernel, es: seq<Event>, z: Task)
    requires KernelInv(k) && IsRun(k, es) && Heedful(k, es) && Corpse(Run(k, es).s, z)
    ensures var n := Run(k, es); Accounted(n.s, n.f, n.r, z)
  {
    EveryRunKeeps(k, es);
    hide IsRun, Run, Heedful, Inv, LocksInv, FamilyInv, SleepInv, Corpse, Accounted;
  }
}
