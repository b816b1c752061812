/**
 Who is served when, over whole runs on any number of CPUs: run queues and mutex queues are
 served strictly in order, no queue is ever stuck behind an idle CPU, and a dead child waits on
 the list for its parent and nobody else.
 */
module KernelTurns {
  import opened Options
  import opened Scheduler
  import opened Mutexes
  import opened Waiting
  import opened Sleepers
  import opened Reaping
  import opened KernelRuns
  import opened KernelSteps

  // ---- run queues -----------------------------------------------------------------------------

  /** How often CPU c reschedules. */
  function Turns(es: seq<Event>, c: Cpu): nat {
    if es == [] then 0 else (if es[0] == Resched(c) then 1 else 0) + Turns(es[1..], c)
  }

  /** A reschedule takes the head; everything else at most appends. */
  lemma QueueMoves(k: Kernel, e: Event, c: Cpu)
    requires KernelInv(k) && Enabled(k, e) && c in k.s.rq
    ensures var n := Apply(k, e);
      && c in n.s.rq
      && (e == Resched(c) ==> k.s.rq[c] != [] && k.s.rq[c][1..] <= n.s.rq[c] && c in n.s.current && n.s.current[c] == k.s.rq[c][0])
      && (e != Resched(c) ==> k.s.rq[c] <= n.s.rq[c])
  {
    hide KernelInv, Apply, Enabled, OthersSame, SameTask, Claims, Reaped;
    StepDoes(k, e);
  }

  /** The task at place i of a queue moves up one place with every reschedule of that CPU. */
  lemma {:induction false} MovesUp(k: Kernel, es: seq<Event>, c: Cpu, i: nat)
    requires KernelInv(k) && IsRun(k, es) && Heedful(k, es) && c in k.s.rq && Turns(es, c) <= i < |k.s.rq[c]|
    ensures var n := Run(k, es);
      c in n.s.rq && i - Turns(es, c) < |n.s.rq[c]| && n.s.rq[c][i - Turns(es, c)] == k.s.rq[c][i]
    decreases |es|
  {
    hide KernelInv, Apply, Enabled, Heeds;
    if es != [] {
      StepKeeps(k, es[0]);
      QueueMoves(k, es[0], c);
      MovesUp(Apply(k, es[0]), es[1..], c, if es[0] == Resched(c) then i - 1 else i);
    }
  }

  /** The task at place i of a queue runs at exactly the (i + 1)st reschedule of that CPU. */
  lemma {:induction false} RunsInTurn(k: Kernel, es: seq<Event>, c: Cpu, i: nat)
    requires KernelInv(k) && IsRun(k, es) && Heedful(k, es) && c in k.s.rq && i < |k.s.rq[c]|
    requires es != [] && es[|es| - 1] == Resched(c) && Turns(es, c) == i + 1
    ensures var n := Run(k, es); c in n.s.current && n.s.current[c] == k.s.rq[c][i]
    decreases |es|
  {
    hide KernelInv, Apply, Enabled, Heeds;
    StepKeeps(k, es[0]);
    QueueMoves(k, es[0], c);
    if |es| == 1 {
      assert es[1..] == [];
    } else {
      assert es[1..][|es| - 2] == es[|es| - 1];
      if es[0] == Resched(c) && i == 0 { LastTurn(es[1..], c); }
      RunsInTurn(Apply(k, es[0]), es[1..], c, if es[0] == Resched(c) then i - 1 else i);
    }
  }

  lemma {:induction false} LastTurn(es: seq<Event>, c: Cpu)
    requires es != [] && es[|es| - 1] == Resched(c)
    ensures Turns(es, c) > 0
    decreases |es|
  {
    if |es| > 1 { LastTurn(es[1..], c); }
  }

  /**
   A CPU with a queued task can go on: it reschedules, or its current task goes on with its exit.
   The only task that cannot is one whose parent has vanished between test and use.
   */
  lemma CpuGoesOn(k: Kernel, c: Cpu)
    requires KernelInv(k) && c in k.s.current && c in k.s.rq && k.s.rq[c] != []
    ensures var t := k.s.current[c];
      || Enabled(k, Resched(c)) || Enabled(k, TestParent(t)) || Enabled(k, Publish(t))
      || (t in k.f.publishing && t !in k.f.parent)
  {
    hide Inv, LocksInv, FamilyInv, SleepInv, ReapInv;
    Current(k.s, c);
  }

  /** Whoever was woken can be linked, and whoever sleeps past its deadline at a head can be woken. */
  lemma WakersGoOn(k: Kernel, t: Task, c: Cpu, now: nat)
    requires KernelInv(k)
    ensures t in k.s.transit ==> Enabled(k, Link(t))
    ensures c in k.z && k.z[c] != [] && k.z[c][0].deadline <= now ==> Enabled(k, WakeSleeper(c, now))
  {
    hide LocksInv, FamilyInv, SleepInv, ReapInv;
    if t in k.s.transit { HomeQueue(k.s, t); }
  }

  /** A task on its CPU and outside any blocking call may make any call the kernel offers. */
  lemma CallersGoOn(k: Kernel, t: Task, m: nat, want: nat, x: nat)
    requires KernelInv(k) && t in k.s.state && k.s.state[t] == Running && t !in k.x.inLock && t !in k.r.reaping
    ensures Enabled(k, Sleep(t, x)) && Enabled(k, Scan(t, want)) && Enabled(k, ScanOrPark(t, want)) && Enabled(k, Exit(t, x))
    ensures m in k.x.mutex && k.x.mutex[m].owner != Some(t) ==> Enabled(k, LockCall(t, m))
    ensures (m, t) in k.x.holding ==> Enabled(k, UnlockCall(t, m))
  {
    hide KernelInv;
    AtHome(k, t);
    if m in k.x.mutex { MutexKnown(k, m); }
    if (m, t) in k.x.holding { HolderOwns(k, m, t); }
  }

  lemma AtHome(k: Kernel, t: Task)
    requires KernelInv(k) && t in k.s.state && k.s.state[t] == Running
    ensures t in k.s.home && k.s.home[t] in k.z
  {
    hide LocksInv, FamilyInv, ReapInv;
    RunningUnparked(k.s, t);
    HomeQueue(k.s, t);
  }

  lemma MutexKnown(k: Kernel, m: nat)
    requires KernelInv(k) && m in k.x.mutex
    ensures m in k.x.arrived && m in k.x.granted
  {
    hide Inv, FamilyInv, SleepInv, ReapInv, Waits, Engaged;
    assert MutexOk(k.s.place, k.x, m);
  }

  lemma HolderOwns(k: Kernel, m: nat, t: Task)
    requires KernelInv(k) && (m, t) in k.x.holding
    ensures m in k.x.mutex && m in k.x.granted
  {
    assert Holder(k.x, m, t) by { hide Inv, FamilyInv, SleepInv, ReapInv, MutexOk; }
    MutexKnown(k, m);
  }

  // ---- mutexes ----------------------------------------------------------------------------------

  /** How often mutex m is unlocked. */
  function Unlocks(es: seq<Event>, m: nat): nat {
    if es == [] then 0 else (if es[0].UnlockCall? && es[0].m == m then 1 else 0) + Unlocks(es[1..], m)
  }

  /** An unlock takes the first waiter; everything else at most appends. */
  lemma WaitersMove(k: Kernel, e: Event, m: nat)
    requires KernelInv(k) && Enabled(k, e) && m in k.x.mutex && k.x.mutex[m].queue != []
    ensures var n := Apply(k, e); var q := k.x.mutex[m].queue;
      && m in n.x.mutex
      && (e.UnlockCall? && e.m == m ==> q[1..] <= n.x.mutex[m].queue && Owns(n.x, m, q[0]))
      && (!(e.UnlockCall? && e.m == m) ==> q <= n.x.mutex[m].queue)
  {
    hide KernelInv, Apply, Enabled, Parked, Woken, Owns;
    QueueLocked(k, m);
    MutexesMove(k, e);
    var n := Apply(k, e);
    if e.UnlockCall? && e.m == m {
      assert UnlockDone(k, n, e.t, m);
    } else if e.UnlockCall? {
      assert UnlockDone(k, n, e.t, e.m);
    } else if e.LockCall? {
      assert LockDone(k, n, e.t, e.m);
    }
  }

  lemma QueueLocked(k: Kernel, m: nat)
    requires KernelInv(k) && m in k.x.mutex && k.x.mutex[m].queue != []
    ensures k.x.mutex[m].locked
  {
    hide Inv, FamilyInv, SleepInv, ReapInv, Waits, Engaged;
    assert MutexOk(k.s.place, k.x, m);
  }

  /** Only lock and unlock calls change a mutex. */
  lemma MutexesMove(k: Kernel, e: Event)
    requires KernelInv(k) && Enabled(k, e)
    ensures var n := Apply(k, e);
      match e
      case LockCall(t, m) => LockDone(k, n, t, m)
      case UnlockCall(t, m) => UnlockDone(k, n, t, m)
      case _ => n.x.mutex == k.x.mutex
  {
    hide KernelInv, Apply, Enabled, Claims, Reaped, Parked, Woken, Switches, Born, LockDone, UnlockDone, Requeued, ExitDone, PublishDone;
    StepDoes(k, e);
  }

  lemma {:induction false} WaiterMovesUp(k: Kernel, es: seq<Event>, m: nat, i: nat)
    requires KernelInv(k) && IsRun(k, es) && Heedful(k, es) && m in k.x.mutex && Unlocks(es, m) <= i < |k.x.mutex[m].queue|
    ensures var x := Run(k, es).x;
      m in x.mutex && i - Unlocks(es, m) < |x.mutex[m].queue| && x.mutex[m].queue[i - Unlocks(es, m)] == k.x.mutex[m].queue[i]
    decreases |es|
  {
    hide KernelInv, Apply, Enabled, Heeds;
    if es != [] {
      StepKeeps(k, es[0]);
      WaitersMove(k, es[0], m);
      WaiterMovesUp(Apply(k, es[0]), es[1..], m, if es[0].UnlockCall? && es[0].m == m then i - 1 else i);
    }
  }

  /** The waiter at place i of a mutex owns it after exactly the (i + 1)st unlock. */
  lemma {:induction false} OwnsInTurn(k: Kernel, es: seq<Event>, m: nat, i: nat)
    requires KernelInv(k) && IsRun(k, es) && Heedful(k, es) && m in k.x.mutex && i < |k.x.mutex[m].queue|
    requires es != [] && es[|es| - 1].UnlockCall? && es[|es| - 1].m == m && Unlocks(es, m) == i + 1
    ensures Owns(Run(k, es).x, m, k.x.mutex[m].queue[i])
    decreases |es|
  {
    hide KernelInv, Apply, Enabled, Heeds, Owns;
    StepKeeps(k, es[0]);
    WaitersMove(k, es[0], m);
    if |es| == 1 {
      assert es[1..] == [];
    } else {
      assert es[1..][|es| - 2] == es[|es| - 1];
      var handsOver := es[0].UnlockCall? && es[0].m == m;
      if handsOver && i == 0 { LastUnlock(es[1..], m); }
      OwnsInTurn(Apply(k, es[0]), es[1..], m, if handsOver then i - 1 else i);
    }
  }

  lemma {:induction false} LastUnlock(es: seq<Event>, m: nat)
    requires es != [] && es[|es| - 1].UnlockCall? && es[|es| - 1].m == m
    ensures Unlocks(es, m) > 0
    decreases |es|
  {
    if |es| > 1 { LastUnlock(es[1..], m); }
  }

  // ---- dead children -------------------------------------------------------------------------------

  /** Some claim from the i-th on is of z, by the parent it was created with. */
  ghost predicate ClaimedFrom(f: Family, i: nat, z: Task) {
    exists j :: i <= j < |f.claims| && f.claims[j].child == z
  }

  /** The list loses what a wait claims, and nothing else. */
  lemma ListMoves(k: Kernel, e: Event)
    requires KernelInv(k) && Enabled(k, e)
    ensures var n := Apply(k, e);
      || ((e.Scan? || e.ScanOrPark?) && Claims(k, n, e.t, e.want))
      || (n.f.claims == k.f.claims && (n.f.zombies == k.f.zombies || (e.Publish? && n.f.zombies == [e.t] + k.f.zombies)))
  {
    hide KernelInv, Apply, Enabled, Reaped, Parked, Woken, Switches, Born, LockDone, UnlockDone, Requeued, Claims;
    StepDoes(k, e);
  }

  lemma ClaimMoves(k: Kernel, e: Event, z: Task)
    requires KernelInv(k) && Enabled(k, e) && z in k.f.zombies
    ensures var g := Apply(k, e).f; k.f.claims <= g.claims && (z in g.zombies || ClaimedFrom(g, |k.f.claims|, z))
  {
    hide KernelInv, Apply, Enabled, Claims;
    ListMoves(k, e);
    var n := Apply(k, e);
    if (e.Scan? || e.ScanOrPark?) && Claims(k, n, e.t, e.want) { TakenOut(k, n, e.t, e.want, z); }
  }

  lemma TakenOut(k: Kernel, n: Kernel, p: Task, want: nat, z: Task)
    requires Claims(k, n, p, want) && z in k.f.zombies
    ensures k.f.claims <= n.f.claims && (z in n.f.zombies || ClaimedFrom(n.f, |k.f.claims|, z))
  {
    hide Candidate;
    var i: nat :| i < |k.f.zombies| && ClaimsAt(k, n, p, want, i);
    if z == k.f.zombies[i] {
      assert n.f.claims[|k.f.claims|].child == z;
    } else {
      var j :| 0 <= j < |k.f.zombies| && k.f.zombies[j] == z;
      assert z == n.f.zombies[if j < i then j else j - 1];
    }
  }

  /** A listed task stays listed until a wait claims it. */
  lemma {:induction false} ListedOrClaimed(k: Kernel, es: seq<Event>, z: Task)
    requires KernelInv(k) && IsRun(k, es) && Heedful(k, es) && z in k.f.zombies
    ensures var g := Run(k, es).f; k.f.claims <= g.claims && (z in g.zombies || ClaimedFrom(g, |k.f.claims|, z))
    decreases |es|
  {
    hide KernelInv, Apply, Enabled, Heeds;
    if es != [] {
      StepKeeps(k, es[0]);
      ClaimMoves(k, es[0], z);
      var n := Apply(k, es[0]);
      if z in n.f.zombies {
        ListedOrClaimed(n, es[1..], z);
      } else {
        ClaimsGrow(n, es[1..]);
        var j :| |k.f.claims| <= j < |n.f.claims| && n.f.claims[j].child == z;
        assert Run(k, es).f.claims[j].child == z;
      }
    }
  }

  lemma {:induction false} ClaimsGrow(k: Kernel, es: seq<Event>)
    requires KernelInv(k) && IsRun(k, es) && Heedful(k, es)
    ensures k.f.claims <= Run(k, es).f.claims
    decreases |es|
  {
    hide KernelInv, Apply, Enabled, Heeds;
    if es != [] {
      StepKeeps(k, es[0]);
      ClaimsStep(k, es[0]);
      ClaimsGrow(Apply(k, es[0]), es[1..]);
    }
  }

  lemma ClaimsStep(k: Kernel, e: Event)
    requires KernelInv(k) && Enabled(k, e)
    ensures k.f.claims <= Apply(k, e).f.claims
  {
    hide KernelInv, Apply, Enabled, Candidate;
    ListMoves(k, e);
  }
}
