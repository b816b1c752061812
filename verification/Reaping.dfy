/**
 How dead tasks are freed. A wait frees the zombie it has claimed; a reschedule frees what an
 earlier one left in the CPU's reap slot, and leaves there a dead task that has no parent.
 Freeing unmaps the task's stack and gives its record back, so it must be nowhere by then.
 */
module Reaping {
  import opened Options
  import opened Sequences
  import opened Scheduler
  import opened Waiting

  datatype Reap = Reap(
    slot: map<Cpu, Task>,       // pending_reap of each CPU
    reaping: map<Task, Task>,   // what a wait has claimed and is about to free
    freed: seq<Task>)           // history: every task freed, in order

  // ---- steps ------------------------------------------------------------------------------

  /** What a scan of the list claims. */
  function Taken(f: Family, p: Task, want: nat): Option<Task> {
    var z := FirstMatch(f, f.zombies, p, want);
    if z.Some? && z.value in f.code then z else None
  }

  function Held(r: Reap, f: Family, p: Task, want: nat): Reap {
    var z := Taken(f, p, want);
    if z.Some? then r.(reaping := r.reaping[p := z.value]) else r
  }

  /** free_dead_task by the wait that claimed the task. */
  function FreeClaimed(r: Reap, p: Task): Reap
    requires p in r.reaping
  {
    r.(reaping := r.reaping - {p}, freed := r.freed + [r.reaping[p]])
  }

  /** drain_pending_reap: a task with a living parent is left to that parent. */
  function Drained(s: Sched, f: Family, r: Reap, c: Cpu): Reap {
    if c !in r.slot then r
    else
      var z := r.slot[c];
      var parented := z in f.parent && !(f.parent[z] in s.state && s.state[f.parent[z]] == Zombie);
      r.(slot := r.slot - {c}, freed := if parented then r.freed else r.freed + [z])
  }

  /** The end of schedule(): a dead task without a parent goes to the slot of the CPU it leaves. */
  function Filled(s: Sched, f: Family, r: Reap, c: Cpu): Reap
    requires c in s.current && s.current[c] in s.state
  {
    var prev := s.current[c];
    if s.state[prev] == Zombie && prev !in f.parent then r.(slot := r.slot[c := prev]) else r
  }

  // ---- the invariant -------------------------------------------------------------------------

  predicate Corpse(s: Sched, z: Task) { z in s.state && s.state[z] == Zombie && z in s.home }

  /** z is still what its CPU runs. */
  predicate OnCpu(s: Sched, z: Task) {
    z in s.home && s.home[z] in s.current && s.current[s.home[z]] == z
  }

  predicate InSlot(s: Sched, r: Reap, z: Task) {
    z in s.home && s.home[z] in r.slot && r.slot[s.home[z]] == z
  }

  /** Its parent has claimed z and is about to free it. */
  predicate BeingReaped(f: Family, r: Reap, z: Task) {
    z in f.parent && f.parent[z] in r.reaping && r.reaping[f.parent[z]] == z
  }

  predicate Leaving(f: Family, z: Task) { z in f.exiting || z in f.publishing }

  /** Nothing of the kernel refers to z: no CPU, no list, no slot, no wait and no child. */
  ghost predicate Nowhere(s: Sched, f: Family, r: Reap, z: Task) {
    && !OnCpu(s, z) && z !in f.zombies && !Leaving(f, z)
    && (forall c :: c in r.slot ==> r.slot[c] != z)
    && (forall t :: t in r.reaping ==> r.reaping[t] != z)
    && (forall x :: x in f.parent ==> f.parent[x] != z)
  }

  ghost predicate SlotOk(s: Sched, f: Family, r: Reap, c: Cpu)
    requires c in r.slot
  {
    var z := r.slot[c];
    Corpse(s, z) && s.home[z] == c && !OnCpu(s, z) && !Leaving(f, z) && z !in f.parent && z !in r.freed
  }

  ghost predicate ReapOk(s: Sched, f: Family, r: Reap, t: Task)
    requires t in r.reaping
  {
    var z := r.reaping[t];
    Corpse(s, z) && BeingReaped(f, r, z) && f.parent[z] == t && !Leaving(f, z) && z !in f.zombies && z !in r.freed
  }

  /** Where a dead task may be. */
  ghost predicate Accounted(s: Sched, f: Family, r: Reap, z: Task) {
    || Leaving(f, z) || z in f.zombies || BeingReaped(f, r, z) || InSlot(s, r, z) || z in r.freed
    || (OnCpu(s, z) && z !in f.parent)
  }

  ghost predicate Alive(s: Sched, p: Task) { p in s.state && s.state[p] != Zombie }

  /** The child of claim i has been freed or is about to be. */
  ghost predicate Settled(f: Family, r: Reap, i: nat)
    requires i < |f.claims|
  {
    var z := f.claims[i].child;
    z in r.freed || BeingReaped(f, r, z)
  }

  ghost predicate Slots(s: Sched, f: Family, r: Reap) { forall c :: c in r.slot ==> SlotOk(s, f, r, c) }

  ghost predicate Reapers(s: Sched, f: Family, r: Reap) { forall t :: t in r.reaping ==> ReapOk(s, f, r, t) }

  ghost predicate Parents(s: Sched, f: Family) { forall x :: x in f.parent ==> Alive(s, f.parent[x]) && x in s.state }

  ghost predicate Departing(s: Sched, f: Family) {
    forall z :: Leaving(f, z) ==> Corpse(s, z) && OnCpu(s, z)
  }

  /** Freed once, and gone. */
  ghost predicate Freed(s: Sched, f: Family, r: Reap) {
    NoDup(r.freed) && forall z :: z in r.freed ==> Corpse(s, z) && Nowhere(s, f, r, z)
  }

  ghost predicate Accounts(s: Sched, f: Family, r: Reap) {
    && (forall z :: Corpse(s, z) ==> Accounted(s, f, r, z))
    && (forall i: nat :: i < |f.claims| ==> Settled(f, r, i))
  }

  ghost predicate ReapInv(s: Sched, f: Family, r: Reap) {
    Slots(s, f, r) && Reapers(s, f, r) && Parents(s, f) && Departing(s, f) && Freed(s, f, r) && Accounts(s, f, r)
  }

  // ---- steps that free nothing -------------------------------------------------------------------

  /** The dead are the same, where they were; the living stay alive. */
  ghost predicate SameDead(s: Sched, n: Sched) {
    && (forall x :: Corpse(n, x) <==> Corpse(s, x))
    && (forall x :: Corpse(s, x) ==> n.home[x] == s.home[x] && (OnCpu(n, x) <==> OnCpu(s, x)))
    && (forall x :: Alive(s, x) ==> Alive(n, x))
    && s.state.Keys <= n.state.Keys
  }

  /** A step of a living task that stays alive. */
  lemma LivingStep(s: Sched, n: Sched, t: Task)
    requires n.home == s.home && n.current == s.current && t in s.state && s.state[t] != Zombie
    requires t in n.state && n.state == s.state[t := n.state[t]] && n.state[t] != Zombie
    ensures SameDead(s, n)
  {}

  lemma SameDeadStates(s: Sched, n: Sched)
    requires n.home == s.home && n.current == s.current && n.state == s.state
    ensures SameDead(s, n)
  {}

  lemma SpawnStep(s: Sched, t: Task, c: Cpu)
    requires t !in s.state && t !in s.home && c in s.rq
    ensures SameDead(s, Spawn(s, t, c))
  {}

  lemma ReapFrame(s: Sched, n: Sched, f: Family, r: Reap)
    requires ReapInv(s, f, r) && SameDead(s, n)
    ensures ReapInv(n, f, r)
  {
    hide OnCpu, Alive;
    forall c | c in r.slot ensures SlotOk(n, f, r, c) { assert SlotOk(s, f, r, c); }
    forall t | t in r.reaping ensures ReapOk(n, f, r, t) { assert ReapOk(s, f, r, t); }
    forall z | Corpse(n, z) ensures Accounted(n, f, r, z) { assert Accounted(s, f, r, z); }
  }

  /** A new child of a living task. */
  lemma ForkReap(s: Sched, n: Sched, f: Family, r: Reap, p: Task, t: Task)
    requires ReapInv(s, f, r) && SameDead(s, n) && Alive(s, p) && t !in s.state && t in n.state
    ensures ReapInv(n, Fork(f, p, t), r)
  {
    hide OnCpu;
    ReapFrame(s, n, f, r);
    var g := Fork(f, p, t);
    forall c | c in r.slot ensures SlotOk(n, g, r, c) { assert SlotOk(n, f, r, c) && SlotOk(s, f, r, c); }
    forall u | u in r.reaping ensures ReapOk(n, g, r, u) { assert ReapOk(n, f, r, u) && ReapOk(s, f, r, u); }
    forall z | BeingReaped(f, r, z) ensures BeingReaped(g, r, z) { assert ReapOk(s, f, r, f.parent[z]); }
    forall z | Corpse(n, z) ensures Accounted(n, g, r, z) { assert Accounted(n, f, r, z); }
    forall i: nat | i < |g.claims| ensures Settled(g, r, i) { assert Settled(f, r, i); }
  }

  /** A wait claims a zombie of its own and holds it until it has freed it. */
  lemma HeldKeeps(s: Sched, f: Family, r: Reap, p: Task, want: nat)
    requires FamilyInv(s, f) && ReapInv(s, f, r) && p !in r.reaping && Taken(f, p, want).Some? && s.state.Keys == s.home.Keys
    ensures Taken(f, p, want).value in f.code
    ensures ReapInv(s, ClaimZombie(f, p, want, Taken(f, p, want).value), Held(r, f, p, want))
  {
    FirstMatchMeaning(f, f.zombies, p, want);
    var z := Taken(f, p, want).value;
    assert z in f.zombies && f.parent[z] == p && Dead(s, f, z);
    hide FamilyInv, FirstMatch, OnCpu;
    ClaimReap(s, f, r, p, want, z);
  }

  lemma ClaimReap(s: Sched, f: Family, r: Reap, p: Task, want: nat, z: Task)
    requires ReapInv(s, f, r) && p !in r.reaping && z in f.zombies && NoDup(f.zombies) && z in f.parent && f.parent[z] == p
    requires z in f.code && Corpse(s, z) && !Leaving(f, z)
    ensures ReapInv(s, ClaimZombie(f, p, want, z), r.(reaping := r.reaping[p := z]))
  {
    var g, q := ClaimZombie(f, p, want, z), r.(reaping := r.reaping[p := z]);
    RemoveMembers(f.zombies, z);
    forall c | c in q.slot ensures SlotOk(s, g, q, c) { assert SlotOk(s, f, r, c); }
    forall t | t in q.reaping ensures ReapOk(s, g, q, t) { if t != p { assert ReapOk(s, f, r, t); } }
    forall x | x in q.freed ensures Corpse(s, x) && Nowhere(s, g, q, x) { assert Nowhere(s, f, r, x); }
    forall x | Corpse(s, x) ensures Accounted(s, g, q, x) { assert Accounted(s, f, r, x); }
    forall i: nat | i < |g.claims| ensures Settled(g, q, i) {
      if i < |f.claims| { assert Settled(f, r, i) && g.claims[i] == f.claims[i]; }
    }
  }

  /** A wait that parks. */
  lemma TargetReap(s: Sched, n: Sched, f: Family, r: Reap, p: Task, want: nat)
    requires ReapInv(s, f, r) && SameDead(s, n)
    ensures ReapInv(n, f.(target := f.target[p := want]), r)
  {
    hide OnCpu, Corpse, Alive;
    ReapFrame(s, n, f, r);
    var g := f.(target := f.target[p := want]);
    forall c | c in r.slot ensures SlotOk(n, g, r, c) { assert SlotOk(n, f, r, c); }
    forall t | t in r.reaping ensures ReapOk(n, g, r, t) { assert ReapOk(n, f, r, t); }
    forall z | Corpse(n, z) ensures Accounted(n, g, r, z) { assert Accounted(n, f, r, z); }
    forall i: nat | i < |g.claims| ensures Settled(g, r, i) { assert Settled(f, r, i); }
  }

  /** An exit: one more dead task, on its CPU and on the way out. */
  lemma ExitReap(s: Sched, f: Family, r: Reap, t: Task, code: nat)
    requires ReapInv(s, f, r) && t in s.state && s.state[t] == Running && OnCpu(s, t) && t !in r.reaping
    ensures ReapInv(ExitMark(s, f, t, code).0, ExitMark(s, f, t, code).1, r)
  {
    var n, g := ExitMark(s, f, t, code).0, ExitMark(s, f, t, code).1;
    forall x ensures Corpse(n, x) <==> Corpse(s, x) || x == t {}
    forall x ensures OnCpu(n, x) <==> OnCpu(s, x) {}
    hide OnCpu, Corpse;
    assert !Corpse(s, t) by { assert s.state[t] != Zombie; }
    forall c | c in r.slot ensures SlotOk(n, g, r, c) { assert SlotOk(s, f, r, c); }
    forall u | u in r.reaping ensures ReapOk(n, g, r, u) { assert ReapOk(s, f, r, u); }
    forall x | x in r.freed ensures Corpse(n, x) && Nowhere(n, g, r, x) { assert Nowhere(s, f, r, x); }
    forall x | Corpse(n, x) ensures Accounted(n, g, r, x) { if x != t { assert Accounted(s, f, r, x); } }
    forall i: nat | i < |g.claims| ensures Settled(g, r, i) { assert Settled(f, r, i); }
  }

  /** Past the test, or on the way out for good if there is no parent to tell. */
  lemma TestLeaves(s: Sched, f: Family, t: Task)
    requires Parents(s, f) && t in f.exiting
    ensures var g := ExitTest(s, f, t);
      && g == f.(exiting := g.exiting, publishing := g.publishing) && Leaving(f, t)
      && forall z :: (Leaving(g, z) ==> Leaving(f, z)) && (Leaving(f, z) ==> Leaving(g, z) || (z == t && t !in f.parent))
  {}

  lemma TestReap(s: Sched, f: Family, r: Reap, t: Task)
    requires ReapInv(s, f, r) && t in f.exiting
    ensures ReapInv(s, ExitTest(s, f, t), r)
  {
    hide OnCpu, Corpse, ExitTest;
    var g := ExitTest(s, f, t);
    TestLeaves(s, f, t);
    hide Leaving;
    forall c | c in r.slot ensures SlotOk(s, g, r, c) { assert SlotOk(s, f, r, c); }
    forall u | u in r.reaping ensures ReapOk(s, g, r, u) { assert ReapOk(s, f, r, u); }
    forall z | Corpse(s, z) ensures Accounted(s, g, r, z) { assert Accounted(s, f, r, z); }
    forall i: nat | i < |g.claims| ensures Settled(g, r, i) { assert Settled(f, r, i); }
  }

  lemma PublishReap(s: Sched, n: Sched, f: Family, g: Family, r: Reap, t: Task)
    requires ReapInv(s, f, r) && SameDead(s, n) && t in f.publishing && t !in f.exiting
    requires g == f.(publishing := f.publishing - {t}, zombies := [t] + f.zombies)
    ensures ReapInv(n, g, r)
  {
    hide OnCpu;
    ReapFrame(s, n, f, r);
    assert Leaving(f, t);
    forall z ensures Leaving(g, z) <==> Leaving(f, z) && z != t {}
    forall c | c in r.slot ensures SlotOk(n, g, r, c) { assert SlotOk(n, f, r, c); }
    forall u | u in r.reaping ensures ReapOk(n, g, r, u) { assert ReapOk(n, f, r, u); }
    forall z | z in r.freed ensures Corpse(n, z) && Nowhere(n, g, r, z) { assert Nowhere(n, f, r, z); }
    forall z | Corpse(n, z) ensures Accounted(n, g, r, z) { assert Accounted(n, f, r, z); }
    forall i: nat | i < |g.claims| ensures Settled(g, r, i) { assert Settled(f, r, i); }
  }

  // ---- steps that free -------------------------------------------------------------------------------

  /** Freeing a claimed task keeps the kernel consistent if and only if the task has left its CPU. */
  lemma FreeClaimedExact(s: Sched, f: Family, r: Reap, p: Task)
    requires ReapInv(s, f, r) && p in r.reaping
    ensures ReapInv(s, f, FreeClaimed(r, p)) <==> !OnCpu(s, r.reaping[p])
  {
    var z, q := r.reaping[p], FreeClaimed(r, p);
    assert ReapOk(s, f, r, p);
    assert z in q.freed;
    if OnCpu(s, z) { assert !Nowhere(s, f, q, z); } else { FreeReap(s, f, r, p, z); }
  }

  lemma FreeReap(s: Sched, f: Family, r: Reap, p: Task, z: Task)
    requires ReapInv(s, f, r) && p in r.reaping && z == r.reaping[p] && !OnCpu(s, z)
    ensures ReapInv(s, f, FreeClaimed(r, p))
  {
    hide OnCpu;
    var q := FreeClaimed(r, p);
    assert ReapOk(s, f, r, p);
    PushMembers(r.freed, z);
    forall c | c in q.slot ensures SlotOk(s, f, q, c) { assert SlotOk(s, f, r, c); }
    forall t | t in q.reaping ensures ReapOk(s, f, q, t) { assert ReapOk(s, f, r, t); }
    forall x | x in q.freed ensures Corpse(s, x) && Nowhere(s, f, q, x) {
      if x != z { assert Nowhere(s, f, r, x); } else { DeadHasNoChild(s, f, z); SlotsHold(s, f, r, z); }
    }
    forall x | Corpse(s, x) ensures Accounted(s, f, q, x) { assert Accounted(s, f, r, x); }
    forall i: nat | i < |f.claims| ensures Settled(f, q, i) { assert Settled(f, r, i); }
  }

  lemma DeadHasNoChild(s: Sched, f: Family, z: Task)
    requires Parents(s, f) && Corpse(s, z)
    ensures forall x :: x in f.parent ==> f.parent[x] != z
  {}

  /** A task with a parent is in no slot. */
  lemma SlotsHold(s: Sched, f: Family, r: Reap, z: Task)
    requires Slots(s, f, r) && z in f.parent
    ensures forall c :: c in r.slot ==> r.slot[c] != z
  {
    forall c | c in r.slot ensures r.slot[c] != z { assert SlotOk(s, f, r, c); }
  }

  /** The drain frees what is in the slot: the test for a parent never spares it. */
  lemma DrainFrees(s: Sched, f: Family, r: Reap, c: Cpu)
    requires Slots(s, f, r)
    ensures Drained(s, f, r, c) == if c in r.slot then r.(slot := r.slot - {c}, freed := r.freed + [r.slot[c]]) else r
  {
    if c in r.slot { assert SlotOk(s, f, r, c); }
  }

  lemma DrainReap(s: Sched, f: Family, r: Reap, c: Cpu)
    requires ReapInv(s, f, r) && (c in r.slot ==> r.slot[c] !in f.zombies)
    ensures ReapInv(s, f, Drained(s, f, r, c)) && c !in Drained(s, f, r, c).slot
  {
    hide OnCpu;
    DrainFrees(s, f, r, c);
    if c in r.slot {
      var z, q := r.slot[c], Drained(s, f, r, c);
      assert SlotOk(s, f, r, c);
      PushMembers(r.freed, z);
      forall d | d in q.slot ensures SlotOk(s, f, q, d) { assert SlotOk(s, f, r, d); }
      forall t | t in q.reaping ensures ReapOk(s, f, q, t) { assert ReapOk(s, f, r, t); }
      forall x | x in q.freed ensures Corpse(s, x) && Nowhere(s, f, q, x) {
        if x != z { assert Nowhere(s, f, r, x); } else { DeadHasNoChild(s, f, z); OneSlot(s, f, r, c); }
      }
      forall x | Corpse(s, x) ensures Accounted(s, f, q, x) { assert Accounted(s, f, r, x); }
      forall i: nat | i < |f.claims| ensures Settled(f, q, i) { assert Settled(f, r, i); }
    }
  }

  lemma OneSlot(s: Sched, f: Family, r: Reap, c: Cpu)
    requires Slots(s, f, r) && Reapers(s, f, r) && c in r.slot
    ensures forall d :: d in r.slot && d != c ==> r.slot[d] != r.slot[c]
    ensures forall t :: t in r.reaping ==> r.reaping[t] != r.slot[c]
  {
    assert SlotOk(s, f, r, c);
    forall d | d in r.slot && d != c ensures r.slot[d] != r.slot[c] { assert SlotOk(s, f, r, d); }
    forall t | t in r.reaping ensures r.reaping[t] != r.slot[c] { assert ReapOk(s, f, r, t); }
  }

  /** A drain keeps the kernel consistent if and only if what it frees is not on the zombie list. */
  lemma DrainExact(s: Sched, f: Family, r: Reap, c: Cpu)
    requires ReapInv(s, f, r)
    ensures ReapInv(s, f, Drained(s, f, r, c)) <==> (c in r.slot ==> r.slot[c] !in f.zombies)
  {
    if c in r.slot && r.slot[c] in f.zombies { DrainBreaks(s, s, f, r, c, Drained(s, f, r, c)); } else { DrainReap(s, f, r, c); }
  }

  lemma DrainBreaks(s: Sched, n: Sched, f: Family, r: Reap, c: Cpu, q: Reap)
    requires ReapInv(s, f, r) && c in r.slot && r.slot[c] in f.zombies && q.freed == Drained(s, f, r, c).freed
    ensures !ReapInv(n, f, q)
  {
    DrainFrees(s, f, r, c);
    var z := r.slot[c];
    assert q.freed[|r.freed|] == z;
    assert z in q.freed && !Nowhere(n, f, q, z);
  }

  /** CPU c goes from prev to a living task; the dead stay where they were, prev aside. */
  ghost predicate Switched(s: Sched, n: Sched, c: Cpu) {
    && c in s.current && s.current[c] in s.home && s.current[c] in s.state && s.home[s.current[c]] == c
    && (forall x :: Corpse(n, x) <==> Corpse(s, x)) && n.home == s.home && s.state.Keys <= n.state.Keys
    && (forall x :: Corpse(s, x) ==> (OnCpu(n, x) <==> OnCpu(s, x) && x != s.current[c]))
    && (forall x :: Alive(s, x) ==> Alive(n, x))
  }

  lemma ScheduleSwitches(s: Sched, c: Cpu)
    requires Inv(s) && c in s.current && c in s.rq && s.rq[c] != []
    ensures s.current[c] in s.home && s.current[c] in s.state && s.home[s.current[c]] == c
    ensures Switched(s, Schedule(s, c), c)
  {
    hide Inv, TaskOk;
    Current(s, c);
    HeadReady(s, c);
    ScheduleSplits(s, c);
    hide Schedule, Bump, Log;
  }

  lemma SwitchReap(s: Sched, n: Sched, f: Family, r: Reap, c: Cpu)
    requires ReapInv(s, f, r) && Switched(s, n, c) && c !in r.slot && !Leaving(f, s.current[c])
    ensures ReapInv(n, f, Filled(s, f, r, c))
  {
    var prev, q := s.current[c], Filled(s, f, r, c);
    assert OnCpu(s, prev);
    hide OnCpu, Alive;
    forall d | d in q.slot ensures SlotOk(n, f, q, d) {
      if d in r.slot { assert SlotOk(s, f, r, d); } else { assert prev in r.freed ==> Nowhere(s, f, r, prev); }
    }
    forall t | t in q.reaping ensures ReapOk(n, f, q, t) { assert ReapOk(s, f, r, t); }
    forall x | x in q.freed ensures Corpse(n, x) && Nowhere(n, f, q, x) { assert Nowhere(s, f, r, x); }
    forall x | Corpse(n, x) ensures Accounted(n, f, q, x) { assert Accounted(s, f, r, x); }
    forall i: nat | i < |f.claims| ensures Settled(f, q, i) { assert Settled(f, r, i); }
  }
}
