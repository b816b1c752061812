/**
 Run queues and mutex queues thread the same fields through the tasks. The kernel invariant is
 what makes that sound: the queues are disjoint, and whoever is linked is on none of them.
 */
module KernelQueues {
  import opened Scheduler
  import opened Mutexes
  import opened Waiting
  import opened Sleepers
  import opened TaskLists
  import opened KernelRuns

  /** Even numbers name run queues, odd numbers mutex queues. */
  function Queue(k: Kernel, q: nat): seq<Task> {
    if q % 2 == 0 then (if q / 2 in k.s.rq then k.s.rq[q / 2] else [])
    else (if q / 2 in k.x.mutex then k.x.mutex[q / 2].queue else [])
  }

  ghost predicate IsQueue(k: Kernel, q: nat) {
    if q % 2 == 0 then q / 2 in k.s.rq else q / 2 in k.x.mutex
  }

  /** All queues of the kernel, as the linked queues hold them. */
  ghost predicate Holds(k: Kernel, queues: map<nat, seq<Task>>) {
    forall q: nat :: (q in queues <==> IsQueue(k, q)) && (q in queues ==> queues[q] == Queue(k, q))
  }

  /** A member of a run queue is READY and settled, a member of a mutex queue is parked there. */
  lemma MemberState(k: Kernel, q: nat, t: Task)
    requires KernelInv(k) && IsQueue(k, q) && t in Queue(k, q)
    ensures q % 2 == 0 ==> Queued(k.s, q / 2, t)
    ensures q % 2 == 1 ==> t in k.s.place && k.s.place[t] == InMutex(q / 2) && t in k.s.state && k.s.state[t] == Blocked
  {
    hide FamilyInv, SleepInv;
    if q % 2 == 0 {
      assert CpuOk(k.s, q / 2);
    } else {
      assert MutexOk(k.s.place, k.x, q / 2) && Waits(k.s.place, k.x, q / 2, t);
      ParkedKnown(k.s, t);
    }
  }

  lemma MemberOnce(k: Kernel, q: nat, r: nat, t: Task)
    requires KernelInv(k) && IsQueue(k, q) && IsQueue(k, r) && q != r && t in Queue(k, q)
    ensures t !in Queue(k, r)
  {
    hide KernelInv, IsQueue, Queue;
    MemberState(k, q, t);
    if t in Queue(k, r) { MemberState(k, r, t); }
  }

  /** The precondition of the linked queues: no task is on two of them. */
  lemma QueuesApart(k: Kernel, queues: map<nat, seq<Task>>)
    requires KernelInv(k) && Holds(k, queues)
    ensures Apart(queues)
  {
    hide KernelInv, IsQueue, Queue;
    forall q, r, t | q in queues && r in queues && q != r && t in queues[q] ensures t !in queues[r] { MemberOnce(k, q, r, t); }
  }

  /** A task a step links somewhere. */
  predicate Links(k: Kernel, e: Event, t: Task)
    requires Enabled(k, e)
  {
    match e
    case Create(u, c) => t == u
    case ForkChild(p, u, c) => t == u
    case Link(u) => t == u
    case LockCall(u, m) => t == u && k.x.mutex[m].locked
    case Resched(c) => t == k.s.current[c] && k.s.state[t] == Running
    case _ => false
  }

  lemma LinkedState(k: Kernel, e: Event, t: Task)
    requires KernelInv(k) && Enabled(k, e) && Links(k, e, t)
    ensures t !in k.s.state || k.s.state[t] == Running || (t in k.s.transit && k.s.state[t] == Ready)
  {
    hide LocksInv, FamilyInv, SleepInv;
    if e.Link? { assert TaskOk(k.s, t); }
    else if e.Create? || e.ForkChild? { KeysAgree(k.s); }
  }

  /** Whenever a step links a task in a run queue or a mutex queue, the task is on none. */
  lemma LinkedIsUnlinked(k: Kernel, e: Event, t: Task, queues: map<nat, seq<Task>>)
    requires KernelInv(k) && Enabled(k, e) && Links(k, e, t) && Holds(k, queues)
    ensures Unlinked(queues, t)
  {
    hide KernelInv, IsQueue, Queue, Enabled, Links;
    LinkedState(k, e, t);
    forall q | q in queues ensures t !in queues[q] { if t in queues[q] { MemberState(k, q, t); } }
  }
}
