/**
 Per-CPU scheduling of pinned tasks, as atomic steps over all interleavings: a step is
 one lock-held region or one pass through schedule(). A blocked task is linked in one
 wait place; a woken task is READY before it is linked in its home run queue, and may
 be either while its CPU is still on the way out of the blocking call.
 */
module Scheduler {
  import opened Sequences

  type Task = nat
  type Cpu = nat

  datatype TaskState = Running | Ready | Blocked | Zombie

  /** Where a blocked task is linked. */
  datatype Place = InMutex(m: nat) | InWait | Asleep

  datatype Sched = Sched(
    home: map<Task, Cpu>,
    state: map<Task, TaskState>,
    current: map<Cpu, Task>,
    rq: map<Cpu, seq<Task>>,
    transit: set<Task>,         // woken, about to be enqueued by the waker
    place: map<Task, Place>,    // parked tasks
    readied: map<Task, nat>,    // history: how often the task was made READY,
    dispatched: map<Task, nat>, // and how often it was picked to run;
    linked: map<Cpu, seq<Task>>, // every task ever linked in a queue, in order,
    picked: map<Cpu, seq<Task>>) // and every task taken off it, in order

  /** Task t is in exactly the place its state says. */
  ghost predicate TaskOk(s: Sched, t: Task) {
    && t in s.home && t in s.state && s.home[t] in s.current && s.home[t] in s.rq
    && (s.state[t] == Running ==> s.current[s.home[t]] == t)
    && (s.state[t] == Ready <==> t in s.rq[s.home[t]] || t in s.transit)
    && (s.state[t] == Blocked <==> t in s.place)
    && t in s.readied && t in s.dispatched
    && s.readied[t] == s.dispatched[t] + (if s.state[t] == Ready then 1 else 0)
  }

  /** CPU c runs one of its own tasks, and its queue holds READY tasks of its own, each once. */
  ghost predicate CpuOk(s: Sched, c: Cpu) {
    && c in s.current && c in s.rq && s.current[c] in s.home && s.home[s.current[c]] == c
    && NoDup(s.rq[c])
    && c in s.linked && c in s.picked && s.linked[c] == s.picked[c] + s.rq[c]
    && forall t :: t in s.rq[c] ==> Queued(s, c, t)
  }

  ghost predicate Queued(s: Sched, c: Cpu, t: Task) {
    t in s.home && s.home[t] == c && t in s.state && s.state[t] == Ready && t !in s.transit
  }

  ghost predicate Inv(s: Sched) {
    KeysOk(s) && AllTasks(s) && AllCpus(s)
  }

  ghost predicate KeysOk(s: Sched) {
    && s.state.Keys == s.home.Keys && s.rq.Keys == s.current.Keys
    && s.transit <= s.home.Keys && s.place.Keys <= s.home.Keys
  }

  ghost predicate AllTasks(s: Sched) { forall t :: t in s.home ==> TaskOk(s, t) }

  ghost predicate AllCpus(s: Sched) { forall c :: c in s.current ==> CpuOk(s, c) }

  ghost predicate NotQueued(s: Sched, t: Task) { forall c :: c in s.rq ==> t !in s.rq[c] }

  // ---- primitive steps ----------------------------------------------------------------

  /** create_kernel_task: a new READY task at the tail of its home queue. */
  function Spawn(s: Sched, t: Task, c: Cpu): Sched
    requires c in s.rq
  {
    s.(home := s.home[t := c], state := s.state[t := Ready], rq := s.rq[c := s.rq[c] + [t]],
       readied := s.readied[t := 1], dispatched := s.dispatched[t := 0], linked := Log(s.linked, c, t))
  }

  /** The running task marks itself BLOCKED and links itself in a wait place. */
  function Park(s: Sched, t: Task, p: Place): Sched {
    s.(state := s.state[t := Blocked], place := s.place[t := p])
  }

  function Log(m: map<Cpu, seq<Task>>, c: Cpu, t: Task): map<Cpu, seq<Task>> {
    m[c := (if c in m then m[c] else []) + [t]]
  }

  function Bump(m: map<Task, nat>, t: Task): map<Task, nat> {
    m[t := (if t in m then m[t] else 0) + 1]
  }

  /** A waker unlinks a parked task and marks it READY. */
  function Wake(s: Sched, t: Task): Sched {
    s.(state := s.state[t := Ready], place := s.place - {t}, transit := s.transit + {t}, readied := Bump(s.readied, t))
  }

  /** rq_enqueue_external. */
  function Enqueue(s: Sched, t: Task): Sched
    requires t in s.home && s.home[t] in s.rq
  {
    var c := s.home[t];
    s.(rq := s.rq[c := s.rq[c] + [t]], transit := s.transit - {t}, linked := Log(s.linked, c, t))
  }

  function Kill(s: Sched, t: Task): Sched {
    s.(state := s.state[t := Zombie])
  }

  /** schedule(): take the head of the queue; a preempted task goes to its home queue's tail. */
  function Schedule(s: Sched, c: Cpu): Sched
    requires c in s.rq && c in s.current && s.rq[c] != []
    requires s.current[c] in s.home && s.current[c] in s.state && s.home[s.current[c]] in s.rq
  {
    var prev, next := s.current[c], s.rq[c][0];
    var q := s.rq[c := s.rq[c][1..]];
    if s.state[prev] == Running then
      var h := s.home[prev];
      s.(rq := q[h := q[h] + [prev]], state := s.state[prev := Ready][next := Running], current := s.current[c := next],
         readied := Bump(s.readied, prev), dispatched := Bump(s.dispatched, next),
         linked := Log(s.linked, h, prev), picked := Log(s.picked, c, next))
    else
      s.(rq := q, state := s.state[next := Running], current := s.current[c := next],
         dispatched := Bump(s.dispatched, next), picked := Log(s.picked, c, next))
  }

  // ---- every step keeps the invariant ----------------------------------------------------

  /** A task that is not READY is on no queue. */
  lemma OffQueues(s: Sched, t: Task)
    requires Inv(s) && (t !in s.home || s.state[t] != Ready || t in s.transit)
    ensures NotQueued(s, t)
  {
    forall c | c in s.rq ensures t !in s.rq[c] {
      assert CpuOk(s, c);
      assert t in s.rq[c] ==> Queued(s, c, t);
    }
  }

  lemma HomeQueue(s: Sched, t: Task)
    requires Inv(s) && t in s.home
    ensures s.home[t] in s.rq && TaskOk(s, t)
  {
    assert TaskOk(s, t);
  }

  lemma Pushed(s: Sched, c: Cpu, t: Task)
    requires Inv(s) && c in s.rq && NotQueued(s, t)
    ensures NoDup(s.rq[c] + [t])
  {
    assert CpuOk(s, c);
    PushMembers(s.rq[c], t);
  }

  lemma SpawnTask(s: Sched, t: Task, c: Cpu, x: Task)
    requires Inv(s) && t !in s.home && c in s.rq && (x in s.home || x == t)
    ensures TaskOk(Spawn(s, t, c), x)
  {
    assert x in s.home ==> TaskOk(s, x);
  }

  lemma SpawnTasks(s: Sched, t: Task, c: Cpu)
    requires Inv(s) && t !in s.home && c in s.rq
    ensures AllTasks(Spawn(s, t, c))
  {
    hide TaskOk, CpuOk, AllCpus;
    forall x | x in Spawn(s, t, c).home ensures TaskOk(Spawn(s, t, c), x) { SpawnTask(s, t, c, x); }
  }

  lemma SpawnKeeps(s: Sched, t: Task, c: Cpu)
    requires Inv(s) && t !in s.home && c in s.rq
    ensures Inv(Spawn(s, t, c))
  {
    hide TaskOk, CpuOk, AllTasks, AllCpus, NotQueued;
    OffQueues(s, t);
    Pushed(s, c, t);
    var n := Spawn(s, t, c);
    SpawnTasks(s, t, c);
    QueuesKept(s, n, c, t);
  }

  /** Appending READY task t to queue c; every other queue, and every other task, is as before. */
  lemma QueueKept(s: Sched, n: Sched, c: Cpu, d: Cpu, t: Task)
    requires KeysOk(s) && CpuOk(s, d) && c in s.rq && NoDup(s.rq[c] + [t]) && NotQueued(s, t)
    requires n.current == s.current && n.rq == s.rq[c := s.rq[c] + [t]] && Queued(n, c, t)
    requires forall x :: x in s.home && x != t ==> x in n.home && n.home[x] == s.home[x] && x in n.state && n.state[x] == s.state[x]
    requires forall x :: x in n.transit ==> x in s.transit
    requires s.current[d] in n.home && n.home[s.current[d]] == d
    requires n.linked == Log(s.linked, c, t) && n.picked == s.picked
    ensures CpuOk(n, d)
  {
    forall x | x in n.rq[d] ensures Queued(n, d, x) {
      if x in s.rq[d] { assert Queued(s, d, x); }
    }
    Assoc(s.picked[d], s.rq[d], [t]);
  }

  lemma QueuesKept(s: Sched, n: Sched, c: Cpu, t: Task)
    requires Inv(s) && c in s.rq && NoDup(s.rq[c] + [t]) && NotQueued(s, t)
    requires n.current == s.current && n.rq == s.rq[c := s.rq[c] + [t]] && Queued(n, c, t)
    requires forall x :: x in s.home ==> x in n.home && n.home[x] == s.home[x]
    requires forall x :: x in s.home && x != t ==> x in n.state && n.state[x] == s.state[x]
    requires forall x :: x in n.transit ==> x in s.transit
    requires n.linked == Log(s.linked, c, t) && n.picked == s.picked
    ensures AllCpus(n)
  {
    hide CpuOk, TaskOk;
    forall d | d in n.current ensures CpuOk(n, d) {
      Current(s, d);
      assert CpuOk(s, d);
      QueueKept(s, n, c, d, t);
    }
  }

  lemma ParkTask(s: Sched, t: Task, p: Place, x: Task)
    requires Inv(s) && t in s.home && s.state[t] == Running && x in s.home
    ensures TaskOk(Park(s, t, p), x)
  {
    assert TaskOk(s, x);
    OffQueues(s, t);
  }

  lemma ParkTasks(s: Sched, t: Task, p: Place)
    requires Inv(s) && t in s.home && s.state[t] == Running
    ensures AllTasks(Park(s, t, p))
  {
    hide TaskOk, CpuOk, AllCpus;
    forall x | x in Park(s, t, p).home ensures TaskOk(Park(s, t, p), x) { ParkTask(s, t, p, x); }
  }

  lemma ParkKeeps(s: Sched, t: Task, p: Place)
    requires Inv(s) && t in s.home && s.state[t] == Running
    ensures Inv(Park(s, t, p))
  {
    hide TaskOk, CpuOk, AllTasks, AllCpus, NotQueued;
    OffQueues(s, t);
    var n := Park(s, t, p);
    ParkTasks(s, t, p);
    AllStatesKept(s, n, t);
  }

  /** Changing one task that is on no queue leaves the queues in order. */
  lemma StatesKept(s: Sched, n: Sched, d: Cpu, t: Task)
    requires Inv(s) && d in s.current && n.current == s.current && n.rq == s.rq && n.home == s.home
    requires NotQueued(s, t)
    requires n.linked == s.linked && n.picked == s.picked
    requires t in n.state && n.state == s.state[t := n.state[t]] && n.transit <= s.transit + {t}
    ensures CpuOk(n, d)
  {
    assert CpuOk(s, d);
    forall x | x in n.rq[d] ensures Queued(n, d, x) { assert Queued(s, d, x); }
  }

  lemma AllStatesKept(s: Sched, n: Sched, t: Task)
    requires Inv(s) && n.current == s.current && n.rq == s.rq && n.home == s.home && NotQueued(s, t)
    requires n.linked == s.linked && n.picked == s.picked
    requires t in n.state && n.state == s.state[t := n.state[t]] && n.transit <= s.transit + {t}
    ensures AllCpus(n)
  {
    hide CpuOk, TaskOk;
    forall d | d in n.current ensures CpuOk(n, d) { StatesKept(s, n, d, t); }
  }

  lemma WakeKeeps(s: Sched, t: Task)
    requires Inv(s) && t in s.place
    ensures Inv(Wake(s, t))
  {
    assert TaskOk(s, t);
    OffQueues(s, t);
    var n := Wake(s, t);
    forall x | x in n.home ensures TaskOk(n, x) { assert TaskOk(s, x); }
    AllStatesKept(s, n, t);
  }

  lemma EnqueueTask(s: Sched, t: Task, x: Task)
    requires Inv(s) && t in s.transit && t in s.home && s.home[t] in s.rq && x in s.home
    ensures TaskOk(Enqueue(s, t), x)
  {
    assert TaskOk(s, x);
    OffQueues(s, t);
  }

  lemma EnqueueTasks(s: Sched, t: Task)
    requires Inv(s) && t in s.transit && t in s.home && s.home[t] in s.rq
    ensures AllTasks(Enqueue(s, t))
  {
    hide TaskOk, CpuOk, AllCpus;
    forall x | x in Enqueue(s, t).home ensures TaskOk(Enqueue(s, t), x) { EnqueueTask(s, t, x); }
  }

  lemma EnqueueKeeps(s: Sched, t: Task)
    requires Inv(s) && t in s.transit
    ensures Inv(Enqueue(s, t))
  {
    HomeQueue(s, t);
    hide TaskOk, CpuOk, AllTasks, AllCpus, NotQueued;
    var c := s.home[t];
    OffQueues(s, t);
    Pushed(s, c, t);
    var n := Enqueue(s, t);
    EnqueueTasks(s, t);
    QueuesKept(s, n, c, t);
  }

  lemma KillTask(s: Sched, t: Task, x: Task)
    requires Inv(s) && t in s.home && s.state[t] == Running && x in s.home
    ensures TaskOk(Kill(s, t), x)
  {
    assert TaskOk(s, x);
    OffQueues(s, t);
  }

  lemma KillTasks(s: Sched, t: Task)
    requires Inv(s) && t in s.home && s.state[t] == Running
    ensures AllTasks(Kill(s, t))
  {
    hide TaskOk, CpuOk, AllCpus;
    forall x | x in Kill(s, t).home ensures TaskOk(Kill(s, t), x) { KillTask(s, t, x); }
  }

  lemma KillKeeps(s: Sched, t: Task)
    requires Inv(s) && t in s.home && s.state[t] == Running
    ensures Inv(Kill(s, t))
  {
    hide TaskOk, CpuOk, AllTasks, AllCpus, NotQueued;
    OffQueues(s, t);
    var n := Kill(s, t);
    KillTasks(s, t);
    AllStatesKept(s, n, t);
  }

  /** Taking the head of queue c. */
  function Dispatch(s: Sched, c: Cpu): Sched
    requires c in s.rq && s.rq[c] != []
  {
    var next := s.rq[c][0];
    s.(rq := s.rq[c := s.rq[c][1..]], state := s.state[next := Running], current := s.current[c := next],
       dispatched := Bump(s.dispatched, next), picked := Log(s.picked, c, next))
  }

  /** The head of a queue is a READY task of that CPU. */
  lemma HeadReady(s: Sched, c: Cpu)
    requires Inv(s) && c in s.rq && s.rq[c] != []
    ensures CpuOk(s, c) && Queued(s, c, s.rq[c][0])
  {
    assert CpuOk(s, c);
    assert s.rq[c][0] in s.rq[c];
  }

  lemma DispatchTask(s: Sched, c: Cpu, x: Task)
    requires Inv(s) && c in s.rq && s.rq[c] != [] && c in s.current && s.current[c] in s.state && s.state[s.current[c]] != Running
    requires x in s.home
    ensures TaskOk(Dispatch(s, c), x)
  {
    HeadReady(s, c);
    assert TaskOk(s, x);
    PopMembers(s.rq[c]);
  }

  lemma DispatchCpu(s: Sched, c: Cpu, d: Cpu)
    requires Inv(s) && c in s.rq && s.rq[c] != [] && d in s.current
    ensures CpuOk(Dispatch(s, c), d)
  {
    HeadReady(s, c);
    assert CpuOk(s, d);
    hide Inv;
    var n, next := Dispatch(s, c), s.rq[c][0];
    PopMembers(s.rq[c]);
    forall x | x in n.rq[d] ensures Queued(n, d, x) { assert Queued(s, d, x); }
    if d == c { Assoc(s.picked[c], [next], s.rq[c][1..]); }
  }

  lemma DispatchCpus(s: Sched, c: Cpu)
    requires Inv(s) && c in s.rq && s.rq[c] != []
    ensures AllCpus(Dispatch(s, c))
  {
    forall d | d in Dispatch(s, c).current ensures CpuOk(Dispatch(s, c), d) { DispatchCpu(s, c, d); }
  }

  lemma DispatchTasks(s: Sched, c: Cpu)
    requires Inv(s) && c in s.rq && s.rq[c] != [] && c in s.current && s.current[c] in s.state && s.state[s.current[c]] != Running
    ensures AllTasks(Dispatch(s, c))
  {
    hide TaskOk, CpuOk, AllCpus;
    forall x | x in Dispatch(s, c).home ensures TaskOk(Dispatch(s, c), x) { DispatchTask(s, c, x); }
  }

  lemma DispatchKeeps(s: Sched, c: Cpu)
    requires Inv(s) && c in s.rq && s.rq[c] != [] && s.state[s.current[c]] != Running
    ensures Inv(Dispatch(s, c))
  {
    hide TaskOk, CpuOk, AllTasks, AllCpus, NotQueued;
    HeadReady(s, c);
    Current(s, c);
    DispatchTasks(s, c);
    DispatchCpus(s, c);
  }

  /** A preempted task becomes READY and joins the tail of its home queue. */
  function Preempt(s: Sched, t: Task): Sched
    requires t in s.home && s.home[t] in s.rq
  {
    var c := s.home[t];
    s.(state := s.state[t := Ready], rq := s.rq[c := s.rq[c] + [t]],
       readied := Bump(s.readied, t), linked := Log(s.linked, c, t))
  }

  lemma PreemptTask(s: Sched, t: Task, x: Task)
    requires Inv(s) && t in s.home && s.state[t] == Running && s.home[t] in s.rq && x in s.home
    ensures TaskOk(Preempt(s, t), x)
  {
    assert TaskOk(s, x);
    OffQueues(s, t);
  }

  lemma PreemptTasks(s: Sched, t: Task)
    requires Inv(s) && t in s.home && s.state[t] == Running && s.home[t] in s.rq
    ensures AllTasks(Preempt(s, t))
  {
    hide TaskOk, CpuOk, AllCpus;
    forall x | x in Preempt(s, t).home ensures TaskOk(Preempt(s, t), x) { PreemptTask(s, t, x); }
  }

  lemma PreemptKeeps(s: Sched, t: Task)
    requires Inv(s) && t in s.home && s.state[t] == Running
    ensures TaskOk(s, t) && Inv(Preempt(s, t))
  {
    HomeQueue(s, t);
    hide TaskOk, CpuOk, AllTasks, AllCpus, NotQueued;
    PreemptTasks(s, t);
    PreemptCpus(s, t);
  }

  lemma PreemptCpus(s: Sched, t: Task)
    requires Inv(s) && t in s.home && s.state[t] == Running && s.home[t] in s.rq
    ensures AllCpus(Preempt(s, t))
  {
    OffQueues(s, t);
    Pushed(s, s.home[t], t);
    hide TaskOk, CpuOk, AllTasks, AllCpus, NotQueued;
    QueuesKept(s, Preempt(s, t), s.home[t], t);
  }

  lemma ScheduleSplits(s: Sched, c: Cpu)
    requires c in s.rq && c in s.current && s.rq[c] != []
    requires s.current[c] in s.home && s.current[c] in s.state && s.home[s.current[c]] == c
    ensures Schedule(s, c) == Dispatch(if s.state[s.current[c]] == Running then Preempt(s, s.current[c]) else s, c)
  {
    var prev := s.current[c];
    assert (s.rq[c] + [prev])[1..] == s.rq[c][1..] + [prev];
    var q := s.rq[c := s.rq[c][1..]];
    assert q[c := q[c] + [prev]] == s.rq[c := s.rq[c] + [prev]][c := s.rq[c][1..] + [prev]];
  }

  /** A reschedule parks nobody, unparks nobody and revives no zombie. */
  lemma ScheduleSpares(s: Sched, c: Cpu)
    requires c in s.rq && c in s.current && s.rq[c] != []
    requires s.current[c] in s.home && s.current[c] in s.state && s.home[s.current[c]] == c
    requires s.rq[c][0] in s.state && s.state[s.rq[c][0]] == Ready
    ensures Schedule(s, c).place == s.place && Schedule(s, c).home == s.home && Schedule(s, c).current.Keys == s.current.Keys
    ensures forall x :: x in s.state && s.state[x] == Zombie ==> x in Schedule(s, c).state && Schedule(s, c).state[x] == Zombie
  {
    ScheduleSplits(s, c);
    hide Schedule, Bump, Log;
  }

  lemma Current(s: Sched, c: Cpu)
    requires Inv(s) && c in s.current
    ensures c in s.rq && s.current[c] in s.home && s.current[c] in s.state && s.home[s.current[c]] == c
  {
    assert CpuOk(s, c);
  }

  lemma ScheduleKeeps(s: Sched, c: Cpu)
    requires Inv(s) && c in s.current && c in s.rq && s.rq[c] != []
    ensures s.current[c] in s.home && s.current[c] in s.state && s.home[s.current[c]] == c
    ensures Inv(Schedule(s, c))
  {
    hide Inv, TaskOk;
    Current(s, c);
    ScheduleSplits(s, c);
    var prev := s.current[c];
    if s.state[prev] == Running {
      PreemptKeeps(s, prev);
      DispatchKeeps(Preempt(s, prev), c);
    } else {
      DispatchKeeps(s, c);
    }
  }
}
