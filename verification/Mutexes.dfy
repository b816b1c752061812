/**
 Hand-off mutexes over the scheduler. A step is one region under the mutex guard, or the
 return of a parked lock call once its task runs again. A contended unlock passes ownership
 to the longest waiter before that waiter is even runnable.
 */
module Mutexes {
  import opened Options
  import opened Sequences
  import opened Scheduler

  datatype Mutex = Mutex(locked: bool, owner: Option<Task>, queue: seq<Task>)

  datatype Locks = Locks(
    mutex: map<nat, Mutex>,
    inLock: map<Task, nat>,           // tasks inside a contended lock call, and on which mutex
    holding: set<(nat, Task)>,        // between the return of lock and the call of unlock
    arrived: map<nat, seq<Task>>,     // history: every lock call, in the order it took the guard,
    granted: map<nat, seq<Task>>)     // and every acquisition, in order

  ghost predicate MutexOk(place: map<Task, Place>, x: Locks, m: nat) {
    && m in x.mutex && m in x.arrived && m in x.granted
    && (!x.mutex[m].locked ==> x.mutex[m].queue == [] && x.mutex[m].owner == None)
    && (x.mutex[m].locked ==> x.mutex[m].owner.Some? && x.mutex[m].owner.value !in x.mutex[m].queue
                              && x.granted[m] != [] && x.granted[m][|x.granted[m]| - 1] == x.mutex[m].owner.value
                              && Engaged(x, m, x.mutex[m].owner.value))
    && NoDup(x.mutex[m].queue)
    && (forall t :: t in x.mutex[m].queue ==> Waits(place, x, m, t))
    && x.arrived[m] == x.granted[m] + x.mutex[m].queue
  }

  /** t holds the mutex, or is on the way out of the lock call that got it. */
  ghost predicate Engaged(x: Locks, m: nat, t: Task) {
    (m, t) in x.holding || (t in x.inLock && x.inLock[t] == m)
  }

  ghost predicate Waits(place: map<Task, Place>, x: Locks, m: nat, t: Task) {
    t in place && place[t] == InMutex(m) && t in x.inLock && x.inLock[t] == m
  }

  /** A task inside a lock call is a linked waiter, or has been made the owner. */
  ghost predicate Locking(place: map<Task, Place>, x: Locks, t: Task) {
    && t in x.inLock && x.inLock[t] in x.mutex
    && if t in place then place[t] == InMutex(x.inLock[t]) && t in x.mutex[x.inLock[t]].queue
       else Owns(x, x.inLock[t], t)
  }

  ghost predicate Owns(x: Locks, m: nat, t: Task) {
    m in x.mutex && x.mutex[m].locked && x.mutex[m].owner == Some(t)
  }

  ghost predicate Holder(x: Locks, m: nat, t: Task) {
    Owns(x, m, t) && (t in x.inLock ==> x.inLock[t] != m)
  }

  ghost predicate LocksInv(place: map<Task, Place>, x: Locks) {
    && (forall m :: m in x.mutex ==> MutexOk(place, x, m))
    && (forall t :: t in place && place[t].InMutex? ==> t in x.inLock)
    && (forall t :: t in x.inLock ==> Locking(place, x, t))
    && (forall m, t :: (m, t) in x.holding ==> Holder(x, m, t))
  }

  /** mutex_lock up to the release of the guard. */
  function Lock(s: Sched, x: Locks, t: Task, m: nat): (Sched, Locks)
    requires m in x.mutex && m in x.arrived && m in x.granted
  {
    var u := x.mutex[m];
    var y := x.(arrived := x.arrived[m := x.arrived[m] + [t]]);
    if !u.locked then
      (s, y.(mutex := x.mutex[m := u.(locked := true, owner := Some(t))],
             holding := x.holding + {(m, t)}, granted := x.granted[m := x.granted[m] + [t]]))
    else
      (Park(s, t, InMutex(m)),
       y.(mutex := x.mutex[m := u.(queue := u.queue + [t])], inLock := x.inLock[t := m]))
  }

  /** A parked lock call resumes after schedule() and returns without looking at the mutex. */
  function LockReturns(x: Locks, t: Task): Locks
    requires t in x.inLock
  {
    x.(inLock := x.inLock - {t}, holding := x.holding + {(x.inLock[t], t)})
  }

  function Unlock(s: Sched, x: Locks, t: Task, m: nat): (Sched, Locks)
    requires m in x.mutex && m in x.granted
  {
    var u := x.mutex[m];
    var y := x.(holding := x.holding - {(m, t)});
    if u.queue != [] then
      var w := u.queue[0];
      (Wake(s, w), y.(mutex := x.mutex[m := u.(owner := Some(w), queue := u.queue[1..])],
                      granted := x.granted[m := x.granted[m] + [w]]))
    else
      (s, y.(mutex := x.mutex[m := u.(locked := false, owner := None)]))
  }

  // ---- every step keeps the invariant ------------------------------------------------------

  lemma LockFree(place: map<Task, Place>, s: Sched, x: Locks, t: Task, m: nat)
    requires LocksInv(place, x) && m in x.mutex && t !in place && t !in x.inLock
    requires m in x.arrived && m in x.granted && !x.mutex[m].locked
    ensures LocksInv(place, Lock(s, x, t, m).1)
  {
    var y := Lock(s, x, t, m).1;
    assert MutexOk(place, x, m);
    forall n | n in y.mutex ensures MutexOk(place, y, n) {
      assert MutexOk(place, x, n);
      forall w | w in y.mutex[n].queue ensures Waits(place, y, n, w) { assert Waits(place, x, n, w); }
    }
    forall w | w in y.inLock ensures Locking(place, y, w) { assert Locking(place, x, w); }
    forall n, w | (n, w) in y.holding ensures Holder(y, n, w) { assert (n, w) in x.holding ==> Holder(x, n, w); }
  }

  lemma LockWaits(place: map<Task, Place>, s: Sched, x: Locks, t: Task, m: nat)
    requires LocksInv(place, x) && m in x.mutex && t !in place && t !in x.inLock
    requires m in x.arrived && m in x.granted && x.mutex[m].locked && x.mutex[m].owner != Some(t)
    ensures LocksInv(place[t := InMutex(m)], Lock(s, x, t, m).1)
  {
    var y := Lock(s, x, t, m).1;
    var after := place[t := InMutex(m)];
    forall n | n in y.mutex ensures MutexOk(after, y, n) { QueueGrows(place, s, x, t, m, n); }
    forall w | w in y.inLock ensures Locking(after, y, w) {
      assert w != t ==> Locking(place, x, w);
    }
    forall n, w | (n, w) in y.holding ensures Holder(y, n, w) { assert Holder(x, n, w); }
  }

  lemma QueueGrows(place: map<Task, Place>, s: Sched, x: Locks, t: Task, m: nat, n: nat)
    requires LocksInv(place, x) && m in x.mutex && n in x.mutex && t !in place && t !in x.inLock
    requires m in x.arrived && m in x.granted && x.mutex[m].locked && x.mutex[m].owner != Some(t)
    ensures MutexOk(place[t := InMutex(m)], Lock(s, x, t, m).1, n)
  {
    hide MutexOk, Lock;
    assert MutexOk(place, x, n);
    if n == m { OwnQueueGrows(place, s, x, t, m); } else { OtherQueueKept(place, s, x, t, m, n); }
  }

  lemma OwnQueueGrows(place: map<Task, Place>, s: Sched, x: Locks, t: Task, m: nat)
    requires MutexOk(place, x, m) && t !in place && t !in x.inLock && x.mutex[m].locked && x.mutex[m].owner != Some(t)
    ensures MutexOk(place[t := InMutex(m)], Lock(s, x, t, m).1, m)
  {
    var y := Lock(s, x, t, m).1;
    assert t !in x.mutex[m].queue by { assert t in x.mutex[m].queue ==> Waits(place, x, m, t); }
    PushMembers(x.mutex[m].queue, t);
    forall w | w in y.mutex[m].queue ensures Waits(place[t := InMutex(m)], y, m, w) {
      assert w != t ==> Waits(place, x, m, w);
    }
    assert y.arrived[m] == x.granted[m] + (x.mutex[m].queue + [t]);
  }

  lemma OtherQueueKept(place: map<Task, Place>, s: Sched, x: Locks, t: Task, m: nat, n: nat)
    requires MutexOk(place, x, n) && n != m && t !in place && t !in x.inLock
    requires m in x.mutex && m in x.arrived && m in x.granted && x.mutex[m].locked
    ensures MutexOk(place[t := InMutex(m)], Lock(s, x, t, m).1, n)
  {
    var y := Lock(s, x, t, m).1;
    forall w | w in y.mutex[n].queue ensures Waits(place[t := InMutex(m)], y, n, w) { assert Waits(place, x, n, w); }
  }

  lemma LockReturnKeeps(place: map<Task, Place>, x: Locks, t: Task)
    requires LocksInv(place, x) && t in x.inLock && t !in place
    ensures LocksInv(place, LockReturns(x, t)) && Owns(x, x.inLock[t], t)
  {
    var y := LockReturns(x, t);
    assert Locking(place, x, t);
    forall m | m in y.mutex ensures MutexOk(place, y, m) {
      assert MutexOk(place, x, m);
      forall w | w in y.mutex[m].queue ensures Waits(place, y, m, w) { assert Waits(place, x, m, w); }
    }
    forall w | w in y.inLock ensures Locking(place, y, w) { assert Locking(place, x, w); }
    forall m, w | (m, w) in y.holding ensures Holder(y, m, w) { assert (m, w) in x.holding ==> Holder(x, m, w); }
  }

  lemma UnlockIdle(place: map<Task, Place>, s: Sched, x: Locks, t: Task, m: nat)
    requires LocksInv(place, x) && m in x.mutex && m in x.granted && (m, t) in x.holding && x.mutex[m].queue == []
    ensures LocksInv(place, Unlock(s, x, t, m).1)
  {
    var y := Unlock(s, x, t, m).1;
    assert Holder(x, m, t);
    forall n | n in y.mutex ensures MutexOk(place, y, n) {
      assert MutexOk(place, x, n);
      forall w | w in y.mutex[n].queue ensures Waits(place, y, n, w) { assert Waits(place, x, n, w); }
    }
    forall w | w in y.inLock ensures Locking(place, y, w) { assert Locking(place, x, w); }
    forall n, w | (n, w) in y.holding ensures Holder(y, n, w) { assert Holder(x, n, w); }
  }

  lemma UnlockHandsOver(place: map<Task, Place>, s: Sched, x: Locks, t: Task, m: nat)
    requires LocksInv(place, x) && m in x.mutex && m in x.granted && (m, t) in x.holding && x.mutex[m].queue != []
    ensures x.mutex[m].queue[0] in place
    ensures LocksInv(place - {x.mutex[m].queue[0]}, Unlock(s, x, t, m).1)
  {
    var y := Unlock(s, x, t, m).1;
    var w := x.mutex[m].queue[0];
    assert Holder(x, m, t) && MutexOk(place, x, m);
    assert w in x.mutex[m].queue && Waits(place, x, m, w);
    forall n | n in y.mutex ensures MutexOk(place - {w}, y, n) { QueueShrinks(place, s, x, t, m, n); }
    PopMembers(x.mutex[m].queue);
    forall v | v in y.inLock ensures Locking(place - {w}, y, v) { assert Locking(place, x, v); }
    forall n, v | (n, v) in y.holding ensures Holder(y, n, v) { assert Holder(x, n, v); }
  }

  lemma QueueShrinks(place: map<Task, Place>, s: Sched, x: Locks, t: Task, m: nat, n: nat)
    requires LocksInv(place, x) && m in x.mutex && n in x.mutex && m in x.granted && x.mutex[m].queue != []
    ensures MutexOk(place - {x.mutex[m].queue[0]}, Unlock(s, x, t, m).1, n)
  {
    var y := Unlock(s, x, t, m).1;
    var w := x.mutex[m].queue[0];
    assert MutexOk(place, x, m) && MutexOk(place, x, n);
    assert w in x.mutex[m].queue && Waits(place, x, m, w);
    PopMembers(x.mutex[m].queue);
    forall v | v in y.mutex[n].queue ensures Waits(place - {w}, y, n, v) { assert Waits(place, x, n, v); }
    assert x.granted[m] + x.mutex[m].queue == (x.granted[m] + [w]) + x.mutex[m].queue[1..];
  }

  /** Parking and waking elsewhere does not concern the mutexes. */
  lemma LocksFrame(place: map<Task, Place>, after: map<Task, Place>, x: Locks)
    requires LocksInv(place, x)
    requires forall t :: t in x.inLock ==> (t in after <==> t in place) && (t in place ==> after[t] == place[t])
    requires forall t :: t in after && after[t].InMutex? ==> t in place && place[t].InMutex?
    ensures LocksInv(after, x)
  {
    forall m | m in x.mutex ensures MutexOk(after, x, m) {
      assert MutexOk(place, x, m);
      forall w | w in x.mutex[m].queue ensures Waits(after, x, m, w) { assert Waits(place, x, m, w); }
    }
    forall w | w in x.inLock ensures Locking(after, x, w) { assert Locking(place, x, w); }
  }

  /** At most one task is past lock and not yet at unlock. */
  lemma MutualExclusion(place: map<Task, Place>, x: Locks, m: nat, t: Task, u: Task)
    requires LocksInv(place, x) && (m, t) in x.holding && (m, u) in x.holding
    ensures t == u && x.mutex[m].locked && x.mutex[m].owner == Some(t) && t !in x.mutex[m].queue
  {
    assert Holder(x, m, t) && Holder(x, m, u);
    assert MutexOk(place, x, m);
  }
}
