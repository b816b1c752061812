/** The sleep list of a CPU as the kernel keeps it: singly linked through the tasks, by deadline. */
module SleepLists {
  import opened Options
  import opened Sequences
  import opened LinkedLists
  import opened Scheduler
  import opened Sleepers

  /** The deadline fields of the listed tasks. */
  ghost predicate Deadlines(deadline: map<Task, nat>, s: seq<Sleeper>) {
    forall i :: 0 <= i < |s| ==> s[i].task in deadline && deadline[s[i].task] == s[i].deadline
  }

  class SleepList {
    var head: Option<Task>
    var next: map<Task, Option<Task>>
    var deadline: map<Task, nat>
    var woken: seq<Task>            // tasks made READY and linked in run queues, in order
    ghost var list: seq<Sleeper>

    ghost predicate Valid() reads this {
      ChainSpells(head, next, Tasks(list)) && Deadlines(deadline, list) && Ordered(list)
    }

    constructor ()
      ensures Valid() && list == [] && woken == []
    {
      head, next, deadline, woken, list := None, map[], map[], [], [];
    }

    /** sleep_queue_insert: the walk keeps the link it would have to change. */
    method Insert(t: Task, d: nat)
      requires Valid() && t !in Tasks(list)
      modifies this
      ensures Valid() && list == Inserted(old(list), Sleeper(t, d)) && woken == old(woken)
    {
      var before, current, k := Place(d);
      ChainInserted(head, next, Tasks(list), k, t);
      InsertFacts(deadline, list, Sleeper(t, d), k);
      hide ChainSpells, Deadlines, Ordered, Inserted;
      deadline := deadline[t := d];
      next := next[t := current];
      if before.Some? { next := next[before.value := Some(t)]; } else { head := Some(t); }
      list := Inserted(list, Sleeper(t, d));
    }

    /** The first sleeper with a later deadline, and the one before it. */
    method Place(d: nat) returns (before: Option<Task>, current: Option<Task>, ghost k: nat)
      requires Valid()
      ensures k <= |list| && before == At(Tasks(list), k - 1) && current == At(Tasks(list), k)
      ensures (forall i :: 0 <= i < k ==> list[i].deadline <= d) && (k < |list| ==> d < list[k].deadline)
    {
      before, current, k := None, head, 0;
      while current.Some? && deadline[current.value] <= d
        invariant k <= |list| && before == At(Tasks(list), k - 1) && current == At(Tasks(list), k)
        invariant forall i :: 0 <= i < k ==> list[i].deadline <= d
        invariant current.Some? ==> current.value in deadline && deadline[current.value] == list[k].deadline
        decreases |list| - k
      {
        assert ChainLink(next, Tasks(list), k);
        before, current := current, next[current.value];
        k := k + 1;
      }
    }

    /** sleep_queue_wake_expired: wakes exactly the expired sleepers, earliest deadline first. */
    method WakeExpired(now: nat)
      requires Valid()
      modifies this
      ensures Valid() && |list| <= |old(list)|
      ensures var k := |old(list)| - |list|;
        && list == old(list)[k..]
        && (forall j :: 0 <= j < k ==> old(list)[j].deadline <= now)
        && (forall s :: s in list ==> now < s.deadline)
        && woken == old(woken) + Tasks(old(list)[..k])
    {
      hide Tasks, Ordered, Deadlines, ChainSpells, NoDup;
      ghost var k := 0;
      ghost var was := list;
      var due := Due(now);
      while due
        invariant k <= |was| && list == was[k..] && woken == old(woken) + Tasks(was[..k])
        invariant Valid() && due == (list != [] && list[0].deadline <= now)
        invariant forall j :: 0 <= j < k ==> was[j].deadline <= now
        decreases |list|
      {
        OneMoreTask(was, k);
        WakeHead();
        k := k + 1;
        due := Due(now);
      }
      SuffixOrdered(was, k, now);
    }

    /** The head's deadline has passed. */
    method Due(now: nat) returns (due: bool)
      requires Valid()
      ensures due == (list != [] && list[0].deadline <= now)
    {
      due := head.Some? && deadline[head.value] <= now;
    }

    method WakeHead()
      requires Valid() && list != []
      modifies this
      ensures Valid() && list == old(list)[1..] && woken == old(woken) + [old(list)[0].task]
    {
      assert ChainLink(next, Tasks(list), 0);
      PopChain(head, next, Tasks(list));
      PopDeadlines(deadline, list);
      var t := head.value;
      head := next[t];
      next := next[t := None];
      deadline := deadline[t := 0];
      woken := woken + [t];
      list := list[1..];
    }
  }

  lemma {:induction false} InsertsAt(s: seq<Sleeper>, x: Sleeper, k: nat)
    requires k <= |s| && (forall i :: 0 <= i < k ==> s[i].deadline <= x.deadline) && (k < |s| ==> x.deadline < s[k].deadline)
    ensures Inserted(s, x) == s[..k] + [x] + s[k..]
  {
    if k > 0 {
      InsertsAt(s[1..], x, k - 1);
      assert s[..k] == [s[0]] + s[1..][..k - 1] && s[1..][k - 1..] == s[k..];
    }
  }

  /** Inserting at the place found keeps order and deadlines, and inserts the task in the chain. */
  lemma InsertFacts(deadline: map<Task, nat>, s: seq<Sleeper>, x: Sleeper, k: nat)
    requires Ordered(s) && Deadlines(deadline, s) && x.task !in Tasks(s) && k <= |s|
    requires (forall i :: 0 <= i < k ==> s[i].deadline <= x.deadline) && (k < |s| ==> x.deadline < s[k].deadline)
    ensures Ordered(Inserted(s, x)) && Deadlines(deadline[x.task := x.deadline], Inserted(s, x))
    ensures Tasks(Inserted(s, x)) == Tasks(s)[..k] + [x.task] + Tasks(s)[k..]
  {
    hide Ordered, Inserted, Tasks;
    InsertsAt(s, x, k);
    InsertedOrdered(s, x);
    InsertDeadlines(deadline, s, x, k);
    InsertTasks(s, x, k);
  }

  lemma InsertDeadlines(deadline: map<Task, nat>, s: seq<Sleeper>, x: Sleeper, k: nat)
    requires Deadlines(deadline, s) && x.task !in Tasks(s) && k <= |s|
    ensures Deadlines(deadline[x.task := x.deadline], s[..k] + [x] + s[k..])
  {
    hide Tasks;
    var r := s[..k] + [x] + s[k..];
    forall i | 0 <= i < |s| ensures s[i].task != x.task { assert Tasks(s)[i] in Tasks(s); }
    forall i | 0 <= i < |r| ensures r[i] == if i < k then s[i] else if i == k then x else s[i - 1] {}
  }

  lemma InsertTasks(s: seq<Sleeper>, x: Sleeper, k: nat)
    requires k <= |s|
    ensures Tasks(s[..k] + [x] + s[k..]) == Tasks(s)[..k] + [x.task] + Tasks(s)[k..]
  {
    TasksAppend(s[..k] + [x], s[k..]);
    TasksPush(s[..k], x);
    TasksAppend(s[..k], s[k..]);
    assert s[..k] + s[k..] == s;
  }

  lemma PopChain(head: Option<Task>, next: map<Task, Option<Task>>, q: seq<Task>)
    requires ChainSpells(head, next, q) && q != []
    ensures ChainSpells(At(q, 1), next[q[0] := None], q[1..])
  {
    ChainCut(head, next, q, 0);
    assert q[..0] + q[1..] == q[1..];
    PopMembers(q);
    ChainOther(At(q, 1), next, q[1..], q[0], None);
  }

  lemma PopDeadlines(deadline: map<Task, nat>, s: seq<Sleeper>)
    requires Deadlines(deadline, s) && Ordered(s) && s != [] && NoDup(Tasks(s))
    ensures Deadlines(deadline[s[0].task := 0], s[1..]) && Ordered(s[1..]) && Tasks(s[1..]) == Tasks(s)[1..]
  {
    var q := Tasks(s);
    forall i | 1 <= i < |s| ensures s[i].task != s[0].task { assert q[i] != q[0]; }
  }

  /** The rest of an ordered list, whose first deadline lies ahead. */
  lemma SuffixOrdered(s: seq<Sleeper>, k: nat, now: nat)
    requires Ordered(s) && k <= |s| && (k < |s| ==> now < s[k].deadline)
    ensures Ordered(s[k..]) && forall x :: x in s[k..] ==> now < x.deadline
  {}

  lemma OneMoreTask(s: seq<Sleeper>, k: nat)
    requires k < |s|
    ensures Tasks(s[..k + 1]) == Tasks(s[..k]) + [s[k].task]
  {
    assert s[..k + 1] == s[..k] + [s[k]];
    TasksPush(s[..k], s[k]);
  }
}
