/**
 The linked queues under the scheduler. Run queues and mutex wait queues thread the same
 next and prev fields through the tasks, so a task may be on one of them at a time.
 */
module TaskLists {
  import opened Options
  import opened LinkedLists
  import opened Scheduler

  datatype Links = Links(head: map<nat, Option<Task>>, tail: map<nat, Option<Task>>,
                         next: map<Task, Option<Task>>, prev: map<Task, Option<Task>>)

  /** The links spell every queue, and no task is on two of them. */
  ghost predicate AllSpelled(l: Links, queues: map<nat, seq<Task>>) {
    && l.head.Keys == queues.Keys && l.tail.Keys == queues.Keys
    && (forall q :: q in queues ==> Spells(l.head[q], l.tail[q], l.next, l.prev, queues[q]))
    && Apart(queues)
  }

  ghost predicate Apart(queues: map<nat, seq<Task>>) {
    forall q, r, t :: q in queues && r in queues && q != r && t in queues[q] ==> t !in queues[r]
  }

  ghost predicate Unlinked(queues: map<nat, seq<Task>>, t: Task) {
    forall r :: r in queues ==> t !in queues[r]
  }

  class TaskQueues {
    var head: map<nat, Option<Task>>
    var tail: map<nat, Option<Task>>
    var next: map<Task, Option<Task>>
    var prev: map<Task, Option<Task>>
    ghost var queues: map<nat, seq<Task>>

    ghost predicate Valid() reads this { AllSpelled(Links(head, tail, next, prev), queues) }

    constructor (ids: set<nat>)
      ensures Valid() && queues == map q | q in ids :: []
    {
      head, tail := map q | q in ids :: None, map q | q in ids :: None;
      next, prev := map[], map[];
      queues := map q | q in ids :: [];
    }

    /** rq_enqueue_locked, and the linking of a waiter by mutex_lock. */
    method Enqueue(q: nat, t: Task)
      requires Valid() && q in queues && Unlinked(queues, t)
      modifies this
      ensures Valid() && queues == old(queues)[q := old(queues)[q] + [t]]
    {
      hide AllSpelled, Unlinked;
      Ends(Links(head, tail, next, prev), queues, q);
      EnqueueSpells(Links(head, tail, next, prev), queues, q, t);
      var last := tail[q];
      next := next[t := None];
      prev := prev[t := last];
      if last.Some? { next := next[last.value := Some(t)]; } else { head := head[q := Some(t)]; }
      tail := tail[q := Some(t)];
      queues := queues[q := queues[q] + [t]];
    }

    /** rq_dequeue_locked, and the unlinking of the first waiter by mutex_unlock. */
    method Dequeue(q: nat) returns (t: Option<Task>)
      requires Valid() && q in queues
      modifies this
      ensures Valid() && t == At(old(queues)[q], 0)
      ensures queues == if t.None? then old(queues) else old(queues)[q := old(queues)[q][1..]]
    {
      hide AllSpelled;
      Ends(Links(head, tail, next, prev), queues, q);
      t := head[q];
      if t.None? { return; }
      DequeueSpells(Links(head, tail, next, prev), queues, q);
      var first := next[t.value];
      head := head[q := first];
      if first.Some? { prev := prev[first.value := None]; } else { tail := tail[q := None]; }
      next, prev := next[t.value := None], prev[t.value := None];
      queues := queues[q := queues[q][1..]];
    }
  }

  lemma Ends(l: Links, queues: map<nat, seq<Task>>, q: nat)
    requires AllSpelled(l, queues) && q in queues
    ensures q in l.head && q in l.tail && l.head[q] == At(queues[q], 0) && l.tail[q] == At(queues[q], |queues[q]| - 1)
    ensures queues[q] != [] ==> queues[q][0] in l.next && l.next[queues[q][0]] == At(queues[q], 1)
  {
    assert queues[q] != [] ==> Linked(l.next, l.prev, queues[q], 0);
  }

  function EnqueueLinks(l: Links, q: nat, t: Task): Links
    requires q in l.tail
  {
    var n := l.next[t := None];
    Links(if l.tail[q].Some? then l.head else l.head[q := Some(t)], l.tail[q := Some(t)],
          if l.tail[q].Some? then n[l.tail[q].value := Some(t)] else n, l.prev[t := l.tail[q]])
  }

  lemma EnqueueSpells(l: Links, queues: map<nat, seq<Task>>, q: nat, t: Task)
    requires AllSpelled(l, queues) && q in queues && Unlinked(queues, t) && q in l.tail
    ensures AllSpelled(EnqueueLinks(l, q, t), queues[q := queues[q] + [t]])
  {
    hide Spells;
    var n, qs := EnqueueLinks(l, q, t), queues[q := queues[q] + [t]];
    Ends(l, queues, q);
    forall r | r in qs ensures Spells(n.head[r], n.tail[r], n.next, n.prev, qs[r]) {
      if r == q { Appended(queues[q], t, l.next, l.prev, n.next, n.prev); }
      else {
        var x := {t} + if queues[q] == [] then {} else {queues[q][|queues[q]| - 1]};
        assert forall y :: y in x ==> y !in queues[r];
        Ends(l, queues, r);
        Untouched(queues[r], x, l.next, l.prev, n.next, n.prev);
      }
    }
  }

  function DequeueLinks(l: Links, q: nat): Links
    requires q in l.head && l.head[q].Some? && l.head[q].value in l.next
  {
    var t := l.head[q].value;
    var first := l.next[t];
    Links(l.head[q := first], if first.Some? then l.tail else l.tail[q := None],
          l.next[t := None], (if first.Some? then l.prev[first.value := None] else l.prev)[t := None])
  }

  lemma DequeueSpells(l: Links, queues: map<nat, seq<Task>>, q: nat)
    requires AllSpelled(l, queues) && q in queues && q in l.head && l.head[q].Some? && l.head[q].value in l.next
    ensures AllSpelled(DequeueLinks(l, q), queues[q := queues[q][1..]])
  {
    hide Spells;
    Ends(l, queues, q);
    var n, qs := DequeueLinks(l, q), queues[q := queues[q][1..]];
    var was := queues[q];
    forall r | r in qs ensures Spells(n.head[r], n.tail[r], n.next, n.prev, qs[r]) {
      if r == q { Popped(was, l.next, l.prev, n.next, n.prev); }
      else {
        var x := {was[0]} + if |was| > 1 then {was[1]} else {};
        assert forall y :: y in x ==> y in was && y !in queues[r];
        Ends(l, queues, r);
        Untouched(queues[r], x, l.next, l.prev, n.next, n.prev);
      }
    }
    assert forall y :: y in was[1..] ==> y in was;
  }
}
