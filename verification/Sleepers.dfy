/** Sleep lists on values: tasks ordered by deadline, earliest first. */
module Sleepers {
  import opened Sequences
  import opened Scheduler

  datatype Sleeper = Sleeper(task: Task, deadline: nat)

  ghost predicate Ordered(s: seq<Sleeper>) {
    forall i, j :: 0 <= i < j < |s| ==> s[i].deadline <= s[j].deadline
  }

  /** sleep_queue_insert: after every sleeper with an equal or earlier deadline. */
  function Inserted(s: seq<Sleeper>, x: Sleeper): seq<Sleeper> {
    if s == [] || x.deadline < s[0].deadline then [x] + s else [s[0]] + Inserted(s[1..], x)
  }

  function Tasks(s: seq<Sleeper>): (r: seq<Task>)
    ensures |r| == |s| && forall i :: 0 <= i < |s| ==> r[i] == s[i].task
  {
    seq(|s|, i requires 0 <= i < |s| => s[i].task)
  }

  lemma {:induction false} InsertedMembers(s: seq<Sleeper>, x: Sleeper)
    ensures |Inserted(s, x)| == |s| + 1
    ensures forall y :: y in Inserted(s, x) <==> y == x || y in s
  {
    if s != [] && x.deadline >= s[0].deadline {
      InsertedMembers(s[1..], x);
      assert forall y :: y in s <==> y == s[0] || y in s[1..];
    }
  }

  lemma {:induction false} InsertedOrdered(s: seq<Sleeper>, x: Sleeper)
    requires Ordered(s)
    ensures Ordered(Inserted(s, x))
  {
    if s != [] && x.deadline >= s[0].deadline {
      InsertedOrdered(s[1..], x);
      InsertedMembers(s[1..], x);
      var r := Inserted(s[1..], x);
      forall j | 0 <= j < |r| ensures s[0].deadline <= r[j].deadline { assert r[j] in r; }
    }
  }

  lemma TasksAppend(s: seq<Sleeper>, r: seq<Sleeper>)
    ensures Tasks(s + r) == Tasks(s) + Tasks(r)
  {
    hide Tasks;
    assert |Tasks(s + r)| == |Tasks(s) + Tasks(r)|;
  }

  lemma TasksPush(s: seq<Sleeper>, x: Sleeper)
    ensures Tasks(s + [x]) == Tasks(s) + [x.task]
  {
    TasksAppend(s, [x]);
    assert Tasks([x]) == [x.task];
  }

  lemma TasksCons(x: Sleeper, s: seq<Sleeper>)
    ensures Tasks([x] + s) == [x.task] + Tasks(s)
  {
    TasksAppend([x], s);
    assert Tasks([x]) == [x.task];
  }

  lemma {:induction false} InsertedTasks(s: seq<Sleeper>, x: Sleeper)
    requires NoDup(Tasks(s)) && x.task !in Tasks(s)
    ensures NoDup(Tasks(Inserted(s, x)))
    ensures forall t :: t in Tasks(Inserted(s, x)) <==> t == x.task || t in Tasks(s)
  {
    if s == [] || x.deadline < s[0].deadline {
      TasksCons(x, s);
      PushMembers(Tasks(s), x.task);
    } else {
      var r := Inserted(s[1..], x);
      assert Tasks(s)[1..] == Tasks(s[1..]);
      PopMembers(Tasks(s));
      InsertedTasks(s[1..], x);
      TasksCons(s[0], r);
      PushMembers(Tasks(r), s[0].task);
    }
  }

  // ---- the sleep lists of all CPUs agree with the parked tasks ------------------------------------

  ghost predicate ListOk(s: Sched, z: seq<Sleeper>, c: Cpu) {
    NoDup(Tasks(z)) && Ordered(z) && forall t :: t in Tasks(z) ==> SleepsOn(s, c, t)
  }

  ghost predicate SleepsOn(s: Sched, c: Cpu, t: Task) {
    t in s.place && s.place[t] == Asleep && t in s.home && s.home[t] == c
  }

  /** A task is on a sleep list, its home CPU's, exactly while it is parked asleep. */
  ghost predicate SleepInv(s: Sched, z: map<Cpu, seq<Sleeper>>) {
    && z.Keys == s.current.Keys
    && (forall c :: c in z ==> ListOk(s, z[c], c))
    && (forall t :: t in s.place && s.place[t] == Asleep ==> Listed(s, z, t))
  }

  ghost predicate Listed(s: Sched, z: map<Cpu, seq<Sleeper>>, t: Task) {
    t in s.home && s.home[t] in z && t in Tasks(z[s.home[t]])
  }

  lemma SleepFrame(s: Sched, n: Sched, z: map<Cpu, seq<Sleeper>>)
    requires SleepInv(s, z) && n.current.Keys == s.current.Keys
    requires forall t :: (t in n.place && n.place[t] == Asleep) <==> (t in s.place && s.place[t] == Asleep)
    requires forall t :: t in s.home ==> t in n.home && n.home[t] == s.home[t]
    ensures SleepInv(n, z)
  {
    forall c | c in z ensures ListOk(n, z[c], c) {
      assert ListOk(s, z[c], c);
      forall t | t in Tasks(z[c]) ensures SleepsOn(n, c, t) { assert SleepsOn(s, c, t); }
    }
    forall t | t in n.place && n.place[t] == Asleep ensures Listed(n, z, t) { assert Listed(s, z, t); }
  }

  lemma SleepInserts(s: Sched, z: map<Cpu, seq<Sleeper>>, t: Task, deadline: nat)
    requires SleepInv(s, z) && t !in s.place && t in s.home && s.home[t] in z
    ensures SleepInv(Park(s, t, Asleep), z[s.home[t] := Inserted(z[s.home[t]], Sleeper(t, deadline))])
  {
    var h, x := s.home[t], Sleeper(t, deadline);
    var n, y := Park(s, t, Asleep), z[h := Inserted(z[h], x)];
    assert ListOk(s, z[h], h);
    assert t !in Tasks(z[h]) by { assert t in Tasks(z[h]) ==> SleepsOn(s, h, t); }
    InsertedTasks(z[h], x);
    InsertedOrdered(z[h], x);
    forall c | c in y ensures ListOk(n, y[c], c) {
      assert ListOk(s, z[c], c);
      forall u | u in Tasks(y[c]) ensures SleepsOn(n, c, u) { assert u != t ==> SleepsOn(s, c, u); }
    }
    forall u | u in n.place && n.place[u] == Asleep ensures Listed(n, y, u) { assert u != t ==> Listed(s, z, u); }
  }

  /** The head of a sleep list is asleep there, and leaves the list when it is woken. */
  lemma SleepPops(s: Sched, z: map<Cpu, seq<Sleeper>>, c: Cpu)
    requires SleepInv(s, z) && c in z && z[c] != []
    ensures SleepsOn(s, c, z[c][0].task)
    ensures SleepInv(Wake(s, z[c][0].task), z[c := z[c][1..]])
  {
    var t := z[c][0].task;
    var n, y := Wake(s, t), z[c := z[c][1..]];
    assert ListOk(s, z[c], c);
    assert Tasks(z[c])[0] == t && Tasks(z[c])[1..] == Tasks(z[c][1..]);
    assert t in Tasks(z[c]) && SleepsOn(s, c, t);
    PopMembers(Tasks(z[c]));
    forall d | d in y ensures ListOk(n, y[d], d) {
      assert ListOk(s, z[d], d);
      forall u | u in Tasks(y[d]) ensures SleepsOn(n, d, u) { assert SleepsOn(s, d, u); }
    }
    forall u | u in n.place && n.place[u] == Asleep ensures Listed(n, y, u) { assert Listed(s, z, u); }
  }
}
