/**
 What pipe calls do for their callers, stated over the states before and after a region and not
 through the functions that compute it; and what follows over whole runs.
 */
module PipeCalls {
  import opened Sequences
  import opened PipeSpec

  // ---- the effects -----------------------------------------------------------------------------

  /** A call that is no longer asleep. */
  predicate Awake(c: Call, c2: Call) {
    match c
    case Idle => c2 == Idle
    case Reading(size, _) => c2 == Reading(size, false)
    case Writing(rest, done, _) => c2 == Writing(rest, done, false)
  }

  /** The first task of the queue, if any, leaves it awake; nobody else but t moves. */
  ghost predicate FirstWakes(q: seq<Task>, q2: seq<Task>, s: System, n: System, t: Task) {
    && n.call.Keys == s.call.Keys
    && if q == [] then q2 == [] && forall u :: u in s.call && u != t ==> n.call[u] == s.call[u]
       else q2 == q[1..] && forall u :: u in s.call && u != t ==>
              if u == q[0] then Awake(s.call[u], n.call[u]) else n.call[u] == s.call[u]
  }

  /** Everybody in the queue leaves it awake, and nobody else moves. */
  ghost predicate AllWake(q: seq<Task>, s: System, n: System) {
    n.call.Keys == s.call.Keys && forall u :: u in s.call ==> if u in q then Awake(s.call[u], n.call[u]) else n.call[u] == s.call[u]
  }

  /** t's read goes on: as many bytes as there are and as were asked for, the end of file, or sleep. */
  ghost predicate ReadServed(s: System, t: Task, size: nat, n: System)
    requires t in s.call
  {
    var c := s.p.content;
    if c != [] then
      var k := if size < |c| then size else |c|;
      && n.p == s.p.(content := c[k..], writeWaiters := n.p.writeWaiters)
      && n.delivered == s.delivered + c[..k] && n.answers == s.answers + [Got(t, c[..k])] && n.accepted == s.accepted
      && FirstWakes(s.p.writeWaiters, n.p.writeWaiters, s, n, t) && n.call[t] == Idle
    else if s.p.writers == 0 then
      n == s.(call := s.call[t := Idle], answers := s.answers + [Got(t, [])])
    else
      n == s.(call := s.call[t := Reading(size, true)], p := s.p.(readWaiters := s.p.readWaiters + [t]))
  }

  /** t's write goes on: broken without readers, as many bytes as fit, or sleep. */
  ghost predicate WriteServed(s: System, t: Task, src: seq<Byte>, done: nat, n: System)
    requires t in s.call
  {
    if s.p.readers == 0 then
      n == s.(call := s.call[t := Idle], answers := s.answers + [Put(t, done, true)])
    else if |s.p.content| < PIPE_BUF_SIZE then
      var room := PIPE_BUF_SIZE - |s.p.content|;
      var k := if room < |src| then room else |src|;
      && n.p == s.p.(content := s.p.content + src[..k], readWaiters := n.p.readWaiters)
      && n.accepted == s.accepted + src[..k] && n.delivered == s.delivered
      && FirstWakes(s.p.readWaiters, n.p.readWaiters, s, n, t)
      && (if k == |src| then n.call[t] == Idle && n.answers == s.answers + [Put(t, done + k, false)]
          else n.call[t] == Writing(src[k..], done + k, false) && n.answers == s.answers)
    else
      n == s.(call := s.call[t := Writing(src, done, true)], p := s.p.(writeWaiters := s.p.writeWaiters + [t]))
  }

  ghost predicate Serves(s: System, e: Event, n: System) {
    match e
    case StartRead(t, size) => n == s.(call := s.call[t := Reading(size, false)])
    case StartWrite(t, src) => n == s.(call := s.call[t := Writing(src, 0, false)])
    case Read(t) => t in s.call && s.call[t].Reading? && ReadServed(s, t, s.call[t].size, n)
    case Write(t) => t in s.call && s.call[t].Writing? && WriteServed(s, t, s.call[t].rest, s.call[t].done, n)
    case CloseReader =>
      && n == s.(p := s.p.(readers := n.p.readers, writeWaiters := n.p.writeWaiters), call := n.call)
      && (s.p.readers > 0 ==> n.p.readers == s.p.readers - 1) && (s.p.readers == 0 ==> n.p.readers == 0)
      && n.p.writeWaiters == (if n.p.readers == 0 then [] else s.p.writeWaiters)
      && AllWake(if n.p.readers == 0 then s.p.writeWaiters else [], s, n)
    case CloseWriter =>
      && n == s.(p := s.p.(writers := n.p.writers, readWaiters := n.p.readWaiters), call := n.call)
      && (s.p.writers > 0 ==> n.p.writers == s.p.writers - 1) && (s.p.writers == 0 ==> n.p.writers == 0)
      && n.p.readWaiters == (if n.p.writers == 0 then [] else s.p.readWaiters)
      && AllWake(if n.p.writers == 0 then s.p.readWaiters else [], s, n)
  }

  /** Off the queue is its head, or everybody, or nobody. */
  lemma PopWakes(q: seq<Task>, u: Task)
    requires NoDup(q)
    ensures (u in q && u !in Pop(q)) <==> q != [] && u == q[0]
  {
    if q != [] { PopMembers(q); }
  }

  lemma ReadServes(s: System, t: Task)
    requires Inv(s) && Enabled(s, Read(t))
    ensures ReadServed(s, t, s.call[t].size, ReadStep(s, t))
  {
    assert CallOk(s, t);
    forall u ensures (u in s.p.writeWaiters && u !in Pop(s.p.writeWaiters)) <==> s.p.writeWaiters != [] && u == s.p.writeWaiters[0] {
      PopWakes(s.p.writeWaiters, u);
    }
    hide Inv, CallOk;
  }

  lemma WriteServes(s: System, t: Task)
    requires Inv(s) && Enabled(s, Write(t))
    ensures WriteServed(s, t, s.call[t].rest, s.call[t].done, WriteStep(s, t))
  {
    assert CallOk(s, t);
    forall u ensures (u in s.p.readWaiters && u !in Pop(s.p.readWaiters)) <==> s.p.readWaiters != [] && u == s.p.readWaiters[0] {
      PopWakes(s.p.readWaiters, u);
    }
    hide Inv, CallOk;
  }

  /** Every region does what its caller is promised. */
  lemma StepServes(s: System, e: Event)
    requires Inv(s) && Enabled(s, e)
    ensures Serves(s, e, Apply(s, e))
  {
    hide Inv, ReadServed, WriteServed, ReadStep, WriteStep;
    match e
    case Read(t) => ReadServes(s, t);
    case Write(t) => WriteServes(s, t);
    case CloseReader => CloseServes(s);
    case CloseWriter => CloseServes(s);
    case _ =>
  }

  lemma CloseServes(s: System)
    ensures Serves(s, CloseReader, Apply(s, CloseReader)) && Serves(s, CloseWriter, Apply(s, CloseWriter))
  {}

  // ---- whole runs ----------------------------------------------------------------------------------

  function Closes(es: seq<Event>, e: Event): nat {
    if es == [] then 0 else (if es[0] == e then 1 else 0) + Closes(es[1..], e)
  }

  function Less(a: nat, b: nat): nat { if a < b then 0 else a - b }

  /** The ends that are open are those opened and not closed since. */
  lemma {:induction false} EndsCounted(s: System, es: seq<Event>)
    requires Inv(s) && IsRun(s, es)
    ensures Run(s, es).p.readers == Less(s.p.readers, Closes(es, CloseReader))
    ensures Run(s, es).p.writers == Less(s.p.writers, Closes(es, CloseWriter))
    decreases |es|
  {
    hide Inv, Apply, Enabled;
    if es != [] {
      StepServes(s, es[0]);
      StepKeeps(s, es[0]);
      EndsCounted(Apply(s, es[0]), es[1..]);
    }
  }

  function Bytes(rs: seq<Return>): seq<Byte> {
    if rs == [] then [] else Bytes(rs[..|rs| - 1]) + (if rs[|rs| - 1].Got? then rs[|rs| - 1].bytes else [])
  }

  lemma BytesPush(rs: seq<Return>, r: Return)
    ensures Bytes(rs + [r]) == Bytes(rs) + if r.Got? then r.bytes else []
  {
    assert (rs + [r])[..|rs|] == rs;
  }

  /** What reads returned, in the order they returned, is what was delivered. */
  ghost predicate Recorded(s: System) { Bytes(s.answers) == s.delivered }

  lemma RecordedStep(s: System, e: Event)
    requires Inv(s) && Enabled(s, e) && Recorded(s)
    ensures Recorded(Apply(s, e))
  {
    hide Inv, Apply, Enabled, FirstWakes, AllWake, Bytes;
    StepServes(s, e);
    var n := Apply(s, e);
    if n.answers != s.answers { BytesPush(s.answers, n.answers[|s.answers|]); }
  }

  /** What a call returned is in order: a read that got nothing found the end, a write that stopped short no reader. */
  ghost predicate Excused(s: System, e: Event, r: Return)
    requires Enabled(s, e)
  {
    match r
    case Got(t, bytes) => e == Read(t) && |bytes| <= s.call[t].size && (bytes == [] ==> s.p.writers == 0 && s.p.content == [])
    case Put(t, count, broken) =>
      && e == Write(t) && s.call[t].done <= count <= s.call[t].done + |s.call[t].rest|
      && (broken <==> s.p.readers == 0) && (!broken ==> count == s.call[t].done + |s.call[t].rest|)
  }

  lemma ReturnsExcused(s: System, e: Event)
    requires Inv(s) && Enabled(s, e)
    ensures var n := Apply(s, e);
      n.answers == s.answers || (|n.answers| == |s.answers| + 1 && s.answers <= n.answers && Excused(s, e, n.answers[|s.answers|]))
  {
    assert e.Read? || e.Write? ==> CallOk(s, e.t);
    hide Inv, Apply, FirstWakes, AllWake, CallOk;
    StepServes(s, e);
  }

  /** Answers stay true over any run, and once the reading end is closed nothing more is taken in. */
  lemma {:induction false} RunRecorded(s: System, es: seq<Event>)
    requires Inv(s) && IsRun(s, es) && Recorded(s)
    ensures Recorded(Run(s, es)) && s.answers <= Run(s, es).answers && s.accepted <= Run(s, es).accepted
    ensures s.p.readers == 0 ==> Run(s, es).accepted == s.accepted
    decreases |es|
  {
    hide Inv, Apply, Enabled, Recorded;
    if es != [] {
      RecordedStep(s, es[0]);
      StepKeeps(s, es[0]);
      StepGrows(s, es[0]);
      RunRecorded(Apply(s, es[0]), es[1..]);
    }
  }

  lemma StepGrows(s: System, e: Event)
    requires Inv(s) && Enabled(s, e)
    ensures var n := Apply(s, e);
      && s.answers <= n.answers && s.accepted <= n.accepted
      && (s.p.readers == 0 ==> n.accepted == s.accepted && n.p.readers == 0)
  {
    hide Inv, Apply, Enabled, FirstWakes, AllWake;
    StepServes(s, e);
  }

  /**
   From a new pipe, over any run: readers got, in the order in which they got them, a prefix of
   what writers put in, and no more than a ring is missing; the ends still open are counted right.
   */
  lemma ReadersGet(tasks: set<Task>, es: seq<Event>)
    requires IsRun(Opened(tasks), es)
    ensures var n := Run(Opened(tasks), es);
      && Bytes(n.answers) <= n.accepted && |n.accepted| - |Bytes(n.answers)| <= PIPE_BUF_SIZE
      && n.p.readers == Less(1, Closes(es, CloseReader)) && n.p.writers == Less(1, Closes(es, CloseWriter))
  {
    hide IsRun, Run;
    var s := Opened(tasks);
    assert Inv(s) && Recorded(s);
    RunRecorded(s, es);
    EndsCounted(s, es);
    BytesInOrder(tasks, es);
  }
}
