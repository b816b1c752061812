/**
 A pipe under its lock, on values, and every interleaving of the tasks that use it. A step is
 one region under the pipe lock; a parked task re-enters its loop after a peer popped it.
 */
module PipeSpec {
  import opened Sequences

  type Task = nat
  type Byte = nat

  const PIPE_BUF_SIZE: nat := 4096

  datatype Pipe = Pipe(content: seq<Byte>, readers: nat, writers: nat, readWaiters: seq<Task>, writeWaiters: seq<Task>)

  function Min(a: nat, b: nat): nat { if a < b then a else b }

  function Pop(q: seq<Task>): seq<Task> { if q == [] then q else q[1..] }

  // ---- the three regions --------------------------------------------------------------------------

  datatype Outcome = Parked | Moved(count: nat) | Ended       // Ended: end of file, or a broken pipe

  function ReadOutcome(p: Pipe, size: nat): Outcome {
    if |p.content| > 0 then Moved(Min(|p.content|, size)) else if p.writers == 0 then Ended else Parked
  }

  function ReadRegion(p: Pipe, me: Task, size: nat): Pipe {
    match ReadOutcome(p, size)
    case Moved(n) => p.(content := p.content[Min(|p.content|, size)..], writeWaiters := Pop(p.writeWaiters))
    case Ended => p
    case Parked => p.(readWaiters := p.readWaiters + [me])
  }

  function Space(p: Pipe): nat { if |p.content| < PIPE_BUF_SIZE then PIPE_BUF_SIZE - |p.content| else 0 }

  function WriteOutcome(p: Pipe, size: nat): Outcome {
    if p.readers == 0 then Ended else if Space(p) > 0 then Moved(Min(Space(p), size)) else Parked
  }

  function WriteRegion(p: Pipe, me: Task, src: seq<Byte>): Pipe {
    match WriteOutcome(p, |src|)
    case Moved(n) => p.(content := p.content + src[..Min(Space(p), |src|)], readWaiters := Pop(p.readWaiters))
    case Ended => p
    case Parked => p.(writeWaiters := p.writeWaiters + [me])
  }

  function CloseRead(p: Pipe): Pipe {
    var q := p.(readers := if p.readers > 0 then p.readers - 1 else 0);
    if q.readers == 0 then q.(writeWaiters := []) else q
  }

  function CloseWrite(p: Pipe): Pipe {
    var q := p.(writers := if p.writers > 0 then p.writers - 1 else 0);
    if q.writers == 0 then q.(readWaiters := []) else q
  }

  // ---- tasks -----------------------------------------------------------------------------------------

  /** What a task is doing; `asleep` until a peer takes it off its queue; `done` bytes are in the ring already. */
  datatype Call = Idle | Reading(size: nat, asleep: bool) | Writing(rest: seq<Byte>, done: nat, asleep: bool)

  /** What a call returned: bytes, none at the end of file; or how many were written before it ended. */
  datatype Return = Got(t: Task, bytes: seq<Byte>) | Put(t: Task, count: nat, broken: bool)

  /** accepted, delivered and answers are histories. */
  datatype System = System(p: Pipe, call: map<Task, Call>, accepted: seq<Byte>, delivered: seq<Byte>, answers: seq<Return>)

  datatype Event =
    | StartRead(t: Task, size: nat)
    | StartWrite(t: Task, src: seq<Byte>)
    | Read(t: Task)
    | Write(t: Task)
    | CloseReader
    | CloseWriter

  predicate Enabled(s: System, e: Event) {
    match e
    case StartRead(t, size) => t in s.call && s.call[t] == Idle && size > 0
    case StartWrite(t, src) => t in s.call && s.call[t] == Idle && src != []
    case Read(t) => t in s.call && s.call[t].Reading? && !s.call[t].asleep
    case Write(t) => t in s.call && s.call[t].Writing? && !s.call[t].asleep
    case _ => true
  }

  function WakeCall(c: Call): Call {
    match c
    case Idle => Idle
    case Reading(size, _) => Reading(size, false)
    case Writing(rest, done, _) => Writing(rest, done, false)
  }

  /** The calls after the tasks that left a queue were made READY. */
  function Woken(call: map<Task, Call>, before: seq<Task>, after: seq<Task>): map<Task, Call> {
    map t | t in call :: if t in before && t !in after then WakeCall(call[t]) else call[t]
  }

  function Apply(s: System, e: Event): System
    requires Enabled(s, e)
  {
    match e
    case StartRead(t, size) => s.(call := s.call[t := Reading(size, false)])
    case StartWrite(t, src) => s.(call := s.call[t := Writing(src, 0, false)])
    case Read(t) => ReadStep(s, t)
    case Write(t) => WriteStep(s, t)
    case CloseReader => s.(p := CloseRead(s.p), call := Woken(s.call, s.p.writeWaiters, CloseRead(s.p).writeWaiters))
    case CloseWriter => s.(p := CloseWrite(s.p), call := Woken(s.call, s.p.readWaiters, CloseWrite(s.p).readWaiters))
  }

  function ReadStep(s: System, t: Task): System
    requires Enabled(s, Read(t))
  {
    var size := s.call[t].size;
    var q := ReadRegion(s.p, t, size);
    match ReadOutcome(s.p, size)
    case Moved(n) =>
      var bytes := s.p.content[..Min(|s.p.content|, size)];
      System(q, Woken(s.call[t := Idle], s.p.writeWaiters, q.writeWaiters), s.accepted, s.delivered + bytes, s.answers + [Got(t, bytes)])
    case Ended => s.(call := s.call[t := Idle], answers := s.answers + [Got(t, [])])
    case Parked => s.(p := q, call := s.call[t := Reading(size, true)])
  }

  function WriteStep(s: System, t: Task): System
    requires Enabled(s, Write(t))
  {
    var src, done := s.call[t].rest, s.call[t].done;
    var q := WriteRegion(s.p, t, src);
    match WriteOutcome(s.p, |src|)
    case Moved(_) =>
      var n := Min(Space(s.p), |src|);
      System(q, Woken(s.call[t := if n == |src| then Idle else Writing(src[n..], done + n, false)], s.p.readWaiters, q.readWaiters),
             s.accepted + src[..n], s.delivered, if n == |src| then s.answers + [Put(t, done + n, false)] else s.answers)
    case Ended => s.(call := s.call[t := Idle], answers := s.answers + [Put(t, done, true)])
    case Parked => s.(p := q, call := s.call[t := Writing(src, done, true)])
  }

  // ---- the invariant ---------------------------------------------------------------------------------

  /** Bytes in order, none lost or invented; the ring never overflows. */
  ghost predicate StreamOk(s: System) {
    s.delivered + s.p.content == s.accepted && |s.p.content| <= PIPE_BUF_SIZE
  }

  ghost predicate CallOk(s: System, t: Task) {
    && t in s.call
    && (t in s.p.readWaiters <==> s.call[t].Reading? && s.call[t].asleep)
    && (t in s.p.writeWaiters <==> s.call[t].Writing? && s.call[t].asleep)
    && Pending(s.call[t])
  }

  /** A call under way still has bytes to move. */
  predicate Pending(c: Call) { (c.Reading? ==> c.size > 0) && (c.Writing? ==> c.rest != []) }

  /** The waiter queues hold exactly the sleeping tasks, once each, and only while a peer end is open. */
  ghost predicate QueuesOk(s: System) {
    && NoDup(s.p.readWaiters) && NoDup(s.p.writeWaiters)
    && (forall t :: t in s.p.readWaiters || t in s.p.writeWaiters ==> t in s.call)
    && (forall t :: t in s.call ==> CallOk(s, t))
    && (s.p.readWaiters != [] ==> s.p.writers > 0)
    && (s.p.writeWaiters != [] ==> s.p.readers > 0)
  }

  ghost predicate Inv(s: System) { StreamOk(s) && QueuesOk(s) }

  lemma ReadStream(s: System, t: Task)
    requires StreamOk(s) && Enabled(s, Read(t))
    ensures StreamOk(ReadStep(s, t))
  {
    var n := Min(|s.p.content|, s.call[t].size);
    assert s.p.content == s.p.content[..n] + s.p.content[n..];
    assert s.delivered + s.p.content == (s.delivered + s.p.content[..n]) + s.p.content[n..];
  }

  lemma WriteStream(s: System, t: Task)
    requires StreamOk(s) && Enabled(s, Write(t))
    ensures StreamOk(WriteStep(s, t))
  {
    var src := s.call[t].rest;
    var n := Min(Space(s.p), |src|);
    assert s.delivered + (s.p.content + src[..n]) == (s.delivered + s.p.content) + src[..n];
  }

  /** Taking tasks off one queue and waking exactly those. */
  lemma WokenOk(s: System, n: System)
    requires QueuesOk(s)
    requires n.p.readWaiters == s.p.readWaiters || n.p.readWaiters == Pop(s.p.readWaiters) || n.p.readWaiters == []
    requires n.p.writeWaiters == s.p.writeWaiters || n.p.writeWaiters == Pop(s.p.writeWaiters) || n.p.writeWaiters == []
    requires n.call == Woken(Woken(s.call, s.p.readWaiters, n.p.readWaiters), s.p.writeWaiters, n.p.writeWaiters)
    requires n.p.readWaiters != [] ==> n.p.writers > 0
    requires n.p.writeWaiters != [] ==> n.p.readers > 0
    ensures QueuesOk(n)
  {
    Popped(s.p.readWaiters);
    Popped(s.p.writeWaiters);
    forall t | t in n.call ensures CallOk(n, t) { assert CallOk(s, t); }
  }

  lemma Popped(q: seq<Task>)
    requires NoDup(q)
    ensures NoDup(Pop(q)) && forall t :: t in Pop(q) ==> t in q
  {
    if q != [] { PopMembers(q); }
  }

  lemma WokenSame(call: map<Task, Call>, q: seq<Task>)
    ensures Woken(call, q, q) == call
  {}

  /** A task that is on no queue may start, finish or move on with a call. */
  lemma AwakeOk(s: System, n: System, t: Task)
    requires QueuesOk(s) && t in s.call && n.p == s.p && t in n.call && n.call == s.call[t := n.call[t]]
    requires (s.call[t] == Idle || !s.call[t].asleep) && (n.call[t] == Idle || !n.call[t].asleep) && Pending(n.call[t])
    ensures QueuesOk(n)
  {
    assert CallOk(s, t);
    forall u | u in n.call ensures CallOk(n, u) { assert CallOk(s, u); }
  }

  lemma ReadQueues(s: System, t: Task)
    requires QueuesOk(s) && Enabled(s, Read(t))
    ensures QueuesOk(ReadStep(s, t))
  {
    var size := s.call[t].size;
    var n := ReadStep(s, t);
    match ReadOutcome(s.p, size)
    case Moved(_) =>
      var m := s.(call := s.call[t := Idle]);
      AwakeOk(s, m, t);
      WokenSame(m.call, s.p.readWaiters);
      WokenOk(m, n);
    case Ended => AwakeOk(s, n, t);
    case Parked =>
      assert CallOk(s, t);
      PushMembers(s.p.readWaiters, t);
      forall u | u in n.call ensures CallOk(n, u) { assert CallOk(s, u); }
  }

  lemma WriteQueues(s: System, t: Task)
    requires QueuesOk(s) && Enabled(s, Write(t))
    ensures QueuesOk(WriteStep(s, t))
  {
    var src := s.call[t].rest;
    var n := WriteStep(s, t);
    assert CallOk(s, t);
    match WriteOutcome(s.p, |src|)
    case Moved(_) =>
      var k := Min(Space(s.p), |src|);
      var m := s.(call := s.call[t := if k == |src| then Idle else Writing(src[k..], s.call[t].done + k, false)]);
      AwakeOk(s, m, t);
      WokenSame(Woken(m.call, s.p.readWaiters, n.p.readWaiters), s.p.writeWaiters);
      WokenOk(m, n);
    case Ended => AwakeOk(s, n, t);
    case Parked =>
      assert CallOk(s, t);
      PushMembers(s.p.writeWaiters, t);
      forall u | u in n.call ensures CallOk(n, u) { assert CallOk(s, u); }
  }

  lemma StepKeeps(s: System, e: Event)
    requires Inv(s) && Enabled(s, e)
    ensures Inv(Apply(s, e))
  {
    hide QueuesOk;
    match e
    case StartRead(t, size) => AwakeOk(s, Apply(s, e), t);
    case StartWrite(t, src) => AwakeOk(s, Apply(s, e), t);
    case Read(t) =>
      ReadStream(s, t);
      ReadQueues(s, t);
    case Write(t) =>
      WriteStream(s, t);
      WriteQueues(s, t);
    case CloseReader => CloseQueues(s, Apply(s, e));
    case CloseWriter => CloseQueues(s, Apply(s, e));
  }

  lemma CloseQueues(s: System, n: System)
    requires QueuesOk(s) && (n == Apply(s, CloseReader) || n == Apply(s, CloseWriter))
    ensures QueuesOk(n)
  {
    WokenSame(s.call, s.p.readWaiters);
    WokenSame(n.call, s.p.writeWaiters);
    WokenOk(s, n);
  }

  // ---- whole runs -------------------------------------------------------------------------------------

  predicate IsRun(s: System, es: seq<Event>)
    decreases |es|
  {
    es != [] ==> Enabled(s, es[0]) && IsRun(Apply(s, es[0]), es[1..])
  }

  function Run(s: System, es: seq<Event>): System
    requires IsRun(s, es)
    decreases |es|
  {
    if es == [] then s else Run(Apply(s, es[0]), es[1..])
  }

  /** A new pipe with one end of each kind, and tasks that do nothing yet. */
  function Opened(tasks: set<Task>): System {
    System(Pipe([], 1, 1, [], []), map t | t in tasks :: Idle, [], [], [])
  }

  lemma {:induction false} EveryRunKeeps(s: System, es: seq<Event>)
    requires Inv(s) && IsRun(s, es)
    ensures Inv(Run(s, es))
    decreases |es|
  {
    hide Inv, Apply, Enabled;
    if es != [] {
      StepKeeps(s, es[0]);
      EveryRunKeeps(Apply(s, es[0]), es[1..]);
    }
  }

  /** For any number of tasks and any interleaving. */
  lemma BytesInOrder(tasks: set<Task>, es: seq<Event>)
    requires IsRun(Opened(tasks), es)
    ensures var n := Run(Opened(tasks), es);
      && n.delivered <= n.accepted && |n.accepted| - |n.delivered| <= PIPE_BUF_SIZE
      && (n.p.readWaiters != [] ==> n.p.writers > 0)
      && (n.p.writeWaiters != [] ==> n.p.readers > 0)
  {
    EveryRunKeeps(Opened(tasks), es);
  }

  // ---- who sleeps has a reason ----------------------------------------------------------------------------

  /** A parked reader means an empty ring, a parked writer a full one. */
  ghost predicate Prompt(s: System) {
    (s.p.readWaiters != [] ==> s.p.content == []) && (s.p.writeWaiters != [] ==> |s.p.content| == PIPE_BUF_SIZE)
  }

  /** The one task a region wakes is all there is to wake. */
  predicate OneEnough(s: System, e: Event)
    requires Enabled(s, e)
  {
    match e
    case Read(t) => s.p.content == [] || |s.p.writeWaiters| <= 1
    case Write(t) => s.p.readers == 0 || Space(s.p) == 0 || |s.p.readWaiters| <= 1
    case _ => true
  }

  lemma PromptExact(s: System, e: Event)
    requires Inv(s) && Prompt(s) && Enabled(s, e)
    ensures Prompt(Apply(s, e)) <==> OneEnough(s, e)
  {
    assert e.Read? || e.Write? ==> CallOk(s, e.t);
    hide QueuesOk, CallOk, Woken;
  }

  ghost predicate AllPrompt(s: System, es: seq<Event>)
    requires IsRun(s, es)
    decreases |es|
  {
    Prompt(s) && (es != [] ==> AllPrompt(Apply(s, es[0]), es[1..]))
  }

  predicate AllOneEnough(s: System, es: seq<Event>)
    requires IsRun(s, es)
    decreases |es|
  {
    es != [] ==> OneEnough(s, es[0]) && AllOneEnough(Apply(s, es[0]), es[1..])
  }

  /** In every run, sleepers have a reason throughout if and only if no region finds two tasks to wake. */
  lemma {:induction false} PromptRunExact(s: System, es: seq<Event>)
    requires Inv(s) && Prompt(s) && IsRun(s, es)
    ensures AllPrompt(s, es) <==> AllOneEnough(s, es)
    decreases |es|
  {
    hide Inv, Prompt, Apply, Enabled, OneEnough;
    if es != [] {
      PromptExact(s, es[0]);
      StepKeeps(s, es[0]);
      if Prompt(Apply(s, es[0])) { PromptRunExact(Apply(s, es[0]), es[1..]); }
      else { assert !AllPrompt(Apply(s, es[0]), es[1..]); }
    }
  }

  /** Readers 1 and 2 park, 3 writes two bytes, and 1, woken, takes one of them. */
  function TwoReaders(): seq<Event> {
    [StartRead(1, 1), Read(1), StartRead(2, 1), Read(2), StartWrite(3, [7, 8]), Write(3), Read(1)]
  }

  /** 1 is parked; 1 and 2 are; 3 is about to write; 1 is awake over two bytes; 1 is done. */
  function OneParked(): System { System(Pipe([], 1, 1, [1], []), map[1 := Reading(1, true), 2 := Idle, 3 := Idle], [], [], []) }
  function BothParked(): System { System(Pipe([], 1, 1, [1, 2], []), map[1 := Reading(1, true), 2 := Reading(1, true), 3 := Idle], [], [], []) }
  function AboutToWrite(): System { BothParked().(call := map[1 := Reading(1, true), 2 := Reading(1, true), 3 := Writing([7, 8], 0, false)]) }
  function OneAwake(): System {
    System(Pipe([7, 8], 1, 1, [2], []), map[1 := Reading(1, false), 2 := Reading(1, true), 3 := Idle], [7, 8], [], [Put(3, 2, false)])
  }
  function OneDone(): System {
    System(Pipe([8], 1, 1, [2], []), map[1 := Idle, 2 := Reading(1, true), 3 := Idle], [7, 8], [7], [Put(3, 2, false), Got(1, [7])])
  }

  /** From a new pipe to a reader that sleeps over a byte, with nobody left who would wake it. */
  lemma ReaderLeft()
    ensures IsRun(Opened({1, 2, 3}), TwoReaders()) && Run(Opened({1, 2, 3}), TwoReaders()) == OneDone()
    ensures OneDone().p.readWaiters == [2] && OneDone().p.content == [8]
  {
    hide Apply, Enabled, IsRun, Run, Opened, OneParked, BothParked, AboutToWrite, OneAwake;
    var s0 := Opened({1, 2, 3});
    FirstParks();
    SecondParks();
    WriteBegins();
    BytesCome();
    OneTaken();
    TwoSteps(s0, StartRead(1, 1), Read(1));
    TwoSteps(OneParked(), StartRead(2, 1), Read(2));
    TwoSteps(BothParked(), StartWrite(3, [7, 8]), Write(3));
    OneStep(OneAwake(), Read(1));
    var a, b, c, d := [StartRead(1, 1), Read(1)], [StartRead(2, 1), Read(2)], [StartWrite(3, [7, 8]), Write(3)], [Read(1)];
    RunsJoin(s0, a, b);
    RunsJoin(s0, a + b, c);
    RunsJoin(s0, a + b + c, d);
    assert a + b + c + d == TwoReaders();
  }

  lemma OneStep(s: System, e: Event)
    requires Enabled(s, e)
    ensures IsRun(s, [e]) && Run(s, [e]) == Apply(s, e)
  {
    hide Apply, Enabled;
    assert [e][1..] == [];
    assert IsRun(Apply(s, e), []) && Run(Apply(s, e), []) == Apply(s, e);
  }

  lemma TwoSteps(s: System, e: Event, f: Event)
    requires Enabled(s, e) && Enabled(Apply(s, e), f)
    ensures IsRun(s, [e, f]) && Run(s, [e, f]) == Apply(Apply(s, e), f)
  {
    hide Apply, Enabled, IsRun, Run;
    OneStep(s, e);
    OneStep(Apply(s, e), f);
    RunsJoin(s, [e], [f]);
    assert [e] + [f] == [e, f];
  }

  lemma {:induction false} RunsJoin(s: System, a: seq<Event>, b: seq<Event>)
    requires IsRun(s, a) && IsRun(Run(s, a), b)
    ensures IsRun(s, a + b) && Run(s, a + b) == Run(Run(s, a), b)
    decreases |a|
  {
    hide Apply, Enabled;
    if a == [] {
      assert a + b == b;
    } else {
      assert (a + b)[0] == a[0] && (a + b)[1..] == a[1..] + b;
      RunsJoin(Apply(s, a[0]), a[1..], b);
    }
  }

  lemma FirstParks()
    ensures var s := Opened({1, 2, 3});
      && Enabled(s, StartRead(1, 1)) && Enabled(Apply(s, StartRead(1, 1)), Read(1))
      && Apply(Apply(s, StartRead(1, 1)), Read(1)) == OneParked()
  {
    assert [] + [1] == [1];
  }

  lemma SecondParks()
    ensures var s := OneParked();
      && Enabled(s, StartRead(2, 1)) && Enabled(Apply(s, StartRead(2, 1)), Read(2))
      && Apply(Apply(s, StartRead(2, 1)), Read(2)) == BothParked()
  {
    assert [1] + [2] == [1, 2];
  }

  lemma WriteBegins()
    ensures Enabled(BothParked(), StartWrite(3, [7, 8])) && Apply(BothParked(), StartWrite(3, [7, 8])) == AboutToWrite()
  {}

  lemma BytesCome()
    ensures Enabled(AboutToWrite(), Write(3)) && Apply(AboutToWrite(), Write(3)) == OneAwake()
  {
    RegionWritten();
    assert [7, 8][..2] == [7, 8] && [] + [7, 8] == [7, 8];
    assert Woken(AboutToWrite().call[3 := Idle], [1, 2], [2]) == OneAwake().call;
    hide WriteRegion, WriteOutcome;
  }

  lemma RegionWritten()
    ensures var s := AboutToWrite(); WriteOutcome(s.p, 2) == Moved(2) && WriteRegion(s.p, 3, [7, 8]) == OneAwake().p
  {
    assert [7, 8][..2] == [7, 8] && [] + [7, 8] == [7, 8] && [1, 2][1..] == [2];
  }

  lemma OneTaken()
    ensures Enabled(OneAwake(), Read(1)) && Apply(OneAwake(), Read(1)) == OneDone()
  {
    assert [7, 8][..1] == [7] && [7, 8][1..] == [8] && [] + [7] == [7];
  }

  // ---- one reader task and one writer task -------------------------------------------------------------

  predicate Paired(e: Event, r: Task, w: Task) {
    match e
    case StartRead(t, _) => t == r
    case StartWrite(t, _) => t == w
    case _ => true
  }

  /** Only r reads and only w writes; who sleeps found the ring empty, or full, and it still is. */
  ghost predicate PairInv(s: System, r: Task, w: Task) {
    && Inv(s)
    && (forall t :: t in s.call ==> (s.call[t].Reading? ==> t == r) && (s.call[t].Writing? ==> t == w))
    && Prompt(s)
  }

  /** At most one task is asleep on a queue, so one pop empties it. */
  lemma AtMostOne(s: System, r: Task, w: Task)
    requires PairInv(s, r, w)
    ensures Pop(s.p.readWaiters) == [] && Pop(s.p.writeWaiters) == []
  {
    forall i: nat | i < |s.p.readWaiters| ensures s.p.readWaiters[i] == r {
      assert s.p.readWaiters[i] in s.p.readWaiters && CallOk(s, s.p.readWaiters[i]);
    }
    forall i: nat | i < |s.p.writeWaiters| ensures s.p.writeWaiters[i] == w {
      assert s.p.writeWaiters[i] in s.p.writeWaiters && CallOk(s, s.p.writeWaiters[i]);
    }
    OneOf(s.p.readWaiters, r);
    OneOf(s.p.writeWaiters, w);
  }

  lemma NonEmpty(q: seq<Task>)
    ensures q == [] || exists y :: y in q
  {
    assert q != [] ==> q[0] in q;
  }

  lemma OneOf(q: seq<Task>, x: Task)
    requires NoDup(q) && forall i: nat :: i < |q| ==> q[i] == x
    ensures Pop(q) == []
  {
    if q != [] {
      PopMembers(q);
      forall y ensures y !in q[1..] { assert y in q[1..] ==> y in q; }
      NonEmpty(q[1..]);
    }
  }

  lemma PairStep(s: System, e: Event, r: Task, w: Task)
    requires PairInv(s, r, w) && Enabled(s, e) && Paired(e, r, w)
    ensures PairInv(Apply(s, e), r, w)
  {
    StepKeeps(s, e);
    AtMostOne(s, r, w);
    PromptExact(s, e);
    hide Inv, Prompt;
  }

  lemma {:induction false} PairRuns(s: System, es: seq<Event>, r: Task, w: Task)
    requires PairInv(s, r, w) && IsRun(s, es) && forall i :: 0 <= i < |es| ==> Paired(es[i], r, w)
    ensures PairInv(Run(s, es), r, w)
    decreases |es|
  {
    hide PairInv, Apply, Enabled;
    if es != [] {
      PairStep(s, es[0], r, w);
      PairRuns(Apply(s, es[0]), es[1..], r, w);
    }
  }

  lemma NeverBothParked(tasks: set<Task>, es: seq<Event>, r: Task, w: Task)
    requires IsRun(Opened(tasks), es) && forall i :: 0 <= i < |es| ==> Paired(es[i], r, w)
    ensures var n := Run(Opened(tasks), es); n.p.readWaiters == [] || n.p.writeWaiters == []
  {
    PairRuns(Opened(tasks), es, r, w);
  }
}
