/** The recency list really orders buffers by their last use, so eviction takes the oldest unpinned one. */
module CacheRecency {
  import opened Options
  import opened Sequences
  import opened CacheSpec
  import opened CacheRuns

  /** A client run with a clock: when each buffer was last read, marked or flushed. */
  datatype Timed = Timed(k: Client, used: map<Id, nat>, clock: nat)

  ghost predicate Recent(lru: seq<Id>, used: map<Id, nat>, clock: nat) {
    && (forall i :: 0 <= i < |lru| ==> lru[i] in used && used[lru[i]] < clock)
    && (forall i, j :: 0 <= i < j < |lru| ==> lru[i] in used && lru[j] in used && used[lru[i]] < used[lru[j]])
  }

  /** The buffer an operation uses: reading always does, marking and flushing if the block is cached. */
  function Uses(k: Client, op: Op): Option<Id>
    requires Allowed(k, op)
  {
    match op
    case Bread(b, id) => Find(Apply(k, op).c, b)
    case Bwrite(b) => Find(k.c, b)
    case Bflush(b) => Find(k.c, b)
    case _ => None
  }

  function Tick(t: Timed, op: Op): Timed
    requires Allowed(t.k, op)
  {
    var id := Uses(t.k, op);
    if id.Some? then Timed(Apply(t.k, op), t.used[id.value := t.clock], t.clock + 1) else t.(k := Apply(t.k, op))
  }

  lemma RecentRemove(lru: seq<Id>, used: map<Id, nat>, clock: nat, x: Id)
    requires Recent(lru, used, clock)
    ensures Recent(Remove(lru, x), used, clock)
  {
    if x in lru {
      var k := First(lru, x);
      RemoveAt(lru, x, k);
      var r := lru[..k] + lru[k + 1..];
      forall i | 0 <= i < |r| ensures r[i] == lru[if i < k then i else i + 1] {}
    } else {
      RemoveAbsent(lru, x);
    }
  }

  lemma {:induction false} First(s: seq<Id>, x: Id) returns (k: nat)
    requires x in s
    ensures k < |s| && s[k] == x && x !in s[..k]
  {
    if s[0] == x {
      k := 0;
    } else {
      assert x in s[1..];
      var j := First(s[1..], x);
      k := j + 1;
      assert s[..k] == [s[0]] + s[1..][..j];
    }
  }

  lemma RecentAppend(lru: seq<Id>, used: map<Id, nat>, clock: nat, id: Id)
    requires Recent(lru, used, clock) && id !in lru
    ensures Recent(lru + [id], used[id := clock], clock + 1)
  {
    forall i | 0 <= i < |lru| ensures lru[i] != id { assert lru[i] in lru; }
  }

  lemma RecentTouch(lru: seq<Id>, used: map<Id, nat>, clock: nat, id: Id)
    requires Recent(lru, used, clock) && NoDup(lru)
    ensures Recent(Remove(lru, id) + [id], used[id := clock], clock + 1)
  {
    RecentRemove(lru, used, clock, id);
    RemoveMembers(lru, id);
    RecentAppend(Remove(lru, id), used, clock, id);
  }

  ghost predicate TimedOk(t: Timed) {
    Agrees(t.k) && Recent(t.k.c.lru, t.used, t.clock)
  }

  lemma ReadRecent(t: Timed, b: nat, id: Id)
    requires TimedOk(t) && Allowed(t.k, Bread(b, id))
    ensures Recent(Tick(t, Bread(b, id)).k.c.lru, Tick(t, Bread(b, id)).used, Tick(t, Bread(b, id)).clock)
  {
    hide Recent, ViewAt, BufferOk, OneEach, Remove, FindIn, Victim, ReadOk, SameView;
    var c := t.k.c;
    ReadKeeps(c, b, id);
    ReadUses(c, b, id);
    var f := Find(c, b);
    if f.Some? && f.value in c.nodes {
      RecentTouch(c.lru, t.used, t.clock, f.value);
    } else if |c.lru| < c.cap {
      RecentAppend(c.lru, t.used, t.clock, id);
    } else {
      var v := Victim(c, c.lru).value;
      RecentRemove(c.lru, t.used, t.clock, v);
      RemoveMembers(c.lru, v);
      RecentAppend(Remove(c.lru, v), t.used, t.clock, id);
    }
  }

  /** The buffer bread returns is the one it found or made. */
  lemma ReadUses(c: Cache, b: nat, id: Id)
    requires Inv(c) && b < |c.disk| && id !in c.nodes && c.cap > 0 && InRange(c) && Read(c, b, id).Some?
    ensures Find(Read(c, b, id).value, b) == Some(if Find(c, b).Some? then Find(c, b).value else id)
    ensures Find(c, b).Some? ==> Find(c, b).value in c.nodes
  {
    hide ViewAt, BufferOk;
    FindInMeaning(c.lru, c.nodes, b);
    ReadKeeps(c, b, id);
    var d := Read(c, b, id).value;
    var x := if Find(c, b).Some? then Find(c, b).value else id;
    hide FindIn, Victim, Remove;
    assert x in d.nodes && d.nodes[x].block == b;
    FindIs(d, x);
  }

  lemma StepRecent(t: Timed, op: Op)
    requires TimedOk(t) && Allowed(t.k, op) && Careful(t.k, op)
    ensures TimedOk(Tick(t, op))
  {
    StepAgrees(t.k, op);
    if op.Bread? {
      hide Agrees, Recent, Allowed, Apply, Uses;
      ReadRecent(t, op.b, op.id);
    } else {
      StillRecent(t, op);
    }
  }

  lemma StillRecent(t: Timed, op: Op)
    requires TimedOk(t) && Allowed(t.k, op) && !op.Bread?
    ensures Recent(Tick(t, op).k.c.lru, Tick(t, op).used, Tick(t, op).clock)
  {
    hide Recent, ViewAt, BufferOk, OneEach, Remove, FindIn;
    var c := t.k.c;
    match op
    case Store(b, data) =>
    case Brelse(b) =>
    case BflushAll =>
      ReverseMembers(c.lru);
      CleanFirstKeeps(c, Reverse(c.lru));
    case Bwrite(b) =>
      FindInMeaning(c.lru, c.nodes, b);
      if Find(c, b).Some? { RecentTouch(c.lru, t.used, t.clock, Find(c, b).value); }
    case Bflush(b) =>
      FindInMeaning(c.lru, c.nodes, b);
      BlocksOnDisk(c);
      if Find(c, b).Some? { RecentTouch(c.lru, t.used, t.clock, Find(c, b).value); }
    case Binvalidate(b) =>
      if Find(c, b).Some? { RecentRemove(c.lru, t.used, t.clock, Find(c, b).value); }
  }

  predicate IsTimedRun(t: Timed, ops: seq<Op>)
    decreases |ops|
  {
    ops != [] ==> Allowed(t.k, ops[0]) && Careful(t.k, ops[0]) && IsTimedRun(Tick(t, ops[0]), ops[1..])
  }

  function TimedRun(t: Timed, ops: seq<Op>): Timed
    requires IsTimedRun(t, ops)
    decreases |ops|
  {
    if ops == [] then t else TimedRun(Tick(t, ops[0]), ops[1..])
  }

  lemma {:induction false} RunsRecent(t: Timed, ops: seq<Op>)
    requires TimedOk(t) && IsTimedRun(t, ops)
    ensures TimedOk(TimedRun(t, ops))
    decreases |ops|
  {
    hide TimedOk, Tick, Allowed, Careful;
    if ops != [] {
      StepRecent(t, ops[0]);
      RunsRecent(Tick(t, ops[0]), ops[1..]);
    }
  }

  lemma {:induction false} VictimFirst(c: Cache, ids: seq<Id>) returns (i: nat)
    requires Victim(c, ids).Some?
    ensures i < |ids| && ids[i] == Victim(c, ids).value && ids[i] in c.nodes && c.nodes[ids[i]].refs == 0
    ensures forall j :: 0 <= j < i && ids[j] in c.nodes ==> c.nodes[ids[j]].refs > 0
  {
    if ids[0] in c.nodes && c.nodes[ids[0]].refs == 0 {
      i := 0;
    } else {
      var j := VictimFirst(c, ids[1..]);
      i := j + 1;
    }
  }

  /** After any careful run, a buffer that a read gives up is the unpinned one unused for longest. */
  lemma EvictsOldest(disk: seq<Block>, cap: nat, ops: seq<Op>, b: nat, nid: Id, v: Id, id: Id)
    requires cap > 0 && IsTimedRun(Timed(Empty(disk, cap), map[], 0), ops)
    requires Allowed(TimedRun(Timed(Empty(disk, cap), map[], 0), ops).k, Bread(b, nid))
    ensures var t := TimedRun(Timed(Empty(disk, cap), map[], 0), ops);
      var c := t.k.c;
      v in c.nodes && v !in Apply(t.k, Bread(b, nid)).c.nodes && id in c.nodes && c.nodes[id].refs == 0 ==>
        v in t.used && id in t.used && t.used[v] <= t.used[id]
  {
    var t0 := Timed(Empty(disk, cap), map[], 0);
    EmptyAgrees(disk, cap);
    RunsRecent(t0, ops);
    hide TimedRun, IsTimedRun, ViewAt, BufferOk, OneEach, FindIn;
    var t := TimedRun(t0, ops);
    var c := t.k.c;
    if v in c.nodes && v !in Apply(t.k, Bread(b, nid)).c.nodes && id in c.nodes && c.nodes[id].refs == 0 {
      assert Victim(c, c.lru) == Some(v);
      var i := VictimFirst(c, c.lru);
      var j := First(c.lru, id);
      assert i <= j;
    }
  }
}
