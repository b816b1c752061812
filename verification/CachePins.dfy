/**
 Pins and write-back, exactly: a buffer is pinned as often as its block was read and not released
 since, a read takes in one buffer and gives up at most one, and the disk changes only where a
 dirty buffer was written back.
 */
module CachePins {
  import opened Options
  import opened Sequences
  import opened CacheSpec
  import opened CacheRuns

  /** How often block b is pinned. */
  function Refs(c: Cache, b: nat): nat {
    var f := Find(c, b);
    if f.Some? && f.value in c.nodes then c.nodes[f.value].refs else 0
  }

  lemma RefsIs(c: Cache, b: nat)
    requires Listed(c) && OneEach(c)
    ensures forall id :: id in c.nodes && c.nodes[id].block == b ==> Refs(c, b) == c.nodes[id].refs
    ensures (forall id :: id in c.nodes ==> c.nodes[id].block != b) ==> Refs(c, b) == 0
  {
    FindInMeaning(c.lru, c.nodes, b);
    forall id | id in c.nodes && c.nodes[id].block == b ensures Refs(c, b) == c.nodes[id].refs { FindIs(c, id); }
  }

  // ---- what a read does to the buffers ---------------------------------------------------------

  /** v: the buffer given up; None if the block was cached or there was room. */
  ghost predicate ReadBuffers(c: Cache, d: Cache, b: nat, id: Id, v: Option<Id>) {
    && |d.disk| == |c.disk| && d.cap == c.cap && b < |c.disk|
    && match v
       case None =>
         && d.disk == c.disk
         && (if exists i :: i in c.nodes && c.nodes[i].block == b then d.nodes.Keys == c.nodes.Keys
             else |c.lru| < c.cap && d.nodes == c.nodes[id := Buffer(b, c.disk[b], false, 1)])
         && (forall i :: i in c.nodes ==> i in d.nodes)
         && (forall i :: i in c.nodes ==>
               d.nodes[i] == if c.nodes[i].block == b then c.nodes[i].(refs := c.nodes[i].refs + 1) else c.nodes[i])
       case Some(x) =>
         && (forall i :: i in c.nodes ==> c.nodes[i].block != b) && |c.lru| >= c.cap
         && x in c.nodes && c.nodes[x].refs == 0 && c.nodes[x].block < |c.disk|
         && d.disk == (if c.nodes[x].dirty then c.disk[c.nodes[x].block := c.nodes[x].data] else c.disk)
         && d.nodes == (c.nodes - {x})[id := Buffer(b, c.disk[b], false, 1)]
  }

  lemma ReadExact(c: Cache, b: nat, id: Id) returns (v: Option<Id>)
    requires Inv(c) && b < |c.disk| && id !in c.nodes && InRange(c) && Read(c, b, id).Some?
    ensures ReadBuffers(c, Read(c, b, id).value, b, id, v)
  {
    hide BufferOk, ViewAt, FindIn, Victim, OneEach;
    v := None;
    FindInMeaning(c.lru, c.nodes, b);
    var f := Find(c, b);
    if f.Some? {
      HitOnly(c, b, f.value);
    } else if |c.lru| >= c.cap {
      VictimMeaning(c, c.lru);
      v := Victim(c, c.lru);
    }
  }

  lemma HitOnly(c: Cache, b: nat, f: Id)
    requires Inv(c) && f in c.nodes && c.nodes[f].block == b
    ensures forall i :: i in c.nodes && c.nodes[i].block == b ==> i == f
  {
    hide BufferOk, Listed;
  }

  // ---- pins over runs ------------------------------------------------------------------------------

  function PinsAfter(n: nat, op: Op, b: nat): nat {
    match op
    case Bread(x, _) => if x == b then n + 1 else n
    case Brelse(x) => if x == b && n > 0 then n - 1 else n
    case Binvalidate(x) => if x == b then 0 else n
    case _ => n
  }

  function Pins(n: nat, ops: seq<Op>, b: nat): nat
    decreases |ops|
  {
    if ops == [] then n else Pins(PinsAfter(n, ops[0], b), ops[1..], b)
  }

  /** Same buffers with the same pins. */
  lemma SameRefs(c: Cache, d: Cache, b: nat)
    requires Listed(c) && OneEach(c) && Listed(d) && OneEach(d) && d.nodes.Keys == c.nodes.Keys
    requires forall i :: i in c.nodes ==> d.nodes[i].block == c.nodes[i].block && d.nodes[i].refs == c.nodes[i].refs
    ensures Refs(d, b) == Refs(c, b)
  {
    hide Refs;
    RefsIs(c, b);
    RefsIs(d, b);
    if i :| i in c.nodes && c.nodes[i].block == b { assert d.nodes[i].block == b; }
  }

  lemma ReadPins(c: Cache, d: Cache, x: nat, id: Id, v: Option<Id>, b: nat)
    requires Listed(c) && OneEach(c) && Listed(d) && OneEach(d) && id !in c.nodes && ReadBuffers(c, d, x, id, v)
    ensures Refs(d, b) == Refs(c, b) + if x == b then 1 else 0
  {
    hide Refs, Listed;
    RefsIs(c, b);
    RefsIs(d, b);
    if i :| i in c.nodes && c.nodes[i].block == b {
      if v != Some(i) { assert d.nodes[i].block == b; }
      else { assert c.nodes[i].refs == 0 && forall j :: j in d.nodes ==> d.nodes[j].block != b; }
    } else if x == b {
      assert d.nodes[id].block == b;
    }
  }

  lemma ReleasePins(c: Cache, x: nat, b: nat)
    requires Inv(c) && Listed(Release(c, x)) && OneEach(Release(c, x))
    ensures Refs(Release(c, x), b) == if x == b && Refs(c, b) > 0 then Refs(c, b) - 1 else Refs(c, b)
  {
    hide FindIn, BufferOk, Listed, OneEach;
    assert Listed(c) && OneEach(c);
    FindInMeaning(c.lru, c.nodes, x);
    var d, f := Release(c, x), Find(c, x);
    RefsIs(c, b);
    RefsIs(d, b);
    if i :| i in c.nodes && c.nodes[i].block == b { assert d.nodes[i].block == b; }
    if f.Some? { HitOnly(c, x, f.value); }
  }

  lemma DropPins(c: Cache, x: nat, b: nat)
    requires Inv(c) && Inv(Invalidate(c, x))
    ensures Refs(Invalidate(c, x), b) == if x == b then 0 else Refs(c, b)
  {
    hide FindIn, BufferOk, Listed, OneEach, Refs, Remove;
    assert Listed(c) && OneEach(c) && Listed(Invalidate(c, x)) && OneEach(Invalidate(c, x));
    FindInMeaning(c.lru, c.nodes, x);
    AllListed(c);
    var d, f := Invalidate(c, x), Find(c, x);
    RefsIs(c, b);
    RefsIs(d, b);
    if f.Some? { HitOnly(c, x, f.value); }
    if i :| i in c.nodes && c.nodes[i].block == b { assert x != b ==> d.nodes[i].block == b; }
  }

  lemma AllListed(c: Cache)
    requires Listed(c)
    ensures forall id :: id in c.lru <==> id in c.nodes
  {}

  lemma StepPins(k: Client, op: Op, b: nat)
    requires Agrees(k) && Allowed(k, op) && Careful(k, op)
    ensures Refs(Apply(k, op).c, b) == PinsAfter(Refs(k.c, b), op, b)
  {
    hide Inv, ViewAt, FindIn, Victim, Unsaved, SameView, Refs, ReadBuffers, Listed, OneEach;
    StepAgrees(k, op);
    InvShape(k.c);
    InvShape(Apply(k, op).c);
    match op
    case Bread(x, id) =>
      var v := ReadExact(k.c, x, id);
      ReadPins(k.c, Apply(k, op).c, x, id, v, b);
    case Brelse(x) => ReleasePins(k.c, x, b);
    case Binvalidate(x) => DropPins(k.c, x, b);
    case Store(x, data) => SameRefs(k.c, Apply(k, op).c, b);
    case Bwrite(x) => SameRefs(k.c, Apply(k, op).c, b);
    case Bflush(x) => SameRefs(k.c, Apply(k, op).c, b);
    case BflushAll =>
      FlushAllRefs(k.c);
      SameRefs(k.c, Apply(k, op).c, b);
  }

  lemma InvShape(c: Cache)
    requires Inv(c)
    ensures Listed(c) && OneEach(c)
  {}

  lemma FlushAllRefs(c: Cache)
    ensures FlushAll(c).nodes.Keys == c.nodes.Keys
    ensures forall i :: i in c.nodes ==> FlushAll(c).nodes[i].block == c.nodes[i].block && FlushAll(c).nodes[i].refs == c.nodes[i].refs
  {
    CleanFirstRefs(c, Reverse(c.lru));
  }

  lemma {:induction false} CleanFirstRefs(c: Cache, ids: seq<Id>)
    ensures CleanFirst(c, ids).nodes.Keys == c.nodes.Keys
    ensures forall i :: i in c.nodes ==>
              CleanFirst(c, ids).nodes[i].block == c.nodes[i].block && CleanFirst(c, ids).nodes[i].refs == c.nodes[i].refs
    decreases |ids|
  {
    if ids != [] {
      if ids[0] in c.nodes && c.nodes[ids[0]].block < |c.disk| { CleanFirstRefs(Clean(c, ids[0]), ids[1..]); }
      else { CleanFirstRefs(c, ids[1..]); }
    }
  }

  /** Over any careful run a block is pinned as often as it was read and not released since. */
  lemma {:induction false} PinsExact(k: Client, ops: seq<Op>, b: nat)
    requires Agrees(k) && IsRun(k, ops) && CarefulRun(k, ops)
    ensures Refs(Run(k, ops).c, b) == Pins(Refs(k.c, b), ops, b)
    decreases |ops|
  {
    hide Agrees, Apply, Allowed, Careful, Refs;
    if ops != [] {
      StepAgrees(k, ops[0]);
      StepPins(k, ops[0], b);
      PinsExact(Apply(k, ops[0]), ops[1..], b);
    }
  }

  // ---- what reaches the disk ----------------------------------------------------------------------

  /** Block x was written back: a dirty buffer held it, the disk has its contents, and the operation had reason to. */
  ghost predicate WrittenBack(k: Client, op: Op, d: Cache, x: nat)
    requires x < |k.c.disk| == |d.disk|
  {
    && (exists i :: i in k.c.nodes && k.c.nodes[i].block == x && k.c.nodes[i].dirty && d.disk[x] == k.c.nodes[i].data)
    && match op
       case Bread(_, _) => forall i :: i in d.nodes ==> d.nodes[i].block != x
       case Bflush(b) => x == b
       case BflushAll => true
       case _ => false
  }

  lemma DiskMoves(k: Client, op: Op, x: nat)
    requires Agrees(k) && Allowed(k, op) && x < |k.c.disk|
    ensures |Apply(k, op).c.disk| == |k.c.disk|
    ensures Apply(k, op).c.disk[x] != k.c.disk[x] ==> WrittenBack(k, op, Apply(k, op).c, x)
  {
    hide ViewAt, FindIn, Victim, Unsaved, SameView, Listed, OneEach;
    var c := k.c;
    match op
    case Bread(b, id) => ReadWrites(k, b, id, x);
    case Bflush(b) =>
      FindInMeaning(c.lru, c.nodes, b);
    case BflushAll => CleanFirstWrites(c, Reverse(c.lru), x);
    case _ =>
  }

  lemma ReadWrites(k: Client, b: nat, id: Id, x: nat)
    requires Agrees(k) && Allowed(k, Bread(b, id)) && x < |k.c.disk|
    ensures |Apply(k, Bread(b, id)).c.disk| == |k.c.disk|
    ensures Apply(k, Bread(b, id)).c.disk[x] != k.c.disk[x] ==> WrittenBack(k, Bread(b, id), Apply(k, Bread(b, id)).c, x)
  {
    hide BufferOk, ViewAt, FindIn, Victim, Listed, Read;
    var v := ReadExact(k.c, b, id);
    if v.Some? { assert forall i :: i in k.c.nodes && k.c.nodes[i].block == k.c.nodes[v.value].block ==> i == v.value; }
  }

  lemma {:induction false} CleanFirstWrites(c: Cache, ids: seq<Id>, x: nat)
    requires x < |c.disk|
    ensures |CleanFirst(c, ids).disk| == |c.disk|
    ensures CleanFirst(c, ids).disk[x] != c.disk[x] ==>
              exists i :: i in c.nodes && c.nodes[i].block == x && c.nodes[i].dirty && CleanFirst(c, ids).disk[x] == c.nodes[i].data
    decreases |ids|
  {
    if ids != [] {
      if ids[0] in c.nodes && c.nodes[ids[0]].block < |c.disk| {
        var d := Clean(c, ids[0]);
        CleanFirstWrites(d, ids[1..], x);
        if CleanFirst(d, ids[1..]).disk[x] != d.disk[x] {
          var i :| i in d.nodes && d.nodes[i].block == x && d.nodes[i].dirty && CleanFirst(d, ids[1..]).disk[x] == d.nodes[i].data;
          assert c.nodes[i].block == x && c.nodes[i].dirty && c.nodes[i].data == d.nodes[i].data;
        }
      } else {
        CleanFirstWrites(c, ids[1..], x);
      }
    }
  }
}
