/** Client runs over the block cache against a plain array of blocks. */
module CacheRuns {
  import opened Options
  import opened CacheSpec

  /**
   plain: what the client expects in each block; changed: blocks it stored to and has not given to
   bwrite since; lost: blocks it discarded and has not stored since.
   */
  datatype Client = Client(c: Cache, changed: set<nat>, plain: seq<Block>, lost: set<nat>)

  datatype Op =
    | Bread(b: nat, id: Id)
    | Store(b: nat, data: Block)       // through the pointer of a pinned buffer
    | Bwrite(b: nat)
    | Brelse(b: nat)
    | Bflush(b: nat)
    | BflushAll
    | Binvalidate(b: nat)

  predicate InRange(c: Cache) { forall i :: i in c.nodes ==> c.nodes[i].block < |c.disk| }

  /** Stores go through pinned buffers, and a read finds room. */
  predicate Allowed(k: Client, op: Op) {
    match op
    case Bread(b, id) => b < |k.c.disk| && id !in k.c.nodes && InRange(k.c) && Read(k.c, b, id).Some?
    case Store(b, data) =>
      var f := Find(k.c, b);
      b < |k.plain| && f.Some? && f.value in k.c.nodes && k.c.nodes[f.value].refs > 0
    case _ => true
  }

  /** The step that needs care: the last pin on a change is not given up before bwrite. */
  predicate Careful(k: Client, op: Op) {
    op.Brelse? ==> MayRelease(k.c, op.b)
  }

  function Apply(k: Client, op: Op): Client
    requires Allowed(k, op)
  {
    match op
    case Bread(b, id) => k.(c := Read(k.c, b, id).value)
    case Store(b, data) => Client(Poke(k.c, Find(k.c, b).value, data), k.changed + {b}, k.plain[b := data], k.lost - {b})
    case Bwrite(b) => k.(c := MarkDirty(k.c, b), changed := k.changed - {b})
    case Brelse(b) => k.(c := Release(k.c, b))
    case Bflush(b) => k.(c := Flush(k.c, b))
    case BflushAll => k.(c := FlushAll(k.c))
    case Binvalidate(b) => k.(c := Invalidate(k.c, b), changed := k.changed - {b}, lost := k.lost + {b})
  }

  /** The cache shows exactly the plain blocks, and knows of every change but those in `changed`. */
  ghost predicate Agrees(k: Client) {
    && Inv(k.c) && k.c.cap > 0 && |k.plain| == |k.c.disk|
    && (forall b: nat :: b < |k.plain| && b !in k.lost ==> ViewAt(k.c, b) == k.plain[b])
    && forall id :: Unsaved(k.c, id) ==> k.c.nodes[id].block in k.changed
  }

  /** A block that is not in `changed` may always be released. */
  lemma SettledMayRelease(k: Client, b: nat)
    requires Agrees(k) && b !in k.changed
    ensures MayRelease(k.c, b)
  {
    FindInMeaning(k.c.lru, k.c.nodes, b);
  }

  /** No buffer of d holds a change that c did not hold unsaved. */
  ghost predicate NoneUnsaved(c: Cache, d: Cache) {
    forall id :: Unsaved(d, id) ==> Unsaved(c, id) && d.nodes[id].block == c.nodes[id].block
  }

  lemma CleanUnsaved(c: Cache, id: Id)
    requires Inv(c) && id in c.nodes && c.nodes[id].block < |c.disk|
    ensures NoneUnsaved(c, Clean(c, id))
  {
    hide ViewAt, FindIn;
  }

  lemma {:induction false} CleanFirstUnsaved(c: Cache, ids: seq<Id>)
    requires Inv(c) && forall id :: id in ids ==> id in c.nodes
    ensures NoneUnsaved(c, CleanFirst(c, ids))
    decreases |ids|
  {
    hide ViewAt, BufferOk, Unsaved;
    if ids != [] {
      BlocksOnDisk(c);
      CleanKeeps(c, ids[0]);
      CleanUnsaved(c, ids[0]);
      CleanFirstUnsaved(Clean(c, ids[0]), ids[1..]);
    }
  }

  lemma FlushAllUnsaved(c: Cache)
    requires Inv(c)
    ensures NoneUnsaved(c, FlushAll(c))
  {
    hide Inv;
    ReverseMembers(c.lru);
    assert Listed(c) by { InvListed(c); }
    CleanFirstUnsaved(c, Reverse(c.lru));
  }

  lemma InvListed(c: Cache)
    requires Inv(c)
    ensures Listed(c)
  {}

  lemma ReadUnsaved(c: Cache, b: nat, id: Id)
    requires Inv(c) && b < |c.disk| && id !in c.nodes && InRange(c) && Read(c, b, id).Some?
    ensures NoneUnsaved(c, Read(c, b, id).value)
  {
    hide ViewAt, FindIn;
    FindInMeaning(c.lru, c.nodes, b);
    var f := Find(c, b);
    if f.None? && |c.lru| == c.cap {
      VictimMeaning(c, c.lru);
      hide Victim;
      CleanUnsaved(c, Victim(c, c.lru).value);
    }
  }

  lemma FlushUnsaved(c: Cache, b: nat)
    requires Inv(c)
    ensures NoneUnsaved(c, Flush(c, b))
  {
    hide ViewAt, FindIn;
    FindInMeaning(c.lru, c.nodes, b);
    var f := Find(c, b);
    if f.Some? && c.nodes[f.value].block < |c.disk| { CleanUnsaved(c, f.value); }
  }

  lemma SameAgrees(k: Client, d: Cache)
    requires Agrees(k) && Inv(d) && SameView(k.c, d) && d.cap == k.c.cap && NoneUnsaved(k.c, d)
    ensures Agrees(k.(c := d))
  {
    hide Inv, ViewAt, Unsaved;
  }

  lemma StepAgrees(k: Client, op: Op)
    requires Agrees(k) && Allowed(k, op) && Careful(k, op)
    ensures Agrees(Apply(k, op))
  {
    hide Inv, ViewAt, FindIn, Victim, NoneUnsaved, Unsaved, SameView;
    match op
    case Bread(b, id) =>
      ReadKeeps(k.c, b, id);
      ReadUnsaved(k.c, b, id);
      SameAgrees(k, Read(k.c, b, id).value);
    case Store(b, data) => StoreAgrees(k, b, data);
    case Bwrite(b) => MarkAgrees(k, b);
    case Brelse(b) =>
      ReleaseExact(k.c, b);
      ReleaseUnsaved(k.c, b);
      SameAgrees(k, Release(k.c, b));
    case Bflush(b) =>
      FlushKeeps(k.c, b);
      FlushUnsaved(k.c, b);
      SameAgrees(k, Flush(k.c, b));
    case BflushAll =>
      FlushAllKeeps(k.c);
      FlushAllUnsaved(k.c);
      SameAgrees(k, FlushAll(k.c));
    case Binvalidate(b) => InvalidateAgrees(k, b);
  }

  lemma ReleaseUnsaved(c: Cache, b: nat)
    ensures NoneUnsaved(c, Release(c, b))
  {
    hide FindIn;
  }

  lemma StoreAgrees(k: Client, b: nat, data: Block)
    requires Agrees(k) && Allowed(k, Store(b, data))
    ensures Agrees(Apply(k, Store(b, data)))
  {
    hide Inv, ViewAt;
    FindInMeaning(k.c.lru, k.c.nodes, b);
    PokeKeeps(k.c, Find(k.c, b).value, data);
  }

  lemma MarkAgrees(k: Client, b: nat)
    requires Agrees(k)
    ensures Agrees(Apply(k, Bwrite(b)))
  {
    hide Inv, ViewAt, FindIn;
    MarkKeeps(k.c, b);
  }

  lemma InvalidateAgrees(k: Client, b: nat)
    requires Agrees(k)
    ensures Agrees(Apply(k, Binvalidate(b)))
  {
    hide ViewAt, BufferOk;
    FindInMeaning(k.c.lru, k.c.nodes, b);
    InvalidateReverts(k.c, b);
  }

  /** Of all steps, exactly the release of the last pin on an unsaved change breaks the promise. */
  lemma StepExact(k: Client, op: Op)
    requires Agrees(k) && Allowed(k, op)
    ensures Agrees(Apply(k, op)) <==> Careful(k, op)
  {
    if Careful(k, op) { StepAgrees(k, op); } else { ReleaseExact(k.c, op.b); }
  }

  predicate IsRun(k: Client, ops: seq<Op>)
    decreases |ops|
  {
    ops != [] ==> Allowed(k, ops[0]) && IsRun(Apply(k, ops[0]), ops[1..])
  }

  function Run(k: Client, ops: seq<Op>): Client
    requires IsRun(k, ops)
    decreases |ops|
  {
    if ops == [] then k else Run(Apply(k, ops[0]), ops[1..])
  }

  predicate CarefulRun(k: Client, ops: seq<Op>)
    requires IsRun(k, ops)
    decreases |ops|
  {
    ops != [] ==> Careful(k, ops[0]) && CarefulRun(Apply(k, ops[0]), ops[1..])
  }

  lemma {:induction false} EveryRunAgrees(k: Client, ops: seq<Op>)
    requires Agrees(k) && IsRun(k, ops) && CarefulRun(k, ops)
    ensures Agrees(Run(k, ops))
    decreases |ops|
  {
    hide Agrees, Apply, Allowed, Careful;
    if ops != [] {
      StepAgrees(k, ops[0]);
      EveryRunAgrees(Apply(k, ops[0]), ops[1..]);
    }
  }

  ghost predicate AllAgree(k: Client, ops: seq<Op>)
    requires IsRun(k, ops)
    decreases |ops|
  {
    Agrees(k) && (ops != [] ==> AllAgree(Apply(k, ops[0]), ops[1..]))
  }

  lemma {:induction false} RunExact(k: Client, ops: seq<Op>)
    requires Agrees(k) && IsRun(k, ops)
    ensures AllAgree(k, ops) <==> CarefulRun(k, ops)
    decreases |ops|
  {
    hide Agrees, Apply, Allowed, Careful;
    if ops != [] {
      StepExact(k, ops[0]);
      if Agrees(Apply(k, ops[0])) { RunExact(Apply(k, ops[0]), ops[1..]); }
      else { assert !AllAgree(Apply(k, ops[0]), ops[1..]); }
    }
  }

  function Empty(disk: seq<Block>, cap: nat): Client {
    Client(Cache([], map[], disk, cap), {}, disk, {})
  }

  /** An empty cache over any disk. */
  lemma EmptyAgrees(disk: seq<Block>, cap: nat)
    requires cap > 0
    ensures Agrees(Empty(disk, cap))
  {}

  /**
   After any careful run: bread of a block pins a buffer with the plain contents, and once
   bflush_all has run the disk holds them too, but for blocks changed and not yet given to bwrite.
   A block that was discarded has no promised contents until the next store.
   */
  lemma Transparent(disk: seq<Block>, cap: nat, ops: seq<Op>, b: nat, id: Id)
    requires cap > 0 && IsRun(Empty(disk, cap), ops) && CarefulRun(Empty(disk, cap), ops) && b < |disk|
    ensures var k := Run(Empty(disk, cap), ops);
      && |k.plain| == |disk| && |k.c.lru| <= cap
      && (Allowed(k, Bread(b, id)) ==>
            var d := Apply(k, Bread(b, id)).c;
            && Find(d, b).Some? && Find(d, b).value in d.nodes
            && (b !in k.lost ==> d.nodes[Find(d, b).value].data == k.plain[b]) && d.nodes[Find(d, b).value].refs > 0)
      && (b !in k.changed && b !in k.lost ==> |FlushAll(k.c).disk| == |disk| && FlushAll(k.c).disk[b] == k.plain[b])
  {
    var k0 := Empty(disk, cap);
    EmptyAgrees(disk, cap);
    EveryRunAgrees(k0, ops);
    RunShape(k0, ops);
    hide Run, IsRun, CarefulRun, ViewAt, FindIn, Victim, Unsaved, BufferOk;
    var k := Run(k0, ops);
    if Allowed(k, Bread(b, id)) { ReadKeeps(k.c, b, id); }
    FlushAllKeeps(k.c);
    FlushAllUnsaved(k.c);
    FlushAllSettles(FlushAll(k.c), b);
  }

  /** Neither the size of the device nor the capacity changes. */
  lemma {:induction false} RunShape(k: Client, ops: seq<Op>)
    requires Agrees(k) && IsRun(k, ops) && CarefulRun(k, ops)
    ensures |Run(k, ops).plain| == |k.plain| && Run(k, ops).c.cap == k.c.cap
    decreases |ops|
  {
    hide Agrees;
    if ops != [] {
      StepAgrees(k, ops[0]);
      StepShape(k, ops[0]);
      hide Apply, Allowed;
      RunShape(Apply(k, ops[0]), ops[1..]);
    }
  }

  lemma StepShape(k: Client, op: Op)
    requires Agrees(k) && Allowed(k, op)
    ensures |Apply(k, op).plain| == |k.plain| && Apply(k, op).c.cap == k.c.cap
  {
    hide ViewAt, FindIn, Victim;
    if op.BflushAll? { FlushAllKeeps(k.c); }
  }

  // ---- a change that is lost ---------------------------------------------------------------------

  /** Block 0 is read, changed and released without bwrite; reading block 1 then takes its buffer. */
  function Forgetful(data: Block): seq<Op> { [Bread(0, 7), Store(0, data), Brelse(0), Bread(1, 8)] }

  /** From the empty cache of one buffer to a client that no longer sees what it stored. */
  lemma ChangeLost(x: Block, y: Block, data: Block)
    requires data != x
    ensures IsRun(Empty([x, y], 1), Forgetful(data))
    ensures var k := Run(Empty([x, y], 1), Forgetful(data)); k.plain == [data, y] && k.c.disk == [x, y] && ViewAt(k.c, 0) == x
  {
    var k := Empty([x, y], 1);
    var ops := Forgetful(data);
    var k1 := k.(c := Cache([7], map[7 := Buffer(0, x, false, 1)], [x, y], 1));
    var k2 := Client(Cache([7], map[7 := Buffer(0, data, false, 1)], [x, y], 1), {0}, [data, y], {});
    var k3 := k2.(c := Cache([7], map[7 := Buffer(0, data, false, 0)], [x, y], 1));
    var k4 := k2.(c := Cache([8], map[8 := Buffer(1, y, false, 1)], [x, y], 1));
    FirstRead(x, y);
    StoreAndRelease(x, y, data);
    SecondRead(x, y, data);
    hide Apply, Allowed;
    assert ops[1..][1..][1..] == [Bread(1, 8)] && ops[1..][1..][1..][1..] == [];
    assert IsRun(k3, ops[1..][1..][1..]) && Run(k3, ops[1..][1..][1..]) == k4;
    assert IsRun(k2, ops[1..][1..]) && Run(k2, ops[1..][1..]) == k4;
    assert IsRun(k1, ops[1..]) && Run(k1, ops[1..]) == k4;
    assert FindIn([8], k4.c.nodes, 0) == FindIn([], k4.c.nodes, 0);
  }

  lemma FirstRead(x: Block, y: Block)
    ensures var k := Empty([x, y], 1);
      && Allowed(k, Bread(0, 7))
      && Apply(k, Bread(0, 7)) == k.(c := Cache([7], map[7 := Buffer(0, x, false, 1)], [x, y], 1))
  {
    assert [] + [7] == [7];
  }

  lemma StoreAndRelease(x: Block, y: Block, data: Block)
    ensures var k1 := Empty([x, y], 1).(c := Cache([7], map[7 := Buffer(0, x, false, 1)], [x, y], 1));
      var k2 := Client(Cache([7], map[7 := Buffer(0, data, false, 1)], [x, y], 1), {0}, [data, y], {});
      && Allowed(k1, Store(0, data)) && Apply(k1, Store(0, data)) == k2
      && Allowed(k2, Brelse(0)) && Apply(k2, Brelse(0)) == k2.(c := Cache([7], map[7 := Buffer(0, data, false, 0)], [x, y], 1))
  {
    var n1, n2 := map[7 := Buffer(0, x, false, 1)], map[7 := Buffer(0, data, false, 1)];
    assert FindIn([7], n1, 0) == Some(7) && FindIn([7], n2, 0) == Some(7);
  }

  lemma SecondRead(x: Block, y: Block, data: Block)
    ensures var k3 := Client(Cache([7], map[7 := Buffer(0, data, false, 0)], [x, y], 1), {0}, [data, y], {});
      && Allowed(k3, Bread(1, 8))
      && Apply(k3, Bread(1, 8)) == k3.(c := Cache([8], map[8 := Buffer(1, y, false, 1)], [x, y], 1))
  {
    var c := Cache([7], map[7 := Buffer(0, data, false, 0)], [x, y], 1);
    assert [7][1..] == [];
    assert FindIn([7], c.nodes, 1) == FindIn([], c.nodes, 1) == None;
    assert Victim(c, [7]) == Some(7);
    assert Sequences.Remove([7], 7) == [];
    assert c.nodes - {7} == map[];
    assert [] + [8] == [8];
  }
}
