/**
 What the write-back block cache computes, on values: the buffers in recency order (least
 recent first) over a disk of blocks. The view is what clients see through it.
 */
module CacheSpec {
  import opened Options
  import opened Sequences

  type Id = nat                    // the address of a buffer node
  type Block = seq<nat>

  datatype Buffer = Buffer(block: nat, data: Block, dirty: bool, refs: nat)

  datatype Cache = Cache(lru: seq<Id>, nodes: map<Id, Buffer>, disk: seq<Block>, cap: nat)

  /** The buffer of block b. */
  function Find(c: Cache, b: nat): Option<Id> {
    FindIn(c.lru, c.nodes, b)
  }

  function FindIn(ids: seq<Id>, nodes: map<Id, Buffer>, b: nat): Option<Id> {
    if ids == [] then None
    else if ids[0] in nodes && nodes[ids[0]].block == b then Some(ids[0])
    else FindIn(ids[1..], nodes, b)
  }

  /** The contents clients see: the buffer if there is one, the disk otherwise. */
  function ViewAt(c: Cache, b: nat): Block
    requires b < |c.disk|
  {
    var id := Find(c, b);
    if id.Some? && id.value in c.nodes then c.nodes[id.value].data else c.disk[b]
  }

  /** A client has changed the buffer, and nothing says that it must be written back. */
  predicate Unsaved(c: Cache, id: Id) {
    id in c.nodes && !c.nodes[id].dirty && c.nodes[id].block < |c.disk| && c.nodes[id].data != c.disk[c.nodes[id].block]
  }

  /** A clean buffer equals its disk block, unless a client that still pins it has changed it. */
  ghost predicate BufferOk(c: Cache, id: Id) {
    id in c.nodes && c.nodes[id].block < |c.disk| && (Unsaved(c, id) ==> c.nodes[id].refs > 0)
  }

  ghost predicate OneEach(c: Cache) {
    forall i, j :: i in c.nodes && j in c.nodes && c.nodes[i].block == c.nodes[j].block ==> i == j
  }

  ghost predicate Listed(c: Cache) {
    NoDup(c.lru) && |c.lru| <= c.cap && forall id :: id in c.lru <==> id in c.nodes
  }

  ghost predicate Inv(c: Cache) {
    && Listed(c) && OneEach(c)
    && (forall id :: id in c.nodes ==> BufferOk(c, id))
  }

  // ---- operations -------------------------------------------------------------------------------

  function Touch(c: Cache, id: Id): Cache {
    c.(lru := Remove(c.lru, id) + [id])
  }

  function SetRefs(c: Cache, id: Id, refs: nat): Cache
    requires id in c.nodes
  {
    c.(nodes := c.nodes[id := c.nodes[id].(refs := refs)])
  }

  /** The least recent buffer nobody pins. */
  function Victim(c: Cache, ids: seq<Id>): Option<Id> {
    if ids == [] then None
    else if ids[0] in c.nodes && c.nodes[ids[0]].refs == 0 then Some(ids[0])
    else Victim(c, ids[1..])
  }

  /** Write-back of one buffer. */
  function Clean(c: Cache, id: Id): Cache
    requires id in c.nodes && c.nodes[id].block < |c.disk|
  {
    var n := c.nodes[id];
    if n.dirty then c.(disk := c.disk[n.block := n.data], nodes := c.nodes[id := n.(dirty := false)]) else c
  }

  function Drop(c: Cache, id: Id): Cache {
    c.(lru := Remove(c.lru, id), nodes := c.nodes - {id})
  }

  /** A new buffer filled from disk. */
  function Load(c: Cache, b: nat, id: Id): Cache
    requires b < |c.disk|
  {
    c.(lru := c.lru + [id], nodes := c.nodes[id := Buffer(b, c.disk[b], false, 1)])
  }

  /** bread. None: every buffer is pinned and the cache is full. */
  function Read(c: Cache, b: nat, id: Id): Option<Cache>
    requires b < |c.disk| && forall i :: i in c.nodes ==> c.nodes[i].block < |c.disk|
  {
    var f := Find(c, b);
    if f.Some? && f.value in c.nodes then Some(Touch(SetRefs(c, f.value, c.nodes[f.value].refs + 1), f.value))
    else if |c.lru| < c.cap then Some(Load(c, b, id))
    else
      var v := Victim(c, c.lru);
      if v.None? || v.value !in c.nodes then None else Some(Load(Drop(Clean(c, v.value), v.value), b, id))
  }

  function Release(c: Cache, b: nat): Cache {
    var f := Find(c, b);
    if f.Some? && f.value in c.nodes && c.nodes[f.value].refs > 0 then SetRefs(c, f.value, c.nodes[f.value].refs - 1) else c
  }

  function MarkDirty(c: Cache, b: nat): Cache {
    var f := Find(c, b);
    if f.Some? && f.value in c.nodes then
      Touch(c.(nodes := c.nodes[f.value := c.nodes[f.value].(dirty := true)]), f.value)
    else c
  }

  function Flush(c: Cache, b: nat): Cache {
    var f := Find(c, b);
    if f.Some? && f.value in c.nodes && c.nodes[f.value].block < |c.disk| then Touch(Clean(c, f.value), f.value) else c
  }

  /** Write-back of one buffer after another. */
  function CleanFirst(c: Cache, ids: seq<Id>): Cache
    decreases |ids|
  {
    if ids == [] then c
    else if ids[0] in c.nodes && c.nodes[ids[0]].block < |c.disk| then CleanFirst(Clean(c, ids[0]), ids[1..])
    else CleanFirst(c, ids[1..])
  }

  function Invalidate(c: Cache, b: nat): Cache {
    var f := Find(c, b);
    if f.Some? then Drop(c, f.value) else c
  }

  /** A client stores through the pointer bread gave it. */
  function Poke(c: Cache, id: Id, data: Block): Cache
    requires id in c.nodes
  {
    c.(nodes := c.nodes[id := c.nodes[id].(data := data)])
  }

  // ---- lookups ------------------------------------------------------------------------------------

  lemma {:induction false} FindInMeaning(ids: seq<Id>, nodes: map<Id, Buffer>, b: nat)
    ensures match FindIn(ids, nodes, b)
            case None => forall id :: id in ids && id in nodes ==> nodes[id].block != b
            case Some(id) => id in ids && id in nodes && nodes[id].block == b
  {
    if ids != [] {
      FindInMeaning(ids[1..], nodes, b);
      assert forall id :: id in ids ==> id == ids[0] || id in ids[1..];
    }
  }

  lemma FindIs(c: Cache, id: Id)
    requires Listed(c) && OneEach(c) && id in c.nodes
    ensures Find(c, c.nodes[id].block) == Some(id)
  {
    FindInMeaning(c.lru, c.nodes, c.nodes[id].block);
  }

  lemma {:induction false} VictimMeaning(c: Cache, ids: seq<Id>)
    ensures match Victim(c, ids)
            case None => forall id :: id in ids && id in c.nodes ==> c.nodes[id].refs > 0
            case Some(id) => id in ids && id in c.nodes && c.nodes[id].refs == 0
  {
    if ids != [] {
      VictimMeaning(c, ids[1..]);
      assert forall id :: id in ids ==> id == ids[0] || id in ids[1..];
    }
  }

  /** The view, without the search. */
  lemma ViewIs(c: Cache, b: nat)
    requires Listed(c) && OneEach(c) && b < |c.disk|
    ensures forall id :: id in c.nodes && c.nodes[id].block == b ==> ViewAt(c, b) == c.nodes[id].data
    ensures (forall id :: id in c.nodes ==> c.nodes[id].block != b) ==> ViewAt(c, b) == c.disk[b]
  {
    FindInMeaning(c.lru, c.nodes, b);
    forall id | id in c.nodes && c.nodes[id].block == b ensures ViewAt(c, b) == c.nodes[id].data { FindIs(c, id); }
  }

  ghost predicate SameView(c: Cache, d: Cache) {
    |d.disk| == |c.disk| && forall b: nat :: b < |c.disk| ==> ViewAt(d, b) == ViewAt(c, b)
  }

  /** The buffers hold the same blocks and contents, and the disk differs only under buffers. */
  lemma ViewKept(c: Cache, d: Cache)
    requires Listed(c) && OneEach(c) && Listed(d) && OneEach(d) && |d.disk| == |c.disk|
    requires d.nodes.Keys == c.nodes.Keys
    requires forall id :: id in c.nodes ==> d.nodes[id].block == c.nodes[id].block && d.nodes[id].data == c.nodes[id].data
    requires forall b: nat :: b < |c.disk| && d.disk[b] != c.disk[b] ==> exists id :: id in c.nodes && c.nodes[id].block == b
    ensures SameView(c, d)
  {
    forall b: nat | b < |c.disk| ensures ViewAt(d, b) == ViewAt(c, b) {
      ViewIs(c, b);
      ViewIs(d, b);
      if id :| id in c.nodes && c.nodes[id].block == b { assert d.nodes[id].block == b; }
    }
  }

  // ---- each operation keeps the invariant and the view ---------------------------------------------

  lemma TouchKeeps(c: Cache, id: Id)
    requires Inv(c) && id in c.nodes
    ensures Inv(Touch(c, id)) && SameView(c, Touch(c, id))
  {
    var d := Touch(c, id);
    RemoveMembers(c.lru, id);
    PushMembers(Remove(c.lru, id), id);
    RemoveLength(c.lru, id);
    forall i | i in d.nodes ensures BufferOk(d, i) { assert BufferOk(c, i); }
    ViewKept(c, d);
  }

  lemma {:induction false} RemoveLength(s: seq<Id>, x: Id)
    requires x in s
    ensures |Remove(s, x)| == |s| - 1
  {
    if s[0] != x { RemoveLength(s[1..], x); }
  }

  lemma SetRefsKeeps(c: Cache, id: Id, refs: nat)
    requires Inv(c) && id in c.nodes && (Unsaved(c, id) ==> refs > 0)
    ensures Inv(SetRefs(c, id, refs)) && SameView(c, SetRefs(c, id, refs))
  {
    var d := SetRefs(c, id, refs);
    forall i | i in d.nodes ensures BufferOk(d, i) { assert BufferOk(c, i); }
    ViewKept(c, d);
  }

  lemma CleanKeeps(c: Cache, id: Id)
    requires Inv(c) && id in c.nodes && c.nodes[id].block < |c.disk|
    ensures Inv(Clean(c, id)) && SameView(c, Clean(c, id))
  {
    var d := Clean(c, id);
    forall i | i in d.nodes ensures BufferOk(d, i) { assert BufferOk(c, i); }
    ViewKept(c, d);
  }

  lemma DropInv(c: Cache, id: Id)
    requires Inv(c) && id in c.nodes
    ensures Inv(Drop(c, id)) && |Drop(c, id).lru| == |c.lru| - 1
  {
    var d := Drop(c, id);
    RemoveMembers(c.lru, id);
    RemoveLength(c.lru, id);
    forall i | i in d.nodes ensures BufferOk(d, i) { assert BufferOk(c, i); }
  }

  /** Without its buffer a block shows the disk; the others show what they did. */
  lemma DropView(c: Cache, id: Id, x: nat)
    requires Listed(c) && OneEach(c) && id in c.nodes && Listed(Drop(c, id)) && OneEach(Drop(c, id)) && x < |c.disk|
    ensures ViewAt(Drop(c, id), x) == if x == c.nodes[id].block then c.disk[x] else ViewAt(c, x)
  {
    var d := Drop(c, id);
    ViewIs(c, x);
    ViewIs(d, x);
    hide ViewAt;
    if i :| i in c.nodes && c.nodes[i].block == x && i != id { assert i in d.nodes; }
  }

  /** Dropping a clean unpinned buffer shows the disk, which says the same. */
  lemma DropKeeps(c: Cache, id: Id)
    requires Inv(c) && id in c.nodes && !c.nodes[id].dirty && c.nodes[id].refs == 0
    ensures Inv(Drop(c, id)) && SameView(c, Drop(c, id)) && |Drop(c, id).lru| == |c.lru| - 1
  {
    hide ViewAt, OneEach, Listed;
    DropInv(c, id);
    assert BufferOk(c, id);
    ViewIs(c, c.nodes[id].block);
    forall b: nat | b < |c.disk| ensures ViewAt(Drop(c, id), b) == ViewAt(c, b) { DropView(c, id, b); }
  }

  lemma LoadKeeps(c: Cache, b: nat, id: Id)
    requires Inv(c) && b < |c.disk| && |c.lru| < c.cap && id !in c.nodes
    requires forall i :: i in c.nodes ==> c.nodes[i].block != b
    ensures Inv(Load(c, b, id)) && SameView(c, Load(c, b, id))
  {
    var d := Load(c, b, id);
    PushMembers(c.lru, id);
    forall i | i in d.nodes ensures BufferOk(d, i) { assert i != id ==> BufferOk(c, i); }
    forall x: nat | x < |c.disk| ensures ViewAt(d, x) == ViewAt(c, x) { ViewIs(c, x); ViewIs(d, x); }
  }

  lemma NotCached(c: Cache, b: nat)
    requires Listed(c) && (Find(c, b).None? || Find(c, b).value !in c.nodes)
    ensures forall i :: i in c.nodes ==> c.nodes[i].block != b
  {
    FindInMeaning(c.lru, c.nodes, b);
  }

  /** d still holds every pinned buffer of c as it was, up to one more pin. */
  ghost predicate KeepsPinned(c: Cache, d: Cache) {
    forall i :: i in c.nodes && c.nodes[i].refs > 0 ==>
      i in d.nodes && d.nodes[i].data == c.nodes[i].data && d.nodes[i].block == c.nodes[i].block && d.nodes[i].refs >= c.nodes[i].refs
  }

  /** Whatever dirty buffer is gone from d has its contents on d's disk. */
  ghost predicate LosesNoDirty(c: Cache, d: Cache) {
    forall i :: i in c.nodes && c.nodes[i].dirty && i !in d.nodes ==>
      c.nodes[i].block < |d.disk| && d.disk[c.nodes[i].block] == c.nodes[i].data
  }

  lemma BlocksOnDisk(c: Cache)
    requires Inv(c)
    ensures forall i :: i in c.nodes ==> c.nodes[i].block < |c.disk|
  {
    forall i | i in c.nodes ensures c.nodes[i].block < |c.disk| { assert BufferOk(c, i); }
  }

  lemma HitKeeps(c: Cache, b: nat)
    requires Inv(c) && Find(c, b).Some? && Find(c, b).value in c.nodes
    ensures var id := Find(c, b).value;
      var d := Touch(SetRefs(c, id, c.nodes[id].refs + 1), id);
      Inv(d) && SameView(c, d) && KeepsPinned(c, d) && LosesNoDirty(c, d)
      && id in d.nodes && d.nodes[id].block == b && d.nodes[id].refs > 0
  {
    hide BufferOk, ViewAt, FindIn;
    FindInMeaning(c.lru, c.nodes, b);
    var id := Find(c, b).value;
    SetRefsKeeps(c, id, c.nodes[id].refs + 1);
    TouchKeeps(SetRefs(c, id, c.nodes[id].refs + 1), id);
  }

  lemma EvictKeeps(c: Cache)
    requires Inv(c) && Victim(c, c.lru).Some?
    ensures var v := Victim(c, c.lru).value;
      && v in c.nodes && c.nodes[v].block < |c.disk| && c.nodes[v].refs == 0
      && var d := Drop(Clean(c, v), v);
         Inv(d) && SameView(c, d) && |d.lru| < |c.lru| && KeepsPinned(c, d) && LosesNoDirty(c, d)
         && d.nodes.Keys <= c.nodes.Keys && d.cap == c.cap
         && forall i :: i in d.nodes ==> d.nodes[i].block == c.nodes[i].block
  {
    hide ViewAt, FindIn, BufferOk, Victim, KeepsPinned, LosesNoDirty;
    VictimMeaning(c, c.lru);
    BlocksOnDisk(c);
    var v := Victim(c, c.lru).value;
    EvictSpares(c, v);
    CleanKeeps(c, v);
    DropKeeps(Clean(c, v), v);
  }

  lemma EvictSpares(c: Cache, v: Id)
    requires v in c.nodes && c.nodes[v].block < |c.disk| && c.nodes[v].refs == 0
    ensures KeepsPinned(c, Drop(Clean(c, v), v)) && LosesNoDirty(c, Drop(Clean(c, v), v))
  {}

  /** d shows the same view with block b pinned; no pinned buffer and no unwritten change is lost. */
  ghost predicate ReadOk(c: Cache, b: nat, d: Cache)
    requires b < |c.disk|
  {
    && Inv(d) && SameView(c, d) && KeepsPinned(c, d) && LosesNoDirty(c, d) && d.cap == c.cap
    && Find(d, b).Some? && Find(d, b).value in d.nodes && d.nodes[Find(d, b).value].refs > 0
    && d.nodes[Find(d, b).value].data == ViewAt(c, b)
  }

  /** The cache is full, every buffer is pinned, and none holds block b. */
  predicate AllPinned(c: Cache, b: nat) {
    |c.lru| == c.cap && forall i :: i in c.nodes ==> c.nodes[i].refs > 0 && c.nodes[i].block != b
  }

  /** bread: the view stands, the block is pinned, and a buffer lost was unpinned and written back. */
  lemma ReadKeeps(c: Cache, b: nat, id: Id)
    requires Inv(c) && b < |c.disk| && id !in c.nodes && c.cap > 0
    ensures forall i :: i in c.nodes ==> c.nodes[i].block < |c.disk|
    ensures Read(c, b, id).None? <==> AllPinned(c, b)
    ensures Read(c, b, id).Some? ==> ReadOk(c, b, Read(c, b, id).value)
  {
    hide ViewAt, FindIn, BufferOk, OneEach, ReadOk;
    BlocksOnDisk(c);
    var f := Find(c, b);
    if f.Some? && f.value in c.nodes {
      ReadHits(c, b);
      FindInMeaning(c.lru, c.nodes, b);
    } else {
      NotCached(c, b);
      if |c.lru| < c.cap {
        ReadLoads(c, b, id);
      } else {
        VictimMeaning(c, c.lru);
        if Victim(c, c.lru).Some? { ReadEvicts(c, b, id); }
      }
    }
  }

  lemma ReadHits(c: Cache, b: nat)
    requires Inv(c) && b < |c.disk| && Find(c, b).Some? && Find(c, b).value in c.nodes
    ensures var id := Find(c, b).value;
      ReadOk(c, b, Touch(SetRefs(c, id, c.nodes[id].refs + 1), id))
  {
    hide ViewAt, FindIn, BufferOk, OneEach, Inv, Listed;
    HitKeeps(c, b);
    var id := Find(c, b).value;
    Pinned(c, Touch(SetRefs(c, id, c.nodes[id].refs + 1), id), id);
  }

  lemma ReadLoads(c: Cache, b: nat, id: Id)
    requires Inv(c) && b < |c.disk| && |c.lru| < c.cap && id !in c.nodes
    requires forall i :: i in c.nodes ==> c.nodes[i].block != b
    ensures ReadOk(c, b, Load(c, b, id))
  {
    hide ViewAt, FindIn, BufferOk, OneEach, Inv, Listed;
    LoadKeeps(c, b, id);
    Pinned(c, Load(c, b, id), id);
  }

  /** A buffer of d pinned at block b is what the search finds, and shows the old view. */
  lemma Pinned(c: Cache, d: Cache, id: Id)
    requires Inv(d) && SameView(c, d) && id in d.nodes && d.nodes[id].block < |c.disk|
    ensures Find(d, d.nodes[id].block) == Some(id) && d.nodes[id].data == ViewAt(c, d.nodes[id].block)
  {
    FindIs(d, id);
    ViewIs(d, d.nodes[id].block);
  }

  lemma ReadEvicts(c: Cache, b: nat, id: Id)
    requires Inv(c) && b < |c.disk| && id !in c.nodes && |c.lru| == c.cap && Victim(c, c.lru).Some?
    requires forall i :: i in c.nodes ==> c.nodes[i].block != b
    ensures var v := Victim(c, c.lru).value;
      && v in c.nodes && c.nodes[v].block < |c.disk|
      && ReadOk(c, b, Load(Drop(Clean(c, v), v), b, id))
  {
    hide Victim, FindIn, ViewAt, BufferOk, Inv, Listed, OneEach;
    EvictKeeps(c);
    var v := Victim(c, c.lru).value;
    var m := Drop(Clean(c, v), v);
    LoadKeeps(m, b, id);
    Pinned(c, Load(m, b, id), id);
  }

  /** The pin to be given up is not the last one on a change that nothing will write back. */
  predicate MayRelease(c: Cache, b: nat) {
    var f := Find(c, b);
    f.Some? && Unsaved(c, f.value) ==> c.nodes[f.value].refs > 1
  }

  /** brelse keeps the view always, and the promise not to lose a change exactly if it may release. */
  lemma ReleaseExact(c: Cache, b: nat)
    requires Inv(c)
    ensures Inv(Release(c, b)) <==> MayRelease(c, b)
    ensures SameView(c, Release(c, b)) && Listed(Release(c, b)) && OneEach(Release(c, b))
  {
    hide ViewAt, FindIn, BufferOk, OneEach, Unsaved;
    FindInMeaning(c.lru, c.nodes, b);
    var f := Find(c, b);
    if f.Some? && c.nodes[f.value].refs > 0 {
      SetRefsView(c, f.value, c.nodes[f.value].refs - 1);
      if MayRelease(c, b) { SetRefsKeeps(c, f.value, c.nodes[f.value].refs - 1); } else { LastPin(c, f.value); }
    } else {
      if f.Some? { SavedUnpinned(c, f.value); }
      SameRefs(c);
    }
  }

  lemma SameRefs(c: Cache)
    ensures SameView(c, c)
  {}

  lemma SavedUnpinned(c: Cache, id: Id)
    requires Inv(c) && id in c.nodes && c.nodes[id].refs == 0
    ensures !Unsaved(c, id)
  {
    assert BufferOk(c, id);
  }

  lemma LastPin(c: Cache, id: Id)
    requires Unsaved(c, id)
    ensures !Inv(SetRefs(c, id, 0))
  {
    assert !BufferOk(SetRefs(c, id, 0), id);
  }

  /** Once the last pin is gone, eviction shows what clients saw if and only if the release was allowed. */
  lemma EvictedExact(c: Cache, b: nat, id: Id)
    requires Inv(c) && Find(c, b) == Some(id) && id in c.nodes && c.nodes[id].refs <= 1 && b < |c.disk|
    ensures var r := Release(c, b);
      && id in r.nodes && r.nodes[id].refs == 0 && r.nodes[id].block < |r.disk|
      && var d := Drop(Clean(r, id), id);
         (SameView(c, d) <==> MayRelease(c, b)) && (!MayRelease(c, b) ==> ViewAt(d, b) == c.disk[b] != ViewAt(c, b))
  {
    FindInMeaning(c.lru, c.nodes, b);
    assert BufferOk(c, id);
    ReleaseExact(c, b);
    if MayRelease(c, b) { ReleasedSafely(c, b, id); } else { ChangeGone(c, b, id); }
  }

  lemma ReleasedSafely(c: Cache, b: nat, id: Id)
    requires Inv(Release(c, b)) && SameView(c, Release(c, b)) && id in Release(c, b).nodes && Release(c, b).nodes[id].refs == 0
    ensures Release(c, b).nodes[id].block < |Release(c, b).disk| && SameView(c, Drop(Clean(Release(c, b), id), id))
  {
    hide ViewAt, BufferOk, OneEach, FindIn;
    var r := Release(c, b);
    BlocksOnDisk(r);
    CleanKeeps(r, id);
    DropKeeps(Clean(r, id), id);
  }

  lemma ChangeGone(c: Cache, b: nat, id: Id)
    requires Listed(c) && OneEach(c) && Find(c, b) == Some(id) && Unsaved(c, id) && c.nodes[id].block == b && b < |c.disk|
    ensures id in Release(c, b).nodes && ViewAt(Drop(Clean(Release(c, b), id), id), b) == c.disk[b] != ViewAt(c, b)
  {
    var d := Drop(Clean(Release(c, b), id), id);
    RemoveMembers(c.lru, id);
    FindInMeaning(d.lru, d.nodes, b);
  }

  lemma SetRefsView(c: Cache, id: Id, refs: nat)
    requires Inv(c) && id in c.nodes
    ensures SameView(c, SetRefs(c, id, refs)) && Listed(SetRefs(c, id, refs)) && OneEach(SetRefs(c, id, refs))
  {
    ViewKept(c, SetRefs(c, id, refs));
  }

  /** bwrite settles the client's change: from here on the buffer is written back before it goes. */
  lemma MarkKeeps(c: Cache, b: nat)
    requires Inv(c)
    ensures Inv(MarkDirty(c, b)) && SameView(c, MarkDirty(c, b))
    ensures forall id :: id in c.nodes && c.nodes[id].block == b ==> !Unsaved(MarkDirty(c, b), id)
  {
    FindInMeaning(c.lru, c.nodes, b);
    var f := Find(c, b);
    if f.Some? {
      var d := c.(nodes := c.nodes[f.value := c.nodes[f.value].(dirty := true)]);
      forall i | i in d.nodes ensures BufferOk(d, i) { assert BufferOk(c, i); }
      ViewKept(c, d);
      hide BufferOk, FindIn, ViewAt;
      TouchKeeps(d, f.value);
    }
  }

  lemma FlushKeeps(c: Cache, b: nat)
    requires Inv(c)
    ensures Inv(Flush(c, b)) && SameView(c, Flush(c, b))
    ensures Find(c, b).Some? && !Unsaved(c, Find(c, b).value) ==> b < |c.disk| && Flush(c, b).disk[b] == ViewAt(c, b)
  {
    FindInMeaning(c.lru, c.nodes, b);
    var f := Find(c, b);
    if f.Some? {
      assert BufferOk(c, f.value);
      ViewIs(c, b);
      CleanKeeps(c, f.value);
      TouchKeeps(Clean(c, f.value), f.value);
    }
  }

  /** bflush_all: every buffer it passed is clean, so its block is on disk unless a change is pending. */
  lemma {:induction false} CleanFirstKeeps(c: Cache, ids: seq<Id>)
    requires Inv(c) && forall id :: id in ids ==> id in c.nodes
    ensures var d := CleanFirst(c, ids);
      && Inv(d) && SameView(c, d) && d.lru == c.lru && d.nodes.Keys == c.nodes.Keys && d.cap == c.cap
      && (forall id :: id in ids || (id in c.nodes && !c.nodes[id].dirty) ==> !d.nodes[id].dirty)
    decreases |ids|
  {
    hide ViewAt, BufferOk;
    if ids != [] {
      BlocksOnDisk(c);
      CleanKeeps(c, ids[0]);
      CleanFirstKeeps(Clean(c, ids[0]), ids[1..]);
    }
  }

  /** The walk goes from the most recent buffer to the least. */
  function FlushAll(c: Cache): Cache {
    CleanFirst(c, Reverse(c.lru))
  }

  function Reverse(s: seq<Id>): seq<Id> {
    if s == [] then [] else Reverse(s[1..]) + [s[0]]
  }

  lemma {:induction false} ReverseMembers(s: seq<Id>)
    ensures |Reverse(s)| == |s| && forall x :: x in Reverse(s) <==> x in s
  {
    if s != [] {
      ReverseMembers(s[1..]);
      assert forall x :: x in s <==> x == s[0] || x in s[1..];
    }
  }

  lemma FlushAllKeeps(c: Cache)
    requires Inv(c)
    ensures Inv(FlushAll(c)) && SameView(c, FlushAll(c)) && FlushAll(c).cap == c.cap
    ensures forall id :: id in FlushAll(c).nodes ==> !FlushAll(c).nodes[id].dirty
  {
    hide CleanFirst, ViewAt, BufferOk, OneEach;
    ReverseMembers(c.lru);
    CleanFirstKeeps(c, Reverse(c.lru));
  }

  /** With every buffer clean, the disk shows what clients see, but for changes nobody handed over. */
  lemma FlushAllSettles(c: Cache, b: nat)
    requires Inv(c) && b < |c.disk| && forall id :: id in c.nodes ==> !c.nodes[id].dirty
    ensures c.disk[b] == ViewAt(c, b) <==> !(exists id :: Unsaved(c, id) && c.nodes[id].block == b)
  {
    ViewIs(c, b);
    FindInMeaning(c.lru, c.nodes, b);
    if Find(c, b).Some? { assert BufferOk(c, Find(c, b).value); }
  }

  /** binvalidate: the block shows its disk contents again, and no other block moves. */
  lemma InvalidateReverts(c: Cache, b: nat)
    requires Inv(c)
    ensures var d := Invalidate(c, b);
      && Inv(d) && d.disk == c.disk
      && forall x: nat :: x < |c.disk| ==> ViewAt(d, x) == if x == b then c.disk[b] else ViewAt(c, x)
  {
    hide ViewAt, FindIn, OneEach, BufferOk;
    FindInMeaning(c.lru, c.nodes, b);
    if Find(c, b).Some? {
      DropInv(c, Find(c, b).value);
      forall x: nat | x < |c.disk| ensures ViewAt(Invalidate(c, b), x) == if x == b then c.disk[b] else ViewAt(c, x) {
        DropView(c, Find(c, b).value, x);
      }
    } else if b < |c.disk| {
      ViewIs(c, b);
    }
  }

  /** A store through a pinned pointer changes the view at that block only. */
  lemma PokeKeeps(c: Cache, id: Id, data: Block)
    requires Inv(c) && id in c.nodes && c.nodes[id].refs > 0
    ensures var d := Poke(c, id, data);
      && Inv(d) && d.disk == c.disk
      && forall x: nat :: x < |c.disk| ==> ViewAt(d, x) == if x == c.nodes[id].block then data else ViewAt(c, x)
  {
    hide ViewAt, FindIn;
    var d := Poke(c, id, data);
    forall i | i in d.nodes ensures BufferOk(d, i) { assert BufferOk(c, i); }
    forall x: nat | x < |c.disk| ensures ViewAt(d, x) == if x == c.nodes[id].block then data else ViewAt(c, x) {
      PokeView(c, id, data, x);
    }
  }

  lemma PokeView(c: Cache, id: Id, data: Block, x: nat)
    requires Listed(c) && OneEach(c) && id in c.nodes && x < |c.disk|
    ensures ViewAt(Poke(c, id, data), x) == if x == c.nodes[id].block then data else ViewAt(c, x)
  {
    var d := Poke(c, id, data);
    ViewIs(c, x);
    ViewIs(d, x);
    hide ViewAt, FindIn;
    if i :| i in c.nodes && c.nodes[i].block == x { assert i in d.nodes && d.nodes[i].block == x; }
  }
}
