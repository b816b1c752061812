/**
 Runs of kmalloc and kfree from boot. The ledger holds every pointer handed out and not freed;
 it is at all times exactly the live slots, and its objects never overlap.
 */
module SlabRuns {
  import opened Options
  import opened SlabSpec
  import opened SlabHeap

  /** Slot s of a slab of cache k. */
  datatype Ref = Ref(k: nat, slab: Id, s: nat)

  type Ledger = map<nat, Ref>

  /** A completed call, with what it returned and which slot it moved. */
  datatype Event =
    | Malloc(size: nat, result: Option<nat>, ref: Ref)
    | Free(ptr: nat, size: nat, hit: bool, ref: Ref)

  /** The call takes heap h to n, as the methods of the heap promise. */
  ghost predicate Follows(h: seq<Cache>, e: Event, n: seq<Cache>) {
    && HeapInv(n) && |n| == |h|
    && match e
       case Malloc(size, r, f) => Malloced(h, n, size, r, f.k, f.slab, f.s)
       case Free(ptr, size, hit, f) => Freed(h, n, ptr, size, hit, f.k, f.slab, f.s)
  }

  function After(g: Ledger, e: Event): Ledger {
    match e
    case Malloc(_, r, f) => if r.Some? then g[r.value := f] else g
    case Free(ptr, _, hit, _) => if hit then g - {ptr} else g
  }

  ghost predicate IsLive(h: seq<Cache>, f: Ref) {
    f.k < |h| && f.slab in h[f.k].slabs && Live(h[f.k], f.slab, f.s)
  }

  function At(h: seq<Cache>, f: Ref): nat
    requires f.k < |h| && f.slab in h[f.k].slabs
  {
    Address(h[f.k], f.slab, f.s)
  }

  /** Pointers handed out and not freed are exactly the addresses of live slots. */
  ghost predicate Exact(h: seq<Cache>, g: Ledger) {
    && (forall p :: p in g ==> IsLive(h, g[p]) && p == At(h, g[p]))
    && (forall f: Ref :: IsLive(h, f) ==> At(h, f) in g && g[At(h, f)] == f)
  }

  /** Different live slots have different addresses. */
  lemma AddressesDiffer(h: seq<Cache>, f: Ref, e: Ref)
    requires HeapInv(h) && IsLive(h, f) && IsLive(h, e) && f != e
    ensures At(h, f) != At(h, e)
  {
    hide Live;
    assert h[f.k].size > 0 && h[e.k].size > 0 by { CacheOk(h, f.k); CacheOk(h, e.k); }
    hide HeapInv;
    ObjectsApart(h, f.k, f.slab, f.s, e.k, e.slab, e.s);
  }

  lemma MallocLive(h: seq<Cache>, n: seq<Cache>, size: nat, ptr: nat, m: Ref, f: Ref)
    requires Malloced(h, n, size, Some(ptr), m.k, m.slab, m.s)
    ensures IsLive(n, m) && ptr == At(n, m) && !IsLive(h, m)
    ensures f != m ==> (IsLive(n, f) <==> IsLive(h, f)) && (IsLive(h, f) ==> At(n, f) == At(h, f))
  {
    assert m.k < |h|;
    hide Best;
    LiveHasSlab(h, f);
    LiveHasSlab(n, f);
    hide Live;
    if f != m && f.k == m.k {
      assert (f.slab, f.s) != (m.slab, m.s);
      assert Live(n[m.k], f.slab, f.s) <==> Live(h[m.k], f.slab, f.s);
    }
  }

  lemma LiveHasSlab(h: seq<Cache>, f: Ref)
    ensures f.k < |h| && Live(h[f.k], f.slab, f.s) ==> f.slab in h[f.k].slabs
  {}

  lemma FreeLive(h: seq<Cache>, n: seq<Cache>, ptr: nat, size: nat, m: Ref, f: Ref)
    requires Freed(h, n, ptr, size, true, m.k, m.slab, m.s)
    ensures IsLive(h, m) && ptr == At(h, m) && !IsLive(n, m)
    ensures f != m ==> (IsLive(n, f) <==> IsLive(h, f)) && (IsLive(h, f) ==> At(n, f) == At(h, f))
  {
    assert m.k < |h|;
    hide Best;
    LiveHasSlab(h, f);
    LiveHasSlab(n, f);
    hide Live;
  }

  lemma MallocExact(h: seq<Cache>, n: seq<Cache>, g: Ledger, size: nat, ptr: nat, m: Ref)
    requires Exact(h, g) && HeapInv(n) && Malloced(h, n, size, Some(ptr), m.k, m.slab, m.s)
    ensures Exact(n, g[ptr := m])
  {
    MallocLive(h, n, size, ptr, m, m);
    hide HeapInv, Malloced, IsLive, At;
    var y := g[ptr := m];
    forall p | p in y ensures IsLive(n, y[p]) && p == At(n, y[p]) {
      if p != ptr {
        MallocLive(h, n, size, ptr, m, g[p]);
        assert g[p] != m;
      }
    }
    forall f: Ref | IsLive(n, f) ensures At(n, f) in y && y[At(n, f)] == f {
      if f != m {
        MallocLive(h, n, size, ptr, m, f);
        AddressesDiffer(n, f, m);
      }
    }
  }

  lemma FreeExact(h: seq<Cache>, n: seq<Cache>, g: Ledger, ptr: nat, size: nat, m: Ref)
    requires Exact(h, g) && HeapInv(h) && Freed(h, n, ptr, size, true, m.k, m.slab, m.s)
    ensures Exact(n, g - {ptr}) && ptr in g && g[ptr] == m
  {
    hide HeapInv, Freed, Live;
    FreeLive(h, n, ptr, size, m, m);
    var y := g - {ptr};
    forall p | p in y ensures IsLive(n, y[p]) && p == At(n, y[p]) {
      assert g[p] != m;
      FreeLive(h, n, ptr, size, m, g[p]);
    }
    forall f: Ref | IsLive(n, f) ensures At(n, f) in y && y[At(n, f)] == f {
      FreeLive(h, n, ptr, size, m, f);
      AddressesDiffer(h, f, m);
    }
  }

  lemma StepExact(h: seq<Cache>, e: Event, n: seq<Cache>, g: Ledger)
    requires HeapInv(h) && Exact(h, g) && Follows(h, e, n)
    ensures Exact(n, After(g, e))
  {
    hide Exact;
    match e
    case Malloc(size, r, f) => if r.Some? { MallocExact(h, n, g, size, r.value, f); }
    case Free(ptr, size, hit, f) => if hit { FreeExact(h, n, g, ptr, size, f); }
  }

  /** A run: the heap before and after every call. */
  ghost predicate IsRun(hs: seq<seq<Cache>>, es: seq<Event>) {
    |hs| == |es| + 1 && forall i :: 0 <= i < |es| ==> Follows(hs[i], es[i], hs[i + 1])
  }

  function LedgerOf(es: seq<Event>): Ledger {
    if es == [] then map[] else After(LedgerOf(es[..|es| - 1]), es[|es| - 1])
  }

  lemma {:induction false} RunExact(hs: seq<seq<Cache>>, es: seq<Event>)
    requires IsRun(hs, es) && HeapInv(hs[0]) && Exact(hs[0], map[])
    ensures HeapInv(hs[|es|]) && Exact(hs[|es|], LedgerOf(es))
    decreases |es|
  {
    hide HeapInv, Exact, Follows;
    if es != [] {
      var n := |es| - 1;
      RunExact(hs[..n + 1], es[..n]);
      assert Follows(hs[n], es[n], hs[n + 1]);
      StepExact(hs[n], es[n], hs[n + 1], LedgerOf(es[..n]));
      FollowsKeeps(hs[n], es[n], hs[n + 1]);
    }
  }

  lemma FollowsKeeps(h: seq<Cache>, e: Event, n: seq<Cache>)
    requires Follows(h, e, n)
    ensures HeapInv(n)
  {}

  /** The heap as it is set up. */
  ghost predicate Booted(h: seq<Cache>, shapes: seq<Shape>) {
    Layout(shapes) && HeapInv(h) && |h| == |shapes| && forall k :: 0 <= k < |h| ==> h[k] == FirstCache(shapes[k])
  }

  lemma BootExact(h: seq<Cache>, shapes: seq<Shape>)
    requires Booted(h, shapes)
    ensures Exact(h, map[])
  {
    hide HeapInv, Live;
    forall f: Ref ensures !IsLive(h, f) { if f.k < |h| { FirstCacheOk(shapes[f.k]); } }
  }

  /** After any run from boot, what is handed out and not freed is what is live, and no two objects overlap. */
  lemma EveryRunIsSafe(shapes: seq<Shape>, hs: seq<seq<Cache>>, es: seq<Event>, p: nat, q: nat)
    requires IsRun(hs, es) && Booted(hs[0], shapes)
    ensures var h, g := hs[|es|], LedgerOf(es);
      && Exact(h, g)
      && (p in g && q in g && p != q ==>
            g[p].k < |h| && g[q].k < |h| && (p + h[g[p].k].size <= q || q + h[g[q].k].size <= p))
  {
    BootExact(hs[0], shapes);
    RunExact(hs, es);
    hide HeapInv, Live;
    var h, g := hs[|es|], LedgerOf(es);
    if p in g && q in g && p != q {
      ObjectsApart(h, g[p].k, g[p].slab, g[p].s, g[q].k, g[q].slab, g[q].s);
    }
  }

  /** A pointer in the ledger may be freed with any size its cache serves, and is then the one freed. */
  lemma LedgerMayFree(h: seq<Cache>, g: Ledger, p: nat, size: nat)
    requires HeapInv(h) && Exact(h, g) && p in g && Best(h, size, g[p].k)
    ensures MayFree(h, p, size) && !NoneInUse(h, size, p)
  {
    var f := g[p];
    CacheOk(h, f.k);
    hide HeapInv;
    var c := h[f.k];
    HolderOf(c, f.slab, f.s, p);
    forall b: nat, id | Best(h, size, b) && InUse(h[b], id, p) ensures StartsObject(h[b], id, p) {
      assert b == f.k;
      HoldersAgree(c, id, f.slab, p);
    }
    assert Best(h, size, f.k) && InUse(c, f.slab, p);
  }

  lemma HolderOf(c: Cache, slab: Id, s: nat, p: nat)
    requires Inv(c) && slab in c.slabs && Live(c, slab, s) && p == Address(c, slab, s)
    ensures InUse(c, slab, p)
  {
    LiveInside(c, slab, s);
    assert SlabOk(c, c.slabs[slab]);
    SomeUsed(Used(c.slabs[slab].bitmap), s);
    hide Used;
  }

  lemma HoldersAgree(c: Cache, i: Id, j: Id, ptr: nat)
    requires Shaped(c) && Holds(c, i, ptr) && Holds(c, j, ptr)
    ensures i == j
  {
    assert i != j ==> Apart(c.slabs[i].start, c.slabs[j].start, c.span);
  }
}
