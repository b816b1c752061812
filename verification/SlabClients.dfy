/** Any client of the slab allocator that gives up only what it holds, driven through the heap itself. */
module SlabClients {
  import opened Options
  import opened SlabSpec
  import opened SlabHeap
  import opened SlabRuns

  /** A client asks for objects and gives back those it holds, by position in its list. */
  datatype Request = Ask(size: nat) | GiveUp(i: nat)

  /** Every slab and its header lie below `next`, from where new pages come. */
  ghost predicate AllBelow(h: seq<Cache>, next: nat) {
    forall k, i :: 0 <= k < |h| && i in h[k].slabs ==> i < next && h[k].slabs[i].start + h[k].span <= next
  }

  lemma BelowMayGrow(h: seq<Cache>, next: nat)
    requires AllBelow(h, next)
    ensures MayGrow(h, next, next)
  {}

  lemma BelowGrown(h: seq<Cache>, n: seq<Cache>, next: nat, later: nat)
    requires AllBelow(h, next) && GrewBy(h, n, next, next) && next < later && forall k :: 0 <= k < |h| ==> next + h[k].span <= later
    ensures AllBelow(n, later)
  {
    forall k, i | 0 <= k < |n| && i in n[k].slabs ensures i < later && n[k].slabs[i].start + n[k].span <= later {
      assert CacheGrewBy(h[k], n[k], next, next);
    }
  }

  lemma BelowFreed(h: seq<Cache>, n: seq<Cache>, ptr: nat, size: nat, hit: bool, f: Ref, next: nat)
    requires AllBelow(h, next) && Freed(h, n, ptr, size, hit, f.k, f.slab, f.s)
    ensures AllBelow(n, next) && |n| == |h| && forall k :: 0 <= k < |h| ==> n[k].size == h[k].size && n[k].span == h[k].span
  {
    hide Live;
  }

  /** Which cache serves a size depends on the slot sizes only. */
  lemma BestSame(h: seq<Cache>, n: seq<Cache>, size: nat, k: nat)
    requires |n| == |h| && (forall c :: 0 <= c < |h| ==> n[c].size == h[c].size) && Best(h, size, k)
    ensures Best(n, size, k)
  {}

  /** Objects held: pointer and size asked for. */
  datatype Held = Held(ptr: nat, size: nat)

  ghost predicate Owned(h: seq<Cache>, g: Ledger, live: seq<Held>) {
    && (forall i :: 0 <= i < |live| ==> live[i].ptr in g && Best(h, live[i].size, g[live[i].ptr].k))
    && (forall i, j :: 0 <= i < j < |live| ==> live[i].ptr != live[j].ptr)
  }

  lemma OwnedMore(h: seq<Cache>, n: seq<Cache>, g: Ledger, live: seq<Held>, size: nat, ptr: nat, f: Ref)
    requires HeapInv(h) && Exact(h, g) && Owned(h, g, live) && Malloced(h, n, size, Some(ptr), f.k, f.slab, f.s) && HeapInv(n) && |n| == |h|
    ensures ptr !in g && Owned(n, g[ptr := f], live + [Held(ptr, size)])
  {
    hide HeapInv, Live;
    NewPointer(h, n, g, size, ptr, f);
    var more := live + [Held(ptr, size)];
    forall i | 0 <= i < |more| ensures more[i].ptr in g[ptr := f] && Best(n, more[i].size, g[ptr := f][more[i].ptr].k) {
      BestSame(h, n, more[i].size, g[ptr := f][more[i].ptr].k);
    }
  }

  /** What kmalloc returns was not handed out. */
  lemma NewPointer(h: seq<Cache>, n: seq<Cache>, g: Ledger, size: nat, ptr: nat, f: Ref)
    requires HeapInv(n) && Exact(h, g) && Malloced(h, n, size, Some(ptr), f.k, f.slab, f.s) && |n| == |h|
    ensures ptr !in g
  {
    hide HeapInv, Live;
    if ptr in g {
      var e := g[ptr];
      MallocLive(h, n, size, ptr, f, e);
      assert e != f;
      AddressesDiffer(n, e, f);
    }
  }

  lemma OwnedLess(h: seq<Cache>, n: seq<Cache>, g: Ledger, live: seq<Held>, i: nat, hit: bool)
    requires Owned(h, g, live) && i < |live| && |n| == |h| && forall c :: 0 <= c < |h| ==> n[c].size == h[c].size
    ensures Owned(n, if hit then g - {live[i].ptr} else g, live[..i] + live[i + 1..])
  {
    hide Best;
    var less, y := live[..i] + live[i + 1..], if hit then g - {live[i].ptr} else g;
    forall j | 0 <= j < |less| ensures less[j].ptr in y && Best(n, less[j].size, y[less[j].ptr].k) {
      var x := if j < i then j else j + 1;
      assert less[j] == live[x] && live[x].ptr != live[i].ptr;
      BestSame(h, n, live[x].size, g[live[x].ptr].k);
    }
    StillDistinct(live, i);
  }

  lemma StillDistinct(live: seq<Held>, i: nat)
    requires i < |live| && forall j, l :: 0 <= j < l < |live| ==> live[j].ptr != live[l].ptr
    ensures var less := live[..i] + live[i + 1..]; forall j, l :: 0 <= j < l < |less| ==> less[j].ptr != less[l].ptr
  {
    var less := live[..i] + live[i + 1..];
    forall j, l | 0 <= j < l < |less| ensures less[j].ptr != less[l].ptr {
      assert less[j] == live[if j < i then j else j + 1] && less[l] == live[if l < i then l else l + 1];
    }
  }

  ghost predicate SameSizes(h: seq<Cache>, n: seq<Cache>) {
    |n| == |h| && forall k :: 0 <= k < |h| ==> n[k].size == h[k].size
  }

  // ---- what a client ends up with ----------------------------------------------------------------

  function Sizes(live: seq<Held>): (r: seq<nat>)
    ensures |r| == |live| && forall i :: 0 <= i < |r| ==> r[i] == live[i].size
  {
    seq(|live|, i requires 0 <= i < |live| => live[i].size)
  }

  /** Some cache is large enough. */
  predicate Served(shapes: seq<Shape>, size: nat) { exists k :: 0 <= k < |shapes| && shapes[k].size >= size }

  /** The sizes of the objects held after one more request. */
  function After(shapes: seq<Shape>, held: seq<nat>, q: Request): seq<nat> {
    match q
    case Ask(size) => if Served(shapes, size) then held + [size] else held
    case GiveUp(i) => if i < |held| then held[..i] + held[i + 1..] else held
  }

  function Holding(shapes: seq<Shape>, qs: seq<Request>): seq<nat> {
    if qs == [] then [] else After(shapes, Holding(shapes, qs[..|qs| - 1]), qs[|qs| - 1])
  }

  class Client {
    const heap: Heap
    var next: nat
    var live: seq<Held>
    ghost var ledger: Ledger

    ghost predicate Valid()
      reads this, heap
    {
      heap.Valid() && Exact(heap.caches, ledger) && AllBelow(heap.caches, next) && Owned(heap.caches, ledger, live)
    }

    constructor (shapes: seq<Shape>, next: nat)
      requires Layout(shapes) && forall k :: 0 <= k < |shapes| ==> shapes[k].header < next && shapes[k].start + shapes[k].span <= next
      ensures Valid() && live == [] && ledger == map[] && fresh(heap)
      ensures Matches(shapes, heap.caches)
    {
      heap := new Heap(shapes);
      this.next, live, ledger := next, [], map[];
      new;
      hide HeapInv;
      BootExact(heap.caches, shapes);
      forall k, i | 0 <= k < |heap.caches| && i in heap.caches[k].slabs
        ensures i < next && heap.caches[k].slabs[i].start + heap.caches[k].span <= next
      {
        assert heap.caches[k] == FirstCache(shapes[k]);
      }
    }

    method Ask(size: nat)
      requires Valid()
      modifies this`next, this`live, this`ledger, heap
      ensures Valid() && SameSizes(old(heap.caches), heap.caches)
      ensures (forall c :: 0 <= c < |old(heap.caches)| ==> old(heap.caches)[c].size < size) ==> live == old(live) && ledger == old(ledger)
      ensures !(forall c :: 0 <= c < |old(heap.caches)| ==> old(heap.caches)[c].size < size) ==>
                |live| == |old(live)| + 1 && live[..|old(live)|] == old(live) && live[|old(live)|].size == size
                && live[|old(live)|].ptr !in old(ledger) && ledger.Keys == old(ledger).Keys + {live[|old(live)|].ptr}
    {
      hide HeapInv, Live, Exact, Owned, AllBelow;
      ghost var h := heap.caches;
      BelowMayGrow(h, next);
      var r;
      ghost var k, slab, s;
      r, k, slab, s := heap.Kmalloc(size, next, next);
      var later := LastPage();
      BelowGrown(h, heap.caches, next, later);
      next := later;
      if r.Some? {
        MallocExact(h, heap.caches, ledger, size, r.value, Ref(k, slab, s));
        OwnedMore(h, heap.caches, ledger, live, size, r.value, Ref(k, slab, s));
        live := live + [Held(r.value, size)];
        ledger := ledger[r.value := Ref(k, slab, s)];
      }
    }

    /** A place beyond the pages a new slab may have taken. */
    method LastPage() returns (later: nat)
      ensures next < later && forall k :: 0 <= k < |heap.caches| ==> next + heap.caches[k].span <= later
    {
      later := next + 1;
      for k := 0 to |heap.caches|
        invariant next < later && forall l :: 0 <= l < k ==> next + heap.caches[l].span <= later
      {
        if later < next + heap.caches[k].span { later := next + heap.caches[k].span; }
      }
    }

    /** kfree with the size asked for: frees the object, unless that size was 0. */
    method GiveUp(i: nat)
      requires Valid() && i < |live|
      modifies this`live, this`ledger, heap
      ensures Valid() && SameSizes(old(heap.caches), heap.caches) && live == old(live)[..i] + old(live)[i + 1..]
      ensures ledger == if old(live)[i].size == 0 then old(ledger) else old(ledger) - {old(live)[i].ptr}
    {
      hide HeapInv, Live, Exact, Owned, AllBelow, Best;
      ghost var h := heap.caches;
      var o := live[i];
      HeldMayFree(h, ledger, live, i);
      ghost var hit, k, slab, s;
      hit, k, slab, s := heap.Kfree(o.ptr, o.size);
      BelowFreed(h, heap.caches, o.ptr, o.size, hit, Ref(k, slab, s), next);
      if hit { FreeExact(h, heap.caches, ledger, o.ptr, o.size, Ref(k, slab, s)); }
      OwnedLess(h, heap.caches, ledger, live, i, hit);
      ledger := if hit then ledger - {o.ptr} else ledger;
      live := live[..i] + live[i + 1..];
    }
  }

  lemma HeldMayFree(h: seq<Cache>, g: Ledger, live: seq<Held>, i: nat)
    requires HeapInv(h) && Exact(h, g) && Owned(h, g, live) && i < |live|
    ensures MayFree(h, live[i].ptr, live[i].size) && !NoneInUse(h, live[i].size, live[i].ptr)
  {
    hide HeapInv, Exact;
    LedgerMayFree(h, g, live[i].ptr, live[i].size);
  }

  ghost predicate Matches(shapes: seq<Shape>, h: seq<Cache>) {
    |h| == |shapes| && forall k :: 0 <= k < |h| ==> h[k].size == shapes[k].size
  }

  /** One request. */
  method Handle(c: Client, shapes: seq<Shape>, q: Request)
    requires c.Valid() && Matches(shapes, c.heap.caches)
    modifies c`next, c`live, c`ledger, c.heap
    ensures c.Valid() && Matches(shapes, c.heap.caches) && Sizes(c.live) == After(shapes, old(Sizes(c.live)), q)
  {
    hide HeapInv, Exact, Owned, AllBelow;
    ghost var held := c.live;
    match q
    case Ask(size) =>
      c.Ask(size);
      AskedSizes(shapes, c.heap.caches, held, c.live, size);
    case GiveUp(j) =>
      if j < |c.live| {
        c.GiveUp(j);
        assert Sizes(c.live) == Sizes(held)[..j] + Sizes(held)[j + 1..];
      }
  }

  /**
   Any client that gives up only what it holds, from set-up on: it holds an object of every size it
   asked for and did not give up, unless no cache is that large; no two of them overlap, and the
   slots in use are exactly those of the objects handed out and not freed.
   */
  method Serve(shapes: seq<Shape>, start: nat, requests: seq<Request>) returns (c: Client)
    requires Layout(shapes) && forall k :: 0 <= k < |shapes| ==> shapes[k].header < start && shapes[k].start + shapes[k].span <= start
    ensures c.Valid() && Sizes(c.live) == Holding(shapes, requests)
    ensures forall i, j :: 0 <= i < |c.live| && 0 <= j < |c.live| && i != j ==>
              c.live[i].ptr + c.live[i].size <= c.live[j].ptr || c.live[j].ptr + c.live[j].size <= c.live[i].ptr
  {
    c := new Client(shapes, start);
    hide HeapInv, Exact, Owned, AllBelow;
    for i := 0 to |requests|
      invariant c.Valid() && fresh(c) && fresh(c.heap) && Matches(shapes, c.heap.caches)
      invariant Sizes(c.live) == Holding(shapes, requests[..i])
    {
      assert requests[..i + 1][..i] == requests[..i];
      Handle(c, shapes, requests[i]);
    }
    assert requests[..|requests|] == requests;
    forall i, j | 0 <= i < |c.live| && 0 <= j < |c.live| && i != j
      ensures c.live[i].ptr + c.live[i].size <= c.live[j].ptr || c.live[j].ptr + c.live[j].size <= c.live[i].ptr
    {
      HeldApart(c.heap.caches, c.ledger, c.live, i, j);
    }
  }

  lemma AskedSizes(shapes: seq<Shape>, h: seq<Cache>, held: seq<Held>, live: seq<Held>, size: nat)
    requires Matches(shapes, h)
    requires if (forall k :: 0 <= k < |h| ==> h[k].size < size) then live == held
             else |live| == |held| + 1 && live[..|held|] == held && live[|held|].size == size
    ensures Sizes(live) == After(shapes, Sizes(held), Ask(size))
  {
    if Served(shapes, size) {
      var k :| 0 <= k < |shapes| && shapes[k].size >= size;
      assert h[k].size >= size;
      forall i | 0 <= i < |held| ensures live[i] == held[i] { assert live[..|held|][i] == held[i]; }
      assert Sizes(live) == Sizes(held) + [size];
    } else {
      forall k | 0 <= k < |h| ensures h[k].size < size { assert !(shapes[k].size >= size); }
    }
  }

  lemma HeldApart(h: seq<Cache>, g: Ledger, live: seq<Held>, i: nat, j: nat)
    requires HeapInv(h) && Exact(h, g) && Owned(h, g, live) && i < |live| && j < |live| && i != j
    ensures live[i].ptr + live[i].size <= live[j].ptr || live[j].ptr + live[j].size <= live[i].ptr
  {
    hide HeapInv, Live;
    var a, b := g[live[i].ptr], g[live[j].ptr];
    assert live[i].ptr != live[j].ptr;
    ObjectsApart(h, a.k, a.slab, a.s, b.k, b.slab, b.s);
  }
}
