/** kmalloc and kfree over the slab caches, with the loops that search words, bits and lists. */
module SlabHeap {
  import opened Options
  import opened Words
  import opened Sequences
  import opened SlabSpec

  const FULL_WORD: nat := WORD_LIMIT - 1

  method GetEmptyBit(num: nat) returns (pos: nat)
    ensures pos <= 64 && (pos < 64 ==> !Bit(num, pos)) && forall j: nat :: j < pos ==> Bit(num, j)
  {
    pos := 0;
    while pos < 64 && Bit(num, pos)
      invariant pos <= 64 && forall j: nat :: j < pos ==> Bit(num, j)
    {
      pos := pos + 1;
    }
  }

  lemma FullWordBits(j: nat)
    requires j < 64
    ensures Bit(FULL_WORD, j)
  {
    var n: nat := 64;
    LimitIsPow2();
    LowBits(n, j);
  }

  lemma NotFull(w: nat)
    requires w < WORD_LIMIT && w != FULL_WORD
    ensures exists j: nat :: j < 64 && !Bit(w, j)
  {
    var n: nat := 64;
    LimitIsPow2();
    if forall j: nat :: j < n ==> Bit(w, j) { FullWord(w, n); }
  }

  /** The lowest clear bit, skipping full words. */
  method FindSlot(c: Cache, sl: Slab) returns (s: nat)
    requires SlabOk(c, sl) && sl.free > 0
    ensures s < c.slots && s / 64 < |sl.bitmap| && s !in Used(sl.bitmap)
    ensures forall r: nat :: r < s ==> IsSet(sl.bitmap, r)
  {
    var i := 0;
    while i < |sl.bitmap| && sl.bitmap[i] == FULL_WORD
      invariant i <= |sl.bitmap| && forall r: nat :: r < 64 * i ==> IsSet(sl.bitmap, r)
    {
      forall r: nat | 64 * i <= r < 64 * (i + 1) ensures IsSet(sl.bitmap, r) { FullWordBits(r % 64); }
      i := i + 1;
    }
    LowestIsSlot(c, sl, 64 * i);
    var pos := GetEmptyBit(sl.bitmap[i]);
    NotFull(sl.bitmap[i]);
    s := i * 64 + pos;
    forall r: nat | r < s ensures IsSet(sl.bitmap, r) { if r >= 64 * i { assert r / 64 == i && r % 64 < pos; } }
    LowestIsSlot(c, sl, s);
  }

  /** Unlinking from a singly linked list. */
  method DeleteSlab(list: seq<Id>, target: Id) returns (r: seq<Id>)
    ensures r == Remove(list, target)
  {
    var i := 0;
    while i < |list| && list[i] != target
      invariant i <= |list| && target !in list[..i]
    {
      i := i + 1;
    }
    if i == |list| {
      assert list[..i] == list;
      RemoveAbsent(list, target);
      return list;
    }
    RemoveAt(list, target, i);
    return list[..i] + list[i + 1..];
  }

  predicate Holds(c: Cache, id: Id, ptr: nat) {
    id in c.slabs && c.slabs[id].start <= ptr < c.slabs[id].start + c.span
  }

  /** The slab on the full or partial list whose pages hold ptr, walking both lists together. */
  method SearchSlab(c: Cache, ptr: nat) returns (r: Option<Id>)
    requires Inv(c)
    ensures r.Some? ==> Holds(c, r.value, ptr) && (r.value in c.full || r.value in c.partial)
    ensures r.None? ==> forall id :: id in c.full || id in c.partial ==> !Holds(c, id, ptr)
  {
    var i := 0;
    while i < |c.full| || i < |c.partial|
      invariant forall j :: 0 <= j < i && j < |c.full| ==> !Holds(c, c.full[j], ptr)
      invariant forall j :: 0 <= j < i && j < |c.partial| ==> !Holds(c, c.partial[j], ptr)
      decreases |c.full| + |c.partial| - i
    {
      if i < |c.full| && Holds(c, c.full[i], ptr) { return Some(c.full[i]); }
      if i < |c.partial| && Holds(c, c.partial[i], ptr) { return Some(c.partial[i]); }
      i := i + 1;
    }
    return None;
  }

  /** d is c with one more live slot, whose address is a. */
  ghost predicate Taken(c: Cache, d: Cache, id: Id, s: nat, a: nat) {
    Inv(d) && Toggles(c, d, id, s) && Live(d, id, s) && s < c.slots && id in c.slabs && a == Address(c, id, s)
  }

  lemma TogglesOn(c: Cache, d: Cache, id: Id, s: nat)
    requires Toggles(c, d, id, s) && !Live(c, id, s)
    ensures Live(d, id, s)
  {}

  lemma PartialHead(c: Cache)
    requires Inv(c) && c.partial != []
    ensures c.partial[0] in c.slabs && c.slabs[c.partial[0]].free > 0 && SlabOk(c, c.slabs[c.partial[0]])
  {
    assert c.partial[0] in c.partial;
  }

  lemma PartialTaken(c: Cache, s: nat)
    requires Inv(c) && c.partial != [] && c.partial[0] in c.slabs && s / 64 < |c.slabs[c.partial[0]].bitmap|
    requires s < c.slots && s !in Used(c.slabs[c.partial[0]].bitmap) && c.slabs[c.partial[0]].free > 0
    ensures Taken(c, TakePartial(c, s), c.partial[0], s, c.slabs[c.partial[0]].start + s * c.size)
  {
    hide Inv, Toggles, Used, TakePartial;
    TakePartialKeeps(c, s);
    TakePartialToggles(c, s);
    TogglesOn(c, TakePartial(c, s), c.partial[0], s);
  }

  /** Every slot of the slab before s is live. */
  ghost predicate LowestFree(c: Cache, id: Id, s: nat) { forall t: nat :: t < s ==> Live(c, id, t) }

  lemma LowestFound(c: Cache, id: Id, s: nat)
    requires id in c.slabs && forall r: nat :: r < s ==> IsSet(c.slabs[id].bitmap, r)
    ensures LowestFree(c, id, s)
  {
    forall t: nat | t < s ensures Live(c, id, t) { assert IsSet(c.slabs[id].bitmap, t); }
  }

  method FromPartial(c: Cache) returns (a: nat, d: Cache, ghost id: Id, ghost s: nat)
    requires Inv(c) && c.slots > 1 && c.partial != []
    ensures Taken(c, d, id, s, a) && id == c.partial[0] && LowestFree(c, id, s)
  {
    hide Inv, Used, SlabOk, Flip, IsSet, Taken, LowestFree;
    PartialHead(c);
    var p := c.partial[0];
    var slot := FindSlot(c, c.slabs[p]);
    id, s := p, slot;
    PartialTaken(c, slot);
    LowestFound(c, p, slot);
    var sl := c.slabs[p].(free := c.slabs[p].free - 1, bitmap := Flip(c.slabs[p].bitmap, slot));
    d := c.(slabs := c.slabs[p := sl]);
    if sl.free == 0 {
      var rest := DeleteSlab(c.partial, p);
      d := d.(partial := rest, full := [p] + c.full);
    }
    a := c.slabs[p].start + slot * c.size;
  }

  lemma EmptyTaken(c: Cache)
    requires Inv(c) && c.slots > 1 && c.empty != []
    ensures c.empty[0] in c.slabs && c.slabs[c.empty[0]].bitmap != [] && c.slabs[c.empty[0]].free > 0
    ensures Taken(c, TakeEmpty(c), c.empty[0], 0, c.slabs[c.empty[0]].start)
  {
    var p := c.empty[0];
    assert p in c.empty && SlabOk(c, c.slabs[p]);
    NoneUsed(c, c.slabs[p]);
    hide Toggles, Used, TakeEmpty, Inv;
    TakeEmptyKeeps(c);
    TakeEmptyToggles(c);
    TogglesOn(c, TakeEmpty(c), p, 0);
  }

  method FromEmpty(c: Cache) returns (a: nat, d: Cache, ghost id: Id, ghost s: nat)
    requires Inv(c) && c.slots > 1 && c.empty != []
    ensures Taken(c, d, id, s, a) && id == c.empty[0] && s == 0
  {
    hide Inv, Taken;
    EmptyTaken(c);
    var p := c.empty[0];
    id, s := p, 0;
    a := c.slabs[p].start;
    var sl := c.slabs[p].(free := c.slabs[p].free - 1, bitmap := c.slabs[p].bitmap[0 := 1]);
    d := c.(slabs := c.slabs[p := sl], empty := c.empty[1..], partial := [p] + c.partial);
  }

  /** The lowest free slot of the first partial slab, or else of the first empty one. */
  method SearchCache(c: Cache) returns (r: Option<nat>, d: Cache, ghost id: Id, ghost s: nat)
    requires Inv(c) && c.slots > 1
    ensures r.None? <==> c.partial == [] && c.empty == []
    ensures if r.None? then d == c else Taken(c, d, id, s, r.value)
    ensures r.Some? ==> (if c.partial != [] then id == c.partial[0] else c.empty != [] && id == c.empty[0]) && LowestFree(c, id, s)
  {
    hide Inv, Taken;
    if c.partial != [] {
      var a;
      a, d, id, s := FromPartial(c);
      r := Some(a);
    } else if c.empty != [] {
      var a;
      a, d, id, s := FromEmpty(c);
      r := Some(a);
    } else {
      r, d, id, s := None, c, 0, 0;
    }
  }

  // ---- all caches ------------------------------------------------------------------------------------

  ghost predicate FarApart(c: Cache, i: Id, d: Cache, j: Id)
    requires i in c.slabs && j in d.slabs
  {
    c.slabs[i].start + c.span <= d.slabs[j].start || d.slabs[j].start + d.span <= c.slabs[i].start
  }

  ghost predicate HeapInv(caches: seq<Cache>) {
    && (forall k :: 0 <= k < |caches| ==> Inv(caches[k]) && caches[k].slots > 1)
    && (forall k, l, i, j :: 0 <= k < |caches| && 0 <= l < |caches| && k != l && i in caches[k].slabs && j in caches[l].slabs ==>
          FarApart(caches[k], i, caches[l], j))
  }

  /** New pages that overlap no slab of any cache. */
  ghost predicate FreshPages(caches: seq<Cache>, start: nat, span: nat) {
    forall k, i :: 0 <= k < |caches| && i in caches[k].slabs ==>
      caches[k].slabs[i].start + caches[k].span <= start || start + span <= caches[k].slabs[i].start
  }

  /** Live objects of any two caches do not overlap. */
  lemma ObjectsApart(caches: seq<Cache>, k: nat, id: Id, s: nat, l: nat, jd: Id, r: nat)
    requires HeapInv(caches) && k < |caches| && l < |caches| && (k, id, s) != (l, jd, r)
    requires Live(caches[k], id, s) && Live(caches[l], jd, r)
    ensures var a, b := Address(caches[k], id, s), Address(caches[l], jd, r);
      a + caches[k].size <= b || b + caches[l].size <= a
  {
    hide Used;
    if k == l {
      LiveApart(caches[k], id, s, jd, r);
    } else {
      LiveInside(caches[k], id, s);
      LiveInside(caches[l], jd, r);
      assert FarApart(caches[k], id, caches[l], jd);
    }
  }

  lemma LiveInside(c: Cache, id: Id, s: nat)
    requires Inv(c) && Live(c, id, s)
    ensures s < c.slots && c.slabs[id].start <= Address(c, id, s) && Address(c, id, s) + c.size <= c.slabs[id].start + c.span
  {
    hide Used;
    assert SlabOk(c, c.slabs[id]);
    SlotInside(c, id, s);
  }

  /** Slots changed sides in one cache: the caches stay apart. */
  lemma HeapKept(caches: seq<Cache>, k: nat, d: Cache, id: Id, s: nat)
    requires HeapInv(caches) && k < |caches| && Inv(d) && Toggles(caches[k], d, id, s)
    ensures HeapInv(caches[k := d])
  {
    hide Inv, Live;
    var after := caches[k := d];
    forall a, b, i, j | 0 <= a < |after| && 0 <= b < |after| && a != b && i in after[a].slabs && j in after[b].slabs
      ensures FarApart(after[a], i, after[b], j)
    {
      assert FarApart(caches[a], i, caches[b], j);
    }
  }

  lemma HeapGrows(caches: seq<Cache>, k: nat, id: Id, start: nat)
    requires HeapInv(caches) && k < |caches| && FreshPages(caches, start, caches[k].span) && id !in caches[k].slabs
    ensures HeapInv(caches[k := NewSlab(caches[k], id, start)])
  {
    hide Inv;
    var c := caches[k];
    CacheOk(caches, k);
    NewSlabKeeps(c, id, start);
    var after := caches[k := NewSlab(c, id, start)];
    forall a, b, i, j | 0 <= a < |after| && 0 <= b < |after| && a != b && i in after[a].slabs && j in after[b].slabs
      ensures FarApart(after[a], i, after[b], j)
    {
      if (a != k || i != id) && (b != k || j != id) { assert FarApart(caches[a], i, caches[b], j); }
    }
  }

  lemma NewSlabLive(c: Cache, id: Id, start: nat, i: Id, r: nat)
    requires id !in c.slabs
    ensures Live(NewSlab(c, id, start), i, r) <==> Live(c, i, r)
  {
    ZeroesUnused(Words64(c.slots));
    hide Used;
  }

  /** Cache k fits `size`, wastes least, and comes first among those. */
  ghost predicate Best(caches: seq<Cache>, size: nat, k: nat) {
    && k < |caches| && caches[k].size >= size
    && (forall l :: 0 <= l < |caches| && caches[l].size >= size ==> caches[k].size <= caches[l].size)
    && (forall l :: 0 <= l < k && caches[l].size >= size ==> caches[k].size < caches[l].size)
  }

  /** ptr is the live slot s of a slab of cache k. */
  ghost predicate Object(caches: seq<Cache>, k: nat, slab: Id, s: nat, ptr: nat) {
    k < |caches| && slab in caches[k].slabs && Live(caches[k], slab, s) && ptr == Address(caches[k], slab, s)
  }

  /** Same live slots, but for slot s of one slab. */
  ghost predicate SameBut(c: Cache, d: Cache, slab: Id, s: nat) {
    forall i: Id, t: nat :: (i, t) != (slab, s) ==> (Live(d, i, t) <==> Live(c, i, t))
  }

  /** The slots of c keep their addresses in d. */
  ghost predicate Extends(c: Cache, d: Cache) {
    d.size == c.size && forall i :: i in c.slabs ==> i in d.slabs && d.slabs[i].start == c.slabs[i].start
  }

  /** What kmalloc did: nothing if no cache fits, otherwise slot s of a slab became live, and only that. */
  ghost predicate Malloced(h: seq<Cache>, n: seq<Cache>, size: nat, r: Option<nat>, k: nat, slab: Id, s: nat) {
    && (r.None? <==> forall c :: 0 <= c < |h| ==> h[c].size < size)
    && (r.None? ==> n == h)
    && (r.Some? ==> Best(h, size, k) && Object(n, k, slab, s, r.value) && n == h[k := n[k]] && Extends(h[k], n[k])
                    && !Live(h[k], slab, s) && SameBut(h[k], n[k], slab, s))
  }

  /** What kfree did: freed exactly the live slot at ptr, or nothing. */
  ghost predicate Freed(h: seq<Cache>, n: seq<Cache>, ptr: nat, size: nat, hit: bool, k: nat, slab: Id, s: nat) {
    && (hit ==> size > 0 && Best(h, size, k) && Object(h, k, slab, s, ptr) && |n| == |h| && n == h[k := n[k]]
                && Toggles(h[k], n[k], slab, s) && !Live(n[k], slab, s))
    && (!hit ==> n == h && (size == 0 || NoneInUse(h, size, ptr)))
  }

  /** A pointer that kfree of this size finds inside a slab in use starts a live object. */
  ghost predicate MayFree(h: seq<Cache>, ptr: nat, size: nat) {
    forall b: nat, id :: Best(h, size, b) && InUse(h[b], id, ptr) ==> StartsObject(h[b], id, ptr)
  }

  /** New pages and a new header for a slab of any cache. */
  ghost predicate MayGrow(h: seq<Cache>, id: Id, start: nat) {
    forall c :: 0 <= c < |h| ==> FreshPages(h, start, h[c].span) && id !in h[c].slabs
  }

  /** Every slot of every slab is live. */
  ghost predicate Exhausted(c: Cache) {
    forall i: Id, t: nat :: i in c.slabs && t < c.slots ==> Live(c, i, t)
  }

  /** d has a new slab only if c had no free slot. */
  ghost predicate Frugal(c: Cache, d: Cache) {
    d.slabs.Keys == c.slabs.Keys || Exhausted(c)
  }

  lemma AllLive(c: Cache)
    requires Inv(c) && c.partial == [] && c.empty == []
    ensures Exhausted(c)
  {
    forall i: Id, t: nat | i in c.slabs && t < c.slots ensures Live(c, i, t) {
      assert SlabOk(c, c.slabs[i]) && c.slabs[i].free == 0;
      FullSlab(c, c.slabs[i], t);
    }
  }

  lemma FullSlab(c: Cache, sl: Slab, t: nat)
    requires SlabOk(c, sl) && sl.free == 0 && t < c.slots
    ensures t in Used(sl.bitmap)
  {
    var all, used := Below(c.slots), Used(sl.bitmap);
    hide Used;
    if t !in used {
      assert used <= all - {t};
      SubsetSize(used, all - {t});
    }
  }

  lemma SameSlabs(c: Cache, d: Cache, slab: Id, s: nat)
    requires Toggles(c, d, slab, s)
    ensures d.slabs.Keys == c.slabs.Keys
  {
    hide Live;
  }

  lemma FrugalTaken(c: Cache, d: Cache)
    requires d.slabs.Keys == c.slabs.Keys || Exhausted(c)
    ensures Frugal(c, d)
  {}

  /** Every slab of d is one of c at the same place, or the new one. */
  ghost predicate CacheGrewBy(c: Cache, d: Cache, id: Id, start: nat) {
    && d.size == c.size && d.span == c.span
    && forall i :: i in d.slabs ==> (i in c.slabs && d.slabs[i].start == c.slabs[i].start) || (i == id && d.slabs[i].start == start)
  }

  ghost predicate GrewBy(h: seq<Cache>, n: seq<Cache>, id: Id, start: nat) {
    |n| == |h| && forall k :: 0 <= k < |h| ==> CacheGrewBy(h[k], n[k], id, start)
  }

  datatype Shape = Shape(size: nat, slots: nat, span: nat, header: Id, start: nat)

  /** Slot sizes that fit their slabs, at least two slots each, and disjoint pages. */
  ghost predicate Layout(shapes: seq<Shape>) {
    && (forall k :: 0 <= k < |shapes| ==> shapes[k].size > 0 && shapes[k].slots > 1 && shapes[k].slots * shapes[k].size <= shapes[k].span)
    && (forall k, l :: 0 <= k < |shapes| && 0 <= l < |shapes| && k != l ==>
          shapes[k].start + shapes[k].span <= shapes[l].start || shapes[l].start + shapes[l].span <= shapes[k].start)
  }

  function FirstCache(p: Shape): Cache {
    NewSlab(Cache(p.size, p.slots, p.span, [], [], [], map[]), p.header, p.start)
  }

  lemma FirstCacheOk(p: Shape)
    requires p.size > 0 && p.slots > 1 && p.slots * p.size <= p.span
    ensures Inv(FirstCache(p)) && FirstCache(p).slots > 1 && forall i: Id, t: nat :: !Live(FirstCache(p), i, t)
  {
    FirstSlab(p.size, p.slots, p.span, p.header, p.start);
    ZeroesUnused(Words64(p.slots));
    hide Used, Inv;
  }

  class Heap {
    var caches: seq<Cache>

    ghost predicate Valid() reads this { HeapInv(caches) }

    /** InitSlabAlloc: one empty slab for each cache. */
    constructor (shapes: seq<Shape>)
      requires Layout(shapes)
      ensures Valid() && |caches| == |shapes| && (forall k :: 0 <= k < |caches| ==> caches[k] == FirstCache(shapes[k]))
      ensures forall k: nat, i: Id, t: nat :: k < |caches| ==> !Live(caches[k], i, t)
    {
      caches := [];
      new;
      hide Inv, Live;
      var i := 0;
      while i < |shapes|
        invariant i <= |shapes| && |caches| == i && forall k :: 0 <= k < i ==> caches[k] == FirstCache(shapes[k])
      {
        caches := caches + [FirstCache(shapes[i])];
        i := i + 1;
      }
      forall k: nat | k < |caches| ensures Inv(caches[k]) && caches[k].slots > 1 && forall i: Id, t: nat :: !Live(caches[k], i, t) {
        FirstCacheOk(shapes[k]);
      }
    }

    /** First exact fit, or else the first of the smallest that fit. */
    method BestIndex(size: nat) returns (best: Option<nat>)
      ensures best.None? ==> forall k :: 0 <= k < |caches| ==> caches[k].size < size
      ensures best.Some? ==> Best(caches, size, best.value)
    {
      best := None;
      var i := 0;
      while i < |caches|
        invariant i <= |caches|
        invariant best.None? ==> forall k :: 0 <= k < i ==> caches[k].size < size
        invariant best.Some? ==> best.value < i && caches[best.value].size > size && Best(caches[..i], size, best.value)
      {
        if caches[i].size >= size {
          if caches[i].size == size {
            assert best.Some? ==> forall l :: 0 <= l < i ==> caches[..i][l] == caches[l];
            return Some(i);
          }
          if best.None? || caches[i].size - size < caches[best.value].size - size { best := Some(i); }
        }
        i := i + 1;
      }
    }

    /**
     kmalloc: NULL exactly when no cache is large enough; otherwise one slot that was not live
     becomes live, and nothing else changes. New slabs get header `id` and pages at `start`.
     */
    method Kmalloc(size: nat, id: Id, start: nat) returns (r: Option<nat>, ghost k: nat, ghost slab: Id, ghost s: nat)
      requires Valid() && MayGrow(caches, id, start)
      modifies this
      ensures Valid() && |caches| == |old(caches)| && Malloced(old(caches), caches, size, r, k, slab, s)
      ensures GrewBy(old(caches), caches, id, start) && (r.Some? ==> k < |caches| && Frugal(old(caches)[k], caches[k]))
    {
      hide Inv, HeapInv, Live, SlotTaken, MayGrow, Frugal;
      k, slab, s := 0, 0, 0;
      var best := BestIndex(size);
      if best.None? { return None, k, slab, s; }
      k := best.value;
      var a;
      a, slab, s := TakeSlot(best.value, id, start);
      SlotTakenFacts(old(caches)[k], caches[k], slab, s, a);
      r := Some(a);
    }

    /** A slot of cache b, from a new slab if the others are full. */
    method TakeSlot(b: nat, id: Id, start: nat) returns (a: nat, ghost slab: Id, ghost s: nat)
      requires Valid() && b < |caches| && MayGrow(caches, id, start)
      modifies this
      ensures Valid() && |caches| == |old(caches)| && caches == old(caches)[b := caches[b]]
      ensures SlotTaken(old(caches)[b], caches[b], slab, s, a) && CacheGrewBy(old(caches)[b], caches[b], id, start)
      ensures Frugal(old(caches)[b], caches[b])
    {
      hide Inv, HeapInv, Live, Taken, FreshPages, SlotTaken, Frugal;
      ghost var c := caches[b];
      CacheOk(caches, b);
      var found, d;
      found, d, slab, s := SearchCache(caches[b]);
      if found.None? {
        AllLive(c);
        HeapGrows(caches, b, id, start);
        caches := caches[b := NewSlab(caches[b], id, start)];
        CacheOk(caches, b);
        found, d, slab, s := SearchCache(caches[b]);
        TakenGrown(c, id, start, d, slab, s, found.value);
      } else {
        TakenDirect(c, d, slab, s, found.value);
      }
      TakenFacts(caches[b], d, slab, s, found.value);
      HeapKept(caches, b, d, slab, s);
      caches := caches[b := d];
      a := found.value;
      if c.partial != [] || c.empty != [] { SameSlabs(c, d, slab, s); }
      FrugalTaken(c, d);
    }

    /**
     kfree. A pointer into a slab in use must be the address of a live slot; then exactly that
     slot is freed. Size 0, a size no cache serves and a pointer into no such slab do nothing.
     */
    method Kfree(ptr: nat, size: nat) returns (ghost hit: bool, ghost k: nat, ghost slab: Id, ghost s: nat)
      requires Valid() && MayFree(caches, ptr, size)
      modifies this
      ensures Valid() && |caches| == |old(caches)| && Freed(old(caches), caches, ptr, size, hit, k, slab, s)
    {
      hide Inv, HeapInv, Live;
      hit, k, slab, s := false, 0, 0, 0;
      if size == 0 { return; }
      var best := BestIndex(size);
      if best.None? { return; }
      var b := best.value;
      CacheOk(caches, b);
      var c := caches[b];
      var p := SearchSlab(c, ptr);
      if p.None? {
        OnlyBest(caches, size, b, ptr);
        return;
      }
      assert InUse(c, p.value, ptr) && StartsObject(c, p.value, ptr);
      ghost var live: nat :| Live(c, p.value, live) && ptr == Address(c, p.value, live);
      hit, k, slab, s := true, b, p.value, live;
      var slot := (ptr - c.slabs[p.value].start) / c.size;
      SlotOf(c, slab, s);
      FreedOk(c, p.value, slot);
      var d := PutBack(c, p.value, slot);
      HeapKept(caches, b, d, slab, s);
      caches := caches[b := d];
    }

    /** The bitmap, the counter and the moves between lists. */
    method PutBack(c: Cache, id: Id, slot: nat) returns (d: Cache)
      requires id in c.slabs && slot / 64 < |c.slabs[id].bitmap|
      ensures d == GiveBack(c, id, slot)
    {
      var sl := c.slabs[id].(free := c.slabs[id].free + 1, bitmap := Flip(c.slabs[id].bitmap, slot));
      d := c.(slabs := c.slabs[id := sl]);
      if sl.free == 1 {
        var rest := DeleteSlab(d.full, id);
        d := d.(full := rest, partial := [id] + d.partial);
      }
      if sl.free == c.slots {
        var rest := DeleteSlab(d.partial, id);
        d := d.(partial := rest, empty := [id] + d.empty);
      }
    }
  }

  ghost predicate InUse(c: Cache, id: Id, ptr: nat) {
    Holds(c, id, ptr) && (id in c.full || id in c.partial)
  }

  ghost predicate StartsObject(c: Cache, id: Id, ptr: nat) {
    id in c.slabs && exists s: nat :: Live(c, id, s) && ptr == Address(c, id, s)
  }

  ghost predicate NoneInUse(caches: seq<Cache>, size: nat, ptr: nat) {
    forall b: nat, id :: Best(caches, size, b) ==> !InUse(caches[b], id, ptr)
  }

  lemma OnlyBest(caches: seq<Cache>, size: nat, b: nat, ptr: nat)
    requires Best(caches, size, b) && forall id :: !InUse(caches[b], id, ptr)
    ensures NoneInUse(caches, size, ptr)
  {
    hide InUse;
    forall k: nat | Best(caches, size, k) ensures k == b {}
  }

  lemma CacheOk(caches: seq<Cache>, k: nat)
    requires HeapInv(caches) && k < |caches|
    ensures Inv(caches[k]) && caches[k].slots > 1
  {}

  lemma TakenFacts(c: Cache, d: Cache, id: Id, s: nat, a: nat)
    requires Taken(c, d, id, s, a)
    ensures Inv(d) && Toggles(c, d, id, s) && Live(d, id, s) && !Live(c, id, s) && id in c.slabs && id in d.slabs
    ensures a == Address(d, id, s)
  {
    hide Inv, Live;
  }

  /** d is c, perhaps with a new slab, and one more live slot, at address a. */
  ghost predicate SlotTaken(c: Cache, d: Cache, slab: Id, s: nat, a: nat) {
    && Extends(c, d) && Live(d, slab, s) && !Live(c, slab, s) && SameBut(c, d, slab, s)
    && slab in d.slabs && a == Address(d, slab, s)
  }

  lemma SlotTakenFacts(c: Cache, d: Cache, slab: Id, s: nat, a: nat)
    requires SlotTaken(c, d, slab, s, a)
    ensures Extends(c, d) && Live(d, slab, s) && !Live(c, slab, s) && SameBut(c, d, slab, s)
    ensures slab in d.slabs && a == Address(d, slab, s)
  {}

  lemma TakenDirect(c: Cache, d: Cache, slab: Id, s: nat, a: nat)
    requires Taken(c, d, slab, s, a)
    ensures SlotTaken(c, d, slab, s, a)
  {
    hide Inv, Live;
    TakenFacts(c, d, slab, s, a);
  }

  lemma TakenGrown(c: Cache, id: Id, start: nat, d: Cache, slab: Id, s: nat, a: nat)
    requires id !in c.slabs && Taken(NewSlab(c, id, start), d, slab, s, a)
    ensures SlotTaken(c, d, slab, s, a)
  {
    hide Inv, Live;
    TakenFacts(NewSlab(c, id, start), d, slab, s, a);
    forall i: Id, t: nat ensures Live(NewSlab(c, id, start), i, t) <==> Live(c, i, t) { NewSlabLive(c, id, start, i, t); }
  }

  lemma SlotOf(c: Cache, slab: Id, s: nat)
    requires Inv(c) && slab in c.slabs
    ensures Address(c, slab, s) - c.slabs[slab].start == s * c.size && s * c.size / c.size == s
  {
    DivModUnique(s * c.size, c.size, s, 0);
  }

  lemma FreedOk(c: Cache, id: Id, s: nat)
    requires Inv(c) && Live(c, id, s)
    ensures s / 64 < |c.slabs[id].bitmap|
    ensures Inv(GiveBack(c, id, s)) && Toggles(c, GiveBack(c, id, s), id, s) && !Live(GiveBack(c, id, s), id, s)
  {
    LiveInside(c, id, s);
    SlotWord(c, c.slabs[id], s);
    hide Inv, Used, GiveBack;
    GiveBackKeeps(c, id, s);
    GiveBackToggles(c, id, s);
  }
}
