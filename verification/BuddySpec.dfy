/**
 The kernel buddy pool as a value: which blocks tile the pool, and the LIFO free
 list of every order. A block that is on no list is in use.

 This module holds the meaning of carve, request and free and everything that is
 true of every reachable pool; module Buddy proves that the in-place allocator
 (list heads, next pointers inside free pages, shadow bytes, non-empty mask)
 computes exactly these functions.
 */
module BuddySpec {
  import opened Options
  import opened Words
  import opened Sequences

  const PAGE_SIZE: nat := 4096
  const PAGE_LOG2: nat := 12
  const MAX_ORDER: nat := 64
  /** Addresses and sizes are 64-bit. */
  const ADDRESS_LIMIT: nat := 0x1_0000_0000_0000_0000

  /** order: head address of every block, free or used, to its order. */
  datatype Pool = Pool(order: map<nat, nat>, lists: seq<seq<nat>>)

  // ---- what every reachable pool satisfies ---------------------------------

  ghost predicate Covers(order: map<nat, nat>, a: nat, x: nat) {
    a in order && a <= x < a + Pow2(order[a])
  }

  ghost predicate Covered(order: map<nat, nat>, x: nat) {
    exists a: nat :: Covers(order, a, x)
  }

  /** Every block is naturally aligned, at least a page, and inside [lo, hi). */
  ghost predicate Shaped(order: map<nat, nat>, lo: nat, hi: nat) {
    forall a :: a in order ==>
      && PAGE_LOG2 <= order[a] < MAX_ORDER
      && Aligned(a, order[a])
      && lo <= a && a + Pow2(order[a]) <= hi
  }

  ghost predicate Disjoint(order: map<nat, nat>) {
    forall a, b :: a in order && b in order && a < b ==> a + Pow2(order[a]) <= b
  }

  ghost predicate Covering(order: map<nat, nat>, lo: nat, hi: nat) {
    forall x: nat :: lo <= x < hi ==> Covered(order, x)
  }

  /** The blocks are naturally aligned, pairwise disjoint and cover [lo, hi) exactly. */
  ghost predicate Tiling(order: map<nat, nat>, lo: nat, hi: nat) {
    Shaped(order, lo, hi) && Disjoint(order) && Covering(order, lo, hi)
  }

  /** Free list k holds blocks of order k, each once. */
  ghost predicate ListsOk(p: Pool) {
    && |p.lists| == MAX_ORDER
    && (forall k :: 0 <= k < MAX_ORDER ==> NoDup(p.lists[k]))
    && (forall k, a :: 0 <= k < MAX_ORDER && a in p.lists[k] ==> a in p.order && p.order[a] == k)
  }

  /** No two free buddies of equal order coexist. */
  ghost predicate Canonical(p: Pool)
    requires |p.lists| == MAX_ORDER
  {
    forall k, a :: 0 <= k < MAX_ORDER && a in p.lists[k] ==> FlipBit(a, k) !in p.lists[k]
  }

  ghost predicate Inv(p: Pool, lo: nat, hi: nat) {
    && 0 < lo
    && Tiling(p.order, lo, hi) && ListsOk(p) && Canonical(p)
  }

  predicate Free(p: Pool, a: nat) {
    a in p.order && p.order[a] < |p.lists| && a in p.lists[p.order[a]]
  }

  predicate Used(p: Pool, a: nat) {
    a in p.order && !Free(p, a)
  }

  // ---- operations -----------------------------------------------------------

  function EmptyPool(): (p: Pool)
    ensures |p.lists| == MAX_ORDER && forall k :: 0 <= k < MAX_ORDER ==> p.lists[k] == []
  {
    Pool(map[], seq(MAX_ORDER, _ => []))
  }

  function CarveOrder(start: nat, size: nat): nat
    requires start > 0 && size > 0
  {
    if Ctz(start) < Log2(size) then Ctz(start) else Log2(size)
  }

  function Push(p: Pool, a: nat, k: nat): Pool
    requires k < |p.lists|
  {
    p.(lists := p.lists[k := [a] + p.lists[k]])
  }

  function AddBlock(p: Pool, a: nat, k: nat): Pool
    requires k < |p.lists|
  {
    Push(p.(order := p.order[a := k]), a, k)
  }

  /** Greedy decomposition of [start, start + size) into aligned blocks. */
  function Carve(p: Pool, start: nat, size: nat): Pool
    requires start > 0
    requires |p.lists| == MAX_ORDER && size < ADDRESS_LIMIT
    decreases size
  {
    if size < PAGE_SIZE then p else
      var bit := CarveOrder(start, size);
      OrderBelow(start, size);
      if bit < PAGE_LOG2 then Carve(p, start + Pow2(bit), size - Pow2(bit))
      else Carve(AddBlock(p, start, bit), start + Pow2(bit), size - Pow2(bit))
  }

  lemma OrderBelow(start: nat, size: nat)
    requires start > 0 && 0 < size < ADDRESS_LIMIT
    ensures CarveOrder(start, size) < MAX_ORDER && Pow2(CarveOrder(start, size)) <= size
  {
    Pow2Monotone(CarveOrder(start, size), Log2(size));
    LimitIsPow2();
    if Log2(size) >= MAX_ORDER { Pow2Monotone(MAX_ORDER, Log2(size)); }
  }

  /** The order a request of `size` bytes is rounded up to. */
  function RequestOrder(size: nat): (k: nat)
    requires size > 0
  {
    var k := if Pow2(Log2(size)) == size then Log2(size) else Log2(size) + 1;
    if k < PAGE_LOG2 then PAGE_LOG2 else k
  }

  /** The least order, from a page up, whose blocks hold `size` bytes. */
  lemma OrderFits(size: nat)
    requires size > 0
    ensures PAGE_LOG2 <= RequestOrder(size) && size <= Pow2(RequestOrder(size))
    ensures RequestOrder(size) > PAGE_LOG2 ==> Pow2(RequestOrder(size) - 1) < size
  {
    Pow2Monotone(Log2(size), RequestOrder(size));
  }

  function LowestFrom(lists: seq<seq<nat>>, k: nat): (j: nat)
    requires k <= |lists|
    ensures k <= j <= |lists| && (j < |lists| ==> lists[j] != [])
    ensures forall i :: k <= i < j ==> lists[i] == []
    decreases |lists| - k
  {
    if k == |lists| || lists[k] != [] then k else LowestFrom(lists, k + 1)
  }

  /** Halve block a from order cur down to target; each upper half goes on its free list. */
  function Split(p: Pool, a: nat, cur: nat, target: nat): Pool
    requires cur <= |p.lists|
    decreases cur
  {
    if cur <= target then p else
      var k := cur - 1;
      Split(AddBlock(p.(order := p.order[a := k]), FlipBit(a, k), k), a, k, target)
  }

  function Pop(p: Pool, k: nat): Pool
    requires k < |p.lists| && p.lists[k] != []
  {
    p.(lists := p.lists[k := p.lists[k][1..]])
  }

  function Request(p: Pool, k: nat): (r: (Pool, Option<nat>))
    requires |p.lists| == MAX_ORDER
  {
    if k >= MAX_ORDER then (p, None) else
      var cur := LowestFrom(p.lists, k);
      if cur == MAX_ORDER then (p, None)
      else var a := p.lists[cur][0]; (Split(Pop(p, cur), a, cur, k), Some(a))
  }

  function Lower(a: nat, b: nat): nat { if a < b then a else b }
  function Higher(a: nat, b: nat): nat { if a < b then b else a }

  /** One coalescing step: the buddies a and b of order k become one block of order k + 1. */
  function Join(p: Pool, a: nat, b: nat, k: nat): Pool
    requires k < |p.lists|
  {
    Pool((p.order - {Higher(a, b)})[Lower(a, b) := k + 1], p.lists[k := Remove(p.lists[k], b)])
  }

  /** Put block a of order k back, merging upward while its buddy is free at the same order. */
  function Merge(p: Pool, a: nat, k: nat): Pool
    requires |p.lists| == MAX_ORDER && k < MAX_ORDER
    decreases MAX_ORDER - k
  {
    var b := FlipBit(a, k);
    if k + 1 < MAX_ORDER && b in p.lists[k] then Merge(Join(p, a, b, k), Lower(a, b), k + 1)
    else Push(p, a, k)
  }

  function Release(p: Pool, a: nat): Pool
    requires |p.lists| == MAX_ORDER
  {
    if Used(p, a) && p.order[a] < MAX_ORDER then Merge(p, a, p.order[a]) else p
  }

  // ---- splitting and joining keep the tiling -------------------------------

  lemma UpperHalf(order: map<nat, nat>, lo: nat, hi: nat, a: nat)
    requires Tiling(order, lo, hi) && a in order && order[a] > PAGE_LOG2
    ensures var k := order[a] - 1; var b := a + Pow2(k);
            FlipBit(a, k) == b && b !in order && Aligned(a, k) && Aligned(b, k) && FlipBit(b, k) == a
  {
    var k := order[a] - 1;
    assert Aligned(a, order[a]);
    AlignedDown(a, k + 1, k);
    FlipAligned(a, k);
  }

  lemma SplitTiling(order: map<nat, nat>, lo: nat, hi: nat, a: nat)
    requires Tiling(order, lo, hi) && a in order && order[a] > PAGE_LOG2
    ensures var k := order[a] - 1; Tiling(order[a := k][a + Pow2(k) := k], lo, hi)
  {
    UpperHalf(order, lo, hi, a);
    var k := order[a] - 1;
    var b := a + Pow2(k);
    var o := order[a := k][b := k];
    assert Pow2(order[a]) == Pow2(k) + Pow2(k);
    HalvesCover(order, lo, hi, a, b, o);
    HalvesDisjoint(order, a, b, o);
  }

  lemma HalvesCover(order: map<nat, nat>, lo: nat, hi: nat, a: nat, b: nat, o: map<nat, nat>)
    requires Covering(order, lo, hi) && a in order && order[a] > 0
    requires b == a + Pow2(order[a] - 1) && b !in order
    requires o == order[a := order[a] - 1][b := order[a] - 1]
    ensures Covering(o, lo, hi)
  {
    forall x: nat | lo <= x < hi ensures Covered(o, x) {
      assert Covered(order, x);
      var c: nat :| Covers(order, c, x);
      assert Covers(o, if c == a && x >= b then b else c, x);
    }
  }

  lemma HalvesDisjoint(order: map<nat, nat>, a: nat, b: nat, o: map<nat, nat>)
    requires Disjoint(order) && a in order && order[a] > 0
    requires b == a + Pow2(order[a] - 1) && b !in order
    requires o == order[a := order[a] - 1][b := order[a] - 1]
    ensures Disjoint(o)
  {
    assert Pow2(order[a]) == Pow2(order[a] - 1) + Pow2(order[a] - 1);
    forall c, d | c in o && d in o && c < d ensures c + Pow2(o[c]) <= d {
      if d == b && c != a {
        assert c < a;
        assert c + Pow2(order[c]) <= a;
      } else if c == b {
        assert a + Pow2(order[a]) <= d;
      } else {
        assert c + Pow2(order[c]) <= d || d == b;
      }
    }
  }

  lemma JoinTiling(order: map<nat, nat>, lo: nat, hi: nat, a: nat, k: nat)
    requires Tiling(order, lo, hi) && k + 1 < MAX_ORDER
    requires a in order && order[a] == k
    requires FlipBit(a, k) in order && order[FlipBit(a, k)] == k
    ensures var b := FlipBit(a, k);
            Tiling((order - {Higher(a, b)})[Lower(a, b) := k + 1], lo, hi)
  {
    hide FlipBit, Aligned, Disjoint, Covering;
    assert Aligned(a, order[a]);
    FlipAligned(a, k);
    var b := FlipBit(a, k);
    var l, h := Lower(a, b), Higher(a, b);
    assert h == l + Pow2(k) && Aligned(l, k + 1);
    hide Pow2;
    var o := (order - {h})[l := k + 1];
    JoinedShaped(order, lo, hi, l, h, o);
    JoinedCover(order, lo, hi, l, h, o);
    JoinedDisjoint(order, l, h, o);
  }

  lemma JoinedShaped(order: map<nat, nat>, lo: nat, hi: nat, l: nat, h: nat, o: map<nat, nat>)
    requires Shaped(order, lo, hi) && l in order && h in order && order[l] == order[h] && order[l] + 1 < MAX_ORDER
    requires h == l + Pow2(order[l]) && Aligned(l, order[l] + 1) && o == (order - {h})[l := order[l] + 1]
    ensures Shaped(o, lo, hi)
  {
    hide Aligned;
    assert Pow2(order[l] + 1) == 2 * Pow2(order[l]);
  }

  lemma JoinedCover(order: map<nat, nat>, lo: nat, hi: nat, l: nat, h: nat, o: map<nat, nat>)
    requires Covering(order, lo, hi) && l in order && h in order && order[l] == order[h]
    requires h == l + Pow2(order[l]) && o == (order - {h})[l := order[l] + 1]
    ensures Covering(o, lo, hi)
  {
    assert l in o && o[l] == order[l] + 1;
    forall x: nat | lo <= x < hi ensures Covered(o, x) {
      assert Covered(order, x);
      var c: nat :| Covers(order, c, x);
      assert Covers(o, if c == h then l else c, x);
    }
  }

  lemma JoinedDisjoint(order: map<nat, nat>, l: nat, h: nat, o: map<nat, nat>)
    requires Disjoint(order) && l in order && h in order && order[l] == order[h]
    requires h == l + Pow2(order[l]) && o == (order - {h})[l := order[l] + 1]
    ensures Disjoint(o)
  {
    assert Pow2(order[l] + 1) == Pow2(order[l]) + Pow2(order[h]);
    forall c, d | c in o && d in o && c < d ensures c + Pow2(o[c]) <= d {
      assert c in order && d in order && d != h;
      assert c + Pow2(order[c]) <= d;
      if c == l {
        assert h < d;
        assert h + Pow2(order[h]) <= d;
      }
    }
  }

  // ---- every operation keeps the invariant ---------------------------------

  /** p and q have the same used blocks, block a aside. */
  ghost predicate SameUsedBut(p: Pool, q: Pool, a: nat) {
    forall c :: c != a ==> Used(q, c) == Used(p, c) && (Used(p, c) ==> q.order[c] == p.order[c])
  }

  /** Block a is out of every list: just popped, about to be pushed, or in use. */
  ghost predicate Detached(p: Pool, lo: nat, hi: nat, a: nat, k: nat) {
    Inv(p, lo, hi) && Used(p, a) && p.order[a] == k
  }

  lemma PushKeepsInv(p: Pool, lo: nat, hi: nat, a: nat, k: nat)
    requires Detached(p, lo, hi, a, k) && FlipBit(a, k) !in p.lists[k]
    ensures Inv(Push(p, a, k), lo, hi) && Free(Push(p, a, k), a)
    ensures forall c :: c != a ==> Free(Push(p, a, k), c) == Free(p, c)
  {
    hide Disjoint, Covering;
    PushMembers(p.lists[k], a);
    var q := Push(p, a, k);
    assert Aligned(a, p.order[a]);
    FlipAligned(a, k);
    assert FlipBit(a, k) != a by { if Aligned(a, k + 1) {} }
    forall j, c | 0 <= j < MAX_ORDER && c in q.lists[j]
      ensures c in q.order && q.order[c] == j && FlipBit(c, j) !in q.lists[j]
    {
      if c != a {
        assert c in p.lists[j];
        assert Aligned(c, p.order[c]);
        FlipAligned(c, j);
      }
    }
  }

  /** Halving a detached block leaves both halves detached. */
  lemma HalveKeepsInv(p: Pool, lo: nat, hi: nat, a: nat, cur: nat)
    requires Detached(p, lo, hi, a, cur) && cur > PAGE_LOG2
    ensures var k := cur - 1; var b := FlipBit(a, k);
            var q := p.(order := p.order[a := k][b := k]);
            && b == a + Pow2(k) && b !in p.order && FlipBit(b, k) == a
            && Detached(q, lo, hi, a, k) && Detached(q, lo, hi, b, k)
            && forall c :: Free(q, c) == Free(p, c)
  {
    UpperHalf(p.order, lo, hi, a);
    SplitTiling(p.order, lo, hi, a);
    hide Tiling, FlipBit, Pow2;
  }

  lemma SplitStep(p: Pool, lo: nat, hi: nat, a: nat, cur: nat)
    requires Detached(p, lo, hi, a, cur) && cur > PAGE_LOG2
    ensures var k := cur - 1; var b := FlipBit(a, k);
            var q := AddBlock(p.(order := p.order[a := k]), b, k);
            && b == a + Pow2(k) && b !in p.order
            && Detached(q, lo, hi, a, k) && SameUsedBut(p, q, a)
            && forall c :: c != b ==> Free(q, c) == Free(p, c)
  {
    var k := cur - 1;
    var b := FlipBit(a, k);
    HalveKeepsInv(p, lo, hi, a, cur);
    PushKeepsInv(p.(order := p.order[a := k][b := k]), lo, hi, b, k);
  }

  lemma {:induction false} SplitKeepsInv(p: Pool, lo: nat, hi: nat, a: nat, cur: nat, target: nat)
    requires Detached(p, lo, hi, a, cur) && PAGE_LOG2 <= target <= cur
    ensures Detached(Split(p, a, cur, target), lo, hi, a, target)
    ensures SameUsedBut(p, Split(p, a, cur, target), a)
    decreases cur
  {
    if cur > target {
      SplitStep(p, lo, hi, a, cur);
      var k := cur - 1;
      SplitKeepsInv(AddBlock(p.(order := p.order[a := k]), FlipBit(a, k), k), lo, hi, a, k, target);
    }
  }

  lemma PopDetaches(p: Pool, lo: nat, hi: nat, k: nat)
    requires Inv(p, lo, hi) && k < MAX_ORDER && p.lists[k] != []
    ensures Detached(Pop(p, k), lo, hi, p.lists[k][0], k)
    ensures forall c :: c != p.lists[k][0] ==> Used(Pop(p, k), c) == Used(p, c)
  {
    PopMembers(p.lists[k]);
    var a := p.lists[k][0];
    assert a in p.lists[k];
    var q := Pop(p, k);
    forall j, c | 0 <= j < MAX_ORDER && c in q.lists[j]
      ensures c in q.order && q.order[c] == j && FlipBit(c, j) !in q.lists[j]
    {
      assert c in p.lists[j];
    }
  }

  /** Byte x belongs to a free block. */
  ghost predicate FreeByte(p: Pool, x: nat) {
    exists a: nat :: Free(p, a) && Covers(p.order, a, x)
  }

  ghost predicate FreeRegion(p: Pool, r: nat, k: nat) {
    Aligned(r, k) && forall x: nat :: r <= x < r + Pow2(k) ==> FreeByte(p, x)
  }

  /** q's used blocks are p's used blocks plus block a of order k. */
  ghost predicate Gains(p: Pool, q: Pool, a: nat, k: nat) {
    && !Used(p, a) && Used(q, a) && q.order[a] == k
    && (forall c :: c != a ==> (Used(q, c) <==> Used(p, c)))
    && (forall c :: c != a && Used(p, c) ==> q.order[c] == p.order[c])
  }

  lemma RequestKeepsInv(p: Pool, lo: nat, hi: nat, k: nat)
    requires Inv(p, lo, hi) && PAGE_LOG2 <= k
    ensures var (q, r) := Request(p, k);
            && Inv(q, lo, hi)
            && (r.None? ==> q == p)
            && (r.Some? ==> Gains(p, q, r.value, k) && FreeRegion(p, r.value, k))
  {
    var (q, r) := Request(p, k);
    if r.Some? {
      var cur := LowestFrom(p.lists, k);
      var a := p.lists[cur][0];
      PopDetaches(p, lo, hi, cur);
      SplitKeepsInv(Pop(p, cur), lo, hi, a, cur, k);
      assert a in p.lists[cur];
      assert Free(p, a) && Aligned(a, p.order[a]);
      AlignedDown(a, cur, k);
      Pow2Monotone(k, cur);
      forall x: nat | a <= x < a + Pow2(k) ensures FreeByte(p, x) {
        assert Free(p, a) && Covers(p.order, a, x);
      }
    }
  }

  lemma RemoveDetaches(p: Pool, lo: nat, hi: nat, b: nat, k: nat)
    requires Inv(p, lo, hi) && k < MAX_ORDER && b in p.lists[k]
    ensures var q := p.(lists := p.lists[k := Remove(p.lists[k], b)]);
            Detached(q, lo, hi, b, k) && forall c :: c != b ==> Free(q, c) == Free(p, c)
  {
    RemoveMembers(p.lists[k], b);
    var q := p.(lists := p.lists[k := Remove(p.lists[k], b)]);
    forall j, c | 0 <= j < MAX_ORDER && c in q.lists[j]
      ensures c in q.order && q.order[c] == j && FlipBit(c, j) !in q.lists[j]
    {
      assert c in p.lists[j];
    }
  }

  lemma JoinStep(p: Pool, lo: nat, hi: nat, a: nat, k: nat)
    requires Detached(p, lo, hi, a, k) && k + 1 < MAX_ORDER && FlipBit(a, k) in p.lists[k]
    ensures var b := FlipBit(a, k); var q := Join(p, a, b, k); var l := Lower(a, b);
            && Detached(q, lo, hi, l, k + 1) && !Used(p, b) && b != a
            && (forall c :: c != a && c != b ==> Used(q, c) == Used(p, c))
            && (forall c :: c != a && c != b && Used(p, c) ==> q.order[c] == p.order[c])
            && (l == b || l == a) && !Used(q, Higher(a, b))
  {
    var b := FlipBit(a, k);
    assert Aligned(a, p.order[a]);
    FlipAligned(a, k);
    RemoveDetaches(p, lo, hi, b, k);
    JoinTiling(p.order, lo, hi, a, k);
    JoinDetached(p.(lists := p.lists[k := Remove(p.lists[k], b)]), lo, hi, a, b, k);
  }

  /** Two detached buddies become one detached block; no list changes. */
  lemma JoinDetached(p: Pool, lo: nat, hi: nat, a: nat, b: nat, k: nat)
    requires Detached(p, lo, hi, a, k) && Detached(p, lo, hi, b, k) && a != b && k + 1 < MAX_ORDER
    requires Tiling((p.order - {Higher(a, b)})[Lower(a, b) := k + 1], lo, hi)
    ensures var q := p.(order := (p.order - {Higher(a, b)})[Lower(a, b) := k + 1]);
            && Detached(q, lo, hi, Lower(a, b), k + 1) && !Used(q, Higher(a, b))
            && (forall c :: c != a && c != b ==> Used(q, c) == Used(p, c))
  {
    hide Tiling, FlipBit;
    var q := p.(order := (p.order - {Higher(a, b)})[Lower(a, b) := k + 1]);
    forall j, c | 0 <= j < MAX_ORDER && c in q.lists[j] ensures c in q.order && q.order[c] == j {
      assert Free(p, c);
    }
  }

  lemma {:induction false} MergeKeepsInv(p: Pool, lo: nat, hi: nat, a: nat, k: nat)
    requires Detached(p, lo, hi, a, k) && k < MAX_ORDER && hi <= ADDRESS_LIMIT
    ensures var q := Merge(p, a, k);
            && Inv(q, lo, hi)
            && (forall c :: Used(q, c) <==> c != a && Used(p, c))
            && (forall c :: Used(q, c) ==> q.order[c] == p.order[c])
    decreases MAX_ORDER - k
  {
    hide Tiling, Canonical, FlipBit, Join;
    var b := FlipBit(a, k);
    if k + 1 < MAX_ORDER && b in p.lists[k] {
      JoinStep(p, lo, hi, a, k);
      MergeKeepsInv(Join(p, a, b, k), lo, hi, Lower(a, b), k + 1);
    } else {
      if b in p.lists[k] { TopOrderHasNoBuddy(p, lo, hi, a); }
      PushKeepsInv(p, lo, hi, a, k);
    }
  }

  /** The merge loop's order bound is never what stops it: a block of the top order has no buddy. */
  lemma TopOrderHasNoBuddy(p: Pool, lo: nat, hi: nat, a: nat)
    requires Inv(p, lo, hi) && a in p.order && p.order[a] == MAX_ORDER - 1 && hi <= ADDRESS_LIMIT
    ensures FlipBit(a, MAX_ORDER - 1) !in p.order
  {
    assert Aligned(a, p.order[a]);
    LimitIsPow2();
    TopBuddy(a, MAX_ORDER - 1);
  }

  lemma TopBuddy(a: nat, k: nat)
    requires 0 < a && Aligned(a, k) && a + Pow2(k) <= 2 * Pow2(k)
    ensures FlipBit(a, k) == 0
  {
    FlipAligned(a, k);
    AlignedAtLeast(a, k);
    if Aligned(a, k + 1) { AlignedAtLeast(a, k + 1); }
  }

  lemma ReleaseKeepsInv(p: Pool, lo: nat, hi: nat, a: nat)
    requires Inv(p, lo, hi) && hi <= ADDRESS_LIMIT
    ensures var q := Release(p, a);
            && Inv(q, lo, hi)
            && (!Used(p, a) ==> q == p)
            && (Used(p, a) ==> Gains(q, p, a, p.order[a]))
  {
    if Used(p, a) { MergeKeepsInv(p, lo, hi, a, p.order[a]); }
  }
}
