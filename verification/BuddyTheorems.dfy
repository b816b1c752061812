/**
 What the kernel relies on from the buddy pool: the boot-time carve establishes the
 invariant, a request fails only when no suitable region is free, freeing undoes a
 request exactly, and pages are conserved over every run.
 */
module BuddyTheorems {
  import opened Words
  import opened Sequences
  import opened BuddySpec

  // ---- carve ----------------------------------------------------------------

  /** A free block whose buddy would start at the carve cursor is too big for it to be carved. */
  ghost predicate NoBuddyAhead(p: Pool, start: nat, size: nat)
    requires |p.lists| == MAX_ORDER
  {
    forall k, a :: 0 <= k < MAX_ORDER && a in p.lists[k] && FlipBit(a, k) == start ==> size < Pow2(k)
  }

  lemma CarveGeometry(start: nat, size: nat)
    requires start > 0 && start % PAGE_SIZE == 0 && PAGE_SIZE <= size < ADDRESS_LIMIT
    ensures var k := CarveOrder(start, size);
            && PAGE_LOG2 <= k < MAX_ORDER && Pow2(k) <= size && Pow2(k) % PAGE_SIZE == 0
            && Aligned(start, k) && (start + Pow2(k)) % PAGE_SIZE == 0
            && (size - Pow2(k)) % PAGE_SIZE == size % PAGE_SIZE
            && (Aligned(start, k + 1) ==> size < 2 * Pow2(k))
  {
    hide Pow2, Ctz, Log2, Aligned;
    OrderBelow(start, size);
    PageAligned(start);
    CtzAtLeast(start, PAGE_LOG2);
    PageOrder(size);
    var k := CarveOrder(start, size);
    AlignedDown(start, Ctz(start), k);
    WholePages(k);
    ModStep(start, size, Pow2(k));
    if Aligned(start, k + 1) {
      CtzAtLeast(start, k + 1);
      SizeBelow(size);
    }
  }

  lemma WholePages(k: nat)
    requires PAGE_LOG2 <= k
    ensures Pow2(k) % PAGE_SIZE == 0
  {
    hide Pow2, Aligned;
    AlignedPow2(k);
    AlignedDown(Pow2(k), k, PAGE_LOG2);
    AlignedPage(Pow2(k));
  }

  lemma SizeBelow(size: nat)
    requires size > 0
    ensures size < 2 * Pow2(Log2(size))
  {}

  lemma ModStep(start: nat, size: nat, d: nat)
    requires d <= size && d % PAGE_SIZE == 0
    ensures (start + d) % PAGE_SIZE == start % PAGE_SIZE && (size - d) % PAGE_SIZE == size % PAGE_SIZE
  {}

  lemma PageAligned(a: nat)
    requires a % PAGE_SIZE == 0
    ensures Aligned(a, PAGE_LOG2)
  {
    AlignedPage(a);
  }

  lemma PageOrder(size: nat)
    requires PAGE_SIZE <= size
    ensures PAGE_LOG2 <= Log2(size)
  {
    assert Pow2(11) == 2048;
    if Log2(size) < PAGE_LOG2 { Pow2Monotone(Log2(size), 11); }
  }

  /** Appending one aligned block at the end of the tiled range. */
  lemma AppendDetached(p: Pool, lo: nat, start: nat, k: nat)
    requires 0 < lo <= start && Inv(p, lo, start) && PAGE_LOG2 <= k < MAX_ORDER && Aligned(start, k)
    ensures start !in p.order
    ensures Detached(p.(order := p.order[start := k]), lo, start + Pow2(k), start, k)
    ensures forall a :: Free(p.(order := p.order[start := k]), a) == Free(p, a)
  {
    assert start !in p.order;
    var o := p.order[start := k];
    forall x: nat | lo <= x < start + Pow2(k) ensures Covered(o, x) {
      if x < start {
        assert Covered(p.order, x);
        var c: nat :| Covers(p.order, c, x);
        assert Covers(o, c, x);
      } else {
        assert Covers(o, start, x);
      }
    }
  }

  lemma CarveStep(p: Pool, lo: nat, start: nat, size: nat)
    requires 0 < lo <= start && Inv(p, lo, start) && NoBuddyAhead(p, start, size)
    requires start % PAGE_SIZE == 0 && PAGE_SIZE <= size < ADDRESS_LIMIT
    ensures var k := CarveOrder(start, size);
            k < MAX_ORDER && Pow2(k) <= size &&
            var q := AddBlock(p, start, k);
            && Inv(q, lo, start + Pow2(k)) && NoBuddyAhead(q, start + Pow2(k), size - Pow2(k))
            && forall a :: Used(q, a) <==> Used(p, a)
  {
    var k := CarveOrder(start, size);
    CarveGeometry(start, size);
    AppendDetached(p, lo, start, k);
    FlipAligned(start, k);
    var p0 := p.(order := p.order[start := k]);
    assert FlipBit(start, k) !in p0.lists[k];
    PushKeepsInv(p0, lo, start + Pow2(k), start, k);
    var q := AddBlock(p, start, k);
    forall j, a | 0 <= j < MAX_ORDER && a in q.lists[j] && FlipBit(a, j) == start + Pow2(k)
      ensures size - Pow2(k) < Pow2(j)
    {
      assert q.order[a] == j;
      if a != start {
        assert a in p.lists[j];
        assert Aligned(a, p.order[a]);
        FlipAligned(a, j);
      }
    }
  }

  lemma CarveDone(p: Pool, start: nat, size: nat)
    requires |p.lists| == MAX_ORDER && start > 0 && size < PAGE_SIZE
    ensures Carve(p, start, size) == p
  {}

  lemma CarveUnfold(p: Pool, start: nat, size: nat)
    requires |p.lists| == MAX_ORDER && start > 0 && PAGE_SIZE <= size < ADDRESS_LIMIT
    requires PAGE_LOG2 <= CarveOrder(start, size) < MAX_ORDER && Pow2(CarveOrder(start, size)) <= size
    ensures var k := CarveOrder(start, size);
            Carve(p, start, size) == Carve(AddBlock(p, start, k), start + Pow2(k), size - Pow2(k))
  {}

  /** What the carve loop keeps: [lo, start) is tiled, [start, start + size) is still to be carved. */
  ghost predicate Carving(p: Pool, lo: nat, start: nat, size: nat) {
    && 0 < lo <= start && start % PAGE_SIZE == 0 && size < ADDRESS_LIMIT
    && Inv(p, lo, start) && NoBuddyAhead(p, start, size)
  }

  lemma CarvingStep(p: Pool, lo: nat, start: nat, size: nat)
    requires Carving(p, lo, start, size) && PAGE_SIZE <= size
    ensures var k := CarveOrder(start, size);
            && PAGE_LOG2 <= k < MAX_ORDER && Pow2(k) <= size
            && (size - Pow2(k)) % PAGE_SIZE == size % PAGE_SIZE
            && Carving(AddBlock(p, start, k), lo, start + Pow2(k), size - Pow2(k))
            && forall a :: Used(AddBlock(p, start, k), a) <==> Used(p, a)
  {
    CarveGeometry(start, size);
    CarveStep(p, lo, start, size);
  }

  lemma {:induction false} CarveEnds(p: Pool, lo: nat, start: nat, size: nat, hi: nat, rest: nat)
    requires Carving(p, lo, start, size) && rest == size % PAGE_SIZE && hi + rest == start + size
    ensures Carving(Carve(p, start, size), lo, hi, rest)
    ensures forall a :: Used(Carve(p, start, size), a) <==> Used(p, a)
    decreases size
  {
    hide Tiling, Canonical, NoBuddyAhead, Carve, CarveOrder, Pow2, Used;
    if size < PAGE_SIZE {
      assert rest == size && hi == start;
      CarveDone(p, start, size);
    } else {
      CarvingStep(p, lo, start, size);
      CarveUnfold(p, start, size);
      var k := CarveOrder(start, size);
      CarveEnds(AddBlock(p, start, k), lo, start + Pow2(k), size - Pow2(k), hi, rest);
    }
  }

  // ---- a start that is not page aligned ---------------------------------------------------

  /** The first page boundary at or after a. */
  function RoundUp(a: nat): (r: nat)
    ensures r % PAGE_SIZE == 0 && a <= r < a + PAGE_SIZE
  {
    (a + PAGE_SIZE - 1) / PAGE_SIZE * PAGE_SIZE
  }

  /** The end of the last whole page of [start, start + size), or RoundUp(start) if it holds none. */
  function LastPage(start: nat, size: nat): (r: nat)
    ensures r >= RoundUp(start)
  {
    var lo, end := RoundUp(start), start + size;
    if end < lo then lo else end - (end - lo) % PAGE_SIZE
  }

  lemma RoundUpUnique(a: nat, r: nat)
    requires r % PAGE_SIZE == 0 && a <= r < a + PAGE_SIZE
    ensures RoundUp(a) == r
  {}

  lemma LowBit(start: nat)
    requires start > 0 && start % PAGE_SIZE != 0
    ensures Ctz(start) < PAGE_LOG2 && start + Pow2(Ctz(start)) <= RoundUp(start)
  {
    hide Pow2, RoundUp;
    var c, r := Ctz(start), RoundUp(start);
    if c >= PAGE_LOG2 {
      AlignedDown(start, c, PAGE_LOG2);
      AlignedPage(start);
    }
    PageAligned(r);
    AlignedDown(r, PAGE_LOG2, c);
    AlignedAdd(r, start, c);
    AlignedAtLeast(r - start, c);
  }

  /** Before the first page boundary the carve advances by the lowest set bit, and never past the boundary. */
  lemma SkipStep(start: nat, size: nat)
    requires start > 0 && start % PAGE_SIZE != 0 && PAGE_SIZE <= size < ADDRESS_LIMIT
    ensures var k := CarveOrder(start, size);
            && k < PAGE_LOG2 && Pow2(k) <= size && RoundUp(start + Pow2(k)) == RoundUp(start)
            && LastPage(start + Pow2(k), size - Pow2(k)) == LastPage(start, size)
  {
    hide Pow2, RoundUp, LastPage, Ctz;
    OrderBelow(start, size);
    PageOrder(size);
    LowBit(start);
    var d := Pow2(Ctz(start));
    RoundUpUnique(start + d, RoundUp(start));
    SameEnd(start, size, d);
  }

  lemma SameEnd(start: nat, size: nat, d: nat)
    requires d <= size && RoundUp(start + d) == RoundUp(start)
    ensures LastPage(start + d, size - d) == LastPage(start, size)
  {
    hide RoundUp;
  }

  lemma CarveSkip(p: Pool, start: nat, size: nat)
    requires |p.lists| == MAX_ORDER && start > 0 && start % PAGE_SIZE != 0 && PAGE_SIZE <= size < ADDRESS_LIMIT
    ensures var k := CarveOrder(start, size);
            Pow2(k) <= size && Carve(p, start, size) == Carve(p, start + Pow2(k), size - Pow2(k))
  {
    hide Pow2, RoundUp, LastPage, CarveOrder, AddBlock;
    SkipStep(start, size);
  }

  /** Where the carve stands: at a page boundary with the part behind it tiled, or not yet at the first. */
  ghost predicate Progress(p: Pool, lo: nat, start: nat, size: nat) {
    if start % PAGE_SIZE == 0 then Carving(p, lo, start, size)
    else start > 0 && p == EmptyPool() && lo == RoundUp(start) && size < ADDRESS_LIMIT
  }

  lemma EmptyInv(lo: nat)
    requires lo > 0
    ensures Inv(EmptyPool(), lo, lo) && forall a :: !Used(EmptyPool(), a)
  {}

  lemma ProgressStart(start: nat, size: nat)
    requires start > 0 && size < ADDRESS_LIMIT
    ensures Progress(EmptyPool(), RoundUp(start), start, size)
  {
    EmptyInv(start);
    if start % PAGE_SIZE == 0 { RoundUpUnique(start, start); }
  }

  lemma SkipFacts(p: Pool, lo: nat, start: nat, size: nat)
    requires Progress(p, lo, start, size) && start % PAGE_SIZE != 0
    ensures start > 0 && p == EmptyPool() && lo == RoundUp(start) && size < ADDRESS_LIMIT
  {}

  lemma ProgressSkips(p: Pool, lo: nat, start: nat, size: nat)
    requires Progress(p, lo, start, size) && PAGE_SIZE <= size && start % PAGE_SIZE != 0
    ensures var k := CarveOrder(start, size);
            k < PAGE_LOG2 && Pow2(k) <= size && Progress(p, lo, start + Pow2(k), size - Pow2(k))
            && LastPage(start + Pow2(k), size - Pow2(k)) == LastPage(start, size)
  {
    hide Progress, CarveOrder, LastPage, Pow2;
    SkipFacts(p, lo, start, size);
    SkipStep(start, size);
    var k := CarveOrder(start, size);
    ProgressStart(start + Pow2(k), size - Pow2(k));
  }

  lemma ProgressOrder(p: Pool, lo: nat, start: nat, size: nat)
    requires Progress(p, lo, start, size) && PAGE_SIZE <= size
    ensures start > 0 && size < ADDRESS_LIMIT && |p.lists| == MAX_ORDER
    ensures CarveOrder(start, size) < PAGE_LOG2 <==> start % PAGE_SIZE != 0
    ensures start % PAGE_SIZE == 0 ==> Carving(p, lo, start, size)
  {
    hide Inv, NoBuddyAhead, CarveOrder;
    if start % PAGE_SIZE == 0 {
      InvLists(p, lo, start);
      CarveGeometry(start, size);
    } else {
      SkipStep(start, size);
    }
  }

  lemma ProgressCarves(p: Pool, lo: nat, start: nat, size: nat)
    requires |p.lists| == MAX_ORDER && Carving(p, lo, start, size) && PAGE_SIZE <= size
    ensures var k := CarveOrder(start, size);
            && PAGE_LOG2 <= k < MAX_ORDER && Pow2(k) <= size
            && Progress(AddBlock(p, start, k), lo, start + Pow2(k), size - Pow2(k))
            && LastPage(start + Pow2(k), size - Pow2(k)) == LastPage(start, size)
  {
    hide Inv, NoBuddyAhead, Progress, CarveOrder, LastPage, Pow2, AddBlock, Used;
    CarvedEnd(start, size);
    CarvingStep(p, lo, start, size);
    var k := CarveOrder(start, size);
    CarvingIsProgress(AddBlock(p, start, k), lo, start + Pow2(k), size - Pow2(k));
  }

  lemma CarvingIsProgress(p: Pool, lo: nat, start: nat, size: nat)
    requires Carving(p, lo, start, size)
    ensures Progress(p, lo, start, size)
  {
    hide Inv, NoBuddyAhead;
  }

  lemma CarvedEnd(start: nat, size: nat)
    requires start > 0 && start % PAGE_SIZE == 0 && PAGE_SIZE <= size < ADDRESS_LIMIT
    ensures var k := CarveOrder(start, size);
            && PAGE_LOG2 <= k < MAX_ORDER && Pow2(k) <= size
            && LastPage(start + Pow2(k), size - Pow2(k)) == LastPage(start, size)
  {
    hide CarveOrder, LastPage, Pow2;
    CarveGeometry(start, size);
    LastPageStep(start, size, Pow2(CarveOrder(start, size)));
  }

  lemma LastPageStep(start: nat, size: nat, d: nat)
    requires start % PAGE_SIZE == 0 && d % PAGE_SIZE == 0 && d <= size
    ensures LastPage(start + d, size - d) == LastPage(start, size)
  {
    hide RoundUp;
    RoundUpUnique(start, start);
    RoundUpUnique(start + d, start + d);
    ModStep(start, size, d);
  }

  lemma ProgressEnds(p: Pool, lo: nat, start: nat, size: nat)
    requires Progress(p, lo, start, size) && size < PAGE_SIZE
    ensures Inv(p, lo, LastPage(start, size))
  {
    if start % PAGE_SIZE == 0 {
      RoundUpUnique(start, start);
    } else {
      EmptyInv(lo);
    }
  }

  lemma {:induction false} CarveFromAnywhere(p: Pool, lo: nat, start: nat, size: nat)
    requires Progress(p, lo, start, size) && (start % PAGE_SIZE == 0 ==> forall a :: !Used(p, a)) && RoundUp(start) >= lo
    ensures |p.lists| == MAX_ORDER && start > 0
    ensures Inv(Carve(p, start, size), lo, LastPage(start, size)) && forall a :: !Used(Carve(p, start, size), a)
    decreases size
  {
    hide Inv, NoBuddyAhead, Carve, CarveOrder, Pow2, Used;
    if start % PAGE_SIZE == 0 {
      RoundUpUnique(start, start);
      assert |p.lists| == MAX_ORDER by { InvLists(p, lo, start); }
      CarveEnds(p, lo, start, size, start + size - size % PAGE_SIZE, size % PAGE_SIZE);
    } else {
      EmptyInv(lo);
      if size < PAGE_SIZE {
        CarveDone(p, start, size);
      } else {
        ProgressSkips(p, lo, start, size);
        CarveSkip(p, start, size);
        var k := CarveOrder(start, size);
        CarveFromAnywhere(p, lo, start + Pow2(k), size - Pow2(k));
      }
    }
  }

  lemma InvLists(p: Pool, lo: nat, hi: nat)
    requires Inv(p, lo, hi)
    ensures |p.lists| == MAX_ORDER
  {}

  /** Boot: the whole pages of any range are carved into free blocks, in canonical form. */
  lemma BootInvariant(start: nat, size: nat)
    requires start > 0 && start + size <= ADDRESS_LIMIT
    ensures var p := Carve(EmptyPool(), start, size);
            Inv(p, RoundUp(start), LastPage(start, size)) && forall a :: !Used(p, a)
  {
    ProgressStart(start, size);
    EmptyInv(start);
    hide Inv, Carve, Used;
    CarveFromAnywhere(EmptyPool(), RoundUp(start), start, size);
  }

  // ---- completeness ----------------------------------------------------------

  /** In canonical form a free aligned region always lies inside one free block. */
  lemma {:induction false} FreeRegionInBlock(p: Pool, lo: nat, hi: nat, r: nat, k: nat) returns (a: nat)
    requires Inv(p, lo, hi) && PAGE_LOG2 <= k && FreeRegion(p, r, k)
    ensures Free(p, a) && k <= p.order[a] && a <= r && r + Pow2(k) <= a + Pow2(p.order[a])
    decreases k
  {
    if k == PAGE_LOG2 {
      assert FreeByte(p, r);
      a :| Free(p, a) && Covers(p.order, a, r);
      NestedOrDisjoint(a, p.order[a], r, k);
    } else {
      var h := Pow2(k - 1);
      AlignedDown(r, k, k - 1);
      FlipAligned(r, k - 1);
      a := FreeRegionInBlock(p, lo, hi, r, k - 1);
      var b: nat := FreeRegionInBlock(p, lo, hi, r + h, k - 1);
      if p.order[a] == k - 1 {
        if p.order[b] > k - 1 { NestedOrDisjoint(b, p.order[b], r, k); }
        assert false;
      } else {
        NestedOrDisjoint(a, p.order[a], r, k);
      }
    }
  }

  /** A request of order k < 64 fails exactly when no naturally aligned free region of 2^k bytes exists. */
  lemma RequestComplete(p: Pool, lo: nat, hi: nat, k: nat)
    requires Inv(p, lo, hi) && PAGE_LOG2 <= k < MAX_ORDER
    ensures Request(p, k).1.None? <==> !exists r: nat :: FreeRegion(p, r, k)
  {
    var (q, r) := Request(p, k);
    if r.Some? {
      RequestKeepsInv(p, lo, hi, k);
      assert FreeRegion(p, r.value, k);
    } else if exists r: nat :: FreeRegion(p, r, k) {
      var x: nat :| FreeRegion(p, x, k);
      var a: nat := FreeRegionInBlock(p, lo, hi, x, k);
      assert false;
    }
  }

  // ---- round trip ------------------------------------------------------------

  lemma {:induction false} MergeUndoesSplit(p: Pool, lo: nat, hi: nat, a: nat, cur: nat, k: nat)
    requires Detached(p, lo, hi, a, cur) && PAGE_LOG2 <= k <= cur
    ensures |Split(p, a, cur, k).lists| == MAX_ORDER
    ensures Merge(Split(p, a, cur, k), a, k) == Merge(p, a, cur)
    decreases cur
  {
    if cur > k {
      var j := cur - 1;
      var b := FlipBit(a, j);
      SplitStep(p, lo, hi, a, cur);
      var q := AddBlock(p.(order := p.order[a := j]), b, j);
      MergeUndoesSplit(q, lo, hi, a, j, k);
      JoinUndoesHalving(p, a, b, j);
      assert Merge(q, a, j) == Merge(Join(q, a, b, j), a, cur);
    }
  }

  lemma JoinUndoesHalving(p: Pool, a: nat, b: nat, j: nat)
    requires j < |p.lists| && a in p.order && p.order[a] == j + 1 && b !in p.order && a < b
    ensures var q := AddBlock(p.(order := p.order[a := j]), b, j);
            b in q.lists[j] && Join(q, a, b, j) == p
  {
    var q := AddBlock(p.(order := p.order[a := j]), b, j);
    assert q.lists[j][0] == b && q.lists[j][1..] == p.lists[j];
    var back := Join(q, a, b, j);
    assert back.lists == p.lists;
    assert back.order == p.order;
  }

  /** Freeing a block just returned by a request restores the pool: every block and every list. */
  lemma RequestThenRelease(p: Pool, lo: nat, hi: nat, k: nat)
    requires Inv(p, lo, hi) && PAGE_LOG2 <= k
    ensures var (q, r) := Request(p, k); r.Some? ==> |q.lists| == MAX_ORDER && Release(q, r.value) == p
  {
    var (q, r) := Request(p, k);
    if r.Some? {
      RequestKeepsInv(p, lo, hi, k);
      var cur := LowestFrom(p.lists, k);
      var a := r.value;
      var p1 := Pop(p, cur);
      PopDetaches(p, lo, hi, cur);
      MergeUndoesSplit(p1, lo, hi, a, cur, k);
      assert a in p.lists[cur];
      assert FlipBit(a, cur) !in p1.lists[cur];
      assert p.lists[cur] == [a] + p.lists[cur][1..];
      assert Push(p1, a, cur).lists == p.lists;
    }
  }

  // ---- page accounting ---------------------------------------------------------

  /** (1 << k) >> 12 */
  function PagesOf(k: nat): nat { Pow2(k) / PAGE_SIZE }

  /** The sum buddy_kernel_free_pages accumulates from order k upward. */
  function FreePages(lists: seq<seq<nat>>, k: nat): nat
    requires k <= |lists|
    decreases |lists| - k
  {
    if k == |lists| then 0 else |lists[k]| * PagesOf(k) + FreePages(lists, k + 1)
  }

  ghost function Interval(b: nat, n: nat): (r: set<nat>)
    ensures |r| == n && forall x :: x in r <==> b <= x < b + n
  {
    if n == 0 then {} else Interval(b, n - 1) + {b + n - 1}
  }

  /** The page frames that lie in a free block. */
  ghost function FreeFrames(p: Pool, hi: nat): set<nat> {
    set x: nat | x < hi && FreeByte(p, x * PAGE_SIZE)
  }

  ghost function ListFrames(list: seq<nat>, k: nat): set<nat> {
    if list == [] then {} else Interval(list[0] / PAGE_SIZE, PagesOf(k)) + ListFrames(list[1..], k)
  }

  ghost function FramesFrom(lists: seq<seq<nat>>, k: nat): set<nat>
    requires k <= |lists|
    decreases |lists| - k
  {
    if k == |lists| then {} else ListFrames(lists[k], k) + FramesFrom(lists, k + 1)
  }

  lemma BlockFrames(order: map<nat, nat>, lo: nat, hi: nat, a: nat, x: nat)
    requires Tiling(order, lo, hi) && a in order
    ensures x in Interval(a / PAGE_SIZE, PagesOf(order[a])) <==> Covers(order, a, x * PAGE_SIZE)
  {
    var k := order[a];
    AlignedDown(a, k, PAGE_LOG2);
    AlignedPage(a);
    AlignedPow2(k);
    AlignedDown(Pow2(k), k, PAGE_LOG2);
    AlignedPage(Pow2(k));
  }

  lemma UniqueCover(order: map<nat, nat>, lo: nat, hi: nat, a: nat, b: nat, x: nat)
    requires Tiling(order, lo, hi) && Covers(order, a, x) && Covers(order, b, x)
    ensures a == b
  {
    assert a < b || b < a || a == b;
  }

  /** Some block of the list covers page frame x. */
  ghost predicate InList(order: map<nat, nat>, list: seq<nat>, x: nat) {
    exists a: nat :: a in list && Covers(order, a, x * PAGE_SIZE)
  }

  ghost predicate BlocksOfOrder(order: map<nat, nat>, list: seq<nat>, k: nat) {
    NoDup(list) && forall a :: a in list ==> a in order && order[a] == k
  }

  lemma InListCons(order: map<nat, nat>, list: seq<nat>, x: nat)
    requires list != []
    ensures InList(order, list, x) <==> Covers(order, list[0], x * PAGE_SIZE) || InList(order, list[1..], x)
  {
    assert forall a :: a in list <==> a == list[0] || a in list[1..];
  }

  lemma {:induction false} ListFramesMember(order: map<nat, nat>, lo: nat, hi: nat, list: seq<nat>, k: nat, x: nat)
    requires Tiling(order, lo, hi) && BlocksOfOrder(order, list, k)
    ensures x in ListFrames(list, k) <==> InList(order, list, x)
    decreases list
  {
    if list != [] {
      PopMembers(list);
      assert list[0] in list;
      ListFramesMember(order, lo, hi, list[1..], k, x);
      BlockFrames(order, lo, hi, list[0], x);
      InListCons(order, list, x);
    }
  }

  lemma HeadFramesDisjoint(order: map<nat, nat>, lo: nat, hi: nat, list: seq<nat>, k: nat, x: nat)
    requires Tiling(order, lo, hi) && BlocksOfOrder(order, list, k) && list != []
    requires x in Interval(list[0] / PAGE_SIZE, PagesOf(k))
    ensures x !in ListFrames(list[1..], k)
  {
    PopMembers(list);
    var h, t := list[0], list[1..];
    assert h in list;
    BlockFrames(order, lo, hi, h, x);
    ListFramesMember(order, lo, hi, t, k, x);
    if InList(order, t, x) {
      var a: nat :| a in t && Covers(order, a, x * PAGE_SIZE);
      UniqueCover(order, lo, hi, a, h, x * PAGE_SIZE);
    }
  }

  lemma MulSucc(n: nat, m: nat)
    ensures (n + 1) * m == n * m + m
  {}

  lemma {:induction false} ListFramesSize(order: map<nat, nat>, lo: nat, hi: nat, list: seq<nat>, k: nat)
    requires Tiling(order, lo, hi) && BlocksOfOrder(order, list, k)
    ensures |ListFrames(list, k)| == |list| * PagesOf(k)
    decreases list
  {
    if list != [] {
      PopMembers(list);
      ListFramesSize(order, lo, hi, list[1..], k);
      forall x: nat | x in Interval(list[0] / PAGE_SIZE, PagesOf(k)) ensures x !in ListFrames(list[1..], k) {
        HeadFramesDisjoint(order, lo, hi, list, k, x);
      }
      assert Interval(list[0] / PAGE_SIZE, PagesOf(k)) !! ListFrames(list[1..], k);
      MulSucc(|list[1..]|, PagesOf(k));
    }
  }

  /** Frame x lies in a free block of order at least k. */
  ghost predicate FreeFrom(p: Pool, k: nat, x: nat) {
    exists a: nat :: Free(p, a) && k <= p.order[a] && Covers(p.order, a, x * PAGE_SIZE)
  }

  /** A block of order at least k is on list k or has order at least k + 1. */
  lemma FreeFromStep(p: Pool, lo: nat, hi: nat, k: nat, x: nat)
    requires Inv(p, lo, hi) && k < MAX_ORDER
    ensures FreeFrom(p, k, x) <==> InList(p.order, p.lists[k], x) || FreeFrom(p, k + 1, x)
  {
    if InList(p.order, p.lists[k], x) {
      var a: nat :| a in p.lists[k] && Covers(p.order, a, x * PAGE_SIZE);
      assert Free(p, a);
    }
    if FreeFrom(p, k, x) {
      var a: nat :| Free(p, a) && k <= p.order[a] && Covers(p.order, a, x * PAGE_SIZE);
      assert p.order[a] == k ==> a in p.lists[k];
    }
  }

  lemma ListIsBlocks(p: Pool, lo: nat, hi: nat, k: nat)
    requires Inv(p, lo, hi) && k < MAX_ORDER
    ensures BlocksOfOrder(p.order, p.lists[k], k)
  {}

  lemma NothingFromTop(p: Pool, lo: nat, hi: nat, x: nat)
    requires Inv(p, lo, hi)
    ensures !FreeFrom(p, MAX_ORDER, x)
  {}

  lemma {:induction false} FramesFromMember(p: Pool, lo: nat, hi: nat, k: nat, x: nat)
    requires Inv(p, lo, hi) && k <= MAX_ORDER
    ensures x in FramesFrom(p.lists, k) <==> FreeFrom(p, k, x)
    decreases MAX_ORDER - k
  {
    if k < MAX_ORDER {
      FramesFromMember(p, lo, hi, k + 1, x);
      ListIsBlocks(p, lo, hi, k);
      ListFramesMember(p.order, lo, hi, p.lists[k], k, x);
      FreeFromStep(p, lo, hi, k, x);
    } else {
      NothingFromTop(p, lo, hi, x);
    }
  }

  lemma OrdersDisjoint(p: Pool, lo: nat, hi: nat, k: nat, x: nat)
    requires Inv(p, lo, hi) && k < MAX_ORDER && x in ListFrames(p.lists[k], k)
    ensures x !in FramesFrom(p.lists, k + 1)
  {
    hide Tiling, Canonical, Covers, FramesFrom, ListFrames;
    ListIsBlocks(p, lo, hi, k);
    ListFramesMember(p.order, lo, hi, p.lists[k], k, x);
    FramesFromMember(p, lo, hi, k + 1, x);
    if FreeFrom(p, k + 1, x) {
      var a: nat :| a in p.lists[k] && Covers(p.order, a, x * PAGE_SIZE);
      var b: nat :| Free(p, b) && k + 1 <= p.order[b] && Covers(p.order, b, x * PAGE_SIZE);
      UniqueCover(p.order, lo, hi, a, b, x * PAGE_SIZE);
    }
  }

  lemma UnionSize(s: set<nat>, t: set<nat>)
    requires forall x :: x in s ==> x !in t
    ensures |s + t| == |s| + |t|
  {
    assert s !! t;
  }

  lemma {:induction false} FramesFromSize(p: Pool, lo: nat, hi: nat, k: nat)
    requires Inv(p, lo, hi) && k <= MAX_ORDER && |p.lists| == MAX_ORDER
    ensures |FramesFrom(p.lists, k)| == FreePages(p.lists, k)
    decreases MAX_ORDER - k
  {
    hide Tiling, Canonical, ListsOk, PagesOf, ListFrames;
    if k < MAX_ORDER {
      FramesFromSize(p, lo, hi, k + 1);
      ListIsBlocks(p, lo, hi, k);
      ListFramesSize(p.order, lo, hi, p.lists[k], k);
      var here, above := ListFrames(p.lists[k], k), FramesFrom(p.lists, k + 1);
      forall x: nat | x in here ensures x !in above { OrdersDisjoint(p, lo, hi, k, x); }
      UnionSize(here, above);
    }
  }

  /** The count computed by walking the lists is the number of page frames in free blocks. */
  lemma FreePagesCountsFrames(p: Pool, lo: nat, hi: nat)
    requires Inv(p, lo, hi)
    ensures FreePages(p.lists, 0) == |FreeFrames(p, hi)|
  {
    FramesFromSize(p, lo, hi, 0);
    forall x: nat ensures x in FramesFrom(p.lists, 0) <==> x in FreeFrames(p, hi) {
      FramesFromMember(p, lo, hi, 0, x);
      if FreeFrom(p, 0, x) {
        var a: nat :| Free(p, a) && 0 <= p.order[a] && Covers(p.order, a, x * PAGE_SIZE);
        assert FreeByte(p, x * PAGE_SIZE);
      }
      if FreeByte(p, x * PAGE_SIZE) {
        var a: nat :| Free(p, a) && Covers(p.order, a, x * PAGE_SIZE);
        assert FreeFrom(p, 0, x);
      }
    }
    assert FramesFrom(p.lists, 0) == FreeFrames(p, hi);
  }

  /** A byte of the pool is free exactly when no used block covers it. */
  lemma FreeOrUsed(p: Pool, lo: nat, hi: nat, x: nat)
    requires Inv(p, lo, hi)
    ensures FreeByte(p, x) <==> lo <= x < hi && !exists a: nat :: Used(p, a) && Covers(p.order, a, x)
  {
    if lo <= x < hi {
      assert Covered(p.order, x);
      var c: nat :| Covers(p.order, c, x);
      forall a: nat | Covers(p.order, a, x) ensures a == c { UniqueCover(p.order, lo, hi, a, c, x); }
    }
  }

  lemma GainedFrame(p: Pool, q: Pool, lo: nat, hi: nat, a: nat, k: nat, x: nat)
    requires Inv(p, lo, hi) && Inv(q, lo, hi) && Gains(p, q, a, k)
    ensures var block := Interval(a / PAGE_SIZE, PagesOf(k)); var y := x * PAGE_SIZE;
            && (FreeByte(p, y) <==> FreeByte(q, y) || x in block)
            && (x in block ==> !FreeByte(q, y))
  {
    var y := x * PAGE_SIZE;
    FreeOrUsed(p, lo, hi, y);
    FreeOrUsed(q, lo, hi, y);
    BlockFrames(q.order, lo, hi, a, x);
    if Covers(q.order, a, y) {
      assert Used(q, a);
      forall c: nat | Used(p, c) ensures !Covers(p.order, c, y) { assert Used(q, c); }
    } else if FreeByte(p, y) {
      forall c: nat | Used(q, c) ensures !Covers(q.order, c, y) { assert c != a ==> Used(p, c); }
    } else if FreeByte(q, y) {
      forall c: nat | Used(p, c) ensures !Covers(p.order, c, y) { assert Used(q, c); }
    }
  }

  /** Handing out (or taking back) a block of order k moves exactly 2^k bytes' worth of pages. */
  lemma GainsMovesPages(p: Pool, q: Pool, lo: nat, hi: nat, a: nat, k: nat)
    requires Inv(p, lo, hi) && Inv(q, lo, hi) && Gains(p, q, a, k)
    ensures FreePages(p.lists, 0) == FreePages(q.lists, 0) + PagesOf(k)
  {
    FreePagesCountsFrames(p, lo, hi);
    FreePagesCountsFrames(q, lo, hi);
    var block := Interval(a / PAGE_SIZE, PagesOf(k));
    forall x: nat
      ensures x in FreeFrames(p, hi) <==> x in FreeFrames(q, hi) || x in block
      ensures x in block ==> x !in FreeFrames(q, hi)
    {
      GainedFrame(p, q, lo, hi, a, k, x);
      FreeOrUsed(p, lo, hi, x * PAGE_SIZE);
    }
    assert FreeFrames(p, hi) == block + FreeFrames(q, hi);
    UnionSize(block, FreeFrames(q, hi));
  }

  // ---- every run -----------------------------------------------------------------

  datatype Op = Alloc(size: nat) | Dealloc(address: nat)

  /** What a client holds: the live allocations and the sizes asked for. */
  datatype System = System(pool: Pool, live: map<nat, nat>)

  ghost function Step(s: System, op: Op): System
    requires |s.pool.lists| == MAX_ORDER
  {
    match op
    case Alloc(size) =>
      if size == 0 then s else
        var k := RequestOrder(size);
        var (q, r) := Request(s.pool, k);
        System(q, if r.Some? then s.live[r.value := size] else s.live)
    case Dealloc(a) => System(Release(s.pool, a), s.live - {a})
  }

  ghost predicate SystemInv(s: System, lo: nat, hi: nat) {
    && Inv(s.pool, lo, hi) && hi <= ADDRESS_LIMIT
    && (forall a :: Used(s.pool, a) <==> a in s.live)
    && (forall a :: a in s.live ==> s.live[a] > 0 && s.pool.order[a] == RequestOrder(s.live[a]))
  }

  lemma AllocKeepsInv(s: System, lo: nat, hi: nat, size: nat)
    requires SystemInv(s, lo, hi) && size > 0
    ensures SystemInv(Step(s, Alloc(size)), lo, hi)
  {
    hide Request, Used, FreeRegion;
    var k := RequestOrder(size);
    RequestKeepsInv(s.pool, lo, hi, k);
    var (q, r) := Request(s.pool, k);
    if r.Some? { LiveGains(s, q, r.value, size); }
  }

  /** One more block in use, and one more request on record. */
  lemma LiveGains(s: System, q: Pool, a: nat, size: nat)
    requires (forall x :: Used(s.pool, x) <==> x in s.live) && size > 0 && Gains(s.pool, q, a, RequestOrder(size))
    requires forall x :: x in s.live ==> s.live[x] > 0 && s.pool.order[x] == RequestOrder(s.live[x])
    ensures forall x :: Used(q, x) <==> x in s.live[a := size]
    ensures var l := s.live[a := size]; forall x :: x in l ==> l[x] > 0 && q.order[x] == RequestOrder(l[x])
  {
    hide RequestOrder;
  }

  lemma DeallocKeepsInv(s: System, lo: nat, hi: nat, a: nat)
    requires SystemInv(s, lo, hi)
    ensures SystemInv(Step(s, Dealloc(a)), lo, hi)
  {
    ReleaseKeepsInv(s.pool, lo, hi, a);
    if Used(s.pool, a) { assert Gains(Release(s.pool, a), s.pool, a, s.pool.order[a]); }
  }

  lemma StepKeepsInv(s: System, lo: nat, hi: nat, op: Op)
    requires SystemInv(s, lo, hi)
    ensures SystemInv(Step(s, op), lo, hi)
  {
    match op
    case Alloc(size) => if size > 0 { AllocKeepsInv(s, lo, hi, size); }
    case Dealloc(a) => DeallocKeepsInv(s, lo, hi, a);
  }

  ghost function Run(s: System, ops: seq<Op>, lo: nat, hi: nat): (r: System)
    requires SystemInv(s, lo, hi)
    ensures SystemInv(r, lo, hi)
    decreases |ops|
  {
    if ops == [] then s else
      StepKeepsInv(s, lo, hi, ops[0]);
      Run(Step(s, ops[0]), ops[1..], lo, hi)
  }

  /** The bytes asked for: aligned to a page at least, inside the pool, and shared with no other request. */
  ghost predicate Apart(live: map<nat, nat>, lo: nat, hi: nat) {
    && (forall a :: a in live ==> a % PAGE_SIZE == 0 && lo <= a && a + live[a] <= hi)
    && (forall a, b :: a in live && b in live && a < b ==> a + live[a] <= b)
  }

  lemma LiveAreApart(s: System, lo: nat, hi: nat)
    requires SystemInv(s, lo, hi)
    ensures Apart(s.live, lo, hi)
    ensures forall a :: a in s.live ==> s.live[a] > 0 && Aligned(a, RequestOrder(s.live[a]))
  {
    assert forall a :: a in s.live ==> Used(s.pool, a);
    forall a | a in s.live ensures s.live[a] <= Pow2(s.pool.order[a]) && a % PAGE_SIZE == 0 {
      OrderFits(s.live[a]);
      AlignedDown(a, s.pool.order[a], PAGE_LOG2);
      AlignedPage(a);
    }
  }

  /** Some aligned free region, a page at least, could hold `size` bytes. */
  ghost predicate Fits(p: Pool, size: nat) {
    exists r: nat, k: nat :: PAGE_LOG2 <= k < MAX_ORDER && size <= Pow2(k) && FreeRegion(p, r, k)
  }

  /** A larger free region starts with one of the order a request is rounded to. */
  lemma FitsOrder(p: Pool, size: nat)
    requires size > 0
    ensures Fits(p, size) <==> RequestOrder(size) < MAX_ORDER && exists r: nat :: FreeRegion(p, r, RequestOrder(size))
  {
    var j := RequestOrder(size);
    OrderFits(size);
    if Fits(p, size) {
      var r: nat, k: nat :| PAGE_LOG2 <= k < MAX_ORDER && size <= Pow2(k) && FreeRegion(p, r, k);
      if k < j { Pow2Monotone(k, j - 1); }
      Pow2Monotone(j, k);
      AlignedDown(r, k, j);
      assert FreeRegion(p, r, j);
    }
  }

  /** What a request hands out holds `size` bytes; it hands out nothing if and only if no free region could. */
  lemma RequestServes(p: Pool, lo: nat, hi: nat, size: nat)
    requires Inv(p, lo, hi) && size > 0
    ensures var (q, r) := Request(p, RequestOrder(size));
            && (r.Some? <==> Fits(p, size))
            && (r.Some? ==> 0 < r.value && !Used(p, r.value) && Used(q, r.value) && size <= Pow2(q.order[r.value]))
            && (r.None? ==> q == p)
  {
    var k := RequestOrder(size);
    OrderFits(size);
    FitsOrder(p, size);
    RequestKeepsInv(p, lo, hi, k);
    if k < MAX_ORDER { RequestComplete(p, lo, hi, k); }
  }

  /** A request is served, with an address not live before, if and only if some free region could hold it. */
  lemma AllocExact(s: System, lo: nat, hi: nat, size: nat)
    requires SystemInv(s, lo, hi) && size > 0
    ensures Fits(s.pool, size) ==> exists a: nat :: a !in s.live && Step(s, Alloc(size)).live == s.live[a := size]
    ensures !Fits(s.pool, size) ==> Step(s, Alloc(size)) == s
  {
    RequestServes(s.pool, lo, hi, size);
    var (q, r) := Request(s.pool, RequestOrder(size));
    if r.Some? { assert r.value !in s.live && Step(s, Alloc(size)).live == s.live[r.value := size]; }
  }

  lemma BootSystem(start: nat, size: nat)
    requires start > 0 && start + size <= ADDRESS_LIMIT
    ensures SystemInv(System(Carve(EmptyPool(), start, size), map[]), RoundUp(start), LastPage(start, size))
  {
    assert LastPage(start, size) <= ADDRESS_LIMIT by { assert ADDRESS_LIMIT % PAGE_SIZE == 0; }
    hide Inv, Carve, RoundUp, LastPage, Used;
    BootInvariant(start, size);
  }

  /** After boot and any run of requests and frees, the bytes live requests asked for are in the pool and disjoint. */
  lemma EveryRunIsSafe(start: nat, size: nat, ops: seq<Op>)
    requires start > 0 && start + size <= ADDRESS_LIMIT
    ensures var lo, hi := RoundUp(start), LastPage(start, size);
            var s0 := System(Carve(EmptyPool(), start, size), map[]);
            SystemInv(s0, lo, hi) &&
            var live := Run(s0, ops, lo, hi).live;
            Apart(live, lo, hi) && forall a :: a in live ==> live[a] > 0 && Aligned(a, RequestOrder(live[a]))
  {
    hide SystemInv, Carve, RoundUp, LastPage;
    BootSystem(start, size);
    var lo, hi := RoundUp(start), LastPage(start, size);
    LiveAreApart(Run(System(Carve(EmptyPool(), start, size), map[]), ops, lo, hi), lo, hi);
  }
}
