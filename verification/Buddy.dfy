/**
 The kernel buddy allocator in place: free lists threaded through the free pages, a
 shadow byte per page frame, and the carve, request and free loops that keep them in
 step. Each method is proved to compute the function of the same name in BuddySpec.
 */
module Buddy {
  import opened Words
  import opened Sequences
  import opened BuddySpec
  import opened BuddyTheorems
  import opened InlineLists

  const ORDER_MASK: nat := 0x40   // order & 0x3F is order % 0x40
  const FREE_FLAG: nat := 0x40

  function FreeTag(k: nat): nat { k % ORDER_MASK + FREE_FLAG }
  function UsedTag(k: nat): nat { k % ORDER_MASK }

  /** The shadow byte of the page at address a. */
  function ShadowByte(p: Pool, a: nat): nat {
    if a !in p.order then 0 else if Free(p, a) then FreeTag(p.order[a]) else UsedTag(p.order[a])
  }

  /** Every shadow byte agrees with pool p, those for the addresses in `except` aside. */
  ghost predicate Agrees(frames: Frames, shadow: seq<nat>, p: Pool, except: set<nat>) {
    && |shadow| == frames.count
    && forall i: nat :: i < frames.count && (frames.base + i) * PAGE_SIZE !in except ==>
         shadow[i] == ShadowByte(p, (frames.base + i) * PAGE_SIZE)
  }

  lemma ReadTag(frames: Frames, shadow: seq<nat>, p: Pool, except: set<nat>, a: nat)
    requires Agrees(frames, shadow, p, except) && a !in except
    requires a % PAGE_SIZE == 0 && frames.base <= a / PAGE_SIZE < frames.base + frames.count
    ensures shadow[a / PAGE_SIZE - frames.base] == ShadowByte(p, a)
  {
    var i: nat := a / PAGE_SIZE - frames.base;
    assert (frames.base + i) * PAGE_SIZE == a;
  }

  lemma Weaken(frames: Frames, shadow: seq<nat>, p: Pool, except: set<nat>, more: set<nat>)
    requires Agrees(frames, shadow, p, except) && except <= more
    ensures Agrees(frames, shadow, p, more)
  {}

  /** Writing page y's byte carries the shadow over to a pool that differs only at y and the exceptions. */
  lemma Retag(frames: Frames, shadow: seq<nat>, p: Pool, q: Pool, except: set<nat>, y: nat)
    requires Agrees(frames, shadow, p, except) && frames.IsPage(y)
    requires forall c :: c !in except && c != y ==> ShadowByte(q, c) == ShadowByte(p, c)
    ensures Agrees(frames, shadow[frames.Slot(y) := ShadowByte(q, y)], q, except - {y})
  {
    assert (frames.base + frames.Slot(y)) * PAGE_SIZE == y;
  }

  lemma Carry(frames: Frames, shadow: seq<nat>, p: Pool, q: Pool, except: set<nat>)
    requires Agrees(frames, shadow, p, except)
    requires forall c :: c !in except ==> ShadowByte(q, c) == ShadowByte(p, c)
    ensures Agrees(frames, shadow, q, except)
  {}

  /** What a shadow byte says: 0 is no block head, the free flag a free head, else a used head. */
  lemma TagMeaning(p: Pool, lo: nat, hi: nat, a: nat)
    requires Inv(p, lo, hi)
    ensures var s := ShadowByte(p, a);
            && (s == 0 <==> a !in p.order)
            && (0 < s < FREE_FLAG <==> Used(p, a))
            && (Used(p, a) ==> s % ORDER_MASK == p.order[a] < MAX_ORDER)
            && (forall k :: 0 <= k < MAX_ORDER ==> (s == FreeTag(k) <==> a in p.lists[k]))
  {
    if a in p.order { assert PAGE_LOG2 <= p.order[a] < MAX_ORDER; }
  }

  lemma PopShadow(p: Pool, lo: nat, hi: nat, k: nat)
    requires Inv(p, lo, hi) && k < MAX_ORDER && p.lists[k] != []
    ensures forall c :: c != p.lists[k][0] ==> ShadowByte(Pop(p, k), c) == ShadowByte(p, c)
  {
    PopMembers(p.lists[k]);
  }

  lemma SplitShadow(p: Pool, lo: nat, hi: nat, a: nat, k: nat)
    requires Detached(p, lo, hi, a, k + 1) && PAGE_LOG2 <= k
    ensures var b := FlipBit(a, k); var q := AddBlock(p.(order := p.order[a := k]), b, k);
            && (forall c :: c != a && c != b ==> ShadowByte(q, c) == ShadowByte(p, c))
            && ShadowByte(q, b) == FreeTag(k)
  {
    hide Tiling, Canonical, Pow2;
    SplitStep(p, lo, hi, a, k + 1);
  }

  lemma JoinShadow(p: Pool, lo: nat, hi: nat, a: nat, k: nat)
    requires Detached(p, lo, hi, a, k) && k + 1 < MAX_ORDER && FlipBit(a, k) in p.lists[k]
    ensures var b := FlipBit(a, k); var q := Join(p, a, b, k);
            && (forall c :: c != a && c != b ==> ShadowByte(q, c) == ShadowByte(p, c))
            && ShadowByte(q, Higher(a, b)) == 0 && {a, b} - {Higher(a, b)} == {Lower(a, b)}
  {
    hide Tiling, Canonical, FlipBit;
    JoinStep(p, lo, hi, a, k);
    var b := FlipBit(a, k);
    RemoveMembers(p.lists[k], b);
    var q := Join(p, a, b, k);
    forall c | c != a && c != b ensures ShadowByte(q, c) == ShadowByte(p, c) {
      assert c in q.order <==> c in p.order;
    }
  }

  lemma PushShadow(p: Pool, lo: nat, hi: nat, a: nat, k: nat)
    requires Detached(p, lo, hi, a, k) && k < MAX_ORDER && FlipBit(a, k) !in p.lists[k]
    ensures var q := Push(p, a, k);
            && (forall c :: c != a ==> ShadowByte(q, c) == ShadowByte(p, c))
            && ShadowByte(q, a) == FreeTag(k)
  {
    PushKeepsInv(p, lo, hi, a, k);
  }

  /** One TZCNT on the masked word finds the lowest non-empty list of order at least k. */
  lemma MaskSearch(mask: nat, lists: seq<seq<nat>>, k: nat)
    requires |lists| == MAX_ORDER && k < MAX_ORDER
    requires forall j: nat :: Bit(mask, j) <==> j < MAX_ORDER && lists[j] != []
    ensures ClearLow(mask, k) == 0 <==> LowestFrom(lists, k) == MAX_ORDER
    ensures ClearLow(mask, k) != 0 ==> Ctz(ClearLow(mask, k)) == LowestFrom(lists, k)
  {
    var w, low := ClearLow(mask, k), LowestFrom(lists, k);
    if w == 0 {
      if low < MAX_ORDER {
        BitOfClearLow(mask, k, low);
        ZeroBit(low);
      }
    } else {
      var c := Ctz(w);
      BitOfClearLow(mask, k, c);
      if low < MAX_ORDER { BitOfClearLow(mask, k, low); }
    }
  }

  /** The frames the shadow of [start, end) has a byte for. */
  function ShadowFrames(start: nat, end: nat): Frames
    requires start <= end
  {
    Frames(start / PAGE_SIZE, (end - start) / PAGE_SIZE)
  }

  /** Every page of the pool [lo, hi) has a shadow byte. */
  ghost predicate Shadows(frames: Frames, lo: nat, hi: nat) {
    frames.base * PAGE_SIZE <= lo && (lo < hi ==> hi <= (frames.base + frames.count) * PAGE_SIZE)
  }

  /** A shadow made for [base, end) has a byte for each page carved from [start, end) iff base is not deeper into its page than end. */
  lemma ShadowCovers(base: nat, start: nat, end: nat)
    requires base <= start <= end
    ensures var lo, hi := RoundUp(start), LastPage(start, end - start);
            Shadows(ShadowFrames(base, end), lo, hi) <==> lo == hi || base % PAGE_SIZE <= end % PAGE_SIZE
  {
    var q := (end - base) / PAGE_SIZE;
    assert q == if base % PAGE_SIZE <= end % PAGE_SIZE then end / PAGE_SIZE - base / PAGE_SIZE
                else end / PAGE_SIZE - base / PAGE_SIZE - 1;
  }

  lemma PoolEnds(start: nat, end: nat)
    requires start <= end <= ADDRESS_LIMIT
    ensures LastPage(start, end - start) <= ADDRESS_LIMIT
  {
    assert ADDRESS_LIMIT % PAGE_SIZE == 0;
  }

  class KernelBuddy {
    const frames: Frames
    const free: FreeLists
    const shadow: array<nat>
    ghost const lo: nat
    ghost const hi: nat
    ghost var blocks: map<nat, nat>

    ghost function ThePool(): Pool
      reads this, free
    {
      Pool(blocks, free.lists)
    }

    predicate InRange(a: nat) {
      frames.base <= a / PAGE_SIZE < frames.base + frames.count
    }

    ghost predicate Shaped()
      reads this, free, free.heads, free.slots
    {
      && shadow != free.heads && shadow != free.slots && free.frames == frames && free.Valid()
      && shadow.Length == frames.count && |free.lists| == MAX_ORDER
      && 0 < lo && hi <= ADDRESS_LIMIT && Shadows(frames, lo, hi)
    }

    ghost predicate Valid()
      reads this, free, free.heads, free.slots, shadow
    {
      Shaped() && Inv(ThePool(), lo, hi) && Agrees(frames, shadow[..], ThePool(), {})
    }

    /** Boot: build the shadow for [base, end), then carve [start, end) into free blocks. */
    constructor (base: nat, start: nat, end: nat)
      requires base <= start <= end <= ADDRESS_LIMIT && 0 < start && base % PAGE_SIZE <= end % PAGE_SIZE
      ensures Valid() && lo == RoundUp(start) && hi == LastPage(start, end - start)
      ensures ThePool() == Carve(EmptyPool(), start, end - start)
      ensures fresh(free) && fresh(free.heads) && fresh(free.slots) && fresh(shadow)
    {
      frames := ShadowFrames(base, end);
      free := new FreeLists(ShadowFrames(base, end));
      shadow := new nat[(end - base) / PAGE_SIZE](_ => 0);
      blocks := map[];
      lo, hi := RoundUp(start), LastPage(start, end - start);
      new;
      ShadowCovers(base, start, end);
      PoolEnds(start, end);
      AddToBuddyAlloc(start, end - start);
    }

    method AddToBuddyAlloc(start0: nat, size0: nat)
      requires Shaped() && ThePool() == EmptyPool() && 0 < start0 && size0 < ADDRESS_LIMIT
      requires lo == RoundUp(start0) && hi == LastPage(start0, size0)
      requires Agrees(frames, shadow[..], ThePool(), {})
      modifies this, free, free.heads, free.slots, shadow
      ensures Valid() && ThePool() == Carve(old(ThePool()), start0, size0)
    {
      hide Progress, Carving, Inv, Agrees, FreeLists.Valid, Carve, ListsOk, Free, CarveOrder, RoundUp, LastPage, Shadows;
      ProgressStart(start0, size0);
      var start: nat, size: nat := start0, size0;
      ghost var p0 := ThePool();
      while size >= PAGE_SIZE
        invariant Shaped() && Progress(ThePool(), lo, start, size) && start > 0 && size < ADDRESS_LIMIT
        invariant Agrees(frames, shadow[..], ThePool(), {}) && hi == LastPage(start, size)
        invariant Carve(ThePool(), start, size) == Carve(p0, start0, size0)
        decreases size
      {
        OrderBelow(start, size);
        var bit := CarveOrder(start, size);
        ProgressOrder(ThePool(), lo, start, size);
        if bit < PAGE_LOG2 {
          ProgressSkips(ThePool(), lo, start, size);
          CarveSkip(ThePool(), start, size);
          start := start + Pow2(bit);
          size := size - Pow2(bit);
          continue;
        }
        ProgressCarves(ThePool(), lo, start, size);
        CarveUnfold(ThePool(), start, size);
        CarvedIsPage(start, size);
        size := size - Pow2(bit);
        PushCarved(start, bit);
        start := start + Pow2(bit);
      }
      CarveDone(ThePool(), start, size);
      ProgressEnds(ThePool(), lo, start, size);
    }

    lemma CarvedIsPage(start: nat, size: nat)
      requires Shaped() && Carving(ThePool(), lo, start, size) && size >= PAGE_SIZE && hi == LastPage(start, size)
      ensures frames.IsPage(start) && start !in blocks && ListsOk(ThePool())
    {
      assert forall a :: a in blocks ==> a + Pow2(blocks[a]) <= start;
      RoundUpUnique(start, start);
    }

    /** One carved block: on its list, and marked free in the shadow. */
    method PushCarved(start: nat, bit: nat)
      requires Shaped() && ListsOk(ThePool()) && Agrees(frames, shadow[..], ThePool(), {})
      requires bit < MAX_ORDER && frames.IsPage(start) && start !in blocks
      modifies this, free, free.heads, free.slots, shadow
      ensures Shaped() && Agrees(frames, shadow[..], ThePool(), {})
      ensures ThePool() == AddBlock(old(ThePool()), start, bit)
    {
      hide Agrees, FreeLists.Valid;
      ghost var p := ThePool();
      ghost var q := AddBlock(p, start, bit);
      Retag(frames, shadow[..], p, q, {}, start);
      assert {} - {start} == {};
      NotListed(p, start);
      blocks := blocks[start := bit];
      free.Push(bit, start);
      assert ThePool() == q;
      SetTag(start, FreeTag(bit));
    }

    method SetTag(a: nat, tag: nat)
      requires shadow.Length == frames.count
      modifies shadow
      ensures shadow[..] == if InRange(a) then old(shadow[..])[a / PAGE_SIZE - frames.base := tag]
                            else old(shadow[..])
    {
      if !InRange(a) { return; }
      shadow[a / PAGE_SIZE - frames.base] := tag;
    }

    /** A block of at least `size` bytes that was free, or 0 exactly if no free region could hold them. */
    method KernelRequest(size: nat) returns (block: nat)
      requires Valid() && 0 < size
      modifies this, free, free.heads, free.slots, shadow
      ensures Valid() && (block != 0 <==> old(Fits(ThePool(), size)))
      ensures block != 0 ==> Used(ThePool(), block) && !old(Used(ThePool(), block)) && size <= Pow2(blocks[block])
      ensures var (q, r) := Request(old(ThePool()), RequestOrder(size));
              ThePool() == q && block == if r.Some? then r.value else 0
    {
      RequestServes(ThePool(), lo, hi, size);
      var order := Log2(size);
      if Pow2(Log2(size)) != size { order := order + 1; }
      if order < PAGE_LOG2 { order := PAGE_LOG2; }
      if order >= MAX_ORDER { return 0; }
      var hiMask := ClearLow(free.mask, order);
      MaskSearch(free.mask, free.lists, order);
      if hiMask == 0 { return 0; }
      var curr := Ctz(hiMask);
      block := TakeBlock(curr, order);
    }

    /** Pop a block of order curr and halve it down to the wanted order. */
    method TakeBlock(first: nat, order: nat) returns (block: nat)
      requires Valid() && PAGE_LOG2 <= order <= first < MAX_ORDER && free.lists[first] != []
      modifies this, free, free.heads, free.slots, shadow
      ensures Valid() && block == old(free.lists[first])[0]
      ensures ThePool() == Split(Pop(old(ThePool()), first), block, first, order)
    {
      hide Tiling, Canonical, Agrees, FreeLists.Valid;
      var curr := first;
      block := PopBlock(curr);
      ghost var p1 := ThePool();
      while curr > order
        invariant order <= curr <= first && Shaped()
        invariant Detached(ThePool(), lo, hi, block, curr)
        invariant Agrees(frames, shadow[..], ThePool(), {block})
        invariant Split(ThePool(), block, curr, order) == Split(p1, block, first, order)
      {
        curr := curr - 1;
        SplitOff(block, curr);
      }
      BlockIsPage(ThePool(), block);
      Retag(frames, shadow[..], ThePool(), ThePool(), {block}, block);
      assert {block} - {block} == {};
      SetTag(block, UsedTag(order));
    }

    method PopBlock(k: nat) returns (block: nat)
      requires Valid() && k < MAX_ORDER && free.lists[k] != []
      modifies free, free.heads
      ensures Shaped() && block == old(free.lists[k])[0] && ThePool() == Pop(old(ThePool()), k)
      ensures Detached(ThePool(), lo, hi, block, k)
      ensures Agrees(frames, shadow[..], ThePool(), {block})
    {
      hide Tiling, Canonical, Agrees;
      ghost var p, q := ThePool(), Pop(ThePool(), k);
      PopDetaches(p, lo, hi, k);
      PopShadow(p, lo, hi, k);
      block := free.Pop(k);
      assert ThePool() == q;
      Weaken(frames, shadow[..], p, {}, {block});
      Carry(frames, shadow[..], p, q, {block});
    }

    /** Halve the detached block: the upper half goes on free list k. */
    method SplitOff(block: nat, k: nat)
      requires Shaped() && Detached(ThePool(), lo, hi, block, k + 1) && PAGE_LOG2 <= k < MAX_ORDER
      requires Agrees(frames, shadow[..], ThePool(), {block})
      modifies this, free, free.heads, free.slots, shadow
      ensures Shaped() && Detached(ThePool(), lo, hi, block, k)
      ensures Agrees(frames, shadow[..], ThePool(), {block})
      ensures ThePool() == AddBlock(old(ThePool()).(order := old(blocks)[block := k]), FlipBit(block, k), k)
    {
      hide Inv, Detached, Agrees, FreeLists.Valid, ShadowByte, Free, SameUsedBut;
      ghost var p := ThePool();
      var buddy := FlipBit(block, k);
      SplitStep(p, lo, hi, block, k + 1);
      ghost var q := AddBlock(p.(order := p.order[block := k]), buddy, k);
      BlockIsPage(q, buddy);
      SplitShadow(p, lo, hi, block, k);
      Retag(frames, shadow[..], p, q, {block}, buddy);
      assert {block} - {buddy} == {block};
      BuddyNotListed(block, k);
      blocks := blocks[block := k][buddy := k];
      free.Push(k, buddy);
      assert ThePool() == q;
      SetTag(buddy, FreeTag(k));
    }

    lemma BuddyNotListed(a: nat, k: nat)
      requires Detached(ThePool(), lo, hi, a, k + 1) && PAGE_LOG2 <= k
      ensures !free.OnSomeList(FlipBit(a, k))
    {
      SplitStep(ThePool(), lo, hi, a, k + 1);
      hide Tiling, Canonical;
      NotListed(ThePool(), FlipBit(a, k));
    }

    lemma NotListed(p: Pool, a: nat)
      requires p == ThePool() && ListsOk(p) && !Free(p, a)
      ensures !free.OnSomeList(a)
    {}

    lemma BlockIsPage(p: Pool, a: nat)
      requires Shadows(frames, lo, hi) && Inv(p, lo, hi) && a in p.order
      ensures frames.IsPage(a) && InRange(a) && (frames.base + frames.Slot(a)) * PAGE_SIZE == a
    {
      AlignedDown(a, p.order[a], PAGE_LOG2);
      AlignedPage(a);
    }

    lemma BlockAligned(a: nat)
      requires Inv(ThePool(), lo, hi) && a in blocks
      ensures a % PAGE_SIZE == 0
    {
      AlignedDown(a, blocks[a], PAGE_LOG2);
      AlignedPage(a);
    }

    /** Any argument that is not strictly inside the first page of a block in use. */
    method KernelFree(address: nat)
      requires Valid() && (address % PAGE_SIZE == 0 || !Used(ThePool(), address - address % PAGE_SIZE))
      modifies this, free, free.heads, free.slots, shadow
      ensures Valid() && ThePool() == Release(old(ThePool()), address)
    {
      hide Tiling, Canonical, Agrees, FreeLists.Valid, ShadowByte, Merge;
      if !InRange(address) {
        if address in blocks { BlockIsPage(ThePool(), address); }
        return;
      }
      var s := shadow[address / PAGE_SIZE - frames.base];
      ghost var page := address - address % PAGE_SIZE;
      assert page % PAGE_SIZE == 0 && page / PAGE_SIZE == address / PAGE_SIZE;
      ReadTag(frames, shadow[..], ThePool(), {}, page);
      TagMeaning(ThePool(), lo, hi, page);
      if address in blocks { BlockAligned(address); }
      if s == 0 || s >= FREE_FLAG { return; }
      PutBack(address, s % ORDER_MASK);
    }

    /** Coalesce the used block upward, then push it. */
    method PutBack(address0: nat, order0: nat)
      requires Valid() && Used(ThePool(), address0) && blocks[address0] == order0 < MAX_ORDER
      modifies this, free, free.heads, free.slots, shadow
      ensures Valid() && ThePool() == Merge(old(ThePool()), address0, order0)
    {
      hide Tiling, Canonical, Agrees, FreeLists.Valid;
      var address, order, more := address0, order0, true;
      ghost var p0 := ThePool();
      Weaken(frames, shadow[..], p0, {}, {address});
      while more && order + 1 < MAX_ORDER
        invariant order < MAX_ORDER && Shaped()
        invariant Detached(ThePool(), lo, hi, address, order)
        invariant Agrees(frames, shadow[..], ThePool(), {address})
        invariant Merge(ThePool(), address, order) == Merge(p0, address0, order0)
        invariant !more ==> FlipBit(address, order) !in free.lists[order]
        decreases MAX_ORDER - order, more
      {
        address, order, more := TryMerge(address, order);
      }
      if order == MAX_ORDER - 1 { TopOrderHasNoBuddy(ThePool(), lo, hi, address); }
      Finish(address, order);
    }

    method TryMerge(a: nat, k: nat) returns (address: nat, order: nat, merged: bool)
      requires Shaped() && Detached(ThePool(), lo, hi, a, k) && k + 1 < MAX_ORDER
      requires Agrees(frames, shadow[..], ThePool(), {a})
      modifies this, free, free.heads, free.slots, shadow
      ensures Shaped() && order < MAX_ORDER && Detached(ThePool(), lo, hi, address, order)
      ensures Agrees(frames, shadow[..], ThePool(), {address})
      ensures Merge(ThePool(), address, order) == Merge(old(ThePool()), a, k)
      ensures merged ==> order == k + 1
      ensures !merged ==> address == a && order == k && FlipBit(a, k) !in free.lists[k]
    {
      hide Tiling, Canonical, Agrees, FreeLists.Valid;
      var buddy := FlipBit(a, k);
      address, order, merged := a, k, false;
      BuddyTag(a, k);
      if !InRange(buddy) { return; }
      if shadow[buddy / PAGE_SIZE - frames.base] != FreeTag(k) { return; }
      Coalesce(a, k, buddy);
      address, order, merged := Lower(a, buddy), k + 1, true;
    }

    /** The buddy leaves its list; only the lower head survives, one order up. */
    method Coalesce(a: nat, k: nat, buddy: nat)
      requires Shaped() && Detached(ThePool(), lo, hi, a, k) && k + 1 < MAX_ORDER
      requires Agrees(frames, shadow[..], ThePool(), {a})
      requires buddy == FlipBit(a, k) && buddy in free.lists[k]
      modifies this, free, free.heads, free.slots, shadow
      ensures Shaped() && ThePool() == Join(old(ThePool()), a, buddy, k)
      ensures Detached(ThePool(), lo, hi, Lower(a, buddy), k + 1)
      ensures Agrees(frames, shadow[..], ThePool(), {Lower(a, buddy)})
    {
      hide Tiling, Canonical, Agrees, FreeLists.Valid;
      ghost var p, q := ThePool(), Join(ThePool(), a, buddy, k);
      JoinStep(p, lo, hi, a, k);
      JoinShadow(p, lo, hi, a, k);
      BlockIsPage(p, a);
      BlockIsPage(p, buddy);
      Weaken(frames, shadow[..], p, {a}, {a, buddy});
      var higher := if a < buddy then buddy else a;
      Retag(frames, shadow[..], p, q, {a, buddy}, higher);
      var found := free.Unlink(k, buddy);
      SetTag(higher, 0);
      blocks := (blocks - {higher})[Lower(a, buddy) := k + 1];
      assert ThePool() == q;
    }

    /** The buddy is on list k exactly when it is in range and its shadow byte is k | FREE. */
    lemma BuddyTag(a: nat, k: nat)
      requires Shaped() && Detached(ThePool(), lo, hi, a, k) && k < MAX_ORDER
      requires Agrees(frames, shadow[..], ThePool(), {a})
      ensures var b := FlipBit(a, k);
              b in free.lists[k] <==> InRange(b) && shadow[b / PAGE_SIZE - frames.base] == FreeTag(k)
    {
      hide Canonical, Agrees, FreeLists.Valid, ShadowByte;
      var b := FlipBit(a, k);
      assert Aligned(a, blocks[a]);
      FlipAligned(a, k);
      AlignedDown(b, k, PAGE_LOG2);
      AlignedPage(b);
      TagMeaning(ThePool(), lo, hi, b);
      if b in free.lists[k] { BlockIsPage(ThePool(), b); }
      if InRange(b) && b != a { ReadTag(frames, shadow[..], ThePool(), {a}, b); }
    }

    method Finish(a: nat, k: nat)
      requires Shaped() && k < MAX_ORDER && Detached(ThePool(), lo, hi, a, k)
      requires Agrees(frames, shadow[..], ThePool(), {a}) && FlipBit(a, k) !in free.lists[k]
      modifies this, free, free.heads, free.slots, shadow
      ensures Valid() && ThePool() == Push(old(ThePool()), a, k)
    {
      hide Tiling, Canonical, Agrees, FreeLists.Valid;
      ghost var p, q := ThePool(), Push(ThePool(), a, k);
      PushKeepsInv(p, lo, hi, a, k);
      PushShadow(p, lo, hi, a, k);
      BlockIsPage(p, a);
      Retag(frames, shadow[..], p, q, {a}, a);
      assert {a} - {a} == {};
      NotListed(p, a);
      free.Push(k, a);
      assert ThePool() == q;
      SetTag(a, FreeTag(k));
    }
  }
}
