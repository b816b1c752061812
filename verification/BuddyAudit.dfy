/**
 The buddy allocator's read-only walks: the free-page counter behind the memory
 statistics, and the allocator's own consistency check of lists against shadow.
 */
module BuddyAudit {
  import opened Sequences
  import opened BuddySpec
  import opened BuddyTheorems
  import opened InlineLists
  import opened Buddy

  function TotalListed(lists: seq<seq<nat>>, k: nat): nat
    requires k <= |lists|
    decreases |lists| - k
  {
    if k == |lists| then 0 else |lists[k]| + TotalListed(lists, k + 1)
  }

  ghost function ListedFrom(lists: seq<seq<nat>>, k: nat): set<nat>
    requires k <= |lists|
    decreases |lists| - k
  {
    if k == |lists| then {} else Elements(lists[k]) + ListedFrom(lists, k + 1)
  }

  lemma {:induction false} ElementsSize(s: seq<nat>)
    requires NoDup(s)
    ensures |Elements(s)| == |s|
  {
    if s != [] {
      PopMembers(s);
      ElementsSize(s[1..]);
      assert Elements(s) == Elements(s[1..]) + {s[0]};
      assert s[0] !in Elements(s[1..]);
    }
  }

  /** No address is on the lists twice. */
  ghost predicate Apart(lists: seq<seq<nat>>) {
    && (forall k :: 0 <= k < |lists| ==> NoDup(lists[k]))
    && (forall j, k, a :: 0 <= j < |lists| && 0 <= k < |lists| && a in lists[j] && a in lists[k] ==> j == k)
  }

  lemma {:induction false} ListedMember(lists: seq<seq<nat>>, k: nat, a: nat)
    requires k <= |lists|
    ensures a in ListedFrom(lists, k) <==> exists j :: k <= j < |lists| && a in lists[j]
    decreases |lists| - k
  {
    if k < |lists| { ListedMember(lists, k + 1, a); }
  }

  lemma {:induction false} ListedSize(lists: seq<seq<nat>>, k: nat)
    requires Apart(lists) && k <= |lists|
    ensures |ListedFrom(lists, k)| == TotalListed(lists, k)
    decreases |lists| - k
  {
    hide Apart, NoDup, Elements;
    if k < |lists| {
      ListedSize(lists, k + 1);
      RestApart(lists, k);
      ElementsSize(lists[k]);
      UnionSize(Elements(lists[k]), ListedFrom(lists, k + 1));
    }
  }

  lemma RestApart(lists: seq<seq<nat>>, k: nat)
    requires Apart(lists) && k < |lists|
    ensures NoDup(lists[k]) && Elements(lists[k]) !! ListedFrom(lists, k + 1)
  {
    hide ListedFrom, NoDup;
    forall a: nat | a in Elements(lists[k]) ensures a !in ListedFrom(lists, k + 1) {
      ListedMember(lists, k + 1, a);
    }
  }

  ghost function Address(frames: Frames, i: nat): nat { (frames.base + i) * PAGE_SIZE }

  ghost function Addresses(frames: Frames, idx: set<nat>): set<nat> {
    set i | i in idx :: Address(frames, i)
  }

  lemma {:induction false} AddressesSize(frames: Frames, idx: set<nat>)
    ensures |Addresses(frames, idx)| == |idx|
    decreases |idx|
  {
    if idx != {} {
      var i :| i in idx;
      var rest := idx - {i};
      AddressesSize(frames, rest);
      forall a ensures a in Addresses(frames, idx) <==> a in Addresses(frames, rest) || a == Address(frames, i) {
        if a == Address(frames, i) { assert i in idx; }
        if a in Addresses(frames, idx) {
          var j :| j in idx && a == Address(frames, j);
          assert j == i || j in rest;
        }
      }
      assert Addresses(frames, idx) == Addresses(frames, rest) + {Address(frames, i)};
    }
  }

  /** Frame j's shadow byte carries the free flag exactly when its address is on a list. */
  lemma FlagMeansListed(frames: Frames, shadow: seq<nat>, p: Pool, lo: nat, hi: nat, j: nat)
    requires Inv(p, lo, hi) && Agrees(frames, shadow, p, {}) && j < frames.count
    ensures HasFlag(shadow[j]) <==> Free(p, Address(frames, j))
  {
    var a := Address(frames, j);
    assert (frames.base + j) * PAGE_SIZE !in {};
    assert shadow[j] == ShadowByte(p, a);
    TagMeaning(p, lo, hi, a);
  }

  // ---- what the check decides ----------------------------------------------------------------

  /** The shadow byte of p says: a free block of order k. */
  ghost predicate TagOk(frames: Frames, shadow: seq<nat>, k: nat, p: nat) {
    && frames.base <= p / PAGE_SIZE < frames.base + frames.count && |shadow| == frames.count
    && shadow[p / PAGE_SIZE - frames.base] == FreeTag(k)
  }

  /** The test of bit 6. */
  predicate HasFlag(s: nat) { s / FREE_FLAG % 2 == 1 }

  /** The frames whose shadow byte carries the free flag. */
  ghost function Flagged(shadow: seq<nat>): set<nat> {
    set j: nat | j < |shadow| && HasFlag(shadow[j])
  }

  ghost predicate AllTagged(frames: Frames, shadow: seq<nat>, lists: seq<seq<nat>>) {
    forall k, p :: 0 <= k < |lists| && p in lists[k] ==> TagOk(frames, shadow, k, p)
  }

  /** Lists and free flags name the same blocks, with the same orders. */
  ghost predicate Consistent(frames: Frames, shadow: seq<nat>, lists: seq<seq<nat>>) {
    && AllTagged(frames, shadow, lists)
    && forall j: nat :: j in Flagged(shadow) ==> exists k :: 0 <= k < |lists| && Address(frames, j) in lists[k]
  }

  ghost predicate AllPages(lists: seq<seq<nat>>) {
    forall k, p :: 0 <= k < |lists| && p in lists[k] ==> p % PAGE_SIZE == 0
  }

  lemma TaggedIsFlagged(frames: Frames, shadow: seq<nat>, k: nat, a: nat)
    requires TagOk(frames, shadow, k, a) && a % PAGE_SIZE == 0
    ensures a in Addresses(frames, Flagged(shadow))
  {
    var j: nat := a / PAGE_SIZE - frames.base;
    assert HasFlag(shadow[j]);
    assert j in Flagged(shadow) && Address(frames, j) == a;
  }

  /** Once every listed block is tagged, the counts agree exactly if no other byte is flagged. */
  lemma CountsAgree(frames: Frames, shadow: seq<nat>, lists: seq<seq<nat>>)
    requires Apart(lists) && AllTagged(frames, shadow, lists) && AllPages(lists)
    ensures TotalListed(lists, 0) == |Flagged(shadow)| <==> Consistent(frames, shadow, lists)
  {
    hide Flagged, Address, ListedFrom, TagOk, Apart, TotalListed;
    var flagged, listed := Addresses(frames, Flagged(shadow)), ListedFrom(lists, 0);
    ListedSize(lists, 0);
    AddressesSize(frames, Flagged(shadow));
    forall a | a in listed ensures a in flagged {
      ListedMember(lists, 0, a);
      var k :| 0 <= k < |lists| && a in lists[k];
      TaggedIsFlagged(frames, shadow, k, a);
    }
    if |listed| == |flagged| {
      SameSet(listed, flagged);
      forall j: nat | j in Flagged(shadow) ensures exists k :: 0 <= k < |lists| && Address(frames, j) in lists[k] {
        assert Address(frames, j) in flagged;
        ListedMember(lists, 0, Address(frames, j));
      }
    }
    if Consistent(frames, shadow, lists) {
      forall a | a in flagged ensures a in listed {
        var j :| j in Flagged(shadow) && a == Address(frames, j);
        ListedMember(lists, 0, a);
      }
      assert listed == flagged;
    }
  }

  lemma SameSet(a: set<nat>, b: set<nat>)
    requires a <= b && |a| == |b|
    ensures a == b
  {
    assert b == a + (b - a);
    UnionSize(a, b - a);
  }

  lemma ListedIsTagged(b: KernelBuddy, k: nat, p: nat)
    requires b.Valid() && k < MAX_ORDER && p in b.free.lists[k]
    ensures TagOk(b.frames, b.shadow[..], k, p)
  {
    hide Tiling, Canonical, Agrees, ShadowByte, FreeLists.Valid;
    b.BlockIsPage(b.ThePool(), p);
    ReadTag(b.frames, b.shadow[..], b.ThePool(), {}, p);
    TagMeaning(b.ThePool(), b.lo, b.hi, p);
  }

  /** The lists of the allocator are threaded through pages, whatever the shadow says. */
  lemma ListsThreaded(b: KernelBuddy)
    requires b.Shaped()
    ensures Apart(b.free.lists) && AllPages(b.free.lists)
  {
    forall k, p | 0 <= k < |b.free.lists| && p in b.free.lists[k] ensures p % PAGE_SIZE == 0 {
      b.frames.Thread(b.free.slots[..], b.free.heads[..], b.free.lists, k);
      b.frames.SpellsLength(b.free.slots[..], b.free.heads[k], b.free.lists[k]);
    }
  }

  /** Visit free list k: how many blocks it holds, and whether a shadow byte disagrees. */
  method WalkList(b: KernelBuddy, k: nat) returns (n: nat, mismatches: nat)
    requires b.Shaped() && k < MAX_ORDER
    ensures n == |b.free.lists[k]|
    ensures mismatches == 0 <==> forall p :: p in b.free.lists[k] ==> TagOk(b.frames, b.shadow[..], k, p)
  {
    hide Inv, Agrees;
    ghost var list := b.free.lists[k];
    b.frames.Thread(b.free.slots[..], b.free.heads[..], b.free.lists, k);
    n, mismatches := 0, 0;
    var p := b.free.heads[k];
    while p != 0
      invariant n <= |list| && p == At(list, n)
      invariant mismatches == 0 <==> forall i :: 0 <= i < n ==> TagOk(b.frames, b.shadow[..], k, list[i])
      decreases |list| - n
    {
      assert list[n] == p;
      n := n + 1;
      var tagged := b.InRange(p) && b.shadow[p / PAGE_SIZE - b.frames.base] == FreeTag(k);
      mismatches := mismatches + if tagged then 0 else 1;
      p := b.free.slots[b.frames.Slot(p)];
    }
    assert forall i :: 0 <= i < |list| ==> b.frames.IsPage(list[i]);
    assert n == |list|;
  }

  /** The free-page counter: the number of page frames in free blocks. */
  method CountFreePages(b: KernelBuddy) returns (pages: nat)
    requires b.Valid()
    ensures pages == |FreeFrames(b.ThePool(), b.hi)|
  {
    hide Tiling, Canonical, Agrees, FreeLists.Valid, PagesOf, FreeFrames;
    pages := 0;
    for k := 0 to MAX_ORDER
      invariant pages + FreePages(b.free.lists, k) == FreePages(b.free.lists, 0)
    {
      var n, _ := WalkList(b, k);
      pages := pages + n * PagesOf(k);
    }
    FreePagesCountsFrames(b.ThePool(), b.lo, b.hi);
  }

  /** Tally the shadow bytes: heads in use, and all heads. */
  method TallyShadow(b: KernelBuddy) returns (usedCount: nat, shadowCount: nat)
    requires b.Shaped()
    ensures shadowCount == usedCount + |Flagged(b.shadow[..])|
  {
    hide Inv, Agrees, FreeLists.Valid;
    usedCount, shadowCount := 0, 0;
    ghost var flagged: set<nat> := {};
    for i := 0 to b.frames.count
      invariant forall j: nat :: j in flagged <==> j < i && HasFlag(b.shadow[j])
      invariant shadowCount == usedCount + |flagged|
    {
      var s := b.shadow[i];
      if s != 0 {
        shadowCount := shadowCount + 1;
        if !HasFlag(s) {
          usedCount := usedCount + 1;
        } else {
          flagged := flagged + {i};
        }
      }
    }
    assert flagged == Flagged(b.shadow[..]);
  }

  /** The allocator's own check, whatever the shadow holds: it succeeds exactly if lists and flags agree. */
  method VerifyShadow(b: KernelBuddy) returns (ok: bool)
    requires b.Shaped()
    ensures ok <==> Consistent(b.frames, b.shadow[..], b.free.lists)
  {
    hide FreeLists.Valid, TagOk;
    var freeCount, mismatches := 0, 0;
    for k := 0 to MAX_ORDER
      invariant freeCount + TotalListed(b.free.lists, k) == TotalListed(b.free.lists, 0)
      invariant mismatches == 0 <==> forall j, p :: 0 <= j < k && p in b.free.lists[j] ==> TagOk(b.frames, b.shadow[..], j, p)
    {
      var n, m := WalkList(b, k);
      freeCount, mismatches := freeCount + n, mismatches + m;
    }
    var usedCount, shadowCount := TallyShadow(b);
    ok := freeCount + usedCount == shadowCount && mismatches == 0;
    ListsThreaded(b);
    if mismatches == 0 { CountsAgree(b.frames, b.shadow[..], b.free.lists); }
  }

  /** So it succeeds in every reachable state. */
  lemma ReachableConsistent(b: KernelBuddy)
    requires b.Valid()
    ensures Consistent(b.frames, b.shadow[..], b.free.lists)
  {
    hide Tiling, Canonical, Agrees, ShadowByte, FreeLists.Valid, TagOk;
    forall k, p | 0 <= k < |b.free.lists| && p in b.free.lists[k] ensures TagOk(b.frames, b.shadow[..], k, p) {
      ListedIsTagged(b, k, p);
    }
    forall j: nat | j in Flagged(b.shadow[..])
      ensures exists k :: 0 <= k < |b.free.lists| && Address(b.frames, j) in b.free.lists[k]
    {
      FlagMeansListed(b.frames, b.shadow[..], b.ThePool(), b.lo, b.hi, j);
      assert Free(b.ThePool(), Address(b.frames, j));
    }
  }
}
