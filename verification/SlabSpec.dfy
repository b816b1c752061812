/**
 A slab cache on values: slabs of equal slots, one bitmap bit per slot, and three lists that
 sort the slabs by how many slots are free.
 */
module SlabSpec {
  import opened Words
  import opened Sequences

  type Id = nat                      // the address of a slab header

  datatype Slab = Slab(start: nat, free: nat, bitmap: seq<nat>)

  /** span: bytes of one slab; size: bytes of one slot. */
  datatype Cache = Cache(size: nat, slots: nat, span: nat,
                         full: seq<Id>, partial: seq<Id>, empty: seq<Id>, slabs: map<Id, Slab>)

  predicate IsSet(bitmap: seq<nat>, s: nat) {
    s / 64 < |bitmap| && Bit(bitmap[s / 64], s % 64)
  }

  function Used(bitmap: seq<nat>): set<nat> {
    set s: nat | s < 64 * |bitmap| && IsSet(bitmap, s)
  }

  function Words64(slots: nat): nat {
    if slots % 64 == 0 then slots / 64 else slots / 64 + 1
  }

  /** As few words as have a bit for every slot. */
  lemma WordsFit(slots: nat)
    ensures slots <= 64 * Words64(slots) < slots + 64
  {}

  ghost predicate WordsOk(bitmap: seq<nat>) {
    forall i :: 0 <= i < |bitmap| ==> bitmap[i] < WORD_LIMIT
  }

  /** Set bits are slots in use, all below `slots`; the counter counts the others. */
  ghost predicate SlabOk(c: Cache, sl: Slab) {
    && |sl.bitmap| == Words64(c.slots) && WordsOk(sl.bitmap)
    && (forall s :: s in Used(sl.bitmap) ==> s < c.slots)
    && |Used(sl.bitmap)| + sl.free == c.slots
  }

  ghost predicate ListsOk(c: Cache) {
    && NoDup(c.full) && NoDup(c.partial) && NoDup(c.empty)
    && (forall id :: id in c.full <==> id in c.slabs && c.slabs[id].free == 0)
    && (forall id :: id in c.partial <==> id in c.slabs && 0 < c.slabs[id].free < c.slots)
    && (forall id :: id in c.empty <==> id in c.slabs && c.slabs[id].free == c.slots)
  }

  ghost predicate Apart(a: nat, b: nat, span: nat) { a + span <= b || b + span <= a }

  ghost predicate Shaped(c: Cache) {
    && c.size > 0 && c.slots > 0 && c.slots * c.size <= c.span
    && (forall i, j :: i in c.slabs && j in c.slabs && i != j ==> Apart(c.slabs[i].start, c.slabs[j].start, c.span))
  }

  ghost predicate Inv(c: Cache) {
    Shaped(c) && ListsOk(c) && forall id :: id in c.slabs ==> SlabOk(c, c.slabs[id])
  }

  // ---- operations -------------------------------------------------------------------------------

  function Flip(bitmap: seq<nat>, s: nat): seq<nat>
    requires s / 64 < |bitmap|
  {
    bitmap[s / 64 := FlipBit(bitmap[s / 64], s % 64)]
  }

  /** Slot s of the first partial slab; a slab with no slot left moves to the full list. */
  function TakePartial(c: Cache, s: nat): Cache
    requires c.partial != [] && c.partial[0] in c.slabs && s / 64 < |c.slabs[c.partial[0]].bitmap|
    requires c.slabs[c.partial[0]].free > 0
  {
    var id := c.partial[0];
    var sl := c.slabs[id].(free := c.slabs[id].free - 1, bitmap := Flip(c.slabs[id].bitmap, s));
    var d := c.(slabs := c.slabs[id := sl]);
    if sl.free == 0 then d.(partial := Remove(c.partial, id), full := [id] + c.full) else d
  }

  /** Slot 0 of the first empty slab, which moves to the partial list. */
  function TakeEmpty(c: Cache): Cache
    requires c.empty != [] && c.empty[0] in c.slabs && c.slabs[c.empty[0]].bitmap != [] && c.slabs[c.empty[0]].free > 0
  {
    var id := c.empty[0];
    var sl := c.slabs[id].(free := c.slabs[id].free - 1, bitmap := c.slabs[id].bitmap[0 := 1]);
    c.(slabs := c.slabs[id := sl], empty := c.empty[1..], partial := [id] + c.partial)
  }

  function GiveBack(c: Cache, id: Id, s: nat): Cache
    requires id in c.slabs && s / 64 < |c.slabs[id].bitmap|
  {
    var sl := c.slabs[id].(free := c.slabs[id].free + 1, bitmap := Flip(c.slabs[id].bitmap, s));
    var d := c.(slabs := c.slabs[id := sl]);
    var e := if sl.free == 1 then d.(full := Remove(d.full, id), partial := [id] + d.partial) else d;
    if sl.free == c.slots then e.(partial := Remove(e.partial, id), empty := [id] + e.empty) else e
  }

  function NewSlab(c: Cache, id: Id, start: nat): Cache {
    c.(slabs := c.slabs[id := Slab(start, c.slots, seq(Words64(c.slots), _ => 0))], empty := [id] + c.empty)
  }

  // ---- bitmaps -------------------------------------------------------------------------------------

  lemma {:induction false} FlipBound(w: nat, k: nat, n: nat)
    requires w < Pow2(n) && k < n
    ensures FlipBit(w, k) < Pow2(n)
    decreases k
  {
    var p := Pow2(n - 1);
    assert w / 2 < p;
    if k > 0 { FlipBound(w / 2, k - 1, n - 1); }
  }

  lemma FlipUsed(bitmap: seq<nat>, s: nat)
    requires s / 64 < |bitmap| && WordsOk(bitmap)
    ensures WordsOk(Flip(bitmap, s))
    ensures Used(Flip(bitmap, s)) == if s in Used(bitmap) then Used(bitmap) - {s} else Used(bitmap) + {s}
  {
    var n: nat := 64;
    LimitIsPow2();
    FlipBound(bitmap[s / 64], s % 64, n);
    forall r: nat ensures IsSet(Flip(bitmap, s), r) <==> (r == s) != IsSet(bitmap, r) { FlipSets(bitmap, s, r); }
  }

  lemma FlipSets(bitmap: seq<nat>, s: nat, r: nat)
    requires s / 64 < |bitmap|
    ensures IsSet(Flip(bitmap, s), r) <==> (r == s) != IsSet(bitmap, r)
  {
    if r / 64 == s / 64 { BitOfFlip(bitmap[s / 64], s % 64, r % 64); }
  }

  /** Writing 1 over the first word of an unused bitmap marks slot 0 only. */
  lemma FirstUsed(bitmap: seq<nat>)
    requires bitmap != [] && Used(bitmap) == {}
    ensures Used(bitmap[0 := 1]) == {0}
  {
    var after := bitmap[0 := 1];
    forall r: nat ensures IsSet(after, r) <==> r == 0 {
      if r / 64 == 0 { BitOfOne(r); } else { assert IsSet(bitmap, r) ==> r in Used(bitmap); }
    }
  }

  lemma BitOfOne(j: nat)
    ensures Bit(1, j) <==> j == 0
  {
    if j > 0 { ZeroBit(j - 1); }
  }

  lemma ZeroesUnused(n: nat)
    ensures Used(seq(n, _ => 0)) == {} && WordsOk(seq(n, _ => 0))
  {
    var b := seq(n, _ => 0);
    forall r: nat ensures !IsSet(b, r) { if r / 64 < n { ZeroBit(r % 64); } }
  }

  lemma Cardinal(u: set<nat>, s: nat)
    ensures s in u ==> |u - {s}| == |u| - 1
    ensures s !in u ==> |u + {s}| == |u| + 1
  {}

  // ---- each operation keeps the invariant --------------------------------------------------------

  lemma OthersOk(c: Cache, d: Cache, id: Id, sl: Slab)
    requires Inv(c) && id in c.slabs && sl.start == c.slabs[id].start && d.slabs == c.slabs[id := sl]
    requires d.size == c.size && d.slots == c.slots && d.span == c.span && SlabOk(d, sl)
    ensures Shaped(d) && forall i :: i in d.slabs ==> SlabOk(d, d.slabs[i])
  {
    forall i | i in d.slabs ensures SlabOk(d, d.slabs[i]) { assert i != id ==> SlabOk(c, c.slabs[i]); }
  }

  lemma SlotWord(c: Cache, sl: Slab, s: nat)
    requires SlabOk(c, sl) && s < c.slots
    ensures s / 64 < |sl.bitmap|
  {}

  /** The flipped slab, taken or given back. */
  lemma FlippedOk(c: Cache, sl: Slab, s: nat, free: nat)
    requires SlabOk(c, sl) && s < c.slots && s / 64 < |sl.bitmap|
    requires if s in Used(sl.bitmap) then free == sl.free + 1 else free == sl.free - 1
    ensures SlabOk(c, sl.(free := free, bitmap := Flip(sl.bitmap, s)))
  {
    FlipUsed(sl.bitmap, s);
    Cardinal(Used(sl.bitmap), s);
    hide Flip, Used;
  }

  lemma TakePartialKeeps(c: Cache, s: nat)
    requires Inv(c) && c.partial != [] && c.partial[0] in c.slabs && s / 64 < |c.slabs[c.partial[0]].bitmap|
    requires s < c.slots && s !in Used(c.slabs[c.partial[0]].bitmap) && c.slabs[c.partial[0]].free > 0
    ensures Inv(TakePartial(c, s))
  {
    hide Used, Flip, Apart;
    var id := c.partial[0];
    var d := TakePartial(c, s);
    assert SlabOk(c, c.slabs[id]);
    FlippedOk(c, c.slabs[id], s, c.slabs[id].free - 1);
    OthersOk(c, d, id, d.slabs[id]);
    TakePartialLists(c, s);
  }

  lemma TakePartialLists(c: Cache, s: nat)
    requires ListsOk(c) && c.partial != [] && c.partial[0] in c.slabs && s / 64 < |c.slabs[c.partial[0]].bitmap|
    requires c.slabs[c.partial[0]].free > 0
    ensures ListsOk(TakePartial(c, s))
  {
    hide Flip;
    var id := c.partial[0];
    assert id in c.partial && id !in c.full;
    RemoveMembers(c.partial, id);
    PushMembers(c.full, id);
  }

  /** The move to the partial list is right exactly when the slab has a second slot. */
  lemma TakeEmptyKeeps(c: Cache)
    requires Inv(c) && c.empty != [] && c.empty[0] in c.slabs && c.slabs[c.empty[0]].bitmap != [] && c.slabs[c.empty[0]].free > 0
    ensures Inv(TakeEmpty(c)) <==> c.slots > 1
  {
    hide Apart, Used;
    var id := c.empty[0];
    var d := TakeEmpty(c);
    assert id in c.empty && id !in c.partial && SlabOk(c, c.slabs[id]);
    FirstTaken(c, d, c.slabs[id]);
    OthersOk(c, d, id, d.slabs[id]);
    hide SlabOk;
    PopMembers(c.empty);
    PushMembers(c.partial, id);
    assert id in d.partial;
  }

  lemma FirstTaken(c: Cache, d: Cache, sl: Slab)
    requires SlabOk(c, sl) && sl.free == c.slots == d.slots && sl.free > 0 && sl.bitmap != []
    ensures SlabOk(d, sl.(free := sl.free - 1, bitmap := sl.bitmap[0 := 1]))
  {
    NoneUsed(c, sl);
    FirstUsed(sl.bitmap);
    hide Used;
  }

  lemma NoneUsed(c: Cache, sl: Slab)
    requires SlabOk(c, sl) && sl.free == c.slots
    ensures Used(sl.bitmap) == {}
  {
    hide Used;
  }

  lemma GiveBackKeeps(c: Cache, id: Id, s: nat)
    requires Inv(c) && id in c.slabs && s / 64 < |c.slabs[id].bitmap| && s in Used(c.slabs[id].bitmap)
    ensures Inv(GiveBack(c, id, s))
  {
    hide Used, Flip, Apart;
    var d := GiveBack(c, id, s);
    assert SlabOk(c, c.slabs[id]);
    FlippedOk(c, c.slabs[id], s, c.slabs[id].free + 1);
    OthersOk(c, d, id, d.slabs[id]);
    SomeUsed(Used(c.slabs[id].bitmap), s);
    assert c.slabs[id].free < c.slots;
    hide SlabOk;
    GiveBackLists(c, id, s);
  }

  /** Giving back a slot that is not in use, as a double free does, breaks the slab's count. */
  lemma GiveBackExact(c: Cache, id: Id, s: nat)
    requires Inv(c) && id in c.slabs && s / 64 < |c.slabs[id].bitmap|
    ensures Inv(GiveBack(c, id, s)) <==> s in Used(c.slabs[id].bitmap)
  {
    hide Used, Flip, Apart;
    var sl := c.slabs[id];
    if s in Used(sl.bitmap) {
      GiveBackKeeps(c, id, s);
    } else {
      assert SlabOk(c, sl);
      FlipUsed(sl.bitmap, s);
      assert |Used(sl.bitmap) + {s}| == |Used(sl.bitmap)| + 1;
      var d := GiveBack(c, id, s);
      assert !SlabOk(d, d.slabs[id]);
    }
  }

  lemma SomeUsed(u: set<nat>, s: nat)
    requires s in u
    ensures |u| >= 1
  {
    assert |u - {s}| == |u| - 1;
  }

  lemma GiveBackLists(c: Cache, id: Id, s: nat)
    requires ListsOk(c) && c.slots > 0 && id in c.slabs && s / 64 < |c.slabs[id].bitmap| && c.slabs[id].free < c.slots
    ensures ListsOk(GiveBack(c, id, s))
  {
    hide Flip;
    var f := c.slabs[id].free;
    if f == 0 {
      FullLists(c, id, s);
    } else if f + 1 == c.slots {
      RemoveMembers(c.partial, id);
      PushMembers(c.empty, id);
    }
  }

  lemma FullLists(c: Cache, id: Id, s: nat)
    requires ListsOk(c) && c.slots > 0 && id in c.slabs && s / 64 < |c.slabs[id].bitmap| && c.slabs[id].free == 0
    ensures ListsOk(GiveBack(c, id, s))
  {
    hide Flip;
    RemoveMembers(c.full, id);
    if c.slots == 1 {
      PushMembers(c.empty, id);
      assert ([id] + c.partial)[1..] == c.partial;
    } else {
      PushMembers(c.partial, id);
    }
  }

  lemma NewSlabKeeps(c: Cache, id: Id, start: nat)
    requires Inv(c) && id !in c.slabs && forall i :: i in c.slabs ==> Apart(c.slabs[i].start, start, c.span)
    ensures Inv(NewSlab(c, id, start))
  {
    var d := NewSlab(c, id, start);
    ZeroesUnused(Words64(c.slots));
    hide Used;
    PushMembers(c.empty, id);
    forall i | i in d.slabs ensures SlabOk(d, d.slabs[i]) { assert i != id ==> SlabOk(c, c.slabs[i]); }
  }

  /** A cache as it is set up: one slab, all of it free. */
  lemma FirstSlab(size: nat, slots: nat, span: nat, id: Id, start: nat)
    requires size > 0 && slots > 0 && slots * size <= span
    ensures Inv(NewSlab(Cache(size, slots, span, [], [], [], map[]), id, start))
  {
    var c := Cache(size, slots, span, [], [], [], map[]);
    assert Shaped(c) && ListsOk(c);
    NewSlabKeeps(c, id, start);
  }

  // ---- live slots are disjoint ----------------------------------------------------------------------

  ghost predicate Live(c: Cache, id: Id, s: nat) {
    id in c.slabs && s in Used(c.slabs[id].bitmap)
  }

  function Address(c: Cache, id: Id, s: nat): nat
    requires id in c.slabs
  {
    c.slabs[id].start + s * c.size
  }

  lemma SlotAfter(s: nat, r: nat, z: nat)
    requires s < r
    ensures s * z + z <= r * z
  {
    assert r * z == s * z + (r - s) * z;
    MulAtLeast(r - s, z);
  }

  lemma SlotInside(c: Cache, id: Id, s: nat)
    requires Shaped(c) && id in c.slabs && s < c.slots
    ensures c.slabs[id].start <= Address(c, id, s) && Address(c, id, s) + c.size <= c.slabs[id].start + c.span
  {
    SlotAfter(s, c.slots, c.size);
  }

  /** Two live slots never overlap. */
  lemma LiveApart(c: Cache, id: Id, s: nat, jd: Id, r: nat)
    requires Inv(c) && Live(c, id, s) && Live(c, jd, r) && (id != jd || s != r)
    ensures Apart(Address(c, id, s), Address(c, jd, r), c.size)
  {
    assert SlabOk(c, c.slabs[id]) && SlabOk(c, c.slabs[jd]);
    hide Used, ListsOk, SlabOk;
    SlotInside(c, id, s);
    SlotInside(c, jd, r);
    if id != jd {
      assert Apart(c.slabs[id].start, c.slabs[jd].start, c.span);
    } else if s < r {
      SlotAfter(s, r, c.size);
    } else {
      SlotAfter(r, s, c.size);
    }
  }

  // ---- what each operation does to the live slots ---------------------------------------------------

  /** d has the same live slots as c, except that slot s of slab id changed sides. */
  ghost predicate Toggles(c: Cache, d: Cache, id: Id, s: nat) {
    && (Live(d, id, s) <==> !Live(c, id, s))
    && (forall i: Id, r: nat :: (i, r) != (id, s) ==> (Live(d, i, r) <==> Live(c, i, r)))
    && d.size == c.size && d.slots == c.slots && d.span == c.span
    && d.slabs.Keys == c.slabs.Keys && forall i :: i in c.slabs ==> d.slabs[i].start == c.slabs[i].start
  }

  lemma SlotToggles(c: Cache, d: Cache, id: Id, sl: Slab, s: nat)
    requires id in c.slabs && d.slabs == c.slabs[id := sl] && sl.start == c.slabs[id].start
    requires d.size == c.size && d.slots == c.slots && d.span == c.span
    requires Used(sl.bitmap) == (if s in Used(c.slabs[id].bitmap) then Used(c.slabs[id].bitmap) - {s} else Used(c.slabs[id].bitmap) + {s})
    ensures Toggles(c, d, id, s)
  {
    hide Used;
  }

  lemma TakePartialToggles(c: Cache, s: nat)
    requires Inv(c) && c.partial != [] && c.partial[0] in c.slabs && s / 64 < |c.slabs[c.partial[0]].bitmap|
    requires c.slabs[c.partial[0]].free > 0
    ensures Toggles(c, TakePartial(c, s), c.partial[0], s)
  {
    var id, d := c.partial[0], TakePartial(c, s);
    assert SlabOk(c, c.slabs[id]);
    FlipUsed(c.slabs[id].bitmap, s);
    hide Used, Flip, Inv, SlabOk, Toggles;
    SlotToggles(c, d, id, d.slabs[id], s);
  }

  lemma TakeEmptyToggles(c: Cache)
    requires Inv(c) && c.empty != [] && c.empty[0] in c.slabs && c.slabs[c.empty[0]].bitmap != [] && c.slabs[c.empty[0]].free > 0
    ensures Toggles(c, TakeEmpty(c), c.empty[0], 0)
  {
    var id, d := c.empty[0], TakeEmpty(c);
    assert id in c.empty && SlabOk(c, c.slabs[id]);
    NoneUsed(c, c.slabs[id]);
    FirstUsed(c.slabs[id].bitmap);
    hide Used, Inv, SlabOk, Toggles;
    SlotToggles(c, d, id, d.slabs[id], 0);
  }

  lemma GiveBackToggles(c: Cache, id: Id, s: nat)
    requires Inv(c) && id in c.slabs && s / 64 < |c.slabs[id].bitmap|
    ensures Toggles(c, GiveBack(c, id, s), id, s)
  {
    var d := GiveBack(c, id, s);
    assert SlabOk(c, c.slabs[id]);
    FlipUsed(c.slabs[id].bitmap, s);
    hide Used, Flip, Inv, SlabOk, Remove, Toggles;
    SlotToggles(c, d, id, d.slabs[id], s);
  }

  // ---- the slot the search finds ----------------------------------------------------------------------

  function Below(n: nat): (r: set<nat>)
    ensures |r| == n && forall s: nat :: s in r <==> s < n
  {
    if n == 0 then {} else Below(n - 1) + {n - 1}
  }

  lemma SubsetSize(a: set<nat>, b: set<nat>)
    requires a <= b
    ensures |a| <= |b|
    decreases |a|
  {
    if x :| x in a { SubsetSize(a - {x}, b - {x}); }
  }

  /** Padding bits are never set, yet the lowest clear bit of a slab with a free slot is a slot. */
  lemma LowestIsSlot(c: Cache, sl: Slab, s: nat)
    requires SlabOk(c, sl) && sl.free > 0 && forall r: nat :: r < s ==> IsSet(sl.bitmap, r)
    ensures s < c.slots
  {
    if s >= c.slots {
      forall r: nat | r < c.slots ensures r in Used(sl.bitmap) { assert IsSet(sl.bitmap, r); }
      SubsetSize(Below(c.slots), Used(sl.bitmap));
      assert false;
    }
  }
}
