/**
 Growing an ext2 file: AddIndirect, AddDoubleIndirect and AddTripleIndirect write the
 slot that the lookup reads, allocating the index blocks that are missing on the way.
 */
module Ext2Grow {
  import opened Sequences
  import opened Ext2Index
  import opened Ext2Truncate
  import opened Ext2Inode

  /** Index blocks still to be allocated on the way to offset o below pointer b of depth d. */
  ghost function Missing(t: Blocks, bpb: nat, d: nat, b: nat, o: nat): nat
    requires bpb > 0
    decreases d
  {
    if d <= 1 then 0
    else
      SpanPositive(bpb, d - 1);
      var i := o / Span(bpb, d - 1);
      if b in t && i < |t[b]| && t[b][i] != 0 then Missing(t, bpb, d - 1, t[b][i], o % Span(bpb, d - 1)) else d - 1
  }

  /** Offset o now holds `block`; every other offset is as before. */
  ghost predicate Added(t: Blocks, t2: Blocks, bpb: nat, d: nat, b: nat, b2: nat, o: nat, block: nat)
    requires bpb > 0
  {
    && Find(t2, bpb, d, b2, o) == block
    && forall o2: nat :: o2 < Span(bpb, d) && o2 != o ==> Find(t2, bpb, d, b2, o2) == Find(t, bpb, d, b, o2)
  }

  /** Two offsets that agree in quotient and remainder are equal. */
  lemma SameDigits(o: nat, o2: nat, z: nat)
    requires z > 0 && o / z == o2 / z && o % z == o2 % z
    ensures o == o2
  {
    assert o == o / z * z + o % z && o2 == o2 / z * z + o2 % z;
  }

  lemma QuotientBound(o: nat, bpb: nat, z: nat)
    requires z > 0 && o < bpb * z
    ensures o / z < bpb
  {
    if o / z >= bpb { MulOrder(bpb, o / z, z); }
  }

  /** One step of a lookup through index block b. */
  lemma FindStep(t: Blocks, bpb: nat, d: nat, e: nat, b: nat, o: nat)
    requires bpb > 0 && e == d + 1 && b != 0 && b in t && |t[b]| == bpb && o < Span(bpb, e)
    ensures Span(bpb, d) > 0 && o / Span(bpb, d) < bpb
    ensures Find(t, bpb, e, b, o) == Find(t, bpb, d, t[b][o / Span(bpb, d)], o % Span(bpb, d))
  {
    SpanPositive(bpb, d);
    QuotientBound(o, bpb, Span(bpb, d));
  }

  /** Lookups below the other pointers of b do not see a change below pointer i. */
  ghost predicate OthersSame(t: Blocks, t1: Blocks, bpb: nat, d: nat, b: nat, i: nat)
    requires bpb > 0 && b in t
  {
    forall k: nat, r: nat :: k < |t[b]| && k != i ==> Find(t1, bpb, d, t[b][k], r) == Find(t, bpb, d, t[b][k], r)
  }

  /** From the child at slot i to index block b. */
  lemma AddedThrough(t: Blocks, t1: Blocks, bpb: nat, d: nat, e: nat, b: nat, i: nat, c: nat, o: nat, block: nat)
    requires bpb > 0 && e == d + 1 && b != 0 && b in t && |t[b]| == bpb && i < bpb && o < Span(bpb, e)
    requires Span(bpb, d) > 0 && i == o / Span(bpb, d)
    requires b in t1 && t1[b] == t[b][i := c] && OthersSame(t, t1, bpb, d, b, i)
    requires Added(t, t1, bpb, d, t[b][i], c, o % Span(bpb, d), block)
    ensures Added(t, t1, bpb, e, b, b, o, block)
  {
    hide Find, Span;
    var z := Span(bpb, d);
    FindStep(t1, bpb, d, e, b, o);
    forall o2: nat | o2 < Span(bpb, e) && o2 != o ensures Find(t1, bpb, e, b, o2) == Find(t, bpb, e, b, o2) {
      FindStep(t, bpb, d, e, b, o2);
      FindStep(t1, bpb, d, e, b, o2);
      var k, r := o2 / z, o2 % z;
      if k != i {
        assert Find(t1, bpb, d, t[b][k], r) == Find(t, bpb, d, t[b][k], r);
      } else {
        if r == o % z { SameDigits(o, o2, z); }
        assert Find(t1, bpb, d, c, r) == Find(t, bpb, d, t[b][i], r);
      }
    }
  }

  /** The blocks below b outside a set are untouched, so lookups past pointer i stay. */
  lemma SiblingsSame(t: Blocks, t1: Blocks, bpb: nat, d: nat, b: nat, i: nat, x: set<nat>)
    requires bpb > 0 && b != 0 && Tree(t, bpb, d + 1, b) && i < bpb
    requires Outside(t, t1, x + {b} + Foot(t, d, t[b][i])) && x !! Foot(t, d + 1, b)
    ensures OthersSame(t, t1, bpb, d, b, i)
  {
    forall k: nat, r: nat | k < |t[b]| && k != i ensures Find(t1, bpb, d, t[b][k], r) == Find(t, bpb, d, t[b][k], r) {
      InForest(t, bpb, d, t[b], bpb, k);
      SlotsApart(t, bpb, d, t[b], bpb, i, k);
      FindFrame(t, t1, bpb, d, t[b][k], r);
    }
  }

  lemma FreshTree(t: Blocks, bpb: nat, d: nat, b: nat)
    requires b != 0 && d > 0 && b in t && |t[b]| == bpb && forall k :: 0 <= k < bpb ==> t[b][k] == 0
    ensures Tree(t, bpb, d, b) && Foot(t, d, b) == {b}
  {
    ZeroForest(t, d - 1, t[b], bpb);
    HolesForest(t, bpb, d - 1, t[b], bpb);
  }

  lemma {:induction false} HolesForest(t: Blocks, bpb: nat, d: nat, es: seq<nat>, n: nat)
    requires n <= |es| && forall k :: 0 <= k < n ==> es[k] == 0
    ensures Forest(t, bpb, d, es, n)
    decreases n
  {
    if n > 0 { HolesForest(t, bpb, d, es, n - 1); }
  }

  // ---- growth keeps an unshared tree -----------------------------------------------------------------

  /** A tree again, over what it owned and the blocks in z. */
  ghost predicate StillTree(t: Blocks, t2: Blocks, bpb: nat, d: nat, b: nat, b2: nat, z: set<nat>) {
    Tree(t2, bpb, d, b2) && Foot(t2, d, b2) <= Foot(t, d, b) + z
  }

  /** Pointer i of a forest now roots another tree, over what it owned and blocks nobody owned. */
  lemma {:induction false} GrowForest(t: Blocks, t2: Blocks, bpb: nat, d: nat, es: seq<nat>, i: nat, c: nat, n: nat, x: set<nat>, z: set<nat>)
    requires i < n <= |es| && Forest(t, bpb, d, es, n) && Outside(t, t2, x)
    requires forall j :: 0 <= j < n && j != i ==> (x + z) !! Foot(t, d, es[j])
    requires StillTree(t, t2, bpb, d, es[i], c, z)
    ensures Forest(t2, bpb, d, es[i := c], n) && FootOf(t2, d, es[i := c], n) <= FootOf(t, d, es, n) + z
    ensures forall j :: 0 <= j < n && j != i ==> Foot(t, d, es[j]) <= FootOf(t2, d, es[i := c], n)
    decreases n
  {
    if i < n - 1 {
      GrowForest(t, t2, bpb, d, es, i, c, n - 1, x, z);
      TreeFrame(t, t2, bpb, d, es[n - 1]);
    } else {
      ForestApart(t, d, es, i, x + z);
      ForestFrame(t, t2, bpb, d, es, i);
      ForestPrefix(t2, bpb, d, es, es[i := c], i);
      forall j | 0 <= j < i ensures Foot(t, d, es[j]) <= FootOf(t2, d, es[i := c], n) { InForest(t, bpb, d, es, i, j); }
    }
  }

  lemma {:induction false} ForestApart(t: Blocks, d: nat, es: seq<nat>, n: nat, x: set<nat>)
    requires n <= |es| && forall j :: 0 <= j < n ==> x !! Foot(t, d, es[j])
    ensures x !! FootOf(t, d, es, n)
    decreases n
  {
    if n > 0 { ForestApart(t, d, es, n - 1, x); }
  }

  /** From the child at slot i to index block b. */
  lemma GrowTable(t: Blocks, t2: Blocks, bpb: nat, d: nat, e: nat, b: nat, i: nat, c: nat, x: set<nat>, z: set<nat>)
    requires e == d + 1 && b != 0 && Tree(t, bpb, e, b) && i < bpb && b in t2 && t2[b] == t[b][i := c]
    requires Outside(t, t2, x + {b} + Foot(t, d, t[b][i])) && (x + z) !! Foot(t, e, b)
    requires StillTree(t, t2, bpb, d, t[b][i], c, z)
    ensures StillTree(t, t2, bpb, e, b, b, z)
  {
    assert Foot(t, e, b) == {b} + FootOf(t, d, t[b], bpb);
    InForest(t, bpb, d, t[b], bpb, i);
    forall j | 0 <= j < bpb && j != i ensures (x + {b} + Foot(t, d, t[b][i]) + z) !! Foot(t, d, t[b][j]) {
      InForest(t, bpb, d, t[b], bpb, j);
      SlotsApart(t, bpb, d, t[b], bpb, i, j);
    }
    hide Tree, Forest, Foot, FootOf;
    GrowForest(t, t2, bpb, d, t[b], i, c, bpb, x + {b} + Foot(t, d, t[b][i]), z);
    GrownTable(t, t2, bpb, d, e, b, z);
  }

  lemma GrownTable(t: Blocks, t2: Blocks, bpb: nat, d: nat, e: nat, b: nat, z: set<nat>)
    requires e == d + 1 && b != 0 && b in t && |t[b]| == bpb && b in t2 && |t2[b]| == bpb
    requires Tree(t, bpb, e, b) && z !! Foot(t, e, b)
    requires Forest(t2, bpb, d, t2[b], bpb) && FootOf(t2, d, t2[b], bpb) <= FootOf(t, d, t[b], bpb) + z
    ensures StillTree(t, t2, bpb, e, b, b, z)
  {
    assert b in Foot(t, e, b);
  }

  ghost predicate IsSuffix(a: seq<nat>, a0: seq<nat>) {
    |a| <= |a0| && a == a0[|a0| - |a|..]
  }

  ghost predicate Distinct(a: seq<nat>) {
    forall i, j :: 0 <= i < j < |a| ==> a[i] != a[j]
  }

  /** The blocks taken from a0, and the block added. */
  ghost function Newly(a0: seq<nat>, a: seq<nat>, block: nat): set<nat> {
    Elements(a0) - Elements(a) + {block}
  }

  /** A block that nobody owned makes the tree grow by itself and the index blocks taken on the way. */
  ghost predicate Grew(t: Blocks, t2: Blocks, a0: seq<nat>, a: seq<nat>, bpb: nat, d: nat, b: nat, block: nat) {
    && IsSuffix(a, a0)
    && (block !in Foot(t, d, b) + Elements(a0) ==> StillTree(t, t2, bpb, d, b, b, Newly(a0, a, block)))
  }

  lemma GrewLeaf(t: Blocks, t2: Blocks, a0: seq<nat>, bpb: nat, b: nat, i: nat, block: nat)
    requires b != 0 && block != 0 && Tree(t, bpb, 1, b) && i < bpb && t2 == Put(t, b, t[b], i, block)
    ensures Grew(t, t2, a0, a0, bpb, 1, b, block)
  {
    if block !in Foot(t, 1, b) + Elements(a0) {
      assert StillTree(t, t2, bpb, 0, t[b][i], block, {block});
      hide Tree, Foot;
      GrowTable(t, t2, bpb, 0, 1, b, i, block, {}, {block});
      assert Newly(a0, a0, block) == {block};
    }
  }

  lemma GrewExisting(t: Blocks, t2: Blocks, a0: seq<nat>, a: seq<nat>, bpb: nat, d: nat, e: nat, b: nat, i: nat, block: nat, x: set<nat>)
    requires e == d + 1 && b != 0 && Tree(t, bpb, e, b) && i < bpb && x !! Foot(t, e, b) && Elements(a0) <= x
    requires Outside(t, t2, Foot(t, d, t[b][i]) + x) && Grew(t, t2, a0, a, bpb, d, t[b][i], block)
    ensures Grew(t, t2, a0, a, bpb, e, b, block)
  {
    if block !in Foot(t, e, b) + Elements(a0) {
      InForest(t, bpb, d, t[b], bpb, i);
      assert Foot(t, e, b) == {b} + FootOf(t, d, t[b], bpb);
      assert t2[b] == t[b][i := t[b][i]];
      hide Tree, Forest, Foot, FootOf;
      GrowTable(t, t2, bpb, d, e, b, i, t[b][i], x, Newly(a0, a, block));
    }
  }

  lemma GrewFresh(t: Blocks, t1: Blocks, t2: Blocks, a0: seq<nat>, a: seq<nat>, bpb: nat, d: nat, e: nat, b: nat, i: nat, c: nat, block: nat,
                  x: set<nat>)
    requires d > 0 && e == d + 1 && b != 0 && Tree(t, bpb, e, b) && i < bpb && t[b][i] == 0
    requires x !! Foot(t, e, b) && Elements(a0) <= x
    requires a0 != [] && c == a0[0] && c != 0 && Distinct(a0)
    requires Outside(t, t1, {b, c}) && b in t1 && t1[b] == t[b][i := c] && Foot(t1, d, c) == {c}
    requires Outside(t1, t2, x) && Grew(t1, t2, a0[1..], a, bpb, d, c, block)
    ensures Grew(t, t2, a0, a, bpb, e, b, block)
  {
    SuffixOfTail(a, a0);
    if block !in Foot(t, e, b) + Elements(a0) {
      assert b in Foot(t, e, b) && b in t && |t[b]| == bpb && Foot(t, d, 0) == {};
      assert c in Elements(a0) && Elements(a0[1..]) <= Elements(a0);
      assert StillTree(t, t2, bpb, d, t[b][i], c, Newly(a0, a, block));
      hide Tree, Foot;
      GrowTable(t, t2, bpb, d, e, b, i, c, x, Newly(a0, a, block));
    }
  }

  lemma SuffixOfTail(a: seq<nat>, a0: seq<nat>)
    requires a0 != [] && Distinct(a0) && IsSuffix(a, a0[1..])
    ensures IsSuffix(a, a0) && a0[0] !in Elements(a)
  {
    var k := |a0| - |a|;
    assert a0[1..][k - 1..] == a0[k..];
    forall j | 0 <= j < |a| ensures a[j] != a0[0] { assert a[j] == a0[k + j]; }
  }

  // ---- the growth path -----------------------------------------------------------------------------

  function Zeros(n: nat): (r: seq<nat>)
    ensures |r| == n && forall k :: 0 <= k < n ==> r[k] == 0
  {
    seq(n, _ => 0)
  }

  function Pointer(t: Blocks, b: nat, i: nat): nat {
    if b in t && i < |t[b]| then t[b][i] else 0
  }

  function Store(t: Blocks, b: nat, i: nat, p: nat): Blocks {
    if b in t && i < |t[b]| then Put(t, b, t[b], i, p) else t
  }

  /**
   What the code leaves, whatever it finds: offset o below block b of depth d, with the free
   blocks a. When none is left the allocation returns 0 and the path goes on through block 0.
   */
  function Placed(t: Blocks, a: seq<nat>, bpb: nat, d: nat, b: nat, o: nat, block: nat): (Blocks, seq<nat>)
    requires bpb > 0
    decreases d
  {
    if d <= 1 then (Store(t, b, o, block), a)
    else
      SpanPositive(bpb, d - 1);
      var i, r := o / Span(bpb, d - 1), o % Span(bpb, d - 1);
      if Pointer(t, b, i) != 0 then Placed(t, a, bpb, d - 1, Pointer(t, b, i), r, block)
      else if a == [] then Placed(Store(t, b, i, 0), a, bpb, d - 1, 0, r, block)
      else Placed(Store(t[a[0] := Zeros(bpb)], b, i, a[0]), a[1..], bpb, d - 1, a[0], r, block)
  }

  /** Free blocks are not 0, not owned, and each is listed once. */
  ghost predicate Unowned(a: seq<nat>, s: set<nat>) {
    (forall i :: 0 <= i < |a| ==> a[i] != 0 && a[i] !in s) && Distinct(a)
  }

  /** The path of Placed never follows a word of block 0 as if it were a pointer. */
  predicate Tame(t: Blocks, a: seq<nat>, bpb: nat, d: nat, b: nat, o: nat)
    requires bpb > 0
    decreases d
  {
    d <= 1 ||
      (SpanPositive(bpb, d - 1);
      var i, r := o / Span(bpb, d - 1), o % Span(bpb, d - 1);
      if Pointer(t, b, i) != 0 then b != 0 && Tame(t, a, bpb, d - 1, Pointer(t, b, i), r)
      else if a == [] then Tame(Store(t, b, i, 0), a, bpb, d - 1, 0, r)
      else Tame(Store(t[a[0] := Zeros(bpb)], b, i, a[0]), a[1..], bpb, d - 1, a[0], r))
  }

  /** What the path may write besides what b owns. */
  ghost function Reach(a: seq<nat>, enough: bool): set<nat> {
    if enough then Elements(a) else Elements(a) + {0}
  }

  /** Offset o holds `block` if the free blocks sufficed and is still a hole if not; no other offset moved. */
  ghost predicate Exactly(t: Blocks, a: seq<nat>, t2: Blocks, a2: seq<nat>, bpb: nat, d: nat, b: nat, o: nat, block: nat)
    requires bpb > 0
  {
    var enough := Missing(t, bpb, d, b, o) <= |a|;
    && Added(t, t2, bpb, d, b, b, o, if enough then block else 0)
    && Outside(t, t2, Foot(t, d, b) + Reach(a, enough))
    && Grew(t, t2, a, a2, bpb, d, b, block)
  }

  lemma {:induction false} ZeroNotOwned(t: Blocks, d: nat, b: nat)
    ensures 0 !in Foot(t, d, b)
    decreases d, 0
  {
    if b != 0 && d > 0 && b in t { ZeroNotIn(t, d - 1, t[b], |t[b]|); }
  }

  lemma {:induction false} ZeroNotIn(t: Blocks, d: nat, es: seq<nat>, n: nat)
    requires n <= |es|
    ensures 0 !in FootOf(t, d, es, n)
    decreases d, n + 1
  {
    if n > 0 {
      ZeroNotIn(t, d, es, n - 1);
      ZeroNotOwned(t, d, es[n - 1]);
    }
  }

  lemma ReachApart(t: Blocks, a: seq<nat>, d: nat, b: nat, enough: bool)
    requires Unowned(a, Foot(t, d, b))
    ensures Reach(a, enough) !! Foot(t, d, b)
  {
    ZeroNotOwned(t, d, b);
  }

  /** A path that starts at block 0 and is tame writes block 0, and a new block if there is one. */
  lemma {:induction false} PlacedInZero(t: Blocks, a: seq<nat>, bpb: nat, d: nat, o: nat, block: nat)
    requires bpb > 0 && Tame(t, a, bpb, d, 0, o) && (d <= 2 || a == [])
    ensures var (t2, a2) := Placed(t, a, bpb, d, 0, o, block);
            Outside(t, t2, {0} + Elements(a)) && IsSuffix(a2, a)
    decreases d
  {
    if d > 1 {
      SpanPositive(bpb, d - 1);
      var i := o / Span(bpb, d - 1);
      assert Pointer(t, 0, i) == 0;
      if a == [] {
        assert Store(t, 0, i, 0) == t by { if 0 in t && i < |t[0]| { assert t[0][i := 0] == t[0]; } }
        PlacedInZero(t, a, bpb, d - 1, o % Span(bpb, d - 1), block);
      } else {
        assert a[0] in Elements(a);
      }
    }
  }

  lemma PlacedLeaf(t: Blocks, a: seq<nat>, bpb: nat, b: nat, o: nat, block: nat)
    requires bpb > 0 && b != 0 && block != 0 && o < Span(bpb, 1) && Tree(t, bpb, 1, b)
    ensures var (t2, a2) := Placed(t, a, bpb, 1, b, o, block); Exactly(t, a, t2, a2, bpb, 1, b, o, block)
  {
    assert Span(bpb, 1) == bpb * Span(bpb, 0) && Span(bpb, 0) == 1;
    var t2 := Put(t, b, t[b], o, block);
    AddLeaf(t, t2, bpb, b, o, o, block);
    GrewLeaf(t, t2, a, bpb, b, o, block);
    assert b in Foot(t, 1, b);
  }

  /** The index block at slot i exists. */
  lemma ExactlyExisting(t: Blocks, a: seq<nat>, t2: Blocks, a2: seq<nat>, bpb: nat, d: nat, e: nat, b: nat, i: nat, o: nat, block: nat)
    requires bpb > 0 && d > 0 && e == d + 1 && b != 0 && Tree(t, bpb, e, b) && o < Span(bpb, e) && Unowned(a, Foot(t, e, b))
    requires Span(bpb, d) > 0 && i == o / Span(bpb, d) < bpb && t[b][i] != 0
    requires Exactly(t, a, t2, a2, bpb, d, t[b][i], o % Span(bpb, d), block)
    ensures Exactly(t, a, t2, a2, bpb, e, b, o, block)
  {
    hide Tree, Foot, Added, Find, Span, Grew, Outside, Reach;
    var enough := Missing(t, bpb, e, b, o) <= |a|;
    SamePlan(t, bpb, d, e, b, i, o);
    var x := Reach(a, enough);
    ReachApart(t, a, e, b, enough);
    ReachHolds(a, enough);
    AddedExisting(t, t2, bpb, d, e, b, i, o, if enough then block else 0, x);
    GrewExisting(t, t2, a, a2, bpb, d, e, b, i, block, x);
  }

  lemma ReachHolds(a: seq<nat>, enough: bool)
    ensures Elements(a) <= Reach(a, enough)
  {}

  lemma SamePlan(t: Blocks, bpb: nat, d: nat, e: nat, b: nat, i: nat, o: nat)
    requires bpb > 0 && d > 0 && e == d + 1 && b != 0 && Tree(t, bpb, e, b) && Span(bpb, d) > 0 && i == o / Span(bpb, d) < bpb
    ensures b in t && |t[b]| == bpb
    ensures Missing(t, bpb, e, b, o) == if t[b][i] != 0 then Missing(t, bpb, d, t[b][i], o % Span(bpb, d)) else d
  {}

  /** No block is left for slot i. */
  lemma ExactlyLost(t: Blocks, t2: Blocks, bpb: nat, d: nat, e: nat, b: nat, i: nat, o: nat, block: nat)
    requires bpb > 0 && d > 0 && e == d + 1 && b != 0 && Tree(t, bpb, e, b) && o < Span(bpb, e)
    requires Span(bpb, d) > 0 && i == o / Span(bpb, d) < bpb && t[b][i] == 0 && Outside(t, t2, {0})
    ensures Exactly(t, [], t2, [], bpb, e, b, o, block)
  {
    ZeroNotOwned(t, e, b);
    SamePlan(t, bpb, d, e, b, i, o);
    assert Added(t, t2, bpb, d, 0, 0, o % Span(bpb, d), 0) && Foot(t, d, 0) == {} && Grew(t, t2, [], [], bpb, d, 0, block);
    hide Tree, Foot, Find, Span, Grew, Missing;
    AddedExisting(t, t2, bpb, d, e, b, i, o, 0, {0});
    GrewExisting(t, t2, [], [], bpb, d, e, b, i, block, {0});
  }

  /** A zeroed index block, linked at slot i of b. */
  lemma LinkedNew(t: Blocks, a: seq<nat>, bpb: nat, d: nat, e: nat, b: nat, i: nat)
    requires bpb > 0 && d > 0 && e == d + 1 && b != 0 && Tree(t, bpb, e, b) && i < bpb && a != [] && Unowned(a, Foot(t, e, b))
    ensures var c := a[0]; var t1 := Store(t[c := Zeros(bpb)], b, i, c);
            && b in t && |t[b]| == bpb && c != 0 && c in Elements(a) && Elements(a[1..]) <= Elements(a)
            && b in t1 && t1[b] == t[b][i := c] && Outside(t, t1, {b, c})
            && c in t1 && |t1[c]| == bpb && (forall k :: 0 <= k < bpb ==> t1[c][k] == 0)
            && Tree(t1, bpb, d, c) && Foot(t1, d, c) == {c} && Unowned(a[1..], {c})
  {
    assert b in Foot(t, e, b) && b in t && |t[b]| == bpb;
    var c := a[0];
    var t1 := Store(t[c := Zeros(bpb)], b, i, c);
    assert c != b;
    hide Tree, Foot;
    FreshTree(t1, bpb, d, c);
  }

  lemma ExactlyFresh(t: Blocks, a: seq<nat>, t1: Blocks, t2: Blocks, a2: seq<nat>, bpb: nat, d: nat, e: nat, b: nat, i: nat, o: nat,
                     block: nat)
    requires bpb > 0 && d > 0 && e == d + 1 && b != 0 && Tree(t, bpb, e, b) && o < Span(bpb, e) && Unowned(a, Foot(t, e, b))
    requires Span(bpb, d) > 0 && i == o / Span(bpb, d) < bpb && t[b][i] == 0 && a != []
    requires t1 == Store(t[a[0] := Zeros(bpb)], b, i, a[0])
    requires Exactly(t1, a[1..], t2, a2, bpb, d, a[0], o % Span(bpb, d), block)
    ensures Exactly(t, a, t2, a2, bpb, e, b, o, block)
  {
    hide Tree, Foot, Added, Find, Span, Grew, Missing;
    var c := a[0];
    var enough := Missing(t, bpb, e, b, o) <= |a|;
    SamePlan(t, bpb, d, e, b, i, o);
    LinkedNew(t, a, bpb, d, e, b, i);
    FreshMissing(t1, bpb, d, c, o % Span(bpb, d));
    var x := Reach(a, enough);
    ReachApart(t, a, e, b, enough);
    AddedFresh(t, t1, t2, bpb, d, e, b, i, c, o, if enough then block else 0, x);
    GrewFresh(t, t1, t2, a, a2, bpb, d, e, b, i, c, block, x);
  }

  /** Growth is exact: it maps the offset if and only if the free blocks suffice for the index path. */
  lemma {:induction false} PlacedExact(t: Blocks, a: seq<nat>, bpb: nat, d: nat, b: nat, o: nat, block: nat)
    requires bpb > 0 && d > 0 && b != 0 && block != 0 && o < Span(bpb, d) && Tree(t, bpb, d, b) && Unowned(a, Foot(t, d, b))
    requires Missing(t, bpb, d, b, o) <= |a| || Tame(t, a, bpb, d, b, o)
    ensures var (t2, a2) := Placed(t, a, bpb, d, b, o, block); Exactly(t, a, t2, a2, bpb, d, b, o, block)
    decreases d
  {
    hide Tree, Foot, Exactly, Outside;
    if d == 1 {
      PlacedLeaf(t, a, bpb, b, o, block);
    } else {
      var e := d - 1;
      SpanPositive(bpb, e);
      QuotientBound(o, bpb, Span(bpb, e));
      var i, r := o / Span(bpb, e), o % Span(bpb, e);
      SamePlan(t, bpb, e, d, b, i, o);
      var (t2, a2) := Placed(t, a, bpb, d, b, o, block);
      if t[b][i] != 0 {
        BelowReady(t, a, bpb, e, d, b, i);
        PlacedExact(t, a, bpb, e, t[b][i], r, block);
        ExactlyExisting(t, a, t2, a2, bpb, e, d, b, i, o, block);
      } else if a == [] {
        assert Store(t, b, i, 0) == t by { assert t[b][i := 0] == t[b]; }
        PlacedInZero(t, a, bpb, e, r, block);
        NothingTaken(t, t2, a2);
        ExactlyLost(t, t2, bpb, e, d, b, i, o, block);
      } else {
        var t1 := Store(t[a[0] := Zeros(bpb)], b, i, a[0]);
        LinkedNew(t, a, bpb, e, d, b, i);
        FreshMissing(t1, bpb, e, a[0], r);
        PlacedExact(t1, a[1..], bpb, e, a[0], r, block);
        ExactlyFresh(t, a, t1, t2, a2, bpb, e, d, b, i, o, block);
      }
    }
  }

  lemma NothingTaken(t: Blocks, t2: Blocks, a2: seq<nat>)
    requires Outside(t, t2, {0} + Elements([])) && IsSuffix(a2, [])
    ensures Outside(t, t2, {0}) && a2 == []
  {
    assert {0} + Elements([]) == {0};
  }

  lemma BelowReady(t: Blocks, a: seq<nat>, bpb: nat, d: nat, e: nat, b: nat, i: nat)
    requires bpb > 0 && e == d + 1 && b != 0 && Tree(t, bpb, e, b) && Unowned(a, Foot(t, e, b)) && i < bpb && t[b][i] != 0
    ensures Tree(t, bpb, d, t[b][i]) && Unowned(a, Foot(t, d, t[b][i]))
  {
    InForest(t, bpb, d, t[b], bpb, i);
  }

  /** A path with an index block missing ends in a hole. */
  lemma {:induction false} MissingHole(t: Blocks, bpb: nat, d: nat, b: nat, o: nat)
    requires bpb > 0 && d > 0 && Missing(t, bpb, d, b, o) > 0
    ensures Find(t, bpb, d, b, o) == 0
    decreases d
  {
    if d > 1 {
      SpanPositive(bpb, d - 1);
      var i := o / Span(bpb, d - 1);
      if b in t && i < |t[b]| && t[b][i] != 0 { MissingHole(t, bpb, d - 1, t[b][i], o % Span(bpb, d - 1)); }
    }
  }

  /** With no free block left the block is lost, and its number is written into block 0. */
  lemma LostInBlockZero()
    ensures Placed(map[0 := [0, 0], 7 := [0, 0]], [], 2, 2, 7, 3, 9) == (map[0 := [0, 9], 7 := [0, 0]], [])
  {
    var z: seq<nat> := [0, 0];
    var t: Blocks := map[0 := z, 7 := z];
    assert Span(2, 1) == 2 * Span(2, 0) && Span(2, 0) == 1;
    assert z[1 := 0] == z && z[1 := 9] == [0, 9];
    assert Pointer(t, 7, 1) == 0 && Store(t, 7, 1, 0) == t && Store(t, 0, 1, 9) == map[0 := [0, 9], 7 := z];
    assert Placed(t, [], 2, 1, 0, 1, 9) == (Store(t, 0, 1, 9), []);
  }

  /** It takes exactly the index blocks that are missing. */
  lemma {:induction false} PlacedTakes(t: Blocks, a: seq<nat>, bpb: nat, d: nat, b: nat, o: nat, block: nat)
    requires bpb > 0 && d > 0 && b != 0 && o < Span(bpb, d) && Tree(t, bpb, d, b) && Unowned(a, Foot(t, d, b))
    requires Missing(t, bpb, d, b, o) <= |a|
    ensures |Placed(t, a, bpb, d, b, o, block).1| == |a| - Missing(t, bpb, d, b, o)
    decreases d
  {
    if d > 1 {
      SpanPositive(bpb, d - 1);
      var i, r := o / Span(bpb, d - 1), o % Span(bpb, d - 1);
      QuotientBound(o, bpb, Span(bpb, d - 1));
      InForest(t, bpb, d - 1, t[b], bpb, i);
      if t[b][i] != 0 {
        assert Unowned(a, Foot(t, d - 1, t[b][i]));
        PlacedTakes(t, a, bpb, d - 1, t[b][i], r, block);
      } else {
        TakesFresh(Store(t[a[0] := Zeros(bpb)], b, i, a[0]), a[1..], bpb, d - 1, a[0], r, block);
      }
    }
  }

  /** Below an empty index block all of them are. */
  lemma {:induction false} TakesFresh(t: Blocks, a: seq<nat>, bpb: nat, d: nat, b: nat, o: nat, block: nat)
    requires bpb > 0 && d > 0 && o < Span(bpb, d) && b in t && t[b] == Zeros(bpb) && d - 1 <= |a| && Distinct([b] + a)
    ensures |Placed(t, a, bpb, d, b, o, block).1| == |a| - (d - 1)
    decreases d
  {
    if d > 1 {
      SpanPositive(bpb, d - 1);
      var i, r := o / Span(bpb, d - 1), o % Span(bpb, d - 1);
      assert ([b] + a)[0] != ([b] + a)[1];
      assert a == ([b] + a)[1..] && [a[0]] + a[1..] == a;
      assert Distinct(a);
      TakesFresh(Store(t[a[0] := Zeros(bpb)], b, i, a[0]), a[1..], bpb, d - 1, a[0], r, block);
    }
  }

  /** A double root that is missing: a word of block 0 is followed, and the block it names is overwritten. */
  lemma WildWrite(t: Blocks, a: seq<nat>, bpb: nat, o: nat, block: nat)
    requires bpb > 0 && Pointer(t, 0, o / bpb) != 0
    ensures !Tame(t, a, bpb, 2, 0, o)
    ensures Placed(t, a, bpb, 2, 0, o, block) == (Store(t, Pointer(t, 0, o / bpb), o % bpb, block), a)
  {
    assert Span(bpb, 1) == bpb * Span(bpb, 0) && Span(bpb, 0) == 1;
  }

  /** Such a write may change another index of the same file: here index 12 reads 7 instead of 8. */
  lemma WildOverwrites(root: seq<nat>)
    requires |root| == SLOTS && root[12] == 5 && root[13] == 0
    ensures var t: Blocks := map[0 := [5, 5], 5 := [8, 9]];
      BlockAt(t, 2, root, 12) == 8 && BlockAt(Placed(t, [], 2, 2, root[13], 0, 7).0, 2, root, 12) == 7
  {
    var t: Blocks := map[0 := [5, 5], 5 := [8, 9]];
    WildWrite(t, [], 2, 0, 7);
    var t2 := Store(t, 5, 0, 7);
    assert t[5][0 := 7] == [7, 9] && t2[5] == [7, 9];
    Bases(2);
    OneLevel(t, 2, 5, 0);
    OneLevel(t2, 2, 5, 0);
  }

  /** Allocation as the growth path sees it: the block numbers the bitmap will hand out, in order. */
  class Volume {
    const file: File
    var avail: seq<nat>

    constructor (file: File, avail: seq<nat>)
      ensures this.file == file && this.avail == avail
    {
      this.file, this.avail := file, avail;
    }

    /** EXT2AllocBlock: the next free block, zeroed, or 0 if there is none. */
    method AllocBlock() returns (b: nat)
      modifies this, file`blocks
      ensures old(avail) == [] ==> b == 0 && avail == [] && file.blocks == old(file.blocks)
      ensures old(avail) != [] ==> b == old(avail)[0] && avail == old(avail)[1..]
      ensures old(avail) != [] ==> file.blocks == old(file.blocks)[b := Zeros(file.bpb)]
    {
      if avail == [] { return 0; }
      b := avail[0];
      avail := avail[1..];
      file.blocks := file.blocks[b := Zeros(file.bpb)];
    }

    /** Map offset o below index block b (depth d) to `block`; a failed allocation is not noticed. */
    method AddIn(d: nat, b: nat, o: nat, block: nat)
      requires file.bpb > 0 && d > 0 && o < Span(file.bpb, d)
      modifies this, file`blocks
      ensures (file.blocks, avail) == Placed(old(file.blocks), old(avail), file.bpb, d, b, o, block)
      decreases d
    {
      if d == 1 {
        file.blocks := Store(file.blocks, b, o, block);
        return;
      }
      SpanPositive(file.bpb, d - 1);
      var i, r := o / Span(file.bpb, d - 1), o % Span(file.bpb, d - 1);
      var c := Pointer(file.blocks, b, i);
      if c == 0 {
        c := AllocBlock();
        file.blocks := Store(file.blocks, b, i, c);
      }
      AddIn(d - 1, c, r, block);
    }
  }

  lemma FreshMissing(t: Blocks, bpb: nat, d: nat, b: nat, o: nat)
    requires bpb > 0 && d > 0 && b in t && forall k :: 0 <= k < |t[b]| ==> t[b][k] == 0
    ensures Missing(t, bpb, d, b, o) == d - 1
  {
    SpanPositive(bpb, d - 1);
  }

  lemma AddedExisting(t: Blocks, t2: Blocks, bpb: nat, d: nat, e: nat, b: nat, i: nat, o: nat, block: nat, x: set<nat>)
    requires bpb > 0 && d > 0 && e == d + 1 && b != 0 && Tree(t, bpb, e, b) && i < bpb && o < Span(bpb, e)
    requires Span(bpb, d) > 0 && i == o / Span(bpb, d) && x !! Foot(t, e, b)
    requires Added(t, t2, bpb, d, t[b][i], t[b][i], o % Span(bpb, d), block)
    requires Outside(t, t2, Foot(t, d, t[b][i]) + x)
    ensures Added(t, t2, bpb, e, b, b, o, block) && Outside(t, t2, Foot(t, e, b) + x)
  {
    InForest(t, bpb, d, t[b], bpb, i);
    SiblingsSame(t, t2, bpb, d, b, i, x);
    assert t[b] == t[b][i := t[b][i]];
    hide Find, Added, OthersSame;
    AddedThrough(t, t2, bpb, d, e, b, i, t[b][i], o, block);
  }

  lemma AddedFresh(t: Blocks, t1: Blocks, t2: Blocks, bpb: nat, d: nat, e: nat, b: nat, i: nat, c: nat, o: nat, block: nat, x: set<nat>)
    requires bpb > 0 && d > 0 && e == d + 1 && b != 0 && Tree(t, bpb, e, b) && i < bpb && o < Span(bpb, e) && t[b][i] == 0
    requires Span(bpb, d) > 0 && i == o / Span(bpb, d) && x !! Foot(t, e, b) && c in x && c != 0
    requires c in t1 && |t1[c]| == bpb && (forall k :: 0 <= k < bpb ==> t1[c][k] == 0)
    requires Outside(t, t1, {b, c}) && b in t1 && t1[b] == t[b][i := c]
    requires Added(t1, t2, bpb, d, c, c, o % Span(bpb, d), block) && Outside(t1, t2, x)
    ensures Added(t, t2, bpb, e, b, b, o, block) && Outside(t, t2, Foot(t, e, b) + x)
  {
    assert b in Foot(t, e, b);
    SiblingsSame(t, t2, bpb, d, b, i, x);
    forall r: nat | r < Span(bpb, d) ensures Find(t, bpb, d, t[b][i], r) == Find(t1, bpb, d, c, r) {
      ZeroFind(t1, bpb, d, c, r);
    }
    assert Added(t, t2, bpb, d, t[b][i], c, o % Span(bpb, d), block);
    hide Find, Added, OthersSame;
    AddedThrough(t, t2, bpb, d, e, b, i, c, o, block);
  }

  lemma AddLeaf(t: Blocks, t2: Blocks, bpb: nat, b: nat, i: nat, o: nat, block: nat)
    requires bpb > 0 && b != 0 && block != 0 && Tree(t, bpb, 1, b) && i < bpb && o < Span(bpb, 1) && i == o
    requires t2 == Put(t, b, t[b], i, block)
    ensures Added(t, t2, bpb, 1, b, b, o, block)
  {
    assert Span(bpb, 0) == 1;
    assert OthersSame(t, t2, bpb, 0, b, i);
    AddedThrough(t, t2, bpb, 0, 1, b, i, block, o, block);
  }

  // ---- the whole inode ---------------------------------------------------------------

  /** Where the append goes: a direct slot, or an indirect slot whose root exists. */
  predicate HasRoot(bpb: nat, root: seq<nat>, idx: nat)
    requires |root| == SLOTS && SlotOf(bpb, idx) < SLOTS
  {
    SlotOf(bpb, idx) < DIRECT || root[SlotOf(bpb, idx)] != 0
  }

  /** Index idx is now mapped to `block`; the rest of the block map is as before. */
  ghost predicate MapGrew(t: Blocks, root: seq<nat>, t2: Blocks, root2: seq<nat>, bpb: nat, idx: nat, block: nat)
    requires bpb > 0 && |root| == |root2| == SLOTS
  {
    && BlockAt(t2, bpb, root2, idx) == block
    && forall j: nat :: j < MaxBlocks(bpb) && j != idx ==> BlockAt(t2, bpb, root2, j) == BlockAt(t, bpb, root, j)
  }

  lemma SlotGrew(t: Blocks, root: seq<nat>, t2: Blocks, root2: seq<nat>, bpb: nat, idx: nat, block: nat, i: nat, x: set<nat>)
    requires bpb > 0 && |root| == |root2| == SLOTS && RootOk(t, bpb, root, |root|)
    requires idx < MaxBlocks(bpb) && i == SlotOf(bpb, idx) < SLOTS && Base(bpb, i) <= idx
    requires forall k :: 0 <= k < SLOTS && k != i ==> root2[k] == root[k]
    requires Outside(t, t2, Foot(t, Depth(i), root[i]) + x) && x !! RootFoot(t, root, |root|)
    requires Added(t, t2, bpb, Depth(i), root[i], root2[i], idx - Base(bpb, i), block)
    ensures MapGrew(t, root, t2, root2, bpb, idx, block)
  {
    hide RootOk, RootFoot, Foot, Tree, Find, Span, Base;
    forall j: nat | j < MaxBlocks(bpb) && j != idx ensures BlockAt(t2, bpb, root2, j) == BlockAt(t, bpb, root, j) {
      var k := SlotOf(bpb, j);
      SlotBounds(bpb, j);
      if k != i {
        InRoot(t, bpb, root, |root|, k);
        RootApart(t, bpb, root, |root|, i, k);
        FindFrame(t, t2, bpb, Depth(k), root[k], j - Base(bpb, k));
      }
    }
  }

  /** The trees of the inode stay unshared, over the old blocks, the block added and the index blocks taken. */
  ghost predicate RootGrew(t: Blocks, root: seq<nat>, t2: Blocks, root2: seq<nat>, bpb: nat, z: set<nat>)
    requires |root| == |root2| == SLOTS
  {
    RootOk(t2, bpb, root2, |root2|) && RootFoot(t2, root2, |root2|) <= RootFoot(t, root, |root|) + z
  }

  lemma {:induction false} GrowRoot(t: Blocks, t2: Blocks, bpb: nat, root: seq<nat>, i: nat, c: nat, n: nat, x: set<nat>, z: set<nat>)
    requires i < n <= |root| && RootOk(t, bpb, root, n) && Outside(t, t2, x)
    requires forall j :: 0 <= j < n && j != i ==> (x + z) !! Foot(t, Depth(j), root[j])
    requires StillTree(t, t2, bpb, Depth(i), root[i], c, z)
    ensures RootOk(t2, bpb, root[i := c], n) && RootFoot(t2, root[i := c], n) <= RootFoot(t, root, n) + z
    decreases n
  {
    if i < n - 1 {
      GrowRoot(t, t2, bpb, root, i, c, n - 1, x, z);
      TreeFrame(t, t2, bpb, Depth(n - 1), root[n - 1]);
    } else {
      RootsApart(t, root, i, x + z);
      RootFrame(t, t2, bpb, root, root[i := c], i);
    }
  }

  lemma {:induction false} RootsApart(t: Blocks, root: seq<nat>, n: nat, x: set<nat>)
    requires n <= |root| && forall j :: 0 <= j < n ==> x !! Foot(t, Depth(j), root[j])
    ensures x !! RootFoot(t, root, n)
    decreases n
  {
    if n > 0 { RootsApart(t, root, n - 1, x); }
  }

  lemma InodeGrew(t: Blocks, root: seq<nat>, t2: Blocks, bpb: nat, i: nat, c: nat, x: set<nat>, z: set<nat>)
    requires |root| == SLOTS && i < SLOTS && RootOk(t, bpb, root, |root|) && (x + z) !! RootFoot(t, root, |root|)
    requires Outside(t, t2, Foot(t, Depth(i), root[i]) + x) && StillTree(t, t2, bpb, Depth(i), root[i], c, z)
    ensures RootGrew(t, root, t2, root[i := c], bpb, z)
  {
    var y := Foot(t, Depth(i), root[i]) + x;
    hide RootOk, RootFoot, Foot, Tree;
    forall j | 0 <= j < SLOTS && j != i ensures (y + z) !! Foot(t, Depth(j), root[j]) {
      InRoot(t, bpb, root, |root|, j);
      RootApart(t, bpb, root, |root|, i, j);
    }
    GrowRoot(t, t2, bpb, root, i, c, |root|, y, z);
  }

  /** The index blocks an append at idx has to make. */
  ghost function Needs(t: Blocks, root: seq<nat>, bpb: nat, idx: nat): nat
    requires bpb > 0 && |root| == SLOTS && idx < MaxBlocks(bpb)
  {
    SlotBounds(bpb, idx);
    var i := SlotOf(bpb, idx);
    Missing(t, bpb, Depth(i), root[i], idx - Base(bpb, i))
  }

  /** The append finds what it needs: a root, and free blocks for the index blocks on the way. */
  ghost predicate Room(t: Blocks, root: seq<nat>, a: seq<nat>, bpb: nat, idx: nat)
    requires bpb > 0 && |root| == SLOTS && idx < MaxBlocks(bpb)
  {
    HasRoot(bpb, root, idx) && Needs(t, root, bpb, idx) <= |a|
  }

  /** There is room, or the path at least does not follow words of block 0. */
  ghost predicate Orderly(t: Blocks, root: seq<nat>, a: seq<nat>, bpb: nat, idx: nat)
    requires bpb > 0 && |root| == SLOTS && idx < MaxBlocks(bpb)
  {
    SlotBounds(bpb, idx);
    var i := SlotOf(bpb, idx);
    Room(t, root, a, bpb, idx) || (root[i] == 0 && i != 13) || Tame(t, a, bpb, Depth(i), root[i], idx - Base(bpb, i))
  }

  /** No index of the file reads differently. */
  ghost predicate MapSame(t: Blocks, root: seq<nat>, t2: Blocks, root2: seq<nat>, bpb: nat)
    requires bpb > 0 && |root| == |root2| == SLOTS
  {
    forall j: nat :: j < MaxBlocks(bpb) ==> BlockAt(t2, bpb, root2, j) == BlockAt(t, bpb, root, j)
  }

  /** Writes outside everything the inode owns. */
  lemma OutsideInode(t: Blocks, t2: Blocks, bpb: nat, root: seq<nat>, x: set<nat>, z: set<nat>)
    requires bpb > 0 && |root| == SLOTS && RootOk(t, bpb, root, |root|) && Outside(t, t2, x) && x !! RootFoot(t, root, |root|)
    ensures MapSame(t, root, t2, root, bpb) && RootGrew(t, root, t2, root, bpb, z)
  {
    hide RootOk, RootFoot, Foot, Tree, Find, Span, Base;
    RootFrame(t, t2, bpb, root, root, |root|);
    forall j: nat | j < MaxBlocks(bpb) ensures BlockAt(t2, bpb, root, j) == BlockAt(t, bpb, root, j) {
      var k := SlotOf(bpb, j);
      SlotBounds(bpb, j);
      InRoot(t, bpb, root, |root|, k);
      FindFrame(t, t2, bpb, Depth(k), root[k], j - Base(bpb, k));
    }
  }

  lemma {:induction false} ZeroNotInRoot(t: Blocks, root: seq<nat>, n: nat)
    requires n <= |root|
    ensures 0 !in RootFoot(t, root, n)
    decreases n
  {
    if n > 0 {
      ZeroNotInRoot(t, root, n - 1);
      ZeroNotOwned(t, Depth(n - 1), root[n - 1]);
    }
  }

  /** What an append at idx did to the map, to the trees and to the free blocks. */
  ghost predicate Appended(t: Blocks, root: seq<nat>, a: seq<nat>, t2: Blocks, root2: seq<nat>, a2: seq<nat>, bpb: nat, idx: nat, block: nat)
    requires bpb > 0 && |root| == |root2| == SLOTS && idx < MaxBlocks(bpb)
  {
    && (if Room(t, root, a, bpb, idx) then MapGrew(t, root, t2, root2, bpb, idx, block) else MapSame(t, root, t2, root2, bpb))
    && IsSuffix(a2, a) && Outside(t, t2, RootFoot(t, root, |root|) + Reach(a, Room(t, root, a, bpb, idx)))
    && (block !in RootFoot(t, root, |root|) + Elements(a) ==> RootGrew(t, root, t2, root2, bpb, Newly(a, a2, block)))
  }

  /** The append below an existing root. */
  lemma SlotAppended(t: Blocks, root: seq<nat>, a: seq<nat>, t2: Blocks, a2: seq<nat>, bpb: nat, idx: nat, block: nat, i: nat)
    requires bpb > 0 && |root| == SLOTS && RootOk(t, bpb, root, |root|) && Unowned(a, RootFoot(t, root, |root|))
    requires idx < MaxBlocks(bpb) && DIRECT <= i == SlotOf(bpb, idx) < SLOTS && Base(bpb, i) <= idx && root[i] != 0
    requires Exactly(t, a, t2, a2, bpb, Depth(i), root[i], idx - Base(bpb, i), block)
    ensures Appended(t, root, a, t2, root, a2, bpb, idx, block)
  {
    hide RootOk, RootFoot, Foot, Tree, Find, Span, Base, Added, Missing;
    var o := idx - Base(bpb, i);
    var enough := Missing(t, bpb, Depth(i), root[i], o) <= |a|;
    var x := Reach(a, enough);
    ZeroNotInRoot(t, root, |root|);
    SlotGrew(t, root, t2, root, bpb, idx, if enough then block else 0, i, x);
    if !enough { MissingHole(t, bpb, Depth(i), root[i], o); }
    InRoot(t, bpb, root, |root|, i);
    if block !in RootFoot(t, root, |root|) + Elements(a) {
      assert root[i := root[i]] == root;
      InodeGrew(t, root, t2, bpb, i, root[i], x, Newly(a, a2, block));
    }
  }

  /** The append through the double root that is not there. */
  lemma ZeroAppended(t: Blocks, root: seq<nat>, a: seq<nat>, t2: Blocks, a2: seq<nat>, bpb: nat, idx: nat, block: nat)
    requires bpb > 0 && |root| == SLOTS && RootOk(t, bpb, root, |root|) && Unowned(a, RootFoot(t, root, |root|))
    requires idx < MaxBlocks(bpb) && !HasRoot(bpb, root, idx) && Outside(t, t2, {0} + Elements(a)) && IsSuffix(a2, a)
    ensures Appended(t, root, a, t2, root, a2, bpb, idx, block)
  {
    hide RootOk, RootFoot;
    ZeroNotInRoot(t, root, |root|);
    OutsideInode(t, t2, bpb, root, {0} + Elements(a), Newly(a, a2, block));
  }

  lemma DirectAppended(t: Blocks, root: seq<nat>, a: seq<nat>, bpb: nat, idx: nat, block: nat)
    requires bpb > 0 && |root| == SLOTS && RootOk(t, bpb, root, |root|) && idx < DIRECT && idx < MaxBlocks(bpb) && block != 0
    ensures Appended(t, root, a, t, root[idx := block], a, bpb, idx, block)
  {
    hide RootOk, RootFoot, MapGrew;
    DirectGrew(t, root, root[idx := block], bpb, idx, block);
    if block !in RootFoot(t, root, |root|) + Elements(a) {
      DirectShape(t, root, bpb, idx, block);
      assert Newly(a, a, block) == {block};
    }
  }

  /**
   EXT2AddBlockToInode at logical index idx. With room it maps idx to the block and moves no
   other index. Without, the block is dropped and the map stays as it was, provided the path,
   which then runs through block 0, finds no other word than 0 there.
   */
  method AddBlock(v: Volume, idx: nat, block: nat)
    requires v.file.bpb > 0 && |v.file.root| == SLOTS && RootOk(v.file.blocks, v.file.bpb, v.file.root, |v.file.root|)
    requires block != 0 && idx < MaxBlocks(v.file.bpb) && Unowned(v.avail, RootFoot(v.file.blocks, v.file.root, |v.file.root|))
    modifies v, v.file`blocks, v.file`root
    ensures |v.file.root| == SLOTS
    ensures old(Orderly(v.file.blocks, v.file.root, v.avail, v.file.bpb, idx)) ==>
              Appended(old(v.file.blocks), old(v.file.root), old(v.avail), v.file.blocks, v.file.root, v.avail, v.file.bpb, idx, block)
    ensures old(Room(v.file.blocks, v.file.root, v.avail, v.file.bpb, idx)) ==>
              |v.avail| == |old(v.avail)| - old(Needs(v.file.blocks, v.file.root, v.file.bpb, idx))
    ensures old(!HasRoot(v.file.bpb, v.file.root, idx) && SlotOf(v.file.bpb, idx) != 13) ==>
              v.file.blocks == old(v.file.blocks) && v.file.root == old(v.file.root) && v.avail == old(v.avail)
    ensures idx < DIRECT ==> v.file.root == old(v.file.root)[idx := block] && v.avail == old(v.avail)
    ensures idx >= DIRECT ==> v.file.root == old(v.file.root)
  {
    hide RootOk, RootFoot, Foot, Tree, Span, Base, Placed, Exactly, Appended, Orderly, Tame, Missing;
    ghost var t, root, a := v.file.blocks, v.file.root, v.avail;
    var bpb := v.file.bpb;
    var i := SlotOf(bpb, idx);
    SlotBounds(bpb, idx);
    InRoot(t, bpb, root, |root|, i);
    if idx < DIRECT {
      v.file.root := v.file.root[idx := block];
      DirectAppended(t, root, a, bpb, idx, block);
      assert Needs(t, root, bpb, idx) == 0 by { NothingMissing(t, bpb, root[i], idx - Base(bpb, i)); }
    } else if i == 13 || v.file.root[i] != 0 {
      v.AddIn(Depth(i), v.file.root[i], idx - Base(bpb, i), block);
      if Orderly(t, root, a, bpb, idx) {
        PathAppended(t, root, a, v.file.blocks, v.avail, bpb, idx, block, i);
      }
      if Room(t, root, a, bpb, idx) { PathTakes(t, root, a, bpb, idx, block, i); }
    } else {
      NothingAppended(t, root, a, bpb, idx, block);
    }
  }

  lemma PathAppended(t: Blocks, root: seq<nat>, a: seq<nat>, t2: Blocks, a2: seq<nat>, bpb: nat, idx: nat, block: nat, i: nat)
    requires bpb > 0 && |root| == SLOTS && RootOk(t, bpb, root, |root|) && Unowned(a, RootFoot(t, root, |root|)) && block != 0
    requires idx < MaxBlocks(bpb) && DIRECT <= i == SlotOf(bpb, idx) < SLOTS && Base(bpb, i) <= idx && (i == 13 || root[i] != 0)
    requires (t2, a2) == Placed(t, a, bpb, Depth(i), root[i], idx - Base(bpb, i), block)
    requires Orderly(t, root, a, bpb, idx)
    ensures Appended(t, root, a, t2, root, a2, bpb, idx, block)
  {
    hide RootOk, RootFoot, Foot, Tree, Span, Base, Placed, Exactly, Appended, Tame, Missing;
    SlotBounds(bpb, idx);
    if root[i] != 0 {
      InRoot(t, bpb, root, |root|, i);
      PlacedExact(t, a, bpb, Depth(i), root[i], idx - Base(bpb, i), block);
      SlotAppended(t, root, a, t2, a2, bpb, idx, block, i);
    } else {
      PlacedInZero(t, a, bpb, 2, idx - Base(bpb, i), block);
      ZeroAppended(t, root, a, t2, a2, bpb, idx, block);
    }
  }

  lemma NothingMissing(t: Blocks, bpb: nat, b: nat, o: nat)
    requires bpb > 0
    ensures Missing(t, bpb, 0, b, o) == 0
  {}

  lemma PathTakes(t: Blocks, root: seq<nat>, a: seq<nat>, bpb: nat, idx: nat, block: nat, i: nat)
    requires bpb > 0 && |root| == SLOTS && RootOk(t, bpb, root, |root|) && Unowned(a, RootFoot(t, root, |root|))
    requires idx < MaxBlocks(bpb) && DIRECT <= i == SlotOf(bpb, idx) < SLOTS && Base(bpb, i) <= idx && Room(t, root, a, bpb, idx)
    ensures |Placed(t, a, bpb, Depth(i), root[i], idx - Base(bpb, i), block).1| == |a| - Needs(t, root, bpb, idx)
  {
    hide RootOk, RootFoot, Foot, Tree, Span, Base, Placed, Missing;
    SlotBounds(bpb, idx);
    InRoot(t, bpb, root, |root|, i);
    PlacedTakes(t, a, bpb, Depth(i), root[i], idx - Base(bpb, i), block);
  }

  lemma NothingAppended(t: Blocks, root: seq<nat>, a: seq<nat>, bpb: nat, idx: nat, block: nat)
    requires bpb > 0 && |root| == SLOTS && RootOk(t, bpb, root, |root|) && Unowned(a, RootFoot(t, root, |root|))
    requires idx < MaxBlocks(bpb) && !HasRoot(bpb, root, idx)
    ensures Appended(t, root, a, t, root, a, bpb, idx, block)
  {
    hide RootOk, RootFoot, Appended;
    ZeroAppended(t, root, a, t, a, bpb, idx, block);
  }

  /** So the index reads the block afterwards if and only if there was room, or it read it before. */
  lemma AppendedExact(t: Blocks, root: seq<nat>, a: seq<nat>, t2: Blocks, root2: seq<nat>, a2: seq<nat>, bpb: nat, idx: nat, block: nat)
    requires bpb > 0 && |root| == |root2| == SLOTS && idx < MaxBlocks(bpb)
    requires Appended(t, root, a, t2, root2, a2, bpb, idx, block)
    ensures BlockAt(t2, bpb, root2, idx) == block <==> Room(t, root, a, bpb, idx) || BlockAt(t, bpb, root, idx) == block
  {
    hide Room, BlockAt, RootGrew;
  }

  /** What is left to hand out belongs to nobody. */
  lemma StillUnowned(a: seq<nat>, a2: seq<nat>, before: set<nat>, now: set<nat>, block: nat)
    requires IsSuffix(a2, a) && Unowned(a, before) && block !in Elements(a) && now <= before + Newly(a, a2, block)
    ensures Unowned(a2, now)
  {
    var k := |a| - |a2|;
    forall i | 0 <= i < |a2| ensures a2[i] != 0 && a2[i] !in now {
      assert a2[i] == a[k + i] && a2[i] in Elements(a2) && a[k + i] in Elements(a);
    }
    forall i, j | 0 <= i < j < |a2| ensures a2[i] != a2[j] { assert a2[i] == a[k + i] && a2[j] == a[k + j]; }
  }

  lemma DirectShape(t: Blocks, root: seq<nat>, bpb: nat, idx: nat, block: nat)
    requires |root| == SLOTS && RootOk(t, bpb, root, |root|) && idx < DIRECT && block != 0 && block !in RootFoot(t, root, |root|)
    ensures RootGrew(t, root, t, root[idx := block], bpb, {block})
  {
    assert StillTree(t, t, bpb, 0, root[idx], block, {block});
    hide RootOk, RootFoot, Foot, Tree;
    InodeGrew(t, root, t, bpb, idx, block, {}, {block});
  }

  lemma DirectGrew(t: Blocks, root: seq<nat>, root2: seq<nat>, bpb: nat, idx: nat, block: nat)
    requires bpb > 0 && |root| == SLOTS && RootOk(t, bpb, root, |root|) && idx < DIRECT && root2 == root[idx := block]
    requires idx < MaxBlocks(bpb)
    ensures MapGrew(t, root, t, root2, bpb, idx, block)
  {
    assert Span(bpb, 0) == 1 && Added(t, t, bpb, 0, root[idx], block, 0, block);
    SlotGrew(t, root, t, root2, bpb, idx, block, idx, {});
  }

  /** A file grown by a new block and then truncated: the cut of the grown map, ready to grow again. */
  method GrowThenTruncate(v: Volume, idx: nat, block: nat, k: nat)
    requires v.file.bpb > 0 && |v.file.root| == SLOTS && RootOk(v.file.blocks, v.file.bpb, v.file.root, |v.file.root|)
    requires block != 0 && idx < MaxBlocks(v.file.bpb) && Unowned(v.avail, RootFoot(v.file.blocks, v.file.root, |v.file.root|))
    requires Orderly(v.file.blocks, v.file.root, v.avail, v.file.bpb, idx)
    requires block !in RootFoot(v.file.blocks, v.file.root, |v.file.root|) + Elements(v.avail)
    modifies v, v.file
    ensures |v.file.root| == SLOTS && RootOk(v.file.blocks, v.file.bpb, v.file.root, |v.file.root|)
    ensures forall j: nat :: j < MaxBlocks(v.file.bpb) ==>
              BlockAt(v.file.blocks, v.file.bpb, v.file.root, j) ==
                if j >= k then 0
                else if j == idx && old(Room(v.file.blocks, v.file.root, v.avail, v.file.bpb, idx)) then block
                else old(BlockAt(v.file.blocks, v.file.bpb, v.file.root, j))
    ensures RootFoot(v.file.blocks, v.file.root, |v.file.root|)
            <= old(RootFoot(v.file.blocks, v.file.root, |v.file.root|)) + Newly(old(v.avail), v.avail, block)
    ensures Unowned(v.avail, RootFoot(v.file.blocks, v.file.root, |v.file.root|))
    ensures k == 0 ==> RootFoot(v.file.blocks, v.file.root, |v.file.root|) == {}
  {
    hide RootOk, RootFoot, Foot, Tree, Find, Span, BlockAt, MaxBlocks, SlotOf, Base, Missing, Room, Orderly, Unowned;
    ghost var a, before := v.avail, RootFoot(v.file.blocks, v.file.root, |v.file.root|);
    AddBlock(v, idx, block);
    FreeBlocksFrom(v.file, k);
    StillUnowned(a, v.avail, before, RootFoot(v.file.blocks, v.file.root, |v.file.root|), block);
  }
}
