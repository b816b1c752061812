/** How many data blocks lie below a pointer: counted as the sector counter of an inode counts them. */
module Ext2Count {
  import opened Words
  import opened Ext2Index

  /** The mapped offsets from s up to e below pointer b. */
  ghost function Mapped(t: Blocks, bpb: nat, d: nat, b: nat, s: nat, e: nat): set<nat>
    requires bpb > 0
  {
    set o: nat | s <= o < e && Find(t, bpb, d, b, o) != 0
  }

  lemma MappedSame(t: Blocks, t2: Blocks, bpb: nat, d: nat, b: nat, b2: nat, s: nat, e: nat)
    requires bpb > 0 && forall o: nat :: o < e ==> Find(t2, bpb, d, b2, o) == Find(t, bpb, d, b, o)
    ensures Mapped(t2, bpb, d, b2, s, e) == Mapped(t, bpb, d, b, s, e)
  {
    hide Find;
  }

  lemma NoneMapped(t: Blocks, bpb: nat, d: nat, s: nat, e: nat)
    requires bpb > 0
    ensures Mapped(t, bpb, d, 0, s, e) == {}
  {
    hide Span;
  }

  ghost function Shift(s: set<nat>, k: nat): set<nat> { set x | x in s :: x + k }

  lemma {:induction false} ShiftSize(s: set<nat>, k: nat)
    ensures |Shift(s, k)| == |s|
    decreases |s|
  {
    if s != {} {
      var x :| x in s;
      var r := s - {x};
      ShiftSize(r, k);
      forall y ensures y in Shift(s, k) <==> y in Shift(r, k) || y == x + k {
        if y == x + k { assert x in s; }
        if y in Shift(s, k) {
          var w :| w in s && y == w + k;
          assert w == x || w in r;
        }
      }
      assert Shift(s, k) == Shift(r, k) + {x + k};
      assert x + k !in Shift(r, k);
    }
  }

  /** Two adjacent ranges, the second one counted from its own start. */
  lemma Joined(whole: set<nat>, low: set<nat>, high: set<nat>, k: nat)
    requires forall x: nat :: x in low ==> x < k
    requires forall x: nat :: x in whole <==> x in low || (x >= k && x - k in high)
    ensures |whole| == |low| + |high|
  {
    ShiftSize(high, k);
    forall x: nat ensures x in Shift(high, k) <==> x >= k && x - k in high {
      if x >= k && x - k in high { assert (x - k) + k == x; }
    }
    assert whole == low + Shift(high, k) && low !! Shift(high, k);
  }

  /** Offset o lies in the range of pointer i, at r. */
  lemma InSlot(o: nat, i: nat, r: nat, z: nat)
    requires z > 0 && r < z && o == i * z + r
    ensures o / z == i && o % z == r
  {
    DivModUnique(o, z, i, r);
  }

  /** Whether offset i * z + r counts from s on is whether r counts from where pointer i starts to be cut. */
  lemma FromInner(s: nat, z: nat, i: nat, r: nat)
    requires z > 0 && i >= s / z && r < z
    ensures s <= i * z + r <==> (if i == s / z then s % z else 0) <= r
  {
    var q := s / z;
    assert s == q * z + s % z;
    if i > q {
      assert (i - q) * z >= z by { MulAtLeast(i - q, z); }
      assert i * z == q * z + (i - q) * z;
    }
  }

  lemma SlotMember(t: Blocks, bpb: nat, d: nat, e: nat, b: nat, s: nat, i: nat, z: nat, w: nat, x: nat)
    requires bpb > 0 && e == d + 1 && b != 0 && b in t && i < |t[b]| && z == Span(bpb, d) && z > 0 && i >= s / z && w == i * z
    ensures x in Mapped(t, bpb, e, b, s, w + z) <==>
              x in Mapped(t, bpb, e, b, s, w) || (x >= w && x - w in Mapped(t, bpb, d, t[b][i], if i == s / z then s % z else 0, z))
  {
    hide Find, Span;
    if w <= x < w + z {
      InSlot(x, i, x - w, z);
      FromInner(s, z, i, x - w);
      StepDown(t, bpb, d, e, b, x, i, x - w, z);
    }
  }

  /** The next pointer's offsets join the count. */
  lemma CountSlot(t: Blocks, bpb: nat, d: nat, e: nat, b: nat, s: nat, i: nat, z: nat)
    requires bpb > 0 && e == d + 1 && b != 0 && b in t && i < |t[b]| && z == Span(bpb, d) && z > 0 && i >= s / z
    ensures |Mapped(t, bpb, e, b, s, (i + 1) * z)|
         == |Mapped(t, bpb, e, b, s, i * z)| + |Mapped(t, bpb, d, t[b][i], if i == s / z then s % z else 0, z)|
  {
    hide Mapped, Find, Span;
    var w := i * z;
    assert (i + 1) * z == w + z;
    var whole, low := Mapped(t, bpb, e, b, s, w + z), Mapped(t, bpb, e, b, s, w);
    var high := Mapped(t, bpb, d, t[b][i], if i == s / z then s % z else 0, z);
    forall x: nat ensures x in whole <==> x in low || (x >= w && x - w in high) { SlotMember(t, bpb, d, e, b, s, i, z, w, x); }
    LowBelow(t, bpb, e, b, s, w);
    Joined(whole, low, high, w);
  }

  lemma LowBelow(t: Blocks, bpb: nat, d: nat, b: nat, s: nat, e: nat)
    requires bpb > 0
    ensures forall x: nat :: x in Mapped(t, bpb, d, b, s, e) ==> x < e
  {
    hide Find;
  }

  lemma StepDown(t: Blocks, bpb: nat, d: nat, e: nat, b: nat, o: nat, i: nat, r: nat, z: nat)
    requires bpb > 0 && e == d + 1 && b != 0 && b in t && i < |t[b]| && z == Span(bpb, d) && z > 0 && o / z == i && o % z == r
    ensures Find(t, bpb, e, b, o) == Find(t, bpb, d, t[b][i], r)
  {
    hide Span;
  }

  /** Before the cut there is nothing to count. */
  lemma CountNone(t: Blocks, bpb: nat, d: nat, b: nat, s: nat, i: nat, z: nat)
    requires bpb > 0 && z > 0 && i <= s / z
    ensures Mapped(t, bpb, d, b, s, i * z) == {}
  {
    hide Find;
    assert s == s / z * z + s % z;
    assert (s / z - i) * z >= 0;
    assert s / z * z == i * z + (s / z - i) * z;
  }
}
