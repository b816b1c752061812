/**
 Truncation of an ext2 file: the loops that release every block from a logical index
 on and every index block they leave empty, over block buffers updated in place.
 */
module Ext2Truncate {
  import opened Words
  import opened Ext2Index
  import opened Ext2Count

  /** t with index block b holding es, pointer i replaced by c. */
  function Put(t: Blocks, b: nat, es: seq<nat>, i: nat, c: nat): Blocks
    requires i < |es|
  {
    var es2: seq<nat> := es[i := c];
    t[b := es2]
  }

  /** Blocks outside s are as they were. */
  ghost predicate Outside(t: Blocks, t2: Blocks, s: set<nat>) {
    forall g :: g !in s ==> (g in t <==> g in t2) && (g in t ==> t2[g] == t[g])
  }

  /** How much of pointer k survives when an index block is cut at offset s. */
  function CutAt(s: nat, z: nat, k: nat): nat
    requires z > 0
  {
    if k < s / z then z else if k == s / z then s % z else 0
  }

  /** An offset lies before the cut exactly when its remainder lies before its pointer's cut. */
  lemma DigitOrder(o: nat, s: nat, z: nat)
    requires z > 0
    ensures o < s <==> o % z < CutAt(s, z, o / z)
  {
    var i, q := o / z, s / z;
    assert o == i * z + o % z && s == q * z + s % z;
    if i < q {
      assert q * z == i * z + (q - i) * z;
      MulAtLeast(q - i, z);
    } else if q < i {
      assert i * z == q * z + (i - q) * z;
      MulAtLeast(i - q, z);
    }
  }

  /** Offsets below s keep their block, offsets from s on become holes. */
  ghost predicate CutFind(t: Blocks, t2: Blocks, bpb: nat, d: nat, b: nat, b2: nat, s: nat)
    requires bpb > 0
  {
    forall o: nat :: o < Span(bpb, d) ==>
      Find(t2, bpb, d, b2, o) == if o < s then Find(t, bpb, d, b, o) else 0
  }

  /** Nothing is shared or gained, and nothing outside the subtree changes. */
  ghost predicate CutShape(t: Blocks, t2: Blocks, bpb: nat, d: nat, b: nat, b2: nat) {
    && Tree(t2, bpb, d, b2) && Foot(t2, d, b2) <= Foot(t, d, b) && (b2 == b || b2 == 0)
    && Outside(t, t2, Foot(t, d, b))
  }

  /** No index block below b is empty. */
  ghost predicate Tight(t: Blocks, d: nat, b: nat)
    decreases d, 0
  {
    b != 0 && d > 0 && b in t ==> (exists i :: 0 <= i < |t[b]| && t[b][i] != 0) && TightOf(t, d - 1, t[b], |t[b]|)
  }

  ghost predicate TightOf(t: Blocks, d: nat, es: seq<nat>, n: nat)
    requires n <= |es|
    decreases d, n + 1
  {
    n > 0 ==> TightOf(t, d, es, n - 1) && Tight(t, d, es[n - 1])
  }

  /**
   The index blocks a cut at offset s visits and keeps are not empty: the table itself, and the
   one below the pointer the cut falls in, and so on down.
   */
  ghost predicate EdgeTight(t: Blocks, bpb: nat, d: nat, b: nat, s: nat)
    requires bpb > 0
    decreases d
  {
    b != 0 && d > 0 && b in t ==>
      && (exists i :: 0 <= i < |t[b]| && t[b][i] != 0)
      && (SpanPositive(bpb, d - 1);
          var i := s / Span(bpb, d - 1);
          i < |t[b]| ==> EdgeTight(t, bpb, d - 1, t[b][i], s % Span(bpb, d - 1)))
  }

  lemma {:induction false} EdgeFrame(t: Blocks, t2: Blocks, bpb: nat, d: nat, b: nat, s: nat)
    requires bpb > 0 && Tree(t, bpb, d, b) && SameOn(t, t2, Foot(t, d, b)) && EdgeTight(t, bpb, d, b, s)
    ensures EdgeTight(t2, bpb, d, b, s)
    decreases d
  {
    if b != 0 && d > 0 {
      SpanPositive(bpb, d - 1);
      var i := s / Span(bpb, d - 1);
      if i < bpb {
        InForest(t, bpb, d - 1, t[b], bpb, i);
        EdgeFrame(t, t2, bpb, d - 1, t[b][i], s % Span(bpb, d - 1));
      }
    }
  }

  /** The edge below pointer k after pointer i was cut and written back. */
  lemma EdgeSlot(t: Blocks, t1: Blocks, bpb: nat, d: nat, b: nat, i: nat, c: nat, k: nat, r: nat)
    requires bpb > 0 && b in t && |t[b]| == bpb && i < bpb && k < bpb
    requires Forest(t, bpb, d, t[b], bpb) && b !in FootOf(t, d, t[b], bpb) && CutShape(t, t1, bpb, d, t[b][i], c)
    requires if k == i then EdgeTight(t1, bpb, d, c, r) else EdgeTight(t, bpb, d, t[b][k], r)
    ensures EdgeTight(Put(t1, b, t[b], i, c), bpb, d, t[b][i := c][k], r)
  {
    var t2 := Put(t1, b, t[b], i, c);
    InForest(t, bpb, d, t[b], bpb, i);
    InForest(t, bpb, d, t[b], bpb, k);
    if k == i {
      EdgeFrame(t1, t2, bpb, d, c, r);
    } else {
      SlotsApart(t, bpb, d, t[b], bpb, i, k);
      EdgeFrame(t, t2, bpb, d, t[b][k], r);
    }
  }

  lemma {:induction false} TightFrame(t: Blocks, t2: Blocks, bpb: nat, d: nat, b: nat)
    requires Tree(t, bpb, d, b) && SameOn(t, t2, Foot(t, d, b)) && Tight(t, d, b)
    ensures Tight(t2, d, b)
    decreases d, 0
  {
    if b != 0 && d > 0 { TightOfFrame(t, t2, bpb, d - 1, t[b], bpb); }
  }

  lemma {:induction false} TightOfFrame(t: Blocks, t2: Blocks, bpb: nat, d: nat, es: seq<nat>, n: nat)
    requires n <= |es| && Forest(t, bpb, d, es, n) && SameOn(t, t2, FootOf(t, d, es, n)) && TightOf(t, d, es, n)
    ensures TightOf(t2, d, es, n)
    decreases d, n + 1
  {
    if n > 0 {
      TightOfFrame(t, t2, bpb, d, es, n - 1);
      TightFrame(t, t2, bpb, d, es[n - 1]);
    }
  }

  lemma {:induction false} TightReplace(t: Blocks, t2: Blocks, bpb: nat, d: nat, es: seq<nat>, i: nat, c: nat, n: nat)
    requires i < n <= |es| && Forest(t, bpb, d, es, n) && TightOf(t, d, es, n)
    requires Outside(t, t2, Foot(t, d, es[i])) && Tight(t2, d, c)
    ensures TightOf(t2, d, es[i := c], n)
    decreases n
  {
    if i < n - 1 {
      TightReplace(t, t2, bpb, d, es, i, c, n - 1);
      InForest(t, bpb, d, es, n - 1, i);
      TightFrame(t, t2, bpb, d, es[n - 1]);
    } else {
      TightOfFrame(t, t2, bpb, d, es, i);
      TightPrefix(t2, d, es, es[i := c], i);
    }
  }

  lemma {:induction false} TightPrefix(t: Blocks, d: nat, es: seq<nat>, es2: seq<nat>, n: nat)
    requires n <= |es| && n <= |es2| && (forall k :: 0 <= k < n ==> es[k] == es2[k]) && TightOf(t, d, es, n)
    ensures TightOf(t, d, es2, n)
    decreases n
  {
    if n > 0 { TightPrefix(t, d, es, es2, n - 1); }
  }

  lemma {:induction false} TightAt(t: Blocks, d: nat, es: seq<nat>, n: nat, i: nat)
    requires i < n <= |es| && TightOf(t, d, es, n)
    ensures Tight(t, d, es[i])
    decreases n
  {
    if i < n - 1 { TightAt(t, d, es, n - 1, i); }
  }

  /** The table-level state of a cut after the pointers below i have been handled. */
  ghost predicate Cutting(t0: Blocks, t: Blocks, bpb: nat, d: nat, b: nat, s: nat, i: nat, rel: multiset<nat>)
    requires bpb > 0
  {
    && b != 0 && b in t0 && |t0[b]| == bpb && b in t && |t[b]| == bpb
    && Forest(t0, bpb, d, t0[b], bpb) && b !in FootOf(t0, d, t0[b], bpb)
    && Forest(t, bpb, d, t[b], bpb) && FootOf(t, d, t[b], bpb) <= FootOf(t0, d, t0[b], bpb)
    && Outside(t0, t, {b} + FootOf(t0, d, t0[b], bpb))
    && rel == multiset(FootOf(t0, d, t0[b], bpb) - FootOf(t, d, t[b], bpb))
    && (forall k :: i <= k < bpb ==> t[b][k] == t0[b][k])
    && (TightOf(t0, d, t0[b], bpb) ==> TightOf(t, d, t[b], bpb))
  }

  ghost predicate CutTo(t0: Blocks, t: Blocks, bpb: nat, d: nat, b: nat, s: nat, i: nat)
    requires bpb > 0 && b in t0 && b in t && |t0[b]| == |t[b]| == bpb
  {
    SpanPositive(bpb, d);
    && (forall k :: 0 <= k < bpb && k < i ==> CutFind(t0, t, bpb, d, t0[b][k], t[b][k], CutAt(s, Span(bpb, d), k)))
    && (forall k :: 0 <= k < bpb && i <= k ==> CutFind(t0, t, bpb, d, t0[b][k], t[b][k], Span(bpb, d)))
  }

  lemma {:induction false} SlotsApart(t: Blocks, bpb: nat, d: nat, es: seq<nat>, n: nat, i: nat, j: nat)
    requires i < n <= |es| && j < n && i != j && Forest(t, bpb, d, es, n)
    ensures Foot(t, d, es[i]) !! Foot(t, d, es[j])
    decreases n
  {
    if i == n - 1 { InForest(t, bpb, d, es, n - 1, j); }
    else if j == n - 1 { InForest(t, bpb, d, es, n - 1, i); }
    else { SlotsApart(t, bpb, d, es, n - 1, i, j); }
  }

  /** Writing index block b after pointer i was cut. */
  lemma SlotWritten(t: Blocks, t1: Blocks, bpb: nat, d: nat, b: nat, i: nat, c: nat)
    requires b in t && |t[b]| == bpb && i < bpb && Forest(t, bpb, d, t[b], bpb) && b !in FootOf(t, d, t[b], bpb)
    requires CutShape(t, t1, bpb, d, t[b][i], c)
    ensures b in t1 && t1[b] == t[b]
    ensures var t2 := Put(t1, b, t[b], i, c);
            && Forest(t2, bpb, d, t2[b], bpb) && Outside(t, t2, {b} + Foot(t, d, t[b][i]))
            && FootOf(t2, d, t2[b], bpb) == FootOf(t, d, t[b], bpb) - (Foot(t, d, t[b][i]) - Foot(t1, d, c))
  {
    InForest(t, bpb, d, t[b], bpb, i);
    hide Forest, Tree, Foot, FootOf;
    ReplaceSlot(t, t1, bpb, d, t[b], i, c, bpb);
    ForestFrame(t1, Put(t1, b, t[b], i, c), bpb, d, t[b][i := c], bpb);
  }

  lemma ReleasedSets(f0: set<nat>, f: set<nat>, gone: set<nat>)
    requires f <= f0 && gone <= f
    ensures multiset(f0 - (f - gone)) == multiset(f0 - f) + multiset(gone)
  {
    assert f0 - (f - gone) == (f0 - f) + gone;
  }

  lemma TightSlot(t: Blocks, t1: Blocks, bpb: nat, d: nat, b: nat, i: nat, c: nat)
    requires b in t && |t[b]| == bpb && i < bpb && Forest(t, bpb, d, t[b], bpb) && b !in FootOf(t, d, t[b], bpb)
    requires CutShape(t, t1, bpb, d, t[b][i], c) && (Tight(t, d, t[b][i]) ==> Tight(t1, d, c)) && TightOf(t, d, t[b], bpb)
    ensures TightOf(Put(t1, b, t[b], i, c), d, t[b][i := c], bpb)
  {
    InForest(t, bpb, d, t[b], bpb, i);
    TightAt(t, d, t[b], bpb, i);
    hide Forest, Tree, Foot, FootOf, Tight, TightOf;
    TightReplace(t, t1, bpb, d, t[b], i, c, bpb);
    ReplaceSlot(t, t1, bpb, d, t[b], i, c, bpb);
    TightOfFrame(t1, Put(t1, b, t[b], i, c), bpb, d, t[b][i := c], bpb);
  }

  lemma CutSlotShape(t0: Blocks, t: Blocks, t1: Blocks, bpb: nat, d: nat, b: nat, s: nat, i: nat, c: nat, rel: multiset<nat>)
    requires bpb > 0 && i < bpb && Cutting(t0, t, bpb, d, b, s, i, rel)
    requires CutShape(t, t1, bpb, d, t[b][i], c) && (Tight(t, d, t[b][i]) ==> Tight(t1, d, c))
    ensures b in t1 && t1[b] == t[b]
    ensures Cutting(t0, Put(t1, b, t[b], i, c), bpb, d, b, s, i + 1, rel + multiset(Foot(t, d, t[b][i]) - Foot(t1, d, c)))
  {
    hide Forest, Tree, Foot, FootOf, Tight, TightOf;
    InForest(t, bpb, d, t[b], bpb, i);
    SlotWritten(t, t1, bpb, d, b, i, c);
    if TightOf(t0, d, t0[b], bpb) { TightSlot(t, t1, bpb, d, b, i, c); }
    hide CutShape;
    ReleasedSets(FootOf(t0, d, t0[b], bpb), FootOf(t, d, t[b], bpb), Foot(t, d, t[b][i]) - Foot(t1, d, c));
  }

  /** A hole needs no cutting. */
  lemma SkipSlot(t0: Blocks, t: Blocks, bpb: nat, d: nat, b: nat, s: nat, i: nat, rel: multiset<nat>)
    requires bpb > 0 && i < bpb && Cutting(t0, t, bpb, d, b, s, i, rel) && CutTo(t0, t, bpb, d, b, s, i) && t[b][i] == 0
    ensures Cutting(t0, t, bpb, d, b, s, i + 1, rel) && CutTo(t0, t, bpb, d, b, s, i + 1)
  {
    SpanPositive(bpb, d);
    hide Forest, Tree, Foot, FootOf, Tight, TightOf;
    assert CutFind(t0, t, bpb, d, 0, 0, CutAt(s, Span(bpb, d), i));
  }

  lemma NothingCut(t0: Blocks, bpb: nat, d: nat, b: nat, s: nat, i: nat)
    requires bpb > 0 && b != 0 && Tree(t0, bpb, d + 1, b) && Span(bpb, d) > 0
    requires i <= s / Span(bpb, d)
    ensures Cutting(t0, t0, bpb, d, b, s, i, multiset{}) && CutTo(t0, t0, bpb, d, b, s, i)
  {
    assert b in t0 && |t0[b]| == bpb;
    hide Forest, Foot, FootOf, Tight, TightOf, Span, Find;
    assert FootOf(t0, d, t0[b], bpb) - FootOf(t0, d, t0[b], bpb) == {};
    forall k | 0 <= k < bpb ensures CutFind(t0, t0, bpb, d, t0[b][k], t0[b][k], Span(bpb, d)) {}
  }

  lemma CutSlotFind(t0: Blocks, t: Blocks, t1: Blocks, bpb: nat, d: nat, b: nat, s: nat, i: nat, c: nat, rel: multiset<nat>)
    requires bpb > 0 && i < bpb && Cutting(t0, t, bpb, d, b, s, i, rel) && CutTo(t0, t, bpb, d, b, s, i)
    requires CutShape(t, t1, bpb, d, t[b][i], c)
    requires Span(bpb, d) > 0 && CutFind(t, t1, bpb, d, t[b][i], c, CutAt(s, Span(bpb, d), i))
    ensures b in t1 && CutTo(t0, Put(t1, b, t[b], i, c), bpb, d, b, s, i + 1)
  {
    SlotWritten(t, t1, bpb, d, b, i, c);
    var t2 := Put(t1, b, t[b], i, c);
    var z := Span(bpb, d);
    InForest(t, bpb, d, t[b], bpb, i);
    forall k | 0 <= k < bpb
      ensures CutFind(t0, t2, bpb, d, t0[b][k], t2[b][k], if k < i + 1 then CutAt(s, z, k) else z)
    {
      assert CutFind(t0, t, bpb, d, t0[b][k], t[b][k], if k < i then CutAt(s, z, k) else z);
      forall o: nat | o < z
        ensures Find(t2, bpb, d, t2[b][k], o) == if o < (if k < i + 1 then CutAt(s, z, k) else z) then Find(t0, bpb, d, t0[b][k], o) else 0
      {
        SlotRead(t, t1, bpb, d, b, i, c, k, o);
      }
    }
  }

  /** What pointer k reads after pointer i was cut and written back. */
  lemma SlotRead(t: Blocks, t1: Blocks, bpb: nat, d: nat, b: nat, i: nat, c: nat, k: nat, o: nat)
    requires bpb > 0 && b in t && |t[b]| == bpb && i < bpb && k < bpb
    requires Forest(t, bpb, d, t[b], bpb) && b !in FootOf(t, d, t[b], bpb) && CutShape(t, t1, bpb, d, t[b][i], c)
    ensures var t2 := Put(t1, b, t[b], i, c);
            Find(t2, bpb, d, t2[b][k], o) == if k == i then Find(t1, bpb, d, c, o) else Find(t, bpb, d, t[b][k], o)
  {
    var t2 := Put(t1, b, t[b], i, c);
    InForest(t, bpb, d, t[b], bpb, i);
    InForest(t, bpb, d, t[b], bpb, k);
    if k == i {
      FindFrame(t1, t2, bpb, d, c, o);
    } else {
      SlotsApart(t, bpb, d, t[b], bpb, i, k);
      FindFrame(t, t2, bpb, d, t[b][k], o);
    }
  }

  /** A finished table: the cut of every pointer is the cut of the table. */
  lemma TableCut(t0: Blocks, t: Blocks, bpb: nat, d: nat, e: nat, b: nat, s: nat)
    requires bpb > 0 && b != 0 && b in t0 && b in t && |t0[b]| == |t[b]| == bpb && CutTo(t0, t, bpb, d, b, s, bpb)
    requires e == d + 1
    ensures CutFind(t0, t, bpb, e, b, b, s)
  {
    hide CutTo, Find, Span;
    forall o: nat | o < Span(bpb, e)
      ensures Find(t, bpb, e, b, o) == if o < s then Find(t0, bpb, e, b, o) else 0
    {
      TableCutAt(t0, t, bpb, d, e, b, s, o);
    }
  }

  lemma TableCutAt(t0: Blocks, t: Blocks, bpb: nat, d: nat, e: nat, b: nat, s: nat, o: nat)
    requires bpb > 0 && b != 0 && b in t0 && b in t && |t0[b]| == |t[b]| == bpb && CutTo(t0, t, bpb, d, b, s, bpb)
    requires e == d + 1 && o < Span(bpb, e)
    ensures Find(t, bpb, e, b, o) == if o < s then Find(t0, bpb, e, b, o) else 0
  {
    hide CutAt;
    SpanPositive(bpb, d);
    var z := Span(bpb, d);
    DigitOrder(o, s, z);
    var k := o / z;
    if k < bpb {
      assert CutFind(t0, t, bpb, d, t0[b][k], t[b][k], CutAt(s, z, k));
      assert o % z < Span(bpb, d);
    }
  }

  lemma OneMapped(t: Blocks, bpb: nat, b: nat, s: nat)
    requires bpb > 0 && b != 0
    ensures |Mapped(t, bpb, 0, b, s, Span(bpb, 0))| == if s == 0 then 1 else 0
  {
    assert Mapped(t, bpb, 0, b, s, 1) == if s == 0 then {0} else {};
  }

  /** Pointer i, untouched so far, still maps what it did, so its data blocks join the count. */
  lemma CountNext(t0: Blocks, t: Blocks, bpb: nat, d: nat, b: nat, s: nat, i: nat, inner: nat, rel: multiset<nat>)
    requires bpb > 0 && Span(bpb, d) > 0 && i < bpb && i >= s / Span(bpb, d) && inner == if i == s / Span(bpb, d) then s % Span(bpb, d) else 0
    requires Cutting(t0, t, bpb, d, b, s, i, rel) && CutTo(t0, t, bpb, d, b, s, i)
    ensures var z := Span(bpb, d);
      |Mapped(t0, bpb, d + 1, b, s, (i + 1) * z)| == |Mapped(t0, bpb, d + 1, b, s, i * z)| + |Mapped(t, bpb, d, t[b][i], inner, z)|
  {
    assert CutFind(t0, t, bpb, d, t0[b][i], t[b][i], Span(bpb, d));
    hide Mapped, Find, Span, CutTo, Cutting;
    MappedSame(t0, t, bpb, d, t0[b][i], t[b][i], inner, Span(bpb, d));
    CountSlot(t0, bpb, d, d + 1, b, s, i, Span(bpb, d));
  }

  ghost predicate AllHoles(t: Blocks, bpb: nat, b: nat) {
    b in t && |t[b]| == bpb && forall i :: 0 <= i < bpb ==> t[b][i] == 0
  }

  /** The loop over the pointers of b before pointer i: shape, map, count and edge. */
  ghost predicate Advanced(t0: Blocks, t: Blocks, bpb: nat, d: nat, b: nat, s: nat, i: nat, rel: multiset<nat>, n: nat)
    requires bpb > 0
  {
    && Cutting(t0, t, bpb, d, b, s, i, rel) && CutTo(t0, t, bpb, d, b, s, i)
    && n == |Mapped(t0, bpb, d + 1, b, s, i * Span(bpb, d))| && Swept(t, bpb, d, b, s, i)
  }

  /** Pointers below i: none is left if the cut is at 0, and the one the cut falls in has a tight edge. */
  ghost predicate Swept(t: Blocks, bpb: nat, d: nat, b: nat, s: nat, i: nat)
    requires bpb > 0
  {
    SpanPositive(bpb, d);
    && b in t && |t[b]| == bpb
    && (s == 0 ==> forall k :: 0 <= k < i && k < bpb ==> t[b][k] == 0)
    && (s / Span(bpb, d) < i && s / Span(bpb, d) < bpb ==> EdgeTight(t, bpb, d, t[b][s / Span(bpb, d)], s % Span(bpb, d)))
  }

  lemma AdvanceStart(t: Blocks, bpb: nat, d: nat, b: nat, s: nat, i: nat)
    requires bpb > 0 && b != 0 && Tree(t, bpb, d + 1, b) && Span(bpb, d) > 0
    requires i == if s / Span(bpb, d) < bpb then s / Span(bpb, d) else bpb
    ensures Advanced(t, t, bpb, d, b, s, i, multiset{}, 0)
  {
    NothingCut(t, bpb, d, b, s, i);
    hide Cutting, CutTo, Mapped, Tree, EdgeTight;
    CountNone(t, bpb, d + 1, b, s, i, Span(bpb, d));
  }

  /** Pointer i is a hole. */
  lemma AdvanceSkip(t0: Blocks, t: Blocks, bpb: nat, d: nat, b: nat, s: nat, i: nat, rel: multiset<nat>, n: nat)
    requires bpb > 0 && Span(bpb, d) > 0 && s / Span(bpb, d) <= i < bpb && Advanced(t0, t, bpb, d, b, s, i, rel, n) && t[b][i] == 0
    ensures Advanced(t0, t, bpb, d, b, s, i + 1, rel, n)
  {
    hide CutTo, Mapped, Forest, FootOf, TightOf, Span;
    var z := Span(bpb, d);
    var inner := if i == s / z then s % z else 0;
    CountNext(t0, t, bpb, d, b, s, i, inner, rel);
    NoneMapped(t, bpb, d, inner, z);
    SkipSlot(t0, t, bpb, d, b, s, i, rel);
  }

  /** Pointer i was cut to c, which took the blocks from t to t1. */
  lemma AdvanceCut(t0: Blocks, t: Blocks, t1: Blocks, bpb: nat, d: nat, b: nat, s: nat, i: nat, inner: nat, c: nat, rel: multiset<nat>, n: nat)
    requires bpb > 0 && Span(bpb, d) > 0 && s / Span(bpb, d) <= i < bpb && Advanced(t0, t, bpb, d, b, s, i, rel, n)
    requires inner == if i == s / Span(bpb, d) then s % Span(bpb, d) else 0
    requires CutShape(t, t1, bpb, d, t[b][i], c) && CutFind(t, t1, bpb, d, t[b][i], c, inner)
    requires (Tight(t, d, t[b][i]) ==> Tight(t1, d, c)) && EdgeTight(t1, bpb, d, c, inner) && (inner == 0 ==> c == 0)
    ensures b in t1 && t1[b] == t[b] && b in t && |t[b]| == bpb
    ensures Advanced(t0, Put(t1, b, t1[b], i, c), bpb, d, b, s, i + 1, rel + multiset(Foot(t, d, t[b][i]) - Foot(t1, d, c)),
                                n + |Mapped(t, bpb, d, t[b][i], inner, Span(bpb, d))|)
  {
    hide Cutting, CutTo, CutFind, CutShape, EdgeTight, Mapped, Foot, Tight, Span;
    Holds(t0, t, bpb, d, b, s, i, rel, n);
    CountNext(t0, t, bpb, d, b, s, i, inner, rel);
    CutSlotShape(t0, t, t1, bpb, d, b, s, i, c, rel);
    CutSlotFind(t0, t, t1, bpb, d, b, s, i, c, rel);
    AdvanceEdge(t0, t, t1, bpb, d, b, s, i, inner, c, rel);
  }

  lemma AdvanceEdge(t0: Blocks, t: Blocks, t1: Blocks, bpb: nat, d: nat, b: nat, s: nat, i: nat, inner: nat, c: nat, rel: multiset<nat>)
    requires bpb > 0 && Span(bpb, d) > 0 && s / Span(bpb, d) <= i < bpb && Cutting(t0, t, bpb, d, b, s, i, rel)
    requires inner == if i == s / Span(bpb, d) then s % Span(bpb, d) else 0
    requires s / Span(bpb, d) < i ==> EdgeTight(t, bpb, d, t[b][s / Span(bpb, d)], s % Span(bpb, d))
    requires CutShape(t, t1, bpb, d, t[b][i], c) && EdgeTight(t1, bpb, d, c, inner)
    ensures EdgeTight(Put(t1, b, t[b], i, c), bpb, d, t[b][i := c][s / Span(bpb, d)], s % Span(bpb, d))
  {
    hide CutShape, EdgeTight, Forest, FootOf, TightOf, Span;
    EdgeSlot(t, t1, bpb, d, b, i, c, s / Span(bpb, d), s % Span(bpb, d));
  }

  lemma Holds(t0: Blocks, t: Blocks, bpb: nat, d: nat, b: nat, s: nat, i: nat, rel: multiset<nat>, n: nat)
    requires bpb > 0 && Advanced(t0, t, bpb, d, b, s, i, rel, n)
    ensures b in t && |t[b]| == bpb && (i < bpb ==> Tree(t, bpb, d, t[b][i]))
  {
    hide CutTo, Mapped, EdgeTight;
    if i < bpb { InForest(t, bpb, d, t[b], bpb, i); }
  }

  /** A data block goes if the cut is at or before it. */
  lemma LeafCut(t: Blocks, bpb: nat, b: nat, s: nat)
    requires bpb > 0 && b != 0
    ensures var c := if s == 0 then 0 else b;
      && CutShape(t, t, bpb, 0, b, c) && CutFind(t, t, bpb, 0, b, c, s) && EdgeTight(t, bpb, 0, c, s) && Tight(t, 0, c)
      && multiset(Foot(t, 0, b) - Foot(t, 0, c)) == (if s == 0 then multiset{b} else multiset{})
  {
    assert Foot(t, 0, b) == {b} && {b} - {} == {b} && {b} - {b} == {};
  }

  lemma HoleCut(t: Blocks, bpb: nat, d: nat, s: nat)
    requires bpb > 0
    ensures CutShape(t, t, bpb, d, 0, 0) && CutFind(t, t, bpb, d, 0, 0, s) && EdgeTight(t, bpb, d, 0, s) && Tight(t, d, 0)
    ensures multiset(Foot(t, d, 0) - Foot(t, d, 0)) == multiset{}
  {
    forall o: nat ensures Find(t, bpb, d, 0, o) == 0 { NoFind(t, bpb, d, o); }
  }

  class File {
    const bpb: nat
    var blocks: Blocks
    /** i_block: twelve direct pointers, then the single, double and triple indirect roots. */
    var root: seq<nat>
    /** Every block number passed to EXT2DeleteBlockFromBG, with multiplicity. */
    ghost var released: multiset<nat>
    /** How many of them were data blocks, for which i_blocks is lowered. */
    var freed: nat

    constructor (bpb: nat, blocks: Blocks, root: seq<nat>)
      ensures this.bpb == bpb && this.blocks == blocks && this.root == root && released == multiset{} && freed == 0
    {
      this.bpb, this.blocks, this.root, released, freed := bpb, blocks, root, multiset{}, 0;
    }

    /** Cut the subtree below pointer b (depth d) at offset s; the new pointer is b or 0. */
    method CutPointer(d: nat, b: nat, s: nat) returns (b2: nat)
      requires bpb > 0 && Tree(blocks, bpb, d, b)
      modifies this`blocks, this`released, this`freed
      ensures freed == old(freed) + |Mapped(old(blocks), bpb, d, b, s, Span(bpb, d))|
      ensures CutShape(old(blocks), blocks, bpb, d, b, b2) && CutFind(old(blocks), blocks, bpb, d, b, b2, s)
      ensures released == old(released) + multiset(Foot(old(blocks), d, b) - Foot(blocks, d, b2))
      ensures Tight(old(blocks), d, b) ==> Tight(blocks, d, b2)
      ensures EdgeTight(blocks, bpb, d, b2, s)
      ensures s == 0 ==> b2 == 0
      decreases d, 1
    {
      hide CutShape, CutFind, Foot, Tight, EdgeTight, Mapped, Tree, Cutting, CutTo, Span;
      if b == 0 {
        NoneMapped(blocks, bpb, d, s, Span(bpb, d));
        HoleCut(blocks, bpb, d, s);
        return 0;
      }
      if d == 0 {
        OneMapped(blocks, bpb, b, s);
        LeafCut(blocks, bpb, b, s);
        if s > 0 { return b; }
        released := released + multiset{b};
        freed := freed + 1;
        return 0;
      }
      var empty := CutTable(d - 1, b, s);
      b2 := if empty then 0 else b;
      TableDone(old(blocks), blocks, bpb, d, b, s, released - old(released), freed - old(freed));
      if empty { released := released + multiset{b}; }
    }

    /** Cut index block b, whose pointers have depth d, at offset s. */
    method CutTable(d: nat, b: nat, s: nat) returns (empty: bool)
      requires bpb > 0 && b != 0 && Tree(blocks, bpb, d + 1, b)
      modifies this`blocks, this`released, this`freed
      ensures old(released) <= released && old(freed) <= freed
      ensures Advanced(old(blocks), blocks, bpb, d, b, s, bpb, released - old(released), freed - old(freed))
      ensures empty == AllHoles(blocks, bpb, b)
      decreases d + 1, 0
    {
      hide Advanced, Mapped, CutShape, CutFind, Foot, FootOf, Tight, EdgeTight, Span;
      ghost var t0, rel0, freed0 := blocks, released, freed;
      SpanPositive(bpb, d);
      var z := Span(bpb, d);
      var start := s / z;
      var i := if start < bpb then start else bpb;
      AdvanceStart(t0, bpb, d, b, s, i);
      assert released - rel0 == multiset{};
      while i < bpb
        invariant i <= bpb && (start <= i || i == bpb) && rel0 <= released && freed0 <= freed
        invariant Advanced(t0, blocks, bpb, d, b, s, i, released - rel0, freed - freed0)
        decreases bpb - i
      {
        ghost var t, rel, n := blocks, released - rel0, freed - freed0;
        Holds(t0, t, bpb, d, b, s, i, rel, n);
        if blocks[b][i] == 0 {
          AdvanceSkip(t0, t, bpb, d, b, s, i, rel, n);
        } else {
          var inner := if i == start then s % z else 0;
          var c := CutPointer(d, blocks[b][i], inner);
          AdvanceCut(t0, t, blocks, bpb, d, b, s, i, inner, c, rel, n);
          assert released - rel0 == rel + multiset(Foot(t, d, t[b][i]) - Foot(blocks, d, c));
          blocks := Put(blocks, b, blocks[b], i, c);
        }
        i := i + 1;
      }
      Holds(t0, blocks, bpb, d, b, s, bpb, released - rel0, freed - freed0);
      empty := AllZero(b);
    }

    method AllZero(b: nat) returns (empty: bool)
      requires b in blocks && |blocks[b]| == bpb
      ensures empty == AllHoles(blocks, bpb, b)
    {
      empty := true;
      var j := 0;
      while j < bpb && empty
        invariant 0 <= j <= bpb && empty == (forall k :: 0 <= k < j ==> blocks[b][k] == 0)
        decreases bpb - j, empty
      {
        if blocks[b][j] != 0 { empty := false; }
        j := j + 1;
      }
    }
  }

  lemma {:induction false} ZeroForest(t: Blocks, d: nat, es: seq<nat>, n: nat)
    requires n <= |es| && forall k :: 0 <= k < n ==> es[k] == 0
    ensures FootOf(t, d, es, n) == {}
    decreases n
  {
    if n > 0 { ZeroForest(t, d, es, n - 1); }
  }

  /** An index block of zeros maps nothing. */
  lemma ZeroFind(t: Blocks, bpb: nat, d: nat, b: nat, o: nat)
    requires bpb > 0 && d > 0 && b in t && forall k :: 0 <= k < |t[b]| ==> t[b][k] == 0
    ensures Find(t, bpb, d, b, o) == 0
  {
    hide Span;
    SpanPositive(bpb, d - 1);
    NoFind(t, bpb, d - 1, o % Span(bpb, d - 1));
  }

  lemma NoFind(t: Blocks, bpb: nat, d: nat, o: nat)
    requires bpb > 0
    ensures Find(t, bpb, d, 0, o) == 0
  {
    hide Span;
  }

  /** An index block left empty: releasing it too accounts for the whole subtree. */
  lemma EmptyTable(t0: Blocks, t: Blocks, bpb: nat, d: nat, b: nat, s: nat, rel: multiset<nat>)
    requires bpb > 0 && d > 0 && Cutting(t0, t, bpb, d - 1, b, s, bpb, rel) && forall i :: 0 <= i < bpb ==> t[b][i] == 0
    requires CutFind(t0, t, bpb, d, b, b, s)
    ensures CutShape(t0, t, bpb, d, b, 0) && CutFind(t0, t, bpb, d, b, 0, s)
    ensures rel + multiset{b} == multiset(Foot(t0, d, b) - Foot(t, d, 0))
  {
    hide Cutting, CutShape, Foot, Find, Span;
    EmptyAccount(t0, t, bpb, d, b, s, rel);
    EmptyFind(t0, t, bpb, d, b, s, rel);
  }

  lemma EmptyFind(t0: Blocks, t: Blocks, bpb: nat, d: nat, b: nat, s: nat, rel: multiset<nat>)
    requires bpb > 0 && d > 0 && Cutting(t0, t, bpb, d - 1, b, s, bpb, rel) && forall i :: 0 <= i < bpb ==> t[b][i] == 0
    requires CutFind(t0, t, bpb, d, b, b, s)
    ensures CutFind(t0, t, bpb, d, b, 0, s)
  {
    hide Forest, Foot, FootOf, Tree, Tight, TightOf, Span;
    forall o: nat | o < Span(bpb, d) ensures Find(t, bpb, d, 0, o) == Find(t, bpb, d, b, o) {
      ZeroFind(t, bpb, d, b, o);
      NoFind(t, bpb, d, o);
    }
    hide Find;
  }

  lemma EmptyAccount(t0: Blocks, t: Blocks, bpb: nat, d: nat, b: nat, s: nat, rel: multiset<nat>)
    requires bpb > 0 && d > 0 && Cutting(t0, t, bpb, d - 1, b, s, bpb, rel) && forall i :: 0 <= i < bpb ==> t[b][i] == 0
    ensures CutShape(t0, t, bpb, d, b, 0) && rel + multiset{b} == multiset(Foot(t0, d, b) - Foot(t, d, 0))
  {
    ZeroForest(t, d - 1, t[b], bpb);
    assert Foot(t0, d, b) == {b} + FootOf(t0, d - 1, t0[b], bpb) && Foot(t, d, 0) == {} && Tree(t, bpb, d, 0);
    hide Find, CutFind, Span, Forest, FootOf, Foot;
    assert FootOf(t0, d - 1, t0[b], bpb) - {} == FootOf(t0, d - 1, t0[b], bpb);
  }

  /** A table whose every pointer was handled: what is left of it, and what went. */
  lemma TableDone(t0: Blocks, t: Blocks, bpb: nat, d: nat, b: nat, s: nat, rel: multiset<nat>, n: nat)
    requires bpb > 0 && d > 0 && Advanced(t0, t, bpb, d - 1, b, s, bpb, rel, n)
    ensures var b2 := if AllHoles(t, bpb, b) then 0 else b;
      && CutShape(t0, t, bpb, d, b, b2) && CutFind(t0, t, bpb, d, b, b2, s) && EdgeTight(t, bpb, d, b2, s)
      && rel + (if b2 == 0 then multiset{b} else multiset{}) == multiset(Foot(t0, d, b) - Foot(t, d, b2))
      && (Tight(t0, d, b) ==> Tight(t, d, b2)) && (s == 0 ==> b2 == 0) && n == |Mapped(t0, bpb, d, b, s, Span(bpb, d))|
  {
    SpanPositive(bpb, d - 1);
    assert Span(bpb, d) == bpb * Span(bpb, d - 1);
    hide Mapped, Span;
    TableFinds(t0, t, bpb, d, b, s, rel);
    hide CutTo, CutFind;
    if AllHoles(t, bpb, b) {
      EmptyTable(t0, t, bpb, d, b, s, rel);
      HoleCut(t, bpb, d, s);
    } else {
      KeptTable(t0, t, bpb, d, b, s, rel);
      KeptEdge(t, bpb, d, b, s);
    }
  }

  lemma KeptEdge(t: Blocks, bpb: nat, d: nat, b: nat, s: nat)
    requires bpb > 0 && d > 0 && Span(bpb, d - 1) > 0 && b in t && |t[b]| == bpb && exists i :: 0 <= i < bpb && t[b][i] != 0
    requires s / Span(bpb, d - 1) < bpb ==> EdgeTight(t, bpb, d - 1, t[b][s / Span(bpb, d - 1)], s % Span(bpb, d - 1))
    ensures EdgeTight(t, bpb, d, b, s)
  {
    hide Span;
  }

  lemma TableFinds(t0: Blocks, t: Blocks, bpb: nat, d: nat, b: nat, s: nat, rel: multiset<nat>)
    requires bpb > 0 && d > 0 && Cutting(t0, t, bpb, d - 1, b, s, bpb, rel) && CutTo(t0, t, bpb, d - 1, b, s, bpb)
    ensures CutFind(t0, t, bpb, d, b, b, s)
  {
    hide CutTo, CutFind, Forest, FootOf, TightOf;
    TableCut(t0, t, bpb, d - 1, d, b, s);
  }

  lemma KeptTable(t0: Blocks, t: Blocks, bpb: nat, d: nat, b: nat, s: nat, rel: multiset<nat>)
    requires bpb > 0 && d > 0 && Cutting(t0, t, bpb, d - 1, b, s, bpb, rel) && exists i :: 0 <= i < bpb && t[b][i] != 0
    ensures CutShape(t0, t, bpb, d, b, b) && rel == multiset(Foot(t0, d, b) - Foot(t, d, b))
    ensures Tight(t0, d, b) ==> Tight(t, d, b)
  {
    var f0, f := FootOf(t0, d - 1, t0[b], bpb), FootOf(t, d - 1, t[b], bpb);
    assert Foot(t0, d, b) == {b} + f0 && Foot(t, d, b) == {b} + f;
    assert ({b} + f0) - ({b} + f) == f0 - f;
  }
}
