/**
 The block map of a whole inode: logical index to slot and offset, the lookup as the
 kernel computes it, and truncation from a logical index on.
 */
module Ext2Inode {
  import opened Words
  import opened Ext2Index
  import opened Ext2Count
  import opened Ext2Truncate

  const DIRECT: nat := 12
  const SLOTS: nat := 15

  function Depth(i: nat): nat { if i < DIRECT then 0 else i - 11 }

  /** First logical index below slot i. */
  function Base(bpb: nat, i: nat): nat {
    if i <= DIRECT then i else Base(bpb, i - 1) + Span(bpb, Depth(i - 1))
  }

  /** The slot a logical index falls in. */
  function SlotOf(bpb: nat, idx: nat): nat {
    if idx < DIRECT then idx
    else if idx < DIRECT + bpb then 12
    else if idx < DIRECT + bpb + bpb * bpb then 13
    else 14
  }

  lemma Bases(bpb: nat)
    ensures Base(bpb, 12) == 12 && Base(bpb, 13) == 12 + bpb && Base(bpb, 14) == 12 + bpb + bpb * bpb
    ensures Span(bpb, 0) == 1 && Span(bpb, 1) == bpb && Span(bpb, 2) == bpb * bpb && Span(bpb, 3) == bpb * (bpb * bpb)
  {
    assert Span(bpb, 1) == bpb * Span(bpb, 0);
    assert Span(bpb, 2) == bpb * Span(bpb, 1);
    assert Span(bpb, 3) == bpb * Span(bpb, 2);
  }

  /** Largest file the map can describe, in blocks. */
  function MaxBlocks(bpb: nat): nat { Base(bpb, 14) + Span(bpb, 3) }

  /** The block map: what logical index idx is mapped to. */
  ghost function BlockAt(t: Blocks, bpb: nat, root: seq<nat>, idx: nat): nat
    requires bpb > 0 && |root| == SLOTS
  {
    SlotBounds(bpb, idx);
    var i := SlotOf(bpb, idx);
    Find(t, bpb, Depth(i), root[i], idx - Base(bpb, i))
  }

  lemma SlotBounds(bpb: nat, idx: nat)
    requires bpb > 0
    ensures var i := SlotOf(bpb, idx); i < SLOTS && Base(bpb, i) <= idx
    ensures idx < MaxBlocks(bpb) ==> idx - Base(bpb, SlotOf(bpb, idx)) < Span(bpb, Depth(SlotOf(bpb, idx)))
  {
    Bases(bpb);
  }

  // ---- lookup as computed ----------------------------------------------------------------

  function Entry(t: Blocks, b: nat, i: nat): nat {
    if b in t && i < |t[b]| then t[b][i] else 0
  }

  function FindIndirect(t: Blocks, bpb: nat, root: seq<nat>, idx: nat): nat
    requires bpb > 0 && |root| == SLOTS && 12 <= idx
  {
    if root[12] == 0 then 0 else Entry(t, root[12], (idx - 12) % bpb)
  }

  /** The double indirect lookup does not test its root: with a zero root it reads block 0. */
  function FindDoubleIndirect(t: Blocks, bpb: nat, root: seq<nat>, idx: nat): nat
    requires bpb > 0 && |root| == SLOTS && 12 + bpb <= idx
  {
    var b := Entry(t, root[13], (idx - 12 - bpb) / bpb);
    if b == 0 then 0 else Entry(t, b, (idx - 12 - bpb) % bpb)
  }

  /** The triple indirect lookup does not bound its first index: past the root block it reads `past`. */
  function FindTripleIndirect(t: Blocks, bpb: nat, root: seq<nat>, idx: nat, past: nat): nat
    requires bpb > 0 && |root| == SLOTS && 12 + bpb + bpb * bpb <= idx
  {
    var o := idx - 12 - bpb - bpb * bpb;
    if root[14] == 0 then 0 else
      var b := if o / (bpb * bpb) < bpb then Entry(t, root[14], o / (bpb * bpb)) else past;
      if b == 0 then 0 else
        var c := Entry(t, b, o / bpb % bpb);
        if c == 0 then 0 else Entry(t, c, o % bpb)
  }

  /** past: the word in memory where an index too large for the file makes the lookup read. */
  function FindDataBlock(t: Blocks, bpb: nat, root: seq<nat>, idx: nat, past: nat): nat
    requires bpb > 0 && |root| == SLOTS
  {
    if idx < 12 then root[idx]
    else if idx < 12 + bpb then FindIndirect(t, bpb, root, idx)
    else if idx < 12 + bpb + bpb * bpb then FindDoubleIndirect(t, bpb, root, idx)
    else FindTripleIndirect(t, bpb, root, idx, past)
  }

  lemma MulOrder(x: nat, y: nat, b: nat)
    requires x <= y
    ensures x * b <= y * b
  {}

  lemma Regroup(q: nat, q1: nat, b: nat)
    ensures (q * b + q1) * b == q * (b * b) + q1 * b
  {}

  lemma DigitBound(r: nat, b: nat)
    requires b > 0 && r < b * b
    ensures r / b < b
  {
    if r / b >= b { MulOrder(b, r / b, b); }
  }

  lemma Digits(o: nat, b: nat, q: nat, q1: nat, r1: nat)
    requires b > 0 && q1 < b && r1 < b && o == (q * b + q1) * b + r1
    ensures o / b % b == q1 && o % b == r1
  {
    DivModUnique(o, b, q * b + q1, r1);
    DivModUnique(q * b + q1, b, q, q1);
  }

  /** o / b % b and o % (b * b) / b are the same middle digit. */
  lemma MiddleDigit(o: nat, b: nat, z: nat)
    requires b > 0 && z == b * b && z > 0
    ensures o % z / b == o / b % b && o % z % b == o % b
  {
    var q, r := o / z, o % z;
    DigitBound(r, b);
    Regroup(q, r / b, b);
    Digits(o, b, q, r / b, r % b);
  }

  lemma TripleReads(t: Blocks, bpb: nat, root: seq<nat>, o: nat, z: nat, past: nat)
    requires bpb > 0 && |root| == SLOTS && z == bpb * bpb && (o < bpb * z || root[14] == 0)
    ensures FindTripleIndirect(t, bpb, root, 12 + bpb + z + o, past) == Find(t, bpb, 3, root[14], o)
  {
    MulAtLeast(bpb, bpb);
    MiddleDigit(o, bpb, z);
    if root[14] != 0 {
      ThreeLevels(t, bpb, root[14], o);
      if o / z >= bpb { MulOrder(bpb, o / z, z); }
    }
    hide Find;
    assert 12 + bpb + z + o - 12 - bpb - bpb * bpb == o;
  }

  lemma DoubleReads(t: Blocks, bpb: nat, root: seq<nat>, o: nat)
    requires bpb > 0 && |root| == SLOTS && root[13] != 0
    ensures FindDoubleIndirect(t, bpb, root, 12 + bpb + o) == Find(t, bpb, 2, root[13], o)
  {
    TwoLevels(t, bpb, root[13], o);
    hide Find;
  }

  lemma SingleReads(t: Blocks, bpb: nat, root: seq<nat>, o: nat)
    requires bpb > 0 && |root| == SLOTS && o < bpb
    ensures FindIndirect(t, bpb, root, 12 + o) == Find(t, bpb, 1, root[12], o)
  {
    DivModUnique(o, bpb, 0, o);
    if root[12] != 0 { OneLevel(t, bpb, root[12], o); }
    hide Find;
  }

  /** The lookup goes where it should: through a double root that exists, and not past the triple root. */
  predicate Sound(bpb: nat, root: seq<nat>, idx: nat)
    requires |root| == SLOTS
  {
    && (SlotOf(bpb, idx) == 13 ==> root[13] != 0)
    && (idx >= MaxBlocks(bpb) ==> root[14] == 0)
  }

  /** All three index decompositions read the block map. */
  lemma LookupReadsMap(t: Blocks, bpb: nat, root: seq<nat>, idx: nat, past: nat)
    requires bpb > 0 && |root| == SLOTS && Sound(bpb, root, idx)
    ensures FindDataBlock(t, bpb, root, idx, past) == BlockAt(t, bpb, root, idx)
  {
    Bases(bpb);
    var i := SlotOf(bpb, idx);
    var o := idx - Base(bpb, i);
    if i == 12 {
      SingleReads(t, bpb, root, o);
    } else if i == 13 {
      DoubleReads(t, bpb, root, o);
    } else if i == 14 {
      TripleReads(t, bpb, root, o, bpb * bpb, past);
    }
  }

  /** The lookup reads the map whatever the blocks and the memory behind them hold exactly if it is sound. */
  lemma LookupExact(bpb: nat, root: seq<nat>, idx: nat)
    requires bpb > 0 && |root| == SLOTS
    ensures (forall t: Blocks, past: nat :: FindDataBlock(t, bpb, root, idx, past) == BlockAt(t, bpb, root, idx))
            <==> Sound(bpb, root, idx)
  {
    if SlotOf(bpb, idx) == 13 && root[13] == 0 {
      var t := MissingDoubleRoot(bpb, root, idx, 0);
    } else if idx >= MaxBlocks(bpb) && root[14] != 0 {
      var t, past := PastTripleRoot(bpb, root, idx);
    } else {
      forall t: Blocks, past: nat ensures FindDataBlock(t, bpb, root, idx, past) == BlockAt(t, bpb, root, idx) {
        LookupReadsMap(t, bpb, root, idx, past);
      }
    }
  }

  /** Past the largest file, what the lookup returns is up to the memory behind the root block. */
  lemma PastTripleRoot(bpb: nat, root: seq<nat>, idx: nat) returns (t: Blocks, past: nat)
    requires bpb > 0 && |root| == SLOTS && idx >= MaxBlocks(bpb) && root[14] != 0
    ensures BlockAt(t, bpb, root, idx) == 0 != FindDataBlock(t, bpb, root, idx, past)
  {
    past := root[14] + 1;
    t := map[past := seq(bpb, _ => past)];
    Bases(bpb);
    SlotBounds(bpb, idx);
    var o, z := idx - 12 - bpb - bpb * bpb, bpb * bpb;
    MulAtLeast(bpb, bpb);
    PastIndex(o, bpb, z);
  }

  lemma PastIndex(o: nat, bpb: nat, z: nat)
    requires z > 0 && o >= bpb * z
    ensures o / z >= bpb
  {
    assert o == o / z * z + o % z;
    if o / z < bpb { MulOrder(o / z + 1, bpb, z); }
  }

  lemma OneLevel(t: Blocks, bpb: nat, b: nat, o: nat)
    requires bpb > 0 && b != 0
    ensures Find(t, bpb, 1, b, o) == Entry(t, b, o)
  {
    assert Span(bpb, 0) == 1;
  }

  lemma TwoLevels(t: Blocks, bpb: nat, b: nat, o: nat)
    requires bpb > 0 && b != 0
    ensures var c := Entry(t, b, o / bpb); Find(t, bpb, 2, b, o) == if c == 0 then 0 else Entry(t, c, o % bpb)
  {
    Bases(bpb);
    var c := Entry(t, b, o / bpb);
    if c != 0 { OneLevel(t, bpb, c, o % bpb); }
  }

  lemma ThreeLevels(t: Blocks, bpb: nat, b: nat, o: nat)
    requires bpb > 0 && b != 0 && bpb * bpb > 0
    ensures var c := Entry(t, b, o / (bpb * bpb)); var r := o % (bpb * bpb);
            Find(t, bpb, 3, b, o) == if c == 0 then 0 else
              var e := Entry(t, c, r / bpb); if e == 0 then 0 else Entry(t, e, r % bpb)
  {
    Bases(bpb);
    var c := Entry(t, b, o / (bpb * bpb));
    if c != 0 { TwoLevels(t, bpb, c, o % (bpb * bpb)); }
  }

  /** Without a double indirect root, what the lookup returns is up to the contents of block 0. */
  lemma MissingDoubleRoot(bpb: nat, root: seq<nat>, idx: nat, past: nat) returns (t: Blocks)
    requires bpb > 0 && |root| == SLOTS && SlotOf(bpb, idx) == 13 && root[13] == 0
    ensures BlockAt(t, bpb, root, idx) == 0 != FindDataBlock(t, bpb, root, idx, past)
  {
    t := map[0 := seq(bpb, _ => 7), 7 := seq(bpb, _ => 9)];
    SlotBounds(bpb, idx);
    Bases(bpb);
    var o := idx - 12 - bpb;
    assert o / bpb < bpb by {
      if o / bpb >= bpb { MulOrder(bpb, o / bpb, bpb); }
    }
  }

  // ---- the blocks of a whole inode -----------------------------------------------------

  ghost function RootFoot(t: Blocks, root: seq<nat>, n: nat): set<nat>
    requires n <= |root|
  {
    if n == 0 then {} else RootFoot(t, root, n - 1) + Foot(t, Depth(n - 1), root[n - 1])
  }

  /** The first n slots root trees that share no block. */
  ghost predicate RootOk(t: Blocks, bpb: nat, root: seq<nat>, n: nat)
    requires n <= |root|
  {
    n > 0 ==>
      && RootOk(t, bpb, root, n - 1) && Tree(t, bpb, Depth(n - 1), root[n - 1])
      && Foot(t, Depth(n - 1), root[n - 1]) !! RootFoot(t, root, n - 1)
  }

  lemma {:induction false} RootFrame(t: Blocks, t2: Blocks, bpb: nat, root: seq<nat>, root2: seq<nat>, n: nat)
    requires n <= |root| && n <= |root2| && (forall k :: 0 <= k < n ==> root[k] == root2[k])
    requires RootOk(t, bpb, root, n) && SameOn(t, t2, RootFoot(t, root, n))
    ensures RootOk(t2, bpb, root2, n) && RootFoot(t2, root2, n) == RootFoot(t, root, n)
    decreases n
  {
    if n > 0 {
      RootFrame(t, t2, bpb, root, root2, n - 1);
      TreeFrame(t, t2, bpb, Depth(n - 1), root[n - 1]);
    }
  }

  lemma {:induction false} InRoot(t: Blocks, bpb: nat, root: seq<nat>, n: nat, i: nat)
    requires i < n <= |root| && RootOk(t, bpb, root, n)
    ensures Tree(t, bpb, Depth(i), root[i]) && Foot(t, Depth(i), root[i]) <= RootFoot(t, root, n)
    decreases n
  {
    if i < n - 1 { InRoot(t, bpb, root, n - 1, i); }
  }

  lemma {:induction false} RootApart(t: Blocks, bpb: nat, root: seq<nat>, n: nat, i: nat, j: nat)
    requires i < n <= |root| && j < n && i != j && RootOk(t, bpb, root, n)
    ensures Foot(t, Depth(i), root[i]) !! Foot(t, Depth(j), root[j])
    decreases n
  {
    if i == n - 1 { InRoot(t, bpb, root, n - 1, j); }
    else if j == n - 1 { InRoot(t, bpb, root, n - 1, i); }
    else { RootApart(t, bpb, root, n - 1, i, j); }
  }

  lemma {:induction false} RootReplace(t: Blocks, t2: Blocks, bpb: nat, root: seq<nat>, i: nat, c: nat, n: nat)
    requires i < n <= |root| && RootOk(t, bpb, root, n) && CutShape(t, t2, bpb, Depth(i), root[i], c)
    ensures RootOk(t2, bpb, root[i := c], n)
    ensures RootFoot(t2, root[i := c], n) ==
              RootFoot(t, root, n) - (Foot(t, Depth(i), root[i]) - Foot(t2, Depth(i), c))
    decreases n
  {
    hide Foot, Tree;
    if i < n - 1 {
      RootReplace(t, t2, bpb, root, i, c, n - 1);
      InRoot(t, bpb, root, n - 1, i);
      TreeFrame(t, t2, bpb, Depth(n - 1), root[n - 1]);
    } else {
      RootFrame(t, t2, bpb, root, root[i := c], i);
    }
  }

  // ---- truncation ----------------------------------------------------------------------

  function CutOf(bpb: nat, k: nat, i: nat): nat {
    if k <= Base(bpb, i) then 0 else k - Base(bpb, i)
  }

  ghost predicate Tights(t: Blocks, root: seq<nat>) {
    forall i :: 0 <= i < |root| ==> Tight(t, Depth(i), root[i])
  }

  /** State of EXT2FreeBlocksFrom(k) after the first n slots: shape and release account. */
  ghost predicate Freeing(t0: Blocks, root0: seq<nat>, t: Blocks, root: seq<nat>, bpb: nat, n: nat, rel: multiset<nat>) {
    && bpb > 0 && |root0| == |root| == SLOTS && RootOk(t0, bpb, root0, |root0|) && RootOk(t, bpb, root, |root|)
    && RootFoot(t, root, |root|) <= RootFoot(t0, root0, |root0|)
    && rel == multiset(RootFoot(t0, root0, |root0|) - RootFoot(t, root, |root|))
    && (forall i :: n <= i < SLOTS ==> root[i] == root0[i]) && (forall i :: 0 <= i < SLOTS ==> root[i] == root0[i] || root[i] == 0)
    && (Tights(t0, root0) ==> Tights(t, root))
  }

  /** What every slot now maps. */
  ghost predicate Freed(t0: Blocks, root0: seq<nat>, t: Blocks, root: seq<nat>, bpb: nat, k: nat, n: nat)
    requires bpb > 0 && |root0| == |root| == SLOTS
  {
    && (forall i :: 0 <= i < SLOTS ==>
          CutFind(t0, t, bpb, Depth(i), root0[i], root[i], if i < n then CutOf(bpb, k, i) else Span(bpb, Depth(i))))
    && (k == 0 ==> forall i :: 0 <= i < n && i < SLOTS ==> root[i] == 0)
  }

  /** Slots below n that the cut at k reaches hold no empty index block along its edge. */
  ghost predicate Edges(t: Blocks, root: seq<nat>, bpb: nat, k: nat, n: nat)
    requires bpb > 0 && |root| == SLOTS
  {
    forall i :: 0 <= i < n && i < SLOTS && k < Base(bpb, i) + Span(bpb, Depth(i)) ==>
      EdgeTight(t, bpb, Depth(i), root[i], CutOf(bpb, k, i))
  }

  lemma NoEdges(t: Blocks, root: seq<nat>, bpb: nat, k: nat, n: nat)
    requires bpb > 0 && |root| == SLOTS && n <= k && n <= DIRECT
    ensures Edges(t, root, bpb, k, n)
  {}

  lemma EdgesKept(t: Blocks, root: seq<nat>, t2: Blocks, bpb: nat, k: nat, n: nat, c: nat)
    requires bpb > 0 && |root| == SLOTS && n < SLOTS && RootOk(t, bpb, root, |root|) && Edges(t, root, bpb, k, n)
    requires CutShape(t, t2, bpb, Depth(n), root[n], c) && EdgeTight(t2, bpb, Depth(n), c, CutOf(bpb, k, n))
    ensures Edges(t2, root[n := c], bpb, k, n + 1)
  {
    hide RootOk, RootFoot, Foot, Tree, Span, Base, EdgeTight;
    forall i | 0 <= i < n && k < Base(bpb, i) + Span(bpb, Depth(i)) ensures EdgeTight(t2, bpb, Depth(i), root[i], CutOf(bpb, k, i)) {
      InRoot(t, bpb, root, |root|, i);
      RootApart(t, bpb, root, |root|, n, i);
      EdgeFrame(t, t2, bpb, Depth(i), root[i], CutOf(bpb, k, i));
    }
  }

  lemma EdgesSkip(t: Blocks, root: seq<nat>, bpb: nat, k: nat, n: nat)
    requires bpb > 0 && |root| == SLOTS && n < SLOTS && Edges(t, root, bpb, k, n)
    requires root[n] == 0 || Base(bpb, n) + Span(bpb, Depth(n)) <= k
    ensures Edges(t, root, bpb, k, n + 1)
  {
    hide Span, Base;
  }

  lemma FreeSlotShape(t0: Blocks, root0: seq<nat>, t: Blocks, root: seq<nat>, t2: Blocks, bpb: nat, n: nat, c: nat, rel: multiset<nat>)
    requires n < SLOTS && Freeing(t0, root0, t, root, bpb, n, rel)
    requires CutShape(t, t2, bpb, Depth(n), root[n], c) && (Tight(t, Depth(n), root[n]) ==> Tight(t2, Depth(n), c))
    ensures Freeing(t0, root0, t2, root[n := c], bpb, n + 1, rel + multiset(Foot(t, Depth(n), root[n]) - Foot(t2, Depth(n), c)))
  {
    hide RootOk, RootFoot, Foot, Tree, Tight;
    InRoot(t, bpb, root, |root|, n);
    RootReplace(t, t2, bpb, root, n, c, |root|);
    if Tights(t0, root0) {
      forall i | 0 <= i < SLOTS ensures Tight(t2, Depth(i), root[n := c][i]) {
        if i != n {
          InRoot(t, bpb, root, |root|, i);
          RootApart(t, bpb, root, |root|, n, i);
          TightFrame(t, t2, bpb, Depth(i), root[i]);
        }
      }
    }
    ReleasedSets(RootFoot(t0, root0, |root0|), RootFoot(t, root, |root|), Foot(t, Depth(n), root[n]) - Foot(t2, Depth(n), c));
  }

  lemma FreeSlotFind(t0: Blocks, root0: seq<nat>, t: Blocks, root: seq<nat>, t2: Blocks, bpb: nat, k: nat, n: nat, c: nat, rel: multiset<nat>)
    requires n < SLOTS && Freeing(t0, root0, t, root, bpb, n, rel) && Freed(t0, root0, t, root, bpb, k, n)
    requires CutShape(t, t2, bpb, Depth(n), root[n], c) && CutFind(t, t2, bpb, Depth(n), root[n], c, CutOf(bpb, k, n))
    requires k == 0 ==> c == 0
    ensures Freed(t0, root0, t2, root[n := c], bpb, k, n + 1)
  {
    hide RootOk, RootFoot, Foot, Tree, Tight, Span, Base, CutFind, CutOf;
    forall i | 0 <= i < SLOTS
      ensures CutFind(t0, t2, bpb, Depth(i), root0[i], root[n := c][i], if i < n + 1 then CutOf(bpb, k, i) else Span(bpb, Depth(i)))
    {
      assert CutFind(t0, t, bpb, Depth(i), root0[i], root[i], if i < n then CutOf(bpb, k, i) else Span(bpb, Depth(i)));
      if i == n {
        CutOnce(t0, t, t2, bpb, Depth(n), root0[n], root[n], c, CutOf(bpb, k, n));
      } else {
        InRoot(t, bpb, root, |root|, i);
        RootApart(t, bpb, root, |root|, n, i);
        CutElsewhere(t0, t, t2, bpb, Depth(i), root0[i], root[i], if i < n then CutOf(bpb, k, i) else Span(bpb, Depth(i)));
      }
    }
  }

  /** A cut of what was kept whole. */
  lemma CutOnce(t0: Blocks, t: Blocks, t2: Blocks, bpb: nat, d: nat, b0: nat, b: nat, c: nat, s: nat)
    requires bpb > 0 && CutFind(t0, t, bpb, d, b0, b, Span(bpb, d)) && CutFind(t, t2, bpb, d, b, c, s)
    ensures CutFind(t0, t2, bpb, d, b0, c, s)
  {
    hide Find, Span;
  }

  /** A change that the tree below b does not see. */
  lemma CutElsewhere(t0: Blocks, t: Blocks, t2: Blocks, bpb: nat, d: nat, b0: nat, b: nat, s: nat)
    requires bpb > 0 && CutFind(t0, t, bpb, d, b0, b, s) && Tree(t, bpb, d, b) && SameOn(t, t2, Foot(t, d, b))
    ensures CutFind(t0, t2, bpb, d, b0, b, s)
  {
    hide Find, Span, Tree, Foot, SameOn;
    forall o: nat | o < Span(bpb, d) ensures Find(t2, bpb, d, b, o) == Find(t, bpb, d, b, o) { FindFrame(t, t2, bpb, d, b, o); }
  }

  /** A slot that is empty or lies wholly below k needs nothing. */
  lemma SkipRoot(t0: Blocks, root0: seq<nat>, t: Blocks, root: seq<nat>, bpb: nat, k: nat, n: nat, rel: multiset<nat>)
    requires n < SLOTS && Freeing(t0, root0, t, root, bpb, n, rel) && Freed(t0, root0, t, root, bpb, k, n)
    requires root[n] == 0 || Base(bpb, n) + Span(bpb, Depth(n)) <= k
    ensures Freeing(t0, root0, t, root, bpb, n + 1, rel) && Freed(t0, root0, t, root, bpb, k, n + 1)
  {
    var d := Depth(n);
    SpanPositive(bpb, d);
    assert CutFind(t0, t, bpb, d, root0[n], root[n], Span(bpb, d));
    hide RootOk, RootFoot, Foot, Tree, Tight;
    assert CutFind(t0, t, bpb, d, root0[n], root[n], CutOf(bpb, k, n)) by {
      forall o: nat | o < Span(bpb, d)
        ensures Find(t, bpb, d, root[n], o) == if o < CutOf(bpb, k, n) then Find(t0, bpb, d, root0[n], o) else 0
      {}
    }
  }

  /** Slot by slot, the block map is cut at logical index k. */
  lemma MapIsCut(t0: Blocks, root0: seq<nat>, t: Blocks, root: seq<nat>, bpb: nat, k: nat, idx: nat)
    requires bpb > 0 && |root0| == |root| == SLOTS && Freed(t0, root0, t, root, bpb, k, SLOTS)
    requires idx < MaxBlocks(bpb)
    ensures BlockAt(t, bpb, root, idx) == if idx < k then BlockAt(t0, bpb, root0, idx) else 0
  {
    SlotBounds(bpb, idx);
    var i := SlotOf(bpb, idx);
    assert CutFind(t0, t, bpb, Depth(i), root0[i], root[i], CutOf(bpb, k, i));
  }

  method CutSlot(f: File, k: nat, n: nat, ghost t0: Blocks, ghost root0: seq<nat>, ghost rel0: multiset<nat>)
    requires n < SLOTS && rel0 <= f.released
    requires Freeing(t0, root0, f.blocks, f.root, f.bpb, n, f.released - rel0)
    requires Freed(t0, root0, f.blocks, f.root, f.bpb, k, n) && Edges(f.blocks, f.root, f.bpb, k, n)
    modifies f
    ensures rel0 <= f.released && f.freed == old(f.freed) + |SlotMapped(t0, root0, f.bpb, k, n)|
    ensures Freeing(t0, root0, f.blocks, f.root, f.bpb, n + 1, f.released - rel0)
    ensures Freed(t0, root0, f.blocks, f.root, f.bpb, k, n + 1) && Edges(f.blocks, f.root, f.bpb, k, n + 1)
  {
    hide RootOk, RootFoot, Foot, Tree, Tight, Freed, CutShape, CutFind, Edges, EdgeTight, Base, Span, Mapped;
    ghost var t, rel := f.blocks, f.released - rel0;
    SlotCounts(t0, root0, t, f.root, f.bpb, k, n);
    InRoot(t, f.bpb, f.root, |f.root|, n);
    var c := f.CutPointer(Depth(n), f.root[n], CutOf(f.bpb, k, n));
    EdgesKept(t, f.root, f.blocks, f.bpb, k, n, c);
    FreeSlotShape(t0, root0, t, f.root, f.blocks, f.bpb, n, c, rel);
    FreeSlotFind(t0, root0, t, f.root, f.blocks, f.bpb, k, n, c, rel);
    assert f.released - rel0 == rel + multiset(Foot(t, Depth(n), f.root[n]) - Foot(f.blocks, Depth(n), c));
    f.root := f.root[n := c];
  }

  /** The offsets below slot n that the cut at k frees. */
  ghost function SlotMapped(t: Blocks, root: seq<nat>, bpb: nat, k: nat, n: nat): set<nat>
    requires bpb > 0 && n < |root|
  {
    Mapped(t, bpb, Depth(n), root[n], CutOf(bpb, k, n), Span(bpb, Depth(n)))
  }

  /** A slot the truncation has not reached counts what it did. */
  lemma SlotCounts(t0: Blocks, root0: seq<nat>, t: Blocks, root: seq<nat>, bpb: nat, k: nat, n: nat)
    requires bpb > 0 && |root0| == |root| == SLOTS && n < SLOTS && Freed(t0, root0, t, root, bpb, k, n)
    ensures SlotMapped(t, root, bpb, k, n) == SlotMapped(t0, root0, bpb, k, n)
  {
    hide Find, Span, CutOf, Mapped;
    assert CutFind(t0, t, bpb, Depth(n), root0[n], root[n], Span(bpb, Depth(n)));
    MappedSame(t0, t, bpb, Depth(n), root0[n], root[n], CutOf(bpb, k, n), Span(bpb, Depth(n)));
  }

  lemma SkipCounts(t: Blocks, root: seq<nat>, bpb: nat, k: nat, n: nat)
    requires bpb > 0 && |root| == SLOTS && n < SLOTS && (root[n] == 0 || Base(bpb, n) + Span(bpb, Depth(n)) <= k)
    ensures SlotMapped(t, root, bpb, k, n) == {}
  {
    hide Find, Span, Base;
    if root[n] == 0 { NoneMapped(t, bpb, Depth(n), CutOf(bpb, k, n), Span(bpb, Depth(n))); }
  }

  /** The mapped indices of the file from k up to e. */
  ghost function FileMapped(t: Blocks, bpb: nat, root: seq<nat>, k: nat, e: nat): set<nat>
    requires bpb > 0 && |root| == SLOTS
  {
    set idx: nat | k <= idx < e && BlockAt(t, bpb, root, idx) != 0
  }

  /** The indices of slot n are its offsets, counted from its base. */
  lemma SlotIndices(t: Blocks, bpb: nat, root: seq<nat>, k: nat, n: nat)
    requires bpb > 0 && |root| == SLOTS && n < SLOTS
    ensures |FileMapped(t, bpb, root, k, Base(bpb, n) + Span(bpb, Depth(n)))|
         == |FileMapped(t, bpb, root, k, Base(bpb, n))| + |SlotMapped(t, root, bpb, k, n)|
  {
    hide Find, Span, Base, Mapped, FileMapped;
    var w, z := Base(bpb, n), Span(bpb, Depth(n));
    var whole, low, high := FileMapped(t, bpb, root, k, w + z), FileMapped(t, bpb, root, k, w), SlotMapped(t, root, bpb, k, n);
    forall x: nat ensures x in whole <==> x in low || (x >= w && x - w in high) { IndexMember(t, bpb, root, k, n, x); }
    IndexBelow(t, bpb, root, k, w);
    Joined(whole, low, high, w);
  }

  lemma IndexBelow(t: Blocks, bpb: nat, root: seq<nat>, k: nat, e: nat)
    requires bpb > 0 && |root| == SLOTS
    ensures forall x: nat :: x in FileMapped(t, bpb, root, k, e) ==> x < e
  {
    hide BlockAt;
  }

  lemma IndexMember(t: Blocks, bpb: nat, root: seq<nat>, k: nat, n: nat, x: nat)
    requires bpb > 0 && |root| == SLOTS && n < SLOTS
    ensures var w, z := Base(bpb, n), Span(bpb, Depth(n));
      x in FileMapped(t, bpb, root, k, w + z) <==> x in FileMapped(t, bpb, root, k, w) || (x >= w && x - w in SlotMapped(t, root, bpb, k, n))
  {
    hide Find;
    var w, z := Base(bpb, n), Span(bpb, Depth(n));
    if w <= x < w + z { SlotHolds(bpb, n, x); }
  }

  lemma SlotHolds(bpb: nat, n: nat, x: nat)
    requires bpb > 0 && n < SLOTS && Base(bpb, n) <= x < Base(bpb, n) + Span(bpb, Depth(n))
    ensures SlotOf(bpb, x) == n
  {
    Bases(bpb);
  }

  lemma NothingFreed(t0: Blocks, root0: seq<nat>, bpb: nat, k: nat, n: nat)
    requires bpb > 0 && |root0| == SLOTS && RootOk(t0, bpb, root0, |root0|) && n <= k && n <= DIRECT
    ensures Freeing(t0, root0, t0, root0, bpb, n, multiset{}) && Freed(t0, root0, t0, root0, bpb, k, n)
  {
    assert RootFoot(t0, root0, |root0|) - RootFoot(t0, root0, |root0|) == {};
    forall i | 0 <= i < SLOTS
      ensures CutFind(t0, t0, bpb, Depth(i), root0[i], root0[i], if i < n then CutOf(bpb, k, i) else Span(bpb, Depth(i)))
    {
      if i < n { assert Span(bpb, 0) == 1 && CutOf(bpb, k, i) == k - i; }
    }
  }

  method FreeSlot(f: File, k: nat, n: nat, cut: bool, ghost t0: Blocks, ghost root0: seq<nat>, ghost rel0: multiset<nat>)
    requires n < SLOTS && rel0 <= f.released
    requires Freeing(t0, root0, f.blocks, f.root, f.bpb, n, f.released - rel0)
    requires Freed(t0, root0, f.blocks, f.root, f.bpb, k, n) && Edges(f.blocks, f.root, f.bpb, k, n)
    requires cut || f.root[n] == 0 || Base(f.bpb, n) + Span(f.bpb, Depth(n)) <= k
    modifies f
    ensures rel0 <= f.released && f.freed == old(f.freed) + |SlotMapped(t0, root0, f.bpb, k, n)|
    ensures Freeing(t0, root0, f.blocks, f.root, f.bpb, n + 1, f.released - rel0)
    ensures Freed(t0, root0, f.blocks, f.root, f.bpb, k, n + 1) && Edges(f.blocks, f.root, f.bpb, k, n + 1)
  {
    if !cut {
      EdgesSkip(f.blocks, f.root, f.bpb, k, n);
      SlotCounts(t0, root0, f.blocks, f.root, f.bpb, k, n);
      SkipCounts(f.blocks, f.root, f.bpb, k, n);
    }
    hide Freeing, Freed, Edges, SlotMapped;
    if cut { CutSlot(f, k, n, t0, root0, rel0); }
    else { SkipRoot(t0, root0, f.blocks, f.root, f.bpb, k, n, f.released - rel0); }
  }

  method FreeSlots(f: File, k: nat, ghost t0: Blocks, ghost root0: seq<nat>, ghost rel0: multiset<nat>)
    requires f.bpb > 0 && |f.root| == SLOTS && RootOk(f.blocks, f.bpb, f.root, |f.root|)
    requires t0 == f.blocks && root0 == f.root && rel0 == f.released
    modifies f
    ensures rel0 <= f.released && Freeing(t0, root0, f.blocks, f.root, f.bpb, SLOTS, f.released - rel0)
    ensures Freed(t0, root0, f.blocks, f.root, f.bpb, k, SLOTS) && Edges(f.blocks, f.root, f.bpb, k, SLOTS)
    ensures f.freed == old(f.freed) + |FileMapped(t0, f.bpb, root0, k, MaxBlocks(f.bpb))|
  {
    hide RootOk, RootFoot, Freed, Span, Base, Tights, Edges, SlotMapped, FileMapped;
    ghost var freed0 := f.freed;
    var bpb := f.bpb;
    Bases(bpb);
    DirectBases(bpb);
    var n := if k < DIRECT then k else DIRECT;
    NothingFreed(t0, root0, bpb, k, n);
    NoEdges(t0, root0, bpb, k, n);
    assert f.released - rel0 == multiset{};
    NoIndex(t0, bpb, root0, k, n);
    while n < DIRECT
      invariant n <= DIRECT && rel0 <= f.released
      invariant f.freed == freed0 + |FileMapped(t0, bpb, root0, k, n)|
      invariant Freeing(t0, root0, f.blocks, f.root, bpb, n, f.released - rel0)
      invariant Freed(t0, root0, f.blocks, f.root, bpb, k, n) && Edges(f.blocks, f.root, bpb, k, n)
    {
      SlotIndices(t0, bpb, root0, k, n);
      FreeSlot(f, k, n, f.root[n] != 0, t0, root0, rel0);
      n := n + 1;
    }
    SlotIndices(t0, bpb, root0, k, 12);
    SlotIndices(t0, bpb, root0, k, 13);
    SlotIndices(t0, bpb, root0, k, 14);
    FreeSlot(f, k, 12, k < 12 + bpb && f.root[12] != 0, t0, root0, rel0);
    FreeSlot(f, k, 13, k < 12 + bpb + bpb * bpb && f.root[13] != 0, t0, root0, rel0);
    FreeSlot(f, k, 14, f.root[14] != 0, t0, root0, rel0);
  }

  lemma DirectBases(bpb: nat)
    ensures forall n: nat :: n <= DIRECT ==> Base(bpb, n) == n
  {}

  lemma NoIndex(t: Blocks, bpb: nat, root: seq<nat>, k: nat, n: nat)
    requires bpb > 0 && |root| == SLOTS && n <= k
    ensures FileMapped(t, bpb, root, k, n) == {}
  {}

  lemma {:induction false} NoRoots(t: Blocks, root: seq<nat>, n: nat)
    requires n <= |root| && forall i :: 0 <= i < n ==> root[i] == 0
    ensures RootFoot(t, root, n) == {}
  {
    if n > 0 { NoRoots(t, root, n - 1); }
  }

  /** EXT2FreeBlocksFrom: indices below k keep their block, all others become holes. */
  method FreeBlocksFrom(f: File, k: nat)
    requires f.bpb > 0 && |f.root| == SLOTS && RootOk(f.blocks, f.bpb, f.root, |f.root|)
    modifies f
    ensures |f.root| == SLOTS && RootOk(f.blocks, f.bpb, f.root, |f.root|)
    ensures forall idx: nat :: idx < MaxBlocks(f.bpb) ==>
              BlockAt(f.blocks, f.bpb, f.root, idx) == if idx < k then old(BlockAt(f.blocks, f.bpb, f.root, idx)) else 0
    ensures RootFoot(f.blocks, f.root, |f.root|) <= old(RootFoot(f.blocks, f.root, |f.root|))
    ensures f.released == old(f.released) + multiset(old(RootFoot(f.blocks, f.root, |f.root|)) - RootFoot(f.blocks, f.root, |f.root|))
    ensures old(Tights(f.blocks, f.root)) ==> Tights(f.blocks, f.root)
    ensures Edges(f.blocks, f.root, f.bpb, k, SLOTS)
    ensures forall i :: 0 <= i < SLOTS ==> f.root[i] == old(f.root)[i] || f.root[i] == 0
    ensures f.freed == old(f.freed) + |old(FileMapped(f.blocks, f.bpb, f.root, k, MaxBlocks(f.bpb)))|
    ensures k == 0 ==> RootFoot(f.blocks, f.root, |f.root|) == {}
  {
    ghost var t0, root0 := f.blocks, f.root;
    FreeSlots(f, k, f.blocks, f.root, f.released);
    if k == 0 { NoRoots(f.blocks, f.root, |f.root|); }
    hide RootOk, RootFoot, Freed, Tights, Edges;
    forall idx: nat | idx < MaxBlocks(f.bpb)
      ensures BlockAt(f.blocks, f.bpb, f.root, idx) == if idx < k then BlockAt(t0, f.bpb, root0, idx) else 0
    {
      MapIsCut(t0, root0, f.blocks, f.root, f.bpb, k, idx);
    }
  }
}
