/**
 The ext2 block map: twelve direct pointers and the roots of a single, a double and
 a triple indirect tree of index blocks. A pointer of depth d is 0 (a hole), a data
 block when d = 0, or an index block of `bpb` pointers of depth d - 1.
 */
module Ext2Index {

  /** Index blocks by block number. */
  type Blocks = map<nat, seq<nat>>

  /** Data blocks reachable through one pointer of depth d. */
  function Span(bpb: nat, d: nat): nat {
    if d == 0 then 1 else bpb * Span(bpb, d - 1)
  }

  lemma {:induction false} SpanPositive(bpb: nat, d: nat)
    requires bpb > 0
    ensures Span(bpb, d) > 0
  {
    if d > 0 { SpanPositive(bpb, d - 1); }
  }

  /** The data block at offset o below pointer b, or 0. */
  ghost function Find(t: Blocks, bpb: nat, d: nat, b: nat, o: nat): nat
    requires bpb > 0
    decreases d
  {
    SpanPositive(bpb, d);
    if b == 0 || d == 0 then b
    else
      SpanPositive(bpb, d - 1);
      var i := o / Span(bpb, d - 1);
      if b in t && i < |t[b]| then Find(t, bpb, d - 1, t[b][i], o % Span(bpb, d - 1)) else 0
  }

  // ---- the blocks a pointer owns -----------------------------------------------------

  ghost function Foot(t: Blocks, d: nat, b: nat): set<nat>
    decreases d, 0
  {
    if b == 0 then {} else if d == 0 || b !in t then {b} else {b} + FootOf(t, d - 1, t[b], |t[b]|)
  }

  /** What the first n pointers of es, each of depth d, own. */
  ghost function FootOf(t: Blocks, d: nat, es: seq<nat>, n: nat): set<nat>
    requires n <= |es|
    decreases d, n + 1
  {
    if n == 0 then {} else FootOf(t, d, es, n - 1) + Foot(t, d, es[n - 1])
  }

  /** Every index block has bpb entries and no block is used twice. */
  ghost predicate Tree(t: Blocks, bpb: nat, d: nat, b: nat)
    decreases d, 0
  {
    b != 0 && d > 0 ==>
      && b in t && |t[b]| == bpb && b !in FootOf(t, d - 1, t[b], bpb)
      && Forest(t, bpb, d - 1, t[b], bpb)
  }

  ghost predicate Forest(t: Blocks, bpb: nat, d: nat, es: seq<nat>, n: nat)
    requires n <= |es|
    decreases d, n + 1
  {
    n > 0 ==>
      && Forest(t, bpb, d, es, n - 1) && Tree(t, bpb, d, es[n - 1])
      && Foot(t, d, es[n - 1]) !! FootOf(t, d, es, n - 1)
  }

  ghost predicate SameOn(t: Blocks, t2: Blocks, s: set<nat>) {
    forall g :: g in s ==> (g in t <==> g in t2) && (g in t ==> t2[g] == t[g])
  }

  lemma {:induction false} TreeFrame(t: Blocks, t2: Blocks, bpb: nat, d: nat, b: nat)
    requires Tree(t, bpb, d, b) && SameOn(t, t2, Foot(t, d, b))
    ensures Tree(t2, bpb, d, b) && Foot(t2, d, b) == Foot(t, d, b)
    decreases d, 0
  {
    if b != 0 && d > 0 { ForestFrame(t, t2, bpb, d - 1, t[b], bpb); }
  }

  lemma {:induction false} ForestFrame(t: Blocks, t2: Blocks, bpb: nat, d: nat, es: seq<nat>, n: nat)
    requires n <= |es| && Forest(t, bpb, d, es, n) && SameOn(t, t2, FootOf(t, d, es, n))
    ensures Forest(t2, bpb, d, es, n) && FootOf(t2, d, es, n) == FootOf(t, d, es, n)
    decreases d, n + 1
  {
    if n > 0 {
      ForestFrame(t, t2, bpb, d, es, n - 1);
      TreeFrame(t, t2, bpb, d, es[n - 1]);
    }
  }

  lemma {:induction false} InForest(t: Blocks, bpb: nat, d: nat, es: seq<nat>, n: nat, i: nat)
    requires i < n <= |es| && Forest(t, bpb, d, es, n)
    ensures Tree(t, bpb, d, es[i]) && Foot(t, d, es[i]) <= FootOf(t, d, es, n)
    decreases n
  {
    if i < n - 1 { InForest(t, bpb, d, es, n - 1, i); }
  }

  lemma {:induction false} FindFrame(t: Blocks, t2: Blocks, bpb: nat, d: nat, b: nat, o: nat)
    requires bpb > 0 && Tree(t, bpb, d, b) && SameOn(t, t2, Foot(t, d, b))
    ensures Find(t2, bpb, d, b, o) == Find(t, bpb, d, b, o)
    decreases d
  {
    if b != 0 && d > 0 {
      SpanPositive(bpb, d - 1);
      var i := o / Span(bpb, d - 1);
      if i < bpb {
        InForest(t, bpb, d - 1, t[b], bpb, i);
        FindFrame(t, t2, bpb, d - 1, t[b][i], o % Span(bpb, d - 1));
      }
    }
  }

  /** Replacing pointer i by one that owns part of what it owned. */
  lemma {:induction false} ReplaceSlot(t: Blocks, t2: Blocks, bpb: nat, d: nat, es: seq<nat>, i: nat, c: nat, n: nat)
    requires i < n <= |es| && Forest(t, bpb, d, es, n)
    requires forall g :: g !in Foot(t, d, es[i]) ==> (g in t <==> g in t2) && (g in t ==> t2[g] == t[g])
    requires Tree(t2, bpb, d, c) && Foot(t2, d, c) <= Foot(t, d, es[i])
    ensures Forest(t2, bpb, d, es[i := c], n)
    ensures FootOf(t2, d, es[i := c], n) == FootOf(t, d, es, n) - (Foot(t, d, es[i]) - Foot(t2, d, c))
    decreases n
  {
    if i < n - 1 {
      ReplaceSlot(t, t2, bpb, d, es, i, c, n - 1);
      InForest(t, bpb, d, es, n - 1, i);
      TreeFrame(t, t2, bpb, d, es[n - 1]);
    } else {
      ForestFrame(t, t2, bpb, d, es, i);
      ForestPrefix(t2, bpb, d, es, es[i := c], i);
    }
  }

  lemma {:induction false} ForestPrefix(t: Blocks, bpb: nat, d: nat, es: seq<nat>, es2: seq<nat>, n: nat)
    requires n <= |es| && n <= |es2| && forall k :: 0 <= k < n ==> es[k] == es2[k]
    ensures FootOf(t, d, es, n) == FootOf(t, d, es2, n) && (Forest(t, bpb, d, es, n) <==> Forest(t, bpb, d, es2, n))
    decreases n
  {
    if n > 0 { ForestPrefix(t, bpb, d, es, es2, n - 1); }
  }
}
