/**
 The kernel buddy's intrusive free lists: an array of list heads, one next pointer
 stored in the first word of every free page, and a word whose bit k says whether
 list k is non-empty. Address 0 is the null pointer.
 */
module InlineLists {
  import opened Words
  import opened Sequences
  import opened BuddySpec

  /** The frames under management; slot i is the first word of frame base + i. */
  datatype Frames = Frames(base: nat, count: nat) {

    /** A page-aligned, non-null address inside the managed frames. */
    predicate IsPage(a: nat) {
      a > 0 && a % PAGE_SIZE == 0 && base <= a / PAGE_SIZE < base + count
    }

    function Slot(a: nat): (r: nat)
      requires IsPage(a)
      ensures r < count
    {
      a / PAGE_SIZE - base
    }

    /** Head and next pointers spell out the sequence s. */
    ghost predicate Spells(slots: seq<nat>, head: nat, s: seq<nat>) {
      && |slots| == count
      && head == At(s, 0)
      && forall i :: 0 <= i < |s| ==> IsPage(s[i]) && slots[Slot(s[i])] == At(s, i + 1)
    }

    lemma OtherSpells(slots: seq<nat>, head: nat, s: seq<nat>, a: nat, v: nat)
      requires Spells(slots, head, s) && IsPage(a) && a !in s
      ensures Spells(slots[Slot(a) := v], head, s)
    {
      forall i | 0 <= i < |s| ensures Slot(s[i]) != Slot(a) { assert s[i] in s; }
    }

    lemma PushSpells(slots: seq<nat>, head: nat, s: seq<nat>, a: nat)
      requires Spells(slots, head, s) && IsPage(a) && a !in s
      ensures Spells(slots[Slot(a) := head], a, [a] + s)
    {
      OtherSpells(slots, head, s, a, head);
      var t := [a] + s;
      assert forall i :: 0 < i <= |s| ==> t[i] == s[i - 1];
    }

    lemma SpliceSpells(slots: seq<nat>, head: nat, s: seq<nat>, i: nat)
      requires Spells(slots, head, s) && NoDup(s) && i < |s|
      ensures var t := s[..i] + s[i + 1..]; var next := slots[Slot(s[i])];
              if i == 0 then Spells(slots, next, t) else Spells(slots[Slot(s[i - 1]) := next], head, t)
    {
      var t := s[..i] + s[i + 1..];
      var next := slots[Slot(s[i])];
      assert next == At(s, i + 1) == At(t, i);
      if i > 0 {
        var u := slots[Slot(s[i - 1]) := next];
        forall m | 0 <= m < |t| ensures IsPage(t[m]) && u[Slot(t[m])] == At(t, m + 1) { SpliceNext(slots, head, s, i, m); }
      } else {
        forall m | 0 <= m < |t| ensures IsPage(t[m]) && slots[Slot(t[m])] == At(t, m + 1) { assert t[m] == s[m + 1]; }
      }
    }

    /** The link of the m-th node after the i-th was spliced out. */
    lemma SpliceNext(slots: seq<nat>, head: nat, s: seq<nat>, i: nat, m: nat)
      requires Spells(slots, head, s) && NoDup(s) && 0 < i < |s| && m < |s| - 1
      ensures var t := s[..i] + s[i + 1..];
              IsPage(t[m]) && slots[Slot(s[i - 1]) := slots[Slot(s[i])]][Slot(t[m])] == At(t, m + 1)
    {
      hide IsPage, Slot, At;
      SplicedAt(s, i, m);
      var n := if m < i then m else m + 1;
      assert slots[Slot(s[n])] == At(s, n + 1) && slots[Slot(s[i])] == At(s, i + 1);
      if n != i - 1 {
        assert s[n] != s[i - 1];
        SlotsDiffer(s[n], s[i - 1]);
      }
    }

    lemma SlotsDiffer(a: nat, b: nat)
      requires IsPage(a) && IsPage(b) && a != b
      ensures Slot(a) != Slot(b)
    {}

    /** All lists are spelt out, and no address is on them twice. */
    ghost predicate Threads(slots: seq<nat>, heads: seq<nat>, lists: seq<seq<nat>>) {
      && |heads| == |lists| == MAX_ORDER
      && (forall k :: 0 <= k < MAX_ORDER ==> NoDup(lists[k]) && Spells(slots, heads[k], lists[k]))
      && (forall j, k, a :: 0 <= j < MAX_ORDER && 0 <= k < MAX_ORDER && a in lists[j] && a in lists[k] ==> j == k)
    }

    lemma Thread(slots: seq<nat>, heads: seq<nat>, lists: seq<seq<nat>>, k: nat)
      requires Threads(slots, heads, lists) && k < MAX_ORDER
      ensures |lists| == |heads| == MAX_ORDER && NoDup(lists[k]) && Spells(slots, heads[k], lists[k])
    {}

    lemma PushThreads(slots: seq<nat>, heads: seq<nat>, lists: seq<seq<nat>>, k: nat, a: nat)
      requires Threads(slots, heads, lists) && k < MAX_ORDER && IsPage(a) && forall j :: 0 <= j < MAX_ORDER ==> a !in lists[j]
      ensures |slots| == count && Threads(slots[Slot(a) := heads[k]], heads[k := a], lists[k := [a] + lists[k]])
    {
      hide Spells, NoDup, IsPage, Slot;
      Thread(slots, heads, lists, k);
      assert |slots| == count by { SpellsLength(slots, heads[k], lists[k]); }
      PushSpells(slots, heads[k], lists[k], a);
      PushMembers(lists[k], a);
      var after, heads2, lists2 := slots[Slot(a) := heads[k]], heads[k := a], lists[k := [a] + lists[k]];
      forall j | 0 <= j < MAX_ORDER ensures NoDup(lists2[j]) && Spells(after, heads2[j], lists2[j]) {
        if j != k { OtherSpells(slots, heads[j], lists[j], a, heads[k]); }
      }
    }

    lemma SpellsLength(slots: seq<nat>, head: nat, s: seq<nat>)
      requires Spells(slots, head, s)
      ensures |slots| == count && (head == 0 <==> s == []) && forall i :: 0 <= i < |s| ==> IsPage(s[i])
    {
      if s != [] { assert IsPage(s[0]); }
    }

    /** List k without its i-th address; the others see nothing of it. */
    ghost predicate Spliced(slots: seq<nat>, heads: seq<nat>, lists: seq<seq<nat>>, k: nat, i: nat)
      requires |heads| == |lists| == MAX_ORDER && k < MAX_ORDER && i < |lists[k]| && |slots| == count
      requires IsPage(lists[k][i]) && (i > 0 ==> IsPage(lists[k][i - 1]))
    {
      var s := lists[k];
      var t, next := s[..i] + s[i + 1..], slots[Slot(s[i])];
      if i == 0 then Threads(slots, heads[k := next], lists[k := t]) && (next == 0 <==> t == [])
      else Threads(slots[Slot(s[i - 1]) := next], heads, lists[k := t]) && heads[k] != 0 && t != []
    }

    lemma CutThreads(slots: seq<nat>, heads: seq<nat>, lists: seq<seq<nat>>, k: nat, i: nat)
      requires Threads(slots, heads, lists) && k < MAX_ORDER && i < |lists[k]|
      ensures |slots| == count && IsPage(lists[k][i]) && (i > 0 ==> IsPage(lists[k][i - 1])) && Spliced(slots, heads, lists, k, i)
    {
      hide Spells, NoDup, IsPage, Slot;
      var s := lists[k];
      Thread(slots, heads, lists, k);
      SpellsLength(slots, heads[k], s);
      SpliceSpells(slots, heads[k], s, i);
      CutMembers(s, i);
      var t, next := s[..i] + s[i + 1..], slots[Slot(s[i])];
      var slots2, heads2 := if i == 0 then slots else slots[Slot(s[i - 1]) := next], if i == 0 then heads[k := next] else heads;
      var lists2 := lists[k := t];
      SpellsLength(slots2, heads2[k], t);
      forall j | 0 <= j < MAX_ORDER ensures NoDup(lists2[j]) && Spells(slots2, heads2[j], lists2[j]) {
        if j != k && i > 0 {
          assert s[i - 1] in s;
          OtherSpells(slots, heads[j], lists[j], s[i - 1], next);
        }
      }
      assert i > 0 ==> t[0] == s[0];
    }
  }

  lemma SplicedAt(s: seq<nat>, i: nat, m: nat)
    requires i < |s| && m < |s| - 1
    ensures var t := s[..i] + s[i + 1..];
      t[m] == s[if m < i then m else m + 1] && At(t, m + 1) == At(s, if m + 1 < i then m + 1 else m + 2)
  {}

  lemma CutMembers(s: seq<nat>, i: nat)
    requires NoDup(s) && i < |s|
    ensures var t := s[..i] + s[i + 1..]; NoDup(t) && (forall x :: x in t ==> x in s)
  {
    var t := s[..i] + s[i + 1..];
    forall m | 0 <= m < |t| ensures t[m] == s[if m < i then m else m + 1] {}
  }

  ghost function At(s: seq<nat>, i: nat): nat {
    if i < |s| then s[i] else 0
  }

  /** Bit k of the mask is set exactly while list k is not empty. */
  ghost predicate MaskOk(mask: nat, lists: seq<seq<nat>>)
    requires |lists| == MAX_ORDER
  {
    forall j: nat :: Bit(mask, j) <==> j < MAX_ORDER && lists[j] != []
  }

  /** List k, which was not empty, became r: the mask follows. */
  lemma MaskFollows(mask: nat, lists: seq<seq<nat>>, k: nat, r: seq<nat>)
    requires |lists| == MAX_ORDER && k < MAX_ORDER && lists[k] != [] && MaskOk(mask, lists)
    ensures MaskOk(if r == [] then ClearBit(mask, k) else mask, lists[k := r])
  {
    hide Bit, ClearBit;
    var after, mask2 := lists[k := r], if r == [] then ClearBit(mask, k) else mask;
    forall j: nat ensures Bit(mask2, j) <==> j < MAX_ORDER && after[j] != [] { BitOfClear(mask, k, j); }
  }

  lemma MaskGains(mask: nat, lists: seq<seq<nat>>, k: nat, r: seq<nat>)
    requires |lists| == MAX_ORDER && k < MAX_ORDER && r != [] && MaskOk(mask, lists)
    ensures MaskOk(SetBit(mask, k), lists[k := r])
  {
    hide Bit, SetBit;
    var after, mask2 := lists[k := r], SetBit(mask, k);
    forall j: nat ensures Bit(mask2, j) <==> j < MAX_ORDER && after[j] != [] { BitOfSet(mask, k, j); }
  }

  class FreeLists {
    const frames: Frames
    const heads: array<nat>
    const slots: array<nat>
    var mask: nat
    /** What the pointers represent: the addresses on each list, most recently pushed first. */
    ghost var lists: seq<seq<nat>>

    constructor (frames: Frames)
      ensures Valid() && lists == EmptyPool().lists
      ensures this.frames == frames && fresh(heads) && fresh(slots)
    {
      this.frames := frames;
      heads := new nat[MAX_ORDER](_ => 0);
      slots := new nat[frames.count];
      mask := 0;
      lists := EmptyPool().lists;
      new;
      assert MaskOk(mask, lists) by {
        forall k: nat ensures !Bit(mask, k) { ZeroBit(k); }
      }
    }

    ghost predicate Valid()
      reads this, heads, slots
    {
      heads != slots && heads.Length == MAX_ORDER && frames.Threads(slots[..], heads[..], lists) && MaskOk(mask, lists)
    }

    ghost predicate OnSomeList(a: nat) reads this {
      exists k :: 0 <= k < |lists| && a in lists[k]
    }

    method Push(k: nat, a: nat)
      requires Valid() && k < MAX_ORDER && frames.IsPage(a) && !OnSomeList(a)
      modifies this, heads, slots
      ensures Valid() && lists == old(lists)[k := [a] + old(lists[k])]
    {
      hide Frames.Threads, MaskOk, SetBit;
      Whole();
      frames.PushThreads(slots[..], heads[..], lists, k, a);
      ghost var after, heads2 := slots[..][frames.Slot(a) := heads[k]], heads[..][k := a];
      slots[frames.Slot(a)] := heads[k];
      heads[k] := a;
      assert slots[..] == after && heads[..] == heads2;
      MaskGains(mask, lists, k, [a] + lists[k]);
      mask := SetBit(mask, k);
      lists := lists[k := [a] + lists[k]];
    }

    lemma Whole()
      requires Valid()
      ensures |lists| == MAX_ORDER && slots.Length == frames.count
    {
      frames.Thread(slots[..], heads[..], lists, 0);
    }

    method Pop(k: nat) returns (a: nat)
      requires Valid() && k < MAX_ORDER
      modifies this, heads
      ensures Valid() && a == At(old(lists[k]), 0)
      ensures lists == if a == 0 then old(lists) else old(lists)[k := old(lists[k])[1..]]
      ensures a == 0 <==> old(lists[k]) == []
    {
      hide Frames.Threads, MaskOk, ClearBit;
      Whole();
      a := heads[k];
      ghost var s := lists[k];
      frames.Thread(slots[..], heads[..], lists, k);
      frames.SpellsLength(slots[..], heads[..][k], s);
      if a != 0 {
        frames.CutThreads(slots[..], heads[..], lists, k, 0);
        assert s[..0] + s[1..] == s[1..];
        ghost var heads2 := heads[..][k := slots[frames.Slot(a)]];
        heads[k] := slots[frames.Slot(a)];
        assert heads[..] == heads2;
        MaskFollows(mask, lists, k, s[1..]);
        if heads[k] == 0 {
          mask := ClearBit(mask, k);
        }
        lists := lists[k := s[1..]];
      }
    }

    /** Walk list k to the cell before a; prev == 0 stands for the head slot. */
    method Find(k: nat, a: nat) returns (found: bool, prev: nat, ghost i: nat)
      requires Valid() && k < MAX_ORDER && a != 0
      ensures found == (a in lists[k])
      ensures found ==> i < |lists[k]| && lists[k][i] == a && a !in lists[k][..i]
                        && prev == if i == 0 then 0 else lists[k][i - 1]
    {
      hide Frames.Threads, MaskOk;
      Whole();
      ghost var s := lists[k];
      frames.Thread(slots[..], heads[..], lists, k);
      i := 0;
      prev := 0;
      var cur := heads[k];
      while cur != 0 && cur != a
        invariant 0 <= i <= |s| && cur == At(s, i) && a !in s[..i]
        invariant prev == if i == 0 then 0 else s[i - 1]
        decreases |s| - i
      {
        assert s[..i + 1] == s[..i] + [cur];
        i := i + 1;
        prev, cur := cur, slots[frames.Slot(cur)];
      }
      found := cur == a;
      if !found {
        assert forall m :: 0 <= m < |s| ==> frames.IsPage(s[m]);
        assert i == |s| && s[..i] == s;
      }
    }

    method Unlink(k: nat, a: nat) returns (found: bool)
      requires Valid() && k < MAX_ORDER && a != 0
      modifies this, heads, slots
      ensures Valid() && found == (a in old(lists[k]))
      ensures lists == old(lists)[k := Remove(old(lists[k]), a)]
    {
      hide Frames.Threads, MaskOk, ClearBit, Remove;
      Whole();
      var prev;
      ghost var i;
      found, prev, i := Find(k, a);
      ghost var s := lists[k];
      if !found {
        RemoveAbsent(s, a);
        assert lists[k := s] == lists;
        return;
      }
      RemoveAt(s, a, i);
      frames.CutThreads(slots[..], heads[..], lists, k, i);
      ghost var t, next := s[..i] + s[i + 1..], slots[frames.Slot(a)];
      ghost var slots2, heads2 := slots[..], heads[..];
      if prev == 0 {
        heads2 := heads2[k := next];
        heads[k] := slots[frames.Slot(a)];
      } else {
        slots2 := slots2[frames.Slot(prev) := next];
        slots[frames.Slot(prev)] := slots[frames.Slot(a)];
      }
      assert slots[..] == slots2 && heads[..] == heads2;
      MaskFollows(mask, lists, k, t);
      if heads[k] == 0 {
        mask := ClearBit(mask, k);
      }
      lists := lists[k := t];
    }
  }
}
