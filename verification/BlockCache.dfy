/**
 The block cache as the kernel keeps it: buffer nodes threaded on a doubly linked recency list
 and on singly linked hash chains. Each operation is its value-level counterpart in CacheSpec.
 */
module BlockCache {
  import opened Options
  import opened Sequences
  import opened LinkedLists
  import opened CacheSpec

  const BUCKETS: nat := 512

  ghost predicate HashLinks(bucket: seq<Option<Id>>, hashNext: map<Id, Option<Id>>, chains: seq<seq<Id>>) {
    |bucket| == |chains| && forall h: nat :: h < |chains| ==> ChainSpells(bucket[h], hashNext, chains[h])
  }

  ghost predicate HashTo(chain: seq<Id>, nodes: map<Id, Buffer>, h: nat) {
    forall id :: id in chain ==> id in nodes && nodes[id].block % BUCKETS == h
  }

  /** Every node is on the chain its block number hashes to, and on no other. */
  ghost predicate Hashed(chains: seq<seq<Id>>, nodes: map<Id, Buffer>) {
    && |chains| == BUCKETS
    && (forall h: nat :: h < |chains| ==> HashTo(chains[h], nodes, h))
    && (forall id :: id in nodes ==> id in chains[nodes[id].block % BUCKETS])
  }

  class Buffers {
    var lruHead: Option<Id>          // most recent
    var lruTail: Option<Id>          // least recent
    var next: map<Id, Option<Id>>    // towards the head
    var prev: map<Id, Option<Id>>
    var bucket: seq<Option<Id>>
    var hashNext: map<Id, Option<Id>>
    var nodes: map<Id, Buffer>
    var size: nat
    var disk: seq<Block>
    var locked: bool
    const capacity: nat
    ghost var lru: seq<Id>
    ghost var chains: seq<seq<Id>>

    ghost predicate LruValid() reads this { Spells(lruTail, lruHead, next, prev, lru) }

    ghost predicate HashValid() reads this { HashLinks(bucket, hashNext, chains) && Hashed(chains, nodes) }

    ghost function Value(): Cache reads this { Cache(lru, nodes, disk, capacity) }

    ghost predicate Valid() reads this {
      LruValid() && HashValid() && size == |lru|
    }

    constructor (disk: seq<Block>, capacity: nat)
      ensures Valid() && Value() == Cache([], map[], disk, capacity) && !locked
    {
      lruHead, lruTail, next, prev, hashNext, nodes := None, None, map[], map[], map[], map[];
      bucket := seq(BUCKETS, _ => None);
      chains := seq(BUCKETS, _ => []);
      size, locked := 0, false;
      this.disk, this.capacity := disk, capacity;
      lru := [];
    }

    // ---- the recency list ---------------------------------------------------------------------

    method DeleteFromLru(id: Id)
      requires LruValid() && id in lru
      modifies `lruHead, `lruTail, `next, `prev, `lru
      ensures LruValid() && lru == Remove(old(lru), id)
    {
      hide Spells, Remove, NoDup;
      ghost var k := Neighbours(lruTail, lruHead, next, prev, lru, id);
      var before, after := prev[id], next[id];
      if before.Some? { next := next[before.value := after]; } else { lruTail := after; }
      if after.Some? { prev := prev[after.value := before]; } else { lruHead := before; }
      lru := Remove(lru, id);
    }

    method AddToLruHead(id: Id)
      requires LruValid() && id !in lru
      modifies `lruHead, `lruTail, `next, `prev, `lru
      ensures LruValid() && lru == old(lru) + [id]
    {
      ghost var n0, p0 := next, prev;
      prev := prev[id := lruHead];
      next := next[id := None];
      if lruHead.Some? { next := next[lruHead.value := Some(id)]; }
      lruHead := Some(id);
      if lruTail.None? { lruTail := Some(id); }
      Appended(lru, id, n0, p0, next, prev);
      lru := lru + [id];
    }

    method SwitchToLruHead(id: Id)
      requires LruValid() && id in lru
      modifies `lruHead, `lruTail, `next, `prev, `lru
      ensures LruValid() && lru == Remove(old(lru), id) + [id] && |lru| == |old(lru)|
    {
      RemoveLength(lru, id);
      if lruHead == Some(id) {
        AlreadyLast(lru);
        return;
      }
      RemoveMembers(lru, id);
      DeleteFromLru(id);
      AddToLruHead(id);
    }

    // ---- the hash chains ------------------------------------------------------------------------

    /** The walk to a node that is on its chain, remembering the node before it. */
    method Locate(id: Id) returns (before: Option<Id>, ghost k: nat)
      requires HashValid() && id in nodes
      ensures var chain := chains[nodes[id].block % BUCKETS];
        k < |chain| && chain[k] == id && before == At(chain, k - 1)
    {
      var h := nodes[id].block % BUCKETS;
      ghost var chain := chains[h];
      assert ChainSpells(bucket[h], hashNext, chain);
      var current := bucket[h];
      before, k := None, 0;
      assert 0 < |chain|;
      while current != Some(id)
        invariant k < |chain| && current == At(chain, k) && before == At(chain, k - 1)
        invariant id !in chain[..k]
        decreases |chain| - k
      {
        assert ChainLink(hashNext, chain, k);
        ChainGoesOn(chain, id, k);
        before := current;
        current := hashNext[current.value];
        k := k + 1;
      }
    }

    method DeleteFromHash(id: Id)
      requires HashValid() && id in nodes
      modifies `bucket, `hashNext, `chains
      ensures HashLinks(bucket, hashNext, chains)
      ensures Hashed(chains, nodes - {id})
    {
      var before, k := Locate(id);
      var h := nodes[id].block % BUCKETS;
      ghost var chain := chains[h];
      assert ChainSpells(bucket[h], hashNext, chain) && ChainLink(hashNext, chain, k);
      CutChain(bucket, hashNext, chains, nodes, h, k);
      RemoveFromChain(chains, nodes, h, k);
      hide HashLinks, Hashed;
      if before.Some? { hashNext := hashNext[before.value := hashNext[id]]; }
      else { bucket := bucket[h := hashNext[id]]; }
      chains := chains[h := chain[..k] + chain[k + 1..]];
    }

    /** The walk along one chain. */
    method Lookup(b: nat) returns (f: Option<Id>)
      requires Valid() && Listed(Value()) && OneEach(Value())
      ensures f == Find(Value(), b) && (f.Some? ==> f.value in nodes && nodes[f.value].block == b && f.value in lru)
    {
      var h := b % BUCKETS;
      ghost var chain := chains[h];
      ghost var i: nat := 0;
      assert ChainSpells(bucket[h], hashNext, chain);
      f := bucket[h];
      while f.Some? && nodes[f.value].block != b
        invariant i <= |chain| && f == At(chain, i)
        invariant forall j :: 0 <= j < i ==> nodes[chain[j]].block != b
        decreases |chain| - i
      {
        assert ChainLink(hashNext, chain, i);
        f := hashNext[f.value];
        i := i + 1;
      }
      FindInMeaning(lru, nodes, b);
      if f.Some? { FindIs(Value(), f.value); }
    }

    /** From the least recent buffer towards the most, past the pinned ones. */
    method PickVictim() returns (v: Option<Id>)
      requires Valid() && Listed(Value())
      ensures v == Victim(Value(), lru) && (v.Some? ==> v.value in nodes && v.value in lru)
    {
      ghost var i: nat := 0;
      v := lruTail;
      assert lru[0..] == lru;
      while v.Some? && nodes[v.value].refs > 0
        invariant i <= |lru| && v == At(lru, i)
        invariant Victim(Value(), lru) == Victim(Value(), lru[i..])
        decreases |lru| - i
      {
        assert Linked(next, prev, lru, i);
        assert lru[i..][1..] == lru[i + 1..];
        v := next[v.value];
        i := i + 1;
      }
      assert i < |lru| ==> lru[i..][0] == lru[i];
    }

    // ---- the operations -----------------------------------------------------------------------------

    /** Rewrites one node in place; its block number stays. */
    method SetNode(id: Id, n: Buffer)
      requires Valid() && id in nodes && n.block == nodes[id].block
      modifies `nodes
      ensures Valid() && nodes == old(nodes)[id := n]
    {
      SameBlocks(chains, nodes, nodes[id := n]);
      nodes := nodes[id := n];
    }

    method WriteBack(id: Id)
      requires Valid() && id in nodes && nodes[id].block < |disk|
      modifies `nodes, `disk
      ensures Valid() && Value() == Clean(old(Value()), id)
    {
      if nodes[id].dirty {
        disk := disk[nodes[id].block := nodes[id].data];
        SetNode(id, nodes[id].(dirty := false));
      }
    }

    /** Unlinks and frees a node. */
    method Free(id: Id)
      requires Valid() && id in nodes && id in lru
      modifies `lruHead, `lruTail, `next, `prev, `lru, `bucket, `hashNext, `chains, `nodes, `size
      ensures Valid() && Value() == Drop(old(Value()), id)
    {
      RemoveLength(lru, id);
      DeleteFromLru(id);
      DeleteFromHash(id);
      nodes := nodes - {id};
      size := size - 1;
    }

    method PushHash(id: Id, n: Buffer)
      requires HashValid() && id !in nodes
      modifies `bucket, `hashNext, `chains, `nodes
      ensures HashValid() && nodes == old(nodes)[id := n]
    {
      var h := n.block % BUCKETS;
      TableSize(bucket, hashNext, chains, nodes);
      PushChain(bucket, hashNext, chains, nodes, id, n, h);
      hide HashLinks, Hashed;
      hashNext := hashNext[id := bucket[h]];
      bucket := bucket[h := Some(id)];
      chains := chains[h := [id] + chains[h]];
      nodes := nodes[id := n];
    }

    /** Links a node just allocated at address id. */
    method Install(id: Id, b: nat)
      requires Valid() && id !in nodes && id !in lru && b < |disk|
      modifies `lruHead, `lruTail, `next, `prev, `lru, `bucket, `hashNext, `chains, `nodes, `size
      ensures Valid() && Value() == Load(old(Value()), b, id)
    {
      hide HashLinks, Hashed, Spells;
      PushHash(id, Buffer(b, disk[b], false, 1));
      AddToLruHead(id);
      size := size + 1;
    }

    /**
     bread. The lock is left held exactly when the pages are there (`pages`) but the cache is full
     of pinned buffers of other blocks.
     */
    method Bread(b: nat, id: Id, pages: bool) returns (r: Option<Id>)
      requires Valid() && Inv(Value()) && !locked && b < |disk| && id !in nodes && capacity > 0
      modifies this
      ensures Valid() && Inv(Value()) && SameView(old(Value()), Value())
      ensures forall i :: i in old(nodes) ==> old(nodes)[i].block < |old(disk)|
      ensures locked <==> pages && AllPinned(old(Value()), b)
      ensures r.None? <==> Find(old(Value()), b).None? && (!pages || AllPinned(old(Value()), b))
      ensures r.None? ==> Value() == old(Value())
      ensures r.Some? ==> Read(old(Value()), b, id) == Some(Value())
                          && r == Find(Value(), b) && r.value in nodes && nodes[r.value].data == ViewAt(old(Value()), b)
    {
      hide Inv, SameView, Spells, HashLinks, Hashed, Find, Read, Victim, ViewAt, AllPinned, KeepsPinned, LosesNoDirty;
      ReadKeeps(Value(), b, id);
      Lists(Value());
      var f := Lookup(b);
      if f.Some? {
        Hit(b, f.value, id);
        PinnedHere(Value(), f.value);
        return f;
      }
      if !pages {
        SameItself(Value());
        return None;
      }
      var ok := Miss(b, id);
      if !ok {
        SameItself(Value());
        locked := true;
        return None;
      }
      PinnedHere(Value(), id);
      return Some(id);
    }

    method Hit(b: nat, f: Id, ghost id: Id)
      requires Valid() && f in nodes && f in lru && nodes[f].block == b && Find(Value(), b) == Some(f) && b < |disk|
      requires forall i :: i in nodes ==> nodes[i].block < |disk|
      modifies this
      ensures Valid() && locked == old(locked) && Read(old(Value()), b, id) == Some(Value())
      ensures f in nodes && nodes[f].block == b
    {
      hide Find, Spells, HashLinks, Hashed;
      SetNode(f, nodes[f].(refs := nodes[f].refs + 1));
      SwitchToLruHead(f);
    }

    /** Makes room if there must be, and installs a new node. */
    method Miss(b: nat, id: Id) returns (ok: bool)
      requires Valid() && Inv(Value()) && b < |disk| && id !in nodes && Find(Value(), b).None?
      modifies this
      ensures Valid() && locked == old(locked)
      ensures forall i :: i in old(nodes) ==> old(nodes)[i].block < |old(disk)|
      ensures Read(old(Value()), b, id) == (if ok then Some(Value()) else None) && (!ok ==> Value() == old(Value()))
      ensures ok ==> id in nodes && nodes[id].block == b
    {
      hide Inv, Spells, HashLinks, Hashed, Victim, Find, Remove;
      BlocksOnDisk(Value());
      Lists(Value());
      if size == capacity {
        var v := PickVictim();
        if v.None? { return false; }
        WriteBack(v.value);
        NotInDrop(Value(), v.value);
        Free(v.value);
      }
      Install(id, b);
      return true;
    }

    method Brelse(b: nat)
      requires Valid() && Inv(Value()) && !locked
      modifies this
      ensures Valid() && !locked && Value() == Release(old(Value()), b) && SameView(old(Value()), Value())
      ensures Inv(Value()) <==> MayRelease(old(Value()), b)
    {
      hide Inv, Spells, HashLinks, Hashed, FindIn, ViewAt, MayRelease;
      ReleaseExact(Value(), b);
      Lists(Value());
      var f := Lookup(b);
      if f.Some? && nodes[f.value].refs > 0 { SetNode(f.value, nodes[f.value].(refs := nodes[f.value].refs - 1)); }
    }

    method Bwrite(b: nat)
      requires Valid() && Inv(Value()) && !locked
      modifies this
      ensures Valid() && Inv(Value()) && !locked && Value() == MarkDirty(old(Value()), b)
    {
      hide Inv, Spells, HashLinks, Hashed, FindIn, ViewAt;
      MarkKeeps(Value(), b);
      Lists(Value());
      var f := Lookup(b);
      if f.Some? {
        SetNode(f.value, nodes[f.value].(dirty := true));
        SwitchToLruHead(f.value);
      }
    }

    method Bflush(b: nat)
      requires Valid() && Inv(Value()) && !locked
      modifies this
      ensures Valid() && Inv(Value()) && !locked && Value() == Flush(old(Value()), b)
    {
      hide Inv, Spells, HashLinks, Hashed, FindIn, ViewAt;
      FlushKeeps(Value(), b);
      Lists(Value());
      BlocksOnDisk(Value());
      var f := Lookup(b);
      if f.Some? {
        WriteBack(f.value);
        SwitchToLruHead(f.value);
      }
    }

    /** From the most recent buffer to the least. */
    method BflushAll()
      requires Valid() && Inv(Value()) && !locked
      modifies this
      ensures Valid() && Inv(Value()) && !locked && Value() == FlushAll(old(Value()))
    {
      hide Inv, HashLinks, Hashed, ViewAt, Spells;
      FlushAllKeeps(Value());
      EndsOf(lruTail, lruHead, next, prev, lru);
      ghost var c := Value();
      ghost var left := lru;
      var node := lruHead;
      assert lru[..|lru|] == lru;
      while node.Some?
        invariant Valid() && Inv(Value()) && !locked && lru == c.lru
        invariant left == lru[..|left|] && node == At(left, |left| - 1)
        invariant CleanFirst(Value(), Reverse(left)) == FlushAll(c)
        decreases |left|
      {
        Lists(Value());
        BlocksOnDisk(Value());
        ghost var k := |left| - 1;
        PrevOf(lruTail, lruHead, next, prev, lru, k);
        ReverseLast(left);
        CleanKeeps(Value(), node.value);
        assert node.value in lru;
        var after := prev[node.value];
        WriteBack(node.value);
        left := left[..k];
        node := after;
      }
    }

    method Binvalidate(b: nat)
      requires Valid() && Inv(Value()) && !locked
      modifies this
      ensures Valid() && Inv(Value()) && !locked && Value() == Invalidate(old(Value()), b)
    {
      hide Inv, Spells, HashLinks, Hashed, FindIn, ViewAt;
      InvalidateReverts(Value(), b);
      Lists(Value());
      var f := Lookup(b);
      if f.Some? { Free(f.value); }
    }
  }

  lemma Lists(c: Cache)
    requires Inv(c)
    ensures Listed(c) && OneEach(c)
  {}

  lemma SameItself(c: Cache)
    ensures SameView(c, c)
  {}

  lemma PinnedHere(c: Cache, id: Id)
    requires Inv(c) && id in c.nodes
    ensures Find(c, c.nodes[id].block) == Some(id)
  {
    FindIs(c, id);
  }

  lemma NotInDrop(c: Cache, v: Id)
    requires Listed(c)
    ensures forall x :: x in Remove(c.lru, v) ==> x in c.nodes
  {
    RemoveMembers(c.lru, v);
  }

  lemma {:induction false} ReverseLast(s: seq<Id>)
    requires s != []
    ensures Reverse(s) == [s[|s| - 1]] + Reverse(s[..|s| - 1])
  {
    if |s| > 1 {
      ReverseLast(s[1..]);
      assert s[1..][..|s| - 2] == s[..|s| - 1][1..];
    }
  }

  lemma TableSize(bucket: seq<Option<Id>>, hashNext: map<Id, Option<Id>>, chains: seq<seq<Id>>, nodes: map<Id, Buffer>)
    requires HashLinks(bucket, hashNext, chains) && Hashed(chains, nodes)
    ensures |bucket| == |chains| == BUCKETS
  {}

  lemma SameBlocks(chains: seq<seq<Id>>, nodes: map<Id, Buffer>, after: map<Id, Buffer>)
    requires Hashed(chains, nodes) && after.Keys == nodes.Keys
    requires forall id :: id in nodes ==> after[id].block == nodes[id].block
    ensures Hashed(chains, after)
  {
    forall h: nat | h < |chains| ensures HashTo(chains[h], after, h) { assert HashTo(chains[h], nodes, h); }
  }

  lemma PushChain(bucket: seq<Option<Id>>, hashNext: map<Id, Option<Id>>, chains: seq<seq<Id>>,
                  nodes: map<Id, Buffer>, id: Id, n: Buffer, h: nat)
    requires HashLinks(bucket, hashNext, chains) && Hashed(chains, nodes) && id !in nodes && h == n.block % BUCKETS
    ensures
      && HashLinks(bucket[h := Some(id)], hashNext[id := bucket[h]], chains[h := [id] + chains[h]])
      && Hashed(chains[h := [id] + chains[h]], nodes[id := n])
  {
    var after, c := hashNext[id := bucket[h]], [id] + chains[h];
    forall g: nat | g < |chains| ensures id !in chains[g] && ChainSpells(bucket[g], after, chains[g]) {
      assert HashTo(chains[g], nodes, g) && ChainSpells(bucket[g], hashNext, chains[g]);
      forall i: nat | i < |chains[g]| ensures ChainLink(after, chains[g], i) {
        assert ChainLink(hashNext, chains[g], i) && chains[g][i] in chains[g];
      }
    }
    PushMembers(chains[h], id);
    forall i: nat | i < |c| ensures ChainLink(after, c, i) {
      if i > 0 { assert ChainLink(after, chains[h], i - 1); }
    }
    var cs := chains[h := c];
    forall g: nat | g < |cs| ensures HashTo(cs[g], nodes[id := n], g) { assert HashTo(chains[g], nodes, g); }
  }

  /** Where id stands in the list, and what unlinking it there spells. */
  lemma Neighbours(first: Option<Id>, last: Option<Id>, next: map<Id, Option<Id>>, prev: map<Id, Option<Id>>,
                   lru: seq<Id>, id: Id) returns (k: nat)
    requires Spells(first, last, next, prev, lru) && id in lru
    ensures k < |lru| && lru[k] == id && id in next && id in prev && next[id] == At(lru, k + 1) && prev[id] == At(lru, k - 1)
    ensures Spells(if k > 0 then first else next[id], if k + 1 < |lru| then last else prev[id],
                   if k > 0 then next[lru[k - 1] := next[id]] else next,
                   if k + 1 < |lru| then prev[lru[k + 1] := prev[id]] else prev, Remove(lru, id))
  {
    k :| k < |lru| && lru[k] == id;
    assert Linked(next, prev, lru, k);
    OnlyAt(lru, k);
    Unlinks(first, last, next, prev, lru, k);
  }

  lemma Unlinks(first: Option<Id>, last: Option<Id>, next: map<Id, Option<Id>>, prev: map<Id, Option<Id>>, lru: seq<Id>, k: nat)
    requires Spells(first, last, next, prev, lru) && k < |lru|
    ensures Spells(if k > 0 then first else At(lru, 1), if k + 1 < |lru| then last else At(lru, k - 1),
                   if k > 0 then next[lru[k - 1] := At(lru, k + 1)] else next,
                   if k + 1 < |lru| then prev[lru[k + 1] := At(lru, k - 1)] else prev, lru[..k] + lru[k + 1..])
  {
    EndsOf(first, last, next, prev, lru);
    hide Spells, Linked;
    Excised(lru, k, next, prev, if k > 0 then next[lru[k - 1] := At(lru, k + 1)] else next,
            if k + 1 < |lru| then prev[lru[k + 1] := At(lru, k - 1)] else prev);
  }

  lemma EndsOf(first: Option<Id>, last: Option<Id>, next: map<Id, Option<Id>>, prev: map<Id, Option<Id>>, lru: seq<Id>)
    requires Spells(first, last, next, prev, lru)
    ensures first == At(lru, 0) && last == At(lru, |lru| - 1)
  {}

  lemma PrevOf(first: Option<Id>, last: Option<Id>, next: map<Id, Option<Id>>, prev: map<Id, Option<Id>>, lru: seq<Id>, k: nat)
    requires Spells(first, last, next, prev, lru) && k < |lru|
    ensures lru[k] in prev && prev[lru[k]] == At(lru, k - 1)
  {
    assert Linked(next, prev, lru, k);
  }

  lemma OnlyAt(s: seq<Id>, k: nat)
    requires NoDup(s) && k < |s|
    ensures Remove(s, s[k]) == s[..k] + s[k + 1..]
  {
    RemoveAt(s, s[k], k);
  }

  lemma AlreadyLast(s: seq<Id>)
    requires NoDup(s) && s != []
    ensures Remove(s, s[|s| - 1]) + [s[|s| - 1]] == s
  {
    RemoveAt(s, s[|s| - 1], |s| - 1);
  }

  /** A chain that holds id does not end before it. */
  lemma ChainGoesOn(chain: seq<Id>, id: Id, i: nat)
    requires i < |chain| && id in chain && id !in chain[..i] && chain[i] != id
    ensures i + 1 < |chain| && id !in chain[..i + 1]
  {
    assert chain[..i + 1] == chain[..i] + [chain[i]];
    assert chain == chain[..i + 1] + chain[i + 1..];
  }

  lemma CutChain(bucket: seq<Option<Id>>, hashNext: map<Id, Option<Id>>, chains: seq<seq<Id>>,
                 nodes: map<Id, Buffer>, h: nat, k: nat)
    requires HashLinks(bucket, hashNext, chains) && Hashed(chains, nodes) && h < |chains| && k < |chains[h]|
    ensures var c := chains[h];
      var cut := chains[h := c[..k] + c[k + 1..]];
      if k > 0 then HashLinks(bucket, hashNext[c[k - 1] := At(c, k + 1)], cut)
      else HashLinks(bucket[h := At(c, 1)], hashNext, cut)
  {
    var c := chains[h];
    var cut := c[..k] + c[k + 1..];
    var after := if k > 0 then hashNext[c[k - 1] := At(c, k + 1)] else hashNext;
    assert ChainSpells(bucket[h], hashNext, c);
    forall i: nat | i < |cut| ensures ChainLink(after, cut, i) {
      assert ChainLink(hashNext, c, if i < k then i else i + 1);
    }
    forall g: nat | g < |chains| && g != h ensures ChainSpells(bucket[g], after, chains[g]) {
      assert ChainSpells(bucket[g], hashNext, chains[g]);
      if k > 0 { OtherChain(hashNext, chains, nodes, bucket, h, g, k - 1, At(c, k + 1)); }
    }
  }

  /** Rewriting a link of one chain leaves the other chains alone. */
  lemma OtherChain(hashNext: map<Id, Option<Id>>, chains: seq<seq<Id>>, nodes: map<Id, Buffer>,
                   bucket: seq<Option<Id>>, h: nat, g: nat, k: nat, link: Option<Id>)
    requires HashLinks(bucket, hashNext, chains) && Hashed(chains, nodes)
    requires h < |chains| && g < |chains| && g != h && k < |chains[h]|
    ensures ChainSpells(bucket[g], hashNext[chains[h][k] := link], chains[g])
  {
    var c := chains[g];
    assert ChainSpells(bucket[g], hashNext, c);
    var x := chains[h][k];
    assert HashTo(chains[h], nodes, h) && HashTo(c, nodes, g);
    assert x in chains[h] && x !in c;
    var after := hashNext[x := link];
    forall i: nat | i < |c| ensures ChainLink(after, c, i) {
      assert ChainLink(hashNext, c, i);
      assert c[i] in c;
    }
  }

  lemma RemoveFromChain(chains: seq<seq<Id>>, nodes: map<Id, Buffer>, h: nat, k: nat)
    requires Hashed(chains, nodes) && h < |chains| && k < |chains[h]| && NoDup(chains[h])
    ensures Hashed(chains[h := chains[h][..k] + chains[h][k + 1..]], nodes - {chains[h][k]})
  {
    var c := chains[h];
    var id := c[k];
    RemoveAt(c, id, k);
    RemoveMembers(c, id);
    assert id in c && HashTo(c, nodes, h);
    var cut := chains[h := c[..k] + c[k + 1..]];
    forall g: nat | g < |cut| ensures HashTo(cut[g], nodes - {id}, g) { assert HashTo(chains[g], nodes, g); }
  }
}
