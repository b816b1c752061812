/**
 A file over its life: growing by blocks that go where the inode's sector counter says the file
 ends, and shrinking, which lowers the counter for each data block freed.
 */
module Ext2Runs {
  import opened Words
  import opened Sequences
  import opened Ext2Index
  import opened Ext2Truncate
  import opened Ext2Inode
  import opened Ext2Grow

  /** The file has blocks at exactly its first n indices. */
  ghost predicate Dense(t: Blocks, bpb: nat, root: seq<nat>, n: nat)
    requires bpb > 0 && |root| == SLOTS
  {
    n <= MaxBlocks(bpb) && forall idx: nat :: idx < MaxBlocks(bpb) ==> (BlockAt(t, bpb, root, idx) != 0 <==> idx < n)
  }

  // ---- the sector counter ----------------------------------------------------------------------

  /** x lowered by w, m times, but never below 0: the counter is left alone when it is too small. */
  function Lowered(x: nat, w: nat, m: nat): nat {
    if m == 0 then x else Lowered(if x >= w then x - w else x, w, m - 1)
  }

  lemma {:induction false} LoweredIs(x: nat, w: nat, m: nat)
    requires m * w <= x
    ensures Lowered(x, w, m) == x - m * w
    decreases m
  {
    if m > 0 {
      assert m * w == (m - 1) * w + w;
      LoweredIs(x - w, w, m - 1);
    }
  }

  lemma {:induction false} LoweredAtLeast(x: nat, w: nat, m: nat)
    ensures Lowered(x, w, m) + m * w >= x
    decreases m
  {
    if m > 0 {
      assert m * w == (m - 1) * w + w;
      LoweredAtLeast(if x >= w then x - w else x, w, m - 1);
    }
  }

  /** u sectors are added for a block and w taken off: the counter stays right for every file iff u is w. */
  lemma CounterExact(u: nat, w: nat)
    requires u > 0
    ensures (forall n: nat, m: nat :: m <= n ==> Lowered(n * u, w, m) == (n - m) * u) <==> u == w
  {
    if u == w {
      forall n: nat, m: nat | m <= n ensures Lowered(n * u, w, m) == (n - m) * u {
        assert n * u == (n - m) * u + m * u by { Distribute(n - m, m, u); }
        LoweredIs(n * u, u, m);
      }
    } else {
      CounterDrifts(u, w);
    }
  }

  lemma CounterDrifts(u: nat, w: nat)
    requires 0 < u != w
    ensures var n := w + 1; Lowered(n * u, w, 1) != (n - 1) * u
  {
    var n := w + 1;
    assert n * u >= n by { MulAtLeast(n, u); }
    assert Lowered(n * u - w, w, 0) == n * u - w;
    assert (n - 1) * u == n * u - u by { Distribute(n - 1, 1, u); }
  }

  lemma Distribute(a: nat, b: nat, u: nat)
    ensures (a + b) * u == a * u + b * u
  {}

  lemma IndexIs(n: nat, u: nat, ss: nat, bs: nat)
    requires ss > 0 && u > 0 && bs == u * ss
    ensures bs > 0 && n * u * ss / bs == n
  {
    MulAtLeast(u, ss);
    assert n * u * ss == n * bs;
    DivModUnique(n * bs, bs, n, 0);
  }

  // ---- counting a dense file ----------------------------------------------------------------------

  lemma {:induction false} RangeSize(s: set<nat>, k: nat, n: nat)
    requires k <= n && forall x: nat :: x in s <==> k <= x < n
    ensures |s| == n - k
    decreases n
  {
    if k == n {
      assert s == {};
    } else {
      RangeSize(s - {n - 1}, k, n - 1);
      assert n - 1 in s;
    }
  }

  lemma DenseCount(t: Blocks, bpb: nat, root: seq<nat>, n: nat, k: nat)
    requires bpb > 0 && |root| == SLOTS && Dense(t, bpb, root, n)
    ensures |FileMapped(t, bpb, root, k, MaxBlocks(bpb))| == if k < n then n - k else 0
  {
    hide BlockAt, MaxBlocks;
    RangeSize(FileMapped(t, bpb, root, k, MaxBlocks(bpb)), if k < n then k else n, n);
  }

  // ---- one more block -------------------------------------------------------------------------------

  /** Room for the next block once that block itself has been taken from the free ones. */
  ghost predicate RoomNext(t: Blocks, root: seq<nat>, a: seq<nat>, bpb: nat, n: nat)
    requires bpb > 0 && |root| == SLOTS && n < MaxBlocks(bpb) && a != []
  {
    Room(t[a[0] := Zeros(bpb)], root, a[1..], bpb, n)
  }

  ghost predicate OrderlyNext(t: Blocks, root: seq<nat>, a: seq<nat>, bpb: nat, n: nat)
    requires bpb > 0 && |root| == SLOTS && n < MaxBlocks(bpb) && a != []
  {
    Orderly(t[a[0] := Zeros(bpb)], root, a[1..], bpb, n)
  }

  /** Taking and zeroing a free block changes nothing of the file. */
  lemma TakenApart(t: Blocks, bpb: nat, root: seq<nat>, a: seq<nat>, n: nat)
    requires bpb > 0 && |root| == SLOTS && RootOk(t, bpb, root, |root|) && Dense(t, bpb, root, n)
    requires a != [] && Unowned(a, RootFoot(t, root, |root|))
    ensures var t1 := t[a[0] := Zeros(bpb)];
      && RootOk(t1, bpb, root, |root|) && RootFoot(t1, root, |root|) <= RootFoot(t, root, |root|) && Dense(t1, bpb, root, n)
      && Unowned(a[1..], RootFoot(t1, root, |root|)) && a[0] != 0 && a[0] !in RootFoot(t1, root, |root|) + Elements(a[1..])
  {
    hide RootOk, RootFoot, BlockAt, MaxBlocks;
    var t1 := t[a[0] := Zeros(bpb)];
    OutsideInode(t, t1, bpb, root, {a[0]}, {});
  }

  /** The file ends one block later if and only if there was room for it. */
  lemma DenseExact(t: Blocks, root: seq<nat>, a: seq<nat>, t2: Blocks, root2: seq<nat>, a2: seq<nat>, bpb: nat, m: nat, n: nat, block: nat)
    requires bpb > 0 && |root| == |root2| == SLOTS && m < MaxBlocks(bpb) && block != 0 && (m == n || !Room(t, root, a, bpb, m))
    requires Dense(t, bpb, root, n) && Appended(t, root, a, t2, root2, a2, bpb, m, block)
    ensures if Room(t, root, a, bpb, m) then Dense(t2, bpb, root2, n + 1)
            else Dense(t2, bpb, root2, n) && (m == n ==> !Dense(t2, bpb, root2, n + 1))
  {
    hide Room, BlockAt, RootGrew, MaxBlocks, Outside;
    assert BlockAt(t, bpb, root, m) != 0 <==> m < n;
  }

  lemma CutDense(t: Blocks, root: seq<nat>, t2: Blocks, root2: seq<nat>, bpb: nat, n: nat, k: nat)
    requires bpb > 0 && |root| == |root2| == SLOTS && Dense(t, bpb, root, n)
    requires forall idx: nat :: idx < MaxBlocks(bpb) ==> BlockAt(t2, bpb, root2, idx) == if idx < k then BlockAt(t, bpb, root, idx) else 0
    ensures Dense(t2, bpb, root2, if k < n then k else n)
  {
    hide BlockAt, MaxBlocks;
  }

  lemma FewerUnowned(a: seq<nat>, before: set<nat>, now: set<nat>)
    requires Unowned(a, before) && now <= before
    ensures Unowned(a, now)
  {}

  lemma CounterDrops(n: nat, k: nat, u: nat)
    requires k <= n
    ensures Lowered(n * u, u, n - k) == k * u
  {
    Distribute(k, n - k, u);
    LoweredIs(n * u, u, n - k);
  }

  // ---- the inode in place ------------------------------------------------------------------------------

  class Inode {
    const v: Volume
    const sectorSize: nat        // of the device
    const perBlock: nat          // device sectors in a block
    const taken: nat             // sectors the code takes off for a freed block: block size / 512
    var sectors: nat             // i_blocks

    constructor (v: Volume, sectorSize: nat, perBlock: nat, sectors: nat)
      ensures this.v == v && this.sectorSize == sectorSize && this.perBlock == perBlock && this.sectors == sectors
      ensures taken == perBlock * sectorSize / 512
    {
      this.v, this.sectorSize, this.perBlock, this.sectors := v, sectorSize, perBlock, sectors;
      this.taken := perBlock * sectorSize / 512;
    }

    ghost predicate Ready()
      reads this, v, v.file
    {
      && v.file.bpb > 0 && |v.file.root| == SLOTS && sectorSize > 0 && perBlock > 0
      && RootOk(v.file.blocks, v.file.bpb, v.file.root, |v.file.root|)
      && Unowned(v.avail, RootFoot(v.file.blocks, v.file.root, |v.file.root|))
    }

    /** The file is its first n blocks, and the counter says so. */
    ghost predicate Holds(n: nat)
      reads this, v, v.file
    {
      Ready() && sectors == n * perBlock && Dense(v.file.blocks, v.file.bpb, v.file.root, n)
    }

    /** One round of AddBlocksToInode: a new block at index m, where the counter says that the file ends. */
    method Append(ghost m: nat, ghost n: nat) returns (ok: bool)
      requires Ready() && sectors == m * perBlock && Dense(v.file.blocks, v.file.bpb, v.file.root, n) && m < MaxBlocks(v.file.bpb)
      modifies this, v, v.file`blocks, v.file`root
      ensures |v.file.root| == SLOTS && (ok <==> old(v.avail) != [])
      ensures !ok ==> unchanged(this) && unchanged(v) && unchanged(v.file)
      ensures ok ==> sectors == (m + 1) * perBlock
      ensures ok ==> v.file.root == if m < DIRECT then old(v.file.root)[m := old(v.avail)[0]] else old(v.file.root)
      ensures ok && old(OrderlyNext(v.file.blocks, v.file.root, v.avail, v.file.bpb, m)) ==> Ready() && IsSuffix(v.avail, old(v.avail)[1..])
      ensures ok && old(OrderlyNext(v.file.blocks, v.file.root, v.avail, v.file.bpb, m)) && m == n ==>
                (Holds(n + 1) <==> old(RoomNext(v.file.blocks, v.file.root, v.avail, v.file.bpb, m)))
      ensures ok && old(OrderlyNext(v.file.blocks, v.file.root, v.avail, v.file.bpb, m)) ==>
                old(RoomNext(v.file.blocks, v.file.root, v.avail, v.file.bpb, m)) || Dense(v.file.blocks, v.file.bpb, v.file.root, n)
      ensures ok && (m < DIRECT || old(!HasRoot(v.file.bpb, v.file.root, m) && SlotOf(v.file.bpb, m) != 13)) ==> v.avail == old(v.avail)[1..]
    {
      hide RootOk, RootFoot, Dense, Appended, Orderly, Room, Unowned, MaxBlocks;
      if v.avail == [] { return false; }
      TakenApart(v.file.blocks, v.file.bpb, v.file.root, v.avail, n);
      var block := v.AllocBlock();
      IndexIs(m, perBlock, sectorSize, perBlock * sectorSize);
      var idx := sectors * sectorSize / (perBlock * sectorSize);
      sectors := sectors + perBlock;
      Distribute(m, 1, perBlock);
      ghost var t, root, a := v.file.blocks, v.file.root, v.avail;
      AddBlock(v, idx, block);
      if Orderly(t, root, a, v.file.bpb, m) {
        if m == n || !Room(t, root, a, v.file.bpb, m) {
          DenseExact(t, root, a, v.file.blocks, v.file.root, v.avail, v.file.bpb, m, n, block);
        }
        KeptReady(t, root, a, v.file.blocks, v.file.root, v.avail, v.file.bpb, m, block);
      }
      ok := true;
    }

    /**
     AddBlocksToInode for an inode without indirect roots, which is what every new inode is: the
     counter grows by all the blocks, but the file never has more than twelve.
     */
    method AddBlocks(count: nat, ghost n: nat) returns (ok: bool)
      requires Holds(n) && Rootless(v.file.root) && (count <= |v.avail| ==> n + count <= DIRECT + v.file.bpb)
      modifies this, v, v.file`blocks, v.file`root
      ensures ok <==> 0 < count <= |old(v.avail)|
      ensures !ok ==> unchanged(this) && unchanged(v) && unchanged(v.file)
      ensures ok ==> Ready() && Rootless(v.file.root) && sectors == (n + count) * perBlock && v.avail == old(v.avail)[count..]
      ensures ok ==> Dense(v.file.blocks, v.file.bpb, v.file.root, Top(n + count))
      ensures ok ==> (Holds(n + count) <==> n + count <= DIRECT)
      ensures ok ==> n <= Top(n + count) && v.file.root[..Top(n + count)] == old(v.file.root)[..n] + old(v.avail)[..Top(n + count) - n]
    {
      hide RootOk, RootFoot, Unowned, Dense;
      AtMostTwelve(v.file.blocks, v.file.bpb, v.file.root, n);
      if count == 0 || |v.avail| < count { return false; }
      ghost var a, root := v.avail, v.file.root;
      for i := 0 to count
        invariant GrownTo(n + i) && v.avail == a[i..]
        invariant v.file.root[..Top(n + i)] == root[..n] + a[..Top(n + i) - n]
      {
        ghost var r := v.file.root;
        AddNext(n + i);
        assert n + i < DIRECT ==> v.file.root[..n + i + 1] == r[..n + i] + [a[i]] && a[..i + 1] == a[..i] + [a[i]];
      }
      TwelveOrLess(v.file.blocks, v.file.bpb, v.file.root, n + count);
      ok := true;
    }

    /** The counter says m, the file has min(m, 12) blocks. */
    ghost predicate GrownTo(m: nat)
      reads this, v, v.file
    {
      && Ready() && Rootless(v.file.root) && sectors == m * perBlock
      && Dense(v.file.blocks, v.file.bpb, v.file.root, Top(m))
    }

    method AddNext(ghost m: nat)
      requires GrownTo(m) && v.avail != [] && m < DIRECT + v.file.bpb
      modifies this, v, v.file`blocks, v.file`root
      ensures GrownTo(m + 1) && v.avail == old(v.avail)[1..]
      ensures v.file.root == if m < DIRECT then old(v.file.root)[m := old(v.avail)[0]] else old(v.file.root)
    {
      hide RootOk, RootFoot, Unowned, Dense, MaxBlocks, OrderlyNext, RoomNext;
      Largest(v.file.bpb);
      RootlessAppends(v.file.blocks, v.file.root, v.avail, v.file.bpb, m);
      var _ := Append(m, Top(m));
    }

    /** EXT2FreeBlocksFrom with the counter: lowered once for each data block. */
    method Truncate(k: nat, ghost n: nat)
      requires Holds(n)
      modifies this, v.file
      ensures Ready() && Dense(v.file.blocks, v.file.bpb, v.file.root, if k < n then k else n)
      ensures sectors == Lowered(n * perBlock, taken, if k < n then n - k else 0)
      ensures taken == perBlock ==> Holds(if k < n then k else n)
      ensures forall i :: 0 <= i < SLOTS && old(v.file.root)[i] == 0 ==> v.file.root[i] == 0
      ensures forall idx: nat :: idx < MaxBlocks(v.file.bpb) ==>
                BlockAt(v.file.blocks, v.file.bpb, v.file.root, idx) ==
                  if idx < k then old(BlockAt(v.file.blocks, v.file.bpb, v.file.root, idx)) else 0
    {
      hide RootOk, RootFoot, BlockAt, MaxBlocks, FileMapped, Tights, Edges, Dense, Unowned, Lowered;
      ghost var t, root, before := v.file.blocks, v.file.root, RootFoot(v.file.blocks, v.file.root, |v.file.root|);
      DenseCount(t, v.file.bpb, root, n, k);
      var freed := v.file.freed;
      FreeBlocksFrom(v.file, k);
      CutDense(t, root, v.file.blocks, v.file.root, v.file.bpb, n, k);
      FewerUnowned(v.avail, before, RootFoot(v.file.blocks, v.file.root, |v.file.root|));
      sectors := Lower(sectors, v.file.freed - freed);
      if taken == perBlock { CounterDrops(n, if k < n then k else n, perBlock); }
    }

    method Lower(x0: nat, m: nat) returns (x: nat)
      ensures x == Lowered(x0, taken, m)
    {
      x := x0;
      for i := 0 to m
        invariant Lowered(x, taken, m - i) == Lowered(x0, taken, m)
      {
        if x >= taken { x := x - taken; }
      }
    }
  }

  /** As many of m blocks as have a direct slot. */
  function Top(m: nat): nat { if m < DIRECT then m else DIRECT }

  predicate Rootless(root: seq<nat>) { |root| == SLOTS && root[12] == root[13] == root[14] == 0 }

  lemma Largest(bpb: nat)
    requires bpb > 0
    ensures MaxBlocks(bpb) > DIRECT + bpb
  {
    Bases(bpb);
    MulAtLeast(bpb, bpb);
  }

  lemma RootlessHole(t: Blocks, bpb: nat, root: seq<nat>, idx: nat)
    requires bpb > 0 && Rootless(root) && idx >= DIRECT
    ensures BlockAt(t, bpb, root, idx) == 0
  {
    SlotBounds(bpb, idx);
    hide Base, Span;
    NoFind(t, bpb, Depth(SlotOf(bpb, idx)), idx - Base(bpb, SlotOf(bpb, idx)));
  }

  lemma AtMostTwelve(t: Blocks, bpb: nat, root: seq<nat>, n: nat)
    requires bpb > 0 && Rootless(root) && Dense(t, bpb, root, n)
    ensures n <= DIRECT
  {
    hide BlockAt, MaxBlocks;
    Largest(bpb);
    RootlessHole(t, bpb, root, DIRECT);
  }

  /** A file whose first blocks are the first twelve at most is dense up to m only if m is at most twelve. */
  lemma TwelveOrLess(t: Blocks, bpb: nat, root: seq<nat>, m: nat)
    requires bpb > 0 && Rootless(root) && Dense(t, bpb, root, Top(m))
    ensures Dense(t, bpb, root, m) <==> m <= DIRECT
  {
    if m > DIRECT && Dense(t, bpb, root, m) { AtMostTwelve(t, bpb, root, m); }
  }

  /** Without indirect roots there is room exactly in the twelve direct slots. */
  lemma RootlessAppends(t: Blocks, root: seq<nat>, a: seq<nat>, bpb: nat, m: nat)
    requires bpb > 0 && Rootless(root) && a != [] && m < MaxBlocks(bpb) && m < DIRECT + bpb
    ensures OrderlyNext(t, root, a, bpb, m) && (RoomNext(t, root, a, bpb, m) <==> m < DIRECT)
    ensures m >= DIRECT ==> !HasRoot(bpb, root, m) && SlotOf(bpb, m) != 13
  {
    hide Base, Span, Tame;
  }

  // ---- runs ----------------------------------------------------------------------------------------------

  datatype Op = Grow(count: nat) | Shrink(k: nat)

  /** Size and free blocks after one operation; a growth that does not fit does nothing. */
  /** The blocks of the file and the free ones, after an operation. */
  function After(c: seq<nat>, a: seq<nat>, op: Op): (seq<nat>, seq<nat>) {
    match op
    case Grow(count) => if count <= |a| then (c + a[..count], a[count..]) else (c, a)
    case Shrink(k) => (if k < |c| then c[..k] else c, a)
  }

  function AfterAll(c: seq<nat>, a: seq<nat>, ops: seq<Op>): (seq<nat>, seq<nat>)
    decreases |ops|
  {
    if ops == [] then (c, a) else
      var (c1, a1) := After(c, a, ops[0]);
      AfterAll(c1, a1, ops[1..])
  }

  /** The file never has more than twelve blocks. */
  predicate Small(c: seq<nat>, a: seq<nat>, ops: seq<Op>)
    decreases |ops|
  {
    |c| <= DIRECT && (ops != [] ==> var (c1, a1) := After(c, a, ops[0]); Small(c1, a1, ops[1..]))
  }

  /** A new inode's file: c are its blocks, and the counter says how many. */
  ghost predicate Is(f: Inode, c: seq<nat>)
    reads f, f.v, f.v.file
  {
    f.Holds(|c|) && Rootless(f.v.file.root) && |c| <= DIRECT && f.v.file.root[..|c|] == c
  }

  method RunOne(f: Inode, op: Op, ghost c: seq<nat>)
    requires Is(f, c) && f.taken == f.perBlock && |After(c, f.v.avail, op).0| <= DIRECT
    modifies f, f.v, f.v.file
    ensures Is(f, After(c, old(f.v.avail), op).0) && f.v.avail == After(c, old(f.v.avail), op).1
  {
    hide RootOk, RootFoot, Unowned, Dense, Lowered, BlockAt, MaxBlocks;
    match op
    case Grow(count) =>
      var ok := f.AddBlocks(count, |c|);
      if !ok { NoneAdded(c, f.v.avail); }
    case Shrink(k) =>
      ghost var root, t := f.v.file.root, f.v.file.blocks;
      f.Truncate(k, |c|);
      DirectKept(t, f.v.file.blocks, f.v.file.bpb, root, f.v.file.root, k, |c|);
  }

  lemma NoneAdded(c: seq<nat>, a: seq<nat>)
    ensures c + a[..0] == c && a[0..] == a
  {}

  /** The direct slots before the cut are as they were. */
  lemma DirectKept(t: Blocks, t2: Blocks, bpb: nat, root: seq<nat>, root2: seq<nat>, k: nat, n: nat)
    requires bpb > 0 && |root| == |root2| == SLOTS && n <= DIRECT
    requires forall idx: nat :: idx < MaxBlocks(bpb) ==> BlockAt(t2, bpb, root2, idx) == if idx < k then BlockAt(t, bpb, root, idx) else 0
    ensures var m := if k < n then k else n; root2[..m] == root[..m]
  {
    Largest(bpb);
    var m := if k < n then k else n;
    forall i | 0 <= i < m ensures root2[i] == root[i] {
      DirectAt(t, bpb, root, i);
      DirectAt(t2, bpb, root2, i);
    }
  }

  lemma DirectAt(t: Blocks, bpb: nat, root: seq<nat>, i: nat)
    requires bpb > 0 && |root| == SLOTS && i < DIRECT
    ensures BlockAt(t, bpb, root, i) == root[i]
  {}

  /**
   Over any run that stays within twelve blocks, growing appends the blocks taken from the free
   ones, in order, shrinking cuts, and the counter says how many there are.
   */
  method Run(f: Inode, ops: seq<Op>, ghost c: seq<nat>)
    requires Is(f, c) && f.taken == f.perBlock && Small(c, f.v.avail, ops)
    modifies f, f.v, f.v.file
    ensures Is(f, AfterAll(c, old(f.v.avail), ops).0) && f.v.avail == AfterAll(c, old(f.v.avail), ops).1
    decreases |ops|
  {
    hide Inode.Holds;
    if ops != [] {
      RunOne(f, ops[0], c);
      Run(f, ops[1..], After(c, old(f.v.avail), ops[0]).0);
    }
  }

  /** A new inode: no block, no root, counter 0. */
  method NewFile(bpb: nat, blocks: Blocks, avail: seq<nat>, sectorSize: nat, perBlock: nat) returns (f: Inode)
    requires bpb > 0 && sectorSize > 0 && perBlock > 0 && Unowned(avail, {})
    ensures fresh(f) && fresh(f.v) && fresh(f.v.file) && Is(f, []) && f.v.avail == avail
    ensures f.perBlock == perBlock && f.taken == perBlock * sectorSize / 512
  {
    var root := Zeros(SLOTS);
    var file := new File(bpb, blocks, root);
    var v := new Volume(file, avail);
    f := new Inode(v, sectorSize, perBlock, 0);
    EmptyRoot(blocks, bpb, root, SLOTS);
    EmptyFile(blocks, bpb, root);
  }

  lemma {:induction false} EmptyRoot(t: Blocks, bpb: nat, root: seq<nat>, n: nat)
    requires n <= |root| && forall i :: 0 <= i < |root| ==> root[i] == 0
    ensures RootOk(t, bpb, root, n) && RootFoot(t, root, n) == {}
    decreases n
  {
    if n > 0 { EmptyRoot(t, bpb, root, n - 1); }
  }

  lemma EmptyFile(t: Blocks, bpb: nat, root: seq<nat>)
    requires bpb > 0 && |root| == SLOTS && forall i :: 0 <= i < SLOTS ==> root[i] == 0
    ensures Dense(t, bpb, root, 0)
  {
    forall idx: nat | idx < MaxBlocks(bpb) ensures BlockAt(t, bpb, root, idx) == 0 {
      if idx < DIRECT { DirectAt(t, bpb, root, idx); } else { RootlessHole(t, bpb, root, idx); }
    }
  }

  lemma KeptReady(t: Blocks, root: seq<nat>, a: seq<nat>, t2: Blocks, root2: seq<nat>, a2: seq<nat>, bpb: nat, n: nat, block: nat)
    requires bpb > 0 && |root| == |root2| == SLOTS && n < MaxBlocks(bpb) && Appended(t, root, a, t2, root2, a2, bpb, n, block)
    requires Unowned(a, RootFoot(t, root, |root|)) && block !in RootFoot(t, root, |root|) + Elements(a)
    ensures RootOk(t2, bpb, root2, |root2|) && Unowned(a2, RootFoot(t2, root2, |root2|)) && IsSuffix(a2, a)
  {
    hide RootOk, RootFoot, Room, MapGrew, MapSame, Unowned, Outside;
    StillUnowned(a, a2, RootFoot(t, root, |root|), RootFoot(t2, root2, |root2|), block);
  }
}
