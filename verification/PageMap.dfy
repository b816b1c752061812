/**
 Mapping, unmapping and looking up one 4 KB page in a page table tree, proved against
 the flat translation `Walk`.
 */
module PageMap {
  import opened Options
  import opened PageTables
  import opened AddressSpace

  datatype MapStatus = Mapped | NoMem | Exists

  datatype Flags = Flags(writable: bool, user: bool, nx: bool, pcd: bool, pwt: bool, global: bool)

  /** The leaf map_page_to_virt_in writes over old entry e: stale big and spare bits stay. */
  function NewLeaf(e: Entry, frame: nat, fl: Flags): Entry {
    e.(present := true, writable := fl.writable, user := fl.user, frame := frame,
       nx := fl.nx, pcd := fl.pcd, pwt := fl.pwt, global := fl.global)
  }

  /** An intermediate entry after the walk has made sure of it. */
  function Linked(e: Entry, frame: nat, fl: Flags): Entry {
    var e1 := if e.present then e else e.(present := true, writable := true, frame := frame);
    if fl.user then e1.(user := true) else e1
  }

  /** The entries a walk along path reads, from the root table down. */
  function ReadPath(t: Tables, es: seq<Entry>, path: seq<nat>): (rs: seq<Entry>)
    ensures |rs| <= |path|
    decreases |path|
  {
    if path == [] || path[0] >= |es| then []
    else
      var e := es[path[0]];
      [e] + if |path| > 1 && IsTable(|path|, e) && e.frame in t then ReadPath(t, t[e.frame], path[1..]) else []
  }

  /** No 1 GiB page, live or stale, on the path: the kernel never creates one. */
  ghost predicate NoHuge(rs: seq<Entry>, L: nat) {
    3 <= L && L - 3 < |rs| ==> !rs[L - 3].big
  }

  /** The page-directory slot on the path is absent but still carries the big-page bit. */
  ghost predicate StaleBig(rs: seq<Entry>, L: nat) {
    2 <= L && |rs| == L - 1 && !rs[L - 2].present && rs[L - 2].big
  }

  /** The entry that the path's leaf slot held before, if its table existed. */
  ghost function OldLeaf(rs: seq<Entry>, L: nat): Entry {
    if 1 <= L && |rs| == L then rs[L - 1] else ZERO
  }

  lemma {:induction false} ReadPathFrame(t: Tables, t2: Tables, es: seq<Entry>, n: nat, path: seq<nat>)
    requires path != [] && path[0] < n <= |es| && Tree(t, |path|, es, n)
    requires SameOn(t, t2, Foot(t, |path|, es, n))
    ensures ReadPath(t2, es, path) == ReadPath(t, es, path)
    decreases |path|
  {
    var e := es[path[0]];
    EntryInFoot(t, |path|, es, n, path[0]);
    if IsTable(|path|, e) && |path| > 1 && path[1] < |t[e.frame]| {
      ReadPathFrame(t, t2, t[e.frame], |t[e.frame]|, path[1..]);
    }
  }

  /** Same frame and flags, the user bit of the leaf aside. */
  ghost predicate SameTarget(w: Option<Hit>, w2: Option<Hit>) {
    match (w, w2)
    case (None, None) => true
    case (Some(h), Some(h2)) => h2.offset == h.offset && h2.leaf.(user := h.leaf.user) == h.leaf
    case _ => false
  }

  ghost predicate Other(q: seq<nat>, path: seq<nat>, n: nat) {
    |q| == |path| && q != [] && IsPath(q) && q[0] < n && q != path
  }

  /** Every other page translates as before. */
  ghost predicate OthersKept(t: Tables, es: seq<Entry>, t2: Tables, es2: seq<Entry>, n: nat, path: seq<nat>, strict: bool) {
    forall q: seq<nat> :: Other(q, path, n) ==>
      SameTarget(Walk(t, es, q), Walk(t2, es2, q)) && (strict ==> Walk(t2, es2, q) == Walk(t, es, q))
  }

  // ---- walks through one table --------------------------------------------------------

  /** Walks through a sibling slot do not see a change below slot i. */
  lemma SiblingWalk(t: Tables, t2: Tables, es: seq<Entry>, n: nat, i: nat, e2: Entry, x: set<nat>, q: seq<nat>)
    requires q != [] && q[0] < n <= |es| && i < n && q[0] != i && Tree(t, |q|, es, n)
    requires TablesKept(t, t2, x) && x !! EntryFoot(t, |q|, es[q[0]])
    ensures Walk(t2, es[i := e2], q) == Walk(t, es, q)
  {
    var e := es[q[0]];
    EntryInFoot(t, |q|, es, n, q[0]);
    if IsTable(|q|, e) && |q| > 1 && q[1] < |t[e.frame]| {
      WalkFrame(t, t2, t[e.frame], |t[e.frame]|, q[1..]);
    }
  }

  lemma ZeroWalk(t: Tables, es: seq<Entry>, q: seq<nat>)
    requires forall k :: 0 <= k < |es| ==> !es[k].present
    ensures Walk(t, es, q) == None
  {}

  lemma {:induction false} ZeroTree(t: Tables, L: nat, es: seq<Entry>)
    requires forall k :: 0 <= k < |es| ==> !es[k].present
    ensures Tree(t, L, es, |es|) && Foot(t, L, es, |es|) == {}
  {
    AbsentTail(t, L, es, 0, |es|);
  }

  // ---- map --------------------------------------------------------------------------

  /** Table f can be walked along path: it is an unshared tree over allocated frames. */
  ghost predicate MapReady(t: Tables, free: set<nat>, f: nat, n: nat, path: seq<nat>) {
    && path != [] && IsPath(path) && path[0] < n <= ENTRIES
    && f in t && |t[f]| == ENTRIES && f !in free
    && Tree(t, |path|, t[f], n) && Foot(t, |path|, t[f], n) !! free && f !in Foot(t, |path|, t[f], n)
    && NoHuge(ReadPath(t, t[f], path), |path|)
  }

  /** The one case in which mapping damages a translation. */
  ghost predicate Spoiled(t: Tables, free: set<nat>, f: nat, path: seq<nat>)
    requires f in t
  {
    StaleBig(ReadPath(t, t[f], path), |path|) && free != {}
  }

  ghost predicate MapDone(t: Tables, free: set<nat>, t2: Tables, free2: set<nat>, f: nat, n: nat, path: seq<nat>,
                          frame: nat, fl: Flags, r: MapStatus)
    requires f in t && path != [] && path[0] < |t[f]|
  {
    && free2 <= free && f in t2 && |t2[f]| == |t[f]| && t2[f] == t[f][path[0] := t2[f][path[0]]]
    && TablesKept(t, t2, EntryFoot(t, |path|, t[f][path[0]]) + {f} + (free - free2))
    && (r.NoMem? ==> free2 == {})
    && (Spoiled(t, free, f, path) ==>
          r.Exists? && Walk(t, t[f], path).None? && Walk(t2, t2[f], path).Some?)
    && (!Spoiled(t, free, f, path) ==>
          && OthersKept(t, t[f], t2, t2[f], n, path, !r.Exists?)
          && match r
             case Mapped => Walk(t2, t2[f], path) == Some(Hit(NewLeaf(OldLeaf(ReadPath(t, t[f], path), |path|), frame, fl), []))
             case NoMem => Walk(t2, t2[f], path) == Walk(t, t[f], path)
             case Exists => Walk(t, t[f], path).Some? && Walk(t, t[f], path).value.offset != []
                            && SameTarget(Walk(t, t[f], path), Walk(t2, t2[f], path)))
  }

  /** Writing the leaf entry itself. */
  lemma LeafWritten(t: Tables, free: set<nat>, f: nat, n: nat, path: seq<nat>, frame: nat, fl: Flags)
    requires MapReady(t, free, f, n, path) && |path| == 1
    ensures MapDone(t, free, t[f := t[f][path[0] := NewLeaf(t[f][path[0]], frame, fl)]], free, f, n, path, frame, fl, Mapped)
  {
    var t2 := t[f := t[f][path[0] := NewLeaf(t[f][path[0]], frame, fl)]];
    forall q: seq<nat> | Other(q, path, n) ensures Walk(t2, t2[f], q) == Walk(t, t[f], q) {
      assert q == [q[0]] && path == [path[0]];
    }
    assert path[1..] == [];
  }

  /** How the tables look once slot path[0] of f is sure to lead to a table. */
  ghost predicate Descended(t: Tables, free: set<nat>, t1: Tables, free1: set<nat>, f: nat, path: seq<nat>, table: nat)
    requires f in t && |path| > 1 && path[0] < |t[f]|
  {
    && Entered(t, free, t1, free1, f, path, table)
    && SameReads(t, free, t1, free1, f, path, table)
  }

  ghost predicate Entered(t: Tables, free: set<nat>, t1: Tables, free1: set<nat>, f: nat, path: seq<nat>, table: nat)
    requires f in t && |path| > 1 && path[0] < |t[f]|
  {
    var i, L := path[0], |path|;
    && free1 <= free && f in t1 && table in t1 && table != f && |t1[table]| == ENTRIES && |t1[f]| == |t[f]|
    && t1[f] == t[f][i := t1[f][i]] && IsTable(L, t1[f][i]) && t1[f][i].frame == table
    && TablesKept(t, t1, {f} + (free - free1))
    && {table} + Foot(t1, L - 1, t1[table], ENTRIES) <= EntryFoot(t, L, t[f][i]) + (free - free1)
    && free - free1 <= {table}
  }

  /** Reading through the slot gives what reading the table below gives. */
  ghost predicate SameReads(t: Tables, free: set<nat>, t1: Tables, free1: set<nat>, f: nat, path: seq<nat>, table: nat)
    requires f in t && |path| > 1 && table in t1
  {
    && (forall q: seq<nat> :: |q| == |path| && q[0] == path[0] ==> Walk(t, t[f], q) == Walk(t1, t1[table], q[1..]))
    && (Spoiled(t, free, f, path) <==> Spoiled(t1, free1, table, path[1..]))
    && OldLeaf(ReadPath(t, t[f], path), |path|) == OldLeaf(ReadPath(t1, t1[table], path[1..]), |path| - 1)
  }

  lemma DescendedKept(t: Tables, free: set<nat>, t1: Tables, free1: set<nat>, t2: Tables, free2: set<nat>,
                      f: nat, n: nat, path: seq<nat>, table: nat, frame: nat, fl: Flags, r: MapStatus)
    requires MapReady(t, free, f, n, path) && |path| > 1
    requires Descended(t, free, t1, free1, f, path, table) && path[1] < ENTRIES
    requires MapDone(t1, free1, t2, free2, table, ENTRIES, path[1..], frame, fl, r)
    ensures f in t2 && t2[f] == t1[f]
    ensures TablesKept(t, t2, EntryFoot(t, |path|, t[f][path[0]]) + {f} + (free - free2))
    ensures forall j :: 0 <= j < n && j != path[0] ==>
              (EntryFoot(t, |path|, t[f][path[0]]) + {f} + (free - free2)) !! EntryFoot(t, |path|, t[f][j])
  {
    hide Tree, Foot, EntryTree, EntryFoot, ReadPath, NoHuge, OthersKept, Walk;
    var i, L := path[0], |path|;
    EntryInFoot(t1, L - 1, t1[table], ENTRIES, path[1]);
    EntryInFoot(t, L, t[f], n, i);
    forall j | 0 <= j < n && j != i
      ensures (EntryFoot(t, L, t[f][i]) + {f} + (free - free2)) !! EntryFoot(t, L, t[f][j])
    {
      EntryInFoot(t, L, t[f], n, j);
      EntriesApart(t, L, t[f], n, if i < j then i else j, if i < j then j else i);
    }
  }

  lemma Ascend(t: Tables, free: set<nat>, t1: Tables, free1: set<nat>, t2: Tables, free2: set<nat>,
               f: nat, n: nat, path: seq<nat>, table: nat, frame: nat, fl: Flags, r: MapStatus)
    requires MapReady(t, free, f, n, path) && |path| > 1
    requires Descended(t, free, t1, free1, f, path, table) && path[1] < ENTRIES
    requires MapDone(t1, free1, t2, free2, table, ENTRIES, path[1..], frame, fl, r)
    ensures MapDone(t, free, t2, free2, f, n, path, frame, fl, r)
  {
    DescendedKept(t, free, t1, free1, t2, free2, f, n, path, table, frame, fl, r);
    hide Tree, Foot, EntryFoot, NoHuge;
    var x := EntryFoot(t, |path|, t[f][path[0]]) + {f} + (free - free2);
    if !Spoiled(t, free, f, path) {
      OthersLifted(t, t1, t2, f, n, path, table, x, !r.Exists?);
    }
  }

  lemma OthersLifted(t: Tables, t1: Tables, t2: Tables, f: nat, n: nat, path: seq<nat>, table: nat, x: set<nat>, strict: bool)
    requires |path| > 1 && f in t && f in t2 && table in t1 && table in t2 && path[0] < n <= |t[f]| == |t2[f]|
    requires Tree(t, |path|, t[f], n) && TablesKept(t, t2, x) && t2[f] == t[f][path[0] := t2[f][path[0]]]
    requires IsTable(|path|, t2[f][path[0]]) && t2[f][path[0]].frame == table
    requires forall j :: 0 <= j < n && j != path[0] ==> x !! EntryFoot(t, |path|, t[f][j])
    requires forall q: seq<nat> :: |q| == |path| && q[0] == path[0] ==> Walk(t, t[f], q) == Walk(t1, t1[table], q[1..])
    requires OthersKept(t1, t1[table], t2, t2[table], ENTRIES, path[1..], strict)
    ensures OthersKept(t, t[f], t2, t2[f], n, path, strict)
  {
    forall q: seq<nat> | Other(q, path, n)
      ensures SameTarget(Walk(t, t[f], q), Walk(t2, t2[f], q)) && (strict ==> Walk(t2, t2[f], q) == Walk(t, t[f], q))
    {
      if q[0] != path[0] {
        SiblingWalk(t, t2, t[f], n, path[0], t2[f][path[0]], x, q);
      } else {
        assert q == [q[0]] + q[1..] && path == [path[0]] + path[1..];
        assert Other(q[1..], path[1..], ENTRIES);
      }
    }
  }

  /** One level down, the path facts shift by one. */
  lemma ShiftPath(e: Entry, rs: seq<Entry>, L: nat)
    requires L > 1 && e.present && NoHuge([e] + rs, L)
    ensures NoHuge(rs, L - 1) && OldLeaf([e] + rs, L) == OldLeaf(rs, L - 1)
    ensures StaleBig([e] + rs, L) <==> StaleBig(rs, L - 1)
  {}

  /** The tree below a slot survives a change of the slot's own table. */
  lemma BelowSlot(t: Tables, t1: Tables, free: set<nat>, f: nat, n: nat, path: seq<nat>)
    requires MapReady(t, free, f, n, path) && |path| > 1 && IsTable(|path|, t[f][path[0]]) && TablesKept(t, t1, {f})
    ensures var L := |path|; var e := t[f][path[0]]; var g := e.frame;
            && g in t && g in t1 && g != f && t1[g] == t[g] && |t[g]| == ENTRIES
            && Tree(t, L - 1, t[g], ENTRIES) && SameOn(t, t1, Foot(t, L - 1, t[g], ENTRIES))
            && Tree(t1, L - 1, t[g], ENTRIES) && g !in Foot(t1, L - 1, t[g], ENTRIES)
            && {g} + Foot(t1, L - 1, t[g], ENTRIES) == EntryFoot(t, L, e) && EntryFoot(t, L, e) !! free
  {
    var L, e := |path|, t[f][path[0]];
    EntryInFoot(t, L, t[f], n, path[0]);
    TableEntry(t, L, e);
    hide Tree, Foot, EntryTree, EntryFoot, NoHuge;
    EntryFrame(t, t1, L, e);
    TableEntry(t1, L, e);
  }

  lemma WalksBelow(t: Tables, t1: Tables, g: nat, sub: seq<nat>)
    requires g in t && |t[g]| == ENTRIES && sub != [] && IsPath(sub)
    requires Tree(t, |sub|, t[g], ENTRIES) && SameOn(t, t1, Foot(t, |sub|, t[g], ENTRIES))
    ensures ReadPath(t1, t[g], sub) == ReadPath(t, t[g], sub)
    ensures forall q: seq<nat> :: |q| == |sub| ==> Walk(t1, t[g], q) == Walk(t, t[g], q)
  {
    hide Tree, Foot;
    ReadPathFrame(t, t1, t[g], ENTRIES, sub);
    forall q: seq<nat> | |q| == |sub| ensures Walk(t1, t[g], q) == Walk(t, t[g], q) {
      if q[0] < ENTRIES { WalkFrame(t, t1, t[g], ENTRIES, q); }
    }
  }

  lemma LinkedEntry(L: nat, e: Entry, frame: nat, fl: Flags)
    requires if e.present then e.frame == frame && IsTable(L, e) else L > 1 && !((L == 2 || L == 3) && e.big)
    ensures Linked(e, frame, fl).frame == frame && IsTable(L, Linked(e, frame, fl))
  {}

  /** The slot already leads to a table. */
  lemma DescendExisting(t: Tables, free: set<nat>, f: nat, n: nat, path: seq<nat>, fl: Flags)
    requires MapReady(t, free, f, n, path) && |path| > 1 && IsTable(|path|, t[f][path[0]])
    ensures var e := t[f][path[0]]; var t1 := t[f := t[f][path[0] := Linked(e, e.frame, fl)]];
            Descended(t, free, t1, free, f, path, e.frame)
  {
    hide Tree, Foot, EntryTree, EntryFoot, NoHuge, SameReads, ReadPath;
    var e := t[f][path[0]];
    LinkedEntry(|path|, e, e.frame, fl);
    hide Linked, IsTable;
    var t1 := t[f := t[f][path[0] := Linked(e, e.frame, fl)]];
    BelowSlot(t, t1, free, f, n, path);
    ReadThrough(t, t1, free, f, n, path);
  }

  lemma ReadThrough(t: Tables, t1: Tables, free: set<nat>, f: nat, n: nat, path: seq<nat>)
    requires MapReady(t, free, f, n, path) && |path| > 1 && IsTable(|path|, t[f][path[0]]) && TablesKept(t, t1, {f})
    ensures t[f][path[0]].frame in t1 && SameReads(t, free, t1, free, f, path, t[f][path[0]].frame)
  {
    hide Tree, Foot, EntryTree, EntryFoot;
    var e := t[f][path[0]];
    BelowSlot(t, t1, free, f, n, path);
    WalksBelow(t, t1, e.frame, path[1..]);
    var rs := ReadPath(t, t[e.frame], path[1..]);
    assert ReadPath(t, t[f], path) == [e] + rs;
    ShiftPath(e, rs, |path|);
    hide NoHuge, StaleBig, OldLeaf, ReadPath;
    forall q: seq<nat> | |q| == |path| && q[0] == path[0] ensures Walk(t, t[f], q) == Walk(t1, t1[e.frame], q[1..]) {
      assert Walk(t, t[f], q) == Walk(t, t[e.frame], q[1..]);
    }
  }

  lemma ReadyBelowExisting(t: Tables, free: set<nat>, f: nat, n: nat, path: seq<nat>, fl: Flags)
    requires MapReady(t, free, f, n, path) && |path| > 1 && IsTable(|path|, t[f][path[0]])
    ensures var e := t[f][path[0]]; var t1 := t[f := t[f][path[0] := Linked(e, e.frame, fl)]];
            MapReady(t1, free, e.frame, ENTRIES, path[1..])
  {
    var e := t[f][path[0]];
    var t1 := t[f := t[f][path[0] := Linked(e, e.frame, fl)]];
    BelowSlot(t, t1, free, f, n, path);
    hide Tree, Foot, EntryTree, EntryFoot;
    WalksBelow(t, t1, e.frame, path[1..]);
    ShiftPath(e, ReadPath(t, t[e.frame], path[1..]), |path|);
    assert e.frame in {e.frame} + Foot(t1, |path| - 1, t[e.frame], ENTRIES);
  }

  /** The slot is absent: a zeroed table is linked in. */
  lemma DescendFresh(t: Tables, free: set<nat>, f: nat, n: nat, path: seq<nat>, fl: Flags, table: nat, zeros: seq<Entry>)
    requires MapReady(t, free, f, n, path) && |path| > 1 && !t[f][path[0]].present
    requires !(|path| == 2 && t[f][path[0]].big)
    requires table in free && zeros == seq(ENTRIES, _ => ZERO)
    ensures var e := t[f][path[0]]; var t1 := t[table := zeros][f := t[f][path[0] := Linked(e, table, fl)]];
            && Descended(t, free, t1, free - {table}, f, path, table)
            && MapReady(t1, free - {table}, table, ENTRIES, path[1..])
  {
    var e := t[f][path[0]];
    assert ReadPath(t, t[f], path) == [e];
    hide Tree, Foot, EntryTree, EntryFoot, SameReads, ReadPath;
    LinkedEntry(|path|, e, table, fl);
    hide Linked, IsTable;
    var t1 := t[table := zeros][f := t[f][path[0] := Linked(e, table, fl)]];
    ZeroTree(t1, |path| - 1, zeros);
    ReadFresh(t, t1, free, free - {table}, f, path, table, zeros);
  }

  lemma ReadFresh(t: Tables, t1: Tables, free: set<nat>, free1: set<nat>, f: nat, path: seq<nat>, table: nat, zeros: seq<Entry>)
    requires |path| > 1 && IsPath(path) && f in t && path[0] < |t[f]| && !t[f][path[0]].present
    requires !(|path| == 2 && t[f][path[0]].big)
    requires zeros == seq(ENTRIES, _ => ZERO) && table in t1 && t1[table] == zeros
    ensures SameReads(t, free, t1, free1, f, path, table) && NoHuge(ReadPath(t1, zeros, path[1..]), |path| - 1)
  {
    assert ReadPath(t, t[f], path) == [t[f][path[0]]];
    assert ReadPath(t1, zeros, path[1..]) == [ZERO];
    forall q: seq<nat> | |q| == |path| && q[0] == path[0] ensures Walk(t, t[f], q) == Walk(t1, t1[table], q[1..]) {
      ZeroWalk(t1, zeros, q[1..]);
    }
  }

  /** A live 2 MB page covers the address: at most its user bit changes. */
  lemma HitsBigPage(t: Tables, free: set<nat>, f: nat, n: nat, path: seq<nat>, frame: nat, fl: Flags)
    requires MapReady(t, free, f, n, path) && |path| == 2 && t[f][path[0]].present && t[f][path[0]].big
    ensures var e := t[f][path[0]];
            MapDone(t, free, t[f := t[f][path[0] := Linked(e, e.frame, fl)]], free, f, n, path, frame, fl, Exists)
  {
    var e := t[f][path[0]];
    var t2 := t[f := t[f][path[0] := Linked(e, e.frame, fl)]];
    assert ReadPath(t, t[f], path) == [e];
    forall q: seq<nat> | Other(q, path, n) ensures SameTarget(Walk(t, t[f], q), Walk(t2, t2[f], q)) {
      if q[0] != path[0] {
        EntryInFoot(t, 2, t[f], n, q[0]);
        SiblingWalk(t, t2, t[f], n, path[0], t2[f][path[0]], {f}, q);
      }
    }
  }

  /** The damaging case: a stale big bit turns the new table's frame into a live 2 MB page. */
  lemma RevivesBigPage(t: Tables, free: set<nat>, f: nat, n: nat, path: seq<nat>, frame: nat, fl: Flags, table: nat, zeros: seq<Entry>)
    requires MapReady(t, free, f, n, path) && |path| == 2 && !t[f][path[0]].present && t[f][path[0]].big && table in free
    ensures var e := t[f][path[0]]; var t2 := t[table := zeros][f := t[f][path[0] := Linked(e, table, fl)]];
            MapDone(t, free, t2, free - {table}, f, n, path, frame, fl, Exists) && Spoiled(t, free, f, path)
  {
    assert ReadPath(t, t[f], path) == [t[f][path[0]]];
  }

  lemma OutOfMemory(t: Tables, f: nat, n: nat, path: seq<nat>, frame: nat, fl: Flags)
    requires MapReady(t, {}, f, n, path)
    ensures MapDone(t, {}, t, {}, f, n, path, frame, fl, NoMem)
  {}

  // ---- the tree stays a tree --------------------------------------------------------

  /** Replacing one entry's subtree by one over its own or fresh frames. */
  lemma {:induction false} ReplaceEntry(t: Tables, t2: Tables, L: nat, es: seq<Entry>, i: nat, e2: Entry, n: nat, x: set<nat>)
    requires i < n <= |es| && Tree(t, L, es, n) && TablesKept(t, t2, x)
    requires forall j :: 0 <= j < n && j != i ==> x !! EntryFoot(t, L, es[j])
    requires EntryTree(t2, L, e2) && EntryFoot(t2, L, e2) <= x
    ensures Tree(t2, L, es[i := e2], n)
    ensures Foot(t2, L, es[i := e2], n) <= Foot(t, L, es, n) + EntryFoot(t2, L, e2)
    ensures forall j :: 0 <= j < n && j != i ==> EntryFoot(t, L, es[j]) <= Foot(t2, L, es[i := e2], n)
    decreases n
  {
    if i < n - 1 {
      ReplaceEntry(t, t2, L, es, i, e2, n - 1, x);
      EntryFrame(t, t2, L, es[n - 1]);
    } else {
      NoFootClash(t, L, es, i, x);
      TreeFrame(t, t2, L, es, i);
      assert es[..i] == es[i := e2][..i];
      TreePrefix(t2, L, es, es[i := e2], i);
      forall j | 0 <= j < i ensures EntryFoot(t, L, es[j]) <= Foot(t, L, es, i) { EntryInFoot(t, L, es, i, j); }
    }
  }

  lemma {:induction false} NoFootClash(t: Tables, L: nat, es: seq<Entry>, n: nat, x: set<nat>)
    requires n <= |es| && forall j :: 0 <= j < n ==> x !! EntryFoot(t, L, es[j])
    ensures x !! Foot(t, L, es, n)
    decreases n
  {
    if n > 0 { NoFootClash(t, L, es, n - 1, x); }
  }

  /** The frame the tree owns in addition once the page is mapped. */
  ghost function Gained(frame: nat, fl: Flags, r: MapStatus): set<nat> { if r.Mapped? && !fl.pcd then {frame} else {} }

  /** The new leaf's frame, if owned, is not owned yet. */
  ghost predicate NewFrame(t: Tables, free: set<nat>, f: nat, n: nat, path: seq<nat>, own: set<nat>)
    requires f in t && n <= |t[f]|
  {
    own !! Foot(t, |path|, t[f], n) && own !! free && f !in own
  }

  /** The operation leaves an unshared tree over the old frames, all the frames it took, and `own`. */
  ghost predicate StillTree(t: Tables, free: set<nat>, t2: Tables, free2: set<nat>, f: nat, n: nat, path: seq<nat>, own: set<nat>)
    requires f in t && n <= |t[f]|
  {
    && f in t2 && |t2[f]| == |t[f]| && Tree(t2, |path|, t2[f], n)
    && Foot(t2, |path|, t2[f], n) <= Foot(t, |path|, t[f], n) + (free - free2) + own
    && free - free2 <= Foot(t2, |path|, t2[f], n)
    && f !in Foot(t2, |path|, t2[f], n)
  }

  lemma SlotReplaced(t: Tables, free: set<nat>, t2: Tables, free2: set<nat>, f: nat, n: nat, path: seq<nat>, own: set<nat>)
    requires MapReady(t, free, f, n, path) && NewFrame(t, free, f, n, path, own)
    requires free2 <= free && f in t2 && |t2[f]| == |t[f]| && t2[f] == t[f][path[0] := t2[f][path[0]]]
    requires TablesKept(t, t2, EntryFoot(t, |path|, t[f][path[0]]) + {f} + (free - free2))
    requires EntryTree(t2, |path|, t2[f][path[0]])
    requires EntryFoot(t2, |path|, t2[f][path[0]]) <= EntryFoot(t, |path|, t[f][path[0]]) + (free - free2) + own
    requires free - free2 <= EntryFoot(t2, |path|, t2[f][path[0]])
    ensures StillTree(t, free, t2, free2, f, n, path, own)
  {
    hide Tree, Foot, EntryTree, EntryFoot, NoHuge;
    var i, L := path[0], |path|;
    var x := EntryFoot(t, L, t[f][i]) + {f} + (free - free2) + own;
    EntryInFoot(t, L, t[f], n, i);
    forall j | 0 <= j < n && j != i ensures x !! EntryFoot(t, L, t[f][j]) {
      EntryInFoot(t, L, t[f], n, j);
      EntriesApart(t, L, t[f], n, if i < j then i else j, if i < j then j else i);
    }
    ReplaceEntry(t, t2, L, t[f], i, t2[f][i], n, x);
    EntryInFoot(t2, L, t2[f], n, i);
  }

  /** The slot's subtree after the recursive step. */
  lemma AscendEntry(t: Tables, free: set<nat>, t1: Tables, free1: set<nat>, t2: Tables, free2: set<nat>,
                    f: nat, path: seq<nat>, table: nat, own: set<nat>)
    requires f in t && |path| > 1 && path[0] < |t[f]| && Entered(t, free, t1, free1, f, path, table)
    requires free2 <= free1 && f in t2 && t2[f] == t1[f]
    requires StillTree(t1, free1, t2, free2, table, ENTRIES, path[1..], own)
    ensures EntryTree(t2, |path|, t2[f][path[0]])
    ensures EntryFoot(t2, |path|, t2[f][path[0]]) <= EntryFoot(t, |path|, t[f][path[0]]) + (free - free2) + own
    ensures free - free2 <= EntryFoot(t2, |path|, t2[f][path[0]])
  {
    hide Tree, Foot, EntryTree, EntryFoot;
    TableEntry(t2, |path|, t2[f][path[0]]);
    assert |path[1..]| == |path| - 1;
  }

  lemma AscendTree(t: Tables, free: set<nat>, t1: Tables, free1: set<nat>, t2: Tables, free2: set<nat>,
                   f: nat, n: nat, path: seq<nat>, table: nat, frame: nat, fl: Flags, r: MapStatus, own: set<nat>)
    requires MapReady(t, free, f, n, path) && |path| > 1 && NewFrame(t, free, f, n, path, own)
    requires Descended(t, free, t1, free1, f, path, table) && path[1] < ENTRIES
    requires MapDone(t1, free1, t2, free2, table, ENTRIES, path[1..], frame, fl, r)
    requires StillTree(t1, free1, t2, free2, table, ENTRIES, path[1..], own)
    ensures StillTree(t, free, t2, free2, f, n, path, own)
  {
    hide Tree, Foot, EntryTree, EntryFoot, NoHuge, OthersKept, SameReads, OldLeaf, StaleBig, StillTree, NewFrame;
    DescendedKept(t, free, t1, free1, t2, free2, f, n, path, table, frame, fl, r);
    AscendEntry(t, free, t1, free1, t2, free2, f, path, table, own);
    SlotReplaced(t, free, t2, free2, f, n, path, own);
  }

  lemma NewFrameBelow(t: Tables, free: set<nat>, t1: Tables, free1: set<nat>, f: nat, n: nat, path: seq<nat>, table: nat, own: set<nat>)
    requires MapReady(t, free, f, n, path) && |path| > 1 && NewFrame(t, free, f, n, path, own)
    requires Descended(t, free, t1, free1, f, path, table)
    ensures NewFrame(t1, free1, table, ENTRIES, path[1..], own)
  {
    EntryInFoot(t, |path|, t[f], n, path[0]);
  }

  lemma LeafStillTree(t: Tables, free: set<nat>, f: nat, n: nat, path: seq<nat>, e2: Entry, own: set<nat>)
    requires MapReady(t, free, f, n, path) && NewFrame(t, free, f, n, path, own)
    requires EntryTree(t, |path|, t[f][path[0]])
    requires !IsTable(|path|, e2) && EntryFoot(t, |path|, e2) <= EntryFoot(t, |path|, t[f][path[0]]) + own
    ensures StillTree(t, free, t[f := t[f][path[0] := e2]], free, f, n, path, own)
  {
    SlotReplaced(t, free, t[f := t[f][path[0] := e2]], free, f, n, path, own);
  }

  // ---- no page-size bits ----------------------------------------------------------------

  /** No entry of level 2 or 3 reachable through the first n entries carries the page-size bit, live or stale. */
  ghost predicate HugeFree(t: Tables, L: nat, es: seq<Entry>, n: nat)
    requires n <= |es|
    decreases L, 1
  {
    forall i :: 0 <= i < n ==> EntryHugeFree(t, L, es[i])
  }

  ghost predicate EntryHugeFree(t: Tables, L: nat, e: Entry)
    decreases L, 0
  {
    && (L == 2 || L == 3 ==> !e.big)
    && (L > 2 && IsTable(L, e) && e.frame in t ==> HugeFree(t, L - 1, t[e.frame], |t[e.frame]|))
  }

  lemma {:induction false} EntryHugeFrame(t: Tables, t2: Tables, L: nat, e: Entry)
    requires EntryHugeFree(t, L, e) && EntryTree(t, L, e) && SameOn(t, t2, EntryFoot(t, L, e))
    ensures EntryHugeFree(t2, L, e)
    decreases L
  {
    if L > 2 && IsTable(L, e) {
      var es := t[e.frame];
      forall i | 0 <= i < |es| ensures EntryHugeFree(t2, L - 1, es[i]) {
        EntryInFoot(t, L - 1, es, |es|, i);
        EntryHugeFrame(t, t2, L - 1, es[i]);
      }
    }
  }

  lemma {:induction false} HugeFreePath(t: Tables, es: seq<Entry>, n: nat, path: seq<nat>)
    requires path != [] && path[0] < n <= |es| && HugeFree(t, |path|, es, n)
    ensures NoHuge(ReadPath(t, es, path), |path|) && !StaleBig(ReadPath(t, es, path), |path|)
    ensures Walk(t, es, path).Some? ==> Walk(t, es, path).value.offset == []
    decreases |path|
  {
    var e := es[path[0]];
    assert EntryHugeFree(t, |path|, e);
    if |path| > 2 && IsTable(|path|, e) && e.frame in t && path[1] < |t[e.frame]| {
      HugeFreePath(t, t[e.frame], |t[e.frame]|, path[1..]);
    }
  }

  /** The other entries of a table keep what they had; slot i is given. */
  lemma SlotHugeFree(t: Tables, t2: Tables, L: nat, es: seq<Entry>, n: nat, i: nat, e2: Entry, x: set<nat>)
    requires i < n <= |es| && Tree(t, L, es, n) && HugeFree(t, L, es, n) && EntryHugeFree(t2, L, e2) && TablesKept(t, t2, x)
    requires forall j :: 0 <= j < n && j != i ==> x !! EntryFoot(t, L, es[j])
    ensures HugeFree(t2, L, es[i := e2], n)
  {
    var es2 := es[i := e2];
    forall j | 0 <= j < n ensures EntryHugeFree(t2, L, es2[j]) {
      if j != i {
        EntryInFoot(t, L, es, n, j);
        EntryHugeFrame(t, t2, L, es[j]);
      }
    }
  }

  lemma LowHugeFree(t: Tables, L: nat, es: seq<Entry>, n: nat)
    requires L < 2 && n <= |es|
    ensures HugeFree(t, L, es, n)
  {}

  /** The table below slot path[0], existing or fresh, is free of them too. */
  lemma HugeDescend(t: Tables, free: set<nat>, f: nat, n: nat, path: seq<nat>, e2: Entry, t1: Tables)
    requires MapReady(t, free, f, n, path) && |path| > 1 && HugeFree(t, |path|, t[f], n)
    requires IsTable(|path|, t[f][path[0]]) && t1 == t[f := t[f][path[0] := e2]]
    ensures var g := t[f][path[0]].frame; g in t1 && HugeFree(t1, |path| - 1, t1[g], |t1[g]|)
  {
    var e := t[f][path[0]];
    EntryInFoot(t, |path|, t[f], n, path[0]);
    assert EntryHugeFree(t, |path|, e);
    if |path| > 2 { EntryHugeFrame(t, t1, |path|, e); } else { LowHugeFree(t1, |path| - 1, t1[e.frame], |t1[e.frame]|); }
  }

  lemma HugeFresh(t: Tables, L: nat, es: seq<Entry>)
    requires forall k :: 0 <= k < |es| ==> es[k] == ZERO
    ensures HugeFree(t, L, es, |es|)
  {}

  lemma HugeAscend(t: Tables, free: set<nat>, t1: Tables, free1: set<nat>, t2: Tables, free2: set<nat>,
                   f: nat, n: nat, path: seq<nat>, table: nat, frame: nat, fl: Flags, r: MapStatus)
    requires MapReady(t, free, f, n, path) && |path| > 1 && HugeFree(t, |path|, t[f], n)
    requires Descended(t, free, t1, free1, f, path, table) && path[1] < ENTRIES && t1[f][path[0]].big == t[f][path[0]].big
    requires MapDone(t1, free1, t2, free2, table, ENTRIES, path[1..], frame, fl, r)
    requires HugeFree(t2, |path| - 1, t2[table], ENTRIES)
    ensures f in t2 && |t2[f]| == |t[f]| && HugeFree(t2, |path|, t2[f], n)
  {
    DescendedKept(t, free, t1, free1, t2, free2, f, n, path, table, frame, fl, r);
    assert EntryHugeFree(t, |path|, t[f][path[0]]);
    assert EntryHugeFree(t2, |path|, t2[f][path[0]]);
    assert t2[f] == t[f][path[0] := t2[f][path[0]]];
    hide Tree, Foot, EntryTree, EntryFoot, NoHuge, OthersKept, SameReads, OldLeaf, StaleBig, EntryHugeFree, HugeFree;
    SlotHugeFree(t, t2, |path|, t[f], n, path[0], t2[f][path[0]], EntryFoot(t, |path|, t[f][path[0]]) + {f} + (free - free2));
  }

  // ---- rights ------------------------------------------------------------------------------

  /** What an access through some entries may do: each right needs all of them (section 4.6 of the Intel SDM, Vol. 3A). */
  datatype Rights = Rights(user: bool, writable: bool, execute: bool)

  function RightsOf(rs: seq<Entry>): Rights {
    if rs == [] then Rights(true, true, true)
    else
      var below := RightsOf(rs[1..]);
      Rights(rs[0].user && below.user, rs[0].writable && below.writable, !rs[0].nx && below.execute)
  }

  /** The entries above the last level take no right away but the user's. */
  ghost predicate Open(rs: seq<Entry>, L: nat)
    decreases L
  {
    rs != [] && L > 1 ==> !rs[0].nx && (rs[0].present ==> rs[0].writable) && Open(rs[1..], L - 1)
  }

  /** How mapping a page changes the entries rs read on the way to some page, which is mapped or not, into rs2. */
  ghost predicate RightsAt(rs: seq<Entry>, rs2: seq<Entry>, L: nat, mapped: bool, mine: bool, fl: Flags) {
    && (Open(rs, L) ==> Open(rs2, L))
    && (mine ==> RightsOf(rs2).user == fl.user && (Open(rs, L) ==> RightsOf(rs2) == Rights(fl.user, fl.writable, !fl.nx)))
    && (!mine && mapped ==> RightsOf(rs2).(user := RightsOf(rs).user) == RightsOf(rs) && (RightsOf(rs).user ==> RightsOf(rs2).user))
    && (!mine && mapped && !fl.user ==> RightsOf(rs2) == RightsOf(rs))
  }

  ghost predicate RightsDone(t: Tables, t2: Tables, f: nat, n: nat, path: seq<nat>, fl: Flags, r: MapStatus)
    requires f in t && f in t2
  {
    forall q: seq<nat> :: |q| == |path| && q != [] && IsPath(q) && q[0] < n ==>
      RightsAt(ReadPath(t, t[f], q), ReadPath(t2, t2[f], q), |q|, Walk(t, t[f], q).Some?, q == path && r.Mapped?, fl)
  }

  lemma RightsCons(e: Entry, rs: seq<Entry>, L: nat)
    ensures RightsOf([e] + rs) == Rights(e.user && RightsOf(rs).user, e.writable && RightsOf(rs).writable, !e.nx && RightsOf(rs).execute)
    ensures L > 1 ==> (Open([e] + rs, L) <==> !e.nx && (e.present ==> e.writable) && Open(rs, L - 1))
  {
    assert ([e] + rs)[1..] == rs;
  }

  /** e2 is what the walk made of e. */
  ghost predicate LinkedFrom(e: Entry, e2: Entry, fl: Flags) {
    && e2.present && e2.nx == e.nx && (if fl.user then e2.user else e2.user == e.user)
    && (e.present ==> e2.writable == e.writable && (e.user ==> e2.user))
    && (!e.present ==> e2.writable)
  }

  /** One level up, through a slot that was present. */
  lemma RightsUp(e: Entry, e2: Entry, rs: seq<Entry>, rs2: seq<Entry>, L: nat, mapped: bool, mine: bool, fl: Flags)
    requires L > 1 && e.present && LinkedFrom(e, e2, fl) && RightsAt(rs, rs2, L - 1, mapped, mine, fl)
    ensures RightsAt([e] + rs, [e2] + rs2, L, mapped, mine, fl)
  {
    RightsCons(e, rs, L);
    RightsCons(e2, rs2, L);
  }

  /** One level up, through a slot that was not. */
  lemma RightsNew(e: Entry, e2: Entry, rs2: seq<Entry>, L: nat, mine: bool, fl: Flags)
    requires L > 1 && !e.present && LinkedFrom(e, e2, fl) && RightsAt([ZERO], rs2, L - 1, false, mine, fl)
    ensures RightsAt([e], [e2] + rs2, L, false, mine, fl)
  {
    RightsCons(e, [], L);
    assert [e] + [] == [e];
    RightsCons(ZERO, [], L - 1);
    assert [ZERO] + [] == [ZERO];
    RightsCons(e2, rs2, L);
  }

  /** What a walk reads through slot path[0], before and after the slot leads to `table`. */
  ghost predicate ReadsThrough(t: Tables, t1: Tables, f: nat, path: seq<nat>, table: nat)
    requires f in t && |path| > 1 && path[0] < |t[f]| && table in t1
  {
    forall q: seq<nat> :: |q| == |path| && IsPath(q) && q[0] == path[0] ==>
      var e := t[f][path[0]]; var below := ReadPath(t1, t1[table], q[1..]);
      ReadPath(t, t[f], q) == (if e.present then [e] + below else [e]) && (!e.present ==> below == [ZERO])
  }

  lemma ReadsExisting(t: Tables, t1: Tables, free: set<nat>, f: nat, n: nat, path: seq<nat>)
    requires MapReady(t, free, f, n, path) && |path| > 1 && IsTable(|path|, t[f][path[0]]) && TablesKept(t, t1, {f})
    ensures t[f][path[0]].frame in t1 && ReadsThrough(t, t1, f, path, t[f][path[0]].frame)
  {
    hide Tree, Foot, EntryTree, EntryFoot, NoHuge;
    var e := t[f][path[0]];
    BelowSlot(t, t1, free, f, n, path);
    forall q: seq<nat> | |q| == |path| && IsPath(q) && q[0] == path[0]
      ensures ReadPath(t, t[f], q) == [e] + ReadPath(t1, t1[e.frame], q[1..])
    {
      ReadPathFrame(t, t1, t[e.frame], ENTRIES, q[1..]);
    }
  }

  lemma ReadsFresh(t: Tables, t1: Tables, f: nat, path: seq<nat>, table: nat, zeros: seq<Entry>)
    requires |path| > 1 && f in t && path[0] < |t[f]| && !t[f][path[0]].present
    requires |zeros| == ENTRIES && (forall k :: 0 <= k < ENTRIES ==> zeros[k] == ZERO) && table in t1 && t1[table] == zeros
    ensures ReadsThrough(t, t1, f, path, table)
  {}

  /** Walks through a sibling slot read what they did. */
  lemma SiblingReads(t: Tables, t2: Tables, es: seq<Entry>, n: nat, i: nat, e2: Entry, x: set<nat>, q: seq<nat>)
    requires q != [] && q[0] < n <= |es| && i < n && q[0] != i && Tree(t, |q|, es, n)
    requires TablesKept(t, t2, x) && x !! EntryFoot(t, |q|, es[q[0]])
    ensures ReadPath(t2, es[i := e2], q) == ReadPath(t, es, q)
  {
    var e := es[q[0]];
    EntryInFoot(t, |q|, es, n, q[0]);
    if IsTable(|q|, e) && |q| > 1 && q[1] < |t[e.frame]| {
      ReadPathFrame(t, t2, t[e.frame], |t[e.frame]|, q[1..]);
    }
  }

  lemma SameRights(rs: seq<Entry>, L: nat, mapped: bool, fl: Flags)
    ensures RightsAt(rs, rs, L, mapped, false, fl)
  {}

  lemma RightsLifted(t: Tables, t1: Tables, t2: Tables, f: nat, n: nat, path: seq<nat>, table: nat, x: set<nat>, fl: Flags, r: MapStatus)
    requires |path| > 1 && IsPath(path) && f in t && f in t2 && table in t1 && table in t2 && path[0] < n <= |t[f]| == |t2[f]|
    requires Tree(t, |path|, t[f], n) && TablesKept(t, t2, x) && t2[f] == t[f][path[0] := t2[f][path[0]]]
    requires IsTable(|path|, t2[f][path[0]]) && t2[f][path[0]].frame == table && LinkedFrom(t[f][path[0]], t2[f][path[0]], fl)
    requires forall j :: 0 <= j < n && j != path[0] ==> x !! EntryFoot(t, |path|, t[f][j])
    requires forall q: seq<nat> :: |q| == |path| && q[0] == path[0] ==> Walk(t, t[f], q) == Walk(t1, t1[table], q[1..])
    requires ReadsThrough(t, t1, f, path, table) && RightsDone(t1, t2, table, ENTRIES, path[1..], fl, r)
    ensures RightsDone(t, t2, f, n, path, fl, r)
  {
    hide Tree, Foot, EntryFoot, RightsAt, LinkedFrom;
    forall q: seq<nat> | |q| == |path| && q != [] && IsPath(q) && q[0] < n
      ensures RightsAt(ReadPath(t, t[f], q), ReadPath(t2, t2[f], q), |q|, Walk(t, t[f], q).Some?, q == path && r.Mapped?, fl)
    {
      if q[0] != path[0] {
        SiblingReads(t, t2, t[f], n, path[0], t2[f][path[0]], x, q);
        SameRights(ReadPath(t, t[f], q), |q|, Walk(t, t[f], q).Some?, fl);
      } else {
        RightsSlot(t, t1, t2, f, path, table, fl, r, q);
      }
    }
  }

  lemma ReadStep(t: Tables, es: seq<Entry>, q: seq<nat>)
    requires |q| > 1 && q[0] < |es| && IsTable(|q|, es[q[0]]) && es[q[0]].frame in t
    ensures ReadPath(t, es, q) == [es[q[0]]] + ReadPath(t, t[es[q[0]].frame], q[1..])
  {}

  lemma AbsentSlot(t: Tables, es: seq<Entry>, q: seq<nat>)
    requires q != [] && q[0] < |es| && !es[q[0]].present
    ensures Walk(t, es, q) == None
  {}

  lemma RightsBelow(t1: Tables, t2: Tables, table: nat, path: seq<nat>, fl: Flags, r: MapStatus, q: seq<nat>)
    requires |path| > 1 && table in t1 && table in t2 && |q| == |path| && IsPath(q) && q[0] == path[0]
    requires RightsDone(t1, t2, table, ENTRIES, path[1..], fl, r)
    ensures RightsAt(ReadPath(t1, t1[table], q[1..]), ReadPath(t2, t2[table], q[1..]), |q| - 1,
                     Walk(t1, t1[table], q[1..]).Some?, q == path && r.Mapped?, fl)
  {
    hide RightsAt, ReadPath, Walk;
    assert q == [q[0]] + q[1..] && path == [path[0]] + path[1..];
  }

  lemma RightsSlot(t: Tables, t1: Tables, t2: Tables, f: nat, path: seq<nat>, table: nat, fl: Flags, r: MapStatus, q: seq<nat>)
    requires |path| > 1 && f in t && f in t2 && table in t1 && table in t2 && path[0] < |t[f]| == |t2[f]|
    requires |q| == |path| && IsPath(q) && q[0] == path[0]
    requires IsTable(|path|, t2[f][path[0]]) && t2[f][path[0]].frame == table && LinkedFrom(t[f][path[0]], t2[f][path[0]], fl)
    requires Walk(t, t[f], q) == Walk(t1, t1[table], q[1..])
    requires ReadsThrough(t, t1, f, path, table) && RightsDone(t1, t2, table, ENTRIES, path[1..], fl, r)
    ensures RightsAt(ReadPath(t, t[f], q), ReadPath(t2, t2[f], q), |q|, Walk(t, t[f], q).Some?, q == path && r.Mapped?, fl)
  {
    hide RightsAt, LinkedFrom, ReadPath, Walk, RightsDone;
    var e, e2 := t[f][path[0]], t2[f][path[0]];
    ReadStep(t2, t2[f], q);
    var rs, rs2 := ReadPath(t1, t1[table], q[1..]), ReadPath(t2, t2[table], q[1..]);
    var mine, mapped := q == path && r.Mapped?, Walk(t, t[f], q).Some?;
    RightsBelow(t1, t2, table, path, fl, r, q);
    if e.present { RightsUp(e, e2, rs, rs2, |q|, mapped, mine, fl); } else {
      AbsentSlot(t, t[f], q);
      RightsNew(e, e2, rs2, |q|, mine, fl);
    }
  }

  lemma LeafRights(t: Tables, f: nat, n: nat, path: seq<nat>, frame: nat, fl: Flags)
    requires |path| == 1 && f in t && path[0] < n <= |t[f]|
    ensures RightsDone(t, t[f := t[f][path[0] := NewLeaf(t[f][path[0]], frame, fl)]], f, n, path, fl, Mapped)
  {
    var t2 := t[f := t[f][path[0] := NewLeaf(t[f][path[0]], frame, fl)]];
    forall q: seq<nat> | |q| == |path| && q != [] && IsPath(q) && q[0] < n
      ensures RightsAt(ReadPath(t, t[f], q), ReadPath(t2, t2[f], q), |q|, Walk(t, t[f], q).Some?, q == path, fl)
    {
      assert q == [q[0]] && path == [path[0]];
      assert ReadPath(t, t[f], q) == [t[f][q[0]]] && ReadPath(t2, t2[f], q) == [t2[f][q[0]]];
      RightsCons(t2[f][q[0]], [], 1);
      assert [t2[f][q[0]]] + [] == [t2[f][q[0]]];
    }
  }

  lemma NoRightsChanged(t: Tables, f: nat, n: nat, path: seq<nat>, fl: Flags)
    requires f in t
    ensures RightsDone(t, t, f, n, path, fl, NoMem)
  {}

  /** Everything mapping a page promises. */
  ghost predicate MapEffect(t: Tables, free: set<nat>, t2: Tables, free2: set<nat>, f: nat, n: nat, path: seq<nat>,
                            frame: nat, fl: Flags, r: MapStatus)
    requires f in t && path != [] && path[0] < n <= |t[f]|
  {
    && MapDone(t, free, t2, free2, f, n, path, frame, fl, r)
    && (NewFrame(t, free, f, n, path, Gained(frame, fl, r)) ==> StillTree(t, free, t2, free2, f, n, path, Gained(frame, fl, r)))
    && (HugeFree(t, |path|, t[f], n) ==> HugeFree(t2, |path|, t2[f], n))
    && (!r.Exists? ==> RightsDone(t, t2, f, n, path, fl, r))
  }

  /** The slot leads to a table that can be mapped in. */
  ghost predicate Passable(t: Tables, free: set<nat>, t1: Tables, free1: set<nat>, f: nat, n: nat, path: seq<nat>, table: nat, fl: Flags)
    requires f in t && |path| > 1 && path[0] < n <= |t[f]|
  {
    && Descended(t, free, t1, free1, f, path, table) && MapReady(t1, free1, table, ENTRIES, path[1..])
    && t1[f][path[0]].big == t[f][path[0]].big
    && LinkedFrom(t[f][path[0]], t1[f][path[0]], fl) && ReadsThrough(t, t1, f, path, table)
    && (HugeFree(t, |path|, t[f], n) ==> HugeFree(t1, |path| - 1, t1[table], ENTRIES))
  }

  lemma PassExisting(t: Tables, free: set<nat>, f: nat, n: nat, path: seq<nat>, fl: Flags)
    requires MapReady(t, free, f, n, path) && |path| > 1 && IsTable(|path|, t[f][path[0]])
    ensures var e := t[f][path[0]];
            Passable(t, free, t[f := t[f][path[0] := Linked(e, e.frame, fl)]], free, f, n, path, e.frame, fl)
  {
    DescendExisting(t, free, f, n, path, fl);
    ReadyBelowExisting(t, free, f, n, path, fl);
    hide Tree, Foot, EntryTree, EntryFoot, NoHuge, Descended, MapReady, HugeFree, ReadsThrough;
    var e := t[f][path[0]];
    ReadsExisting(t, t[f := t[f][path[0] := Linked(e, e.frame, fl)]], free, f, n, path);
    if HugeFree(t, |path|, t[f], n) { HugeDescend(t, free, f, n, path, Linked(e, e.frame, fl), t[f := t[f][path[0] := Linked(e, e.frame, fl)]]); }
  }

  lemma PassFresh(t: Tables, free: set<nat>, f: nat, n: nat, path: seq<nat>, fl: Flags, table: nat, zeros: seq<Entry>)
    requires MapReady(t, free, f, n, path) && |path| > 1 && !t[f][path[0]].present && !(|path| == 2 && t[f][path[0]].big)
    requires table in free && |zeros| == ENTRIES && forall k :: 0 <= k < ENTRIES ==> zeros[k] == ZERO
    ensures var e := t[f][path[0]];
            Passable(t, free, t[table := zeros][f := t[f][path[0] := Linked(e, table, fl)]], free - {table}, f, n, path, table, fl)
  {
    var e := t[f][path[0]];
    var t1 := t[table := zeros][f := t[f][path[0] := Linked(e, table, fl)]];
    DescendFresh(t, free, f, n, path, fl, table, zeros);
    ReadsFresh(t, t1, f, path, table, zeros);
    hide Tree, Foot, EntryTree, EntryFoot, NoHuge, Descended, HugeFree, ReadsThrough;
    HugeFresh(t1, |path| - 1, zeros);
  }

  lemma PassBack(t: Tables, free: set<nat>, t1: Tables, free1: set<nat>, t2: Tables, free2: set<nat>,
                 f: nat, n: nat, path: seq<nat>, table: nat, frame: nat, fl: Flags, r: MapStatus)
    requires MapReady(t, free, f, n, path) && |path| > 1 && Passable(t, free, t1, free1, f, n, path, table, fl)
    requires MapEffect(t1, free1, t2, free2, table, ENTRIES, path[1..], frame, fl, r)
    ensures MapEffect(t, free, t2, free2, f, n, path, frame, fl, r)
  {
    assert path[1] < ENTRIES;
    hide Tree, Foot, EntryTree, EntryFoot, NoHuge, Descended, HugeFree, MapReady, MapDone, NewFrame, StillTree, Gained, RightsDone, ReadsThrough;
    Ascend(t, free, t1, free1, t2, free2, f, n, path, table, frame, fl, r);
    var own := Gained(frame, fl, r);
    if NewFrame(t, free, f, n, path, own) {
      NewFrameBelow(t, free, t1, free1, f, n, path, table, own);
      AscendTree(t, free, t1, free1, t2, free2, f, n, path, table, frame, fl, r, own);
    }
    if HugeFree(t, |path|, t[f], n) { HugeAscend(t, free, t1, free1, t2, free2, f, n, path, table, frame, fl, r); }
    if !r.Exists? { RightsAscend(t, free, t1, free1, t2, free2, f, n, path, table, frame, fl, r); }
  }

  lemma RightsAscend(t: Tables, free: set<nat>, t1: Tables, free1: set<nat>, t2: Tables, free2: set<nat>,
                     f: nat, n: nat, path: seq<nat>, table: nat, frame: nat, fl: Flags, r: MapStatus)
    requires MapReady(t, free, f, n, path) && |path| > 1 && Passable(t, free, t1, free1, f, n, path, table, fl) && path[1] < ENTRIES
    requires MapDone(t1, free1, t2, free2, table, ENTRIES, path[1..], frame, fl, r) && RightsDone(t1, t2, table, ENTRIES, path[1..], fl, r)
    ensures f in t2 && RightsDone(t, t2, f, n, path, fl, r)
  {
    hide Tree, Foot, EntryTree, EntryFoot, NoHuge, OthersKept, HugeFree, RightsDone, ReadsThrough, OldLeaf, StaleBig, Spoiled, LinkedFrom;
    DescendedKept(t, free, t1, free1, t2, free2, f, n, path, table, frame, fl, r);
    RightsLifted(t, t1, t2, f, n, path, table, EntryFoot(t, |path|, t[f][path[0]]) + {f} + (free - free2), fl, r);
  }

  lemma LeafMapped(t: Tables, free: set<nat>, f: nat, n: nat, path: seq<nat>, frame: nat, fl: Flags)
    requires MapReady(t, free, f, n, path) && |path| == 1
    ensures MapEffect(t, free, t[f := t[f][path[0] := NewLeaf(t[f][path[0]], frame, fl)]], free, f, n, path, frame, fl, Mapped)
  {
    var t2 := t[f := t[f][path[0] := NewLeaf(t[f][path[0]], frame, fl)]];
    EntryInFoot(t, |path|, t[f], n, path[0]);
    if NewFrame(t, free, f, n, path, Gained(frame, fl, Mapped)) {
      LeafStillTree(t, free, f, n, path, NewLeaf(t[f][path[0]], frame, fl), Gained(frame, fl, Mapped));
    }
    LeafWritten(t, free, f, n, path, frame, fl);
    LowHugeFree(t2, |path|, t2[f], n);
    LeafRights(t, f, n, path, frame, fl);
  }

  /** A directory slot that holds a big page, or still carries the bit of one. */
  lemma BigMapped(t: Tables, free: set<nat>, t2: Tables, free2: set<nat>, f: nat, n: nat, path: seq<nat>, frame: nat, fl: Flags)
    requires MapReady(t, free, f, n, path) && |path| == 2 && MapDone(t, free, t2, free2, f, n, path, frame, fl, Exists)
    requires !IsTable(|path|, t2[f][path[0]]) && t[f][path[0]].big
    requires EntryFoot(t2, |path|, t2[f][path[0]]) <= EntryFoot(t, |path|, t[f][path[0]]) + (free - free2)
    requires free - free2 <= EntryFoot(t2, |path|, t2[f][path[0]])
    ensures MapEffect(t, free, t2, free2, f, n, path, frame, fl, Exists)
  {
    assert EntryTree(t2, |path|, t2[f][path[0]]);
    hide Tree, Foot, EntryTree, EntryFoot, NoHuge;
    SlotReplaced(t, free, t2, free2, f, n, path, {});
    assert !HugeFree(t, |path|, t[f], n) by { assert !EntryHugeFree(t, |path|, t[f][path[0]]); }
  }

  /** Map one page below table f; path has one index per remaining level. */
  method MapIn(m: Memory, f: nat, n: nat, path: seq<nat>, frame: nat, fl: Flags) returns (r: MapStatus)
    requires m.Valid() && MapReady(m.tables, m.free, f, n, path)
    modifies m`tables, m`free
    ensures m.Valid() && MapEffect(old(m.tables), old(m.free), m.tables, m.free, f, n, path, frame, fl, r)
    decreases |path|, 1
  {
    hide MapEffect, Passable;
    ghost var t0, free0 := m.tables, m.free;
    var i := path[0];
    var e := m.tables[f][i];
    if |path| == 1 {
      LeafMapped(t0, free0, f, n, path, frame, fl);
      m.tables := m.tables[f := m.tables[f][i := NewLeaf(e, frame, fl)]];
      return Mapped;
    }
    var table := e.frame;
    if !e.present {
      table := m.RequestPage();
      if table == 0 {
        NothingMapped(t0, f, n, path, frame, fl);
        return NoMem;
      }
      m.tables := m.tables[table := seq(ENTRIES, _ => ZERO)];
    }
    m.tables := m.tables[f := m.tables[f][i := Linked(e, table, fl)]];
    if |path| == 2 && e.big {
      if e.present { HitsBigPage(t0, free0, f, n, path, frame, fl); }
      else { RevivesBigPage(t0, free0, f, n, path, frame, fl, table, seq(ENTRIES, _ => ZERO)); }
      BigMapped(t0, free0, m.tables, m.free, f, n, path, frame, fl);
      return Exists;
    }
    if e.present { PassExisting(t0, free0, f, n, path, fl); }
    else { PassFresh(t0, free0, f, n, path, fl, table, seq(ENTRIES, _ => ZERO)); }
    r := MapBelow(m, f, n, path, table, frame, fl, t0, free0);
  }

  lemma NothingMapped(t: Tables, f: nat, n: nat, path: seq<nat>, frame: nat, fl: Flags)
    requires MapReady(t, {}, f, n, path)
    ensures MapEffect(t, {}, t, {}, f, n, path, frame, fl, NoMem)
  {
    OutOfMemory(t, f, n, path, frame, fl);
    NoRightsChanged(t, f, n, path, fl);
  }

  method MapBelow(m: Memory, f: nat, n: nat, path: seq<nat>, table: nat, frame: nat, fl: Flags, ghost t0: Tables, ghost free0: set<nat>)
    returns (r: MapStatus)
    requires m.Valid() && MapReady(t0, free0, f, n, path) && |path| > 1 && Passable(t0, free0, m.tables, m.free, f, n, path, table, fl)
    modifies m`tables, m`free
    ensures m.Valid() && MapEffect(t0, free0, m.tables, m.free, f, n, path, frame, fl, r)
    decreases |path|, 0
  {
    ghost var t1, free1 := m.tables, m.free;
    assert MapReady(t1, free1, table, ENTRIES, path[1..]);
    hide MapEffect, Passable, MapReady;
    r := MapIn(m, table, ENTRIES, path[1..], frame, fl);
    PassBack(t0, free0, t1, free1, m.tables, m.free, f, n, path, table, frame, fl, r);
  }
}
