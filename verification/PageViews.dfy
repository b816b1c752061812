/**
 Page tables as programs see them: virtual addresses instead of index paths, the
 walk of lookup_user_in_pml4, removal of one page, and the isolation of two address
 spaces from each other's changes.
 */
module PageViews {
  import opened Options
  import opened PageTables
  import opened AddressSpace
  import opened PageMap

  const USER_LIMIT: nat := 0x8000_0000_0000

  /** PML4_IDX, PDPT_IDX, PD_IDX, PT_IDX. */
  function PathOf(virt: nat): (path: seq<nat>)
    ensures |path| == 4
  {
    [virt / 0x80_0000_0000 % 512, virt / 0x4000_0000 % 512, virt / 0x20_0000 % 512, virt / 0x1000 % 512]
  }

  lemma PathIsPath(virt: nat)
    ensures IsPath(PathOf(virt)) && (virt < USER_LIMIT ==> PathOf(virt)[0] < 256)
  {}

  /** User pages and user paths are in bijection: distinct pages never share all four indices. */
  lemma PathInjective(v: nat, w: nat)
    requires v < USER_LIMIT && w < USER_LIMIT && PathOf(v) == PathOf(w)
    ensures v / 4096 == w / 4096
  {
    PageFromPath(v);
    PageFromPath(w);
    assert forall k :: 0 <= k < 4 ==> PathOf(v)[k] == PathOf(w)[k];
  }

  lemma PageFromPath(v: nat)
    requires v < USER_LIMIT
    ensures var p := PathOf(v); v / 4096 == ((p[0] * 512 + p[1]) * 512 + p[2]) * 512 + p[3]
  {
    var a := v / 0x1000;
    var b := a / 512;
    var c := b / 512;
    var d := c / 512;
    assert v / 0x20_0000 == b && v / 0x4000_0000 == c && v / 0x80_0000_0000 == d;
    assert d < 256 && d % 512 == d;
    assert a == b * 512 + a % 512 && b == c * 512 + b % 512 && c == d * 512 + c % 512;
  }

  // ---- lookup ------------------------------------------------------------------------

  /** lookup_user_in_pml4: follows present entries down without looking at the big-page bit. */
  function Lookup(t: Tables, es: seq<Entry>, path: seq<nat>): Option<nat>
    decreases |path|
  {
    if path == [] || path[0] >= |es| || !es[path[0]].present then None
    else if |path| == 1 then Some(es[path[0]].frame)
    else if es[path[0]].frame in t then Lookup(t, t[es[path[0]].frame], path[1..])
    else None
  }

  /** Unless the walk ends in a big page, the lookup is the flat translation. */
  lemma {:induction false} LookupIsWalk(t: Tables, es: seq<Entry>, path: seq<nat>)
    requires Walk(t, es, path).Some? ==> Walk(t, es, path).value.offset == []
    ensures match Walk(t, es, path)
            case None => Lookup(t, es, path) == None
            case Some(h) => Lookup(t, es, path) == Some(h.leaf.frame)
    decreases |path|
  {
    if path != [] && path[0] < |es| && es[path[0]].present {
      var e := es[path[0]];
      if IsLeaf(|path|, e) {
        assert path[1..] == [];
      } else if e.frame in t {
        LookupIsWalk(t, t[e.frame], path[1..]);
      }
    }
  }

  // ---- unmap ---------------------------------------------------------------------------

  /** A 4 KB page is mapped at path. */
  ghost predicate SmallPage(w: Option<Hit>) {
    w.Some? && w.value.offset == []
  }

  ghost predicate UnmapDone(t: Tables, t2: Tables, f: nat, n: nat, path: seq<nat>, ok: bool)
    requires f in t && path != [] && path[0] < |t[f]|
  {
    && (ok <==> SmallPage(Walk(t, t[f], path)))
    && (!ok ==> t2 == t)
    && f in t2 && |t2[f]| == |t[f]| && t2[f] == t[f][path[0] := t2[f][path[0]]]
    && TablesKept(t, t2, EntryFoot(t, |path|, t[f][path[0]]) + {f})
    && (ok ==> Walk(t2, t2[f], path).None? && OthersKept(t, t[f], t2, t2[f], n, path, true))
  }

  /** The tables stay an unshared tree, without the leaf and without page-size bits. */
  ghost predicate UnmapEffect(t: Tables, free: set<nat>, t2: Tables, f: nat, n: nat, path: seq<nat>, ok: bool)
    requires f in t && path != [] && path[0] < n <= |t[f]|
  {
    && UnmapDone(t, t2, f, n, path, ok) && StillTree(t, free, t2, free, f, n, path, {})
    && (HugeFree(t, |path|, t[f], n) ==> HugeFree(t2, |path|, t2[f], n))
    && RightsDone(t, t2, f, n, path, NO_FLAGS, NoMem)
  }

  const NO_FLAGS: Flags := Flags(false, false, false, false, false, false)

  lemma NothingUnmapped(t: Tables, free: set<nat>, f: nat, n: nat, path: seq<nat>)
    requires MapReady(t, free, f, n, path) && !SmallPage(Walk(t, t[f], path))
    ensures UnmapEffect(t, free, t, f, n, path, false)
  {
    assert t[f] == t[f][path[0] := t[f][path[0]]];
    NoRightsChanged(t, f, n, path, NO_FLAGS);
  }

  lemma LeafUnmapped(t: Tables, free: set<nat>, f: nat, n: nat, path: seq<nat>)
    requires MapReady(t, free, f, n, path) && |path| == 1 && t[f][path[0]].present
    ensures UnmapEffect(t, free, t[f := t[f][path[0] := t[f][path[0]].(present := false)]], f, n, path, true)
  {
    LeafCleared(t, free, f, n, path);
    EntryInFoot(t, |path|, t[f], n, path[0]);
    LeafStillTree(t, free, f, n, path, t[f][path[0]].(present := false), {});
    var t2 := t[f := t[f][path[0] := t[f][path[0]].(present := false)]];
    LowHugeFree(t2, |path|, t2[f], n);
    ClearedRights(t, f, n, path);
  }

  lemma ClearedRights(t: Tables, f: nat, n: nat, path: seq<nat>)
    requires |path| == 1 && f in t && path[0] < n <= |t[f]|
    ensures RightsDone(t, t[f := t[f][path[0] := t[f][path[0]].(present := false)]], f, n, path, NO_FLAGS, NoMem)
  {
    var t2 := t[f := t[f][path[0] := t[f][path[0]].(present := false)]];
    forall q: seq<nat> | |q| == |path| && q != [] && IsPath(q) && q[0] < n
      ensures RightsAt(ReadPath(t, t[f], q), ReadPath(t2, t2[f], q), |q|, Walk(t, t[f], q).Some?, false, NO_FLAGS)
    {
      assert ReadPath(t, t[f], q) == [t[f][q[0]]] && ReadPath(t2, t2[f], q) == [t2[f][q[0]]];
    }
  }

  lemma UnmapBack(t: Tables, free: set<nat>, t2: Tables, f: nat, n: nat, path: seq<nat>, ok: bool)
    requires MapReady(t, free, f, n, path) && |path| > 1 && IsTable(|path|, t[f][path[0]])
    requires t[f][path[0]].frame in t && |t[t[f][path[0]].frame]| == ENTRIES
    requires UnmapEffect(t, free, t2, t[f][path[0]].frame, ENTRIES, path[1..], ok)
    ensures UnmapEffect(t, free, t2, f, n, path, ok)
  {
    var e, L := t[f][path[0]], |path|;
    hide Tree, Foot, EntryTree, EntryFoot, NoHuge, OthersKept, HugeFree, RightsDone;
    UnmapAscend(t, free, t2, f, n, path, ok);
    assert t2[f] == t[f][path[0] := e] by { RootUntouched(t, free, t2, f, n, path, ok); }
    TableEntry(t, L, e);
    TableEntry(t2, L, e);
    assert |path[1..]| == L - 1;
    SlotReplaced(t, free, t2, free, f, n, path, {});
    if HugeFree(t, L, t[f], n) { UnmapHugeFree(t, free, t2, f, n, path); }
    UnmapRights(t, free, t2, f, n, path);
  }

  lemma UnmapRights(t: Tables, free: set<nat>, t2: Tables, f: nat, n: nat, path: seq<nat>)
    requires MapReady(t, free, f, n, path) && |path| > 1 && IsTable(|path|, t[f][path[0]])
    requires f in t2 && t2[f] == t[f] && TablesKept(t, t2, EntryFoot(t, |path|, t[f][path[0]]) + {f})
    requires var g := t[f][path[0]].frame;
             g in t && g in t2 && RightsDone(t, t2, g, ENTRIES, path[1..], NO_FLAGS, NoMem)
    ensures RightsDone(t, t2, f, n, path, NO_FLAGS, NoMem)
  {
    var e, L := t[f][path[0]], |path|;
    hide Tree, Foot, EntryTree, EntryFoot, NoHuge, RightsDone, ReadsThrough;
    EntryInFoot(t, L, t[f], n, path[0]);
    forall j | 0 <= j < n && j != path[0] ensures (EntryFoot(t, L, e) + {f}) !! EntryFoot(t, L, t[f][j]) {
      EntryInFoot(t, L, t[f], n, j);
      EntriesApart(t, L, t[f], n, if path[0] < j then path[0] else j, if path[0] < j then j else path[0]);
    }
    assert t[f] == t[f][path[0] := e];
    ReadsExisting(t, t, free, f, n, path);
    ReadThrough(t, t, free, f, n, path);
    RightsLifted(t, t, t2, f, n, path, e.frame, EntryFoot(t, L, e) + {f}, NO_FLAGS, NoMem);
  }

  lemma RootUntouched(t: Tables, free: set<nat>, t2: Tables, f: nat, n: nat, path: seq<nat>, ok: bool)
    requires MapReady(t, free, f, n, path) && |path| > 1 && IsTable(|path|, t[f][path[0]])
    requires t[f][path[0]].frame in t && |t[t[f][path[0]].frame]| == ENTRIES
    requires UnmapDone(t, t2, t[f][path[0]].frame, ENTRIES, path[1..], ok)
    ensures f in t2 && t2[f] == t[f]
  {
    var g := t[f][path[0]].frame;
    BelowSlot(t, t, free, f, n, path);
    EntryInFoot(t, |path| - 1, t[g], ENTRIES, path[1]);
    EntryInFoot(t, |path|, t[f], n, path[0]);
  }

  lemma UnmapHugeFree(t: Tables, free: set<nat>, t2: Tables, f: nat, n: nat, path: seq<nat>)
    requires MapReady(t, free, f, n, path) && |path| > 1 && HugeFree(t, |path|, t[f], n) && IsTable(|path|, t[f][path[0]])
    requires f in t2 && t2[f] == t[f] && TablesKept(t, t2, EntryFoot(t, |path|, t[f][path[0]]) + {f})
    requires var g := t[f][path[0]].frame;
             g in t && g in t2 && |t2[g]| == |t[g]| == ENTRIES
             && (HugeFree(t, |path| - 1, t[g], ENTRIES) ==> HugeFree(t2, |path| - 1, t2[g], ENTRIES))
    ensures HugeFree(t2, |path|, t2[f], n)
  {
    var e, L := t[f][path[0]], |path|;
    assert EntryHugeFree(t, L, e);
    if L <= 2 { LowHugeFree(t, L - 1, t[e.frame], ENTRIES); }
    assert EntryHugeFree(t2, L, e);
    EntryInFoot(t, L, t[f], n, path[0]);
    hide NoHuge, EntryHugeFree, HugeFree;
    forall j | 0 <= j < n && j != path[0] ensures (EntryFoot(t, L, e) + {f}) !! EntryFoot(t, L, t[f][j]) {
      EntryInFoot(t, L, t[f], n, j);
      EntriesApart(t, L, t[f], n, if path[0] < j then path[0] else j, if path[0] < j then j else path[0]);
    }
    assert t[f] == t[f][path[0] := e];
    hide Tree, Foot, EntryTree, EntryFoot;
    SlotHugeFree(t, t2, L, t[f], n, path[0], e, EntryFoot(t, L, e) + {f});
  }

  lemma LeafCleared(t: Tables, free: set<nat>, f: nat, n: nat, path: seq<nat>)
    requires MapReady(t, free, f, n, path) && |path| == 1 && t[f][path[0]].present
    ensures UnmapDone(t, t[f := t[f][path[0] := t[f][path[0]].(present := false)]], f, n, path, true)
  {
    var t2 := t[f := t[f][path[0] := t[f][path[0]].(present := false)]];
    forall q: seq<nat> | Other(q, path, n) ensures Walk(t2, t2[f], q) == Walk(t, t[f], q) {
      assert q == [q[0]] && path == [path[0]];
    }
    assert path[1..] == [];
  }

  lemma UnmapAscend(t: Tables, free: set<nat>, t2: Tables, f: nat, n: nat, path: seq<nat>, ok: bool)
    requires MapReady(t, free, f, n, path) && |path| > 1 && IsTable(|path|, t[f][path[0]])
    requires t[f][path[0]].frame in t && |t[t[f][path[0]].frame]| == ENTRIES
    requires UnmapDone(t, t2, t[f][path[0]].frame, ENTRIES, path[1..], ok)
    ensures UnmapDone(t, t2, f, n, path, ok)
  {
    var e := t[f][path[0]];
    var g := e.frame;
    BelowSlot(t, t, free, f, n, path);
    EntryInFoot(t, |path| - 1, t[g], ENTRIES, path[1]);
    assert TablesKept(t, t2, EntryFoot(t, |path|, e) + {f});
    EntryInFoot(t, |path|, t[f], n, path[0]);
    assert t2[f] == t[f];
    assert t[f] == t[f][path[0] := t[f][path[0]]];
    hide Tree, Foot, NoHuge;
    if ok {
      forall j | 0 <= j < n && j != path[0] ensures (EntryFoot(t, |path|, e) + {f}) !! EntryFoot(t, |path|, t[f][j]) {
        EntryInFoot(t, |path|, t[f], n, j);
        EntriesApart(t, |path|, t[f], n, if path[0] < j then path[0] else j, if path[0] < j then j else path[0]);
      }
      hide EntryFoot;
      OthersLifted(t, t, t2, f, n, path, g, EntryFoot(t, |path|, e) + {f}, true);
    }
  }

  /** unmap_page_in: clears the present bit of one 4 KB leaf, or reports that there is none. */
  method UnmapIn(m: Memory, f: nat, n: nat, path: seq<nat>) returns (ok: bool)
    requires m.Valid() && MapReady(m.tables, m.free, f, n, path)
    modifies m`tables
    ensures m.Valid() && UnmapEffect(old(m.tables), m.free, m.tables, f, n, path, ok)
    decreases |path|
  {
    hide UnmapEffect, Tree, Foot;
    ghost var t0 := m.tables;
    var e := m.tables[f][path[0]];
    if !e.present {
      NothingUnmapped(t0, m.free, f, n, path);
      return false;
    }
    if |path| == 1 {
      LeafUnmapped(t0, m.free, f, n, path);
      m.tables := m.tables[f := m.tables[f][path[0] := e.(present := false)]];
      return true;
    }
    if |path| == 2 && e.big {
      NothingUnmapped(t0, m.free, f, n, path);
      return false;
    }
    BelowSlot(t0, t0, m.free, f, n, path);
    ShiftPath(e, ReadPath(t0, t0[e.frame], path[1..]), |path|);
    ok := UnmapIn(m, e.frame, ENTRIES, path[1..]);
    UnmapBack(t0, m.free, m.tables, f, n, path, ok);
  }
}
