/**
 User address spaces by virtual address: mapping, unmapping and looking up one page, and the
 isolation of a parent and its forked child through whatever either of them does afterwards.
 */
module Spaces {
  import opened Options
  import opened PageTables
  import opened AddressSpace
  import opened PageMap
  import opened PageViews

  /** What the hardware translates a user address to. */
  function View(t: Tables, r: nat, virt: nat): Option<Hit>
    requires r in t
  {
    Walk(t, t[r], PathOf(virt))
  }

  /** What an access to a user address may do, if the address is mapped. */
  function Access(t: Tables, r: nat, virt: nat): Option<Rights>
    requires r in t
  {
    if View(t, r, virt).None? then None else Some(RightsOf(ReadPath(t, t[r], PathOf(virt))))
  }

  /** The tables take no right away: a page's own entry decides. */
  ghost predicate Governs(t: Tables, r: nat, virt: nat)
    requires r in t
  {
    && Open(ReadPath(t, t[r], PathOf(virt)), 4)
    && (View(t, r, virt).Some? ==> Access(t, r, virt) == Some(OwnRights(View(t, r, virt).value.leaf)))
  }

  function OwnRights(e: Entry): Rights { Rights(e.user, e.writable, !e.nx) }

  ghost predicate Governed(t: Tables, r: nat)
    requires r in t
  {
    forall w: nat :: w < USER_LIMIT ==> Governs(t, r, w)
  }

  /**
   Root table r holds a user space: four levels, 256 user entries, an unshared tree over allocated
   frames, 4 KB pages only, whose entries alone decide the rights.
   */
  ghost predicate Space(t: Tables, free: set<nat>, L: nat, n: nat, r: nat) {
    && L == 4 && n == 256 && r in t && |t[r]| == ENTRIES && r !in free
    && Tree(t, L, t[r], n) && Foot(t, L, t[r], n) !! free && r !in Foot(t, L, t[r], n)
    && HugeFree(t, L, t[r], n) && Governed(t, r)
  }

  ghost function Frames(t: Tables, L: nat, n: nat, r: nat): set<nat>
    requires r in t && n <= |t[r]|
  {
    {r} + Foot(t, L, t[r], n)
  }

  lemma SpaceReady(t: Tables, free: set<nat>, L: nat, n: nat, r: nat, virt: nat)
    requires Space(t, free, L, n, r) && virt < USER_LIMIT
    ensures |PathOf(virt)| == L && PathOf(virt)[0] < n && MapReady(t, free, r, n, PathOf(virt)) && !Spoiled(t, free, r, PathOf(virt))
    ensures View(t, r, virt).Some? ==> View(t, r, virt).value.offset == []
  {
    hide Tree, Foot, HugeFree, ReadPath;
    PathIsPath(virt);
    HugeFreePath(t, t[r], n, PathOf(virt));
  }

  // ---- rights -----------------------------------------------------------------------------

  /** A page whose entry denies the user is denied to the user. */
  lemma {:induction false} LeafBounds(t: Tables, es: seq<Entry>, path: seq<nat>)
    requires Walk(t, es, path).Some?
    ensures RightsOf(ReadPath(t, es, path)).user ==> Walk(t, es, path).value.leaf.user
    decreases |path|
  {
    var e := es[path[0]];
    if !IsLeaf(|path|, e) {
      LeafBounds(t, t[e.frame], path[1..]);
      if |path| > 1 { RightsCons(e, ReadPath(t, t[e.frame], path[1..]), |path|); }
    }
  }

  /** An address that shows what it did keeps its rights. */
  lemma GovernsOn(t: Tables, t2: Tables, r: nat, w: nat, fl: Flags)
    requires r in t && r in t2 && Governs(t, r, w) && View(t2, r, w) == View(t, r, w)
    requires RightsAt(ReadPath(t, t[r], PathOf(w)), ReadPath(t2, t2[r], PathOf(w)), 4, View(t, r, w).Some?, false, fl)
    ensures Governs(t2, r, w)
  {
    hide Walk, ReadPath, RightsOf, Open, PathOf;
    if View(t2, r, w).Some? { LeafBounds(t2, t2[r], PathOf(w)); }
  }

  lemma MapGoverns(t: Tables, free: set<nat>, t2: Tables, free2: set<nat>, L: nat, n: nat, r: nat, virt: nat,
                   frame: nat, fl: Flags, s: MapStatus, w: nat)
    requires Space(t, free, L, n, r) && virt < USER_LIMIT && w < USER_LIMIT && PathOf(virt)[0] < n
    requires MapDone(t, free, t2, free2, r, n, PathOf(virt), frame, fl, s) && RightsDone(t, t2, r, n, PathOf(virt), fl, s)
    ensures Governs(t2, r, w)
  {
    hide Tree, Foot, HugeFree, ReadPath, PathOf, Walk, Lookup, Spoiled, EntryFoot, OldLeaf, RightsOf, Open, OthersKept;
    MapSeen(t, free, t2, free2, L, n, r, virt, frame, fl, s, w);
    PathIsPath(w);
    assert Governs(t, r, w);
    assert RightsAt(ReadPath(t, t[r], PathOf(w)), ReadPath(t2, t2[r], PathOf(w)), 4, View(t, r, w).Some?, PathOf(w) == PathOf(virt) && s.Mapped?, fl);
    if w / 4096 == virt / 4096 && s.Mapped? {
      SamePath(w, virt);
    } else {
      if w / 4096 != virt / 4096 { OtherPage(virt, w, n); }
      GovernsOn(t, t2, r, w, fl);
    }
  }

  lemma MapGoverned(t: Tables, free: set<nat>, t2: Tables, free2: set<nat>, L: nat, n: nat, r: nat, virt: nat,
                    frame: nat, fl: Flags, s: MapStatus)
    requires Space(t, free, L, n, r) && virt < USER_LIMIT && PathOf(virt)[0] < n
    requires MapEffect(t, free, t2, free2, r, n, PathOf(virt), frame, fl, s)
    ensures r in t2 && Governed(t2, r)
  {
    hide Tree, Foot, HugeFree, PathOf, Walk, ReadPath, Spoiled, EntryFoot, OldLeaf, OthersKept, Governs, StillTree, NewFrame, RightsDone;
    MapSeen(t, free, t2, free2, L, n, r, virt, frame, fl, s, virt);
    forall w: nat | w < USER_LIMIT ensures Governs(t2, r, w) {
      MapGoverns(t, free, t2, free2, L, n, r, virt, frame, fl, s, w);
    }
  }

  // ---- pages ------------------------------------------------------------------------------

  /** Addresses of one page have one path. */
  lemma SamePath(v: nat, w: nat)
    requires v / 4096 == w / 4096
    ensures PathOf(v) == PathOf(w)
  {
    assert forall x: nat :: x / 0x20_0000 == x / 4096 / 512;
    assert forall x: nat :: x / 0x4000_0000 == x / 4096 / 512 / 512;
    assert forall x: nat :: x / 0x80_0000_0000 == x / 4096 / 512 / 512 / 512;
  }

  /** Every other page of the user half is another path. */
  lemma OtherPage(v: nat, w: nat, n: nat)
    requires v < USER_LIMIT && w < USER_LIMIT && v / 4096 != w / 4096 && n == 256
    ensures Other(PathOf(w), PathOf(v), n)
  {
    PathIsPath(w);
    if PathOf(w) == PathOf(v) { PathInjective(w, v); }
  }

  ghost predicate Flagged(e: Entry, frame: nat, fl: Flags) {
    && e.present && e.frame == frame && e.writable == fl.writable && e.user == fl.user
    && e.nx == fl.nx && e.pcd == fl.pcd && e.pwt == fl.pwt && e.global == fl.global
  }

  /** What mapping `frame` at the page of virt does to address w. */
  ghost predicate MapsAt(t: Tables, t2: Tables, r: nat, virt: nat, frame: nat, fl: Flags, s: MapStatus, w: nat)
    requires r in t && r in t2
  {
    if w / 4096 != virt / 4096 || s.NoMem? then View(t2, r, w) == View(t, r, w)
    else
      && View(t2, r, w).Some? && View(t2, r, w).value.offset == [] && Flagged(View(t2, r, w).value.leaf, frame, fl)
      && Lookup(t2, t2[r], PathOf(w)) == Some(frame)
  }

  lemma MapSeen(t: Tables, free: set<nat>, t2: Tables, free2: set<nat>, L: nat, n: nat, r: nat, virt: nat,
                frame: nat, fl: Flags, s: MapStatus, w: nat)
    requires Space(t, free, L, n, r) && virt < USER_LIMIT && w < USER_LIMIT
    requires PathOf(virt)[0] < |t[r]| && MapDone(t, free, t2, free2, r, n, PathOf(virt), frame, fl, s)
    ensures !s.Exists? && MapsAt(t, t2, r, virt, frame, fl, s, w)
  {
    hide Tree, Foot, HugeFree, ReadPath, PathOf, Walk, Lookup, Spoiled, EntryFoot, OldLeaf;
    SpaceReady(t, free, L, n, r, virt);
    if w / 4096 != virt / 4096 {
      OtherPage(virt, w, n);
    } else {
      SamePath(w, virt);
      if s.Mapped? { LookupIsWalk(t2, t2[r], PathOf(w)); }
    }
  }

  /** Root r is again a space, over its old frames, all the tables taken and `own`; other tables are as before. */
  ghost predicate SpaceGrew(t: Tables, free: set<nat>, t2: Tables, free2: set<nat>, L: nat, n: nat, r: nat, own: set<nat>)
    requires r in t && n <= |t[r]|
  {
    && Space(t2, free2, L, n, r) && free2 <= free
    && TablesKept(t, t2, Frames(t, L, n, r) + (free - free2))
    && Frames(t2, L, n, r) <= Frames(t, L, n, r) + (free - free2) + own
    && free - free2 <= Frames(t2, L, n, r)
  }

  ghost predicate FrameNew(t: Tables, free: set<nat>, L: nat, n: nat, r: nat, own: set<nat>)
    requires r in t && n <= |t[r]|
  {
    own !! Frames(t, L, n, r) && own !! free
  }

  lemma MapGrew(t: Tables, free: set<nat>, t2: Tables, free2: set<nat>, L: nat, n: nat, r: nat, path: seq<nat>,
                frame: nat, fl: Flags, s: MapStatus)
    requires Space(t, free, L, n, r) && |path| == L && path[0] < n && FrameNew(t, free, L, n, r, Gained(frame, fl, s))
    requires MapEffect(t, free, t2, free2, r, n, path, frame, fl, s) && r in t2 && Governed(t2, r)
    ensures SpaceGrew(t, free, t2, free2, L, n, r, Gained(frame, fl, s))
  {
    hide Tree, Foot, EntryFoot, HugeFree, Walk, Spoiled, OldLeaf, ReadPath, Gained, EntryTree, Governed, RightsDone;
    MapFacts(t, free, t2, free2, n, r, path, frame, fl, s);
    var own := Gained(frame, fl, s);
    hide MapEffect;
    GrewFrom(t, free, t2, free2, L, n, r, own);
  }

  /** The parts of a mapping that concern frames. */
  lemma MapFacts(t: Tables, free: set<nat>, t2: Tables, free2: set<nat>, n: nat, r: nat, path: seq<nat>,
                 frame: nat, fl: Flags, s: MapStatus)
    requires r in t && path != [] && path[0] < n <= |t[r]| && MapEffect(t, free, t2, free2, r, n, path, frame, fl, s)
    requires NewFrame(t, free, r, n, path, Gained(frame, fl, s)) && HugeFree(t, |path|, t[r], n)
    ensures free2 <= free && StillTree(t, free, t2, free2, r, n, path, Gained(frame, fl, s)) && HugeFree(t2, |path|, t2[r], n)
    ensures TablesKept(t, t2, Frames(t, |path|, n, r) + (free - free2))
  {
    hide Tree, Foot, EntryFoot, HugeFree, OthersKept, Walk, Spoiled, OldLeaf, ReadPath, Gained, EntryTree, RightsDone;
    EntryInFoot(t, |path|, t[r], n, path[0]);
  }

  lemma GrewFrom(t: Tables, free: set<nat>, t2: Tables, free2: set<nat>, L: nat, n: nat, r: nat, own: set<nat>)
    requires Space(t, free, L, n, r) && free2 <= free && FrameNew(t, free, L, n, r, own)
    requires r in t2 && |t2[r]| == |t[r]| && Tree(t2, L, t2[r], n) && r !in Foot(t2, L, t2[r], n) && HugeFree(t2, L, t2[r], n) && Governed(t2, r)
    requires Foot(t2, L, t2[r], n) <= Foot(t, L, t[r], n) + (free - free2) + own && free - free2 <= Foot(t2, L, t2[r], n)
    requires TablesKept(t, t2, Frames(t, L, n, r) + (free - free2))
    ensures SpaceGrew(t, free, t2, free2, L, n, r, own)
  {
    hide Tree, Foot, HugeFree, TablesKept, Governed;
  }

  /** What every user address shows after the mapping, which fails for lack of memory only. */
  ghost predicate MapSeenBy(t: Tables, t2: Tables, r: nat, virt: nat, frame: nat, fl: Flags, s: MapStatus)
    requires r in t && r in t2
  {
    !s.Exists? && forall w: nat :: w < USER_LIMIT ==> MapsAt(t, t2, r, virt, frame, fl, s, w)
  }

  lemma MapSeenAll(t: Tables, free: set<nat>, t2: Tables, free2: set<nat>, L: nat, n: nat, r: nat, virt: nat,
                   frame: nat, fl: Flags, s: MapStatus)
    requires Space(t, free, L, n, r) && virt < USER_LIMIT && PathOf(virt)[0] < n
    requires MapEffect(t, free, t2, free2, r, n, PathOf(virt), frame, fl, s)
    ensures MapSeenBy(t, t2, r, virt, frame, fl, s)
  {
    hide Tree, Foot, HugeFree, ReadPath, PathOf, Walk, Spoiled, EntryFoot, OldLeaf, OthersKept, MapsAt, StillTree, NewFrame, RightsDone, Governed;
    MapSeen(t, free, t2, free2, L, n, r, virt, frame, fl, s, virt);
    forall w: nat | w < USER_LIMIT ensures MapsAt(t, t2, r, virt, frame, fl, s, w) {
      MapSeen(t, free, t2, free2, L, n, r, virt, frame, fl, s, w);
    }
  }

  /** map_page_to_virt_in for one 4 KB page of a user space. */
  method MapPage(m: Memory, root: nat, virt: nat, frame: nat, fl: Flags) returns (s: MapStatus)
    requires m.Valid() && Space(m.tables, m.free, m.levels, m.userEntries, root) && virt < USER_LIMIT
    requires FrameNew(m.tables, m.free, m.levels, m.userEntries, root, Gained(frame, fl, Mapped))
    modifies m`tables, m`free
    ensures m.Valid() && SpaceGrew(old(m.tables), old(m.free), m.tables, m.free, m.levels, m.userEntries, root, Gained(frame, fl, s))
    ensures MapSeenBy(old(m.tables), m.tables, root, virt, frame, fl, s) && (s.NoMem? ==> m.free == {})
    ensures forall w: nat :: w < USER_LIMIT ==>
              Access(m.tables, root, w) == if s.Mapped? && w / 4096 == virt / 4096 then Some(Rights(fl.user, fl.writable, !fl.nx))
                                           else old(Access(m.tables, root, w))
  {
    SpaceReady(m.tables, m.free, m.levels, m.userEntries, root, virt);
    NewOrNot(m.tables, m.free, m.levels, m.userEntries, root, frame, fl);
    ghost var t, free := m.tables, m.free;
    hide Tree, Foot, HugeFree, PathOf, MapReady, MapEffect, MapSeenBy, Frames, SpaceGrew, Governed, Access;
    s := MapIn(m, root, m.userEntries, PathOf(virt), frame, fl);
    MapGoverned(t, free, m.tables, m.free, m.levels, m.userEntries, root, virt, frame, fl, s);
    MapGrew(t, free, m.tables, m.free, m.levels, m.userEntries, root, PathOf(virt), frame, fl, s);
    MapSeenAll(t, free, m.tables, m.free, m.levels, m.userEntries, root, virt, frame, fl, s);
    MapAccess(t, m.tables, root, virt, frame, fl, s);
  }

  /** The page mapped has the rights asked for; every other one has what it had. */
  lemma MapAccess(t: Tables, t2: Tables, r: nat, virt: nat, frame: nat, fl: Flags, s: MapStatus)
    requires r in t && r in t2 && Governed(t, r) && Governed(t2, r) && MapSeenBy(t, t2, r, virt, frame, fl, s)
    ensures forall w: nat :: w < USER_LIMIT ==>
              Access(t2, r, w) == if s.Mapped? && w / 4096 == virt / 4096 then Some(Rights(fl.user, fl.writable, !fl.nx)) else Access(t, r, w)
  {
    hide View, ReadPath, RightsOf, Open, PathOf, Lookup;
    forall w: nat | w < USER_LIMIT
      ensures Access(t2, r, w) == if s.Mapped? && w / 4096 == virt / 4096 then Some(Rights(fl.user, fl.writable, !fl.nx)) else Access(t, r, w)
    {
      assert MapsAt(t, t2, r, virt, frame, fl, s, w) && Governs(t, r, w) && Governs(t2, r, w);
    }
  }

  lemma NewOrNot(t: Tables, free: set<nat>, L: nat, n: nat, r: nat, frame: nat, fl: Flags)
    requires r in t && n <= |t[r]| && FrameNew(t, free, L, n, r, Gained(frame, fl, Mapped))
    ensures forall s: MapStatus :: FrameNew(t, free, L, n, r, Gained(frame, fl, s))
  {}

  // ---- unmapping ----------------------------------------------------------------------------

  /** Exactly one page left, or nothing changed. */
  ghost predicate UnmapSeenBy(t: Tables, t2: Tables, r: nat, virt: nat, ok: bool)
    requires r in t && r in t2
  {
    && (ok <==> SmallPage(View(t, r, virt))) && (!ok ==> t2 == t)
    && (ok ==> forall w: nat :: w < USER_LIMIT ==> UnmapsAt(t, t2, r, virt, w))
  }

  ghost predicate UnmapsAt(t: Tables, t2: Tables, r: nat, virt: nat, w: nat)
    requires r in t && r in t2
  {
    if w / 4096 == virt / 4096 then View(t2, r, w) == None && Lookup(t2, t2[r], PathOf(w)) == None
    else View(t2, r, w) == View(t, r, w)
  }

  lemma UnmapGoverned(t: Tables, free: set<nat>, t2: Tables, L: nat, n: nat, r: nat, virt: nat, ok: bool)
    requires Space(t, free, L, n, r) && virt < USER_LIMIT && PathOf(virt)[0] < n
    requires UnmapEffect(t, free, t2, r, n, PathOf(virt), ok) && r in t2 && UnmapSeenBy(t, t2, r, virt, ok)
    ensures Governed(t2, r)
  {
    hide Tree, Foot, HugeFree, PathOf, Walk, ReadPath, EntryFoot, OthersKept, StillTree, RightsOf, Open, Lookup, UnmapDone;
    if ok {
      forall w: nat | w < USER_LIMIT ensures Governs(t2, r, w) {
        assert Governs(t, r, w) && UnmapsAt(t, t2, r, virt, w);
        PathIsPath(w);
        assert RightsAt(ReadPath(t, t[r], PathOf(w)), ReadPath(t2, t2[r], PathOf(w)), 4, View(t, r, w).Some?, false, NO_FLAGS);
        if w / 4096 != virt / 4096 { GovernsOn(t, t2, r, w, NO_FLAGS); }
      }
    }
  }

  lemma UnmapSeen(t: Tables, free: set<nat>, t2: Tables, L: nat, n: nat, r: nat, virt: nat, ok: bool)
    requires Space(t, free, L, n, r) && virt < USER_LIMIT && PathOf(virt)[0] < n
    requires UnmapEffect(t, free, t2, r, n, PathOf(virt), ok)
    ensures UnmapSeenBy(t, t2, r, virt, ok)
  {
    hide Tree, Foot, HugeFree, PathOf, Walk, EntryFoot, Lookup;
    if ok {
      forall w: nat | w < USER_LIMIT ensures UnmapsAt(t, t2, r, virt, w) {
        if w / 4096 == virt / 4096 {
          SamePath(w, virt);
          LookupIsWalk(t2, t2[r], PathOf(w));
        } else {
          OtherPage(virt, w, n);
        }
      }
    }
  }

  lemma UnmapGrew(t: Tables, free: set<nat>, t2: Tables, L: nat, n: nat, r: nat, path: seq<nat>, ok: bool)
    requires Space(t, free, L, n, r) && |path| == L && path[0] < n && UnmapEffect(t, free, t2, r, n, path, ok)
    requires r in t2 && Governed(t2, r)
    ensures SpaceGrew(t, free, t2, free, L, n, r, {})
  {
    hide Tree, Foot, EntryFoot, HugeFree, OthersKept, Walk, EntryTree, Governed, RightsDone;
    EntryInFoot(t, L, t[r], n, path[0]);
    assert TablesKept(t, t2, Frames(t, L, n, r) + (free - free));
    hide TablesKept, UnmapDone;
    GrewFrom(t, free, t2, free, L, n, r, {});
  }

  /** unmap_page_in for one page of a user space. */
  method UnmapPage(m: Memory, root: nat, virt: nat) returns (ok: bool)
    requires m.Valid() && Space(m.tables, m.free, m.levels, m.userEntries, root) && virt < USER_LIMIT
    modifies m`tables
    ensures m.Valid() && SpaceGrew(old(m.tables), m.free, m.tables, m.free, m.levels, m.userEntries, root, {})
    ensures UnmapSeenBy(old(m.tables), m.tables, root, virt, ok)
    ensures forall w: nat :: w < USER_LIMIT && (w / 4096 != virt / 4096 || !ok) ==> Access(m.tables, root, w) == old(Access(m.tables, root, w))
  {
    SpaceReady(m.tables, m.free, m.levels, m.userEntries, root, virt);
    ghost var t := m.tables;
    hide Tree, Foot, HugeFree, PathOf, MapReady, UnmapEffect, UnmapSeenBy, Frames, SpaceGrew, Governed;
    ok := UnmapIn(m, root, m.userEntries, PathOf(virt));
    UnmapSeen(t, m.free, m.tables, m.levels, m.userEntries, root, virt, ok);
    UnmapGoverned(t, m.free, m.tables, m.levels, m.userEntries, root, virt, ok);
    UnmapGrew(t, m.free, m.tables, m.levels, m.userEntries, root, PathOf(virt), ok);
    UnmapAccess(t, m.tables, root, virt, ok);
  }

  lemma UnmapAccess(t: Tables, t2: Tables, r: nat, virt: nat, ok: bool)
    requires r in t && r in t2 && Governed(t, r) && Governed(t2, r) && UnmapSeenBy(t, t2, r, virt, ok)
    ensures forall w: nat :: w < USER_LIMIT && (w / 4096 != virt / 4096 || !ok) ==> Access(t2, r, w) == Access(t, r, w)
  {
    hide View, ReadPath, RightsOf, Open, PathOf, Lookup;
    forall w: nat | w < USER_LIMIT && (w / 4096 != virt / 4096 || !ok) ensures Access(t2, r, w) == Access(t, r, w) {
      assert Governs(t, r, w) && Governs(t2, r, w) && (ok ==> UnmapsAt(t, t2, r, virt, w));
    }
  }

  // ---- two spaces -----------------------------------------------------------------------------

  /** Spaces a and b share no frame. */
  ghost predicate Pair(t: Tables, free: set<nat>, L: nat, n: nat, a: nat, b: nat) {
    && Space(t, free, L, n, a) && Space(t, free, L, n, b) && Frames(t, L, n, a) !! Frames(t, L, n, b)
  }

  /** Space b shows the same translation, and the same bytes in every page that is not a device's. */
  ghost predicate SeesSame(t: Tables, d: map<nat, Bytes>, t2: Tables, d2: map<nat, Bytes>, b: nat)
    requires b in t && b in t2
  {
    forall w: nat :: w < USER_LIMIT ==> SameAt(d, View(t, b, w), d2, View(t2, b, w))
  }

  ghost predicate SameAt(d: map<nat, Bytes>, h: Option<Hit>, d2: map<nat, Bytes>, h2: Option<Hit>) {
    h2 == h && (h.Some? && !h.value.leaf.pcd ==> DataAt(d2, h.value.leaf.frame) == DataAt(d, h.value.leaf.frame))
  }

  lemma SeesOn(t: Tables, d: map<nat, Bytes>, t1: Tables, d1: map<nat, Bytes>, t2: Tables, d2: map<nat, Bytes>, b: nat)
    requires b in t && b in t1 && b in t2 && SeesSame(t, d, t1, d1, b) && SeesSame(t1, d1, t2, d2, b)
    ensures SeesSame(t, d, t2, d2, b)
  {
    hide View;
    forall w: nat | w < USER_LIMIT ensures SameAt(d, View(t, b, w), d2, View(t2, b, w)) {
      assert SameAt(d, View(t, b, w), d1, View(t1, b, w)) && SameAt(d1, View(t1, b, w), d2, View(t2, b, w));
    }
  }

  lemma {:induction false} HugeFrame(t: Tables, t2: Tables, L: nat, es: seq<Entry>, n: nat)
    requires n <= |es| && Tree(t, L, es, n) && HugeFree(t, L, es, n) && SameOn(t, t2, Foot(t, L, es, n))
    ensures HugeFree(t2, L, es, n)
  {
    forall i | 0 <= i < n ensures EntryHugeFree(t2, L, es[i]) {
      EntryInFoot(t, L, es, n, i);
      EntryHugeFrame(t, t2, L, es[i]);
    }
  }

  /** A space whose frames nobody touched. */
  lemma SpaceFrame(t: Tables, free: set<nat>, t2: Tables, free2: set<nat>, L: nat, n: nat, b: nat, x: set<nat>)
    requires Space(t, free, L, n, b) && TablesKept(t, t2, x) && x !! Frames(t, L, n, b) && free2 !! Frames(t, L, n, b)
    ensures Space(t2, free2, L, n, b) && t2[b] == t[b] && Frames(t2, L, n, b) == Frames(t, L, n, b)
  {
    hide Tree, Foot, HugeFree, Governed;
    assert SameOn(t, t2, Foot(t, L, t[b], n));
    TreeFrame(t, t2, L, t[b], n);
    HugeFrame(t, t2, L, t[b], n);
    GovernFrame(t, free, t2, L, n, b);
  }

  lemma GovernFrame(t: Tables, free: set<nat>, t2: Tables, L: nat, n: nat, b: nat)
    requires Space(t, free, L, n, b) && b in t2 && t2[b] == t[b] && SameOn(t, t2, Foot(t, L, t[b], n))
    ensures Governed(t2, b)
  {
    hide Tree, Foot, HugeFree, PathOf, Walk, ReadPath, RightsOf, Open;
    forall w: nat | w < USER_LIMIT ensures Governs(t2, b, w) {
      assert Governs(t, b, w);
      PathIsPath(w);
      WalkFrame(t, t2, t[b], n, PathOf(w));
      ReadPathFrame(t, t2, t[b], n, PathOf(w));
    }
  }

  /** It shows what it showed, as long as its bytes were not written either. */
  lemma SpaceSees(t: Tables, free: set<nat>, d: map<nat, Bytes>, t2: Tables, d2: map<nat, Bytes>, L: nat, n: nat, b: nat, x: set<nat>)
    requires Space(t, free, L, n, b) && TablesKept(t, t2, x) && x !! Frames(t, L, n, b)
    requires DataKept(d, d2, x)
    ensures b in t2 && SeesSame(t, d, t2, d2, b)
  {
    hide Tree, Foot, HugeFree, PathOf, Walk;
    forall w: nat | w < USER_LIMIT ensures SameAt(d, View(t, b, w), d2, View(t2, b, w)) {
      SpaceReady(t, free, L, n, b, w);
      WalkFrame(t, t2, t[b], n, PathOf(w));
      if View(t, b, w).Some? { WalkInFoot(t, t[b], n, PathOf(w)); }
    }
  }

  /** Space a grew over frames that were free or its own: b is a space apart from it and sees nothing. */
  lemma GrewApart(t: Tables, free: set<nat>, t2: Tables, free2: set<nat>, d: map<nat, Bytes>, L: nat, n: nat, a: nat, b: nat, own: set<nat>)
    requires Pair(t, free, L, n, a, b) && SpaceGrew(t, free, t2, free2, L, n, a, own) && own !! Frames(t, L, n, b)
    ensures Pair(t2, free2, L, n, a, b) && SeesSame(t, d, t2, d, b) && Frames(t2, L, n, b) == Frames(t, L, n, b)
  {
    hide Tree, Foot, HugeFree, SeesSame, View;
    var x := Frames(t, L, n, a) + (free - free2);
    assert free !! Frames(t, L, n, b);
    SpaceFrame(t, free, t2, free2, L, n, b, x);
    SpaceSees(t, free, d, t2, d, L, n, b, x);
  }

  // ---- what one space may do ------------------------------------------------------------------

  datatype Op =
    | MapNew(virt: nat, fl: Flags)                 // a page from the buddy
    | MapDevice(virt: nat, frame: nat, fl: Flags)  // a device page, uncached
    | Unmap(virt: nat)
    | Store(virt: nat, bytes: Bytes)

  /** Tables, bytes and free frames. */
  datatype State = State(t: Tables, d: map<nat, Bytes>, free: set<nat>)

  /** Frame f was mapped at the page of virt, or memory ran out, but for the page itself. */
  ghost predicate DidMap(s: State, s2: State, a: nat, virt: nat, f: nat, fl: Flags) {
    && a in s.t && a in s2.t && s2.d == s.d
    && (MapSeenBy(s.t, s2.t, a, virt, f, fl, Mapped) || (|s2.free| <= 1 && SeesSame(s.t, s.d, s2.t, s2.d, a)))
  }

  /** What an operation does to the space it is done in. */
  ghost predicate Did(op: Op, s: State, s2: State, a: nat) {
    && a in s.t && a in s2.t
    && match op
       case MapNew(virt, fl) => exists f: nat :: (f in s.free || s.free == {}) && DidMap(s, s2, a, virt, f, fl.(pcd := false))
       case MapDevice(virt, frame, fl) => DidMap(s, s2, a, virt, frame, fl.(pcd := true))
       case Unmap(virt) => s2.d == s.d && UnmapSeenBy(s.t, s2.t, a, virt, SmallPage(View(s.t, a, virt)))
       case Store(virt, bytes) =>
         var h := View(s.t, a, virt);
         s2 == s.(d := if h.Some? && !h.value.leaf.pcd then s.d[h.value.leaf.frame := bytes] else s.d)
  }

  method Do(m: Memory, a: nat, op: Op, ghost b: nat)
    requires m.Valid() && Pair(m.tables, m.free, m.levels, m.userEntries, a, b) && op.virt < USER_LIMIT
    modifies m`tables, m`free, m`data, m`released
    ensures m.Valid() && Pair(m.tables, m.free, m.levels, m.userEntries, a, b)
    ensures SeesSame(old(m.tables), old(m.data), m.tables, m.data, b)
    ensures Did(op, old(State(m.tables, m.data, m.free)), State(m.tables, m.data, m.free), a)
  {
    hide Tree, Foot, HugeFree, Governed, SeesSame, SpaceGrew, MapSeenBy, UnmapSeenBy, DidMap, View;
    match op
    case MapNew(virt, fl) => ghost var f := DoMapNew(m, a, virt, fl.(pcd := false), b);
    case MapDevice(virt, frame, fl) => DoMapDevice(m, a, virt, frame, fl.(pcd := true), b);
    case Unmap(virt) => DoUnmap(m, a, virt, b);
    case Store(virt, bytes) => DoStore(m, a, virt, bytes, b);
  }

  /** A page from the buddy; it goes back if the mapping fails. */
  method DoMapNew(m: Memory, a: nat, virt: nat, fl: Flags, ghost b: nat) returns (ghost page: nat)
    requires m.Valid() && Pair(m.tables, m.free, m.levels, m.userEntries, a, b) && virt < USER_LIMIT && !fl.pcd
    modifies m`tables, m`free, m`released
    ensures m.Valid() && Pair(m.tables, m.free, m.levels, m.userEntries, a, b)
    ensures SeesSame(old(m.tables), m.data, m.tables, m.data, b)
    ensures page in old(m.free) || old(m.free) == {}
    ensures DidMap(old(State(m.tables, m.data, m.free)), State(m.tables, m.data, m.free), a, virt, page, fl)
  {
    hide Tree, Foot, HugeFree, SeesSame, SpaceGrew, MapSeenBy, View;
    ghost var t := m.tables;
    var f := m.RequestPage();
    page := f;
    assert Pair(t, m.free, m.levels, m.userEntries, a, b);
    if f == 0 {
      SpaceSees(t, m.free, m.data, t, m.data, m.levels, m.userEntries, a, {});
      SpaceSees(t, m.free, m.data, t, m.data, m.levels, m.userEntries, b, {});
      return;
    }
    ghost var free := m.free;
    var s := MapPage(m, a, virt, f, fl);
    GrewApart(t, free, m.tables, m.free, m.data, m.levels, m.userEntries, a, b, Gained(f, fl, s));
    if !s.Mapped? {
      NothingSeen(t, m.tables, m.data, a, virt, f, fl, s);
      GaveBack(t, free, m.tables, m.free, m.levels, m.userEntries, a, b, f);
      m.FreePage(f);
      SizesOrdered(m.free, {f});
    }
  }

  /** A mapping that failed shows what was shown. */
  lemma NothingSeen(t: Tables, t2: Tables, d: map<nat, Bytes>, a: nat, virt: nat, f: nat, fl: Flags, s: MapStatus)
    requires a in t && a in t2 && MapSeenBy(t, t2, a, virt, f, fl, s) && !s.Mapped?
    ensures s.NoMem? && SeesSame(t, d, t2, d, a)
  {
    hide View, Lookup;
    forall w: nat | w < USER_LIMIT ensures SameAt(d, View(t, a, w), d, View(t2, a, w)) {
      assert MapsAt(t, t2, a, virt, f, fl, s, w);
    }
  }

  lemma GaveBack(t: Tables, free: set<nat>, t2: Tables, free2: set<nat>, L: nat, n: nat, a: nat, b: nat, f: nat)
    requires Pair(t, free, L, n, a, b) && SpaceGrew(t, free, t2, free2, L, n, a, {}) && Pair(t2, free2, L, n, a, b)
    requires f !in Frames(t, L, n, a) + Frames(t, L, n, b) + free && Frames(t2, L, n, b) == Frames(t, L, n, b)
    ensures Pair(t2, free2 + {f}, L, n, a, b) && Pair(t2, free2, L, n, a, b)
  {
    hide Tree, Foot, HugeFree, Governed;
  }

  method DoMapDevice(m: Memory, a: nat, virt: nat, frame: nat, fl: Flags, ghost b: nat)
    requires m.Valid() && Pair(m.tables, m.free, m.levels, m.userEntries, a, b) && virt < USER_LIMIT && fl.pcd
    modifies m`tables, m`free
    ensures m.Valid() && Pair(m.tables, m.free, m.levels, m.userEntries, a, b)
    ensures SeesSame(old(m.tables), m.data, m.tables, m.data, b)
    ensures DidMap(old(State(m.tables, m.data, m.free)), State(m.tables, m.data, m.free), a, virt, frame, fl)
  {
    hide Tree, Foot, HugeFree, SeesSame, SpaceGrew, MapSeenBy, View;
    ghost var t, free := m.tables, m.free;
    var s := MapPage(m, a, virt, frame, fl);
    GrewApart(t, free, m.tables, m.free, m.data, m.levels, m.userEntries, a, b, {});
    if !s.Mapped? { NothingSeen(t, m.tables, m.data, a, virt, frame, fl, s); }
  }

  method DoUnmap(m: Memory, a: nat, virt: nat, ghost b: nat)
    requires m.Valid() && Pair(m.tables, m.free, m.levels, m.userEntries, a, b) && virt < USER_LIMIT
    modifies m`tables
    ensures m.Valid() && Pair(m.tables, m.free, m.levels, m.userEntries, a, b)
    ensures SeesSame(old(m.tables), m.data, m.tables, m.data, b)
    ensures UnmapSeenBy(old(m.tables), m.tables, a, virt, SmallPage(old(View(m.tables, a, virt))))
  {
    hide Tree, Foot, HugeFree, SeesSame, SpaceGrew, UnmapSeenBy, View;
    ghost var t := m.tables;
    var ok := UnmapPage(m, a, virt);
    GrewApart(t, m.free, m.tables, m.free, m.data, m.levels, m.userEntries, a, b, {});
    UnmapOk(t, m.tables, a, virt, ok);
  }

  lemma UnmapOk(t: Tables, t2: Tables, a: nat, virt: nat, ok: bool)
    requires a in t && a in t2 && UnmapSeenBy(t, t2, a, virt, ok)
    ensures ok == SmallPage(View(t, a, virt))
  {
    hide View;
  }

  /** What a space translates to is its own, unless it is a device page. */
  lemma StoreInside(t: Tables, free: set<nat>, L: nat, n: nat, a: nat, virt: nat)
    requires Space(t, free, L, n, a) && virt < USER_LIMIT && View(t, a, virt).Some?
    ensures var e := View(t, a, virt).value.leaf; e.frame in Frames(t, L, n, a) || e.pcd
  {
    SpaceReady(t, free, L, n, a, virt);
    hide Tree, Foot, HugeFree, Walk, PathOf;
    WalkInFoot(t, t[a], n, PathOf(virt));
  }

  /** A store through the translation; stores to device pages do not reach memory. */
  method DoStore(m: Memory, a: nat, virt: nat, bytes: Bytes, ghost b: nat)
    requires m.Valid() && Pair(m.tables, m.free, m.levels, m.userEntries, a, b) && virt < USER_LIMIT
    modifies m`data
    ensures m.Valid() && Pair(m.tables, m.free, m.levels, m.userEntries, a, b)
    ensures SeesSame(m.tables, old(m.data), m.tables, m.data, b)
    ensures var h := View(m.tables, a, virt);
            m.data == if h.Some? && !h.value.leaf.pcd then old(m.data)[h.value.leaf.frame := bytes] else old(m.data)
  {
    hide Tree, Foot, HugeFree, SeesSame, View;
    ghost var d, t := m.data, m.tables;
    var h := View(m.tables, a, virt);
    if h.Some? && !h.value.leaf.pcd {
      StoreInside(t, m.free, m.levels, m.userEntries, a, virt);
      m.data := m.data[h.value.leaf.frame := bytes];
      SpaceSees(t, m.free, d, t, m.data, m.levels, m.userEntries, b, {h.value.leaf.frame});
    } else {
      SpaceSees(t, m.free, d, t, d, m.levels, m.userEntries, b, {});
    }
  }

  /** The states a run of one space goes through. */
  ghost predicate IsTrail(ops: seq<Op>, trail: seq<State>, a: nat) {
    |trail| == |ops| + 1 && forall i :: 0 <= i < |ops| ==> Did(ops[i], trail[i], trail[i + 1], a)
  }

  /** Any run of one space does there what it says and leaves what the other sees alone. */
  method RunIn(m: Memory, a: nat, ops: seq<Op>, ghost b: nat) returns (ghost trail: seq<State>)
    requires m.Valid() && Pair(m.tables, m.free, m.levels, m.userEntries, a, b) && forall i :: 0 <= i < |ops| ==> ops[i].virt < USER_LIMIT
    modifies m`tables, m`free, m`data, m`released
    ensures m.Valid() && Pair(m.tables, m.free, m.levels, m.userEntries, a, b)
    ensures SeesSame(old(m.tables), old(m.data), m.tables, m.data, b)
    ensures IsTrail(ops, trail, a) && trail[0] == old(State(m.tables, m.data, m.free)) && trail[|ops|] == State(m.tables, m.data, m.free)
  {
    hide Tree, Foot, HugeFree, SeesSame, View, Did;
    ghost var t, d := m.tables, m.data;
    trail := [State(t, d, m.free)];
    SpaceSees(t, m.free, d, t, d, m.levels, m.userEntries, b, {});
    for i := 0 to |ops|
      invariant |trail| == i + 1 && trail[0] == old(State(m.tables, m.data, m.free)) && trail[i] == State(m.tables, m.data, m.free)
      invariant forall j :: 0 <= j < i ==> Did(ops[j], trail[j], trail[j + 1], a)
      invariant m.Valid() && Pair(m.tables, m.free, m.levels, m.userEntries, a, b) && b in t && SeesSame(t, d, m.tables, m.data, b)
    {
      ghost var t1, d1 := m.tables, m.data;
      Do(m, a, ops[i], b);
      SeesOn(t, d, t1, d1, m.tables, m.data, b);
      trail := trail + [State(m.tables, m.data, m.free)];
    }
  }

  // ---- fork -------------------------------------------------------------------------------------

  /** A copy has no big-page bits at all, so none of level 2 or 3. */
  lemma {:induction false} CopiedHugeFree(t: Tables, d: map<nat, Bytes>, L: nat, es: seq<Entry>, es2: seq<Entry>, n: nat)
    requires n <= |es| && n <= |es2| && Copied(t, d, L, es, es2, n)
    ensures HugeFree(t, L, es2, n)
    decreases L
  {
    forall i | 0 <= i < n ensures EntryHugeFree(t, L, es2[i]) {
      EntryIsCopied(t, d, L, es, es2, n, i);
      if L > 2 && es[i].present { CopiedHugeFree(t, d, L - 1, t[es[i].frame], t[es2[i].frame], |t[es[i].frame]|); }
    }
  }

  /** h2 shows, over memory d2, the page that h shows over d: in another frame unless it is a device's. */
  ghost predicate Mirrors(d: map<nat, Bytes>, h: Option<Hit>, d2: map<nat, Bytes>, h2: Option<Hit>) {
    match (h, h2)
    case (None, None) => true
    case (Some(x), Some(y)) =>
      && y.offset == x.offset && y.leaf == x.leaf.(frame := y.leaf.frame)
      && if x.leaf.pcd then y.leaf.frame == x.leaf.frame else DataAt(d2, y.leaf.frame) == DataAt(d, x.leaf.frame)
    case _ => false
  }

  /** The child shows what the parent showed over t and d. */
  ghost predicate Snapshot(t: Tables, d: map<nat, Bytes>, parent: nat, t2: Tables, d2: map<nat, Bytes>, child: nat)
    requires parent in t && child in t2
  {
    forall w: nat :: w < USER_LIMIT ==> Mirrors(d, View(t, parent, w), d2, View(t2, child, w))
  }

  lemma ForkSnapshot(t: Tables, free: set<nat>, d: map<nat, Bytes>, t2: Tables, free2: set<nat>, d2: map<nat, Bytes>,
                     L: nat, n: nat, parent: nat, child: nat)
    requires Space(t, free, L, n, parent) && Space(t2, free2, L, n, parent) && child in t2 && |t2[child]| == ENTRIES
    requires SeesSame(t, d, t2, d2, parent) && Copied(t2, d2, L, t2[parent], t2[child], n)
    ensures Snapshot(t, d, parent, t2, d2, child)
  {
    hide Tree, Foot, HugeFree, PathOf, Walk, Copied;
    forall w: nat | w < USER_LIMIT ensures Mirrors(d, View(t, parent, w), d2, View(t2, child, w)) {
      SpaceReady(t2, free2, L, n, parent, w);
      CopiedWalk(t2, d2, t2[parent], t2[child], n, PathOf(w));
      assert SameAt(d, View(t, parent, w), d2, View(t2, parent, w));
    }
  }

  lemma ForkAccess(t: Tables, d: map<nat, Bytes>, t2: Tables, d2: map<nat, Bytes>, parent: nat, child: nat)
    requires parent in t && child in t2 && Governed(t, parent) && Governed(t2, child) && Snapshot(t, d, parent, t2, d2, child)
    ensures forall w: nat :: w < USER_LIMIT ==> Access(t2, child, w) == Access(t, parent, w)
  {
    hide View, ReadPath, RightsOf, Open, PathOf;
    forall w: nat | w < USER_LIMIT ensures Access(t2, child, w) == Access(t, parent, w) {
      assert Governs(t, parent, w) && Governs(t2, child, w) && Mirrors(d, View(t, parent, w), d2, View(t2, child, w));
    }
  }

  /** What the child showed it goes on showing while it sees no change. */
  lemma SnapshotKept(t: Tables, d: map<nat, Bytes>, parent: nat, t1: Tables, d1: map<nat, Bytes>, t2: Tables, d2: map<nat, Bytes>, child: nat)
    requires parent in t && child in t1 && child in t2 && Snapshot(t, d, parent, t1, d1, child) && SeesSame(t1, d1, t2, d2, child)
    ensures Snapshot(t, d, parent, t2, d2, child)
  {
    hide View;
    forall w: nat | w < USER_LIMIT ensures Mirrors(d, View(t, parent, w), d2, View(t2, child, w)) {
      assert Mirrors(d, View(t, parent, w), d1, View(t1, child, w)) && SameAt(d1, View(t1, child, w), d2, View(t2, child, w));
    }
  }

  /** A copy reads as the original does, but for the frames. */
  lemma {:induction false} CopiedReads(t: Tables, d: map<nat, Bytes>, es: seq<Entry>, es2: seq<Entry>, n: nat, path: seq<nat>)
    requires path != [] && IsPath(path) && path[0] < n && n <= |es| && n <= |es2| && Copied(t, d, |path|, es, es2, n)
    requires Tree(t, |path|, es, n)
    ensures Open(ReadPath(t, es, path), |path|) ==> Open(ReadPath(t, es2, path), |path|)
    ensures Walk(t, es, path).Some? ==> RightsOf(ReadPath(t, es2, path)) == RightsOf(ReadPath(t, es, path))
    decreases |path|
  {
    EntryIsCopied(t, d, |path|, es, es2, n, path[0]);
    var e, e2 := es[path[0]], es2[path[0]];
    if e.present && |path| > 1 {
      CopiedTable(t, d, |path|, es, n, path[0], e2);
      EntryInFoot(t, |path|, es, n, path[0]);
      hide Tree, EntryTree, Foot, EntryFoot, Copied, EntryCopied, RightsOf, Open, ReadPath, Walk;
      var sub := path[1..];
      ReadStep(t, es, path);
      ReadStep(t, es2, path);
      WalkStep(t, es, path);
      CopiedReads(t, d, t[e.frame], t[e2.frame], |t[e.frame]|, sub);
      RightsCons(e, ReadPath(t, t[e.frame], sub), |path|);
      RightsCons(e2, ReadPath(t, t[e2.frame], sub), |path|);
    }
  }

  lemma ForkGoverned(t: Tables, free: set<nat>, d: map<nat, Bytes>, L: nat, n: nat, parent: nat, child: nat)
    requires Space(t, free, L, n, parent) && child in t && |t[child]| == ENTRIES && Copied(t, d, L, t[parent], t[child], n)
    ensures Governed(t, child)
  {
    hide Tree, Foot, HugeFree, Copied, PathOf, Walk, ReadPath, RightsOf, Open;
    forall w: nat | w < USER_LIMIT ensures Governs(t, child, w) {
      assert Governs(t, parent, w);
      PathIsPath(w);
      CopiedWalk(t, d, t[parent], t[child], n, PathOf(w));
      CopiedReads(t, d, t[parent], t[child], n, PathOf(w));
    }
  }

  /** Parent and child after the copy: two spaces without a common frame. */
  lemma ForkPair(m: Memory, t: Tables, free: set<nat>, parent: nat, child: nat)
    requires m.Valid() && Space(t, free, m.levels, m.userEntries, parent) && TablesKept(t, m.tables, free)
    requires m.IsSpace(child) && child in free && m.UserFoot(child) <= free && m.free <= free
    requires parent in m.tables && |m.tables[parent]| == ENTRIES
    requires Copied(m.tables, m.data, m.levels, m.tables[parent], m.tables[child], m.userEntries)
    ensures Pair(m.tables, m.free, m.levels, m.userEntries, parent, child)
  {
    hide Tree, Foot, HugeFree, Copied;
    CopiedHugeFree(m.tables, m.data, m.levels, m.tables[parent], m.tables[child], m.userEntries);
    SpaceFrame(t, free, m.tables, m.free, m.levels, m.userEntries, parent, free);
    ForkGoverned(m.tables, m.free, m.data, m.levels, m.userEntries, parent, child);
  }

  /** clone_kernel_pml4: a space in which nothing is mapped. */
  method NewSpace(m: Memory) returns (root: nat)
    requires m.Valid() && m.levels == 4 && m.userEntries == 256
    requires m.kernelRoot in m.tables && |m.tables[m.kernelRoot]| == ENTRIES && m.kernelRoot !in m.free
    modifies m`tables, m`free
    ensures m.Valid() && (root == 0 ==> m.free == old(m.free) == {} && m.tables == old(m.tables))
    ensures root != 0 ==> Space(m.tables, m.free, m.levels, m.userEntries, root)
                          && Frames(m.tables, m.levels, m.userEntries, root) == {root} && m.free == old(m.free) - {root}
                          && forall w: nat :: w < USER_LIMIT ==> View(m.tables, root, w) == None
  {
    root := m.CloneKernelRoot();
    if root != 0 { BlankSpace(m.tables, m.free, m.levels, m.userEntries, root); }
  }

  lemma BlankSpace(t: Tables, free: set<nat>, L: nat, n: nat, r: nat)
    requires L == 4 && n == 256 && r in t && |t[r]| == ENTRIES && r !in free && BlankTo(t[r], n)
    ensures Space(t, free, L, n, r) && Frames(t, L, n, r) == {r} && forall w: nat :: w < USER_LIMIT ==> View(t, r, w) == None
  {
    NothingCloned(t, map[], L, t[r], t[r]);
    hide Tree, Foot;
    AbsentTail(t, L, t[r], 0, n);
    forall w: nat | w < USER_LIMIT ensures View(t, r, w) == None && Governs(t, r, w) { PathIsPath(w); }
  }

  /** A space holds no big page, and one frame more than its user half. */
  lemma OnlySmall(t: Tables, free: set<nat>, L: nat, n: nat, r: nat)
    requires Space(t, free, L, n, r)
    ensures !HasBig(t, L, t[r], n) && |Frames(t, L, n, r)| == 1 + |Foot(t, L, t[r], n)|
  {
    hide Tree, Foot, HugeFree, Governed;
    if HasBig(t, L, t[r], n) {
      var path :| BigAt(t, L, t[r], n, path);
      HugeFreePath(t, t[r], n, path);
    }
    SizesAdd({r}, Foot(t, L, t[r], n));
  }

  /**
   clone_user_pml4 as the two spaces see it. It succeeds if and only if there is a free frame for
   every frame of the parent.
   */
  method Fork(m: Memory, parent: nat) returns (r: Status, child: nat)
    requires m.Valid() && Space(m.tables, m.free, m.levels, m.userEntries, parent)
    requires m.kernelRoot in m.tables && |m.tables[m.kernelRoot]| == ENTRIES && m.kernelRoot !in m.free
    modifies m`tables, m`data, m`free, m`released
    ensures m.Valid() && Space(m.tables, m.free, m.levels, m.userEntries, parent)
    ensures SeesSame(old(m.tables), old(m.data), m.tables, m.data, parent)
    ensures r.Ok? ==> Pair(m.tables, m.free, m.levels, m.userEntries, parent, child)
                      && Snapshot(old(m.tables), old(m.data), parent, m.tables, m.data, child)
                      && forall w: nat :: w < USER_LIMIT ==> Access(m.tables, child, w) == old(Access(m.tables, parent, w))
    ensures !r.Ok? ==> m.free == old(m.free)
    ensures r == if |old(m.free)| >= |old(Frames(m.tables, m.levels, m.userEntries, parent))| then Ok else NoMemory
  {
    hide Tree, Foot, HugeFree, Copied, SeesSame, Snapshot, ReleasedOnce, Governed, Access;
    ghost var t, d, free := m.tables, m.data, m.free;
    OnlySmall(t, free, m.levels, m.userEntries, parent);
    r, child := m.CloneUser(parent);
    SpaceFrame(t, free, m.tables, m.free, m.levels, m.userEntries, parent, free);
    SpaceSees(t, free, d, m.tables, m.data, m.levels, m.userEntries, parent, free);
    if r.Ok? {
      ForkPair(m, t, free, parent, child);
      ForkSnapshot(t, free, d, m.tables, m.free, m.data, m.levels, m.userEntries, parent, child);
      ForkAccess(t, d, m.tables, m.data, parent, child);
    }
  }

  /**
   A fork, and then any run in one of the two spaces: the other one goes on showing what the
   parent showed before the fork.
   */
  method ForkThenRun(m: Memory, parent: nat, ops: seq<Op>, inChild: bool) returns (r: Status, child: nat)
    requires m.Valid() && Space(m.tables, m.free, m.levels, m.userEntries, parent)
    requires m.kernelRoot in m.tables && |m.tables[m.kernelRoot]| == ENTRIES && m.kernelRoot !in m.free
    requires forall i :: 0 <= i < |ops| ==> ops[i].virt < USER_LIMIT
    modifies m`tables, m`data, m`free, m`released
    ensures m.Valid() && Space(m.tables, m.free, m.levels, m.userEntries, parent)
    ensures r.Ok? ==> Pair(m.tables, m.free, m.levels, m.userEntries, parent, child)
    ensures r.Ok? && inChild ==> SeesSame(old(m.tables), old(m.data), m.tables, m.data, parent)
    ensures r.Ok? && !inChild ==> Snapshot(old(m.tables), old(m.data), parent, m.tables, m.data, child)
  {
    hide Tree, Foot, HugeFree, SeesSame, Snapshot;
    ghost var t, d := m.tables, m.data;
    r, child := Fork(m, parent);
    if !r.Ok? { return; }
    ghost var t1, d1 := m.tables, m.data;
    if inChild {
      PairTurned(t1, m.free, m.levels, m.userEntries, parent, child);
      ghost var trail := RunIn(m, child, ops, parent);
      PairTurned(m.tables, m.free, m.levels, m.userEntries, child, parent);
      SeesOn(t, d, t1, d1, m.tables, m.data, parent);
    } else {
      ghost var trail := RunIn(m, parent, ops, child);
      SnapshotKept(t, d, parent, t1, d1, m.tables, m.data, child);
    }
  }

  lemma PairTurned(t: Tables, free: set<nat>, L: nat, n: nat, a: nat, b: nat)
    requires Pair(t, free, L, n, a, b)
    ensures Pair(t, free, L, n, b, a)
  {
    hide Tree, Foot, HugeFree, Governed;
  }
}
