/**
 Four-level page tables in physical memory (Intel SDM Vol. 3A, section 4.5).

 A table is a frame holding 512 entries; an entry of level L is absent, a leaf, or
 the frame of a table of level L - 1. Everything below is stated over the entries
 `es` of one table and the first n of them, the shape in which the kernel's nested
 loops visit a tree.
 */
module PageTables {
  import opened Options

  const ENTRIES: nat := 512

  /** page_entry_t; `spare` holds the accessed, dirty, available and reserved bits. */
  datatype Entry = Entry(present: bool, writable: bool, user: bool, pwt: bool, pcd: bool,
                         big: bool, global: bool, nx: bool, spare: nat, frame: nat)

  const ZERO: Entry := Entry(false, false, false, false, false, false, false, false, 0, 0)

  type Tables = map<nat, seq<Entry>>

  /** An entry of level L that maps memory: a 4 KB page, or a big page one or two levels up. */
  predicate IsLeaf(L: nat, e: Entry) {
    e.present && (L <= 1 || ((L == 2 || L == 3) && e.big))
  }

  predicate IsTable(L: nat, e: Entry) {
    e.present && !IsLeaf(L, e)
  }

  /** Device pages (PCD) are aliased, not owned. */
  predicate OwnsLeaf(L: nat, e: Entry) {
    IsLeaf(L, e) && !(L <= 1 && e.pcd)
  }

  // ---- the frames a tree owns, and that no frame is owned twice -----------------

  ghost function EntryFoot(t: Tables, L: nat, e: Entry): set<nat>
    decreases L, 0
  {
    if OwnsLeaf(L, e) then {e.frame}
    else if IsTable(L, e) then {e.frame} + (if e.frame in t then Foot(t, L - 1, t[e.frame], |t[e.frame]|) else {})
    else {}
  }

  ghost function Foot(t: Tables, L: nat, es: seq<Entry>, n: nat): set<nat>
    requires n <= |es|
    decreases L, n + 1
  {
    if n == 0 then {} else Foot(t, L, es, n - 1) + EntryFoot(t, L, es[n - 1])
  }

  ghost predicate EntryTree(t: Tables, L: nat, e: Entry)
    decreases L, 0
  {
    IsTable(L, e) ==>
      && e.frame in t && |t[e.frame]| == ENTRIES
      && e.frame !in Foot(t, L - 1, t[e.frame], |t[e.frame]|)
      && Tree(t, L - 1, t[e.frame], |t[e.frame]|)
  }

  /** The first n entries root a forest whose owned frames are pairwise distinct. */
  ghost predicate Tree(t: Tables, L: nat, es: seq<Entry>, n: nat)
    requires n <= |es|
    decreases L, n + 1
  {
    n > 0 ==>
    && Tree(t, L, es, n - 1)
    && EntryTree(t, L, es[n - 1])
    && EntryFoot(t, L, es[n - 1]) !! Foot(t, L, es, n - 1)
  }

  /** t2 agrees with t on the tables among the frames of `s`. */
  ghost predicate SameOn(t: Tables, t2: Tables, s: set<nat>) {
    forall g :: g in s && g in t ==> g in t2 && t2[g] == t[g]
  }

  lemma {:induction false} EntryFrame(t: Tables, t2: Tables, L: nat, e: Entry)
    requires EntryTree(t, L, e) && SameOn(t, t2, EntryFoot(t, L, e))
    ensures EntryTree(t2, L, e) && EntryFoot(t2, L, e) == EntryFoot(t, L, e)
    decreases L, 0
  {
    if IsTable(L, e) { TreeFrame(t, t2, L - 1, t[e.frame], |t[e.frame]|); }
  }

  /** A tree depends only on the tables it owns. */
  lemma {:induction false} TreeFrame(t: Tables, t2: Tables, L: nat, es: seq<Entry>, n: nat)
    requires n <= |es| && Tree(t, L, es, n) && SameOn(t, t2, Foot(t, L, es, n))
    ensures Tree(t2, L, es, n) && Foot(t2, L, es, n) == Foot(t, L, es, n)
    decreases L, n + 1
  {
    if n > 0 {
      TreeFrame(t, t2, L, es, n - 1);
      EntryFrame(t, t2, L, es[n - 1]);
    }
  }

  /** Only the first n entries matter. */
  lemma {:induction false} TreePrefix(t: Tables, L: nat, es: seq<Entry>, es2: seq<Entry>, n: nat)
    requires n <= |es| && n <= |es2| && es[..n] == es2[..n]
    ensures Foot(t, L, es, n) == Foot(t, L, es2, n) && (Tree(t, L, es, n) <==> Tree(t, L, es2, n))
    decreases n
  {
    if n > 0 {
      assert es[..n - 1] == es[..n][..n - 1] && es2[..n - 1] == es2[..n][..n - 1];
      assert es[n - 1] == es[..n][n - 1] == es2[n - 1];
      TreePrefix(t, L, es, es2, n - 1);
    }
  }

  lemma {:induction false} EntryInFoot(t: Tables, L: nat, es: seq<Entry>, n: nat, i: nat)
    requires i < n <= |es|
    ensures EntryFoot(t, L, es[i]) <= Foot(t, L, es, n)
    ensures Tree(t, L, es, n) ==> EntryTree(t, L, es[i])
    decreases n
  {
    if i < n - 1 { EntryInFoot(t, L, es, n - 1, i); }
  }

  lemma {:induction false} TreeShorten(t: Tables, L: nat, es: seq<Entry>, i: nat, n: nat)
    requires i <= n <= |es| && Tree(t, L, es, n)
    ensures Tree(t, L, es, i) && Foot(t, L, es, i) <= Foot(t, L, es, n)
    decreases n
  {
    if i < n { TreeShorten(t, L, es, i, n - 1); }
  }

  lemma {:induction false} EntriesApart(t: Tables, L: nat, es: seq<Entry>, n: nat, i: nat, j: nat)
    requires i < j < n <= |es| && Tree(t, L, es, n)
    ensures EntryFoot(t, L, es[i]) !! EntryFoot(t, L, es[j])
    decreases n
  {
    if j < n - 1 { EntriesApart(t, L, es, n - 1, i, j); } else { EntryInFoot(t, L, es, n - 1, i); }
  }

  /** Absent entries own nothing. */
  lemma {:induction false} AbsentTail(t: Tables, L: nat, es: seq<Entry>, i: nat, n: nat)
    requires i <= n <= |es| && forall k :: i <= k < n ==> !es[k].present
    ensures Foot(t, L, es, n) == Foot(t, L, es, i)
    ensures Tree(t, L, es, i) ==> Tree(t, L, es, n)
    decreases n
  {
    if i < n { AbsentTail(t, L, es, i, n - 1); }
  }

  // ---- translation ----------------------------------------------------------------

  /** What a walk finds: the leaf entry and the indices below it (the offset inside a big page). */
  datatype Hit = Hit(leaf: Entry, offset: seq<nat>)

  ghost predicate IsPath(path: seq<nat>) {
    forall i :: 0 <= i < |path| ==> path[i] < ENTRIES
  }

  /** The flat translation: follow one index per level. */
  function Walk(t: Tables, es: seq<Entry>, path: seq<nat>): Option<Hit>
    decreases |path|
  {
    if path == [] || path[0] >= |es| || !es[path[0]].present then None
    else
      var e := es[path[0]];
      if IsLeaf(|path|, e) then Some(Hit(e, path[1..]))
      else if e.frame in t then Walk(t, t[e.frame], path[1..])
      else None
  }

  /** A walk reads only tables the tree owns. */
  lemma {:induction false} WalkFrame(t: Tables, t2: Tables, es: seq<Entry>, n: nat, path: seq<nat>)
    requires path != [] && path[0] < n <= |es| && Tree(t, |path|, es, n)
    requires SameOn(t, t2, Foot(t, |path|, es, n))
    ensures Walk(t2, es, path) == Walk(t, es, path)
    decreases |path|
  {
    var e := es[path[0]];
    EntryInFoot(t, |path|, es, n, path[0]);
    if IsTable(|path|, e) && |path| > 1 && path[1] < |t[e.frame]| {
      WalkFrame(t, t2, t[e.frame], |t[e.frame]|, path[1..]);
    }
  }

  /** The leaf a walk ends in is owned by the tree, unless it is a device page. */
  lemma {:induction false} WalkInFoot(t: Tables, es: seq<Entry>, n: nat, path: seq<nat>)
    requires path != [] && path[0] < n <= |es| && Tree(t, |path|, es, n)
    requires Walk(t, es, path).Some?
    ensures var h := Walk(t, es, path).value;
            h.leaf.present && (h.leaf.frame in Foot(t, |path|, es, n) || h.leaf.pcd)
    decreases |path|
  {
    var e := es[path[0]];
    EntryInFoot(t, |path|, es, n, path[0]);
    if IsTable(|path|, e) { WalkInFoot(t, t[e.frame], |t[e.frame]|, path[1..]); }
  }

  // ---- big pages ------------------------------------------------------------------

  /** The walk ends before its last index, in a page of 2 MB or 1 GB. */
  ghost predicate BigAt(t: Tables, L: nat, es: seq<Entry>, n: nat, path: seq<nat>) {
    && |path| == L && path != [] && IsPath(path) && path[0] < n
    && Walk(t, es, path).Some? && Walk(t, es, path).value.offset != []
  }

  ghost predicate HasBig(t: Tables, L: nat, es: seq<Entry>, n: nat) {
    exists path :: BigAt(t, L, es, n, path)
  }

  lemma BigEntry(t: Tables, L: nat, e: Entry)
    requires L > 1 && IsLeaf(L, e)
    ensures HasBig(t, L, [e], 1)
  {
    var path := seq(L, _ => 0);
    assert BigAt(t, L, [e], 1, path);
  }

  lemma BigBelow(t: Tables, L: nat, e: Entry)
    requires L > 1 && IsTable(L, e) && e.frame in t && |t[e.frame]| == ENTRIES && HasBig(t, L - 1, t[e.frame], ENTRIES)
    ensures HasBig(t, L, [e], 1)
  {
    var path :| BigAt(t, L - 1, t[e.frame], ENTRIES, path);
    assert ([0] + path)[1..] == path;
    assert BigAt(t, L, [e], 1, [0] + path);
  }

  lemma BigInTable(t: Tables, L: nat, es: seq<Entry>, n: nat, i: nat)
    requires i < n <= |es| <= ENTRIES && HasBig(t, L, [es[i]], 1)
    ensures HasBig(t, L, es, n)
  {
    var path :| BigAt(t, L, [es[i]], 1, path);
    assert path[0] == 0 && path[0 := i][1..] == path[1..];
    assert BigAt(t, L, es, n, path[0 := i]);
  }

  /** Big pages are found in the tables the tree owns. */
  lemma BigFrame(t: Tables, t2: Tables, L: nat, es: seq<Entry>, n: nat)
    requires n <= |es| && Tree(t, L, es, n) && SameOn(t, t2, Foot(t, L, es, n)) && HasBig(t2, L, es, n)
    ensures HasBig(t, L, es, n)
  {
    var path :| BigAt(t2, L, es, n, path);
    WalkFrame(t, t2, es, n, path);
    assert BigAt(t, L, es, n, path);
  }
}
