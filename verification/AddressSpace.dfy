/**
 Fork and teardown of user address spaces: the nested loops that deep-copy a page
 table tree and that return every frame it owns, over physical memory updated in
 place. Device pages (PCD) are aliased by a copy and skipped by a teardown.
 */
module AddressSpace {
  import opened Options
  import opened PageTables

  type Bytes = seq<nat>

  datatype Status = Ok | NoMemory | NotSupported

  function DataAt(d: map<nat, Bytes>, f: nat): Bytes {
    if f in d then d[f] else []
  }

  // ---- what a copy is ---------------------------------------------------------------

  ghost predicate EntryCopied(t: Tables, d: map<nat, Bytes>, L: nat, e: Entry, e2: Entry)
    decreases L, 0
  {
    if !e.present then e2 == ZERO
    else
      && e2 == e.(frame := e2.frame)
      && if L <= 1 then (if e.pcd then e2.frame == e.frame else DataAt(d, e2.frame) == DataAt(d, e.frame))
         else
           && IsTable(L, e) && e.frame in t && e2.frame in t && |t[e.frame]| == |t[e2.frame]|
           && Copied(t, d, L - 1, t[e.frame], t[e2.frame], |t[e.frame]|)
  }

  /** The first n entries of es2 root a copy of what the first n entries of es root. */
  ghost predicate Copied(t: Tables, d: map<nat, Bytes>, L: nat, es: seq<Entry>, es2: seq<Entry>, n: nat)
    requires n <= |es| && n <= |es2|
    decreases L, n + 1
  {
    n > 0 ==> Copied(t, d, L, es, es2, n - 1) && EntryCopied(t, d, L, es[n - 1], es2[n - 1])
  }

  ghost predicate SameData(d: map<nat, Bytes>, d2: map<nat, Bytes>, s: set<nat>) {
    forall g :: g in s ==> DataAt(d2, g) == DataAt(d, g)
  }

  lemma {:induction false} EntryCopiedFrame(t: Tables, d: map<nat, Bytes>, t2: Tables, d2: map<nat, Bytes>, L: nat, e: Entry, e2: Entry)
    requires EntryCopied(t, d, L, e, e2) && EntryTree(t, L, e) && EntryTree(t, L, e2)
    requires SameOn(t, t2, EntryFoot(t, L, e)) && SameOn(t, t2, EntryFoot(t, L, e2))
    requires SameData(d, d2, EntryFoot(t, L, e)) && SameData(d, d2, EntryFoot(t, L, e2))
    ensures EntryCopied(t2, d2, L, e, e2)
    decreases L, 0
  {
    if IsTable(L, e) {
      CopiedFrame(t, d, t2, d2, L - 1, t[e.frame], t[e2.frame], |t[e.frame]|);
    }
  }

  /** A copy stays a copy while neither tree's frames are touched. */
  lemma {:induction false} CopiedFrame(t: Tables, d: map<nat, Bytes>, t2: Tables, d2: map<nat, Bytes>, L: nat,
                                          es: seq<Entry>, es2: seq<Entry>, n: nat)
    requires n <= |es| && n <= |es2| && Copied(t, d, L, es, es2, n) && Tree(t, L, es, n) && Tree(t, L, es2, n)
    requires SameOn(t, t2, Foot(t, L, es, n)) && SameOn(t, t2, Foot(t, L, es2, n))
    requires SameData(d, d2, Foot(t, L, es, n)) && SameData(d, d2, Foot(t, L, es2, n))
    ensures Copied(t2, d2, L, es, es2, n)
    decreases L, n + 1
  {
    if n > 0 {
      CopiedFrame(t, d, t2, d2, L, es, es2, n - 1);
      EntryCopiedFrame(t, d, t2, d2, L, es[n - 1], es2[n - 1]);
    }
  }

  lemma {:induction false} CopiedPrefix(t: Tables, d: map<nat, Bytes>, L: nat, es: seq<Entry>, es2: seq<Entry>, es3: seq<Entry>, n: nat)
    requires n <= |es| && n <= |es2| && n <= |es3| && es2[..n] == es3[..n] && Copied(t, d, L, es, es2, n)
    ensures Copied(t, d, L, es, es3, n)
    decreases n
  {
    if n > 0 {
      assert es2[..n - 1] == es2[..n][..n - 1] && es3[..n - 1] == es3[..n][..n - 1];
      assert es2[n - 1] == es2[..n][n - 1] == es3[n - 1];
      CopiedPrefix(t, d, L, es, es2, es3, n - 1);
    }
  }

  /** The flat meaning of a copy, for one virtual page. */
  ghost predicate SamePage(d: map<nat, Bytes>, w: Option<Hit>, w2: Option<Hit>) {
    match (w, w2)
    case (None, None) => true
    case (Some(h), Some(h2)) =>
      && h2.offset == h.offset && h2.leaf == h.leaf.(frame := h2.leaf.frame)
      && if h.leaf.pcd then h2.leaf.frame == h.leaf.frame
         else DataAt(d, h2.leaf.frame) == DataAt(d, h.leaf.frame)
    case _ => false
  }

  /** A copied tree has the same domain, flags and page contents at every virtual page. */
  lemma {:induction false} CopiedWalk(t: Tables, d: map<nat, Bytes>, es: seq<Entry>, es2: seq<Entry>, n: nat, path: seq<nat>)
    requires path != [] && path[0] < n && n <= |es| && n <= |es2| && Copied(t, d, |path|, es, es2, n)
    requires Tree(t, |path|, es, n)
    ensures SamePage(d, Walk(t, es, path), Walk(t, es2, path))
    decreases |path|
  {
    hide Tree, EntryTree, Copied, EntryCopied, Foot, EntryFoot, Walk, DataAt;
    EntryIsCopied(t, d, |path|, es, es2, n, path[0]);
    var e, e2 := es[path[0]], es2[path[0]];
    if !e.present {
      CopiedAbsent(t, d, |path|, es, es2, path);
    } else if |path| == 1 {
      CopiedLeaf(t, d, e, e2, path[1..]);
      LeafWalks(t, d, es, es2, path);
    } else {
      var sub := path[1..];
      CopiedTable(t, d, |path|, es, n, path[0], e2);
      WalkStep(t, es, path);
      WalkStep(t, es2, path);
      if sub[0] < |t[e.frame]| { CopiedWalk(t, d, t[e.frame], t[e2.frame], |t[e.frame]|, sub); }
      else { OffTable(t, t[e.frame], sub); OffTable(t, t[e2.frame], sub); }
    }
  }

  lemma OffTable(t: Tables, es: seq<Entry>, path: seq<nat>)
    requires path != [] && path[0] >= |es|
    ensures Walk(t, es, path) == None
  {}

  lemma CopiedAbsent(t: Tables, d: map<nat, Bytes>, L: nat, es: seq<Entry>, es2: seq<Entry>, path: seq<nat>)
    requires path != [] && path[0] < |es| && path[0] < |es2| && !es[path[0]].present && EntryCopied(t, d, L, es[path[0]], es2[path[0]])
    ensures Walk(t, es, path) == None && Walk(t, es2, path) == None
  {}

  lemma LeafWalks(t: Tables, d: map<nat, Bytes>, es: seq<Entry>, es2: seq<Entry>, path: seq<nat>)
    requires |path| == 1 && path[0] < |es| && path[0] < |es2| && es[path[0]].present
    requires EntryCopied(t, d, 1, es[path[0]], es2[path[0]])
    ensures Walk(t, es, path) == Some(Hit(es[path[0]], path[1..])) && Walk(t, es2, path) == Some(Hit(es2[path[0]], path[1..]))
  {}

  lemma CopiedTable(t: Tables, d: map<nat, Bytes>, L: nat, es: seq<Entry>, n: nat, i: nat, e2: Entry)
    requires L > 1 && i < n <= |es| && es[i].present && EntryCopied(t, d, L, es[i], e2) && Tree(t, L, es, n)
    ensures var e := es[i];
      && IsTable(L, e) && IsTable(L, e2) && e.frame in t && e2.frame in t && |t[e.frame]| == |t[e2.frame]|
      && Copied(t, d, L - 1, t[e.frame], t[e2.frame], |t[e.frame]|) && Tree(t, L - 1, t[e.frame], |t[e.frame]|)
  {
    EntryInFoot(t, L, es, n, i);
    hide Copied, Foot;
  }

  lemma WalkStep(t: Tables, es: seq<Entry>, path: seq<nat>)
    requires |path| > 1 && path[0] < |es| && es[path[0]].present && es[path[0]].frame in t && IsTable(|path|, es[path[0]])
    ensures Walk(t, es, path) == Walk(t, t[es[path[0]].frame], path[1..])
  {}

  lemma CopiedLeaf(t: Tables, d: map<nat, Bytes>, e: Entry, e2: Entry, offset: seq<nat>)
    requires e.present && EntryCopied(t, d, 1, e, e2)
    ensures SamePage(d, Some(Hit(e, offset)), Some(Hit(e2, offset)))
  {}

  lemma {:induction false} EntryIsCopied(t: Tables, d: map<nat, Bytes>, L: nat, es: seq<Entry>, es2: seq<Entry>, n: nat, i: nat)
    requires i < n && n <= |es| && n <= |es2| && Copied(t, d, L, es, es2, n)
    ensures EntryCopied(t, d, L, es[i], es2[i])
    decreases n
  {
    if i < n - 1 { EntryIsCopied(t, d, L, es, es2, n - 1, i); }
  }

  // ---- physical memory, updated in place ------------------------------------------

  ghost function Taken(before: set<nat>, after: set<nat>): set<nat> { before - after }

  /** Tables outside `s` are as they were. */
  ghost predicate TablesKept(t: Tables, t2: Tables, s: set<nat>) {
    forall g :: g in t && g !in s ==> g in t2 && t2[g] == t[g]
  }

  ghost predicate DataKept(d: map<nat, Bytes>, d2: map<nat, Bytes>, s: set<nat>) {
    forall g :: g !in s ==> DataAt(d2, g) == DataAt(d, g)
  }

  ghost predicate AbsentTo(es: seq<Entry>, n: nat)
    requires n <= |es|
  {
    forall k :: 0 <= k < n ==> !es[k].present
  }

  ghost predicate BlankTo(es: seq<Entry>, n: nat)
    requires n <= |es|
  {
    forall k :: 0 <= k < n ==> es[k] == ZERO
  }

  /** From rel0 to rel, frames were released at most once each, and only frames of s. */
  ghost predicate ReleasedOnce(rel0: multiset<nat>, rel: multiset<nat>, s: set<nat>) {
    rel0 <= rel && forall g :: (rel - rel0)[g] <= if g in s then 1 else 0
  }

  lemma OnceEach(rel0: multiset<nat>, x: set<nat>, s: set<nat>)
    requires x <= s
    ensures ReleasedOnce(rel0, rel0 + multiset(x), s)
  {
    assert rel0 + multiset(x) - rel0 == multiset(x);
  }

  lemma NoneReleased(rel: multiset<nat>, s: set<nat>)
    ensures ReleasedOnce(rel, rel, s)
  {}

  /** Frames taken in two steps. */
  lemma KeptTwice(t0: Tables, t1: Tables, t2: Tables, d0: map<nat, Bytes>, d1: map<nat, Bytes>, d2: map<nat, Bytes>,
                  free0: set<nat>, free1: set<nat>, free2: set<nat>, c: nat)
    requires free2 <= free1 <= free0
    requires TablesKept(t0, t1, Taken(free0, free1) + {c}) && TablesKept(t1, t2, Taken(free1, free2) + {c})
    requires DataKept(d0, d1, Taken(free0, free1)) && DataKept(d1, d2, Taken(free1, free2))
    ensures TablesKept(t0, t2, Taken(free0, free2) + {c}) && DataKept(d0, d2, Taken(free0, free2))
  {}

  lemma NothingCloned(t: Tables, d: map<nat, Bytes>, L: nat, ps: seq<Entry>, es: seq<Entry>)
    ensures Tree(t, L, es, 0) && Foot(t, L, es, 0) == {} && Copied(t, d, L, ps, es, 0)
  {}

  /** A table entry owns its table and what the table roots. */
  lemma TableEntry(t: Tables, L: nat, e: Entry)
    requires IsTable(L, e) && e.frame in t && |t[e.frame]| == ENTRIES
    ensures EntryFoot(t, L, e) == {e.frame} + Foot(t, L - 1, t[e.frame], ENTRIES)
    ensures EntryTree(t, L, e) <==>
              e.frame !in Foot(t, L - 1, t[e.frame], ENTRIES) && Tree(t, L - 1, t[e.frame], ENTRIES)
  {}

  lemma AbsentEntry(t: Tables, L: nat, e: Entry)
    requires !e.present
    ensures EntryTree(t, L, e) && EntryFoot(t, L, e) == {}
  {}

  lemma TableCopied(t: Tables, d: map<nat, Bytes>, L: nat, e: Entry, e2: Entry)
    requires IsTable(L, e) && e2 == e.(frame := e2.frame) && e.frame in t && e2.frame in t
    requires |t[e.frame]| == |t[e2.frame]| == ENTRIES
    requires Copied(t, d, L - 1, t[e.frame], t[e2.frame], ENTRIES)
    ensures EntryCopied(t, d, L, e, e2)
  {}

  lemma NothingTaken(t: Tables, d: map<nat, Bytes>, free: set<nat>, c: nat)
    ensures TablesKept(t, t, Taken(free, free) + {c}) && DataKept(d, d, Taken(free, free)) && Taken(free, free) == {}
  {}

  lemma TwoWritten(t0: Tables, t1: Tables, table: nat, c: nat)
    requires table in t1 && c in t1 && t1 == t0[table := t1[table]][c := t1[c]]
    ensures TablesKept(t0, t1, {table, c})
  {}

  /** A cleared table was linked at slot i of table c: the subtree below e is as it was, and apart from both. */
  lemma TableLinked(t0: Tables, free0: set<nat>, t1: Tables, L: nat, e: Entry, c: nat, i: nat, table: nat)
    requires L > 1 && IsTable(L, e) && EntryTree(t0, L, e) && EntryFoot(t0, L, e) !! free0 && c !in EntryFoot(t0, L, e)
    requires c in t0 && |t0[c]| == ENTRIES && i < ENTRIES && table in free0 && c !in free0
    requires c in t1 && table in t1 && TablesKept(t0, t1, {table, c}) && t1[c] == t0[c][i := e.(frame := table)] && |t1[table]| == ENTRIES
    ensures e.frame in t1 && |t1[e.frame]| == ENTRIES && e.frame != table && e.frame != c && e.frame !in free0
    ensures Tree(t1, L - 1, t1[e.frame], ENTRIES) && Foot(t1, L - 1, t1[e.frame], ENTRIES) !! free0
    ensures table !in Foot(t1, L - 1, t1[e.frame], ENTRIES)
  {
    assert e.frame in t0 && |t0[e.frame]| == ENTRIES;
    hide Tree, Foot, EntryTree, EntryFoot;
    TableEntry(t0, L, e);
    EntryFrame(t0, t1, L, e);
    TableEntry(t1, L, e);
  }

  /** The entries below were copied from t1 to t2: slot i owns all that was taken. */
  lemma SubtreeCloned(t0: Tables, d0: map<nat, Bytes>, free0: set<nat>, t1: Tables, free1: set<nat>,
                      t2: Tables, d2: map<nat, Bytes>, free2: set<nat>, L: nat, e: Entry, c: nat, i: nat, table: nat)
    requires L > 1 && IsTable(L, e) && c in t0 && |t0[c]| == ENTRIES && i < ENTRIES && table in free0 && c !in free0
    requires free1 == free0 - {table} && free2 <= free1 && table in t2 && |t2[table]| == ENTRIES
    requires e.frame in t1 && e.frame !in free0
    requires c in t1 && TablesKept(t0, t1, {table, c}) && t1[c] == t0[c][i := e.(frame := table)]
    requires TablesKept(t1, t2, Taken(free1, free2) + {table}) && DataKept(d0, d2, Taken(free1, free2))
    requires Tree(t2, L - 1, t2[table], ENTRIES) && Foot(t2, L - 1, t2[table], ENTRIES) == Taken(free1, free2)
    ensures TablesKept(t0, t2, Taken(free0, free2) + {c}) && DataKept(d0, d2, Taken(free0, free2))
    ensures c in t2 && t2[c] == t0[c][i := e.(frame := table)] && e.frame in t2 && t2[e.frame] == t1[e.frame]
    ensures EntryTree(t2, L, t2[c][i]) && EntryFoot(t2, L, t2[c][i]) == Taken(free0, free2)
  {
    hide Tree, Foot, EntryTree, EntryFoot;
    TableEntry(t2, L, e.(frame := table));
    assert Taken(free0, free2) == {table} + Taken(free1, free2);
  }

  /** Adding one cloned entry to a cloned prefix. */
  lemma ExtendClone(L: nat, t1: Tables, t2: Tables, es1: seq<Entry>, i: nat, e2: Entry, c: nat, x: set<nat>)
    requires i < |es1| && Tree(t1, L, es1, i) && c !in Foot(t1, L, es1, i) && x !! Foot(t1, L, es1, i)
    requires TablesKept(t1, t2, x + {c}) && EntryTree(t2, L, e2) && EntryFoot(t2, L, e2) == x
    ensures Tree(t2, L, es1[i := e2], i + 1)
    ensures Foot(t2, L, es1[i := e2], i + 1) == Foot(t1, L, es1, i) + x
  {
    TreeFrame(t1, t2, L, es1, i);
    assert es1[..i] == es1[i := e2][..i];
    TreePrefix(t2, L, es1, es1[i := e2], i);
  }

  lemma ExtendCopy(L: nat, t1: Tables, d1: map<nat, Bytes>, t2: Tables, d2: map<nat, Bytes>,
                   ps: seq<Entry>, es1: seq<Entry>, i: nat, e2: Entry, c: nat, x: set<nat>)
    requires i < |es1| && i < |ps| && Tree(t1, L, es1, i) && Tree(t1, L, ps, i) && Copied(t1, d1, L, ps, es1, i)
    requires c !in Foot(t1, L, es1, i) && x !! Foot(t1, L, es1, i)
    requires c !in Foot(t1, L, ps, i) && x !! Foot(t1, L, ps, i)
    requires TablesKept(t1, t2, x + {c}) && DataKept(d1, d2, x) && EntryCopied(t2, d2, L, ps[i], e2)
    ensures Copied(t2, d2, L, ps, es1[i := e2], i + 1)
  {
    CopiedFrame(t1, d1, t2, d2, L, ps, es1, i);
    assert es1[..i] == es1[i := e2][..i];
    CopiedPrefix(t2, d2, L, ps, es1, es1[i := e2], i);
  }

  // ---- what a copy costs ------------------------------------------------------------

  /** A copy of something that owns `need` frames took just these, or ran out short of them. */
  ghost predicate Paid(r: Status, before: set<nat>, after: set<nat>, need: nat) {
    && (r.Ok? ==> |after| + need == |before|)
    && (r.NoMemory? ==> after == {} && |before| < need)
  }

  /** What copying the first i of n entries came to. */
  ghost predicate Outcome(r: Status, t: Tables, L: nat, es: seq<Entry>, n: nat, i: nat, before: set<nat>, after: set<nat>)
    requires i <= n <= |es|
  {
    && (r.Ok? ==> Paid(r, before, after, |Foot(t, L, es, i)|))
    && (r.NoMemory? ==> Paid(r, before, after, |Foot(t, L, es, n)|))
    && (r.NotSupported? ==> HasBig(t, L, es, n))
  }

  lemma NothingPaid(t: Tables, L: nat, es: seq<Entry>, n: nat, free: set<nat>)
    requires n <= |es|
    ensures Outcome(Ok, t, L, es, n, 0, free, free)
  {}

  lemma PaidNext(r: Status, free0: set<nat>, free1: set<nat>, free2: set<nat>, t: Tables, L: nat, es: seq<Entry>, n: nat, i: nat)
    requires i < n <= |es| && Tree(t, L, es, n)
    requires Paid(Ok, free0, free1, |Foot(t, L, es, i)|) && Paid(r, free1, free2, |EntryFoot(t, L, es[i])|)
    ensures Paid(r, free0, free2, |Foot(t, L, es, i + 1)|) && |Foot(t, L, es, i + 1)| <= |Foot(t, L, es, n)|
  {
    TreeShorten(t, L, es, i + 1, n);
    FreedOne(L, t, es, n, i);
    SizesAdd(Foot(t, L, es, i), EntryFoot(t, L, es[i]));
    SizesOrdered(Foot(t, L, es, i + 1), Foot(t, L, es, n));
  }

  lemma PaidTable(r: Status, free0: set<nat>, table: nat, free2: set<nat>, t: Tables, L: nat, e: Entry)
    requires IsTable(L, e) && e.frame in t && |t[e.frame]| == ENTRIES && EntryTree(t, L, e) && table in free0
    requires Paid(r, free0 - {table}, free2, |Foot(t, L - 1, t[e.frame], ENTRIES)|)
    ensures Paid(r, free0, free2, |EntryFoot(t, L, e)|)
  {
    TableEntry(t, L, e);
    assert free0 == free0 - {table} + {table};
    SizesAdd({e.frame}, Foot(t, L - 1, t[e.frame], ENTRIES));
  }

  /** What copying entry i came to, for the table as a whole. */
  lemma EntryOutcome(r: Status, L: nat, t0: Tables, t1: Tables, free0: set<nat>, free1: set<nat>, free2: set<nat>, es: seq<Entry>, n: nat, i: nat)
    requires i < n <= |es| == ENTRIES && Tree(t0, L, es, n) && SameOn(t0, t1, Foot(t0, L, es, n))
    requires Outcome(Ok, t0, L, es, n, i, free0, free1) && Paid(r, free1, free2, |EntryFoot(t1, L, es[i])|)
    requires r.NotSupported? ==> HasBig(t1, L, [es[i]], 1)
    ensures Outcome(r, t0, L, es, n, i + 1, free0, free2)
  {
    hide Tree, Foot, EntryTree, EntryFoot, HasBig;
    EntryInFoot(t0, L, es, n, i);
    EntryFrame(t0, t1, L, es[i]);
    PaidNext(r, free0, free1, free2, t0, L, es, n, i);
    if r.NotSupported? {
      BigInTable(t1, L, es, n, i);
      BigFrame(t0, t1, L, es, n);
    }
  }

  lemma SubtreeOutcome(r: Status, L: nat, t0: Tables, t1: Tables, free0: set<nat>, table: nat, free2: set<nat>, e: Entry)
    requires L > 1 && IsTable(L, e) && e.frame in t0 && |t0[e.frame]| == ENTRIES && EntryTree(t0, L, e)
    requires SameOn(t0, t1, EntryFoot(t0, L, e)) && e.frame in t1 && table in free0
    requires t1[e.frame] == t0[e.frame] && Paid(r, free0 - {table}, free2, |Foot(t1, L - 1, t1[e.frame], ENTRIES)|)
    requires r.NotSupported? ==> HasBig(t1, L - 1, t1[e.frame], ENTRIES)
    ensures Paid(r, free0, free2, |EntryFoot(t0, L, e)|)
    ensures r.NotSupported? ==> HasBig(t0, L, [e], 1)
  {
    hide Tree, Foot, EntryTree, EntryFoot, HasBig, Paid;
    TableEntry(t0, L, e);
    TreeFrame(t0, t1, L - 1, t0[e.frame], ENTRIES);
    PaidTable(r, free0, table, free2, t0, L, e);
    if r.NotSupported? {
      BigFrame(t0, t1, L - 1, t0[e.frame], ENTRIES);
      BigBelow(t0, L, e);
    }
  }

  lemma OwnsFrame(t: Tables, L: nat, e: Entry)
    requires IsTable(L, e)
    ensures |EntryFoot(t, L, e)| > 0 && Paid(NoMemory, {}, {}, |EntryFoot(t, L, e)|)
  {
    assert e.frame in EntryFoot(t, L, e);
  }

  /** One frame for the root, and then the user half. */
  lemma ForkOutcome(r: Status, t0: Tables, t1: Tables, free0: set<nat>, child: nat, free: set<nat>, L: nat, es: seq<Entry>, n: nat)
    requires n <= |es| && Tree(t0, L, es, n) && SameOn(t0, t1, Foot(t0, L, es, n)) && child in free0
    requires Paid(r, free0 - {child}, free, |Foot(t1, L, es, n)|) && (r.NotSupported? ==> HasBig(t1, L, es, n))
    ensures r.Ok? ==> |free0| > |Foot(t0, L, es, n)|
    ensures r.NoMemory? ==> |free0| <= |Foot(t0, L, es, n)|
    ensures r.NotSupported? ==> HasBig(t0, L, es, n)
  {
    hide Tree, Foot, HasBig;
    assert free0 == free0 - {child} + {child};
    TreeFrame(t0, t1, L, es, n);
    if r.NotSupported? { BigFrame(t0, t1, L, es, n); }
  }

  lemma Settled(r: Status, t: Tables, L: nat, es: seq<Entry>, n: nat, i: nat, free0: set<nat>, free: set<nat>)
    requires i <= n <= |es| && Outcome(r, t, L, es, n, i, free0, free) && (r.Ok? ==> i == n)
    ensures Paid(r, free0, free, |Foot(t, L, es, n)|) && (r.NotSupported? ==> HasBig(t, L, es, n))
  {}

  lemma SizesAdd(a: set<nat>, b: set<nat>)
    requires a !! b
    ensures |a + b| == |a| + |b|
  {}

  lemma SizesOrdered(a: set<nat>, b: set<nat>)
    requires a <= b
    ensures |a| <= |b|
  {
    assert b == a + (b - a);
  }

  class Memory {
    var tables: Tables
    var data: map<nat, Bytes>
    /** Frames of the kernel pool, and those of them the buddy can hand out. */
    const pool: set<nat>
    var free: set<nat>
    /** Every frame number passed to FreeBuddy, with multiplicity. */
    ghost var released: multiset<nat>
    /** Paging levels, and the entries of a root table that belong to user space. */
    const levels: nat
    const userEntries: nat
    /** The kernel's own root table, whose upper half every address space shares. */
    const kernelRoot: nat

    ghost predicate Valid() reads this {
      free <= pool && 0 !in pool && levels >= 1 && userEntries <= ENTRIES
    }

    constructor (pool: set<nat>, kernelRoot: nat, kernelEntries: seq<Entry>)
      requires 0 !in pool && |kernelEntries| == ENTRIES
      ensures Valid() && free == pool == this.pool && released == multiset{}
      ensures levels == 4 && userEntries == 256 && this.kernelRoot == kernelRoot
      ensures tables == map[kernelRoot := kernelEntries]
    {
      this.pool, free, data, released := pool, pool, map[], multiset{};
      this.kernelRoot, levels, userEntries := kernelRoot, 4, 256;
      tables := map[kernelRoot := kernelEntries];
    }

    /** RequestBuddy(PAGE_SIZE): some free frame, or null (0) when there is none. */
    method RequestPage() returns (f: nat)
      requires Valid()
      modifies this`free
      ensures Valid()
      ensures f == 0 ==> free == old(free) == {}
      ensures f != 0 ==> f in old(free) && free == old(free) - {f}
    {
      if free == {} { return 0; }
      f :| f in free;
      free := free - {f};
    }

    /** FreeBuddy: ignored unless the frame is allocated from the pool. */
    method FreePage(f: nat)
      requires Valid()
      modifies this`free, this`released
      ensures Valid() && released == old(released) + multiset{f}
      ensures free == if f in pool then old(free) + {f} else old(free)
    {
      if f in pool { free := free + {f}; }
      released := released + multiset{f};
    }

    /** Copy the first n entries of table p (level L) into the cleared table c. */
    method CloneEntries(L: nat, p: nat, c: nat, n: nat) returns (r: Status)
      requires Valid() && L >= 1 && p != c && p in tables && c in tables
      requires |tables[p]| == |tables[c]| == ENTRIES && n <= ENTRIES && BlankTo(tables[c], n)
      requires Tree(tables, L, tables[p], n) && Foot(tables, L, tables[p], n) !! free
      requires p !in free && c !in free && c !in Foot(tables, L, tables[p], n)
      modifies this`tables, this`data, this`free
      ensures Valid() && free <= old(free)
      ensures TablesKept(old(tables), tables, Taken(old(free), free) + {c})
      ensures DataKept(old(data), data, Taken(old(free), free))
      ensures c in tables && |tables[c]| == ENTRIES && tables[c][n..] == old(tables[c])[n..]
      ensures Tree(tables, L, tables[c], n) && Foot(tables, L, tables[c], n) == Taken(old(free), free)
      ensures r.Ok? ==> Copied(tables, data, L, tables[p], tables[c], n)
      ensures Paid(r, old(free), free, |old(Foot(tables, L, tables[p], n))|)
      ensures r.NotSupported? ==> old(HasBig(tables, L, tables[p], n))
      decreases L, 1, 1
    {
      hide Tree, Foot, Copied, EntryTree, EntryFoot, EntryCopied, Paid, HasBig, Outcome;
      ghost var t0, d0, free0 := tables, data, free;
      var i := 0;
      r := Ok;
      NothingCloned(tables, data, L, tables[p], tables[c]);
      NothingPaid(tables, L, tables[p], n, free);
      while i < n && r.Ok?
        invariant 0 <= i <= n
        invariant Cloning(L, p, c, n, i, t0, d0, free0)
        invariant r.Ok? ==> Copied(tables, data, L, tables[p], tables[c], i)
        invariant Outcome(r, t0, L, t0[p], n, i, free0, free)
        decreases n - i, r.Ok?
      {
        r := CloneNext(L, p, c, n, i, t0, d0, free0);
        i := i + 1;
      }
      AbsentTail(tables, L, tables[c], i, n);
      Settled(r, t0, L, t0[p], n, i, free0, free);
    }

    /** What the clone loop keeps after i entries. */
    ghost predicate Cloning(L: nat, p: nat, c: nat, n: nat, i: nat, t0: Tables, d0: map<nat, Bytes>, free0: set<nat>)
      requires i <= n <= ENTRIES
      reads this
    {
      && Valid() && free <= free0 && p in t0 && c in t0 && |t0[p]| == |t0[c]| == ENTRIES && p != c
      && p !in free0 && c !in free0
      && Tree(t0, L, t0[p], n) && Foot(t0, L, t0[p], n) !! free0 && c !in Foot(t0, L, t0[p], n)
      && TablesKept(t0, tables, Taken(free0, free) + {c})
      && DataKept(d0, data, Taken(free0, free))
      && c in tables && |tables[c]| == ENTRIES && tables[c][n..] == t0[c][n..]
      && (forall k :: i <= k < n ==> tables[c][k] == ZERO)
      && Tree(tables, L, tables[c], i) && Foot(tables, L, tables[c], i) == Taken(free0, free)
    }

    method CloneNext(L: nat, p: nat, c: nat, ghost n: nat, i: nat, ghost t0: Tables, ghost d0: map<nat, Bytes>, ghost free0: set<nat>)
      returns (r: Status)
      requires L >= 1 && i < n <= ENTRIES && Cloning(L, p, c, n, i, t0, d0, free0) && p in tables && |tables[p]| == ENTRIES
      requires Copied(tables, data, L, tables[p], tables[c], i) && Outcome(Ok, t0, L, t0[p], n, i, free0, free)
      modifies this`tables, this`data, this`free
      ensures Cloning(L, p, c, n, i + 1, t0, d0, free0) && p in tables && |tables[p]| == ENTRIES
      ensures r.Ok? ==> Copied(tables, data, L, tables[p], tables[c], i + 1)
      ensures Outcome(r, t0, L, t0[p], n, i + 1, free0, free)
      decreases L, 1, 0
    {
      hide Tree, Foot, Copied, EntryTree, EntryFoot, EntryCopied, Paid, HasBig, Outcome;
      ghost var t1, d1, free1 := tables, data, free;
      ParentKept(L, p, c, n, i, t0, d0, free0);
      r := CloneEntry(L, tables[p][i], c, i);
      ghost var x := Taken(free1, free);
      KeptTwice(t0, t1, tables, d0, d1, data, free0, free1, free, c);
      ExtendClone(L, t1, tables, t1[c], i, tables[c][i], c, x);
      if r.Ok? { ExtendCopy(L, t1, d1, tables, data, t0[p], t1[c], i, tables[c][i], c, x); }
      EntryOutcome(r, L, t0, t1, free0, free1, free, t0[p], n, i);
    }

    lemma ParentKept(L: nat, p: nat, c: nat, n: nat, i: nat, t0: Tables, d0: map<nat, Bytes>, free0: set<nat>)
      requires i < n <= ENTRIES && Cloning(L, p, c, n, i, t0, d0, free0)
      ensures p in tables && tables[p] == t0[p]
      ensures Tree(tables, L, t0[p], i) && Foot(tables, L, t0[p], i) !! free0 && c !in Foot(tables, L, t0[p], i)
      ensures EntryTree(tables, L, t0[p][i]) && EntryFoot(tables, L, t0[p][i]) !! free0
      ensures c !in EntryFoot(tables, L, t0[p][i])
    {
      TreeFrame(t0, tables, L, t0[p], n);
      TreeShorten(tables, L, t0[p], i, n);
      EntryInFoot(tables, L, t0[p], n, i);
    }

    /** Copy entry e of level L into slot i of table c. */
    method CloneEntry(L: nat, e: Entry, c: nat, i: nat) returns (r: Status)
      requires Valid() && L >= 1 && c in tables && |tables[c]| == ENTRIES && i < ENTRIES && tables[c][i] == ZERO
      requires EntryTree(tables, L, e) && EntryFoot(tables, L, e) !! free
      requires c !in free && c !in EntryFoot(tables, L, e)
      modifies this`tables, this`data, this`free
      ensures Valid() && free <= old(free)
      ensures TablesKept(old(tables), tables, Taken(old(free), free) + {c})
      ensures DataKept(old(data), data, Taken(old(free), free))
      ensures c in tables && |tables[c]| == ENTRIES && tables[c] == old(tables[c])[i := tables[c][i]]
      ensures EntryTree(tables, L, tables[c][i]) && EntryFoot(tables, L, tables[c][i]) == Taken(old(free), free)
      ensures r.Ok? ==> EntryCopied(tables, data, L, e, tables[c][i])
      ensures Paid(r, old(free), free, |old(EntryFoot(tables, L, e))|)
      ensures r.NotSupported? ==> old(HasBig(tables, L, [e], 1))
      decreases L, 0
    {
      r := Ok;
      if !e.present { return; }
      if L > 1 {
        if (L == 2 || L == 3) && e.big {
          BigEntry(tables, L, e);
          return NotSupported;
        }
        r := CloneSubtree(L, e, c, i);
      } else if e.pcd {
        tables := tables[c := tables[c][i := e]];
      } else {
        r := ClonePage(e, c, i);
      }
    }

    /** Copy the page of leaf e into a frame of its own. */
    method ClonePage(e: Entry, c: nat, i: nat) returns (r: Status)
      requires Valid() && c in tables && |tables[c]| == ENTRIES && i < ENTRIES && tables[c][i] == ZERO
      requires OwnsLeaf(1, e) && e.frame !in free && c !in free
      modifies this`tables, this`data, this`free
      ensures Valid() && free <= old(free)
      ensures TablesKept(old(tables), tables, Taken(old(free), free) + {c})
      ensures DataKept(old(data), data, Taken(old(free), free))
      ensures c in tables && |tables[c]| == ENTRIES && tables[c] == old(tables[c])[i := tables[c][i]]
      ensures EntryTree(tables, 1, tables[c][i]) && EntryFoot(tables, 1, tables[c][i]) == Taken(old(free), free)
      ensures r.Ok? ==> EntryCopied(tables, data, 1, e, tables[c][i])
      ensures Paid(r, old(free), free, 1) && !r.NotSupported?
    {
      r := Ok;
      var page := RequestPage();
      if page == 0 { return NoMemory; }
      data := data[page := DataAt(data, e.frame)];
      tables := tables[c := tables[c][i := e.(frame := page)]];
      assert old(free) == free + {page};
    }

    method CloneSubtree(L: nat, e: Entry, c: nat, i: nat) returns (r: Status)
      requires Valid() && L > 1 && c in tables && |tables[c]| == ENTRIES && i < ENTRIES && tables[c][i] == ZERO
      requires IsTable(L, e) && EntryTree(tables, L, e) && EntryFoot(tables, L, e) !! free
      requires c !in free && c !in EntryFoot(tables, L, e)
      modifies this`tables, this`data, this`free
      ensures Valid() && free <= old(free)
      ensures TablesKept(old(tables), tables, Taken(old(free), free) + {c})
      ensures DataKept(old(data), data, Taken(old(free), free))
      ensures c in tables && |tables[c]| == ENTRIES && tables[c] == old(tables[c])[i := tables[c][i]]
      ensures EntryTree(tables, L, tables[c][i]) && EntryFoot(tables, L, tables[c][i]) == Taken(old(free), free)
      ensures r.Ok? ==> EntryCopied(tables, data, L, e, tables[c][i])
      ensures Paid(r, old(free), free, |old(EntryFoot(tables, L, e))|)
      ensures r.NotSupported? ==> old(HasBig(tables, L, [e], 1))
      decreases L - 1, 2
    {
      hide Tree, Foot, Copied, EntryTree, EntryFoot, EntryCopied, TablesKept, DataKept, Paid, HasBig;
      ghost var t0, d0, free0 := tables, data, free;
      var table := RequestPage();
      if table == 0 {
        AbsentEntry(tables, L, tables[c][i]);
        NothingTaken(t0, d0, free0, c);
        OwnsFrame(tables, L, e);
        return NoMemory;
      }
      tables := tables[table := seq(ENTRIES, _ => ZERO)];
      tables := tables[c := tables[c][i := e.(frame := table)]];
      ghost var t1, free1 := tables, free;
      TwoWritten(t0, t1, table, c);
      TableLinked(t0, free0, t1, L, e, c, i, table);
      r := CloneEntries(L - 1, e.frame, table, ENTRIES);
      SubtreeCloned(t0, d0, free0, t1, free1, tables, data, free, L, e, c, i, table);
      if r.Ok? { TableCopied(tables, data, L, e, tables[c][i]); }
      SubtreeOutcome(r, L, t0, t1, free0, table, free, e);
    }

    // ---- teardown ---------------------------------------------------------------

    /** What the teardown loop keeps after i entries: exactly their frames were released, once each. */
    ghost predicate Freeing(L: nat, f: nat, n: nat, i: nat, t0: Tables, free0: set<nat>, released0: multiset<nat>)
      requires i <= n <= ENTRIES
      reads this
    {
      && Valid() && f in t0 && |t0[f]| == ENTRIES
      && Tree(t0, L, t0[f], n) && Foot(t0, L, t0[f], n) !! free0
      && f !in Foot(t0, L, t0[f], n)
      && free == free0 + Foot(t0, L, t0[f], i) * pool
      && released == released0 + multiset(Foot(t0, L, t0[f], i))
      && TablesKept(t0, tables, Foot(t0, L, t0[f], i) + {f})
      && f in tables && |tables[f]| == ENTRIES && tables[f][i..] == t0[f][i..] && AbsentTo(tables[f], i)
    }

    /** Release everything the first n entries of table f own, and clear them. */
    method FreeEntries(L: nat, f: nat, n: nat)
      requires Valid() && L >= 1 && f in tables && |tables[f]| == ENTRIES && n <= ENTRIES
      requires Tree(tables, L, tables[f], n) && Foot(tables, L, tables[f], n) !! free
      requires f !in Foot(tables, L, tables[f], n)
      modifies this`tables, this`free, this`released
      ensures Freeing(L, f, n, n, old(tables), old(free), old(released))
      decreases L, 1, 1
    {
      hide Tree, Foot, EntryTree, EntryFoot;
      ghost var t0, free0, released0 := tables, free, released;
      NothingCloned(tables, data, L, tables[f], tables[f]);
      var i := 0;
      while i < n
        invariant 0 <= i <= n && Freeing(L, f, n, i, t0, free0, released0)
      {
        FreeNext(L, f, n, i, t0, free0, released0);
        i := i + 1;
      }
    }

    method FreeNext(L: nat, f: nat, ghost n: nat, i: nat, ghost t0: Tables, ghost free0: set<nat>, ghost released0: multiset<nat>)
      requires L >= 1 && i < n <= ENTRIES && Freeing(L, f, n, i, t0, free0, released0)
      modifies this`tables, this`free, this`released
      ensures Freeing(L, f, n, i + 1, t0, free0, released0)
      decreases L, 1, 0
    {
      hide Tree, Foot, EntryTree, EntryFoot;
      NextToFree(L, f, n, i, t0, free0, released0);
      assert tables[f][i..][0] == t0[f][i..][0];
      FreeEntry(L, f, i);
      FreedOne(L, t0, t0[f], n, i);
      assert tables[f][i + 1..] == t0[f][i + 1..] by {
        assert t0[f][i + 1..] == t0[f][i..][1..];
      }
    }

    lemma NextToFree(L: nat, f: nat, n: nat, i: nat, t0: Tables, free0: set<nat>, released0: multiset<nat>)
      requires i < n <= ENTRIES && Freeing(L, f, n, i, t0, free0, released0)
      ensures tables[f][i] == t0[f][i]
      ensures EntryTree(tables, L, t0[f][i]) && EntryFoot(tables, L, t0[f][i]) == EntryFoot(t0, L, t0[f][i])
      ensures EntryFoot(t0, L, t0[f][i]) !! free
      ensures f !in EntryFoot(t0, L, t0[f][i])
    {
      assert tables[f][i..][0] == t0[f][i..][0];
      TreeShorten(t0, L, t0[f], i + 1, n);
      EntryInFoot(t0, L, t0[f], n, i);
      EntryFrame(t0, tables, L, t0[f][i]);
    }

    /** Release what entry i of table f owns, and clear it. */
    method FreeEntry(L: nat, f: nat, i: nat)
      requires Valid() && L >= 1 && f in tables && |tables[f]| == ENTRIES && i < ENTRIES
      requires EntryTree(tables, L, tables[f][i]) && EntryFoot(tables, L, tables[f][i]) !! free
      requires f !in EntryFoot(tables, L, tables[f][i])
      modifies this`tables, this`free, this`released
      ensures Valid() && free == old(free) + EntryFoot(old(tables), L, old(tables[f][i])) * pool
      ensures released == old(released) + multiset(EntryFoot(old(tables), L, old(tables[f][i])))
      ensures TablesKept(old(tables), tables, EntryFoot(old(tables), L, old(tables[f][i])) + {f})
      ensures f in tables && |tables[f]| == ENTRIES && !tables[f][i].present
      ensures tables[f] == old(tables[f])[i := tables[f][i]]
      decreases L, 0
    {
      var e := tables[f][i];
      if !e.present { return; }
      if L <= 1 || ((L == 2 || L == 3) && e.big) {
        if L > 1 || !e.pcd { FreePage(e.frame); }
        tables := tables[f := tables[f][i := ZERO]];
      } else {
        FreeSubtree(L, f, i, e);
      }
    }

    method FreeSubtree(L: nat, f: nat, i: nat, e: Entry)
      requires Valid() && L > 1 && f in tables && |tables[f]| == ENTRIES && i < ENTRIES && tables[f][i] == e
      requires IsTable(L, e) && EntryTree(tables, L, e) && EntryFoot(tables, L, e) !! free
      requires f !in EntryFoot(tables, L, e)
      modifies this`tables, this`free, this`released
      ensures Valid() && free == old(free) + EntryFoot(old(tables), L, e) * pool
      ensures released == old(released) + multiset(EntryFoot(old(tables), L, e))
      ensures TablesKept(old(tables), tables, EntryFoot(old(tables), L, e) + {f})
      ensures f in tables && tables[f] == old(tables[f])[i := ZERO]
      decreases L - 1, 2
    {
      assert e.frame in tables && |tables[e.frame]| == ENTRIES;
      hide Tree, Foot, EntryTree, EntryFoot;
      TableEntry(tables, L, e);
      ghost var t0, free0, rel0, x := tables, free, released, Foot(tables, L - 1, tables[e.frame], ENTRIES);
      FreeEntries(L - 1, e.frame, ENTRIES);
      FreePage(e.frame);
      OneMore(free0, x, pool, e.frame, rel0);
      tables := tables[f := tables[f][i := ZERO]];
    }

    lemma OneMore(free0: set<nat>, x: set<nat>, p: set<nat>, g: nat, rel0: multiset<nat>)
      requires g !in x
      ensures free0 + x * p + {g} * p == free0 + ({g} + x) * p
      ensures rel0 + multiset(x) + multiset{g} == rel0 + multiset({g} + x)
    {}

    // ---- address spaces -----------------------------------------------------------

    /** Root table r holds a user address space whose frames are allocated, each owned once. */
    ghost predicate IsSpace(r: nat)
      reads this
    {
      && Valid() && r in tables && |tables[r]| == ENTRIES && r !in free
      && Tree(tables, levels, tables[r], userEntries)
      && UserFoot(r) !! free && r !in UserFoot(r)
    }

    /** The frames the user half of root table r owns. */
    ghost function UserFoot(r: nat): set<nat>
      requires r in tables && userEntries <= |tables[r]|
      reads this
    {
      Foot(tables, levels, tables[r], userEntries)
    }

    /** A fresh root table: empty user half, the kernel's upper half. */
    method CloneKernelRoot() returns (root: nat)
      requires Valid() && kernelRoot in tables && |tables[kernelRoot]| == ENTRIES && kernelRoot !in free
      modifies this`tables, this`free
      ensures Valid()
      ensures root == 0 ==> free == {} && free == old(free) && tables == old(tables)
      ensures root != 0 ==> root in old(free) && free == old(free) - {root}
      ensures root != 0 ==>
                && root in tables && |tables[root]| == ENTRIES && tables == old(tables)[root := tables[root]]
                && BlankTo(tables[root], userEntries)
                && tables[root][userEntries..] == old(tables[kernelRoot])[userEntries..]
    {
      root := RequestPage();
      if root == 0 { return; }
      var kernel := tables[kernelRoot];
      tables := tables[root := seq(ENTRIES, i requires 0 <= i < ENTRIES => if i < userEntries then ZERO else kernel[i])];
    }

    /** Fork: on success the child is a copy in fresh frames; on failure nothing stays allocated. */
    method CloneUser(parent: nat) returns (r: Status, child: nat)
      requires IsSpace(parent) && kernelRoot in tables && |tables[kernelRoot]| == ENTRIES && kernelRoot !in free
      modifies this`tables, this`data, this`free, this`released
      ensures Valid() && TablesKept(old(tables), tables, old(free)) && DataKept(old(data), data, old(free))
      ensures r.Ok? ==>
                && IsSpace(child) && child in old(free) && UserFoot(child) <= old(free)
                && free == old(free) - ({child} + UserFoot(child)) && released == old(released)
                && parent in tables && |tables[parent]| == ENTRIES
                && Copied(tables, data, levels, tables[parent], tables[child], userEntries)
                && tables[child][userEntries..] == old(tables[kernelRoot])[userEntries..]
      ensures !r.Ok? ==> free == old(free) && ReleasedOnce(old(released), released, old(free))
      ensures r.Ok? ==> |old(free)| > |old(UserFoot(parent))|
      ensures r.NoMemory? ==> |old(free)| <= |old(UserFoot(parent))|
      ensures r.NotSupported? ==> old(HasBig(tables, levels, tables[parent], userEntries))
    {
      hide Tree, Foot, Copied, EntryTree, EntryFoot, EntryCopied, ReleasedOnce, HasBig, Paid;
      child := CloneKernelRoot();
      if child == 0 {
        NoneReleased(released, free);
        return NoMemory, 0;
      }
      TreeFrame(old(tables), tables, levels, tables[parent], userEntries);
      ghost var t1 := tables;
      r := FillChild(parent, child);
      ForkOutcome(r, old(tables), t1, old(free), child, free, levels, old(tables[parent]), userEntries);
      if !r.Ok? { Abandon(child, old(free)); }
    }

    /** Copy the user half of parent below the fresh root child. */
    method FillChild(parent: nat, child: nat) returns (r: Status)
      requires IsSpace(parent) && child != parent && child in tables && child in pool && child !in free
      requires |tables[child]| == ENTRIES && BlankTo(tables[child], userEntries) && child !in UserFoot(parent)
      modifies this`tables, this`data, this`free
      ensures IsSpace(child) && free <= old(free) && UserFoot(child) == old(free) - free
      ensures TablesKept(old(tables), tables, UserFoot(child) + {child}) && DataKept(old(data), data, UserFoot(child))
      ensures tables[child][userEntries..] == old(tables[child])[userEntries..]
      ensures parent in tables && tables[parent] == old(tables[parent])
      ensures r.Ok? ==> Copied(tables, data, levels, tables[parent], tables[child], userEntries)
      ensures Paid(r, old(free), free, |old(UserFoot(parent))|)
      ensures r.NotSupported? ==> old(HasBig(tables, levels, tables[parent], userEntries))
    {
      hide Tree, Foot, Copied, EntryTree, EntryFoot, EntryCopied;
      r := CloneEntries(levels, parent, child, userEntries);
    }

    /** Discarding a space that was built from free frames gives back exactly those, once each. */
    method Abandon(root: nat, ghost free0: set<nat>)
      requires IsSpace(root) && free0 <= pool && {root} + UserFoot(root) <= free0 && free == free0 - ({root} + UserFoot(root))
      modifies this`tables, this`free, this`released
      ensures Valid() && free == free0 && TablesKept(old(tables), tables, free0)
      ensures ReleasedOnce(old(released), released, free0)
    {
      hide Tree, Foot, EntryTree, EntryFoot, ReleasedOnce;
      OnceEach(released, UserFoot(root) + {root}, free0);
      DiscardSpace(root);
    }

    method DiscardSpace(root: nat)
      requires IsSpace(root)
      modifies this`tables, this`free, this`released
      ensures Valid() && free == old(free) + (old(UserFoot(root)) + {root}) * pool
      ensures released == old(released) + multiset(old(UserFoot(root)) + {root})
      ensures TablesKept(old(tables), tables, old(UserFoot(root)) + {root})
    {
      hide Tree, Foot, EntryTree, EntryFoot;
      FreeUser(root);
      FreePage(root);
    }

    /** Teardown of a user half: every frame it owns is released exactly once. */
    method FreeUser(root: nat)
      requires IsSpace(root)
      modifies this`tables, this`free, this`released
      ensures Valid() && free == old(free) + old(UserFoot(root)) * pool
      ensures released == old(released) + multiset(old(UserFoot(root)))
      ensures TablesKept(old(tables), tables, old(UserFoot(root)) + {root})
      ensures root in tables && |tables[root]| == ENTRIES && AbsentTo(tables[root], userEntries)
    {
      hide Tree, Foot, EntryTree, EntryFoot;
      FreeEntries(levels, root, userEntries);
    }

    /** Exit after fork: the allocated frames are exactly those before the fork. */
    method ForkThenExit(parent: nat) returns (r: Status)
      requires IsSpace(parent) && kernelRoot in tables && |tables[kernelRoot]| == ENTRIES && kernelRoot !in free
      modifies this`tables, this`data, this`free, this`released
      ensures Valid() && free == old(free) && TablesKept(old(tables), tables, old(free))
      ensures ReleasedOnce(old(released), released, old(free))
    {
      hide Tree, Foot, Copied, EntryTree, EntryFoot, EntryCopied, ReleasedOnce;
      var child;
      r, child := CloneUser(parent);
      if r.Ok? { Abandon(child, old(free)); }
    }
  }

  /** The footprint of one more entry, as a set and as a multiset. */
  lemma FreedOne(L: nat, t: Tables, es: seq<Entry>, n: nat, i: nat)
    requires i < n <= |es| && Tree(t, L, es, n)
    ensures Foot(t, L, es, i + 1) == Foot(t, L, es, i) + EntryFoot(t, L, es[i])
    ensures multiset(Foot(t, L, es, i + 1)) == multiset(Foot(t, L, es, i)) + multiset(EntryFoot(t, L, es[i]))
  {
    TreeShorten(t, L, es, i + 1, n);
  }
}
