/** Doubly linked lists threaded through shared next and prev fields, and what each update spells. */
module LinkedLists {
  import opened Options
  import opened Sequences

  type Id = nat

  function At(q: seq<Id>, i: int): Option<Id> {
    if 0 <= i < |q| then Some(q[i]) else None
  }

  /** The links of the i-th task of q lead to its neighbours. */
  ghost predicate Linked(next: map<Id, Option<Id>>, prev: map<Id, Option<Id>>, q: seq<Id>, i: nat)
    requires i < |q|
  {
    q[i] in next && q[i] in prev && next[q[i]] == At(q, i + 1) && prev[q[i]] == At(q, i - 1)
  }

  ghost predicate Spells(head: Option<Id>, tail: Option<Id>, next: map<Id, Option<Id>>,
                         prev: map<Id, Option<Id>>, q: seq<Id>)
  {
    && NoDup(q) && head == At(q, 0) && tail == At(q, |q| - 1)
    && forall i: nat :: i < |q| ==> Linked(next, prev, q, i)
  }

  lemma Appended(q: seq<Id>, t: Id, n0: map<Id, Option<Id>>, p0: map<Id, Option<Id>>,
                 next: map<Id, Option<Id>>, prev: map<Id, Option<Id>>)
    requires Spells(At(q, 0), At(q, |q| - 1), n0, p0, q) && t !in q
    requires prev == p0[t := At(q, |q| - 1)]
    requires next == if q == [] then n0[t := None] else n0[t := None][q[|q| - 1] := Some(t)]
    ensures Spells(At(q + [t], 0), Some(t), next, prev, q + [t])
  {
    PushMembers(q, t);
    forall i: nat | i < |q + [t]| ensures Linked(next, prev, q + [t], i) {
      if i < |q| { assert Linked(n0, p0, q, i); }
    }
  }

  lemma Popped(q: seq<Id>, n0: map<Id, Option<Id>>, p0: map<Id, Option<Id>>,
               next: map<Id, Option<Id>>, prev: map<Id, Option<Id>>)
    requires q != [] && Spells(At(q, 0), At(q, |q| - 1), n0, p0, q)
    requires next == n0[q[0] := None]
    requires prev == (if |q| > 1 then p0[q[1] := None] else p0)[q[0] := None]
    ensures Spells(At(q, 1), if |q| > 1 then At(q, |q| - 1) else None, next, prev, q[1..])
  {
    PopMembers(q);
    forall i: nat | i < |q[1..]| ensures Linked(next, prev, q[1..], i) {
      assert Linked(n0, p0, q, i + 1);
    }
  }

  /** Only links of tasks in x changed, and none of those is in q. */
  lemma Untouched(q: seq<Id>, x: set<Id>, n0: map<Id, Option<Id>>, p0: map<Id, Option<Id>>,
                  next: map<Id, Option<Id>>, prev: map<Id, Option<Id>>)
    requires Spells(At(q, 0), At(q, |q| - 1), n0, p0, q)
    requires forall t :: t in q ==> t !in x
    requires forall t :: t in n0 && t !in x ==> t in next && next[t] == n0[t]
    requires forall t :: t in p0 && t !in x ==> t in prev && prev[t] == p0[t]
    ensures Spells(At(q, 0), At(q, |q| - 1), next, prev, q)
  {
    forall i: nat | i < |q| ensures Linked(next, prev, q, i) { assert Linked(n0, p0, q, i) && q[i] in q; }
  }

  /** Unlinking the k-th node. */
  lemma Excised(q: seq<Id>, k: nat, n0: map<Id, Option<Id>>, p0: map<Id, Option<Id>>,
                next: map<Id, Option<Id>>, prev: map<Id, Option<Id>>)
    requires Spells(At(q, 0), At(q, |q| - 1), n0, p0, q) && k < |q|
    requires next == if k > 0 then n0[q[k - 1] := At(q, k + 1)] else n0
    requires prev == if k + 1 < |q| then p0[q[k + 1] := At(q, k - 1)] else p0
    ensures var r := q[..k] + q[k + 1..];
            Spells(At(r, 0), At(r, |r| - 1), next, prev, r)
  {
    var r := q[..k] + q[k + 1..];
    forall i: nat | i < |r| ensures Linked(next, prev, r, i) {
      assert Linked(n0, p0, q, if i < k then i else i + 1);
    }
  }

  // ---- singly linked chains -------------------------------------------------------------------------

  ghost predicate ChainLink(next: map<Id, Option<Id>>, q: seq<Id>, i: nat)
    requires i < |q|
  {
    q[i] in next && next[q[i]] == At(q, i + 1)
  }

  /** Following next from `first` visits q, node by node. */
  ghost predicate ChainSpells(first: Option<Id>, next: map<Id, Option<Id>>, q: seq<Id>) {
    NoDup(q) && first == At(q, 0) && forall i: nat :: i < |q| ==> ChainLink(next, q, i)
  }

  /** A link that belongs to no node of q. */
  lemma ChainOther(first: Option<Id>, next: map<Id, Option<Id>>, q: seq<Id>, x: Id, v: Option<Id>)
    requires ChainSpells(first, next, q) && x !in q
    ensures ChainSpells(first, next[x := v], q)
  {
    var n := next[x := v];
    forall i: nat | i < |q| ensures ChainLink(n, q, i) { assert ChainLink(next, q, i) && q[i] in q; }
  }

  function InsertLinks(next: map<Id, Option<Id>>, q: seq<Id>, k: nat, t: Id): map<Id, Option<Id>>
    requires k <= |q|
  {
    var n := next[t := At(q, k)];
    if k > 0 then n[q[k - 1] := Some(t)] else n
  }

  /** Linking t before the k-th node. */
  lemma ChainInserted(first: Option<Id>, next: map<Id, Option<Id>>, q: seq<Id>, k: nat, t: Id)
    requires ChainSpells(first, next, q) && k <= |q| && t !in q
    ensures ChainSpells(if k > 0 then first else Some(t), InsertLinks(next, q, k, t), q[..k] + [t] + q[k..])
  {
    var r, n := q[..k] + [t] + q[k..], InsertLinks(next, q, k, t);
    InsertNoDup(q, k, t);
    forall i: nat | i < |r| ensures ChainLink(n, r, i) { InsertedLink(next, q, k, t, i); }
  }

  lemma InsertNoDup(q: seq<Id>, k: nat, t: Id)
    requires NoDup(q) && k <= |q| && t !in q
    ensures NoDup(q[..k] + [t] + q[k..])
  {}

  lemma InsertedLink(next: map<Id, Option<Id>>, q: seq<Id>, k: nat, t: Id, i: nat)
    requires NoDup(q) && k <= |q| && t !in q && i <= |q| && forall j: nat :: j < |q| ==> ChainLink(next, q, j)
    ensures ChainLink(InsertLinks(next, q, k, t), q[..k] + [t] + q[k..], i)
  {
    if i < k {
      assert ChainLink(next, q, i) && q[i] in q && q[k - 1] in q;
    } else if i > k {
      assert ChainLink(next, q, i - 1) && q[i - 1] in q;
      assert k > 0 ==> q[k - 1] != q[i - 1];
    } else {
      assert k > 0 ==> q[k - 1] in q;
    }
  }

  function CutLinks(next: map<Id, Option<Id>>, q: seq<Id>, k: nat): map<Id, Option<Id>>
    requires k < |q|
  {
    if k > 0 then next[q[k - 1] := At(q, k + 1)] else next
  }

  /** Unlinking the k-th node. */
  lemma ChainCut(first: Option<Id>, next: map<Id, Option<Id>>, q: seq<Id>, k: nat)
    requires ChainSpells(first, next, q) && k < |q|
    ensures ChainSpells(if k > 0 then first else At(q, 1), CutLinks(next, q, k), q[..k] + q[k + 1..])
  {
    var r, n := q[..k] + q[k + 1..], CutLinks(next, q, k);
    forall i: nat | i < |r| ensures ChainLink(n, r, i) {
      assert ChainLink(next, q, if i < k then i else i + 1);
    }
  }
}
