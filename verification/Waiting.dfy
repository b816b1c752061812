/**
 The exit/wait handshake. An exiting task detaches its children, tests its parent, and then
 lists itself and wakes the parent in one region under the zombie-list lock; a waiting parent
 rescans the list and parks in one region under the same lock.
 */
module Waiting {
  import opened Options
  import opened Sequences
  import opened Scheduler

  /** A successful wait of `parent` for `want`, 0 for any child, that returned `child` and its code. */
  datatype Claim = Claim(parent: Task, child: Task, code: nat, want: nat)

  datatype Family = Family(
    parent: map<Task, Task>,     // absent: no parent
    target: map<Task, nat>,      // wait_target, kept after the wait
    code: map<Task, nat>,        // exit_code
    zombies: seq<Task>,          // the zombie list from its head
    exiting: set<Task>,          // ZOMBIE, before the test of the parent
    publishing: set<Task>,       // past that test, before taking the list lock
    born: map<Task, Task>,       // history: the parent each task was created with,
    claims: seq<Claim>)          // and what every successful wait returned

  predicate Wanted(want: nat, z: Task) { want == 0 || want == z }

  function Target(f: Family, p: Task): nat { if p in f.target then f.target[p] else 0 }

  predicate Matches(f: Family, p: Task, want: nat, z: Task) {
    z in f.parent && f.parent[z] == p && Wanted(want, z)
  }

  /** The first zombie of p that `want` accepts. */
  function FirstMatch(f: Family, zs: seq<Task>, p: Task, want: nat): Option<Task> {
    if zs == [] then None
    else if Matches(f, p, want, zs[0]) then Some(zs[0])
    else FirstMatch(f, zs[1..], p, want)
  }

  lemma {:induction false} FirstMatchMeaning(f: Family, zs: seq<Task>, p: Task, want: nat)
    ensures match FirstMatch(f, zs, p, want)
            case None => forall z :: z in zs ==> !(z in f.parent && f.parent[z] == p && (want == 0 || want == z))
            case Some(z) => z in zs && z in f.parent && f.parent[z] == p && (want == 0 || want == z)
  {
    if zs != [] {
      FirstMatchMeaning(f, zs[1..], p, want);
      assert forall z :: z in zs ==> z == zs[0] || z in zs[1..];
    }
  }

  /** The walk along the list, which unlinks the entry it stops at. */
  method TakeLocked(f: Family, p: Task, want: nat) returns (taken: Option<Task>, rest: seq<Task>)
    ensures taken == FirstMatch(f, f.zombies, p, want)
    ensures rest == if taken.Some? then Remove(f.zombies, taken.value) else f.zombies
  {
    var i := 0;
    while i < |f.zombies|
      invariant i <= |f.zombies|
      invariant FirstMatch(f, f.zombies, p, want) == FirstMatch(f, f.zombies[i..], p, want)
      invariant forall j :: 0 <= j < i ==> !Matches(f, p, want, f.zombies[j])
    {
      if Matches(f, p, want, f.zombies[i]) {
        RemoveAt(f.zombies, f.zombies[i], i);
        return Some(f.zombies[i]), f.zombies[..i] + f.zombies[i + 1..];
      }
      assert f.zombies[i..][1..] == f.zombies[i + 1..];
      i := i + 1;
    }
    return None, f.zombies;
  }

  // ---- steps ---------------------------------------------------------------------------------

  function Fork(f: Family, p: Task, t: Task): Family {
    f.(parent := f.parent[t := p], born := f.born[t := p])
  }

  function ClaimZombie(f: Family, p: Task, want: nat, z: Task): Family
    requires z in f.code
  {
    f.(zombies := Remove(f.zombies, z), claims := f.claims + [Claim(p, z, f.code[z], want)])
  }

  /** The scan at the top of the wait loop. */
  function WaitScan(f: Family, p: Task, want: nat): Family {
    var z := FirstMatch(f, f.zombies, p, want);
    if z.Some? && z.value in f.code then ClaimZombie(f, p, want, z.value) else f
  }

  /** The rescan that parks under the list lock. */
  function WaitPark(s: Sched, f: Family, p: Task, want: nat): (Sched, Family) {
    var z := FirstMatch(f, f.zombies, p, want);
    if z.Some? && z.value in f.code then (s, ClaimZombie(f, p, want, z.value))
    else (Park(s, p, InWait), f.(target := f.target[p := want]))
  }

  /** task_exit up to the ZOMBIE mark: exit code, detached children. */
  function ExitMark(s: Sched, f: Family, t: Task, code: nat): (Sched, Family) {
    (Kill(s, t), f.(code := f.code[t := code], exiting := f.exiting + {t},
                    parent := map x | x in f.parent && f.parent[x] != t :: f.parent[x]))
  }

  function ExitTest(s: Sched, f: Family, t: Task): Family {
    if t in f.parent && !(f.parent[t] in s.state && s.state[f.parent[t]] == Zombie)
    then f.(exiting := f.exiting - {t}, publishing := f.publishing + {t})
    else f.(exiting := f.exiting - {t})
  }

  predicate ExitWakes(s: Sched, f: Family, t: Task)
    requires t in f.parent
  {
    var p := f.parent[t];
    p in s.state && s.state[p] == Blocked && Wanted(Target(f, p), t)
  }

  /** Listing the zombie and waking its parent, under the list lock. */
  function ExitPublish(s: Sched, f: Family, t: Task): (Sched, Family)
    requires t in f.parent
  {
    (if ExitWakes(s, f, t) then Wake(s, f.parent[t]) else s,
     f.(publishing := f.publishing - {t}, zombies := [t] + f.zombies))
  }

  // ---- the invariant ----------------------------------------------------------------------------

  /** z is dead, with its exit code recorded. */
  ghost predicate Dead(s: Sched, f: Family, z: Task) {
    z in s.state && s.state[z] == Zombie && z in f.code
  }

  ghost predicate Claimed(f: Family, z: Task) {
    exists i :: 0 <= i < |f.claims| && f.claims[i].child == z
  }

  ghost predicate ClaimOk(s: Sched, f: Family, i: nat)
    requires i < |f.claims|
  {
    var c := f.claims[i];
    && Dead(s, f, c.child) && f.code[c.child] == c.code && c.child in f.born && f.born[c.child] == c.parent
    && (c.want == 0 || c.want == c.child)
  }

  /** Dead tasks are at one stage each: leaving, about to be listed, listed, or claimed. */
  ghost predicate Stages(s: Sched, f: Family) {
    && (forall z :: z in f.exiting ==> Dead(s, f, z) && z !in f.publishing && z !in f.zombies && !Claimed(f, z))
    && (forall z :: z in f.publishing ==> Dead(s, f, z) && z !in f.zombies && !Claimed(f, z))
    && (forall z :: z in f.zombies ==> Dead(s, f, z) && !Claimed(f, z))
    && NoDup(f.zombies)
  }

  ghost predicate ClaimsOk(s: Sched, f: Family) {
    && (forall i: nat :: i < |f.claims| ==> ClaimOk(s, f, i))
    && (forall i, j :: 0 <= i < j < |f.claims| ==> f.claims[i].child != f.claims[j].child)
    && (forall z :: z in f.parent ==> z in f.born && f.born[z] == f.parent[z])
  }

  /** No parent is parked in a wait while a zombie it waits for is listed. */
  ghost predicate NoneMissed(s: Sched, f: Family) {
    forall p, z :: p in s.place && s.place[p] == InWait && z in f.zombies ==> !Matches(f, p, Target(f, p), z)
  }

  ghost predicate FamilyInv(s: Sched, f: Family) {
    Stages(s, f) && ClaimsOk(s, f) && NoneMissed(s, f)
  }

  lemma ForkKeeps(s: Sched, n: Sched, f: Family, p: Task, t: Task)
    requires FamilyInv(s, f) && t !in s.state
    requires n.place == s.place && (forall x :: x in s.state ==> x in n.state && n.state[x] == s.state[x])
    ensures FamilyInv(n, Fork(f, p, t))
  {
    var g := Fork(f, p, t);
    forall z | Dead(s, f, z) ensures Dead(n, g, z) {}
    forall i: nat | i < |g.claims| ensures ClaimOk(n, g, i) { assert ClaimOk(s, f, i); }
    forall z ensures Claimed(g, z) == Claimed(f, z) {}
    forall q, z | q in n.place && n.place[q] == InWait && z in g.zombies ensures !Matches(g, q, Target(g, q), z) {
      assert Dead(s, f, z) && !Matches(f, q, Target(f, q), z);
    }
  }

  lemma ClaimKeeps(s: Sched, f: Family, p: Task, want: nat, z: Task)
    requires FamilyInv(s, f) && z in f.zombies && z in f.code && Matches(f, p, want, z)
    ensures FamilyInv(s, ClaimZombie(f, p, want, z))
  {
    var g := ClaimZombie(f, p, want, z);
    RemoveMembers(f.zombies, z);
    var k := |f.claims|;
    assert g.claims[k] == Claim(p, z, f.code[z], want);
    assert !Claimed(f, z) && Dead(s, f, z);
    forall x | x != z ensures Claimed(g, x) == Claimed(f, x) { SameClaims(f, g, x); }
    forall x | Dead(s, f, x) ensures Dead(s, g, x) {}
    forall i: nat | i < |g.claims| ensures ClaimOk(s, g, i) {
      if i < k { assert ClaimOk(s, f, i) && g.claims[i] == f.claims[i]; }
    }
    forall i, j | 0 <= i < j < |g.claims| ensures g.claims[i].child != g.claims[j].child {
      assert g.claims[i] == f.claims[i];
    }
    forall q, x | q in s.place && s.place[q] == InWait && x in g.zombies ensures !Matches(g, q, Target(g, q), x) {
      assert !Matches(f, q, Target(f, q), x);
    }
  }

  lemma SameClaims(f: Family, g: Family, x: Task)
    requires |g.claims| == |f.claims| + 1 && g.claims[..|f.claims|] == f.claims && g.claims[|f.claims|].child != x
    ensures Claimed(g, x) == Claimed(f, x)
  {
    forall i | 0 <= i < |f.claims| ensures g.claims[i] == f.claims[i] { assert g.claims[..|f.claims|][i] == f.claims[i]; }
    if Claimed(f, x) {
      var i :| 0 <= i < |f.claims| && f.claims[i].child == x;
      assert g.claims[i].child == x;
    }
  }

  lemma ScanKeeps(s: Sched, f: Family, p: Task, want: nat)
    requires FamilyInv(s, f)
    ensures FamilyInv(s, WaitScan(f, p, want))
  {
    FirstMatchMeaning(f, f.zombies, p, want);
    var z := FirstMatch(f, f.zombies, p, want);
    if z.Some? {
      assert Dead(s, f, z.value);
      ClaimKeeps(s, f, p, want, z.value);
    }
  }

  lemma WaitParkKeeps(s: Sched, f: Family, p: Task, want: nat)
    requires FamilyInv(s, f) && p in s.state && s.state[p] == Running
    ensures FamilyInv(WaitPark(s, f, p, want).0, WaitPark(s, f, p, want).1)
  {
    FirstMatchMeaning(f, f.zombies, p, want);
    var z := FirstMatch(f, f.zombies, p, want);
    if z.Some? {
      assert Dead(s, f, z.value);
      ClaimKeeps(s, f, p, want, z.value);
    } else {
      var n, g := WaitPark(s, f, p, want).0, WaitPark(s, f, p, want).1;
      forall x | Dead(s, f, x) ensures Dead(n, g, x) {}
      forall x ensures Claimed(g, x) == Claimed(f, x) {}
      forall i: nat | i < |g.claims| ensures ClaimOk(n, g, i) { assert ClaimOk(s, f, i); }
      forall q, x | q in n.place && n.place[q] == InWait && x in g.zombies ensures !Matches(g, q, Target(g, q), x) {
        assert q != p ==> !Matches(f, q, Target(f, q), x);
      }
    }
  }

  lemma ExitMarkKeeps(s: Sched, f: Family, t: Task, code: nat)
    requires FamilyInv(s, f) && t in s.state && s.state[t] == Running
    ensures FamilyInv(ExitMark(s, f, t, code).0, ExitMark(s, f, t, code).1)
  {
    var n, g := ExitMark(s, f, t, code).0, ExitMark(s, f, t, code).1;
    assert !Dead(s, f, t);
    forall x | Dead(s, f, x) ensures Dead(n, g, x) {}
    forall x ensures Claimed(g, x) == Claimed(f, x) {}
    assert !Claimed(f, t) by {
      forall i: nat | i < |f.claims| ensures f.claims[i].child != t { assert ClaimOk(s, f, i); }
    }
    forall i: nat | i < |g.claims| ensures ClaimOk(n, g, i) { assert ClaimOk(s, f, i); }
    forall q, x | q in n.place && n.place[q] == InWait && x in g.zombies ensures !Matches(g, q, Target(g, q), x) {
      assert !Matches(f, q, Target(f, q), x);
    }
  }

  lemma ExitTestKeeps(s: Sched, f: Family, t: Task)
    requires FamilyInv(s, f) && t in f.exiting
    ensures FamilyInv(s, ExitTest(s, f, t))
  {
    var g := ExitTest(s, f, t);
    forall x | Dead(s, f, x) ensures Dead(s, g, x) {}
    forall x ensures Claimed(g, x) == Claimed(f, x) {}
    forall i: nat | i < |g.claims| ensures ClaimOk(s, g, i) { assert ClaimOk(s, f, i); }
    forall q, x | q in s.place && s.place[q] == InWait && x in g.zombies ensures !Matches(g, q, Target(g, q), x) {
      assert !Matches(f, q, Target(f, q), x);
    }
  }

  lemma ExitPublishKeeps(s: Sched, f: Family, t: Task)
    requires Inv(s) && FamilyInv(s, f) && t in f.publishing && t in f.parent
    ensures FamilyInv(ExitPublish(s, f, t).0, ExitPublish(s, f, t).1)
  {
    hide Inv, Stages, ClaimsOk, NoneMissed, ExitPublish;
    PublishStages(s, f, t);
    PublishClaims(s, f, t);
    PublishMissesNone(s, f, t);
  }

  lemma PublishStages(s: Sched, f: Family, t: Task)
    requires Stages(s, f) && t in f.publishing && t in f.parent
    ensures Stages(ExitPublish(s, f, t).0, ExitPublish(s, f, t).1)
  {
    var n, g := ExitPublish(s, f, t).0, ExitPublish(s, f, t).1;
    PushMembers(f.zombies, t);
    forall x | Dead(s, f, x) ensures Dead(n, g, x) {}
    forall x ensures Claimed(g, x) == Claimed(f, x) {}
    hide Dead, Claimed;
  }

  lemma PublishClaims(s: Sched, f: Family, t: Task)
    requires ClaimsOk(s, f) && t in f.parent
    ensures ClaimsOk(ExitPublish(s, f, t).0, ExitPublish(s, f, t).1)
  {
    var n, g := ExitPublish(s, f, t).0, ExitPublish(s, f, t).1;
    forall i: nat | i < |g.claims| ensures ClaimOk(n, g, i) { assert ClaimOk(s, f, i); }
  }

  lemma PublishMissesNone(s: Sched, f: Family, t: Task)
    requires Inv(s) && NoneMissed(s, f) && t in f.parent
    ensures NoneMissed(ExitPublish(s, f, t).0, ExitPublish(s, f, t).1)
  {
    var n, g := ExitPublish(s, f, t).0, ExitPublish(s, f, t).1;
    forall q, x | q in n.place && n.place[q] == InWait && x in g.zombies ensures !Matches(g, q, Target(g, q), x) {
      assert TaskOk(s, q);
      assert x != t ==> !Matches(f, q, Target(f, q), x);
    }
  }

  /** Steps that neither kill a task nor park one in a wait do not concern the handshake. */
  lemma FamilyFrame(s: Sched, n: Sched, f: Family)
    requires FamilyInv(s, f)
    requires forall x :: x in s.state && s.state[x] == Zombie ==> x in n.state && n.state[x] == Zombie
    requires forall q :: q in n.place && n.place[q] == InWait ==> q in s.place && s.place[q] == InWait
    ensures FamilyInv(n, f)
  {
    forall x | Dead(s, f, x) ensures Dead(n, f, x) {}
    forall i: nat | i < |f.claims| ensures ClaimOk(n, f, i) { assert ClaimOk(s, f, i); }
  }
}
