/**
 When a shootdown ends, and what it drops. A round can be brought to its end if and only if no
 CPU that still owes its acknowledgement waits for the lock with interrupts off; then it takes at
 most four steps for each CPU and five more. No translation is dropped that no call asked for.
 */
module TlbProgress {
  import opened Options
  import opened Words
  import opened TlbShootdown

  // ---- jams ---------------------------------------------------------------------------------

  /** CPU j will never acknowledge the round of h: it is inside a call of its own, with interrupts off. */
  predicate Jams(s: State, h: Cpu, j: Cpu) {
    && s.holder == Some(h) && j != h && h in s.pc && s.pc[h].In?
    && j in s.masked && j in s.pc && s.pc[j].In? && (s.pc[h].stage != Sent || j in s.ipi)
  }

  ghost predicate Jammed(s: State) { exists h, j :: Jams(s, h, j) }

  /** The round is under way and owed by j, whose own call is still outside the lock. */
  lemma JamFacts(s: State, h: Cpu, j: Cpu)
    requires Inv(s) && Jams(s, h, j)
    ensures s.pc[j].stage == Begun && (s.pc[h].stage == Sent ==> s.pending != 0)
    ensures forall i :: i in s.pc && s.pc[i].In? ==> (s.pc[i].stage != Begun <==> i == h)
  {
    hide Fresh, Bit, ClearBit, TargetMask;
    forall i | i in s.pc && s.pc[i].In? ensures s.pc[i].stage != Begun <==> i == h { assert CallOk(s, i); }
    if s.pc[h].stage == Sent {
      assert Owes(s, h, j);
      ZeroBit(j);
    }
  }

  lemma JamStays(s: State, e: Event, h: Cpu, j: Cpu)
    requires Inv(s) && Enabled(s, e) && Jams(s, h, j)
    ensures Jams(Apply(s, e), h, j)
  {
    hide Inv, Fresh, Bit, ClearBit, TargetMask, Filled, Invalidate;
    JamFacts(s, h, j);
    if e == ReturnAlone(j) { AloneMeansSelf(s, j, h); }
  }

  /** A jammed round never ends. */
  lemma {:induction false} JammedForever(s: State, es: seq<Event>, h: Cpu, j: Cpu)
    requires Inv(s) && IsRun(s, es) && Jams(s, h, j)
    ensures Run(s, es).holder == Some(h) && Jams(Run(s, es), h, j)
    decreases |es|
  {
    hide Inv, Apply, Enabled;
    if es != [] {
      JamStays(s, es[0], h, j);
      StepKeeps(s, es[0]);
      JammedForever(Apply(s, es[0]), es[1..], h, j);
    }
  }

  // ---- what is left to do -------------------------------------------------------------------------

  /** The steps CPU j still has to take. */
  function Due(s: State, j: Cpu): nat {
    if j in s.ipi then 4
    else if j !in s.handler then 0
    else match s.handler[j]
         case Idle => 0
         case Entered => 3
         case Loaded(_) => 2
         case Flushed => 1
  }

  function Dues(s: State, n: nat): nat {
    if n == 0 then 0 else Dues(s, n - 1) + Due(s, n - 1)
  }

  /** The steps left of the round of h on n CPUs. */
  function Left(s: State, h: Cpu): nat
    requires h in s.pc && s.pc[h].In?
  {
    var n := Online(s);
    match s.pc[h].stage
    case Begun => 4 * n + 5
    case Locked => 4 * n + 4
    case AddrSet => 4 * n + 3
    case Published => 4 * n + 2
    case Sent => 1 + Dues(s, n)
  }

  lemma {:induction false} DuesBound(s: State, n: nat)
    ensures Dues(s, n) <= 4 * n
    decreases n
  {
    if n > 0 { DuesBound(s, n - 1); }
  }

  /** One CPU takes a step. */
  lemma {:induction false} DuesLess(s: State, t: State, n: nat, j: Cpu)
    requires forall k: nat :: k < n && k != j ==> Due(t, k) == Due(s, k)
    ensures Dues(t, n) == Dues(s, n) + if j < n then Due(t, j) - Due(s, j) else 0
    decreases n
  {
    hide Due;
    if n > 0 { DuesLess(s, t, n - 1, j); }
  }

  lemma {:induction false} SomeDue(s: State, n: nat) returns (j: Cpu)
    requires Dues(s, n) > 0
    ensures j < n && Due(s, j) > 0
    decreases n
  {
    if Due(s, n - 1) > 0 { j := n - 1; } else { j := SomeDue(s, n - 1); }
  }

  lemma {:induction false} NoneDue(s: State, n: nat)
    requires Dues(s, n) == 0
    ensures forall j :: 0 <= j < n ==> Due(s, j) == 0
    decreases n
  {
    if n > 0 { NoneDue(s, n - 1); }
  }

  /** With nothing due the initiator may return. */
  lemma MayReturn(s: State, h: Cpu)
    requires Inv(s) && s.holder == Some(h) && At(s, h, Sent) && Dues(s, Online(s)) == 0
    ensures Enabled(s, Return(h))
  {
    hide Fresh, ClearBit, Bit;
    NoneDue(s, Online(s));
    forall j: nat ensures !Bit(s.pending, j) { assert j in s.pc ==> Owes(s, h, j) && Due(s, j) == 0; }
    NoBits(s.pending);
  }

  lemma NoBits(w: nat)
    requires forall j: nat :: !Bit(w, j)
    ensures w == 0
  {
    if w > 0 { var j := Ctz(w); }
  }

  /** The next step of CPU j's handler, and the interrupts it needs. */
  function HandlerStep(s: State, j: Cpu): Event
    requires j in s.handler
  {
    if j in s.ipi then (if j in s.masked then Unmask(j) else Interrupt(j))
    else match s.handler[j]
         case Entered => LoadAddr(j)
         case Loaded(_) => Flush(j)
         case _ => Ack(j)
  }

  /** What is left decreases, or a mask goes. */
  ghost predicate Closer(s: State, t: State, h: Cpu)
    requires h in s.pc && s.pc[h].In?
  {
    t.holder != Some(h) || (h in t.pc && t.pc[h].In? && Left(t, h) <= Left(s, h) && t.masked <= s.masked
                            && (Left(t, h) < Left(s, h) || t.masked < s.masked))
  }

  lemma HandlerGoesOn(s: State, h: Cpu, j: Cpu)
    requires Inv(s) && s.holder == Some(h) && At(s, h, Sent) && !Jammed(s) && j < Online(s) && Due(s, j) > 0
    ensures j in s.handler && Enabled(s, HandlerStep(s, j))
    ensures var t := Apply(s, HandlerStep(s, j));
      t.holder == s.holder && t.pc == s.pc && t.ipi <= s.ipi && t.masked <= s.masked && Closer(s, t, h)
  {
    hide Inv, Fresh, Bit, ClearBit, Invalidate, Dues;
    HandlerReady(s, h, j);
    var t := Apply(s, HandlerStep(s, j));
    forall k: nat | k < Online(s) && k != j ensures Due(t, k) == Due(s, k) {}
    DuesLess(s, t, Online(s), j);
  }

  lemma HandlerReady(s: State, h: Cpu, j: Cpu)
    requires Inv(s) && s.holder == Some(h) && At(s, h, Sent) && !Jammed(s) && j < Online(s) && Due(s, j) > 0
    ensures j in s.handler && j in s.tlb && j in s.pc && s.handler.Keys == s.pc.Keys
    ensures j in s.ipi ==> s.handler[j] == Idle
    ensures j in s.ipi && j in s.masked ==> s.pc[j] == Quiet
  {
    hide Fresh, Bit, ClearBit;
    assert Owes(s, h, j);
    assert j in s.ipi && j in s.masked && s.pc[j].In? ==> Jams(s, h, j);
  }

  /** A round that is not jammed has a step that brings it closer to its end and does not jam it. */
  lemma GoesOn(s: State, h: Cpu) returns (e: Event)
    requires Inv(s) && s.holder == Some(h) && h in s.pc && s.pc[h].In? && !Jammed(s)
    ensures Enabled(s, e) && Closer(s, Apply(s, e), h) && !Jammed(Apply(s, e))
  {
    hide Fresh, Bit, ClearBit, TargetMask, Dues;
    assert CallOk(s, h);
    if s.pc[h].stage == Sent {
      e := LastStage(s, h);
    } else {
      e := if s.pc[h].stage == Locked then StoreAddr(h) else if s.pc[h].stage == AddrSet then Publish(h) else SendIpi(h);
      assert Apply(s, e).pc.Keys == s.pc.Keys;
      DuesBound(Apply(s, e), Online(s));
      StillFree(s, e, h);
    }
  }

  lemma LastStage(s: State, h: Cpu) returns (e: Event)
    requires Inv(s) && s.holder == Some(h) && At(s, h, Sent) && !Jammed(s)
    ensures Enabled(s, e) && Closer(s, Apply(s, e), h) && !Jammed(Apply(s, e))
  {
    hide Inv, Dues, Closer, Jammed;
    if Dues(s, Online(s)) == 0 {
      MayReturn(s, h);
      e := Return(h);
      Ended(s, h);
    } else {
      var j := SomeDue(s, Online(s));
      HandlerGoesOn(s, h, j);
      e := HandlerStep(s, j);
    }
    StillFree(s, e, h);
  }

  lemma Ended(s: State, h: Cpu)
    requires Enabled(s, Return(h))
    ensures Closer(s, Apply(s, Return(h)), h)
  {}

  lemma StillFree(s: State, e: Event, h: Cpu)
    requires s.holder == Some(h) && h in s.pc && s.pc[h].In? && !Jammed(s) && Enabled(s, e)
    requires e in {StoreAddr(h), Publish(h), SendIpi(h), Return(h)}
             || (s.pc[h].stage == Sent && Apply(s, e).holder == s.holder && Apply(s, e).pc == s.pc
                 && Apply(s, e).ipi <= s.ipi && Apply(s, e).masked <= s.masked)
    ensures !Jammed(Apply(s, e))
  {
    var t := Apply(s, e);
    forall g, j ensures !Jams(t, g, j) {
      if Jams(t, g, j) { assert Jams(s, h, j); }
    }
  }

  /** From a round that is not jammed to its end: at most a step for each that is left, and one for each mask. */
  lemma {:induction false} Finish(s: State, h: Cpu) returns (es: seq<Event>)
    requires Inv(s) && s.holder == Some(h) && h in s.pc && s.pc[h].In? && !Jammed(s)
    ensures IsRun(s, es) && Run(s, es).holder != Some(h) && |es| <= Left(s, h) + |s.masked|
    decreases Left(s, h) + |s.masked|
  {
    hide Inv, Apply, Enabled, Jammed, Left;
    var e := GoesOn(s, h);
    var t := Apply(s, e);
    StepKeeps(s, e);
    if t.holder == Some(h) {
      Shrinks(s, t, h);
      var rest := Finish(t, h);
      es := [e] + rest;
      assert es[1..] == rest;
    } else {
      es := [e];
      assert es[1..] == [];
      HasSteps(s, h);
    }
  }

  lemma HasSteps(s: State, h: Cpu)
    requires h in s.pc && s.pc[h].In?
    ensures Left(s, h) > 0
  {}

  lemma Shrinks(s: State, t: State, h: Cpu)
    requires h in s.pc && s.pc[h].In? && Closer(s, t, h) && t.holder == Some(h)
    ensures h in t.pc && t.pc[h].In? && Left(t, h) + |t.masked| < Left(s, h) + |s.masked|
  {
    hide Left;
    assert s.masked == t.masked + (s.masked - t.masked);
  }

  /** A round can be brought to its end if and only if it is not jammed. */
  lemma EndsExact(s: State, h: Cpu)
    requires Inv(s) && s.holder == Some(h) && h in s.pc && s.pc[h].In?
    ensures (exists es :: IsRun(s, es) && Run(s, es).holder != Some(h)) <==> !Jammed(s)
  {
    hide Inv, IsRun, Run;
    if Jammed(s) {
      var g, j :| Jams(s, g, j);
      forall es | IsRun(s, es) ensures Run(s, es).holder == Some(h) { JammedForever(s, es, g, j); }
    } else {
      var es := Finish(s, h);
    }
  }

  // ---- two CPUs that jam each other ---------------------------------------------------------------

  function Two(): State {
    State(0, 0, None, map[0 := Quiet, 1 := Quiet], map[0 := Idle, 1 := Idle], {}, map[0 := map[], 1 := map[]], 0, {})
  }

  /** Both unmap a page, as unmap_page_in does with interrupts off; CPU 0 gets the lock. */
  function BothUnmap(): seq<Event> {
    [Mask(0), Mask(1), Call(0, 1), Call(1, 2), TakeLock(0)]
  }

  lemma BothCall()
    ensures var s := Two().(masked := {0, 1}, pc := map[0 := In(Begun, 1, 0), 1 := In(Begun, 2, 0)]);
      IsRun(Two(), BothUnmap()[..4]) && Run(Two(), BothUnmap()[..4]) == s
  {
    var a := Two();
    var b := a.(masked := {0});
    var c := a.(masked := {0, 1});
    var d := c.(pc := map[0 := In(Begun, 1, 0), 1 := Quiet]);
    var s := c.(pc := map[0 := In(Begun, 1, 0), 1 := In(Begun, 2, 0)]);
    var es := BothUnmap()[..4];
    assert {} + {0} == {0} && {0} + {1} == {0, 1};
    assert Invalidate(map[], 1) == map[] && Invalidate(map[], 2) == map[];
    assert Apply(a, Mask(0)) == b && Apply(b, Mask(1)) == c && Apply(c, Call(0, 1)) == d && Apply(d, Call(1, 2)) == s;
    hide Apply, Enabled;
    assert es[1..][1..][1..] == [Call(1, 2)] && es[1..][1..][1..][1..] == [];
    assert IsRun(d, es[1..][1..][1..]) && Run(d, es[1..][1..][1..]) == s;
    assert IsRun(c, es[1..][1..]) && Run(c, es[1..][1..]) == s;
    assert IsRun(b, es[1..]) && Run(b, es[1..]) == s;
  }

  /** From boot of two CPUs to a round that never ends. */
  lemma DeadLock()
    ensures Initial(Two()) && IsRun(Two(), BothUnmap()) && Jammed(Run(Two(), BothUnmap()))
  {
    hide Run, IsRun, Apply, Enabled, Jams;
    TwoInitial();
    BothCall();
    Takes();
    assert BothUnmap() == BothUnmap()[..4] + [TakeLock(0)];
    RunsOn(Two(), BothUnmap()[..4], TakeLock(0));
  }

  lemma Takes()
    ensures var s := Two().(masked := {0, 1}, pc := map[0 := In(Begun, 1, 0), 1 := In(Begun, 2, 0)]);
      Enabled(s, TakeLock(0)) && Jams(Apply(s, TakeLock(0)), 0, 1)
  {
    var s := Two().(masked := {0, 1}, pc := map[0 := In(Begun, 1, 0), 1 := In(Begun, 2, 0)]);
    assert s.pc.Keys == {0, 1};
    TwoOnline(s);
    hide TargetMask;
    TargetBits(2, 0, 1);
    ZeroBit(1);
  }

  lemma TwoInitial()
    ensures Initial(Two())
  {
    var s := Two();
    assert s.pc.Keys == {0, 1} && s.handler.Keys == {0, 1} && s.tlb.Keys == {0, 1};
    TwoOnline(s);
    assert |s.pc| == 2;
    assert s.handler.Keys == s.pc.Keys && s.tlb.Keys == s.pc.Keys && s.ipi <= s.pc.Keys;
    forall j: nat ensures j in s.pc <==> j < |s.pc| {}
    assert Shaped(s);
  }

  lemma TwoOnline(s: State)
    requires s.pc.Keys == {0, 1}
    ensures Online(s) == 2
  {}

  lemma {:induction false} RunsOn(s: State, es: seq<Event>, e: Event)
    requires IsRun(s, es) && Enabled(Run(s, es), e)
    ensures IsRun(s, es + [e]) && Run(s, es + [e]) == Apply(Run(s, es), e)
    decreases |es|
  {
    hide Apply, Enabled;
    if es == [] {
      assert es + [e] == [e] && [e][1..] == [];
    } else {
      assert (es + [e])[0] == es[0] && (es + [e])[1..] == es[1..] + [e];
      RunsOn(Apply(s, es[0]), es[1..], e);
    }
  }

  // ---- nothing else is dropped ---------------------------------------------------------------------

  /** A translation goes only in a call for its page, or for all pages. */
  lemma DropsOnlyCovered(s: State, e: Event, j: Cpu, p: nat)
    requires Inv(s) && Enabled(s, e) && j in s.tlb && p in s.tlb[j]
    ensures j in Apply(s, e).tlb
    ensures p !in Apply(s, e).tlb[j] ==>
              || (exists a :: e == Call(j, a) && (a == 0 || a == p))
              || (e == Flush(j) && s.holder.Some? && At(s, s.holder.value, Sent) && s.pc[s.holder.value].addr in {0, p})
    ensures p in Apply(s, e).tlb[j] && e != Fill(j, p) ==> Apply(s, e).tlb[j][p] == s.tlb[j][p]
  {
    hide Fresh, Bit, ClearBit, TargetMask;
    if e.Flush? {
      HandlerRound(s, e.j);
      hide Inv;
    }
  }
}
