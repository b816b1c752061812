/**
 The TLB shootdown protocol (Intel SDM Vol. 3A, section 4.10.5) over every interleaving of
 initiators, handlers and TLB fills on a fixed set of CPUs. Each step is one access to shared
 memory, one interrupt delivery or one invalidation. A TLB entry carries the time it was
 filled, so "no stale translation" is a statement about times.
 */
module TlbShootdown {
  import opened Options
  import opened Words

  type Cpu = nat
  type Tlb = map<nat, nat>          // page -> time of fill

  datatype Stage = Begun | Locked | AddrSet | Published | Sent

  /** A call in progress: the address to flush and the time of the call. */
  datatype Pc = Quiet | In(stage: Stage, addr: nat, start: nat)

  datatype Handler = Idle | Entered | Loaded(addr: nat) | Flushed

  datatype State = State(
    addr: nat, pending: nat, holder: Option<Cpu>,
    pc: map<Cpu, Pc>, handler: map<Cpu, Handler>, ipi: set<Cpu>,
    tlb: map<Cpu, Tlb>, now: nat,
    masked: set<Cpu>)             // CPUs with interrupts off

  const MAX_CPUS := 64

  /** Bits of every online CPU but self. */
  function TargetMask(online: nat, self: Cpu): nat {
    ClearBit(Pow2(if online > MAX_CPUS then MAX_CPUS else online) - 1, self)
  }

  lemma TargetBits(online: nat, self: Cpu, j: nat)
    requires online <= MAX_CPUS
    ensures Bit(TargetMask(online, self), j) <==> j < online && j != self
  {
    BitOfClear(Pow2(online) - 1, self, j);
    LowBits(online, j);
  }

  /** Address 0 empties the TLB; any other drops one page. */
  function Invalidate(t: Tlb, a: nat): Tlb {
    map p | p in t && a != 0 && p != a :: t[p]
  }

  function Filled(t: Tlb, page: nat, now: nat): Tlb { t[page := now] }

  /** No translation that a flush of `a` covers is older than `start`. */
  ghost predicate Fresh(t: Tlb, a: nat, start: nat) {
    forall p :: p in t && (a == 0 || p == a) ==> t[p] >= start
  }

  datatype Event =
    | Fill(j: Cpu, page: nat)
    | Mask(j: Cpu)                  // outside a call
    | Unmask(j: Cpu)
    | Call(i: Cpu, a: nat)          // local invalidation
    | ReturnAlone(i: Cpu)           // no other CPU online
    | TakeLock(i: Cpu)
    | StoreAddr(i: Cpu)
    | Publish(i: Cpu)
    | SendIpi(i: Cpu)
    | Return(i: Cpu)                // saw pending == 0; drops the lock
    | Interrupt(j: Cpu)
    | LoadAddr(j: Cpu)
    | Flush(j: Cpu)
    | Ack(j: Cpu)

  predicate At(s: State, i: Cpu, stage: Stage) {
    i in s.pc && s.pc[i].In? && s.pc[i].stage == stage
  }

  function Online(s: State): nat { |s.pc| }

  predicate Enabled(s: State, e: Event) {
    match e
    case Fill(j, page) => j in s.tlb
    case Mask(j) => j in s.pc && s.pc[j] == Quiet
    case Unmask(j) => j in s.pc && s.pc[j] == Quiet
    case Call(i, a) => i in s.pc && i in s.tlb && s.pc[i] == Quiet
    case ReturnAlone(i) => At(s, i, Begun) && (Online(s) <= 1 || TargetMask(Online(s), i) == 0)
    case TakeLock(i) => At(s, i, Begun) && Online(s) > 1 && TargetMask(Online(s), i) != 0 && s.holder == None
    case StoreAddr(i) => At(s, i, Locked)
    case Publish(i) => At(s, i, AddrSet)
    case SendIpi(i) => At(s, i, Published)
    case Return(i) => At(s, i, Sent) && s.pending == 0
    case Interrupt(j) => j in s.ipi && j !in s.masked && j in s.handler && s.handler[j] == Idle
    case LoadAddr(j) => j in s.handler && s.handler[j] == Entered
    case Flush(j) => j in s.handler && s.handler[j].Loaded? && j in s.tlb
    case Ack(j) => j in s.handler && s.handler[j] == Flushed
  }

  function Advance(s: State, i: Cpu, stage: Stage): State
    requires i in s.pc && s.pc[i].In?
  {
    s.(pc := s.pc[i := s.pc[i].(stage := stage)])
  }

  function Apply(s: State, e: Event): State
    requires Enabled(s, e)
  {
    match e
    case Fill(j, page) => s.(tlb := s.tlb[j := Filled(s.tlb[j], page, s.now)], now := s.now + 1)
    case Mask(j) => s.(masked := s.masked + {j})
    case Unmask(j) => s.(masked := s.masked - {j})
    case Call(i, a) => s.(tlb := s.tlb[i := Invalidate(s.tlb[i], a)], pc := s.pc[i := In(Begun, a, s.now)])
    case ReturnAlone(i) => s.(pc := s.pc[i := Quiet])
    case TakeLock(i) => Advance(s, i, Locked).(holder := Some(i))
    case StoreAddr(i) => Advance(s, i, AddrSet).(addr := s.pc[i].addr)
    case Publish(i) => Advance(s, i, Published).(pending := TargetMask(Online(s), i))
    case SendIpi(i) => Advance(s, i, Sent).(ipi := s.ipi + (s.pc.Keys - {i}))
    case Return(i) => s.(pc := s.pc[i := Quiet], holder := None)
    case Interrupt(j) => s.(ipi := s.ipi - {j}, handler := s.handler[j := Entered])
    case LoadAddr(j) => s.(handler := s.handler[j := Loaded(s.addr)])
    case Flush(j) => s.(tlb := s.tlb[j := Invalidate(s.tlb[j], s.handler[j].addr)], handler := s.handler[j := Flushed])
    case Ack(j) => s.(pending := ClearBit(s.pending, j), handler := s.handler[j := Idle])
  }

  // ---- the invariant ----------------------------------------------------------------------------

  /** The CPUs are 0 .. n-1. */
  ghost predicate Shaped(s: State) {
    && s.handler.Keys == s.pc.Keys && s.tlb.Keys == s.pc.Keys && |s.pc| <= MAX_CPUS && s.ipi <= s.pc.Keys
    && forall j: nat :: j in s.pc <==> j < |s.pc|
  }

  ghost predicate CallOk(s: State, i: Cpu) {
    && i in s.pc && i in s.tlb
    && (s.holder == Some(i) <==> s.pc[i].In? && s.pc[i].stage != Begun)
    && (s.pc[i].In? ==> s.pc[i].start <= s.now && Fresh(s.tlb[i], s.pc[i].addr, s.pc[i].start))
  }

  ghost predicate AllIdle(s: State) {
    s.ipi == {} && forall j :: j in s.handler ==> s.handler[j] == Idle
  }

  /** CPU j owes its acknowledgement exactly while its interrupt or its handler is under way. */
  ghost predicate Owes(s: State, i: Cpu, j: Cpu)
    requires i in s.pc && s.pc[i].In?
  {
    && j in s.handler && j in s.tlb
    && (Bit(s.pending, j) <==> j in s.ipi || s.handler[j] != Idle)
    && !(j in s.ipi && s.handler[j] != Idle)
    && (s.handler[j].Loaded? ==> s.handler[j].addr == s.pc[i].addr)
    && (s.handler[j] == Flushed || (j != i && !Bit(s.pending, j)) ==> Fresh(s.tlb[j], s.pc[i].addr, s.pc[i].start))
    && (j == i ==> !Bit(s.pending, j))
  }

  ghost predicate RoundOk(s: State, i: Cpu) {
    && i in s.pc && s.pc[i].In?
    && match s.pc[i].stage
       case Begun => true
       case Locked => s.pending == 0 && AllIdle(s)
       case AddrSet => s.pending == 0 && AllIdle(s) && s.addr == s.pc[i].addr
       case Published => AllIdle(s) && s.addr == s.pc[i].addr && s.pending == TargetMask(Online(s), i)
       case Sent =>
         && s.addr == s.pc[i].addr && (forall j :: j in s.pc ==> Owes(s, i, j))
         && (forall j: nat :: Bit(s.pending, j) ==> j in s.pc)
  }

  ghost predicate Inv(s: State) {
    && Shaped(s)
    && (forall i :: i in s.pc ==> CallOk(s, i))
    && (if s.holder == None then s.pending == 0 && AllIdle(s) else RoundOk(s, s.holder.value))
  }

  // ---- one step -------------------------------------------------------------------------------------

  lemma FreshInvalidated(t: Tlb, a: nat, start: nat)
    ensures Fresh(Invalidate(t, a), a, start)
  {}

  lemma FreshKept(t: Tlb, a: nat, b: nat, start: nat)
    requires Fresh(t, a, start)
    ensures Fresh(Invalidate(t, b), a, start)
  {}

  lemma FreshFilled(t: Tlb, a: nat, start: nat, page: nat, now: nat)
    requires Fresh(t, a, start) && start <= now
    ensures Fresh(Filled(t, page, now), a, start)
  {}

  /** u is as fresh as t for every flush up to now. */
  ghost predicate Refreshes(t: Tlb, u: Tlb, now: nat) {
    forall a: nat, start: nat {:trigger Fresh(t, a, start)} :: start <= now && Fresh(t, a, start) ==> Fresh(u, a, start)
  }

  /** A step that keeps the stages, the shared words and the handlers, and only refreshes one TLB. */
  lemma TlbOnly(s: State, n: State, j: Cpu)
    requires Inv(s) && j in s.tlb && j in n.tlb && n == s.(tlb := s.tlb[j := n.tlb[j]], now := n.now) && s.now <= n.now
    requires Refreshes(s.tlb[j], n.tlb[j], s.now)
    ensures Inv(n)
  {
    hide Fresh, Refreshes, Bit, CallOk, Owes;
    forall i | i in n.pc ensures CallOk(n, i) { TlbOnlyCall(s, n, j, i); }
    if s.holder.Some? {
      var i := s.holder.value;
      if s.pc[i].stage == Sent {
        forall k | k in n.pc ensures Owes(n, i, k) { TlbOnlyOwes(s, n, j, i, k); }
      }
    }
  }

  lemma TlbOnlyCall(s: State, n: State, j: Cpu, i: Cpu)
    requires CallOk(s, i)
    requires j in s.tlb && j in n.tlb && n == s.(tlb := s.tlb[j := n.tlb[j]], now := n.now) && s.now <= n.now
    requires Refreshes(s.tlb[j], n.tlb[j], s.now)
    ensures CallOk(n, i)
  {
    hide Fresh;
  }

  lemma TlbOnlyOwes(s: State, n: State, j: Cpu, i: Cpu, k: Cpu)
    requires i in s.pc && s.pc[i].In? && CallOk(s, i) && Owes(s, i, k)
    requires j in s.tlb && j in n.tlb && n == s.(tlb := s.tlb[j := n.tlb[j]], now := n.now) && s.now <= n.now
    requires Refreshes(s.tlb[j], n.tlb[j], s.now)
    ensures Owes(n, i, k)
  {
    hide Fresh, Bit;
  }

  lemma FillKeeps(s: State, j: Cpu, page: nat)
    requires Inv(s) && Enabled(s, Fill(j, page))
    ensures Inv(Apply(s, Fill(j, page)))
  {
    hide Inv;
    var n := Apply(s, Fill(j, page));
    forall a: nat, start: nat | start <= s.now && Fresh(s.tlb[j], a, start) ensures Fresh(n.tlb[j], a, start) {
      FreshFilled(s.tlb[j], a, start, page, s.now);
    }
    TlbOnly(s, n, j);
  }

  /** Steps that move one CPU between Quiet and Begun, with its own TLB already flushed. */
  lemma CallKeeps(s: State, i: Cpu, a: nat)
    requires Inv(s) && Enabled(s, Call(i, a))
    ensures Inv(Apply(s, Call(i, a)))
  {
    var m := s.(tlb := s.tlb[i := Invalidate(s.tlb[i], a)]);
    assert Inv(m) by {
      hide Inv;
      forall b: nat, start: nat | start <= s.now && Fresh(s.tlb[i], b, start) ensures Fresh(m.tlb[i], b, start) {
        FreshKept(s.tlb[i], b, a, start);
      }
      TlbOnly(s, m, i);
    }
    FreshInvalidated(s.tlb[i], a, s.now);
    BegunOnly(m, i, In(Begun, a, s.now));
  }

  lemma BegunOnly(s: State, i: Cpu, p: Pc)
    requires Inv(s) && i in s.pc && i in s.tlb && (s.pc[i].In? ==> s.pc[i].stage == Begun)
    requires p.In? ==> p.stage == Begun && p.start <= s.now && Fresh(s.tlb[i], p.addr, p.start)
    ensures Inv(s.(pc := s.pc[i := p]))
  {
    hide Fresh, RoundOk, AllIdle;
    var n := s.(pc := s.pc[i := p]);
    assert n.pc.Keys == s.pc.Keys;
    assert CallOk(s, i);
    forall k | k in n.pc ensures CallOk(n, k) { assert CallOk(s, k); }
    if s.holder.Some? { SameRound(s, n, s.holder.value); } else { SameIdle(s, n); }
  }

  lemma SameIdle(s: State, n: State)
    requires AllIdle(s) && n.ipi == s.ipi && n.handler == s.handler
    ensures AllIdle(n)
  {}

  /** The round of CPU h goes on as it was while another CPU only begins or ends a call. */
  lemma SameRound(s: State, n: State, h: Cpu)
    requires RoundOk(s, h) && n == s.(pc := n.pc, masked := n.masked) && n.pc.Keys == s.pc.Keys && n.pc[h] == s.pc[h] && |n.pc| == |s.pc|
    ensures RoundOk(n, h)
  {
    hide Fresh, Bit;
    if s.pc[h].stage == Sent {
      forall k | k in n.pc ensures Owes(n, h, k) { assert Owes(s, h, k); }
    }
  }

  lemma ReturnAloneKeeps(s: State, i: Cpu)
    requires Inv(s) && Enabled(s, ReturnAlone(i))
    ensures Inv(Apply(s, ReturnAlone(i)))
  {
    BegunOnly(s, i, Quiet);
  }

  /** The holder moves on by itself; what the next stage promises is in the premises. */
  lemma StageKeeps(s: State, n: State, i: Cpu)
    requires Inv(s) && i in s.pc && s.pc[i].In? && (s.holder == None || s.holder == Some(i))
    requires i in n.pc && n.pc == s.pc[i := n.pc[i]] && n.ipi <= n.pc.Keys && n.tlb == s.tlb && n.handler == s.handler && n.now == s.now
    requires n.pc[i].In? && n.pc[i] == s.pc[i].(stage := n.pc[i].stage) && n.pc[i].stage != Begun
    requires n.holder == Some(i) && RoundOk(n, i)
    ensures Inv(n)
  {
    hide Fresh, RoundOk;
    assert n.pc.Keys == s.pc.Keys;
    assert CallOk(s, i);
    forall k | k in n.pc ensures CallOk(n, k) { assert CallOk(s, k); }
  }

  lemma InitiatorRound(s: State, e: Event, i: Cpu)
    requires Inv(s) && Enabled(s, e) && e in {TakeLock(i), StoreAddr(i), Publish(i)}
    ensures s.holder == None || s.holder == Some(i)
    ensures RoundOk(Apply(s, e), i) && Apply(s, e).ipi <= s.pc.Keys
  {
    hide TargetMask, CallOk;
    if e != TakeLock(i) { HolderStage(s, i); }
    assert Apply(s, e).pc.Keys == s.pc.Keys;
  }

  lemma InitiatorKeeps(s: State, e: Event, i: Cpu)
    requires Inv(s) && Enabled(s, e) && e in {TakeLock(i), StoreAddr(i), Publish(i)}
    ensures Inv(Apply(s, e))
  {
    hide Inv, RoundOk, TargetMask;
    InitiatorRound(s, e, i);
    assert Apply(s, e).pc.Keys == s.pc.Keys;
    assert Apply(s, e).holder == Some(i) by { if e != TakeLock(i) { HolderStage(s, i); } }
    StageKeeps(s, Apply(s, e), i);
  }

  lemma HolderStage(s: State, i: Cpu)
    requires Inv(s) && i in s.pc && s.pc[i].In? && s.pc[i].stage != Begun
    ensures s.holder == Some(i)
  {
    assert CallOk(s, i);
  }

  lemma SendKeeps(s: State, i: Cpu)
    requires Inv(s) && Enabled(s, SendIpi(i))
    ensures Inv(Apply(s, SendIpi(i)))
  {
    hide Fresh, TargetMask, Bit;
    assert CallOk(s, i);
    var n := Apply(s, SendIpi(i));
    assert n.pc.Keys == s.pc.Keys;
    forall j | j in n.pc ensures Owes(n, i, j) { TargetBits(Online(s), i, j); }
    forall j: nat | Bit(n.pending, j) ensures j in n.pc { TargetBits(Online(s), i, j); }
    hide Inv;
    StageKeeps(s, n, i);
  }

  /** When the initiator sees no pending bit, every interrupt of its round has been handled. */
  lemma ReturnKeeps(s: State, i: Cpu)
    requires Inv(s) && Enabled(s, Return(i))
    ensures Inv(Apply(s, Return(i)))
    ensures AllIdle(s) && forall j :: j in s.pc ==> j in s.tlb && Fresh(s.tlb[j], s.pc[i].addr, s.pc[i].start)
  {
    hide Fresh, Bit, ClearBit;
    assert CallOk(s, i);
    forall j | j in s.pc ensures j in s.tlb && j !in s.ipi && s.handler[j] == Idle && Fresh(s.tlb[j], s.pc[i].addr, s.pc[i].start) {
      assert Owes(s, i, j);
      ZeroBit(j);
    }
    assert s.ipi == {};
    var n := Apply(s, Return(i));
    assert n.pc.Keys == s.pc.Keys;
    forall k | k in n.pc ensures CallOk(n, k) { assert CallOk(s, k); }
  }

  /** An interrupt or handler under way belongs to the current round, which is waiting for it. */
  lemma HandlerRound(s: State, j: Cpu)
    requires Inv(s) && (j in s.ipi || (j in s.handler && s.handler[j] != Idle))
    ensures s.holder.Some? && At(s, s.holder.value, Sent) && s.addr == s.pc[s.holder.value].addr
    ensures j in s.pc && Owes(s, s.holder.value, j) && j != s.holder.value
  {
    hide Fresh, Bit, ClearBit;
    if s.holder.Some? { assert CallOk(s, s.holder.value); }
    assert Owes(s, s.holder.value, j);
  }

  /** A handler step of j: only j's own bit, interrupt, handler and TLB change. */
  lemma HandlerKeeps(s: State, n: State, i: Cpu, j: Cpu)
    requires Inv(s) && s.holder == Some(i) && At(s, i, Sent) && j in s.pc && j != i
    requires n.pc == s.pc && n.holder == s.holder && n.addr == s.addr && n.now == s.now
    requires n.handler.Keys == s.handler.Keys && n.tlb.Keys == s.tlb.Keys && n.ipi <= s.ipi
    requires forall k :: k in s.pc && k != j ==> Same(s, n, k)
    requires Owes(n, i, j)
    requires j in s.tlb && j in n.tlb
    requires s.pc[j].In? && Fresh(s.tlb[j], s.pc[j].addr, s.pc[j].start) ==> Fresh(n.tlb[j], s.pc[j].addr, s.pc[j].start)
    requires forall k: nat :: Bit(n.pending, k) ==> Bit(s.pending, k)
    ensures Inv(n)
  {
    hide Fresh, Bit, ClearBit;
    forall k | k in n.pc ensures CallOk(n, k) { assert CallOk(s, k); assert k != j ==> Same(s, n, k); }
    forall k | k in n.pc ensures Owes(n, i, k) { assert Owes(s, i, k); assert k != j ==> Same(s, n, k); }
  }

  ghost predicate Same(s: State, n: State, k: Cpu) {
    && k in s.handler && k in n.handler && n.handler[k] == s.handler[k]
    && k in s.tlb && k in n.tlb && n.tlb[k] == s.tlb[k]
    && (k in n.ipi <==> k in s.ipi) && (Bit(n.pending, k) <==> Bit(s.pending, k))
  }

  lemma InterruptKeeps(s: State, j: Cpu)
    requires Inv(s) && Enabled(s, Interrupt(j))
    ensures Inv(Apply(s, Interrupt(j)))
  {
    hide Fresh, Bit, ClearBit;
    HandlerRound(s, j);
    ShapeFacts(s);
    hide Inv;
    HandlerKeeps(s, Apply(s, Interrupt(j)), s.holder.value, j);
  }

  lemma ShapeFacts(s: State)
    requires Inv(s)
    ensures s.handler.Keys == s.pc.Keys && s.tlb.Keys == s.pc.Keys
  {}

  lemma LoadKeeps(s: State, j: Cpu)
    requires Inv(s) && Enabled(s, LoadAddr(j))
    ensures Inv(Apply(s, LoadAddr(j)))
  {
    hide Fresh, Bit, ClearBit;
    HandlerRound(s, j);
    ShapeFacts(s);
    hide Inv;
    HandlerKeeps(s, Apply(s, LoadAddr(j)), s.holder.value, j);
  }

  lemma FlushKeeps(s: State, j: Cpu)
    requires Inv(s) && Enabled(s, Flush(j))
    ensures Inv(Apply(s, Flush(j)))
  {
    hide Inv, Fresh, Invalidate, Bit, ClearBit;
    HandlerRound(s, j);
    ShapeFacts(s);
    var i, a := s.holder.value, s.handler[j].addr;
    FreshInvalidated(s.tlb[j], a, s.pc[i].start);
    if s.pc[j].In? && Fresh(s.tlb[j], s.pc[j].addr, s.pc[j].start) { FreshKept(s.tlb[j], s.pc[j].addr, a, s.pc[j].start); }
    HandlerKeeps(s, Apply(s, Flush(j)), i, j);
  }

  lemma AckKeeps(s: State, j: Cpu)
    requires Inv(s) && Enabled(s, Ack(j))
    ensures Inv(Apply(s, Ack(j)))
  {
    hide Inv, Fresh, Bit, ClearBit;
    HandlerRound(s, j);
    ShapeFacts(s);
    forall k: Cpu ensures Bit(ClearBit(s.pending, j), k) <==> k != j && Bit(s.pending, k) { BitOfClear(s.pending, j, k); }
    HandlerKeeps(s, Apply(s, Ack(j)), s.holder.value, j);
  }

  lemma MaskKeeps(s: State, e: Event)
    requires Inv(s) && Enabled(s, e) && (e.Mask? || e.Unmask?)
    ensures Inv(Apply(s, e))
  {
    hide Fresh, Bit;
    var n := Apply(s, e);
    forall k | k in n.pc ensures CallOk(n, k) { assert CallOk(s, k); }
    if s.holder.Some? { SameRound(s, n, s.holder.value); } else { SameIdle(s, n); }
  }

  lemma StepKeeps(s: State, e: Event)
    requires Inv(s) && Enabled(s, e)
    ensures Inv(Apply(s, e))
  {
    hide Inv, Apply;
    match e
    case Fill(j, page) => FillKeeps(s, j, page);
    case Mask(j) => MaskKeeps(s, e);
    case Unmask(j) => MaskKeeps(s, e);
    case Call(i, a) => CallKeeps(s, i, a);
    case ReturnAlone(i) => ReturnAloneKeeps(s, i);
    case TakeLock(i) => InitiatorKeeps(s, e, i);
    case StoreAddr(i) => InitiatorKeeps(s, e, i);
    case Publish(i) => InitiatorKeeps(s, e, i);
    case SendIpi(i) => SendKeeps(s, i);
    case Return(i) => ReturnKeeps(s, i);
    case Interrupt(j) => InterruptKeeps(s, j);
    case LoadAddr(j) => LoadKeeps(s, j);
    case Flush(j) => FlushKeeps(s, j);
    case Ack(j) => AckKeeps(s, j);
  }

  // ---- whole runs ----------------------------------------------------------------------------------

  predicate IsRun(s: State, es: seq<Event>)
    decreases |es|
  {
    es != [] ==> Enabled(s, es[0]) && IsRun(Apply(s, es[0]), es[1..])
  }

  function Run(s: State, es: seq<Event>): State
    requires IsRun(s, es)
    decreases |es|
  {
    if es == [] then s else Run(Apply(s, es[0]), es[1..])
  }

  lemma {:induction false} EveryRunKeeps(s: State, es: seq<Event>)
    requires Inv(s) && IsRun(s, es)
    ensures Inv(Run(s, es))
    decreases |es|
  {
    hide Inv, Apply, Enabled;
    if es != [] {
      StepKeeps(s, es[0]);
      EveryRunKeeps(Apply(s, es[0]), es[1..]);
    }
  }

  /** n CPUs with any TLB contents and no call under way. */
  ghost predicate Initial(s: State) {
    && Shaped(s) && s.pending == 0 && s.holder == None && AllIdle(s)
    && forall i :: i in s.pc ==> s.pc[i] == Quiet
  }

  /** Whenever a call may return, no online CPU holds a covered translation from before the call. */
  lemma NoStaleTranslation(s: State, es: seq<Event>, i: Cpu, j: Cpu)
    requires Initial(s) && IsRun(s, es)
    requires var n := Run(s, es); (Enabled(n, Return(i)) || Enabled(n, ReturnAlone(i))) && j in n.pc
    ensures var n := Run(s, es); j in n.tlb && Fresh(n.tlb[j], n.pc[i].addr, n.pc[i].start)
  {
    assert Inv(s) by { forall k | k in s.pc ensures CallOk(s, k) {} }
    EveryRunKeeps(s, es);
    hide Run, IsRun, Initial, Fresh;
    var n := Run(s, es);
    if Enabled(n, Return(i)) {
      ReturnKeeps(n, i);
    } else {
      AloneMeansSelf(n, i, j);
      assert CallOk(n, i);
    }
  }

  lemma AloneMeansSelf(s: State, i: Cpu, j: Cpu)
    requires Inv(s) && Enabled(s, ReturnAlone(i)) && j in s.pc
    ensures i == j
  {
    hide Fresh, TargetMask, RoundOk, CallOk;
    TargetBits(Online(s), i, j);
    ZeroBit(j);
  }

  /** When a round is published no handler and no interrupt of an earlier round is left to acknowledge it. */
  lemma NoStaleAck(s: State, es: seq<Event>, i: Cpu, j: Cpu)
    requires Initial(s) && IsRun(s, es)
    requires var n := Run(s, es); Enabled(n, Publish(i)) && j in n.pc
    ensures var n := Run(s, es); j !in n.ipi && j in n.handler && n.handler[j] == Idle
  {
    assert Inv(s) by { forall k | k in s.pc ensures CallOk(s, k) {} }
    EveryRunKeeps(s, es);
    hide Run, IsRun, Initial, Fresh;
    assert CallOk(Run(s, es), i);
  }
}
