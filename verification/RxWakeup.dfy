/**
 * When the wake-up of the input task is lost.
 *
 * The link thread reaches HAL_ETH_RxAllocateCallback through HAL_ETH_Start_IT
 * at a low priority, so buffers can come back between its failed allocation and
 * its raising of the flag; the flag then stays up with nobody left to lower it.
 */
module RxWakeup {
  import opened RxPool
  import opened RxLedger
  import opened RxRuns
  import opened RxStall

  // ------------------------------------------------ covered starts

  /** While the link thread starts the MAC: it will find its buffers, or nobody can return one behind its back. */
  ghost predicate StartIsCovered(s: State)
  {
    && (!s.link.LinkIdle? ==> !s.mac.started && OutsideHal(s))
    && (s.link.Starting? ==> Covered(s))
    && (s.link.StorePending? ==> s.g.pool == [] && !Outstanding(s))
  }

  ghost predicate Kept(s: State)
  {
    DriverFreesOnlyRefused(s) && NoLostWakeup(s) && StartIsCovered(s)
  }

  /** While nobody outside the driver holds a buffer and the MAC is stopped, that stays so. */
  lemma {:induction false} NothingOutstandingStays(s: State, step: Step)
    requires Enabled(s, step, true) && !s.mac.started && OutsideHal(s) && DriverFreesOnlyRefused(s) && !Outstanding(s)
    ensures !Outstanding(Apply(s, step))
  {
    OtherFreers(s, step);
  }

  lemma {:induction false} StepKeepsStartCovered(s: State, step: Step)
    requires Enabled(s, step, true) && DriverFreesOnlyRefused(s) && StartIsCovered(s)
    requires step.LinkStart? ==> Covered(s)
    ensures StartIsCovered(Apply(s, step))
  {
    if !s.link.LinkIdle? && !Outstanding(s) { NothingOutstandingStays(s, step); }
    if step.FreeReturn? { assert s.freers[step.i].bufs != [] && Outstanding(s); }
    if step.LinkStart? { assert Outstanding(Apply(s, step)) <==> Outstanding(s); }
    hide Outstanding;
  }

  lemma {:induction false} StepKeepsNoLoss(s: State, step: Step)
    requires Enabled(s, step, true) && NoLostWakeup(s) && (s.link.StorePending? ==> s.g.pool == [])
    ensures NoLostWakeup(Apply(s, step))
  {
    hide FlagBeingCleared;
    if step.FreeReturn? {
      ReturnIsClearing(s, step.i);
    } else if s.g.status.RxAllocError? && FlagBeingCleared(s) && Apply(s, step).g.status.RxAllocError? {
      ClearingGoesOn(s, step);
    }
  }

  lemma {:induction false} StepKeepsJustified(s: State, step: Step)
    requires Enabled(s, step, true) && Kept(s) && FlagJustified(s) && (step.LinkStart? ==> Covered(s))
    ensures FlagJustified(Apply(s, step))
  {
    hide FlagBeingCleared, NoLostWakeup;
    if step.FreeReturn? {
      ReturnIsClearing(s, step.i);
      assert s.link.StorePending? ==> Outstanding(s);
    } else if s.g.status.RxAllocError? && FlagBeingCleared(s) && Apply(s, step).g.status.RxAllocError? {
      ClearingGoesOn(s, step);
    }
  }

  lemma {:induction false} KeptStep(s: State, step: Step)
    requires Enabled(s, step, true) && Kept(s) && (step.LinkStart? ==> Covered(s))
    ensures Kept(Apply(s, step))
    ensures FlagJustified(s) ==> FlagJustified(Apply(s, step))
  {
    StepKeepsDriverFrees(s, step);
    StepKeepsStartCovered(s, step);
    StepKeepsNoLoss(s, step);
    hide FlagJustified;
    if FlagJustified(s) { StepKeepsJustified(s, step); }
  }

  /** All starts of such a run are covered. */
  predicate Covers(policy: Policy) { !policy.Anything? && !policy.PacketsWithin? }

  lemma {:induction false} RunKeeps(s: State, steps: seq<Step>, policy: Policy)
    requires ValidRun(s, steps, true) && Obeys(s, steps, true, policy) && Kept(s) && Covers(policy)
    ensures Kept(Run(s, steps, true)) && (FlagJustified(s) ==> FlagJustified(Run(s, steps, true)))
    decreases |steps|
  {
    hide Enabled, Apply, NoLostWakeup, StartIsCovered, DriverFreesOnlyRefused, FlagJustified;
    if steps != [] {
      var n := |steps| - 1;
      RunKeeps(s, steps[..n], policy);
      KeptStep(Run(s, steps[..n], true), steps[n]);
    }
  }

  /**
   * If the MAC is only ever started while the pool and the descriptors together
   * have a buffer for each descriptor, or while no buffer can come back, then
   * no wake-up is lost under any interleaving.
   */
  lemma {:induction false} CoveredStartsKeepWakeup(n: nat, s: State)
    requires n > 0 && ReachesBy(Init(n), s, true, CoveredStarts)
    ensures NoLostWakeup(s)
  {
    var steps :| ValidRun(Init(n), steps, true) && Obeys(Init(n), steps, true, CoveredStarts) && Run(Init(n), steps, true) == s;
    RunKeeps(Init(n), steps, CoveredStarts);
  }

  // ---------------------------------------------- uncovered starts

  /** The link thread starts the MAC, uses up the pool and fails; the flag is not yet raised. */
  lemma {:induction false} StartFails(s: State) returns (t: State)
    requires Enabled(s, LinkStart, true) && |s.g.pool| + |s.dma| < ETH_RX_DESC_CNT
    ensures ReachesBy(Apply(s, LinkStart), t, true, NoStart) && t.link.StorePending? && t.g.pool == []
    ensures t.input.Waiting? && !t.mac.started && t.freers == s.freers && t.stack == s.stack && t.chain == s.chain
  {
    hide ReachesBy;
    var s0, k := Apply(s, LinkStart), |s.g.pool|;
    ByRefl(s0, true, NoStart);
    Allocs(s0, s0, LinkAlloc, k, true, NoStart);
    ByStep(s0, Filled(s0, k), LinkAlloc, true, NoStart);
    t := Apply(Filled(s0, k), LinkAlloc);
  }

  /** Meanwhile all buffers held by the stack and in pbuf_free calls come back. */
  lemma {:induction false} EverythingReturns(s0: State, s: State) returns (t: State)
    requires ReachesBy(s0, s, true, NoStart) && |s.freers| > 1 && Outstanding(s)
    ensures ReachesBy(s0, t, true, NoStart) && SameElsewhere(s, t) && t.g.pool != []
    ensures forall i :: 0 <= i < |t.freers| ==> t.freers[i].Idle()
    ensures forall j :: 0 <= j < |t.stack| ==> t.stack[j] == []
  {
    hide ReachesBy;
    var u := FinishAll(s0, s, 0);
    t := FreeStack(s0, u, 0);
  }

  /** Raising the flag now stalls the receive path although the pool has buffers. */
  lemma {:induction false} StoreStalls(s0: State, s: State) returns (t: State)
    requires ReachesBy(s0, s, true, NoStart) && s.link.StorePending? && s.input.Waiting? && !s.mac.started
    requires s.g.pool != [] && s.freers != []
    requires forall i :: 0 <= i < |s.freers| ==> s.freers[i].Idle()
    requires forall j :: 0 <= j < |s.stack| ==> s.stack[j] == []
    ensures ReachesBy(s0, t, true, NoStart) && Stalled(t) && !NoLostWakeup(t) && t.mac.started && t.link.LinkIdle?
    ensures t.chain == s.chain
  {
    hide ReachesBy;
    TakeToken(s0, s);
    var u := s.(g := s.g.(token := false));
    ByStep(s0, u, LinkStore, true, NoStart);
    t := Apply(u, LinkStore);
  }

  lemma {:induction false} SomeoneFrees(s: State)
    requires DriverFreesOnlyRefused(s) && s.input.Waiting? && !Covered(s)
    ensures |s.freers| > 1
  {
    if i :| 0 <= i < |s.freers| && s.freers[i].bufs != [] { assert i != 0; }
  }

  lemma {:induction false} UncoveredStartStalls(s: State) returns (t: State)
    requires DriverFreesOnlyRefused(s) && Enabled(s, LinkStart, true) && !Covered(s)
    ensures ReachesBy(Apply(s, LinkStart), t, true, NoStart) && Stalled(t) && !NoLostWakeup(t)
    ensures t.mac.started && t.link.LinkIdle? && t.chain == s.chain
  {
    var s0 := Apply(s, LinkStart);
    SomeoneFrees(s);
    hide ReachesBy, Enabled, Apply, Stalled, NoLostWakeup, DriverFreesOnlyRefused;
    var u := StartFails(s);
    assert Outstanding(u);
    var v := EverythingReturns(s0, u);
    t := StoreStalls(s0, v);
  }

  /**
   * For every reachable state in which the MAC can be started and nothing is
   * lost yet: this start can end in a lost wake-up, indeed in a stall for good
   * with buffers in the pool, if and only if the state is not covered.
   */
  lemma {:induction false} StartLosesIff(s: State)
    requires Reachable(s, true) && Enabled(s, LinkStart, true) && NoLostWakeup(s)
    ensures (exists t :: ReachesBy(Apply(s, LinkStart), t, true, NoStart) && !NoLostWakeup(t)) <==> !Covered(s)
    ensures (exists t :: ReachesBy(Apply(s, LinkStart), t, true, NoStart) && Stalled(t) && t.g.pool != []) <==> !Covered(s)
  {
    ReachableIsConserved(s, true);
    var s0 := Apply(s, LinkStart);
    if !Covered(s) {
      var t := UncoveredStartStalls(s);
    } else {
      KeptStep(s, LinkStart);
      forall t | ReachesBy(s0, t, true, NoStart) ensures NoLostWakeup(t) && !(Stalled(t) && t.g.pool != []) {
        var steps :| ValidRun(s0, steps, true) && Obeys(s0, steps, true, NoStart) && Run(s0, steps, true) == t;
        RunKeeps(s0, steps, NoStart);
      }
    }
  }

  // ---------------------------------------- such a start is reachable

  /** Every buffer is free, attached to a descriptor, or a packet of the stack. */
  predicate AllAccounted(s: State)
  {
    && s.freers == Init(2).freers && s.chain == [] && !s.g.token && s.link.LinkIdle? && s.mac.started && !s.mac.failed
    && |s.g.pool| + |s.dma| + |s.stack| == ETH_RX_BUFFER_CNT
    && forall j :: 0 <= j < |s.stack| ==> s.stack[j] != []
  }

  /** The input task about to read, with all four descriptors armed. */
  predicate ReadyToRead(s: State)
  {
    AllAccounted(s) && |s.dma| == ETH_RX_DESC_CNT && s.input.CheckFlag? && s.g.status.RxAllocOk?
  }

  /** The stack holds packets, the pool is empty and a descriptor lacks a buffer. */
  predicate Exhausted(s: State)
  {
    AllAccounted(s) && s.g.pool == [] && |s.dma| < ETH_RX_DESC_CNT && s.input.Waiting?
  }

  /** After power-up the MAC is started and a first packet wakes the input task. */
  lemma {:induction false} StartUp() returns (t: State)
    ensures ReachesBy(Init(2), t, true, Anything) && ReadyToRead(t)
  {
    hide ReachesBy;
    var s := Init(2);
    ByRefl(s, true, Anything);
    ByStep(s, s, LinkStart, true, Anything);
    Allocs(s, Apply(s, LinkStart), LinkAlloc, ETH_RX_DESC_CNT, true, Anything);
    var u := Filled(Apply(s, LinkStart), ETH_RX_DESC_CNT);
    ByStep(s, u, LinkFinish, true, Anything);
    ByStep(s, Apply(u, LinkFinish), RxSignal, true, Anything);
    ByStep(s, Apply(Apply(u, LinkFinish), RxSignal), InputAcquire, true, Anything);
    t := Apply(Apply(Apply(u, LinkFinish), RxSignal), InputAcquire);
  }

  /** A one-buffer packet is taken from the oldest descriptor, which is about to be refilled. */
  lemma {:induction false} ReadOne(s0: State, s: State) returns (t: State)
    requires ReachesBy(s0, s, true, Anything) && ReadyToRead(s)
    ensures ReachesBy(s0, t, true, Anything)
    ensures t == s.(chain := [s.dma[0]], dma := s.dma[1..], input := Rebuilding(true), retryOwed := false,
                    mac := s.mac.(dangling := false))
  {
    hide ReachesBy;
    ByStep(s0, s, InputCheck, true, Anything);
    var u := Apply(s, InputCheck);
    ByStep(s0, u, InputLinkBuf(true), true, Anything);
    var v := Apply(u, InputLinkBuf(true));
    ByStep(s0, v, InputRebuild, true, Anything);
    t := Apply(v, InputRebuild);
  }

  /** The packet is returned and accepted by the stack. */
  lemma {:induction false} DeliverOne(s0: State, s: State) returns (t: State)
    requires ReachesBy(s0, s, true, Anything) && |s.freers| > 0 && !s.link.StorePending?
    requires s.input == ReadDone(true) || (s.input == Rebuilding(true) && |s.dma| == ETH_RX_DESC_CNT)
    ensures ReachesBy(s0, t, true, Anything)
    ensures t == s.(chain := [], stack := s.stack + [s.chain], input := CheckFlag)
  {
    hide ReachesBy;
    ByStep(s0, s, InputReturn, true, Anything);
    var u := Apply(s, InputReturn);
    ByStep(s0, u, InputDeliver(true), true, Anything);
    t := Apply(u, InputDeliver(true));
  }

  /** Packets arrive until the pool cannot refill a descriptor. */
  lemma {:induction false} ReadUntilExhausted(s0: State, s: State) returns (t: State)
    requires ReachesBy(s0, s, true, Anything) && ReadyToRead(s)
    ensures ReachesBy(s0, t, true, Anything) && Exhausted(t)
    decreases |s.g.pool|
  {
    hide ReachesBy;
    var a := ReadOne(s0, s);
    ByStep(s0, a, InputAlloc, true, Anything);
    var b := DeliverOne(s0, Apply(a, InputAlloc));
    if s.g.pool != [] {
      t := ReadUntilExhausted(s0, b);
    } else {
      ByStep(s0, b, InputCheck, true, Anything);
      t := Apply(b, InputCheck);
    }
  }

  /** A state reachable from power-up in which the MAC is stopped and about to be started uncovered. */
  lemma {:induction false} UncoveredStartReachable() returns (s: State)
    ensures Reachable(s, true) && Enabled(s, LinkStart, true) && !Covered(s) && s.chain == []
  {
    hide ReachesBy;
    var a := StartUp();
    var b := ReadUntilExhausted(Init(2), a);
    ByStep(Init(2), b, LinkStop, true, Anything);
    s := Apply(b, LinkStop);
    ByReaches(Init(2), s, true, Anything);
    assert s.stack[0] != [];
  }

  /** So a stall for good is reachable although all twelve buffers are free or armed. */
  lemma {:induction false} StallReachable() returns (t: State)
    ensures Reachable(t, true) && Stalled(t) && !NoLostWakeup(t) && t.mac.started && t.link.LinkIdle?
    ensures |t.g.pool| + |t.dma| == ETH_RX_BUFFER_CNT
  {
    var s := UncoveredStartReachable();
    ReachableIsConserved(s, true);
    t := UncoveredStartStalls(s);
    StartThenReachable(s, t);
    ReachableIsConserved(t, true);
    DriverHoldsAllIff(t);
  }

  lemma {:induction false} StartThenReachable(s: State, t: State)
    requires Reachable(s, true) && Enabled(s, LinkStart, true) && ReachesBy(Apply(s, LinkStart), t, true, NoStart)
    ensures Reachable(t, true)
  {
    hide Enabled, Apply, Init;
    var n: nat :| n > 0 && Reaches(Init(n), s, true);
    ReachStep(Init(n), s, LinkStart, true);
    ByReaches(Apply(s, LinkStart), t, true, NoStart);
    ReachTrans(Init(n), Apply(s, LinkStart), t, true);
  }

  /**
   * Without any condition on the starts, the wake-up is never lost if and only
   * if nothing can run between the link thread's failed allocation and its
   * raising of the flag.
   */
  lemma {:induction false} NoLostWakeupIff(preemptible: bool)
    ensures (forall s :: Reachable(s, preemptible) ==> NoLostWakeup(s)) <==> !preemptible
  {
    if preemptible {
      var t := StallReachable();
    } else {
      forall s | Reachable(s, false) ensures NoLostWakeup(s) { ReachableIsConserved(s, false); }
    }
  }

  // ------------------------------------- stalls of a careful driver

  lemma {:induction false} CoveredStall(n: nat, steps: seq<Step>, policy: Policy)
    requires n > 0 && ValidRun(Init(n), steps, true) && Obeys(Init(n), steps, true, policy) && Covers(policy)
    requires Stalled(Run(Init(n), steps, true))
    ensures |Run(Init(n), steps, true).chain| >= 9
  {
    RunKeeps(Init(n), steps, policy);
    BuffersConserved(n, steps, true);
    JustifiedStall(Run(Init(n), steps, true));
  }

  /**
   * With interruptible failures but covered starts the receive path can stall if
   * and only if a chain can take nine buffers; with at most eight it never does.
   */
  lemma {:induction false} CoveredStallPossibleIff(m: nat)
    ensures (exists n: nat, s :: n > 0 && ReachesBy(Init(n), s, true, Careful(m)) && Stalled(s)) <==> m >= 9
  {
    if m >= 9 {
      var t := NineBuffersStall(true, Careful(m));
    } else {
      forall n: nat, s | n > 0 && ReachesBy(Init(n), s, true, Careful(m)) ensures !Stalled(s) {
        var steps :| ValidRun(Init(n), steps, true) && Obeys(Init(n), steps, true, Careful(m)) && Run(Init(n), steps, true) == s;
        ChainWithin(Init(n), steps, true, m);
        if Stalled(s) { CoveredStall(n, steps, Careful(m)); }
      }
    }
  }

  /** Packets of two buffers leave at most one buffer in the chain per start. */
  predicate OnePerStart(s: State)
  {
    && |s.chain| <= s.mac.starts + (if Complete(s.input) then 1 else 0)
    && (!Complete(s.input) && !s.mac.dangling ==> s.chain == [] || |s.chain| < s.mac.starts)
    && (s.mac.started || !s.link.LinkIdle? || s.input.Linking? || s.input.Rebuilding? || s.input.ReadDone? ==> s.mac.starts > 0)
  }

  lemma {:induction false} StepKeepsOnePerStart(s: State, step: Step, r: nat)
    requires Enabled(s, step, true) && OnePerStart(s) && Allows(ShortPackets(r), s, step) && s.mac.starts <= r
    ensures OnePerStart(Apply(s, step)) && Apply(s, step).mac.starts <= r
  {
    hide Covered;
  }

  lemma {:induction false} RunKeepsOnePerStart(s: State, steps: seq<Step>, r: nat)
    requires ValidRun(s, steps, true) && Obeys(s, steps, true, ShortPackets(r)) && OnePerStart(s) && s.mac.starts <= r
    ensures OnePerStart(Run(s, steps, true)) && Run(s, steps, true).mac.starts <= r
    decreases |steps|
  {
    hide Enabled, Apply, OnePerStart, Allows;
    if steps != [] {
      var n := |steps| - 1;
      RunKeepsOnePerStart(s, steps[..n], r);
      StepKeepsOnePerStart(Run(s, steps[..n], true), steps[n], r);
    }
  }

  /**
   * With packets of at most two buffers, as the MAC delivers them, and covered
   * starts, the receive path can stall if and only if the MAC is started nine
   * times: each stop may leave the first half of a packet in the chain.
   */
  lemma {:induction false} ShortPacketsStallIff(r: nat)
    ensures (exists n: nat, s :: n > 0 && ReachesBy(Init(n), s, true, ShortPackets(r)) && Stalled(s)) <==> r >= 9
  {
    if r >= 9 {
      var t := NineBuffersStall(true, ShortPackets(r));
    } else {
      forall n: nat, s | n > 0 && ReachesBy(Init(n), s, true, ShortPackets(r)) ensures !Stalled(s) {
        var steps :| ValidRun(Init(n), steps, true) && Obeys(Init(n), steps, true, ShortPackets(r))
                     && Run(Init(n), steps, true) == s;
        RunKeepsOnePerStart(Init(n), steps, r);
        if Stalled(s) { CoveredStall(n, steps, ShortPackets(r)); }
      }
    }
  }
}
