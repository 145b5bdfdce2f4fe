/**
 * When the receive path stalls for good, if an allocation failure and the
 * raising of the flag are atomic, as they are in the input task.
 */
module RxStall {
  import opened RxPool
  import opened RxRuns

  predicate OutsideHal(s: State) { s.input.Waiting? || s.input.CheckFlag? }

  /** The flag is up, the stack holds nothing and no pbuf_free call is under way. */
  predicate Stalled(s: State)
  {
    && s.g.status.RxAllocError?
    && OutsideHal(s)
    && (forall j :: 0 <= j < |s.stack| ==> s.stack[j] == [])
    && (forall i :: 0 <= i < |s.freers| ==> s.freers[i].Idle())
  }

  lemma {:induction false} StepKeepsStall(s: State, step: Step, preemptible: bool)
    requires Stalled(s) && Enabled(s, step, preemptible)
    ensures Stalled(Apply(s, step)) && Apply(s, step).chain == s.chain
  {
  }

  /** A stall is final: whatever happens next, no packet is ever read or delivered again. */
  lemma {:induction false} StallIsForever(s: State, steps: seq<Step>, preemptible: bool)
    requires Stalled(s) && ValidRun(s, steps, preemptible)
    ensures Stalled(Run(s, steps, preemptible)) && Run(s, steps, preemptible).chain == s.chain
    decreases |steps|
  {
    if steps != [] {
      var m := |steps| - 1;
      StallIsForever(s, steps[..m], preemptible);
      StepKeepsStall(Run(s, steps[..m], preemptible), steps[m], preemptible);
    }
  }

  // ------------------------------------------- where the buffers are

  lemma {:induction false} ReachableIsConserved(s: State, preemptible: bool)
    requires Reachable(s, preemptible)
    ensures Conserved(s) && Good(s, preemptible)
  {
    var n: nat :| n > 0 && Reaches(Init(n), s, preemptible);
    var steps :| ValidRun(Init(n), steps, preemptible) && Run(Init(n), steps, preemptible) == s;
    hide Good, Conserved;
    RunsStayGood(n, steps, preemptible);
    BuffersConserved(n, steps, preemptible);
  }

  function All(): seq<Buf> { seq(ETH_RX_BUFFER_CNT, b => b) }

  lemma {:induction false} AllOnce(b: Buf)
    ensures Occ(All(), b) == if b < ETH_RX_BUFFER_CNT then 1 else 0
  {
    OccRange(ETH_RX_BUFFER_CNT, b);
    assert All() == seq(ETH_RX_BUFFER_CNT, x => x);
  }

  /** A list in which no buffer occurs more often than in the pool at power-up is as long only if it is the same. */
  lemma {:induction false} AllTwelve(p: Packet)
    requires forall b: Buf :: Occ(p, b) <= if b < ETH_RX_BUFFER_CNT then 1 else 0
    ensures |p| <= ETH_RX_BUFFER_CNT
    ensures |p| == ETH_RX_BUFFER_CNT <==> forall b: Buf :: Occ(p, b) == if b < ETH_RX_BUFFER_CNT then 1 else 0
  {
    var all, mine := multiset(All()), multiset(p);
    forall b: Buf ensures mine[b] <= all[b] && all[b] == if b < ETH_RX_BUFFER_CNT then 1 else 0 {
      AllOnce(b);
      assert Occ(p, b) == mine[b];
    }
    assert mine <= all;
    assert all == mine + (all - mine);
    assert |all| == |mine| + |all - mine|;
    if |p| == ETH_RX_BUFFER_CNT {
      assert all - mine == multiset{};
      assert forall b: Buf :: Occ(p, b) == mine[b];
    }
    if forall b: Buf :: Occ(p, b) == if b < ETH_RX_BUFFER_CNT then 1 else 0 {
      assert forall b: Buf :: mine[b] == Occ(p, b) == all[b];
      assert mine == all;
    }
  }

  lemma {:induction false} OccOfOne(ps: seq<Packet>, i: nat, b: Buf)
    requires i < |ps|
    ensures Occ(ps[i], b) <= OccIn(ps, b)
  {
    if i > 0 { OccOfOne(ps[1..], i - 1, b); }
  }

  lemma {:induction false} OccNone(ps: seq<Packet>)
    requires forall b: Buf :: OccIn(ps, b) == 0
    ensures forall i :: 0 <= i < |ps| ==> ps[i] == []
  {
    forall i | 0 <= i < |ps| ensures ps[i] == [] {
      forall b: Buf ensures Occ(ps[i], b) == 0 { OccOfOne(ps, i, b); }
      assert forall b: Buf :: multiset(ps[i])[b] == Occ(ps[i], b);
      assert multiset(ps[i]) == multiset{};
      assert |multiset(ps[i])| == |ps[i]|;
    }
  }

  /** Nothing is held outside the driver exactly if pool, descriptors and unfinished packet make up all twelve buffers. */
  lemma {:induction false} DriverHoldsAllIff(s: State)
    requires Conserved(s) && OutsideHal(s)
    ensures |s.g.pool| + |s.dma| + |s.chain| <= ETH_RX_BUFFER_CNT
    ensures |s.g.pool| + |s.dma| + |s.chain| == ETH_RX_BUFFER_CNT <==>
              && (forall j :: 0 <= j < |s.stack| ==> s.stack[j] == [])
              && (forall i :: 0 <= i < |s.freers| ==> s.freers[i].bufs == [])
  {
    var p := s.g.pool + s.dma + s.chain;
    forall b: Buf ensures Occ(p, b) + OccIn(s.stack, b) + OccIn(Held(s.freers), b) == if b < ETH_RX_BUFFER_CNT then 1 else 0 {
      OccAppend(s.g.pool, s.dma, b);
      OccAppend(s.g.pool + s.dma, s.chain, b);
      assert Places(s, b) == if b < ETH_RX_BUFFER_CNT then 1 else 0;
    }
    AllTwelve(p);
    if |p| == ETH_RX_BUFFER_CNT {
      forall b: Buf ensures OccIn(s.stack, b) == 0 { assert Occ(p, b) == if b < ETH_RX_BUFFER_CNT then 1 else 0; }
      forall b: Buf ensures OccIn(Held(s.freers), b) == 0 { assert Occ(p, b) == if b < ETH_RX_BUFFER_CNT then 1 else 0; }
      OccNone(s.stack);
      OccNone(Held(s.freers));
      assert forall i :: 0 <= i < |s.freers| ==> s.freers[i].bufs == Held(s.freers)[i];
    } else if (forall j :: 0 <= j < |s.stack| ==> s.stack[j] == []) && forall i :: 0 <= i < |s.freers| ==> s.freers[i].bufs == [] {
      forall b: Buf ensures Occ(p, b) == if b < ETH_RX_BUFFER_CNT then 1 else 0 {
        OccEmpty(s.stack, b);
        OccEmpty(Held(s.freers), b);
      }
    }
  }

  // ------------------------------------------------ atomic failures

  /**
   * With atomic failures a reachable state is stalled exactly if the flag is
   * up, nobody is inside pbuf_free_custom, and descriptors and unfinished packet
   * hold all twelve buffers.
   */
  lemma {:induction false} AtomicStallIff(s: State)
    requires Reachable(s, false)
    ensures Stalled(s) <==>
              && s.g.status.RxAllocError? && OutsideHal(s)
              && (forall i :: 0 <= i < |s.freers| ==> s.freers[i].pc.Walk?)
              && |s.dma| + |s.chain| == ETH_RX_BUFFER_CNT
  {
    ReachableIsConserved(s, false);
    if OutsideHal(s) { DriverHoldsAllIff(s); }
  }

  /** A stall for which the flag is justified: the pool is empty, a descriptor lacks a buffer, nine are in the chain. */
  lemma {:induction false} JustifiedStall(s: State)
    requires Conserved(s) && FlagJustified(s) && Stalled(s)
    ensures s.g.pool == [] && |s.dma| < ETH_RX_DESC_CNT
    ensures |s.dma| + |s.chain| == ETH_RX_BUFFER_CNT && |s.chain| > ETH_RX_BUFFER_CNT - ETH_RX_DESC_CNT
  {
    DriverHoldsAllIff(s);
  }

  lemma {:induction false} AtomicFailureStall(s: State)
    requires Reachable(s, false) && Stalled(s)
    ensures s.g.pool == [] && |s.dma| < ETH_RX_DESC_CNT
    ensures |s.dma| + |s.chain| == ETH_RX_BUFFER_CNT && |s.chain| > ETH_RX_BUFFER_CNT - ETH_RX_DESC_CNT
  {
    ReachableIsConserved(s, false);
    JustifiedStall(s);
  }

  lemma {:induction false} ChainWithin(s0: State, steps: seq<Step>, preemptible: bool, m: nat)
    requires ValidRun(s0, steps, preemptible) && |s0.chain| <= m
    requires Obeys(s0, steps, preemptible, PacketsWithin(m)) || Obeys(s0, steps, preemptible, Careful(m))
    ensures |Run(s0, steps, preemptible).chain| <= m
    decreases |steps|
  {
    if steps != [] {
      var n := |steps| - 1;
      ChainWithin(s0, steps[..n], preemptible, m);
      StepChain(Run(s0, steps[..n], preemptible), steps[n]);
    }
  }

  lemma {:induction false} StepChain(s: State, step: Step)
    requires Enabled(s, step, true)
    ensures |Apply(s, step).chain| <= if step.InputLinkBuf? then |s.chain| + 1 else |s.chain|
  {
  }

  // ------------------------------ packets cut short by stops of the MAC

  /** Nine starts, nine buffers in the chain. */
  predicate AllowsNine(policy: Policy)
  {
    match policy
    case Anything => true
    case PacketsWithin(m) => m >= 9
    case CoveredStarts => true
    case Careful(m) => m >= 9
    case NoStart => false
    case ShortPackets(r) => r >= 9
  }

  /** `c` buffers are in the chain, all others in the pool or armed, and nobody does anything. */
  predicate Assembling(s: State, c: nat)
  {
    && s.input.Waiting? && s.link.LinkIdle? && !s.mac.failed && s.g.status.RxAllocOk? && !s.g.token
    && s.freers == Init(1).freers && s.stack == []
    && |s.chain| == c && |s.dma| + |s.g.pool| + c == ETH_RX_BUFFER_CNT && |s.dma| <= ETH_RX_DESC_CNT
  }

  /** The MAC has been stopped in the middle of its c-th packet. */
  predicate Cut(s: State, c: nat) { Assembling(s, c) && !s.mac.started && s.mac.starts == c }

  /** The MAC has been started once more. */
  predicate Restarted(s: State, c: nat)
  {
    Assembling(s, c) && s.mac.started && s.mac.starts == c + 1 && !s.mac.dangling && |s.dma| == ETH_RX_DESC_CNT
  }

  lemma {:induction false} StartAgain(s0: State, s: State, c: nat, preemptible: bool, policy: Policy) returns (t: State)
    requires ReachesBy(s0, s, preemptible, policy) && AllowsNine(policy) && Cut(s, c) && c <= 8
    ensures ReachesBy(s0, t, preemptible, policy) && Restarted(t, c)
  {
    hide ReachesBy;
    ByStep(s0, s, LinkStart, preemptible, policy);
    var u, k := Apply(s, LinkStart), ETH_RX_DESC_CNT - |s.dma|;
    Allocs(s0, u, LinkAlloc, k, preemptible, policy);
    var v := Filled(u, k);
    ByStep(s0, v, LinkFinish, preemptible, policy);
    t := Apply(v, LinkFinish);
  }

  /** An interrupt wakes the input task, which enters HAL_ETH_ReadData. */
  lemma {:induction false} Enter(s0: State, s: State, preemptible: bool, policy: Policy)
    requires ReachesBy(s0, s, preemptible, policy) && AllowsNine(policy) && s.link.LinkIdle?
    requires s.input.Waiting? && s.mac.started && s.g.status.RxAllocOk? && !s.g.token
    ensures ReachesBy(s0, s.(input := Linking(false)), preemptible, policy)
  {
    hide ReachesBy;
    ByStep(s0, s, RxSignal, preemptible, policy);
    var t := Apply(s, RxSignal);
    ByStep(s0, t, InputAcquire, preemptible, policy);
    var u := Apply(t, InputAcquire);
    ByStep(s0, u, InputCheck, preemptible, policy);
    assert Apply(u, InputCheck) == s.(input := Linking(false));
  }

  /** The first buffer of a packet that takes two is linked, and its descriptor about to be refilled. */
  lemma {:induction false} FirstHalf(s0: State, s: State, c: nat, preemptible: bool, policy: Policy) returns (t: State)
    requires ReachesBy(s0, s, preemptible, policy) && AllowsNine(policy) && Restarted(s, c) && c <= 8
    ensures ReachesBy(s0, t, preemptible, policy)
    ensures t == s.(chain := s.chain + [s.dma[0]], dma := s.dma[1..], input := Rebuilding(false), mac := s.mac.(dangling := true),
                    retryOwed := false)
  {
    hide ReachesBy;
    Enter(s0, s, preemptible, policy);
    var u := s.(input := Linking(false));
    ByStep(s0, u, InputLinkBuf(false), preemptible, policy);
    var v := Apply(u, InputLinkBuf(false));
    ByStep(s0, v, InputRebuild, preemptible, policy);
    t := Apply(v, InputRebuild);
  }

  /** Then the MAC is stopped. */
  lemma {:induction false} CutOne(s0: State, s: State, c: nat, preemptible: bool, policy: Policy) returns (t: State)
    requires ReachesBy(s0, s, preemptible, policy) && AllowsNine(policy) && Restarted(s, c) && c < 8
    ensures ReachesBy(s0, t, preemptible, policy) && Cut(t, c + 1)
  {
    hide ReachesBy;
    var u := FirstHalf(s0, s, c, preemptible, policy);
    ByStep(s0, u, InputAlloc, preemptible, policy);
    var v := Apply(u, InputAlloc);
    ByStep(s0, v, InputReturn, preemptible, policy);
    var w := Apply(v, InputReturn);
    ByStep(s0, w, LinkStop, preemptible, policy);
    t := Apply(w, LinkStop);
  }

  lemma {:induction false} CutAll(s0: State, s: State, c: nat, preemptible: bool, policy: Policy) returns (t: State)
    requires ReachesBy(s0, s, preemptible, policy) && AllowsNine(policy) && Restarted(s, c) && c <= 8
    ensures ReachesBy(s0, t, preemptible, policy) && Restarted(t, 8)
    decreases 8 - c
  {
    hide ReachesBy, Restarted, Cut;
    if c == 8 {
      t := s;
    } else {
      var u := CutOne(s0, s, c, preemptible, policy);
      var v := StartAgain(s0, u, c + 1, preemptible, policy);
      t := CutAll(s0, v, c + 1, preemptible, policy);
    }
  }

  /** After the ninth start no buffer is left to refill the descriptor. */
  lemma {:induction false} Ninth(s0: State, s: State, preemptible: bool, policy: Policy) returns (t: State)
    requires ReachesBy(s0, s, preemptible, policy) && AllowsNine(policy) && Restarted(s, 8)
    ensures ReachesBy(s0, t, preemptible, policy) && Stalled(t) && |t.chain| == 9 && t.mac.starts == 9
  {
    hide ReachesBy;
    var u := FirstHalf(s0, s, 8, preemptible, policy);
    ByStep(s0, u, InputAlloc, preemptible, policy);
    var v := Apply(u, InputAlloc);
    ByStep(s0, v, InputReturn, preemptible, policy);
    t := Apply(v, InputReturn);
  }

  /**
   * Nine starts of the MAC, each followed by the first half of a packet of two
   * buffers: reception stalls with these nine halves in the chain, although no
   * start fails to find its buffers.
   */
  lemma {:induction false} NineBuffersStall(preemptible: bool, policy: Policy) returns (t: State)
    requires AllowsNine(policy)
    ensures ReachesBy(Init(1), t, preemptible, policy) && Reachable(t, preemptible)
    ensures Stalled(t) && |t.chain| == 9 && t.mac.starts == 9
  {
    var s := Init(1);
    ByRefl(s, preemptible, policy);
    hide ReachesBy, Restarted;
    var a := StartAgain(s, s, 0, preemptible, policy);
    var b := CutAll(s, a, 0, preemptible, policy);
    t := Ninth(s, b, preemptible, policy);
    ByReaches(s, t, preemptible, policy);
  }

  /** With atomic failures the receive path can stall if and only if a chain can take nine buffers. */
  lemma {:induction false} AtomicStallPossibleIff(m: nat)
    ensures (exists n: nat, s :: n > 0 && ReachesBy(Init(n), s, false, PacketsWithin(m)) && Stalled(s)) <==> m >= 9
  {
    if m >= 9 {
      var t := NineBuffersStall(false, PacketsWithin(m));
    } else {
      forall n: nat, s | n > 0 && ReachesBy(Init(n), s, false, PacketsWithin(m)) ensures !Stalled(s) {
        ByReaches(Init(n), s, false, PacketsWithin(m));
        assert Reachable(s, false);
        var steps :| ValidRun(Init(n), steps, false) && Obeys(Init(n), steps, false, PacketsWithin(m))
                     && Run(Init(n), steps, false) == s;
        ChainWithin(Init(n), steps, false, m);
        if Stalled(s) { AtomicFailureStall(s); }
      }
    }
  }
}
