/** Runs of the receive machine that take only certain steps, and how they are put together. */
module RxRuns {
  import opened RxPool

  /** The stack or a pbuf_free call holds a buffer that can still come back. */
  ghost predicate Outstanding(s: State)
  {
    || (|s.freers| > 1 && exists j :: 0 <= j < |s.stack| && s.stack[j] != [])
    || exists i :: 0 <= i < |s.freers| && s.freers[i].bufs != []
  }

  /** HAL_ETH_Start_IT can arm all its descriptors, or no buffer can come back while it fails to. */
  ghost predicate Covered(s: State)
  {
    |s.g.pool| + |s.dma| >= ETH_RX_DESC_CNT || !Outstanding(s)
  }

  /**
   * What a run is restricted to: chains of so many buffers, starts of the MAC in
   * covered states, both of these, no start at all, or packets of at most two
   * buffers together with so many covered starts.
   */
  datatype Policy =
    | Anything
    | PacketsWithin(m: nat)
    | CoveredStarts
    | Careful(m: nat)
    | NoStart
    | ShortPackets(starts: nat)

  ghost predicate Allows(policy: Policy, s: State, step: Step)
  {
    match policy
    case Anything => true
    case PacketsWithin(m) => step.InputLinkBuf? ==> |s.chain| < m
    case CoveredStarts => step.LinkStart? ==> Covered(s)
    case Careful(m) => (step.LinkStart? ==> Covered(s)) && (step.InputLinkBuf? ==> |s.chain| < m)
    case NoStart => !step.LinkStart?
    case ShortPackets(r) =>
      (step.LinkStart? ==> Covered(s) && s.mac.starts < r) && (step == InputLinkBuf(false) ==> !s.mac.dangling)
  }

  ghost predicate Obeys(s: State, steps: seq<Step>, preemptible: bool, policy: Policy)
    requires ValidRun(s, steps, preemptible)
  {
    steps == [] ||
    (var n := |steps| - 1;
     Obeys(s, steps[..n], preemptible, policy) && Allows(policy, Run(s, steps[..n], preemptible), steps[n]))
  }

  ghost predicate ReachesBy(s: State, t: State, preemptible: bool, policy: Policy)
  {
    exists steps :: ValidRun(s, steps, preemptible) && Obeys(s, steps, preemptible, policy) && Run(s, steps, preemptible) == t
  }

  lemma {:induction false} ByRefl(s: State, preemptible: bool, policy: Policy)
    ensures ReachesBy(s, s, preemptible, policy)
  {
    assert ValidRun(s, [], preemptible) && Obeys(s, [], preemptible, policy);
  }

  lemma {:induction false} ByStep(s: State, t: State, step: Step, preemptible: bool, policy: Policy)
    requires ReachesBy(s, t, preemptible, policy) && Enabled(t, step, preemptible) && Allows(policy, t, step)
    ensures ReachesBy(s, Apply(t, step), preemptible, policy)
  {
    hide Enabled, Apply, Allows;
    var a :| ValidRun(s, a, preemptible) && Obeys(s, a, preemptible, policy) && Run(s, a, preemptible) == t;
    RunStep(s, a, step, preemptible);
    assert (a + [step])[..|a|] == a;
    assert Obeys(s, a + [step], preemptible, policy);
  }

  lemma {:induction false} ByReaches(s: State, t: State, preemptible: bool, policy: Policy)
    requires ReachesBy(s, t, preemptible, policy)
    ensures Reaches(s, t, preemptible)
  {
  }

  // ------------------------------------------- filling the descriptors

  /** The first `k` free buffers have been attached to descriptors. */
  function Filled(s: State, k: nat): State
    requires k <= |s.g.pool|
  {
    s.(g := s.g.(pool := s.g.pool[k..]), dma := s.dma + s.g.pool[..k])
  }

  lemma {:induction false} FilledOnce(s: State, k: nat)
    requires 0 < k <= |s.g.pool|
    ensures Filled(Filled(s, 1), k - 1) == Filled(s, k)
  {
    var p := s.g.pool;
    assert p[1..][k - 1..] == p[k..];
    assert (s.dma + p[..1]) + p[1..][..k - 1] == s.dma + p[..k];
  }

  /** The input task or the link thread is inside ETH_UpdateDescriptor. */
  predicate Updating(s: State, alloc: Step)
  {
    (alloc.InputAlloc? && s.input.Rebuilding?) || (alloc.LinkAlloc? && s.LinkRuns() && s.link.Starting?)
  }

  lemma {:induction false} Allocs(s0: State, s: State, alloc: Step, k: nat, preemptible: bool, policy: Policy)
    requires ReachesBy(s0, s, preemptible, policy) && Updating(s, alloc) && !s.link.StorePending?
    requires |s.dma| + k <= ETH_RX_DESC_CNT && k <= |s.g.pool|
    ensures ReachesBy(s0, Filled(s, k), preemptible, policy)
    decreases k
  {
    hide ReachesBy;
    if k == 0 {
      assert s.g.pool[0..] == s.g.pool && s.dma + s.g.pool[..0] == s.dma;
    } else {
      ByStep(s0, s, alloc, preemptible, policy);
      assert s.g.pool[..1] == [s.g.pool[0]];
      Allocs(s0, Filled(s, 1), alloc, k - 1, preemptible, policy);
      FilledOnce(s, k);
    }
  }

  // ----------------------------------------------------- freeing it all


  /** `t` is `s` but for the flag, the pool, the token, the freers and the history. */
  predicate SameElsewhere(s: State, t: State)
  {
    && t.dma == s.dma && t.chain == s.chain && t.input == s.input && t.link == s.link
    && t.mac == s.mac && |t.freers| == |s.freers|
  }

  function Rank(pc: FreePc): nat
  {
    match pc case Walk => 0 case Signal => 1 case ClearFlag => 2 case ReadFlag => 3
  }

  /** What freer `i` does next. */
  function FreeStep(s: State, i: nat): Step
    requires i < |s.freers|
  {
    match s.freers[i].pc
    case Walk => FreeReturn(i)
    case ReadFlag => FreeRead(i)
    case ClearFlag => FreeClear(i)
    case Signal => FreeSignal(i)
  }

  lemma {:induction false} FreeStepDoes(s: State, i: nat)
    requires i < |s.freers| && !s.freers[i].Idle()
    ensures Enabled(s, FreeStep(s, i), true)
    ensures var t, f := Apply(s, FreeStep(s, i)), Apply(s, FreeStep(s, i)).freers[i];
            && SameElsewhere(s, t) && t.stack == s.stack && t.freers == s.freers[i := f]
            && |t.g.pool| + |f.bufs| == |s.g.pool| + |s.freers[i].bufs|
            && (|f.bufs| < |s.freers[i].bufs| || (f.bufs == s.freers[i].bufs && Rank(f.pc) < Rank(s.freers[i].pc)))
  {
  }

  /** Freer `i` can always finish its pbuf_free call. */
  lemma {:induction false} FinishOne(s0: State, s: State, i: nat) returns (t: State)
    requires ReachesBy(s0, s, true, NoStart) && i < |s.freers|
    ensures ReachesBy(s0, t, true, NoStart) && SameElsewhere(s, t) && t.stack == s.stack
    ensures t.freers == s.freers[i := Freer(Walk, [])]
    ensures |t.g.pool| == |s.g.pool| + |s.freers[i].bufs|
    decreases |s.freers[i].bufs|, Rank(s.freers[i].pc)
  {
    hide ReachesBy;
    if s.freers[i].Idle() {
      t := s;
      assert s.freers[i := Freer(Walk, [])] == s.freers;
    } else {
      FreeStepDoes(s, i);
      ByStep(s0, s, FreeStep(s, i), true, NoStart);
      t := FinishOne(s0, Apply(s, FreeStep(s, i)), i);
    }
  }

  /** All pbuf_free calls from the k-th on finish. */
  lemma {:induction false} FinishAll(s0: State, s: State, k: nat) returns (t: State)
    requires ReachesBy(s0, s, true, NoStart) && k <= |s.freers|
    requires forall i :: 0 <= i < k ==> s.freers[i].Idle()
    ensures ReachesBy(s0, t, true, NoStart) && SameElsewhere(s, t) && t.stack == s.stack
    ensures forall i :: 0 <= i < |t.freers| ==> t.freers[i].Idle()
    ensures |t.g.pool| >= |s.g.pool|
    ensures (exists i :: k <= i < |s.freers| && s.freers[i].bufs != []) ==> |t.g.pool| > |s.g.pool|
    decreases |s.freers| - k
  {
    hide ReachesBy;
    if k == |s.freers| {
      t := s;
    } else {
      var u := FinishOne(s0, s, k);
      assert forall i :: k < i < |s.freers| ==> u.freers[i] == s.freers[i];
      t := FinishAll(s0, u, k + 1);
    }
  }

  /** Then the stack frees its packets from the j-th on. */
  lemma {:induction false} FreeStack(s0: State, s: State, j: nat) returns (t: State)
    requires ReachesBy(s0, s, true, NoStart) && |s.freers| > 1 && j <= |s.stack|
    requires forall i :: 0 <= i < |s.freers| ==> s.freers[i].Idle()
    requires forall i :: 0 <= i < j ==> s.stack[i] == []
    ensures ReachesBy(s0, t, true, NoStart) && SameElsewhere(s, t)
    ensures forall i :: 0 <= i < |t.freers| ==> t.freers[i].Idle()
    ensures forall i :: 0 <= i < |t.stack| ==> t.stack[i] == []
    ensures |t.g.pool| >= |s.g.pool|
    ensures (exists i :: j <= i < |s.stack| && s.stack[i] != []) ==> |t.g.pool| > |s.g.pool|
    decreases |s.stack| - j
  {
    hide ReachesBy;
    if j == |s.stack| {
      t := s;
    } else if s.stack[j] == [] {
      t := FreeStack(s0, s, j + 1);
    } else {
      var p := s.stack[j];
      ByStep(s0, s, StackFree(1, j, |p|), true, NoStart);
      var u := Apply(s, StackFree(1, j, |p|));
      assert p[|p|..] == [] && p[..|p|] == p;
      var v := FinishOne(s0, u, 1);
      t := FreeStack(s0, v, j + 1);
    }
  }

  /** A stopped MAC: the input task takes the token and goes back to waiting. */
  lemma {:induction false} TakeToken(s0: State, s: State)
    requires ReachesBy(s0, s, true, NoStart) && s.input.Waiting? && !s.mac.started && s.freers != []
    ensures ReachesBy(s0, s.(g := s.g.(token := false)), true, NoStart)
  {
    hide ReachesBy;
    if s.g.token {
      ByStep(s0, s, InputAcquire, true, NoStart);
      ByStep(s0, Apply(s, InputAcquire), InputCheck, true, NoStart);
    }
  }
}
