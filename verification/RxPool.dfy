/**
 * The zero-copy receive pool of LWIP/Target/ethernetif.c.
 *
 * Twelve buffers circulate between RX_POOL, the DMA descriptors, the packet
 * under assembly, the input task and the TCP/IP stack.  A failed allocation
 * raises a sticky flag that stops reception; whoever next returns a buffer
 * lowers the flag and releases the receive semaphore.  The protocol is a state
 * machine over atomic steps of the interrupts, the input task, the link thread
 * and any number of tasks inside pbuf_free.
 */
module RxPool {
  const ETH_RX_BUFFER_CNT: nat := 12
  const ETH_RX_DESC_CNT: nat := 4

  type Buf = nat
  type Packet = seq<Buf>

  datatype AllocStatus = RxAllocOk | RxAllocError

  /** What all tasks share: the flag, the free list (most recently freed first) and the binary semaphore. */
  datatype Shared = Shared(status: AllocStatus, pool: seq<Buf>, token: bool)

  /** Progress of one pbuf_free call; in Walk with no buffers left the task is outside pbuf_free. */
  datatype FreePc = Walk | ReadFlag | ClearFlag | Signal

  datatype Freer = Freer(pc: FreePc, bufs: Packet) {
    predicate Idle() { pc.Walk? && bufs == [] }
  }

  /** The input task; `ready` records that the last descriptor of a packet has been linked. */
  datatype InputPc =
    | Waiting
    | CheckFlag
    | Linking(ready: bool)
    | Rebuilding(ready: bool)
    | ReadDone(ready: bool)
    | Delivering(packet: Packet)
    | Refusing

  /** The link thread; StorePending is the point between a failed allocation and the raising of the flag. */
  datatype LinkPc = LinkIdle | Starting | StorePending

  /**
   * Whether the HAL is in its started or its error state.  Two history
   * variables: how often the MAC has been started, and whether the last buffer
   * linked since the last start was not the end of its packet.
   */
  datatype Mac = Mac(started: bool, failed: bool, starts: nat, dangling: bool)

  /**
   * Freer 0 is the pbuf_free call of the input task itself, the others belong
   * to the stack.  `retryOwed` is a history variable: a flip of the flag from
   * error to ok that has been followed neither by a rebuild of the descriptors
   * nor by a new failure.
   */
  datatype State = State(
    g: Shared,
    dma: seq<Buf>,
    chain: Packet,
    stack: seq<Packet>,
    input: InputPc,
    link: LinkPc,
    mac: Mac,
    freers: seq<Freer>,
    retryOwed: bool) {
    predicate LinkRuns() { input.Waiting? && !g.token }
  }

  datatype Step =
    | RxSignal
    | BusError
    | InputAcquire
    | InputCheck
    | InputLinkBuf(last: bool)
    | InputRebuild
    | InputAlloc
    | InputReturn
    | InputDeliver(accepted: bool)
    | InputRefused
    | LinkStop
    | LinkStart
    | LinkAlloc
    | LinkStore
    | LinkFinish
    | StackFree(i: nat, j: nat, k: nat)
    | FreeReturn(i: nat)
    | FreeRead(i: nat)
    | FreeClear(i: nat)
    | FreeSignal(i: nat)

  /** Before the MAC is first started every buffer is in the pool. */
  function Init(n: nat): State
    requires n > 0
  {
    State(Shared(RxAllocOk, seq(ETH_RX_BUFFER_CNT, b => b), false), [], [], [],
          Waiting, LinkIdle, Mac(false, false, 0, false), seq(n, _ => Freer(Walk, [])), false)
  }

  /**
   * Which steps may happen.  The link thread has a lower priority than the
   * input task, so it runs only while the latter waits in vain.  The interrupt
   * of a fatal bus error is enabled only while the MAC runs; no start succeeds
   * after it, as nothing initialises the HAL again.  `preemptible` says
   * whether anything may happen between the link thread's failed allocation
   * and its raising of the flag.
   */
  predicate Enabled(s: State, step: Step, preemptible: bool)
  {
    && (s.link.StorePending? && !preemptible ==> step.LinkStore?)
    && match step
       case RxSignal => true
       case BusError => s.mac.started
       case InputAcquire => s.input.Waiting? && s.g.token
       case InputCheck => s.input.CheckFlag?
       case InputLinkBuf(_) => s.input == Linking(false) && s.dma != []
       case InputRebuild => s.input.Linking?
       case InputAlloc => s.input.Rebuilding? && |s.dma| < ETH_RX_DESC_CNT
       case InputReturn =>
         s.input.ReadDone? || (s.input.Rebuilding? && |s.dma| == ETH_RX_DESC_CNT)
       case InputDeliver(_) => s.input.Delivering? && |s.freers| > 0
       case InputRefused => s.input.Refusing? && |s.freers| > 0 && s.freers[0].Idle()
       case LinkStop => s.LinkRuns() && s.link.LinkIdle? && s.mac.started
       case LinkStart => s.LinkRuns() && s.link.LinkIdle? && !s.mac.started && !s.mac.failed
       case LinkAlloc => s.LinkRuns() && s.link.Starting? && |s.dma| < ETH_RX_DESC_CNT
       case LinkStore => s.LinkRuns() && s.link.StorePending?
       case LinkFinish => s.LinkRuns() && s.link.Starting? && |s.dma| == ETH_RX_DESC_CNT
       case StackFree(i, j, k) =>
         0 < i < |s.freers| && s.freers[i].Idle() && j < |s.stack| && 0 < k <= |s.stack[j]|
       case FreeReturn(i) => i < |s.freers| && s.freers[i].pc.Walk? && s.freers[i].bufs != []
       case FreeRead(i) => i < |s.freers| && s.freers[i].pc.ReadFlag?
       case FreeClear(i) => i < |s.freers| && s.freers[i].pc.ClearFlag?
       case FreeSignal(i) => i < |s.freers| && s.freers[i].pc.Signal?
  }

  function Apply(s: State, step: Step): State
    requires Enabled(s, step, true)
  {
    match step
    case RxSignal => s.(g := s.g.(token := true))
    case BusError => s.(mac := s.mac.(started := false, failed := true))
    case InputAcquire => s.(g := s.g.(token := false), input := CheckFlag)
    case InputCheck =>
      if s.g.status.RxAllocOk? && s.mac.started then s.(input := Linking(false)) else s.(input := Waiting)
    case InputLinkBuf(last) =>
      s.(chain := s.chain + [s.dma[0]], dma := s.dma[1..], input := Linking(last), mac := s.mac.(dangling := !last))
    case InputRebuild => s.(input := Rebuilding(s.input.ready), retryOwed := false)
    case InputAlloc =>
      if s.g.pool != [] then
        s.(g := s.g.(pool := s.g.pool[1..]), dma := s.dma + [s.g.pool[0]])
      else
        s.(g := s.g.(status := RxAllocError), input := ReadDone(s.input.ready), retryOwed := false)
    case InputReturn =>
      if s.input.ready then s.(chain := [], input := Delivering(s.chain)) else s.(input := Waiting)
    case InputDeliver(accepted) =>
      if accepted then
        s.(stack := s.stack + [s.input.packet], input := CheckFlag)
      else
        s.(freers := s.freers[0 := Freer(s.freers[0].pc, s.freers[0].bufs + s.input.packet)], input := Refusing)
    case InputRefused => s.(input := CheckFlag)
    case LinkStop => s.(mac := s.mac.(started := false))
    case LinkStart => s.(link := Starting, mac := s.mac.(starts := s.mac.starts + 1, dangling := false))
    case LinkAlloc =>
      if s.g.pool != [] then
        s.(g := s.g.(pool := s.g.pool[1..]), dma := s.dma + [s.g.pool[0]])
      else
        s.(link := StorePending)
    case LinkStore =>
      s.(g := s.g.(status := RxAllocError), link := LinkIdle, mac := s.mac.(started := true), retryOwed := false)
    case LinkFinish => s.(link := LinkIdle, mac := s.mac.(started := true), retryOwed := false)
    case StackFree(i, j, k) =>
      s.(stack := s.stack[j := s.stack[j][k..]], freers := s.freers[i := Freer(Walk, s.stack[j][..k])])
    case FreeReturn(i) =>
      s.(g := s.g.(pool := [s.freers[i].bufs[0]] + s.g.pool),
         freers := s.freers[i := Freer(ReadFlag, s.freers[i].bufs[1..])])
    case FreeRead(i) =>
      s.(freers := s.freers[i := s.freers[i].(pc := if s.g.status.RxAllocError? then ClearFlag else Walk)])
    case FreeClear(i) =>
      s.(g := s.g.(status := RxAllocOk), freers := s.freers[i := s.freers[i].(pc := Signal)],
         retryOwed := s.retryOwed || s.g.status.RxAllocError?)
    case FreeSignal(i) =>
      s.(g := s.g.(token := true), freers := s.freers[i := s.freers[i].(pc := Walk)])
  }

  // ---------------------------------------------------------------- runs

  predicate ValidRun(s: State, steps: seq<Step>, preemptible: bool)
    decreases |steps|, 0
  {
    steps == [] ||
    (var n := |steps| - 1;
     ValidRun(s, steps[..n], preemptible) && Enabled(Run(s, steps[..n], preemptible), steps[n], preemptible))
  }

  function Run(s: State, steps: seq<Step>, preemptible: bool): State
    requires ValidRun(s, steps, preemptible)
    decreases |steps|, 1
  {
    if steps == [] then s
    else var n := |steps| - 1; Apply(Run(s, steps[..n], preemptible), steps[n])
  }

  ghost predicate Reaches(s: State, t: State, preemptible: bool)
  {
    exists steps :: ValidRun(s, steps, preemptible) && Run(s, steps, preemptible) == t
  }

  /** Reachable from power-up with some number of tasks that can free packets. */
  ghost predicate Reachable(s: State, preemptible: bool)
  {
    exists n: nat :: n > 0 && Reaches(Init(n), s, preemptible)
  }

  lemma {:induction false} RunAppend(s: State, a: seq<Step>, b: seq<Step>, preemptible: bool)
    requires ValidRun(s, a, preemptible)
    requires ValidRun(Run(s, a, preemptible), b, preemptible)
    ensures ValidRun(s, a + b, preemptible)
    ensures Run(s, a + b, preemptible) == Run(Run(s, a, preemptible), b, preemptible)
    decreases |b|
  {
    hide Apply, Enabled;
    if b == [] {
      assert a + b == a;
    } else {
      var n := |b| - 1;
      RunAppend(s, a, b[..n], preemptible);
      assert (a + b)[..|a + b| - 1] == a + b[..n];
    }
  }

  lemma {:induction false} ReachTrans(s: State, t: State, u: State, preemptible: bool)
    requires Reaches(s, t, preemptible) && Reaches(t, u, preemptible)
    ensures Reaches(s, u, preemptible)
  {
    var a :| ValidRun(s, a, preemptible) && Run(s, a, preemptible) == t;
    var b :| ValidRun(t, b, preemptible) && Run(t, b, preemptible) == u;
    RunAppend(s, a, b, preemptible);
  }

  lemma {:induction false} RunStep(s: State, steps: seq<Step>, step: Step, preemptible: bool)
    requires ValidRun(s, steps, preemptible) && Enabled(Run(s, steps, preemptible), step, preemptible)
    ensures ValidRun(s, steps + [step], preemptible)
    ensures Run(s, steps + [step], preemptible) == Apply(Run(s, steps, preemptible), step)
  {
    assert (steps + [step])[..|steps|] == steps;
  }

  lemma {:induction false} ReachStep(s: State, t: State, step: Step, preemptible: bool)
    requires Reaches(s, t, preemptible) && Enabled(t, step, preemptible)
    ensures Reaches(s, Apply(t, step), preemptible)
  {
    var a :| ValidRun(s, a, preemptible) && Run(s, a, preemptible) == t;
    RunStep(s, a, step, preemptible);
  }

  // -------------------------------------------------------- conservation

  /** How often a buffer occurs in a list of buffers. */
  ghost function Occ(p: Packet, b: Buf): nat { multiset(p)[b] }

  ghost function OccIn(packets: seq<Packet>, b: Buf): nat
  {
    if packets == [] then 0 else Occ(packets[0], b) + OccIn(packets[1..], b)
  }

  function Held(freers: seq<Freer>): (r: seq<Packet>)
    ensures |r| == |freers| && forall i :: 0 <= i < |r| ==> r[i] == freers[i].bufs
  {
    seq(|freers|, i requires 0 <= i < |freers| => freers[i].bufs)
  }

  function InputPacket(input: InputPc): Packet
  {
    if input.Delivering? then input.packet else []
  }

  /** In how many places buffer `b` is: pool, descriptors, packet under assembly, input task, stack, pbuf_free calls. */
  ghost function Places(s: State, b: Buf): nat
  {
    Occ(s.g.pool, b) + Occ(s.dma, b) + Occ(s.chain, b) + Occ(InputPacket(s.input), b)
    + OccIn(s.stack, b) + OccIn(Held(s.freers), b)
  }

  lemma {:induction false} OccAppend(p: Packet, q: Packet, b: Buf)
    ensures Occ(p + q, b) == Occ(p, b) + Occ(q, b)
  {
    assert multiset(p + q) == multiset(p) + multiset(q);
  }

  lemma {:induction false} OccSplit(p: Packet, k: nat, b: Buf)
    requires k <= |p|
    ensures Occ(p, b) == Occ(p[..k], b) + Occ(p[k..], b)
  {
    assert p == p[..k] + p[k..];
    OccAppend(p[..k], p[k..], b);
  }

  lemma {:induction false} OccUpdate(ps: seq<Packet>, i: nat, p: Packet, b: Buf)
    requires i < |ps|
    ensures OccIn(ps[i := p], b) + Occ(ps[i], b) == OccIn(ps, b) + Occ(p, b)
  {
    if i == 0 {
      assert ps[0 := p][1..] == ps[1..];
    } else {
      OccUpdate(ps[1..], i - 1, p, b);
      assert ps[i := p][1..] == ps[1..][i - 1 := p];
    }
  }

  lemma {:induction false} OccPush(ps: seq<Packet>, p: Packet, b: Buf)
    ensures OccIn(ps + [p], b) == OccIn(ps, b) + Occ(p, b)
  {
    if ps == [] {
      assert ps + [p] == [p] && [p][1..] == [];
    } else {
      assert (ps + [p])[1..] == ps[1..] + [p];
      OccPush(ps[1..], p, b);
    }
  }

  lemma {:induction false} OccEmpty(ps: seq<Packet>, b: Buf)
    requires forall i :: 0 <= i < |ps| ==> ps[i] == []
    ensures OccIn(ps, b) == 0
  {
    if ps != [] { OccEmpty(ps[1..], b); }
  }

  lemma {:induction false} HeldUpdate(freers: seq<Freer>, i: nat, f: Freer, b: Buf)
    requires i < |freers|
    ensures OccIn(Held(freers[i := f]), b) + Occ(freers[i].bufs, b) == OccIn(Held(freers), b) + Occ(f.bufs, b)
  {
    OccUpdate(Held(freers), i, f.bufs, b);
    assert Held(freers[i := f]) == Held(freers)[i := f.bufs];
  }

  /** An allocation moves the first free buffer behind the armed descriptors. */
  lemma {:induction false} AllocMoves(pool: seq<Buf>, dma: seq<Buf>, b: Buf)
    requires pool != []
    ensures Occ(pool[1..], b) + Occ(dma + [pool[0]], b) == Occ(pool, b) + Occ(dma, b)
  {
    OccSplit(pool, 1, b);
    OccAppend(dma, [pool[0]], b);
    assert pool[..1] == [pool[0]];
  }

  lemma {:induction false} AllocConserves(s: State, step: Step, b: Buf)
    requires Enabled(s, step, true) && (step.InputAlloc? || step.LinkAlloc?)
    ensures Places(Apply(s, step), b) == Places(s, b)
  {
    if s.g.pool != [] { AllocMoves(s.g.pool, s.dma, b); }
  }

  lemma {:induction false} LinkBufConserves(s: State, last: bool, b: Buf)
    requires Enabled(s, InputLinkBuf(last), true)
    ensures Places(Apply(s, InputLinkBuf(last)), b) == Places(s, b)
  {
    AllocMoves(s.dma, s.chain, b);
  }

  lemma {:induction false} DeliverConserves(s: State, accepted: bool, b: Buf)
    requires Enabled(s, InputDeliver(accepted), true)
    ensures Places(Apply(s, InputDeliver(accepted)), b) == Places(s, b)
  {
    if accepted {
      OccPush(s.stack, s.input.packet, b);
    } else {
      var f := s.freers[0];
      OccAppend(f.bufs, s.input.packet, b);
      HeldUpdate(s.freers, 0, Freer(f.pc, f.bufs + s.input.packet), b);
    }
  }

  lemma {:induction false} StackFreeConserves(s: State, i: nat, j: nat, k: nat, b: Buf)
    requires Enabled(s, StackFree(i, j, k), true)
    ensures Places(Apply(s, StackFree(i, j, k)), b) == Places(s, b)
  {
    var p := s.stack[j];
    OccUpdate(s.stack, j, p[k..], b);
    HeldUpdate(s.freers, i, Freer(Walk, p[..k]), b);
    OccSplit(p, k, b);
  }

  /** A return moves the first buffer of the freed chain to the head of the pool. */
  lemma {:induction false} ReturnMoves(p: Packet, pool: seq<Buf>, b: Buf)
    requires p != []
    ensures Occ(p[1..], b) + Occ([p[0]] + pool, b) == Occ(p, b) + Occ(pool, b)
  {
    OccSplit(p, 1, b);
    assert p[..1] == [p[0]];
    OccAppend([p[0]], pool, b);
  }

  lemma {:induction false} ReturnConserves(s: State, i: nat, b: Buf)
    requires Enabled(s, FreeReturn(i), true)
    ensures Places(Apply(s, FreeReturn(i)), b) == Places(s, b)
  {
    var p := s.freers[i].bufs;
    HeldUpdate(s.freers, i, Freer(ReadFlag, p[1..]), b);
    ReturnMoves(p, s.g.pool, b);
  }

  lemma {:induction false} SameHeld(freers: seq<Freer>, i: nat, pc: FreePc)
    requires i < |freers|
    ensures Held(freers[i := freers[i].(pc := pc)]) == Held(freers)
  {
  }

  /** The steps of pbuf_free_custom after the return. */
  lemma {:induction false} FreePcConserves(s: State, step: Step, b: Buf)
    requires Enabled(s, step, true) && (step.FreeRead? || step.FreeClear? || step.FreeSignal?)
    ensures Places(Apply(s, step), b) == Places(s, b)
  {
    SameHeld(s.freers, step.i, Apply(s, step).freers[step.i].pc);
  }

  lemma {:induction false} InputReturnConserves(s: State, b: Buf)
    requires Enabled(s, InputReturn, true)
    ensures Places(Apply(s, InputReturn), b) == Places(s, b)
  {
    hide OccIn, Held;
  }

  /** All steps that only change who does what next. */
  lemma {:induction false} ControlConserves(s: State, step: Step, b: Buf)
    requires Enabled(s, step, true) && !step.InputLinkBuf? && !step.InputReturn? && !step.InputAlloc? && !step.LinkAlloc? && !step.InputDeliver?
    requires !step.StackFree? && !step.FreeReturn? && !step.FreeRead? && !step.FreeClear? && !step.FreeSignal?
    ensures Places(Apply(s, step), b) == Places(s, b)
  {
    hide Occ, OccIn, Held;
  }

  lemma {:induction false} StepConserves(s: State, step: Step, preemptible: bool, b: Buf)
    requires Enabled(s, step, preemptible)
    ensures Places(Apply(s, step), b) == Places(s, b)
  {
    hide Places, Apply;
    match step
    case InputLinkBuf(last) => LinkBufConserves(s, last, b);
    case InputAlloc => AllocConserves(s, step, b);
    case LinkAlloc => AllocConserves(s, step, b);
    case InputReturn => InputReturnConserves(s, b);
    case InputDeliver(accepted) => DeliverConserves(s, accepted, b);
    case StackFree(i, j, k) => StackFreeConserves(s, i, j, k, b);
    case FreeReturn(i) => ReturnConserves(s, i, b);
    case FreeRead(_) => FreePcConserves(s, step, b);
    case FreeClear(_) => FreePcConserves(s, step, b);
    case FreeSignal(_) => FreePcConserves(s, step, b);
    case _ => ControlConserves(s, step, b);
  }

  lemma {:induction false} OccRange(n: nat, b: Buf)
    ensures Occ(seq(n, x => x), b) == if b < n then 1 else 0
  {
    if n > 0 {
      OccRange(n - 1, b);
      assert seq(n, x => x) == seq(n - 1, x => x) + [n - 1];
      OccAppend(seq(n - 1, x => x), [n - 1], b);
    }
  }

  /** Each of the twelve buffers is in exactly one place, and there are no others. */
  ghost predicate Conserved(s: State)
  {
    forall b: Buf :: Places(s, b) == if b < ETH_RX_BUFFER_CNT then 1 else 0
  }

  lemma {:induction false} InitConserved(n: nat)
    requires n > 0
    ensures Conserved(Init(n))
  {
    forall b: Buf ensures Places(Init(n), b) == if b < ETH_RX_BUFFER_CNT then 1 else 0 {
      OccEmpty(Held(Init(n).freers), b);
      OccRange(ETH_RX_BUFFER_CNT, b);
    }
  }

  /** Over any run no buffer is lost, duplicated or returned twice. */
  lemma {:induction false} BuffersConserved(n: nat, steps: seq<Step>, preemptible: bool)
    requires n > 0 && ValidRun(Init(n), steps, preemptible)
    ensures Conserved(Run(Init(n), steps, preemptible))
    decreases |steps|
  {
    if steps == [] {
      InitConserved(n);
    } else {
      var m := |steps| - 1;
      BuffersConserved(n, steps[..m], preemptible);
      var s := Run(Init(n), steps[..m], preemptible);
      forall b: Buf ensures Places(Apply(s, steps[m]), b) == if b < ETH_RX_BUFFER_CNT then 1 else 0 {
        StepConserves(s, steps[m], preemptible, b);
      }
    }
  }

  // ------------------------------------------------------------- wake-up

  /** Someone who has returned a buffer has yet to lower the flag. */
  ghost predicate FlagBeingCleared(s: State)
  {
    exists i :: 0 <= i < |s.freers| && (s.freers[i].pc.ReadFlag? || s.freers[i].pc.ClearFlag?)
  }

  ghost predicate NoLostWakeup(s: State)
  {
    s.g.status.RxAllocError? && s.g.pool != [] ==> FlagBeingCleared(s)
  }

  ghost predicate SignalPending(s: State)
  {
    s.g.token || exists i :: 0 <= i < |s.freers| && s.freers[i].pc.Signal?
  }

  /**
   * After a flip from error to ok the input task is about to retry, or a
   * signal is on its way to it, or the MAC is stopped: then starting it will
   * rebuild the descriptors, unless a bus error has ended reception for good.
   */
  ghost predicate RetryWillHappen(s: State)
  {
    s.retryOwed ==>
      && s.g.status.RxAllocOk?
      && (SignalPending(s) || s.input.CheckFlag? || s.input.Linking? || !s.mac.started)
  }

  /** The driver itself is inside pbuf_free only for a packet the stack has refused. */
  predicate DriverFreesOnlyRefused(s: State)
  {
    |s.freers| > 0 && (s.input.Refusing? || s.freers[0].Idle()) && |s.dma| <= ETH_RX_DESC_CNT
  }

  /** No allocation is possible and a descriptor needs one. */
  predicate Starved(s: State)
  {
    s.g.pool == [] && |s.dma| < ETH_RX_DESC_CNT
  }

  /** The flag is up for a reason: someone is about to lower it, or it is still true that an allocation fails. */
  ghost predicate FlagJustified(s: State)
  {
    && (s.g.status.RxAllocError? ==> FlagBeingCleared(s) || Starved(s))
    && (s.link.StorePending? ==> Starved(s))
  }

  ghost predicate Good(s: State, preemptible: bool)
  {
    && DriverFreesOnlyRefused(s)
    && RetryWillHappen(s)
    && (!preemptible ==> NoLostWakeup(s) && FlagJustified(s))
  }

  /** A task other than the one that moved is where it was. */
  lemma {:induction false} OtherFreers(s: State, step: Step)
    requires Enabled(s, step, true)
    ensures |Apply(s, step).freers| == |s.freers|
    ensures forall i :: 0 <= i < |s.freers| && Apply(s, step).freers[i] != s.freers[i] ==>
              (step.InputDeliver? && i == 0) || (step.StackFree? && step.i == i) || (step.FreeReturn? && step.i == i)
              || (step.FreeRead? && step.i == i) || (step.FreeClear? && step.i == i) || (step.FreeSignal? && step.i == i)
  {
  }

  lemma {:induction false} StepKeepsDriverFrees(s: State, step: Step)
    requires Enabled(s, step, true) && DriverFreesOnlyRefused(s)
    ensures DriverFreesOnlyRefused(Apply(s, step))
  {
    OtherFreers(s, step);
  }

  lemma {:induction false} StepKeepsRetry(s: State, step: Step)
    requires Enabled(s, step, true) && RetryWillHappen(s)
    requires DriverFreesOnlyRefused(s)
    ensures RetryWillHappen(Apply(s, step))
  {
    var t := Apply(s, step);
    OtherFreers(s, step);
    if step.FreeClear? {
      assert t.freers[step.i].pc.Signal?;
    } else if t.retryOwed && s.retryOwed && !s.g.token {
      if i :| 0 <= i < |s.freers| && s.freers[i].pc.Signal? {
        assert t.g.token || t.freers[i].pc.Signal?;
      }
    }
  }

  /** Whoever is about to lower the flag stays so until it is lowered. */
  lemma {:induction false} ClearingGoesOn(s: State, step: Step)
    requires Enabled(s, step, true) && FlagBeingCleared(s)
    requires s.g.status.RxAllocError? && Apply(s, step).g.status.RxAllocError?
    ensures FlagBeingCleared(Apply(s, step))
  {
    var t := Apply(s, step);
    OtherFreers(s, step);
    var i :| 0 <= i < |s.freers| && (s.freers[i].pc.ReadFlag? || s.freers[i].pc.ClearFlag?);
    assert t.freers[i].pc.ReadFlag? || t.freers[i].pc.ClearFlag?;
  }

  lemma {:induction false} ReturnIsClearing(s: State, i: nat)
    requires Enabled(s, FreeReturn(i), true)
    ensures FlagBeingCleared(Apply(s, FreeReturn(i)))
  {
    assert Apply(s, FreeReturn(i)).freers[i].pc.ReadFlag?;
  }

  lemma {:induction false} FailureStays(s: State, step: Step)
    requires Enabled(s, step, false) && (s.link.StorePending? ==> Starved(s))
    ensures Apply(s, step).link.StorePending? ==> Starved(Apply(s, step))
  {
  }

  /** With atomic failures the flag stays justified, and so no wake-up is lost. */
  lemma {:induction false} StepKeepsWakeup(s: State, step: Step)
    requires Enabled(s, step, false) && FlagJustified(s) && DriverFreesOnlyRefused(s)
    ensures FlagJustified(Apply(s, step)) && NoLostWakeup(Apply(s, step))
  {
    FailureStays(s, step);
    hide FlagBeingCleared, DriverFreesOnlyRefused;
    if step.FreeReturn? {
      ReturnIsClearing(s, step.i);
    } else if s.g.status.RxAllocError? && FlagBeingCleared(s) && Apply(s, step).g.status.RxAllocError? {
      ClearingGoesOn(s, step);
    }
  }

  lemma {:induction false} RunsStayGood(n: nat, steps: seq<Step>, preemptible: bool)
    requires n > 0 && ValidRun(Init(n), steps, preemptible)
    ensures Good(Run(Init(n), steps, preemptible), preemptible)
    decreases |steps|
  {
    if steps != [] {
      var m := |steps| - 1;
      RunsStayGood(n, steps[..m], preemptible);
      var s := Run(Init(n), steps[..m], preemptible);
      StepKeepsDriverFrees(s, steps[m]);
      StepKeepsRetry(s, steps[m]);
      if !preemptible { StepKeepsWakeup(s, steps[m]); }
    }
  }

  function Up(s: State): nat { if s.g.status.RxAllocError? then 1 else 0 }

  predicate Lowers(s: State, step: Step) { step.FreeClear? && s.g.status.RxAllocError? }

  /** The failure of an allocation, seen by the input task or recorded by the link thread. */
  predicate Fails(s: State, step: Step) { step.LinkStore? || (step.InputAlloc? && s.g.pool == []) }

  /** How many steps of a run lower the flag. */
  function Lowered(s: State, steps: seq<Step>, preemptible: bool): nat
    requires ValidRun(s, steps, preemptible)
  {
    if steps == [] then 0
    else
      var n := |steps| - 1;
      Lowered(s, steps[..n], preemptible) + if Lowers(Run(s, steps[..n], preemptible), steps[n]) then 1 else 0
  }

  /** How many steps of a run are failures. */
  function Failures(s: State, steps: seq<Step>, preemptible: bool): nat
    requires ValidRun(s, steps, preemptible)
  {
    if steps == [] then 0
    else
      var n := |steps| - 1;
      Failures(s, steps[..n], preemptible) + if Fails(Run(s, steps[..n], preemptible), steps[n]) then 1 else 0
  }

  lemma {:induction false} StepLowers(s: State, step: Step, preemptible: bool)
    requires Enabled(s, step, preemptible)
    ensures (if Lowers(s, step) then 1 else 0) + Up(Apply(s, step)) <= (if Fails(s, step) then 1 else 0) + Up(s)
  {
  }

  /** Whoever frees how many buffers: the flag is lowered at most once per failure, so at most once if there is none in between. */
  lemma {:induction false} LoweredAtMostFailures(s: State, steps: seq<Step>, preemptible: bool)
    requires ValidRun(s, steps, preemptible)
    ensures Lowered(s, steps, preemptible) + Up(Run(s, steps, preemptible)) <= Failures(s, steps, preemptible) + Up(s)
    decreases |steps|
  {
    hide Apply, Enabled, Lowers, Fails, Up;
    if steps != [] {
      var n := |steps| - 1;
      LoweredAtMostFailures(s, steps[..n], preemptible);
      StepLowers(Run(s, steps[..n], preemptible), steps[n], preemptible);
    }
  }

  /** Freer `i` is given no new packet. */
  predicate Undisturbed(steps: seq<Step>, i: nat)
  {
    forall k :: 0 <= k < |steps| ==>
      !(steps[k].StackFree? && steps[k].i == i) && !(steps[k].InputDeliver? && i == 0)
  }

  /** How many buffers freer `i` returns. */
  function Returned(steps: seq<Step>, i: nat): nat
  {
    if steps == [] then 0
    else
      var n := |steps| - 1;
      Returned(steps[..n], i) + if steps[n] == FreeReturn(i) then 1 else 0
  }

  lemma {:induction false} StepReturns(s: State, step: Step, i: nat)
    requires Enabled(s, step, true) && i < |s.freers| && Undisturbed([step], i)
    ensures |Apply(s, step).freers| == |s.freers|
    ensures step == FreeReturn(i) ==> s.freers[i].bufs != []
    ensures Apply(s, step).freers[i].bufs == if step == FreeReturn(i) then s.freers[i].bufs[1..] else s.freers[i].bufs
  {
    assert [step][0] == step;
    OtherFreers(s, step);
  }

  /**
   * A pbuf_free call among any other steps: it returns the buffers of its chain
   * in order, each once, and all of them by the time it is done; meanwhile
   * everybody together lowers the flag at most once, if no allocation fails.
   */
  lemma {:induction false} InterleavedFree(s: State, steps: seq<Step>, preemptible: bool, i: nat)
    requires ValidRun(s, steps, preemptible) && i < |s.freers| && Undisturbed(steps, i)
    ensures var t := Run(s, steps, preemptible);
            && |t.freers| == |s.freers| && Returned(steps, i) <= |s.freers[i].bufs|
            && t.freers[i].bufs == s.freers[i].bufs[Returned(steps, i)..]
            && (t.freers[i].Idle() ==> Returned(steps, i) == |s.freers[i].bufs|)
            && (Failures(s, steps, preemptible) == 0 ==> Lowered(s, steps, preemptible) <= 1)
    decreases |steps|
  {
    LoweredAtMostFailures(s, steps, preemptible);
    hide Apply, Enabled, Lowered, Failures;
    if steps != [] {
      var n := |steps| - 1;
      InterleavedFree(s, steps[..n], preemptible, i);
      assert [steps[n]][0] == steps[n];
      EnabledAnyway(Run(s, steps[..n], preemptible), steps[n], preemptible);
      StepReturns(Run(s, steps[..n], preemptible), steps[n], i);
    }
  }

  lemma {:induction false} EnabledAnyway(s: State, step: Step, preemptible: bool)
    requires Enabled(s, step, preemptible)
    ensures Enabled(s, step, true)
  {
  }

  // ------------------------------------------ a whole pbuf_free call

  /** pbuf_free_custom with no other task in between. */
  function FreeOne(g: Shared, b: Buf): Shared
  {
    if g.status.RxAllocError? then Shared(RxAllocOk, [b] + g.pool, true) else g.(pool := [b] + g.pool)
  }

  /** pbuf_free on a chain whose pbufs are all referenced once. */
  function FreeChain(g: Shared, bufs: Packet): Shared
    decreases |bufs|
  {
    if bufs == [] then g else FreeChain(FreeOne(g, bufs[0]), bufs[1..])
  }

  function Reversed(p: Packet): Packet
  {
    if p == [] then [] else Reversed(p[1..]) + [p[0]]
  }

  /** Freeing a chain returns exactly its buffers, leaves the flag low and signals once if it was up. */
  lemma {:induction false} FreeChainReturnsAll(g: Shared, bufs: Packet)
    requires bufs != []
    ensures FreeChain(g, bufs) == Shared(RxAllocOk, Reversed(bufs) + g.pool, g.token || g.status.RxAllocError?)
    ensures |Reversed(bufs)| == |bufs| && multiset(Reversed(bufs)) == multiset(bufs)
    decreases |bufs|
  {
    var h := FreeOne(g, bufs[0]);
    assert bufs == [bufs[0]] + bufs[1..];
    assert Reversed(bufs[1..]) + ([bufs[0]] + g.pool) == Reversed(bufs) + g.pool;
    if bufs[1..] != [] {
      FreeChainReturnsAll(h, bufs[1..]);
    } else {
      assert Reversed([]) == [] && [] + h.pool == h.pool;
    }
  }

  function FreeSteps(i: nat, status: AllocStatus, k: nat): seq<Step>
    decreases k
  {
    if k == 0 then []
    else
      [FreeReturn(i), FreeRead(i)]
      + (if status.RxAllocError? then [FreeClear(i), FreeSignal(i)] else [])
      + FreeSteps(i, RxAllocOk, k - 1)
  }

  /** The state after freer `i` has returned its first buffer and finished that pbuf_free_custom. */
  function AfterOneFree(s: State, i: nat): State
    requires i < |s.freers| && s.freers[i].bufs != []
  {
    s.(g := FreeOne(s.g, s.freers[i].bufs[0]),
       freers := s.freers[i := Freer(Walk, s.freers[i].bufs[1..])],
       retryOwed := s.retryOwed || s.g.status.RxAllocError?)
  }

  /** The state after freer `i` has returned its first buffer and read the flag. */
  function AfterReadFlag(s: State, i: nat): State
    requires i < |s.freers| && s.freers[i].bufs != []
  {
    var bufs := s.freers[i].bufs;
    var pc := if s.g.status.RxAllocError? then ClearFlag else Walk;
    s.(g := s.g.(pool := [bufs[0]] + s.g.pool), freers := s.freers[i := Freer(pc, bufs[1..])])
  }

  lemma {:induction false} ApplyReturnAndRead(s: State, i: nat, preemptible: bool)
    requires i < |s.freers| && s.freers[i].pc.Walk? && s.freers[i].bufs != []
    requires s.link.StorePending? ==> preemptible
    ensures Enabled(s, FreeReturn(i), preemptible) && Enabled(Apply(s, FreeReturn(i)), FreeRead(i), preemptible)
    ensures Apply(Apply(s, FreeReturn(i)), FreeRead(i)) == AfterReadFlag(s, i)
  {
  }

  lemma {:induction false} ReturnAndRead(s: State, i: nat, preemptible: bool)
    requires i < |s.freers| && s.freers[i].pc.Walk? && s.freers[i].bufs != []
    requires s.link.StorePending? ==> preemptible
    ensures ValidRun(s, [FreeReturn(i), FreeRead(i)], preemptible)
    ensures Run(s, [FreeReturn(i), FreeRead(i)], preemptible) == AfterReadFlag(s, i)
  {
    assert ValidRun(s, [], preemptible) && Run(s, [], preemptible) == s;
    hide ValidRun, Run, Enabled, Apply, AfterReadFlag;
    ApplyReturnAndRead(s, i, preemptible);
    RunStep(s, [], FreeReturn(i), preemptible);
    assert [] + [FreeReturn(i)] == [FreeReturn(i)];
    RunStep(s, [FreeReturn(i)], FreeRead(i), preemptible);
    assert [FreeReturn(i)] + [FreeRead(i)] == [FreeReturn(i), FreeRead(i)];
  }

  lemma {:induction false} OneFreeRun(s: State, i: nat, preemptible: bool)
    requires i < |s.freers| && s.freers[i].pc.Walk? && s.freers[i].bufs != []
    requires s.link.StorePending? ==> preemptible
    ensures var steps := FreeSteps(i, s.g.status, 1);
            ValidRun(s, steps, preemptible) && Run(s, steps, preemptible) == AfterOneFree(s, i)
  {
    hide ValidRun, Run;
    var two := [FreeReturn(i), FreeRead(i)];
    ReturnAndRead(s, i, preemptible);
    if s.g.status.RxAllocError? {
      RunStep(s, two, FreeClear(i), preemptible);
      RunStep(s, two + [FreeClear(i)], FreeSignal(i), preemptible);
      assert FreeSteps(i, s.g.status, 1) == two + [FreeClear(i)] + [FreeSignal(i)];
    } else {
      assert FreeSteps(i, s.g.status, 1) == two;
    }
  }

  lemma {:induction false} FreeStepsSplit(i: nat, status: AllocStatus, k: nat)
    requires k > 0
    ensures FreeSteps(i, status, k) == FreeSteps(i, status, 1) + FreeSteps(i, RxAllocOk, k - 1)
  {
    assert FreeSteps(i, RxAllocOk, 0) == [];
  }

  /** The state after freer `i` has run its whole pbuf_free call. */
  function AfterFreeCall(s: State, i: nat): State
    requires i < |s.freers|
  {
    var bufs := s.freers[i].bufs;
    s.(g := FreeChain(s.g, bufs), freers := s.freers[i := Freer(Walk, [])],
       retryOwed := s.retryOwed || (bufs != [] && s.g.status.RxAllocError?))
  }

  lemma {:induction false} AfterFreeCallUnfold(s: State, i: nat)
    requires i < |s.freers| && s.freers[i].pc.Walk? && s.freers[i].bufs != []
    ensures AfterFreeCall(AfterOneFree(s, i), i) == AfterFreeCall(s, i)
  {
    var f := Freer(Walk, s.freers[i].bufs[1..]);
    assert s.freers[i := f][i := Freer(Walk, [])] == s.freers[i := Freer(Walk, [])];
  }

  /** The steps of an uninterrupted pbuf_free call amount to FreeChain, and remember that a retry is owed. */
  lemma {:induction false} FreeCall(s: State, i: nat, preemptible: bool)
    requires i < |s.freers| && s.freers[i].pc.Walk?
    requires s.link.StorePending? ==> preemptible
    ensures ValidRun(s, FreeSteps(i, s.g.status, |s.freers[i].bufs|), preemptible)
    ensures Run(s, FreeSteps(i, s.g.status, |s.freers[i].bufs|), preemptible) == AfterFreeCall(s, i)
    decreases |s.freers[i].bufs|
  {
    hide Apply, Enabled;
    var k := |s.freers[i].bufs|;
    if k == 0 {
      assert s.freers[i := Freer(Walk, [])] == s.freers;
    } else {
      OneFreeRun(s, i, preemptible);
      FreeCall(AfterOneFree(s, i), i, preemptible);
      RunAppend(s, FreeSteps(i, s.g.status, 1), FreeSteps(i, RxAllocOk, k - 1), preemptible);
      FreeStepsSplit(i, s.g.status, k);
      AfterFreeCallUnfold(s, i);
    }
  }
}
