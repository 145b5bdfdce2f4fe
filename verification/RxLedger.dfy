/**
 * What the steps of a run say of its final state: the books of the receive path
 * are kept from the list of steps alone, and agree with the machine.
 */
module RxLedger {
  import opened RxPool

  // ----------------------------------------------------- the books

  /** Buffers attached to descriptors, in order. */
  function Armed(s: State, steps: seq<Step>, p: bool): seq<Buf>
    requires ValidRun(s, steps, p)
  {
    if steps == [] then []
    else
      var n := |steps| - 1;
      var t := Run(s, steps[..n], p);
      Armed(s, steps[..n], p)
      + if (steps[n].InputAlloc? || steps[n].LinkAlloc?) && t.g.pool != [] then [t.g.pool[0]] else []
  }

  /** Buffers linked into packets, in order. */
  function Linked(s: State, steps: seq<Step>, p: bool): seq<Buf>
    requires ValidRun(s, steps, p)
  {
    if steps == [] then []
    else
      var n := |steps| - 1;
      Linked(s, steps[..n], p) + if steps[n].InputLinkBuf? then [Run(s, steps[..n], p).dma[0]] else []
  }

  /** The packets that are complete, and the one that is not. */
  datatype Packets = Packets(complete: seq<Packet>, open: Packet)

  /** The linked buffers, cut behind the last buffer of each packet. */
  function Assembled(s: State, steps: seq<Step>, p: bool): Packets
    requires ValidRun(s, steps, p)
  {
    if steps == [] then Packets([], [])
    else
      var n := |steps| - 1;
      var before := Assembled(s, steps[..n], p);
      if !steps[n].InputLinkBuf? then before
      else
        var open := before.open + [Run(s, steps[..n], p).dma[0]];
        if steps[n].last then Packets(before.complete + [open], []) else Packets(before.complete, open)
  }

  /** A packet handed to netif->input, and its answer. */
  datatype Handover = Handover(packet: Packet, accepted: bool)

  /** The packets handed over are those assembled, in their order; the answers are those of the steps. */
  function Handovers(s: State, steps: seq<Step>, p: bool): seq<Handover>
    requires ValidRun(s, steps, p)
  {
    if steps == [] then []
    else
      var n := |steps| - 1;
      var before := Handovers(s, steps[..n], p);
      if steps[n].InputDeliver? && |before| < |Assembled(s, steps[..n], p).complete| then
        before + [Handover(Assembled(s, steps[..n], p).complete[|before|], steps[n].accepted)]
      else before
  }

  function Accepted(h: seq<Handover>): seq<Packet>
  {
    if h == [] then []
    else Accepted(h[..|h| - 1]) + if h[|h| - 1].accepted then [h[|h| - 1].packet] else []
  }

  /** The buffers of the packets refused, one packet after the other. */
  function Refused(h: seq<Handover>): Packet
  {
    if h == [] then []
    else Refused(h[..|h| - 1]) + if h[|h| - 1].accepted then [] else h[|h| - 1].packet
  }

  /** Buffers put back into the pool by freer `i`, in order. */
  function Returns(s: State, steps: seq<Step>, p: bool, i: nat): Packet
    requires ValidRun(s, steps, p)
  {
    if steps == [] then []
    else
      var n := |steps| - 1;
      Returns(s, steps[..n], p, i) + if steps[n] == FreeReturn(i) then [Run(s, steps[..n], p).freers[i].bufs[0]] else []
  }

  /** Buffers that the stack has begun to free through freer `i`, in order. */
  function Released(s: State, steps: seq<Step>, p: bool, i: nat): Packet
    requires ValidRun(s, steps, p)
  {
    if steps == [] then []
    else
      var n := |steps| - 1;
      var e := steps[n];
      Released(s, steps[..n], p, i)
      + if e.StackFree? && e.i == i then Run(s, steps[..n], p).stack[e.j][..e.k] else []
  }

  /** How many buffers the stack has begun to free of the j-th packet it accepted. */
  function Consumed(steps: seq<Step>, j: nat): nat
  {
    if steps == [] then 0
    else
      var e := steps[|steps| - 1];
      Consumed(steps[..|steps| - 1], j) + if e.StackFree? && e.j == j then e.k else 0
  }

  // ------------------------------------------------ they balance

  /** The packet being read is complete. */
  predicate Complete(input: InputPc)
  {
    (input.Linking? || input.Rebuilding? || input.ReadDone?) && input.ready
  }

  /** The packet waiting to be handed over, if there is one. */
  function OnTheWay(s: State): seq<Packet>
  {
    if Complete(s.input) then [s.chain] else if s.input.Delivering? then [s.input.packet] else []
  }

  function Handed(h: seq<Handover>): (r: seq<Packet>)
    ensures |r| == |h| && forall i :: 0 <= i < |r| ==> r[i] == h[i].packet
  {
    seq(|h|, i requires 0 <= i < |h| => h[i].packet)
  }

  /** Descriptors are used in the order in which they were armed. */
  lemma {:induction false} ArmedInOrder(n: nat, steps: seq<Step>, p: bool)
    requires n > 0 && ValidRun(Init(n), steps, p)
    ensures Armed(Init(n), steps, p) == Linked(Init(n), steps, p) + Run(Init(n), steps, p).dma
    decreases |steps|
  {
    if steps != [] {
      hide Apply, Enabled;
      var m := |steps| - 1;
      ArmedInOrder(n, steps[..m], p);
      var s := Run(Init(n), steps[..m], p);
      ArmStep(s, steps[m], p, Linked(Init(n), steps[..m], p));
    }
  }

  lemma {:induction false} ArmStep(s: State, e: Step, p: bool, linked: seq<Buf>)
    requires Enabled(s, e, p)
    ensures linked + s.dma + (if (e.InputAlloc? || e.LinkAlloc?) && s.g.pool != [] then [s.g.pool[0]] else []) ==
            linked + (if e.InputLinkBuf? then [s.dma[0]] else []) + Apply(s, e).dma
  {
  }

  /** The packets assembled are those handed over and the one waiting; the open one is the chain. */
  predicate AssemblyBalances(s: State, a: Packets, h: seq<Handover>)
  {
    a.complete == Handed(h) + OnTheWay(s) && a.open == if Complete(s.input) then [] else s.chain
  }

  lemma {:induction false} AssemblyStep(s: State, e: Step, p: bool, a: Packets, h: seq<Handover>)
    requires Enabled(s, e, p) && AssemblyBalances(s, a, h)
    ensures e.InputDeliver? ==> |h| < |a.complete| && a.complete[|h|] == s.input.packet
    ensures var open := if e.InputLinkBuf? then a.open + [s.dma[0]] else a.open;
            var a' := if e.InputLinkBuf? && e.last then Packets(a.complete + [open], []) else Packets(a.complete, open);
            var h' := if e.InputDeliver? then h + [Handover(a.complete[|h|], e.accepted)] else h;
            AssemblyBalances(Apply(s, e), a', h')
  {
    if e.InputDeliver? {
      assert Handed(h + [Handover(a.complete[|h|], e.accepted)]) == Handed(h) + [a.complete[|h|]];
    }
  }

  /** Every packet is handed over whole, once, and in the order of arrival. */
  lemma {:induction false} PacketsHandedOver(n: nat, steps: seq<Step>, p: bool)
    requires n > 0 && ValidRun(Init(n), steps, p)
    ensures AssemblyBalances(Run(Init(n), steps, p), Assembled(Init(n), steps, p), Handovers(Init(n), steps, p))
    decreases |steps|
  {
    if steps != [] {
      hide Apply, Enabled, AssemblyBalances;
      var m := |steps| - 1;
      PacketsHandedOver(n, steps[..m], p);
      var s := Run(Init(n), steps[..m], p);
      AssemblyStep(s, steps[m], p, Assembled(Init(n), steps[..m], p), Handovers(Init(n), steps[..m], p));
    }
  }

  /** What a step adds to the handovers. */
  function Handing(s: State, e: Step): seq<Handover>
  {
    if e.InputDeliver? && s.input.Delivering? then [Handover(s.input.packet, e.accepted)] else []
  }

  lemma {:induction false} HandoversStep(n: nat, steps: seq<Step>, p: bool)
    requires n > 0 && steps != [] && ValidRun(Init(n), steps, p)
    ensures var m := |steps| - 1;
            Handovers(Init(n), steps, p) == Handovers(Init(n), steps[..m], p) + Handing(Run(Init(n), steps[..m], p), steps[m])
  {
    var m := |steps| - 1;
    PacketsHandedOver(n, steps[..m], p);
    hide Apply, AssemblyBalances;
    AssemblyStep(Run(Init(n), steps[..m], p), steps[m], p, Assembled(Init(n), steps[..m], p), Handovers(Init(n), steps[..m], p));
  }

  ghost predicate StackBalances(s: State, steps: seq<Step>, accepted: seq<Packet>)
  {
    && |s.stack| == |accepted|
    && (forall j :: 0 <= j < |accepted| ==>
          Consumed(steps, j) <= |accepted[j]| && s.stack[j] == accepted[j][Consumed(steps, j)..])
    && (forall j {:trigger Consumed(steps, j)} :: j >= |accepted| ==> Consumed(steps, j) == 0)
  }

  lemma {:induction false} AcceptedAppend(h: seq<Handover>, s: State, e: Step)
    ensures Accepted(h + Handing(s, e)) ==
            Accepted(h) + if e.InputDeliver? && e.accepted && s.input.Delivering? then [s.input.packet] else []
    ensures Refused(h + Handing(s, e)) ==
            Refused(h) + if e.InputDeliver? && !e.accepted && s.input.Delivering? then s.input.packet else []
  {
    if Handing(s, e) == [] {
      assert h + [] == h;
    } else {
      assert (h + Handing(s, e))[..|h|] == h;
    }
  }

  lemma {:induction false} ConsumedAppend(steps: seq<Step>, e: Step, j: nat)
    ensures Consumed(steps + [e], j) == Consumed(steps, j) + if e.StackFree? && e.j == j then e.k else 0
  {
    assert (steps + [e])[..|steps|] == steps;
  }

  lemma {:induction false} StackStep(s: State, e: Step, p: bool, steps: seq<Step>, accepted: seq<Packet>)
    requires Enabled(s, e, p) && StackBalances(s, steps, accepted)
    ensures StackBalances(Apply(s, e), steps + [e], accepted + if e.InputDeliver? && e.accepted && s.input.Delivering? then [s.input.packet] else [])
  {
    forall j: nat ensures Consumed(steps + [e], j) == Consumed(steps, j) + if e.StackFree? && e.j == j then e.k else 0 {
      ConsumedAppend(steps, e, j);
    }
    hide Consumed;
  }

  lemma {:induction false} StackOne(s: State, e: Step, p: bool, steps: seq<Step>, h: seq<Handover>)
    requires Enabled(s, e, p) && StackBalances(s, steps, Accepted(h))
    ensures StackBalances(Apply(s, e), steps + [e], Accepted(h + Handing(s, e)))
  {
    StackStep(s, e, p, steps, Accepted(h));
    AcceptedAppend(h, s, e);
    hide StackBalances, Accepted, Handing, Apply, Enabled;
  }

  lemma {:induction false} InitBalances(n: nat, p: bool)
    requires n > 0
    ensures ValidRun(Init(n), [], p) && Run(Init(n), [], p) == Init(n)
    ensures StackBalances(Init(n), [], Accepted(Handovers(Init(n), [], p)))
  {
  }

  /** The stack holds the accepted packets, in their order, less what it has begun to free of each. */
  lemma {:induction false} StackHoldsAccepted(n: nat, steps: seq<Step>, p: bool)
    requires n > 0 && ValidRun(Init(n), steps, p)
    ensures StackBalances(Run(Init(n), steps, p), steps, Accepted(Handovers(Init(n), steps, p)))
    decreases |steps|
  {
    hide StackBalances, Accepted, Handing, Handovers, Apply, Enabled, Init;
    if steps == [] {
      InitBalances(n, p);
    } else {
      var m := |steps| - 1;
      StackHoldsAccepted(n, steps[..m], p);
      HandoversStep(n, steps, p);
      StackOne(Run(Init(n), steps[..m], p), steps[m], p, steps[..m], Handovers(Init(n), steps[..m], p));
      assert steps[..m] + [steps[m]] == steps;
    }
  }

  /** What a step takes from freer `i`. */
  function Leaving(s: State, e: Step, i: nat): Packet
  {
    if e == FreeReturn(i) && i < |s.freers| && s.freers[i].bufs != [] then [s.freers[i].bufs[0]] else []
  }

  /** What a step gives to freer `i`. */
  function Entering(s: State, e: Step, i: nat): Packet
  {
    if e.StackFree? && e.i == i && e.j < |s.stack| && e.k <= |s.stack[e.j]| then s.stack[e.j][..e.k]
    else if e.InputDeliver? && !e.accepted && s.input.Delivering? && i == 0 then s.input.packet
    else []
  }

  lemma {:induction false} FreerStep(s: State, e: Step, p: bool, i: nat)
    requires Enabled(s, e, p) && i < |s.freers|
    ensures |Apply(s, e).freers| == |s.freers|
    ensures Leaving(s, e, i) + Apply(s, e).freers[i].bufs == s.freers[i].bufs + Entering(s, e, i)
  {
    if e == FreeReturn(i) {
      assert [s.freers[i].bufs[0]] + s.freers[i].bufs[1..] == s.freers[i].bufs;
    }
  }

  lemma {:induction false} ReturnsStep(s: State, steps: seq<Step>, p: bool, i: nat)
    requires steps != [] && ValidRun(s, steps, p)
    ensures var m := |steps| - 1;
            Returns(s, steps, p, i) == Returns(s, steps[..m], p, i) + Leaving(Run(s, steps[..m], p), steps[m], i)
  {
    hide Apply;
  }

  lemma {:induction false} ReleasedStep(s: State, steps: seq<Step>, p: bool, i: nat)
    requires steps != [] && ValidRun(s, steps, p) && i > 0
    ensures var m := |steps| - 1;
            Released(s, steps, p, i) == Released(s, steps[..m], p, i) + Entering(Run(s, steps[..m], p), steps[m], i)
  {
    hide Apply;
  }

  lemma {:induction false} Regroup(done: Packet, left: Packet, out: Packet, left': Packet, given: Packet)
    requires out + left' == left + given
    ensures (done + out) + left' == (done + left) + given
  {
    assert (done + out) + left' == done + (out + left');
  }

  /** What freer `i` has returned and what it still holds are all that it was given. */
  lemma {:induction false} FreerBalances(s: State, steps: seq<Step>, p: bool, i: nat, given: Packet)
    requires steps != [] && ValidRun(s, steps, p)
    requires var m := |steps| - 1;
             i < |Run(s, steps[..m], p).freers| && Returns(s, steps[..m], p, i) + Run(s, steps[..m], p).freers[i].bufs == given
    ensures var m := |steps| - 1;
            && |Run(s, steps, p).freers| == |Run(s, steps[..m], p).freers|
            && Returns(s, steps, p, i) + Run(s, steps, p).freers[i].bufs ==
               given + Entering(Run(s, steps[..m], p), steps[m], i)
  {
    var m := |steps| - 1;
    var t := Run(s, steps[..m], p);
    ReturnsStep(s, steps, p, i);
    FreerStep(t, steps[m], p, i);
    hide Apply, Enabled, Leaving, Entering, Returns;
    Regroup(Returns(s, steps[..m], p, i), t.freers[i].bufs, Leaving(t, steps[m], i),
            Run(s, steps, p).freers[i].bufs, Entering(t, steps[m], i));
  }

  /** The driver frees the refused packets, in their order, each buffer once, and nothing else. */
  lemma {:induction false} DriverFreesRefused(n: nat, steps: seq<Step>, p: bool)
    requires n > 0 && ValidRun(Init(n), steps, p)
    ensures var s := Run(Init(n), steps, p);
            |s.freers| == n && Returns(Init(n), steps, p, 0) + s.freers[0].bufs == Refused(Handovers(Init(n), steps, p))
    decreases |steps|
  {
    if steps != [] {
      hide Apply, Enabled, Refused, Handing, Handovers, Returns, Entering;
      var m := |steps| - 1;
      DriverFreesRefused(n, steps[..m], p);
      HandoversStep(n, steps, p);
      var s, h := Run(Init(n), steps[..m], p), Handovers(Init(n), steps[..m], p);
      FreerBalances(Init(n), steps, p, 0, Refused(h));
      EnteringDriver(s, steps[m], p);
      AcceptedAppend(h, s, steps[m]);
    }
  }

  lemma {:induction false} EnteringDriver(s: State, e: Step, p: bool)
    requires Enabled(s, e, p)
    ensures Entering(s, e, 0) == if e.InputDeliver? && !e.accepted && s.input.Delivering? then s.input.packet else []
  {
  }

  /** Every other pbuf_free call returns what the stack gave it, in order. */
  lemma {:induction false} StackFreesItsOwn(n: nat, steps: seq<Step>, p: bool, i: nat)
    requires n > 0 && ValidRun(Init(n), steps, p) && 0 < i < n
    ensures var s := Run(Init(n), steps, p);
            |s.freers| == n && Returns(Init(n), steps, p, i) + s.freers[i].bufs == Released(Init(n), steps, p, i)
    decreases |steps|
  {
    if steps != [] {
      hide Apply, Enabled, Returns, Released, Entering;
      var m := |steps| - 1;
      StackFreesItsOwn(n, steps[..m], p, i);
      FreerBalances(Init(n), steps, p, i, Released(Init(n), steps[..m], p, i));
      ReleasedStep(Init(n), steps, p, i);
    } else {
      assert Init(n).freers[i].bufs == [];
    }
  }

  lemma {:induction false} PrefixValid(s: State, steps: seq<Step>, p: bool, k: nat)
    requires ValidRun(s, steps, p) && k <= |steps|
    ensures ValidRun(s, steps[..k], p)
    ensures k < |steps| ==> Enabled(Run(s, steps[..k], p), steps[k], p)
    decreases |steps|
  {
    hide Enabled, Apply;
    if k < |steps| {
      var m := |steps| - 1;
      if k < m {
        PrefixValid(s, steps[..m], p, k);
        assert steps[..m][..k] == steps[..k];
      }
    } else {
      assert steps[..k] == steps;
    }
  }

  /** No packet is handed over between the i-th and the j-th step. */
  lemma {:induction false} SameHandovers(n: nat, steps: seq<Step>, p: bool, i: nat, j: nat)
    requires n > 0 && ValidRun(Init(n), steps, p) && i <= j <= |steps| && forall k :: i <= k < j ==> !steps[k].InputDeliver?
    ensures ValidRun(Init(n), steps[..i], p) && ValidRun(Init(n), steps[..j], p)
    ensures Handovers(Init(n), steps[..j], p) == Handovers(Init(n), steps[..i], p)
    decreases j
  {
    PrefixValid(Init(n), steps, p, i);
    PrefixValid(Init(n), steps, p, j);
    if i < j {
      hide Enabled, Apply, Run, ValidRun;
      SameHandovers(n, steps, p, i, j - 1);
      assert steps[..j][..j - 1] == steps[..j - 1];
    }
  }

  lemma {:induction false} RefusalEnds(n: nat, steps: seq<Step>, p: bool, j: nat)
    requires n > 0 && ValidRun(Init(n), steps, p) && j < |steps| && (steps[j] == InputDeliver(false) || steps[j] == InputRefused)
    ensures ValidRun(Init(n), steps[..j], p)
    ensures var s := Run(Init(n), steps[..j], p); |s.freers| > 0 && s.freers[0].bufs == []
    ensures steps[j].InputDeliver? ==> Run(Init(n), steps[..j], p).input.Delivering?
  {
    PrefixValid(Init(n), steps, p, j);
    RunsStayGood(n, steps[..j], p);
    hide Apply, Run, ValidRun;
  }

  /**
   * By the time the input task goes on after a refusal, it has returned exactly
   * the packet refused, and it had returned all earlier ones before.
   */
  lemma {:induction false} RefusedIsFreed(n: nat, steps: seq<Step>, p: bool, i: nat, j: nat)
    requires n > 0 && ValidRun(Init(n), steps, p) && i < j < |steps|
    requires steps[i] == InputDeliver(false) && steps[j] == InputRefused
    requires forall k :: i < k < j ==> !steps[k].InputDeliver?
    ensures ValidRun(Init(n), steps[..i], p) && ValidRun(Init(n), steps[..j], p)
    ensures var s := Run(Init(n), steps[..i], p);
            s.input.Delivering? &&
            Returns(Init(n), steps[..j], p, 0) == Returns(Init(n), steps[..i], p, 0) + s.input.packet
  {
    hide Apply, Enabled, Returns, Refused, Handovers, ValidRun, Run, Handing;
    RefusalEnds(n, steps, p, i);
    RefusalEnds(n, steps, p, j);
    SameHandovers(n, steps, p, i + 1, j);
    RefusalAdds(n, steps, p, i);
    DriverDone(n, steps[..i], p);
    DriverDone(n, steps[..j], p);
  }

  lemma {:induction false} RefusalAdds(n: nat, steps: seq<Step>, p: bool, i: nat)
    requires n > 0 && ValidRun(Init(n), steps, p) && i < |steps| && steps[i] == InputDeliver(false)
    requires ValidRun(Init(n), steps[..i], p) && ValidRun(Init(n), steps[..i + 1], p)
    requires Run(Init(n), steps[..i], p).input.Delivering?
    ensures Refused(Handovers(Init(n), steps[..i + 1], p)) ==
            Refused(Handovers(Init(n), steps[..i], p)) + Run(Init(n), steps[..i], p).input.packet
  {
    hide Apply, Enabled, Refused, Handovers, ValidRun, Run, Handing;
    assert steps[..i + 1][..i] == steps[..i];
    HandoversStep(n, steps[..i + 1], p);
    AcceptedAppend(Handovers(Init(n), steps[..i], p), Run(Init(n), steps[..i], p), steps[i]);
  }

  lemma {:induction false} DriverDone(n: nat, steps: seq<Step>, p: bool)
    requires n > 0 && ValidRun(Init(n), steps, p)
    requires var s := Run(Init(n), steps, p); |s.freers| > 0 && s.freers[0].bufs == []
    ensures Returns(Init(n), steps, p, 0) == Refused(Handovers(Init(n), steps, p))
  {
    hide Apply, Enabled, Refused, Handovers, ValidRun, Run, Returns;
    DriverFreesRefused(n, steps, p);
    assert Returns(Init(n), steps, p, 0) + [] == Returns(Init(n), steps, p, 0);
  }

  // ------------------------------------------------- the input task

  /** How the latest read of the input task went: it has yet to be made, is being made, or found no packet. */
  datatype Read = Due | Underway | Failed

  /** The latest buffer linked since the last check of the flag ends its packet. */
  predicate FoundPacket(steps: seq<Step>)
  {
    steps != [] &&
    (var e := steps[|steps| - 1];
     if e.InputLinkBuf? then e.last else !e.InputCheck? && FoundPacket(steps[..|steps| - 1]))
  }

  /**
   * A read is due when a token has been taken and whenever a packet has been
   * dealt with.  It fails if the flag is up or the MAC not started, and if no
   * packet is complete; until it does there is always another one.
   */
  function LatestRead(s: State, steps: seq<Step>, p: bool): Read
    requires ValidRun(s, steps, p)
  {
    if steps == [] then Failed
    else
      var n := |steps| - 1;
      var t := Run(s, steps[..n], p);
      match steps[n]
      case InputAcquire => Due
      case InputDeliver(accepted) => if accepted then Due else Underway
      case InputRefused => Due
      case InputCheck => if t.g.status.RxAllocOk? && t.mac.started then Underway else Failed
      case InputReturn => if FoundPacket(steps[..n]) then Underway else Failed
      case _ => LatestRead(s, steps[..n], p)
  }

  /** The input task waits exactly after a failed read, and reads again after each packet. */
  lemma {:induction false} WaitsAfterFailedRead(n: nat, steps: seq<Step>, p: bool)
    requires n > 0 && ValidRun(Init(n), steps, p)
    ensures var s := Run(Init(n), steps, p);
            && (s.input.Waiting? <==> LatestRead(Init(n), steps, p).Failed?)
            && (s.input.CheckFlag? <==> LatestRead(Init(n), steps, p).Due?)
            && (s.input.Linking? || s.input.Rebuilding? || s.input.ReadDone? ==> s.input.ready == FoundPacket(steps))
    decreases |steps|
  {
    if steps != [] {
      var m := |steps| - 1;
      WaitsAfterFailedRead(n, steps[..m], p);
      ControlStep(Run(Init(n), steps[..m], p), steps[m], p);
      hide Apply, Enabled;
    }
  }

  lemma {:induction false} ControlStep(s: State, e: Step, p: bool)
    requires Enabled(s, e, p)
    ensures var i, j := s.input, Apply(s, e).input;
            match e
            case InputAcquire => j.CheckFlag? && i.Waiting?
            case InputDeliver(accepted) => i.Delivering? && if accepted then j.CheckFlag? else j.Refusing?
            case InputRefused => i.Refusing? && j.CheckFlag?
            case InputCheck => i.CheckFlag? && j == if s.g.status.RxAllocOk? && s.mac.started then Linking(false) else Waiting
            case InputLinkBuf(last) => i == Linking(false) && j == Linking(last)
            case InputRebuild => i.Linking? && j == Rebuilding(i.ready)
            case InputAlloc => i.Rebuilding? && (j == i || j == ReadDone(i.ready))
            case InputReturn =>
              (i.Rebuilding? || i.ReadDone?) && if i.ready then j.Delivering? else j.Waiting?
            case _ => j == i
  {
  }

  // ------------------------------------------ the history variables

  /** Whether the latest step of a run that is of interest is one of a kind. */
  datatype Latest = Yes | No | Never

  function LatestStart(steps: seq<Step>): Latest
  {
    if steps == [] then Never
    else
      match steps[|steps| - 1]
      case LinkFinish => Yes
      case LinkStore => Yes
      case LinkStop => No
      case BusError => No
      case _ => LatestStart(steps[..|steps| - 1])
  }

  function LatestUnfinished(steps: seq<Step>): Latest
  {
    if steps == [] then Never
    else
      match steps[|steps| - 1]
      case InputLinkBuf(last) => if last then No else Yes
      case LinkStart => No
      case _ => LatestUnfinished(steps[..|steps| - 1])
  }

  function Starts(steps: seq<Step>): nat
  {
    if steps == [] then 0 else Starts(steps[..|steps| - 1]) + if steps[|steps| - 1].LinkStart? then 1 else 0
  }

  /** The k-th step lowers the flag from error to ok. */
  predicate FlipsAt(s: State, steps: seq<Step>, p: bool, k: nat)
    requires ValidRun(s, steps, p) && k < |steps|
  {
    PrefixValid(s, steps, p, k);
    steps[k].FreeClear? && Run(s, steps[..k], p).g.status.RxAllocError?
  }

  /** The k-th step rebuilds the descriptors or fails to. */
  predicate RebuildsAt(s: State, steps: seq<Step>, p: bool, k: nat)
    requires ValidRun(s, steps, p) && k < |steps|
  {
    PrefixValid(s, steps, p, k);
    steps[k].InputRebuild? || steps[k].LinkFinish? || steps[k].LinkStore?
    || (steps[k].InputAlloc? && Run(s, steps[..k], p).g.pool == [])
  }

  /** The MAC runs if the latest start has completed and neither a stop nor a bus error followed; there is no start after a bus error. */
  lemma {:induction false} MacHistory(n: nat, steps: seq<Step>, p: bool)
    requires n > 0 && ValidRun(Init(n), steps, p)
    ensures var mac := Run(Init(n), steps, p).mac;
            && (mac.started <==> LatestStart(steps).Yes?) && (mac.failed <==> BusError in steps)
            && mac.starts == Starts(steps) && (mac.dangling <==> LatestUnfinished(steps).Yes?)
    decreases |steps|
  {
    if steps != [] {
      var m := |steps| - 1;
      MacHistory(n, steps[..m], p);
      assert steps == steps[..m] + [steps[m]];
      MacStep(Run(Init(n), steps[..m], p), steps[m], p);
      hide Apply, Enabled;
    }
  }

  lemma {:induction false} MacStep(s: State, e: Step, p: bool)
    requires Enabled(s, e, p)
    ensures var t := Apply(s, e).mac;
            && t.started == (e.LinkFinish? || e.LinkStore? || (s.mac.started && !e.LinkStop? && !e.BusError?))
            && t.failed == (s.mac.failed || e.BusError?)
            && t.starts == s.mac.starts + (if e.LinkStart? then 1 else 0)
            && t.dangling == (if e.InputLinkBuf? then !e.last else s.mac.dangling && !e.LinkStart?)
  {
  }

  /** After a fatal bus error no packet is begun and the MAC is not started again. */
  lemma {:induction false} BusErrorIsFinal(n: nat, steps: seq<Step>, p: bool, i: nat, j: nat)
    requires n > 0 && ValidRun(Init(n), steps, p) && i < j < |steps| && steps[i].BusError?
    ensures !steps[j].LinkStart? && !steps[j].LinkStop? && !steps[j].BusError?
    ensures ValidRun(Init(n), steps[..j], p) && !Run(Init(n), steps[..j], p).mac.started
    decreases j
  {
    PrefixValid(Init(n), steps, p, j);
    MacHistory(n, steps[..j], p);
    assert steps[..j][i].BusError?;
    MacStaysSane(n, steps[..j], p);
    hide Run, ValidRun, Apply, LatestStart, LatestUnfinished, Starts;
  }

  /** The MAC is not running while the link thread starts it, and never after a bus error. */
  predicate MacSane(s: State)
  {
    (s.mac.started ==> s.link.LinkIdle?) && (s.mac.failed ==> !s.mac.started && s.link.LinkIdle?)
  }

  lemma {:induction false} MacSaneStep(s: State, e: Step, p: bool)
    requires Enabled(s, e, p) && MacSane(s)
    ensures MacSane(Apply(s, e))
  {
  }

  lemma {:induction false} MacStaysSane(n: nat, steps: seq<Step>, p: bool)
    requires n > 0 && ValidRun(Init(n), steps, p)
    ensures MacSane(Run(Init(n), steps, p))
    decreases |steps|
  {
    hide Apply, Enabled;
    if steps != [] {
      var m := |steps| - 1;
      MacStaysSane(n, steps[..m], p);
      MacSaneStep(Run(Init(n), steps[..m], p), steps[m], p);
    }
  }

  /** The latest step that flips the flag or rebuilds the descriptors is a flip. */
  predicate Owed(s: State, steps: seq<Step>, p: bool)
    requires ValidRun(s, steps, p)
  {
    steps != [] &&
    (var m := |steps| - 1;
     FlipsAt(s, steps, p, m) || (!RebuildsAt(s, steps, p, m) && Owed(s, steps[..m], p)))
  }

  lemma {:induction false} PrefixAgrees(s: State, steps: seq<Step>, p: bool, k: nat)
    requires ValidRun(s, steps, p) && k < |steps| - 1
    ensures ValidRun(s, steps[..|steps| - 1], p)
    ensures FlipsAt(s, steps, p, k) <==> FlipsAt(s, steps[..|steps| - 1], p, k)
    ensures RebuildsAt(s, steps, p, k) <==> RebuildsAt(s, steps[..|steps| - 1], p, k)
  {
    assert steps[..|steps| - 1][..k] == steps[..k];
  }

  lemma {:induction false} OwedSince(s: State, steps: seq<Step>, p: bool) returns (k: nat)
    requires ValidRun(s, steps, p) && Owed(s, steps, p)
    ensures k < |steps| && FlipsAt(s, steps, p, k) && forall l :: k < l < |steps| ==> !RebuildsAt(s, steps, p, l)
    decreases |steps|
  {
    var m := |steps| - 1;
    assert ValidRun(s, steps[..m], p);
    hide FlipsAt, RebuildsAt, ValidRun, Run;
    if FlipsAt(s, steps, p, m) {
      k := m;
    } else {
      k := OwedSince(s, steps[..m], p);
      PrefixAgrees(s, steps, p, k);
      forall l | k < l < m ensures !RebuildsAt(s, steps, p, l) { PrefixAgrees(s, steps, p, l); }
    }
  }

  lemma {:induction false} OwedFrom(s: State, steps: seq<Step>, p: bool, k: nat)
    requires ValidRun(s, steps, p) && k < |steps| && FlipsAt(s, steps, p, k)
    requires forall l :: k < l < |steps| ==> !RebuildsAt(s, steps, p, l)
    ensures Owed(s, steps, p)
    decreases |steps|
  {
    var m := |steps| - 1;
    assert ValidRun(s, steps[..m], p);
    hide FlipsAt, RebuildsAt, ValidRun, Run;
    if k < m {
      PrefixAgrees(s, steps, p, k);
      forall l | k < l < m ensures !RebuildsAt(s, steps[..m], p, l) { PrefixAgrees(s, steps, p, l); }
      OwedFrom(s, steps[..m], p, k);
    }
  }

  /** A retry is owed exactly if the flag has been lowered and the descriptors have not been rebuilt since. */
  lemma {:induction false} RetryOwedIff(n: nat, steps: seq<Step>, p: bool)
    requires n > 0 && ValidRun(Init(n), steps, p)
    ensures Run(Init(n), steps, p).retryOwed <==>
              exists k :: 0 <= k < |steps| && FlipsAt(Init(n), steps, p, k)
                          && forall l :: k < l < |steps| ==> !RebuildsAt(Init(n), steps, p, l)
  {
    RetryOwedFold(n, steps, p);
    hide Owed, FlipsAt, RebuildsAt, Run, ValidRun;
    if Run(Init(n), steps, p).retryOwed {
      var k := OwedSince(Init(n), steps, p);
    } else if k :| 0 <= k < |steps| && FlipsAt(Init(n), steps, p, k) && forall l :: k < l < |steps| ==> !RebuildsAt(Init(n), steps, p, l) {
      OwedFrom(Init(n), steps, p, k);
    }
  }

  lemma {:induction false} RetryOwedFold(n: nat, steps: seq<Step>, p: bool)
    requires n > 0 && ValidRun(Init(n), steps, p)
    ensures Run(Init(n), steps, p).retryOwed == Owed(Init(n), steps, p)
    decreases |steps|
  {
    hide Apply, Enabled;
    if steps != [] {
      var m := |steps| - 1;
      RetryOwedFold(n, steps[..m], p);
      RetryStep(Run(Init(n), steps[..m], p), steps[m], p);
    }
  }

  lemma {:induction false} RetryStep(s: State, e: Step, p: bool)
    requires Enabled(s, e, p)
    ensures Apply(s, e).retryOwed ==
            if e.FreeClear? && s.g.status.RxAllocError? then true
            else if e.InputRebuild? || e.LinkFinish? || e.LinkStore? || (e.InputAlloc? && s.g.pool == []) then false
            else s.retryOwed
  {
  }
}
