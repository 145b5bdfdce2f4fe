/**
 * low_level_output and HAL_ETH_TxFreeCallback (LWIP/Target/ethernetif.c): a
 * pbuf chain becomes a list of at most four DMA buffers, and the reference
 * taken for the transmission stays balanced across busy retries.
 */
module TxOutput {
  import opened LwipPbuf
  import opened Wrappers

  const ETH_TX_DESC_CNT: nat := 4

  /** One entry of the array handed to the HAL; `next` is an index into it. */
  datatype TxBuffer = TxBuffer(buffer: nat, len: nat, next: Option<nat>)

  datatype Segment = Segment(payload: nat, len: nat)

  // ------------------------------------------------ building the list

  ghost predicate Closed(nodes: set<Pbuf>)
    reads nodes
  {
    forall q :: q in nodes && q.next != null ==> q.next in nodes
  }

  /** The pbufs met in the first `k` steps along a chain, cyclic or not. */
  ghost function Path(q: Pbuf?, k: nat, nodes: set<Pbuf>): (r: seq<Pbuf>)
    requires Closed(nodes) && (q != null ==> q in nodes)
    reads nodes
    ensures |r| <= k && forall i :: 0 <= i < |r| ==> r[i] in nodes
  {
    if q == null || k == 0 then [] else [q] + Path(q.next, k - 1, nodes)
  }

  ghost function Segments(ps: seq<Pbuf>): (r: seq<Segment>)
    reads ps
    ensures |r| == |ps| && forall i :: 0 <= i < |r| ==> r[i] == Segment(ps[i].payload, ps[i].len)
  {
    seq(|ps|, i requires 0 <= i < |ps| reads ps => Segment(ps[i].payload, ps[i].len))
  }

  /** The segments of a chain, cut off behind one more than the HAL can take. */
  ghost function Walk(p: Pbuf, nodes: set<Pbuf>): (r: seq<Segment>)
    requires Closed(nodes) && p in nodes
    reads nodes
  {
    Segments(Path(p, ETH_TX_DESC_CNT + 1, nodes))
  }

  lemma {:induction false} PathFollowsNext(q: Pbuf?, k: nat, nodes: set<Pbuf>, i: nat)
    requires Closed(nodes) && (q != null ==> q in nodes) && k > 0
    requires i < |Path(q, k, nodes)|
    ensures At(Path(q, k, nodes), 0) == q
    ensures i + 1 < k ==> Path(q, k, nodes)[i].next == At(Path(q, k, nodes), i + 1)
  {
    if i > 0 { PathFollowsNext(q.next, k - 1, nodes, i - 1); }
  }

  /** What the HAL sees when it follows the `next` pointers from entry `i`. */
  function Follow(tx: seq<TxBuffer>, i: nat, fuel: nat): seq<Segment>
    requires i < |tx|
    decreases fuel
  {
    if fuel == 0 then []
    else
      [Segment(tx[i].buffer, tx[i].len)]
      + (if tx[i].next.Some? && tx[i].next.value < |tx| then Follow(tx, tx[i].next.value, fuel - 1) else [])
  }

  predicate Filled(tx: seq<TxBuffer>, segs: seq<Segment>)
    requires |segs| <= |tx|
  {
    forall j :: 0 <= j < |segs| ==>
      tx[j] == TxBuffer(segs[j].payload, segs[j].len, if j + 1 < |segs| then Some(j + 1) else None)
  }

  lemma {:induction false} FollowFilled(tx: seq<TxBuffer>, segs: seq<Segment>, i: nat, fuel: nat)
    requires |segs| <= |tx| && Filled(tx, segs) && i < |segs| && fuel >= |segs| - i
    ensures Follow(tx, i, fuel) == segs[i..]
    decreases |segs| - i
  {
    if i + 1 < |segs| { FollowFilled(tx, segs, i + 1, fuel - 1); }
  }

  function TotalLen(segs: seq<Segment>): nat
  {
    if segs == [] then 0 else segs[0].len + TotalLen(segs[1..])
  }

  /** lwIP's invariant of `tot_len`: a pbuf's own length plus that of the rest of its chain. */
  ghost predicate TotalsAddUp(nodes: set<Pbuf>)
    requires Closed(nodes)
    reads nodes
  {
    forall q :: q in nodes ==> q.totLen == q.len + if q.next == null then 0 else q.next.totLen
  }

  /** On a chain that ends within `k` steps the first `tot_len`, which becomes TxConfig.Length, is the length of what is sent. */
  lemma {:induction false} LengthOfBuffers(q: Pbuf?, k: nat, nodes: set<Pbuf>)
    requires Closed(nodes) && TotalsAddUp(nodes) && (q != null ==> q in nodes)
    requires |Path(q, k, nodes)| < k
    ensures TotalLen(Segments(Path(q, k, nodes))) == if q == null then 0 else q.totLen
    decreases k
  {
    if q != null {
      LengthOfBuffers(q.next, k - 1, nodes);
      var ps := Path(q, k, nodes);
      assert ps[1..] == Path(q.next, k - 1, nodes);
      assert Segments(ps)[1..] == Segments(ps[1..]);
    }
  }

  lemma {:induction false} LengthSent(p: Pbuf, nodes: set<Pbuf>)
    requires Closed(nodes) && TotalsAddUp(nodes) && p in nodes && |Walk(p, nodes)| <= ETH_TX_DESC_CNT
    ensures p.totLen == TotalLen(Walk(p, nodes))
  {
    LengthOfBuffers(p, ETH_TX_DESC_CNT + 1, nodes);
  }

  /** The body of that loop: entry `i` is filled and the one before it made to point to it. */
  method PutSegment(tx: array<TxBuffer>, i: nat, q: Pbuf, ghost done: seq<Segment>)
    requires i == |done| < tx.Length && Filled(tx[..], done) && tx[i] == TxBuffer(0, 0, None)
    modifies tx
    ensures Filled(tx[..], done + [Segment(q.payload, q.len)])
    ensures forall j :: i < j < tx.Length ==> tx[j] == old(tx[j])
  {
    tx[i] := tx[i].(buffer := q.payload);
    tx[i] := tx[i].(len := q.len);
    if i > 0 {
      tx[i - 1] := tx[i - 1].(next := Some(i));
    }
    if q.next == null {
      tx[i] := tx[i].(next := None);
    }
  }

  /**
   * The loop that fills Txbuffer.  It stops on every chain; it gives up exactly
   * when a fifth segment is met, and otherwise the linked list is the chain.
   */
  method FillTxBuffers(p: Pbuf, tx: array<TxBuffer>, ghost nodes: set<Pbuf>) returns (fits: bool)
    requires p in nodes && Closed(nodes)
    requires tx.Length == ETH_TX_DESC_CNT && forall j :: 0 <= j < tx.Length ==> tx[j] == TxBuffer(0, 0, None)
    modifies tx
    ensures fits <==> |Walk(p, nodes)| <= ETH_TX_DESC_CNT
    ensures fits ==> Follow(tx[..], 0, ETH_TX_DESC_CNT) == Walk(p, nodes)
    ensures fits ==>
              var path := Path(p, ETH_TX_DESC_CNT + 1, nodes);
              && |path| <= tx.Length
              && forall j :: 0 <= j < |path| ==>
                   && tx[j].buffer == path[j].payload && tx[j].len == path[j].len
                   && tx[j].next == if j + 1 < |path| then Some(j + 1) else None
  {
    ghost var path := Path(p, ETH_TX_DESC_CNT + 1, nodes);
    ghost var segs := Segments(path);
    var i := 0;
    var q: Pbuf? := p;
    while q != null
      invariant i <= ETH_TX_DESC_CNT && i <= |segs| && q == At(path, i)
      invariant Filled(tx[..], segs[..i])
      invariant forall j :: i <= j < tx.Length ==> tx[j] == TxBuffer(0, 0, None)
      decreases ETH_TX_DESC_CNT - i
    {
      if i >= ETH_TX_DESC_CNT {
        return false;
      }
      PathFollowsNext(p, ETH_TX_DESC_CNT + 1, nodes, i);
      assert segs[..i + 1] == segs[..i] + [Segment(q.payload, q.len)];
      PutSegment(tx, i, q, segs[..i]);
      i := i + 1;
      q := q.next;
    }
    FollowFilled(tx[..], segs, 0, ETH_TX_DESC_CNT);
    return true;
  }

  // ------------------------------------------- the transmission loop

  /**
   * What HAL_ETH_Transmit_IT answers.  A busy answer sets the BUSY bit of the
   * HAL's error code, which only HAL_ETH_Init clears; a stopped MAC leaves the
   * code alone.  `completed` is the number of packets the DMA has finished by
   * the time the driver has waited for it.
   */
  datatype Answer = Accepted | Busy(completed: nat) | Stopped(completed: nat)

  datatype Err = ERR_OK | ERR_IF

  datatype Outcome = Returned(err: Err) | Retrying

  /** A packet given to the HAL: TxConfig's pData, Length and buffer list. */
  datatype Transmission = Transmission(packet: Pbuf, length: nat, buffers: seq<Segment>)

  /** What a call leaves behind: the transmissions under way, the BUSY bit and how the call ended. */
  datatype Effect = Effect(sent: seq<Transmission>, busyBit: bool, outcome: Outcome)

  /** The do-while loop on a list of answers; Retrying if they end before it does. */
  function Transmit(sent: seq<Transmission>, busyBit: bool, config: Transmission, answers: seq<Answer>): Effect
    decreases |answers|
  {
    if answers == [] then Effect(sent, busyBit, Retrying)
    else
      match answers[0]
      case Accepted => Effect(sent + [config], busyBit, Returned(ERR_OK))
      case Busy(n) => Transmit(Remaining(sent, n), true, config, answers[1..])
      case Stopped(n) =>
        if busyBit then Transmit(Remaining(sent, n), true, config, answers[1..])
        else Effect(sent, busyBit, Returned(ERR_IF))
  }

  /** How many packets the DMA finished during these answers. */
  function Finished(answers: seq<Answer>): nat
  {
    if answers == [] then 0
    else (match answers[0] case Accepted => 0 case Busy(n) => n case Stopped(n) => n) + Finished(answers[1..])
  }

  /** The e-th answer ends the call; with e == |answers| none does. */
  predicate EndsAt(busyBit: bool, answers: seq<Answer>, e: nat)
    ensures EndsAt(busyBit, answers, e) ==> e <= |answers|
  {
    && e <= |answers|
    && (forall j :: 0 <= j < e ==> !answers[j].Accepted?)
    && (e > 0 && answers[0].Stopped? ==> busyBit)
    && (e < |answers| ==> answers[e].Accepted? || (e == 0 && answers[0].Stopped? && !busyBit))
  }

  function OutcomeAt(answers: seq<Answer>, e: nat): Outcome
    requires e <= |answers|
  {
    if e == |answers| then Retrying else if answers[e].Accepted? then Returned(ERR_OK) else Returned(ERR_IF)
  }

  /** What is under way when the oldest `n` have finished. */
  function Remaining<T>(s: seq<T>, n: nat): (r: seq<T>)
    ensures |r| == (if n < |s| then |s| - n else 0) && forall i :: 0 <= i < |r| ==> r[i] == s[i + n]
  {
    if n < |s| then s[n..] else []
  }

  lemma {:induction false} EndOf(busyBit: bool, answers: seq<Answer>) returns (e: nat)
    ensures EndsAt(busyBit, answers, e)
  {
    e := 0;
    if answers != [] && answers[0].Stopped? && !busyBit { return; }
    while e < |answers| && !answers[e].Accepted?
      invariant e <= |answers| && forall j :: 0 <= j < e ==> !answers[j].Accepted?
    {
      e := e + 1;
    }
  }

  lemma {:induction false} RestEnds(busyBit: bool, answers: seq<Answer>, e: nat)
    requires EndsAt(busyBit, answers, e) && e > 0
    ensures EndsAt(true, answers[1..], e - 1) && OutcomeAt(answers[1..], e - 1) == OutcomeAt(answers, e)
    ensures !answers[0].Accepted? && (answers[0].Stopped? ==> busyBit)
    ensures Finished(answers[..e]) == answers[0].completed + Finished(answers[1..][..e - 1])
  {
    assert answers[..e][1..] == answers[1..][..e - 1] && answers[..e][0] == answers[0];
  }

  lemma {:induction false} RemainingTwice<T>(s: seq<T>, n: nat, m: nat)
    ensures Remaining(Remaining(s, n), m) == Remaining(s, n + m) && Remaining(s, 0) == s
  {
  }

  lemma {:induction false} TransmitSent(sent: seq<Transmission>, busyBit: bool, config: Transmission, answers: seq<Answer>, e: nat)
    requires EndsAt(busyBit, answers, e)
    ensures var effect := Transmit(sent, busyBit, config, answers);
            && effect.outcome == OutcomeAt(answers, e)
            && effect.sent == Remaining(sent, Finished(answers[..e])) + if effect.outcome == Returned(ERR_OK) then [config] else []
    decreases e
  {
    hide Remaining;
    if e > 0 {
      RestEnds(busyBit, answers, e);
      hide EndsAt, OutcomeAt, Finished;
      var n := answers[0].completed;
      TransmitSent(Remaining(sent, n), true, config, answers[1..], e - 1);
      RemainingTwice(sent, n, Finished(answers[1..][..e - 1]));
    } else {
      RemainingTwice(sent, 0, 0);
      assert answers[..0] == [] && sent + [] == sent;
    }
  }

  lemma {:induction false} TransmitBusy(sent: seq<Transmission>, busyBit: bool, config: Transmission, answers: seq<Answer>, e: nat)
    requires EndsAt(busyBit, answers, e)
    ensures Transmit(sent, busyBit, config, answers).busyBit <==> busyBit || exists j :: 0 <= j < e && answers[j].Busy?
    decreases e
  {
    if e > 0 {
      RestEnds(busyBit, answers, e);
      TransmitBusy(Remaining(sent, answers[0].completed), true, config, answers[1..], e - 1);
      if !busyBit { assert answers[0].Busy?; }
    }
  }

  /**
   * The loop ends at the first accepted answer, or at once if the MAC is stopped
   * and was never busy; it reports an error only then.  By its end the HAL has
   * released, oldest first, all packets finished before, and the packet has
   * joined those under way if and only if it was accepted.
   */
  lemma {:induction false} TransmitOutcome(sent: seq<Transmission>, busyBit: bool, config: Transmission, answers: seq<Answer>, e: nat)
    requires EndsAt(busyBit, answers, e)
    ensures var effect := Transmit(sent, busyBit, config, answers);
            && effect.outcome == OutcomeAt(answers, e)
            && effect.sent == Remaining(sent, Finished(answers[..e])) + (if effect.outcome == Returned(ERR_OK) then [config] else [])
            && (effect.busyBit <==> busyBit || exists j :: 0 <= j < e && answers[j].Busy?)
  {
    TransmitSent(sent, busyBit, config, answers, e);
    TransmitBusy(sent, busyBit, config, answers, e);
    hide Transmit, EndsAt, OutcomeAt, Finished, Remaining;
  }

  /** Once the MAC has been busy, a call made while it is stopped retries for as long as it stays stopped. */
  lemma {:induction false} StoppedAfterBusyNeverReturns(sent: seq<Transmission>, config: Transmission, answers: seq<Answer>)
    requires forall i :: 0 <= i < |answers| ==> answers[i].Stopped?
    ensures Transmit(sent, true, config, answers).outcome == Retrying
    decreases |answers|
  {
    if answers != [] { StoppedAfterBusyNeverReturns(Remaining(sent, answers[0].completed), config, answers[1..]); }
  }

  // ---------------------------------------------- reference counting

  /** Another task takes a further reference to a packet it owns, or gives one up. */
  datatype OwnerEvent = Ref(p: Pbuf) | Free(p: Pbuf)

  /** What other tasks do while the driver waits for an answer of the HAL, and the answer. */
  datatype Turn = Turn(others: seq<OwnerEvent>, answer: Answer)

  predicate Owned(owners: map<Pbuf, nat>, p: Pbuf) { p in owners && owners[p] > 0 }

  function OwnersAfterOne(owners: map<Pbuf, nat>, e: OwnerEvent): map<Pbuf, nat>
  {
    if !Owned(owners, e.p) then owners
    else owners[e.p := if e.Ref? then owners[e.p] + 1 else owners[e.p] - 1]
  }

  function OwnersAfter(owners: map<Pbuf, nat>, events: seq<OwnerEvent>): map<Pbuf, nat>
    decreases |events|
  {
    if events == [] then owners else OwnersAfter(OwnersAfterOne(owners, events[0]), events[1..])
  }

  /** The other tasks touch only what they own. */
  predicate Proper(owners: map<Pbuf, nat>, events: seq<OwnerEvent>)
    decreases |events|
  {
    events == [] || (Owned(owners, events[0].p) && Proper(OwnersAfterOne(owners, events[0]), events[1..]))
  }

  function Answers(turns: seq<Turn>): (r: seq<Answer>)
    ensures |r| == |turns| && forall i :: 0 <= i < |r| ==> r[i] == turns[i].answer
  {
    seq(|turns|, i requires 0 <= i < |turns| => turns[i].answer)
  }

  /** The call ends with this answer. */
  predicate Ends(busyBit: bool, a: Answer) { a.Accepted? || (a.Stopped? && !busyBit) }

  /** The owners once the call has returned, or after all turns if it has not. */
  function OwnersDuring(owners: map<Pbuf, nat>, busyBit: bool, turns: seq<Turn>): map<Pbuf, nat>
    decreases |turns|
  {
    if turns == [] then owners
    else
      var after := OwnersAfter(owners, turns[0].others);
      if Ends(busyBit, turns[0].answer) then after else OwnersDuring(after, true, turns[1..])
  }

  predicate ProperDuring(owners: map<Pbuf, nat>, busyBit: bool, turns: seq<Turn>)
    decreases |turns|
  {
    turns == [] ||
    (Proper(owners, turns[0].others)
     && (Ends(busyBit, turns[0].answer) || ProperDuring(OwnersAfter(owners, turns[0].others), true, turns[1..])))
  }

  lemma {:induction false} OneTurn(sent: seq<Transmission>, busyBit: bool, owners: map<Pbuf, nat>, config: Transmission, turns: seq<Turn>)
    requires turns != [] && ProperDuring(owners, busyBit, turns)
    ensures Proper(owners, turns[0].others)
    ensures var a, after := turns[0].answer, OwnersAfter(owners, turns[0].others);
            && OwnersDuring(owners, busyBit, turns) ==
               (if Ends(busyBit, a) then after else OwnersDuring(after, true, turns[1..]))
            && (!Ends(busyBit, a) ==> ProperDuring(after, true, turns[1..]))
            && Transmit(sent, busyBit, config, Answers(turns)) ==
               if a.Accepted? then Effect(sent + [config], busyBit, Returned(ERR_OK))
               else if Ends(busyBit, a) then Effect(sent, busyBit, Returned(ERR_IF))
               else Transmit(Remaining(sent, a.completed), true, config, Answers(turns[1..]))
  {
    assert Answers(turns)[1..] == Answers(turns[1..]);
  }

  lemma {:induction false} NoTurn(sent: seq<Transmission>, busyBit: bool, owners: map<Pbuf, nat>, config: Transmission)
    ensures OwnersDuring(owners, busyBit, []) == owners
    ensures Transmit(sent, busyBit, config, Answers([])) == Effect(sent, busyBit, Retrying)
  {
  }

  function InFlight(sent: seq<Transmission>, p: Pbuf): nat
  {
    if sent == [] then 0 else (if sent[0].packet == p then 1 else 0) + InFlight(sent[1..], p)
  }

  lemma {:induction false} InFlightAppend(sent: seq<Transmission>, t: Transmission, p: Pbuf)
    ensures InFlight(sent + [t], p) == InFlight(sent, p) + if t.packet == p then 1 else 0
  {
    if sent == [] {
      assert [] + [t] == [t] && [t][1..] == [];
    } else {
      assert (sent + [t])[1..] == sent[1..] + [t];
      InFlightAppend(sent[1..], t, p);
    }
  }

  lemma {:induction false} InFlightSplit(sent: seq<Transmission>, n: nat, p: Pbuf)
    requires n <= |sent|
    ensures InFlight(sent, p) == InFlight(sent[..n], p) + InFlight(sent[n..], p)
  {
    if n > 0 {
      InFlightSplit(sent[1..], n - 1, p);
      assert sent[1..][..n - 1] == sent[..n][1..] && sent[1..][n - 1..] == sent[n..];
    } else {
      assert sent[0..] == sent && sent[..0] == [];
    }
  }

  /** The oldest `n` of those under way. */
  function FinishedOf<T>(s: seq<T>, n: nat): (r: seq<T>)
    ensures |r| == (if n < |s| then n else |s|) && r == s[..|r|]
  {
    if n < |s| then s[..n] else s
  }

  lemma {:induction false} InFlightJoined(sent: seq<Transmission>, t: Transmission, joined: bool, p: Pbuf)
    ensures InFlight(sent + (if joined then [t] else []), p) == InFlight(sent, p) + if joined && t.packet == p then 1 else 0
  {
    if joined { InFlightAppend(sent, t, p); } else { assert sent + [] == sent; }
  }

  lemma {:induction false} InFlightRemaining(sent: seq<Transmission>, n: nat, p: Pbuf)
    ensures InFlight(Remaining(sent, n), p) + InFlight(FinishedOf(sent, n), p) == InFlight(sent, p)
  {
    if n < |sent| { InFlightSplit(sent, n, p); }
  }

  class EthTx {
    var refs: map<Pbuf, nat>           // the `ref` fields of all packets
    var sent: seq<Transmission>        // accepted and not yet released by the HAL, oldest first
    var busyBit: bool                  // HAL_ETH_ERROR_BUSY in heth.ErrorCode
    ghost var owners: map<Pbuf, nat>   // references held by the stack and the application

    /** Every reference count is the number of owners plus the number of transmissions under way, plus `extra` for one packet. */
    ghost predicate Counted(q: Pbuf, extra: nat)
      reads this
    {
      && owners.Keys == refs.Keys
      && (forall i :: 0 <= i < |sent| ==> sent[i].packet in refs)
      && forall p :: p in refs ==> refs[p] == owners[p] + InFlight(sent, p) + if p == q then extra else 0
    }

    ghost predicate Balanced()
      reads this
    {
      && owners.Keys == refs.Keys
      && (forall i :: 0 <= i < |sent| ==> sent[i].packet in refs)
      && forall p :: p in refs ==> refs[p] == owners[p] + InFlight(sent, p)
    }

    constructor ()
      ensures Balanced() && refs == map[] && sent == [] && !busyBit
    {
      refs, sent, busyBit, owners := map[], [], false, map[];
    }

    /** A packet is allocated with one owner. */
    method Alloc(p: Pbuf)
      requires Balanced() && p !in refs
      modifies this
      ensures Balanced() && owners == old(owners)[p := 1] && sent == old(sent) && busyBit == old(busyBit)
    {
      NotInFlight(sent, p);
      refs, owners := refs[p := 1], owners[p := 1];
    }

    /** Another task references or frees a packet it owns. */
    method Other(e: OwnerEvent, ghost q: Pbuf, ghost extra: nat)
      requires Counted(q, extra) && Owned(owners, e.p)
      modifies this`refs, this`owners
      ensures Counted(q, extra) && refs.Keys == old(refs.Keys)
      ensures owners == OwnersAfterOne(old(owners), e)
    {
      var p := e.p;
      match e
      case Ref(_) => refs, owners := refs[p := refs[p] + 1], owners[p := owners[p] + 1];
      case Free(_) => refs, owners := refs[p := refs[p] - 1], owners[p := owners[p] - 1];
    }

    method Others(events: seq<OwnerEvent>, ghost q: Pbuf, ghost extra: nat)
      requires Counted(q, extra) && Proper(owners, events)
      modifies this`refs, this`owners
      ensures Counted(q, extra) && refs.Keys == old(refs.Keys)
      ensures owners == OwnersAfter(old(owners), events)
    {
      hide Counted;
      ghost var final := OwnersAfter(owners, events);
      for i := 0 to |events|
        invariant Counted(q, extra) && refs.Keys == old(refs.Keys)
        invariant Proper(owners, events[i..]) && OwnersAfter(owners, events[i..]) == final
      {
        assert events[i..][0] == events[i] && events[i..][1..] == events[i + 1..];
        Other(events[i], q, extra);
      }
      assert events[|events|..] == [];
    }

    /** HAL_ETH_ReleaseTxPacket: HAL_ETH_TxFreeCallback for each finished packet, oldest first. */
    method ReleaseTxPacket(completed: nat, ghost q: Pbuf, ghost extra: nat)
      requires Counted(q, extra)
      modifies this`refs, this`sent
      ensures Counted(q, extra) && refs.Keys == old(refs.Keys)
      ensures sent == if completed < |old(sent)| then old(sent)[completed..] else []
    {
      var n := 0;
      while n < completed && sent != []
        invariant n <= completed && n <= |old(sent)| && sent == old(sent)[n..]
        invariant Counted(q, extra) && refs.Keys == old(refs.Keys)
      {
        var p := sent[0].packet;
        refs := refs[p := refs[p] - 1];
        sent := sent[1..];
        n := n + 1;
      }
    }

    /**
     * low_level_output; `ended` is the number of answers before the one that ends
     * the call.  Whatever happens during the retries, the references stay
     * balanced: the call has added one, for the transmission it appends, if and
     * only if it returns ERR_OK; one is gone for each transmission finished while
     * it waited; all other changes are the owners'.
     */
    method LowLevelOutput(p: Pbuf, turns: seq<Turn>, ghost nodes: set<Pbuf>) returns (r: Outcome, ghost ended: nat)
      requires Balanced() && p in refs && p in nodes && Closed(nodes) && ProperDuring(owners, busyBit, turns)
      modifies this
      ensures |Walk(p, nodes)| > ETH_TX_DESC_CNT ==> r == Returned(ERR_IF) && unchanged(this)
      ensures |Walk(p, nodes)| <= ETH_TX_DESC_CNT ==>
                && EndsAt(old(busyBit), Answers(turns), ended)
                && r == OutcomeAt(Answers(turns), ended)
                && sent == Remaining(old(sent), Finished(Answers(turns)[..ended]))
                           + (if r == Returned(ERR_OK) then [Transmission(p, p.totLen, Walk(p, nodes))] else [])
                && (busyBit <==> old(busyBit) || exists j :: 0 <= j < ended && turns[j].answer.Busy?)
                && owners == OwnersDuring(old(owners), old(busyBit), turns)
      ensures TotalsAddUp(nodes) && |Walk(p, nodes)| <= ETH_TX_DESC_CNT ==> p.totLen == TotalLen(Walk(p, nodes))
      ensures r.Returned? ==> Balanced()
      // each count has lost its share of the transmissions finished meanwhile
      ensures r.Returned? && |Walk(p, nodes)| <= ETH_TX_DESC_CNT ==>
                forall q :: q in refs ==>
                  refs[q] + InFlight(FinishedOf(old(sent), Finished(Answers(turns)[..ended])), q) ==
                  owners[q] + InFlight(old(sent), q) + if r == Returned(ERR_OK) && q == p then 1 else 0
      ensures r.Retrying? ==> Counted(p, 1)
    {
      hide Transmit, OwnersDuring, ProperDuring, TotalLen, Finished, EndsAt, InFlight, Remaining, OutcomeAt;
      var tx := new TxBuffer[ETH_TX_DESC_CNT](_ => TxBuffer(0, 0, None));
      var fits := FillTxBuffers(p, tx, nodes);
      if !fits {
        return Returned(ERR_IF), 0;
      }
      var config := Transmission(p, p.totLen, Follow(tx[..], 0, ETH_TX_DESC_CNT));
      if TotalsAddUp(nodes) { LengthSent(p, nodes); }
      hide Counted, Balanced, TotalsAddUp, Walk;
      r, ended := Send(config, turns);
    }

    /** The reference is taken and the packet sent. */
    method Send(config: Transmission, turns: seq<Turn>) returns (r: Outcome, ghost ended: nat)
      requires Balanced() && config.packet in refs && ProperDuring(owners, busyBit, turns)
      modifies this
      ensures EndsAt(old(busyBit), Answers(turns), ended)
      ensures r == OutcomeAt(Answers(turns), ended)
      ensures sent == Remaining(old(sent), Finished(Answers(turns)[..ended])) + if r == Returned(ERR_OK) then [config] else []
      ensures busyBit <==> old(busyBit) || exists j :: 0 <= j < ended && turns[j].answer.Busy?
      ensures owners == OwnersDuring(old(owners), old(busyBit), turns)
      ensures r.Returned? ==> Balanced()
      ensures r.Returned? ==>
                forall q :: q in refs ==>
                  refs[q] + InFlight(FinishedOf(old(sent), Finished(Answers(turns)[..ended])), q) ==
                  owners[q] + InFlight(old(sent), q) + if r == Returned(ERR_OK) && q == config.packet then 1 else 0
      ensures r.Retrying? ==> Counted(config.packet, 1)
    {
      hide Transmit, OwnersDuring, ProperDuring, EndsAt, Finished, InFlight, Remaining, OutcomeAt, FinishedOf;
      ended := EndOf(busyBit, Answers(turns));
      ghost var n := Finished(Answers(turns)[..ended]);
      ghost var was := sent;
      TransmitOutcome(sent, busyBit, config, Answers(turns), ended);
      refs := refs[config.packet := refs[config.packet] + 1];
      r := TransmitLoop(config, turns);
      forall q | q in refs && r.Returned?
        ensures refs[q] + InFlight(FinishedOf(was, n), q) ==
                owners[q] + InFlight(was, q) + if r == Returned(ERR_OK) && q == config.packet then 1 else 0
      {
        InFlightRemaining(was, n, q);
        InFlightJoined(Remaining(was, n), config, r == Returned(ERR_OK), q);
      }
    }

    method TransmitLoop(config: Transmission, turns: seq<Turn>) returns (r: Outcome)
      requires Counted(config.packet, 1) && config.packet in refs && ProperDuring(owners, busyBit, turns)
      modifies this
      ensures Counted(config.packet, if r.Retrying? then 1 else 0)
      ensures owners == OwnersDuring(old(owners), old(busyBit), turns)
      ensures Effect(sent, busyBit, r) == Transmit(old(sent), old(busyBit), config, Answers(turns))
    {
      hide Counted, Transmit, OwnersDuring, ProperDuring, OwnersAfter, Proper, Remaining, InFlight;
      ghost var effect := Transmit(sent, busyBit, config, Answers(turns));
      ghost var final := OwnersDuring(owners, busyBit, turns);
      assert turns[0..] == turns;
      for i := 0 to |turns|
        invariant Counted(config.packet, 1) && config.packet in refs
        invariant ProperDuring(owners, busyBit, turns[i..]) && OwnersDuring(owners, busyBit, turns[i..]) == final
        invariant Transmit(sent, busyBit, config, Answers(turns[i..])) == effect
      {
        assert turns[i..][0] == turns[i] && turns[i..][1..] == turns[i + 1..];
        OneTurn(sent, busyBit, owners, config, turns[i..]);
        Others(turns[i].others, config.packet, 1);
        r := Attempt(config, turns[i].answer);
        if r.Returned? {
          return;
        }
      }
      NoTurn(sent, busyBit, owners, config);
      assert turns[|turns|..] == [];
      r := Retrying;
    }

    /** One call of HAL_ETH_Transmit_IT and what the driver does with its answer. */
    method Attempt(config: Transmission, a: Answer) returns (r: Outcome)
      requires Counted(config.packet, 1) && config.packet in refs
      modifies this
      ensures owners == old(owners) && refs.Keys == old(refs.Keys)
      ensures Counted(config.packet, if r.Retrying? then 1 else 0)
      ensures r == if a.Accepted? then Returned(ERR_OK)
                   else if a.Stopped? && !old(busyBit) then Returned(ERR_IF) else Retrying
      ensures busyBit == (old(busyBit) || a.Busy?)
      ensures sent == if a.Accepted? then old(sent) + [config]
                      else if r.Retrying? then Remaining(old(sent), a.completed) else old(sent)
    {
      var p := config.packet;
      if a.Accepted? {
        forall q | q in refs ensures InFlight(sent + [config], q) == InFlight(sent, q) + if p == q then 1 else 0 {
          InFlightAppend(sent, config, q);
        }
        sent := sent + [config];
        return Returned(ERR_OK);
      }
      if a.Busy? { busyBit := true; }
      if busyBit {
        ReleaseTxPacket(a.completed, p, 1);
        return Retrying;
      }
      refs := refs[p := refs[p] - 1];
      return Returned(ERR_IF);
    }
  }

  lemma {:induction false} NotInFlight(sent: seq<Transmission>, p: Pbuf)
    requires forall i :: 0 <= i < |sent| ==> sent[i].packet != p
    ensures InFlight(sent, p) == 0
  {
    if sent != [] { NotInFlight(sent[1..], p); }
  }
}
