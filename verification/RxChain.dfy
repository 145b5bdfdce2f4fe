/**
 * HAL_ETH_RxLinkCallback (LWIP/Target/ethernetif.c): the chain of pbufs of the
 * packet being received, updated in place.  The `tot_len` field is sixteen bits
 * wide and its arithmetic wraps.
 */
module RxChain {
  import opened LwipPbuf
  import RxPool

  /** Sixteen-bit wrap-around. */
  function Wrap16(n: nat): (r: U16)
    ensures r == n <==> n < 0x1_0000
  {
    n % 0x1_0000
  }

  function Sum(lens: seq<nat>): nat
  {
    if lens == [] then 0 else lens[0] + Sum(lens[1..])
  }

  lemma {:induction false} SumAppend(lens: seq<nat>, n: nat)
    ensures Sum(lens + [n]) == Sum(lens) + n
  {
    if lens == [] {
      assert [] + [n] == [n] && [n][1..] == [];
    } else {
      assert (lens + [n])[1..] == lens[1..] + [n];
      SumAppend(lens[1..], n);
    }
  }

  lemma {:induction false} SuffixAtMostTotal(lens: seq<nat>, i: nat)
    requires i <= |lens|
    ensures Sum(lens[i..]) <= Sum(lens)
  {
    if i > 0 {
      SuffixAtMostTotal(lens[1..], i - 1);
      assert lens[1..][i - 1..] == lens[i..];
    }
  }

  lemma {:induction false} WrapAdd(a: nat, b: nat)
    ensures Wrap16(Wrap16(a) + b) == Wrap16(a + b)
  {
  }

  /** Every total is the sum of the lengths from there on, as far as sixteen bits can tell. */
  predicate AreSuffixSums(totals: seq<nat>, lens: seq<nat>)
  {
    && |totals| == |lens|
    && forall i {:trigger Sum(lens[i..])} :: 0 <= i < |lens| ==> totals[i] == Wrap16(Sum(lens[i..]))
  }

  function Plus(totals: seq<nat>, n: nat): (r: seq<nat>)
    ensures |r| == |totals| && forall i :: 0 <= i < |r| ==> r[i] == Wrap16(totals[i] + n)
  {
    seq(|totals|, i requires 0 <= i < |totals| => Wrap16(totals[i] + n))
  }

  /** If the totals are suffix sums, adding a length to all of them and to a new zero keeps them so. */
  lemma {:induction false} AddToAllTotals(totals: seq<nat>, lens: seq<nat>, length: nat)
    requires AreSuffixSums(totals, lens)
    ensures AreSuffixSums(Plus(totals + [0], length), lens + [length])
  {
    forall i | 0 <= i <= |lens|
      ensures Plus(totals + [0], length)[i] == Wrap16(Sum((lens + [length])[i..]))
    {
      assert (lens + [length])[i..] == lens[i..] + [length];
      SumAppend(lens[i..], length);
      WrapAdd(Sum(lens[i..]), length);
    }
  }

  /** All totals are the true lengths if and only if the packet is shorter than 65536 bytes. */
  lemma {:induction false} TotalsExactIff(totals: seq<nat>, lens: seq<nat>)
    requires AreSuffixSums(totals, lens)
    ensures (forall i :: 0 <= i < |lens| ==> totals[i] == Sum(lens[i..])) <==> Sum(lens) < 0x1_0000
  {
    assert lens[0..] == lens;
    if Sum(lens) < 0x1_0000 {
      forall i | 0 <= i < |lens| ensures totals[i] == Sum(lens[i..]) {
        SuffixAtMostTotal(lens, i);
      }
    } else {
      assert totals[0] != Sum(lens[0..]);
    }
  }

  /** heth.Init.RxBuffLen. */
  const RX_BUFF_LEN: nat := 1536

  lemma {:induction false} SumAtMost(lens: seq<nat>, most: nat)
    requires forall i :: 0 <= i < |lens| ==> lens[i] <= most
    ensures Sum(lens) <= |lens| * most
  {
    if lens != [] { SumAtMost(lens[1..], most); }
  }

  /** The pool and the buffer size keep every packet of the driver below 65536 bytes, so all its totals are exact. */
  lemma {:induction false} DriverTotalsExact(totals: seq<nat>, lens: seq<nat>)
    requires AreSuffixSums(totals, lens)
    requires |lens| <= RxPool.ETH_RX_BUFFER_CNT && forall i :: 0 <= i < |lens| ==> lens[i] <= RX_BUFF_LEN
    ensures forall i :: 0 <= i < |lens| ==> totals[i] == Sum(lens[i..])
  {
    SumAtMost(lens, RX_BUFF_LEN);
    TotalsExactIff(totals, lens);
  }

  /** `start` leads through exactly the pbufs of `ps`, in this order and each once, and the last one ends the chain. */
  ghost predicate Linked(start: Pbuf?, ps: seq<Pbuf>)
    reads ps
  {
    && (forall i :: 0 <= i < |ps| ==> ps[i].position == i)
    && start == At(ps, 0)
    && (forall i {:trigger ps[i].next} :: 0 <= i < |ps| ==> ps[i].next == At(ps, i + 1))
  }

  ghost predicate HaveLengths(ps: seq<Pbuf>, lens: seq<nat>)
    reads ps
  {
    |lens| == |ps| && forall i {:trigger ps[i].len} :: 0 <= i < |ps| ==> ps[i].len == lens[i]
  }

  ghost predicate HaveTotals(ps: seq<Pbuf>, totals: seq<nat>)
    reads ps
  {
    |totals| == |ps| && forall i {:trigger ps[i].totLen} :: 0 <= i < |ps| ==> ps[i].totLen == totals[i]
  }

  /** The loop at the end of the callback: adds a length to every `tot_len` of a chain. */
  method AddToAll(start: Pbuf?, ghost ps: seq<Pbuf>, ghost totals: seq<nat>, ghost lens: seq<nat>, length: U16)
    requires Linked(start, ps) && HaveTotals(ps, totals) && HaveLengths(ps, lens)
    modifies (set p | p in ps)`totLen
    ensures Linked(start, ps) && HaveTotals(ps, Plus(totals, length)) && HaveLengths(ps, lens)
  {
    var q := start;
    ghost var i := 0;
    while q != null
      invariant i <= |ps| && q == At(ps, i)
      invariant forall j :: 0 <= j < i ==> ps[j].totLen == Wrap16(totals[j] + length)
      invariant forall j :: i <= j < |ps| ==> ps[j].totLen == totals[j]
      decreases |ps| - i
    {
      q.totLen := Wrap16(q.totLen + length);
      q := q.next;
      i := i + 1;
    }
  }

  /** The fields of the HAL's receive descriptor list that the callback is given pointers to. */
  class RxDescList {
    var pRxStart: Pbuf?
    var pRxEnd: Pbuf?
    ghost var packet: seq<Pbuf>
    ghost var lengths: seq<nat>
    ghost var totals: seq<nat>

    ghost predicate Chained()
      reads this, packet
    {
      && Linked(pRxStart, packet)
      && (packet != [] ==> pRxEnd == packet[|packet| - 1])
      && HaveLengths(packet, lengths)
      && HaveTotals(packet, totals)
    }

    ghost predicate Valid()
      reads this, packet
    {
      Chained() && AreSuffixSums(totals, lengths)
    }

    constructor ()
      ensures Valid() && packet == [] && lengths == []
    {
      pRxStart := null;
      pRxEnd := null;
      packet := [];
      lengths := [];
      totals := [];
    }

    /** The buffer is put behind the last one. */
    method LinkLast(p: Pbuf)
      requires Linked(pRxStart, packet) && (packet != [] ==> pRxEnd == packet[|packet| - 1])
      requires p !in packet && p.next == null && p.position == |packet|
      modifies `pRxStart, `pRxEnd, (set q | q in packet)`next
      ensures Linked(pRxStart, packet + [p]) && pRxEnd == p
    {
      if pRxStart == null {
        pRxStart := p;
      } else {
        pRxEnd.next := p;
      }
      pRxEnd := p;
    }

    /** The first half of the callback: the buffer is initialised and chained, its length not yet counted. */
    method Chain(p: Pbuf, length: U16)
      requires Chained() && p !in packet
      modifies this, packet, p
      ensures Chained()
      ensures packet == old(packet) + [p] && lengths == old(lengths) + [length] && totals == old(totals) + [0]
    {
      p.next := null;
      p.totLen := 0;
      p.len := length;
      p.position := |packet|;
      assert Linked(pRxStart, packet);
      LinkLast(p);
      assert HaveLengths(packet, lengths) && HaveTotals(packet, totals);
      packet, lengths, totals := packet + [p], lengths + [length], totals + [0];
      hide Linked;
    }

    /** HAL_ETH_RxLinkCallback. */
    method RxLinkCallback(p: Pbuf, length: U16)
      requires Valid() && p !in packet
      modifies this, packet, p
      ensures Valid()
      ensures packet == old(packet) + [p] && lengths == old(lengths) + [length]
    {
      AddToAllTotals(totals, lengths, length);
      Chain(p, length);
      AddToAll(pRxStart, packet, totals, lengths, length);
      totals := Plus(totals, length);
    }

    /** HAL_ETH_ReadData hands out a complete packet and forgets its start, though not its end. */
    method TakePacket() returns (start: Pbuf?)
      requires Valid()
      modifies this
      ensures Valid() && packet == [] && lengths == []
      ensures Linked(start, old(packet)) && HaveLengths(old(packet), old(lengths)) && HaveTotals(old(packet), old(totals))
    {
      start := pRxStart;
      pRxStart := null;
      packet, lengths, totals := [], [], [];
    }
  }

  /**
   * A packet received in the buffers `bufs`, one callback after the other: the
   * result is their chain in arrival order, with the lengths received and
   * suffix sums throughout; they are exact for what the pool can hold.
   */
  method BuildPacket(bufs: seq<Pbuf>, lens: seq<U16>) returns (d: RxDescList)
    requires |bufs| == |lens|
    requires forall k {:trigger bufs[..k]} :: 0 <= k < |bufs| ==> bufs[k] !in bufs[..k]
    modifies bufs
    ensures fresh(d) && d.Valid() && d.packet == bufs && d.lengths == lens
    ensures |bufs| <= RxPool.ETH_RX_BUFFER_CNT && (forall k :: 0 <= k < |lens| ==> lens[k] <= RX_BUFF_LEN) ==>
              forall k :: 0 <= k < |bufs| ==> bufs[k].totLen == Sum(lens[k..])
  {
    d := new RxDescList();
    for k := 0 to |bufs|
      invariant fresh(d) && d.Valid() && d.packet == bufs[..k] && d.lengths == lens[..k]
    {
      d.RxLinkCallback(bufs[k], lens[k]);
    }
    if |bufs| <= RxPool.ETH_RX_BUFFER_CNT && forall k :: 0 <= k < |lens| ==> lens[k] <= RX_BUFF_LEN {
      DriverTotalsExact(d.totals, d.lengths);
    }
  }
}
