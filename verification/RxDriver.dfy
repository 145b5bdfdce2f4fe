/** The callbacks of LWIP/Target/ethernetif.c that share the receive pool, as they update it. */
module RxDriver {
  import opened RxPool
  import opened Wrappers

  /** `count` is the length of the longest prefix of the chain that is referenced only once. */
  predicate FreedPrefix(refs: map<Buf, nat>, chain: Packet, count: nat)
    requires forall b :: b in chain ==> b in refs
  {
    && count <= |chain|
    && (forall i :: 0 <= i < count ==> refs[chain[i]] == 1)
    && (count < |chain| ==> refs[chain[count]] > 1)
  }

  /** The pbufs that lose a reference: those freed and the first one that survives. */
  function Touched(chain: Packet, count: nat): Packet
  {
    if count < |chain| then chain[..count + 1] else chain
  }

  predicate Distinct(chain: Packet)
  {
    forall i, j :: 0 <= i < j < |chain| ==> chain[i] != chain[j]
  }

  /** RxAllocStatus, RX_POOL, RxPktSemaphore and the `ref` fields of the pbufs in the buffers. */
  class Driver {
    var rxAllocStatus: AllocStatus
    var pool: seq<Buf>
    var rxPktSemaphore: bool
    var refs: map<Buf, nat>

    function View(): Shared
      reads this
    {
      Shared(rxAllocStatus, pool, rxPktSemaphore)
    }

    constructor ()
      ensures forall n: nat :: n > 0 ==> View() == Init(n).g
      ensures refs == map[]
    {
      rxAllocStatus := RxAllocOk;
      pool := seq(ETH_RX_BUFFER_CNT, b => b);
      rxPktSemaphore := false;
      refs := map[];
    }

    /** HAL_ETH_RxAllocateCallback: a buffer with a single reference, or the flag. */
    method RxAllocateCallback() returns (buff: Option<Buf>)
      modifies this
      ensures old(pool) != [] ==>
                && buff == Some(old(pool)[0]) && refs == old(refs)[old(pool)[0] := 1]
                && View() == old(View()).(pool := old(pool)[1..])
      ensures old(pool) == [] ==>
                buff == None && refs == old(refs) && View() == old(View()).(status := RxAllocError)
      ensures forall s: State :: s.g == old(View()) && Enabled(s, InputAlloc, true) ==>
                Apply(s, InputAlloc).g == View()
                && Apply(s, InputAlloc).dma == s.dma + (if buff.Some? then [buff.value] else [])
    {
      if pool != [] {
        var p := pool[0];
        pool := pool[1..];
        refs := refs[p := 1];
        buff := Some(p);
      } else {
        rxAllocStatus := RxAllocError;
        buff := None;
      }
    }

    /** pbuf_free_custom, run without interruption. */
    method PbufFreeCustom(p: Buf)
      modifies this`rxAllocStatus, this`pool, this`rxPktSemaphore
      ensures View() == FreeOne(old(View()), p)
    {
      pool := [p] + pool;
      if rxAllocStatus.RxAllocError? {
        rxAllocStatus := RxAllocOk;
        rxPktSemaphore := true;
      }
    }

    /**
     * pbuf_free on a receive chain: drops one reference of the head and frees
     * as many pbufs as thereby lose their last one.
     */
    method PbufFree(chain: Packet) returns (count: nat)
      requires Distinct(chain)
      requires forall b :: b in chain ==> b in refs && refs[b] > 0
      modifies this
      ensures old(FreedPrefix(refs, chain, count))
      ensures View() == FreeChain(old(View()), chain[..count])
      ensures refs.Keys == old(refs.Keys)
      ensures forall b :: b in refs ==>
                refs[b] == if b in Touched(chain, count) then old(refs)[b] - 1 else old(refs)[b]
    {
      count := 0;
      while count < |chain|
        invariant count <= |chain|
        invariant forall i :: 0 <= i < count ==> old(refs)[chain[i]] == 1
        invariant View() == FreeChain(old(View()), chain[..count])
        invariant refs.Keys == old(refs.Keys)
        invariant forall b :: b in refs ==>
                    refs[b] == if b in chain[..count] then old(refs)[b] - 1 else old(refs)[b]
      {
        var p := chain[count];
        assert p !in chain[..count];
        assert chain[..count + 1] == chain[..count] + [p];
        refs := refs[p := refs[p] - 1];
        if refs[p] != 0 {
          return;
        }
        PbufFreeCustom(p);
        FreeChainPush(old(View()), chain[..count], p);
        count := count + 1;
      }
      assert chain[..count] == chain;
    }
  }

  lemma {:induction false} FreeChainPush(g: Shared, bufs: Packet, p: Buf)
    ensures FreeChain(g, bufs + [p]) == FreeOne(FreeChain(g, bufs), p)
    decreases |bufs|
  {
    if bufs == [] {
      assert [] + [p] == [p] && [p][1..] == [];
    } else {
      assert (bufs + [p])[1..] == bufs[1..] + [p];
      FreeChainPush(FreeOne(g, bufs[0]), bufs[1..], p);
    }
  }
}
