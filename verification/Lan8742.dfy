/** LAN8742_GetLinkState (Drivers/BSP/Components/lan8742/lan8742.c) on the registers of the PHY. */
module Lan8742 {
  import opened Wrappers

  const LAN8742_STATUS_READ_ERROR: int := -5
  const LAN8742_STATUS_LINK_DOWN: int := 1
  const LAN8742_STATUS_100MBITS_FULLDUPLEX: int := 2
  const LAN8742_STATUS_100MBITS_HALFDUPLEX: int := 3
  const LAN8742_STATUS_10MBITS_FULLDUPLEX: int := 4
  const LAN8742_STATUS_10MBITS_HALFDUPLEX: int := 5
  const LAN8742_STATUS_AUTONEGO_NOTDONE: int := 6

  const LAN8742_BSR_LINK_STATUS: bv16 := 0x0004
  const LAN8742_BCR_AUTONEGO_EN: bv16 := 0x1000
  const LAN8742_BCR_SPEED_SELECT: bv16 := 0x2000
  const LAN8742_BCR_DUPLEX_MODE: bv16 := 0x0100
  const LAN8742_PHYSCSR_AUTONEGO_DONE: bv16 := 0x1000
  const LAN8742_PHYSCSR_HCDSPEEDMASK: bv16 := 0x001C
  const LAN8742_PHYSCSR_100BTX_FD: bv16 := 0x0018
  const LAN8742_PHYSCSR_100BTX_HD: bv16 := 0x0008
  const LAN8742_PHYSCSR_10BT_FD: bv16 := 0x0014

  /** The answers of the register reads, in their order; None is a failed read. */
  datatype Registers = Registers(bsr: Option<bv16>, bsrAgain: Option<bv16>, bcr: Option<bv16>, physcsr: Option<bv16>)

  function LinkState(r: Registers): int
  {
    if r.bsr.None? || r.bsrAgain.None? then LAN8742_STATUS_READ_ERROR
    else if r.bsrAgain.value & LAN8742_BSR_LINK_STATUS == 0 then LAN8742_STATUS_LINK_DOWN
    else if r.bcr.None? then LAN8742_STATUS_READ_ERROR
    else if r.bcr.value & LAN8742_BCR_AUTONEGO_EN != LAN8742_BCR_AUTONEGO_EN then
      if r.bcr.value & LAN8742_BCR_SPEED_SELECT == LAN8742_BCR_SPEED_SELECT
         && r.bcr.value & LAN8742_BCR_DUPLEX_MODE == LAN8742_BCR_DUPLEX_MODE then LAN8742_STATUS_100MBITS_FULLDUPLEX
      else if r.bcr.value & LAN8742_BCR_SPEED_SELECT == LAN8742_BCR_SPEED_SELECT then LAN8742_STATUS_100MBITS_HALFDUPLEX
      else if r.bcr.value & LAN8742_BCR_DUPLEX_MODE == LAN8742_BCR_DUPLEX_MODE then LAN8742_STATUS_10MBITS_FULLDUPLEX
      else LAN8742_STATUS_10MBITS_HALFDUPLEX
    else if r.physcsr.None? then LAN8742_STATUS_READ_ERROR
    else if r.physcsr.value & LAN8742_PHYSCSR_AUTONEGO_DONE == 0 then LAN8742_STATUS_AUTONEGO_NOTDONE
    else if r.physcsr.value & LAN8742_PHYSCSR_HCDSPEEDMASK == LAN8742_PHYSCSR_100BTX_FD then LAN8742_STATUS_100MBITS_FULLDUPLEX
    else if r.physcsr.value & LAN8742_PHYSCSR_HCDSPEEDMASK == LAN8742_PHYSCSR_100BTX_HD then LAN8742_STATUS_100MBITS_HALFDUPLEX
    else if r.physcsr.value & LAN8742_PHYSCSR_HCDSPEEDMASK == LAN8742_PHYSCSR_10BT_FD then LAN8742_STATUS_10MBITS_FULLDUPLEX
    else LAN8742_STATUS_10MBITS_HALFDUPLEX
  }

  predicate LinkBit(r: Registers) { r.bsrAgain.Some? && r.bsrAgain.value & 0x0004 != 0 }

  predicate Negotiates(r: Registers) { r.bcr.Some? && r.bcr.value & 0x1000 != 0 }

  /** All registers that are needed can be read. */
  predicate Readable(r: Registers)
  {
    r.bsr.Some? && r.bsrAgain.Some? && (LinkBit(r) ==> r.bcr.Some? && (Negotiates(r) ==> r.physcsr.Some?))
  }

  /** The link is up and its mode fixed, or negotiated. */
  predicate Settled(r: Registers)
  {
    Readable(r) && LinkBit(r) && (Negotiates(r) ==> r.physcsr.value & 0x1000 != 0)
  }

  /** The mode is fixed, or one of the four that can be negotiated: 100 or 10 Mbit/s, by exactly one bit each. */
  predicate KnownMode(r: Registers)
    requires Settled(r)
  {
    Negotiates(r) ==> (r.physcsr.value & 0x0008 != 0) != (r.physcsr.value & 0x0004 != 0)
  }

  predicate Fast(r: Registers)
    requires Settled(r)
  {
    if Negotiates(r) then r.physcsr.value & 0x0008 != 0 else r.bcr.value & 0x2000 != 0
  }

  predicate Full(r: Registers)
    requires Settled(r)
  {
    if Negotiates(r) then r.physcsr.value & 0x0010 != 0 else r.bcr.value & 0x0100 != 0
  }

  /** Each of the two groups of register contents in which a mode is settled. */
  lemma {:induction false} FixedMode(r: Registers)
    requires Settled(r) && !Negotiates(r)
    ensures LinkState(r) == if Fast(r) then if Full(r) then 2 else 3 else if Full(r) then 4 else 5
  {
    assert (r.bcr.value & 0x1000 != 0x1000) == (r.bcr.value & 0x1000 == 0);
    assert (r.bcr.value & 0x2000 == 0x2000) == (r.bcr.value & 0x2000 != 0);
    assert (r.bcr.value & 0x0100 == 0x0100) == (r.bcr.value & 0x0100 != 0);
  }

  lemma {:induction false} CodeBits(w: bv16)
    requires (w & 0x0008 != 0) != (w & 0x0004 != 0)
    ensures (w & 0x001C == 0x0018) == (w & 0x0008 != 0 && w & 0x0010 != 0)
    ensures (w & 0x001C == 0x0008) == (w & 0x0008 != 0 && w & 0x0010 == 0)
    ensures (w & 0x001C == 0x0014) == (w & 0x0008 == 0 && w & 0x0010 != 0)
  {
  }

  lemma {:induction false} NegotiatedMode(r: Registers)
    requires Settled(r) && Negotiates(r)
    ensures KnownMode(r) ==> LinkState(r) == if Fast(r) then if Full(r) then 2 else 3 else if Full(r) then 4 else 5
    ensures !KnownMode(r) ==> LinkState(r) == 5
  {
    var w := r.physcsr.value;
    assert (r.bcr.value & 0x1000 != 0x1000) == (r.bcr.value & 0x1000 == 0);
    if KnownMode(r) { CodeBits(w); } else { NoCode(w); }
  }

  lemma {:induction false} NoCode(w: bv16)
    requires (w & 0x0008 != 0) == (w & 0x0004 != 0)
    ensures w & 0x001C != 0x0018 && w & 0x001C != 0x0008 && w & 0x001C != 0x0014
  {
  }

  /**
   * What a reading says of the registers: a failed read, no link, a link whose
   * mode is being negotiated, or the speed and duplex bits of the mode.  A code
   * of no mode reads as 10 Mbit/s half duplex.
   */
  lemma {:induction false} LinkStateIsBits(r: Registers)
    ensures LinkState(r) < 0 <==> !Readable(r)
    ensures Readable(r) && !LinkBit(r) ==> LinkState(r) == 1
    ensures Readable(r) && LinkBit(r) && !Settled(r) ==> LinkState(r) == 6
    ensures Settled(r) ==>
              LinkState(r) == if !KnownMode(r) then 5 else if Fast(r) then if Full(r) then 2 else 3 else if Full(r) then 4 else 5
  {
    if r.bcr.Some? { assert (r.bcr.value & 0x1000 != 0x1000) == (r.bcr.value & 0x1000 == 0); }
    if Settled(r) { if Negotiates(r) { NegotiatedMode(r); } else { FixedMode(r); } }
  }
}
