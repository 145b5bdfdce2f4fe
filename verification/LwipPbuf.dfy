/** The packet buffers of lwIP as far as the driver uses them. */
module LwipPbuf {
  type U16 = n: nat | n < 0x1_0000

  class Pbuf {
    var next: Pbuf?
    var payload: nat
    var totLen: U16
    var len: U16
    ghost var position: nat  // its place in the receive chain it is in
  }

  /** The pbuf at a position, null behind the last one. */
  function At(ps: seq<Pbuf>, i: nat): Pbuf?
  {
    if i < |ps| then ps[i] else null
  }
}
