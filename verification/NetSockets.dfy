/**
 * Who owns which socket in MBEDTLS/App/net_sockets.c.  The sockets API is an
 * oracle: the answers of its calls are parameters, and the set of open
 * descriptors is the state.
 */
module NetSockets {
  import opened Wrappers

  const MBEDTLS_ERR_NET_SOCKET_FAILED: int := -0x42
  const MBEDTLS_ERR_NET_BUFFER_TOO_SMALL: int := -0x43
  const MBEDTLS_ERR_NET_CONNECT_FAILED: int := -0x44
  const MBEDTLS_ERR_NET_BIND_FAILED: int := -0x46
  const MBEDTLS_ERR_NET_LISTEN_FAILED: int := -0x48
  const MBEDTLS_ERR_NET_ACCEPT_FAILED: int := -0x4A
  const MBEDTLS_ERR_NET_UNKNOWN_HOST: int := -0x52
  const MBEDTLS_ERR_SSL_WANT_READ: int := -0x6900

  /** A bound socket that takes new clients, one talking to a client, and one that is neither. */
  datatype Kind = Listening | Connected | Unbound

  class Context {
    var fd: int

    constructor ()
      ensures fd == -1
    {
      fd := -1;
    }

    /** The descriptors the context holds. */
    function Held(): set<int>
      reads this
    {
      if fd >= 0 then {fd} else {}
    }
  }

  class Sockets {
    var open: map<int, Kind>

    constructor ()
      ensures open == map[]
    {
      open := map[];
    }

    /** socket() and accept(): a new descriptor, or a negative value. */
    method Open(answer: int, kind: Kind) returns (fd: int)
      requires answer >= 0 ==> answer !in open
      modifies this
      ensures fd == answer && open == if answer >= 0 then old(open)[answer := kind] else old(open)
    {
      fd := answer;
      if answer >= 0 { open := open[answer := kind]; }
    }

    method Close(fd: int)
      requires fd in open
      modifies this
      ensures open == old(open) - {fd}
    {
      open := open - {fd};
    }

    method Become(fd: int, kind: Kind)
      requires fd in open
      modifies this
      ensures open == old(open)[fd := kind]
    {
      open := open[fd := kind];
    }
  }

  // ---------------------------------------- trying a list of addresses

  /**
   * The answers of socket(), setsockopt(), bind() or connect(), and listen()
   * for one entry of the address list; the ones after a failure are not used.
   */
  datatype Answers = Answers(fd: int, reuse: bool, attach: bool, listen: bool)

  /** mbedtls_net_bind; `resolved` is whether getaddrinfo succeeded, `winner` the entry that was bound. */
  method NetBind(net: Sockets, ctx: Context, resolved: bool, list: seq<Answers>, tcp: bool) returns (ret: int, ghost winner: int)
    requires forall i :: 0 <= i < |list| && list[i].fd >= 0 ==> list[i].fd !in net.open
    modifies net, ctx
    ensures !resolved ==> ret == MBEDTLS_ERR_NET_UNKNOWN_HOST && ctx.fd == old(ctx.fd)
    // success: the first entry for which every call succeeded is bound, nothing else is left open
    ensures ret == 0 ==>
              && resolved && 0 <= winner < |list|
              && list[winner].fd >= 0 && list[winner].reuse && list[winner].attach && (tcp ==> list[winner].listen)
              && (forall j :: 0 <= j < winner ==> list[j].fd < 0 || !list[j].reuse || !list[j].attach || (tcp && !list[j].listen))
              && ctx.fd == list[winner].fd && net.open == old(net.open)[ctx.fd := Listening]
    // failure: some call failed for every entry, nothing is left open, and the code names the call that failed for the last one
    ensures ret != 0 ==> net.open == old(net.open)
    ensures ret != 0 && resolved ==>
              forall j :: 0 <= j < |list| ==> list[j].fd < 0 || !list[j].reuse || !list[j].attach || (tcp && !list[j].listen)
    ensures ret != 0 && resolved && list == [] ==> ret == MBEDTLS_ERR_NET_UNKNOWN_HOST
    ensures ret != 0 && resolved && list != [] ==>
              var last := list[|list| - 1];
              && (last.fd < 0 || !last.reuse ==> ret == MBEDTLS_ERR_NET_SOCKET_FAILED)
              && (last.fd >= 0 && last.reuse && !last.attach ==> ret == MBEDTLS_ERR_NET_BIND_FAILED)
              && (last.fd >= 0 && last.reuse && last.attach ==> tcp && ret == MBEDTLS_ERR_NET_LISTEN_FAILED)
  {
    ret, winner := MBEDTLS_ERR_NET_UNKNOWN_HOST, -1;
    if !resolved {
      return;
    }
    for i := 0 to |list|
      invariant ret != 0 && net.open == old(net.open)
      invariant forall j :: 0 <= j < i ==> list[j].fd < 0 || !list[j].reuse || !list[j].attach || (tcp && !list[j].listen)
      invariant i == 0 ==> ret == MBEDTLS_ERR_NET_UNKNOWN_HOST
      invariant i > 0 ==>
                  var last := list[i - 1];
                  && (last.fd < 0 || !last.reuse ==> ret == MBEDTLS_ERR_NET_SOCKET_FAILED)
                  && (last.fd >= 0 && last.reuse && !last.attach ==> ret == MBEDTLS_ERR_NET_BIND_FAILED)
                  && (last.fd >= 0 && last.reuse && last.attach ==> tcp && ret == MBEDTLS_ERR_NET_LISTEN_FAILED)
    {
      var a := list[i];
      ctx.fd := net.Open(a.fd, Unbound);
      if ctx.fd < 0 {
        ret := MBEDTLS_ERR_NET_SOCKET_FAILED;
        continue;
      }
      assert net.open - {ctx.fd} == old(net.open);
      if !a.reuse {
        net.Close(ctx.fd);
        ret := MBEDTLS_ERR_NET_SOCKET_FAILED;
        continue;
      }
      if !a.attach {
        net.Close(ctx.fd);
        ret := MBEDTLS_ERR_NET_BIND_FAILED;
        continue;
      }
      if tcp {
        if !a.listen {
          net.Close(ctx.fd);
          ret := MBEDTLS_ERR_NET_LISTEN_FAILED;
          continue;
        }
      }
      net.Become(ctx.fd, Listening);
      ret, winner := 0, i;
      return;
    }
  }

  /** mbedtls_net_connect. */
  method NetConnect(net: Sockets, ctx: Context, resolved: bool, list: seq<Answers>) returns (ret: int, ghost winner: int)
    requires forall i :: 0 <= i < |list| && list[i].fd >= 0 ==> list[i].fd !in net.open
    modifies net, ctx
    ensures !resolved ==> ret == MBEDTLS_ERR_NET_UNKNOWN_HOST && ctx.fd == old(ctx.fd)
    // success: the first entry for which a socket was had and connected
    ensures ret == 0 ==>
              && resolved && 0 <= winner < |list| && list[winner].fd >= 0 && list[winner].attach
              && (forall j :: 0 <= j < winner ==> list[j].fd < 0 || !list[j].attach)
              && ctx.fd == list[winner].fd && net.open == old(net.open)[ctx.fd := Connected]
    // failure
    ensures ret != 0 ==> net.open == old(net.open)
    ensures ret != 0 && resolved ==> forall j :: 0 <= j < |list| ==> list[j].fd < 0 || !list[j].attach
    ensures ret != 0 && resolved && list == [] ==> ret == MBEDTLS_ERR_NET_UNKNOWN_HOST
    ensures ret != 0 && resolved && list != [] ==>
              ret == if list[|list| - 1].fd < 0 then MBEDTLS_ERR_NET_SOCKET_FAILED else MBEDTLS_ERR_NET_CONNECT_FAILED
  {
    ret, winner := MBEDTLS_ERR_NET_UNKNOWN_HOST, -1;
    if !resolved {
      return;
    }
    for i := 0 to |list|
      invariant ret != 0 && net.open == old(net.open)
      invariant forall j :: 0 <= j < i ==> list[j].fd < 0 || !list[j].attach
      invariant i == 0 ==> ret == MBEDTLS_ERR_NET_UNKNOWN_HOST
      invariant i > 0 ==> ret == if list[i - 1].fd < 0 then MBEDTLS_ERR_NET_SOCKET_FAILED else MBEDTLS_ERR_NET_CONNECT_FAILED
    {
      var a := list[i];
      ctx.fd := net.Open(a.fd, Unbound);
      if ctx.fd < 0 {
        ret := MBEDTLS_ERR_NET_SOCKET_FAILED;
        continue;
      }
      if a.attach {
        net.Become(ctx.fd, Connected);
        ret, winner := 0, i;
        return;
      }
      assert net.open - {ctx.fd} == old(net.open);
      net.Close(ctx.fd);
      ret := MBEDTLS_ERR_NET_CONNECT_FAILED;
    }
  }

  // ------------------------------------------------- accepting a client

  datatype SockType = Stream | Dgram | Other

  /** The answers of the calls in mbedtls_net_accept, in their order. */
  datatype AcceptAnswers = AcceptAnswers(
    gotType: bool,
    sockType: SockType,
    received: int,      // of accept() or recvfrom()
    wouldBlock: bool,
    connected: bool,
    gotName: bool,
    newFd: int,         // of socket()
    reuse: bool,
    bound: bool,
    inet: bool)         // the client's address family is AF_INET

  /** mbedtls_net_accept, in a build with or without IPv6; `ipLen` is *ip_len if it is set. */
  method NetAccept(net: Sockets, bindCtx: Context, clientCtx: Context, a: AcceptAnswers, wantIp: bool, ipv6: bool, bufSize: nat,
                   ghost others: set<int>)
    returns (ret: int, ipLen: Option<nat>)
    requires bindCtx != clientCtx && bindCtx.fd >= 0 && clientCtx.fd < 0
    requires bindCtx.fd !in others && net.open.Keys == others + {bindCtx.fd} && net.open[bindCtx.fd] == Listening
    requires a.received >= 0 && a.sockType.Stream? ==> a.received !in net.open
    requires a.newFd >= 0 ==> a.newFd !in net.open
    modifies net, bindCtx, clientCtx
    // on every path the descriptors are those of the two contexts and the others, each with one holder
    ensures net.open.Keys == others + bindCtx.Held() + clientCtx.Held()
    ensures bindCtx.Held() !! clientCtx.Held() && (bindCtx.Held() + clientCtx.Held()) !! others
    // the client socket is connected if there is one; there is one unless the client was lost before it was taken
    ensures clientCtx.fd >= 0 ==> net.open[clientCtx.fd] == Connected
    ensures clientCtx.fd < 0 ==> ret == MBEDTLS_ERR_NET_ACCEPT_FAILED || ret == MBEDTLS_ERR_SSL_WANT_READ
    ensures ret == 0 ==> clientCtx.fd >= 0
    ensures ret == 0 || ret == MBEDTLS_ERR_NET_BUFFER_TOO_SMALL ==>
              ipLen == if wantIp && a.inet then Some(4) else if wantIp && ipv6 then Some(16) else None
    // the listener survives unless the hijack got stuck half way
    ensures (bindCtx.fd >= 0 && net.open[bindCtx.fd] == Listening) <==>
              ret != MBEDTLS_ERR_NET_SOCKET_FAILED && ret != MBEDTLS_ERR_NET_BIND_FAILED
    // a datagram client takes over the listener's descriptor
    ensures clientCtx.fd == old(bindCtx.fd) <==> a.gotType && a.sockType.Dgram? && a.received >= 0 && a.connected
    ensures clientCtx.fd == a.received && clientCtx.fd >= 0 && bindCtx.fd == old(bindCtx.fd) <==>
              a.gotType && a.sockType.Stream? && a.received >= 0
    // which result for which answers
    ensures ret == MBEDTLS_ERR_NET_ACCEPT_FAILED <==>
              || !a.gotType || a.sockType.Other? || (a.received < 0 && !a.wouldBlock)
              || (a.sockType.Dgram? && a.received >= 0 && !a.connected)
    ensures ret == MBEDTLS_ERR_SSL_WANT_READ <==> a.gotType && !a.sockType.Other? && a.received < 0 && a.wouldBlock
    ensures ret == MBEDTLS_ERR_NET_SOCKET_FAILED <==>
              && a.gotType && a.sockType.Dgram? && a.received >= 0 && a.connected
              && (!a.gotName || a.newFd < 0 || !a.reuse)
    ensures ret == MBEDTLS_ERR_NET_BIND_FAILED <==>
              && a.gotType && a.sockType.Dgram? && a.received >= 0 && a.connected
              && a.gotName && a.newFd >= 0 && a.reuse && !a.bound
    ensures ret == 0 || ret == MBEDTLS_ERR_NET_BUFFER_TOO_SMALL <==>
              && a.gotType && a.received >= 0
              && (a.sockType.Stream? || (a.sockType.Dgram? && a.connected && a.gotName && a.newFd >= 0 && a.reuse && a.bound))
    ensures ret == MBEDTLS_ERR_NET_BUFFER_TOO_SMALL ==> ipLen.Some? && bufSize < ipLen.value
    ensures ret == 0 ==> ipLen.None? || ipLen.value <= bufSize
  {
    ipLen := None;
    if !a.gotType || a.sockType.Other? {
      return MBEDTLS_ERR_NET_ACCEPT_FAILED, ipLen;
    }
    if a.sockType.Stream? {
      clientCtx.fd := net.Open(a.received, Connected);
      ret := clientCtx.fd;
    } else {
      ret := a.received;
    }
    if ret < 0 {
      if a.wouldBlock {
        return MBEDTLS_ERR_SSL_WANT_READ, ipLen;
      }
      return MBEDTLS_ERR_NET_ACCEPT_FAILED, ipLen;
    }
    if !a.sockType.Stream? {
      if !a.connected {
        return MBEDTLS_ERR_NET_ACCEPT_FAILED, ipLen;
      }
      net.Become(bindCtx.fd, Connected);
      clientCtx.fd := bindCtx.fd;
      bindCtx.fd := -1;
      if !a.gotName {
        return MBEDTLS_ERR_NET_SOCKET_FAILED, ipLen;
      }
      bindCtx.fd := net.Open(a.newFd, Unbound);
      if bindCtx.fd < 0 {
        return MBEDTLS_ERR_NET_SOCKET_FAILED, ipLen;
      }
      if !a.reuse {
        return MBEDTLS_ERR_NET_SOCKET_FAILED, ipLen;
      }
      if !a.bound {
        return MBEDTLS_ERR_NET_BIND_FAILED, ipLen;
      }
      net.Become(bindCtx.fd, Listening);
    }
    if wantIp && (a.inet || ipv6) {
      ipLen := Some(if a.inet then 4 else 16);
      if bufSize < ipLen.value {
        return MBEDTLS_ERR_NET_BUFFER_TOO_SMALL, ipLen;
      }
    }
    return 0, ipLen;
  }
}
