/**
 * The request and the timestamp conversion of the NTP client
 * (Core/Src/freertos.c).  The layout of the packet is that of section 4 of
 * RFC 2030; section 3 says how its seconds go on after their wrap in 2036.
 */
module NtpTime {
  import opened Wrappers

  newtype uint8 = x: int | 0 <= x < 0x100
  newtype uint32 = x: int | 0 <= x < 0x1_0000_0000

  /** The seconds from 1900 to 1970. */
  const NTP_OFFSET: int := 2208988800
  const PACKET_SIZE: nat := 48

  function Wrap32(x: int): uint32
  {
    (x % 0x1_0000_0000) as uint32
  }

  // ------------------------------------------------ words in memory

  /** How the little-endian core lays out a word. */
  function Store(w: uint32): (r: seq<uint8>)
    ensures |r| == 4
  {
    var n := w as int;
    [(n % 0x100) as uint8, (n / 0x100 % 0x100) as uint8, (n / 0x100 / 0x100 % 0x100) as uint8,
     (n / 0x100 / 0x100 / 0x100) as uint8]
  }

  function Load(b: seq<uint8>): uint32
    requires |b| == 4
  {
    (b[0] as int + 0x100 * (b[1] as int + 0x100 * (b[2] as int + 0x100 * b[3] as int))) as uint32
  }

  /** __REV. */
  function Rev(w: uint32): uint32
  {
    var b := Store(w);
    Load([b[3], b[2], b[1], b[0]])
  }

  /** The number that four bytes stand for on the network. */
  function BigEndian(b: seq<uint8>): uint32
    requires |b| == 4
  {
    (b[0] as int * 0x100_0000 + b[1] as int * 0x1_0000 + b[2] as int * 0x100 + b[3] as int) as uint32
  }

  lemma {:induction false} Digit(low: int, high: int)
    requires 0 <= low < 0x100
    ensures (low + 0x100 * high) % 0x100 == low && (low + 0x100 * high) / 0x100 == high
  {
  }

  lemma {:induction false} StoreLoad(b: seq<uint8>)
    requires |b| == 4
    ensures Store(Load(b)) == b
  {
    var h := b[2] as int + 0x100 * b[3] as int;
    Digit(b[2] as int, b[3] as int);
    Digit(b[1] as int, h);
    Digit(b[0] as int, b[1] as int + 0x100 * h);
  }

  lemma {:induction false} LoadStore(w: uint32)
    ensures Load(Store(w)) == w
  {
  }

  /** A word swapped by the core is sent in network order. */
  lemma {:induction false} SwapSends(w: uint32)
    ensures BigEndian(Store(Rev(w))) == w
  {
    var b := Store(w);
    StoreLoad([b[3], b[2], b[1], b[0]]);
    LoadStore(w);
  }

  /** Four bytes in network order are received by swapping the word they form. */
  lemma {:induction false} SwapReceives(b: seq<uint8>)
    requires |b| == 4
    ensures Rev(Load(b)) == BigEndian(b)
  {
    StoreLoad(b);
  }

  // ------------------------------------------------------- the client

  lemma {:induction false} Wrapped(now: int)
    ensures Wrap32(Wrap32(now) as int + NTP_OFFSET) == Wrap32(now + NTP_OFFSET)
  {
  }

  lemma {:induction false} ZeroStored()
    ensures Store(0) == [0, 0, 0, 0]
  {
  }

  /** Four bytes and eleven words in memory. */
  function Layout(b: seq<uint8>, w: seq<uint32>): (r: seq<uint8>)
    requires |b| == 4 && |w| == 11
    ensures |r| == PACKET_SIZE
  {
    b + Store(w[0]) + Store(w[1]) + Store(w[2]) + Store(w[3]) + Store(w[4]) + Store(w[5]) + Store(w[6]) + Store(w[7])
    + Store(w[8]) + Store(w[9]) + Store(w[10])
  }

  lemma {:induction false} RequestLayout(now: int)
    ensures var sent := Rev(Wrap32(Wrap32(now) as int + NTP_OFFSET));
            IsRequest(Layout([0x23, 0, 0, 0], [0, 0, 0, 0, 0, 0, 0, 0, 0, sent, 0]), now)
  {
    var currentTime := Wrap32(Wrap32(now) as int + NTP_OFFSET);
    Wrapped(now);
    SwapSends(currentTime);
    ZeroStored();
    hide Store, Rev, Wrap32, BigEndian;
    var p := Layout([0x23, 0, 0, 0], [0, 0, 0, 0, 0, 0, 0, 0, 0, Rev(currentTime), 0]);
    assert p[40..44] == Store(Rev(currentTime));
  }

  /** Two neighbouring words of the packet. */
  datatype Timestamp = Timestamp(sec: uint32, frac: uint32)

  /** ntp_packet_t. */
  class Packet {
    var liVnMode: uint8
    var stratum: uint8
    var poll: uint8
    var precision: uint8
    var rootDelay: uint32
    var rootDispersion: uint32
    var referenceId: uint32
    var refTs: Timestamp
    var origTs: Timestamp
    var recvTs: Timestamp
    var transTs: Timestamp

    /** The bytes of the packet in memory, which are sent as they are. */
    function Bytes(): (r: seq<uint8>)
      reads this
      ensures |r| == PACKET_SIZE
    {
      Layout([liVnMode, stratum, poll, precision],
             [rootDelay, rootDispersion, referenceId, refTs.sec, refTs.frac, origTs.sec, origTs.frac,
              recvTs.sec, recvTs.frac, transTs.sec, transTs.frac])
    }

    /** The memset. */
    method Clear()
      modifies this
      ensures liVnMode == stratum == poll == precision == 0
      ensures rootDelay == rootDispersion == referenceId == 0
      ensures refTs == origTs == recvTs == transTs == Timestamp(0, 0)
    {
      liVnMode, stratum, poll, precision := 0, 0, 0, 0;
      rootDelay, rootDispersion, referenceId := 0, 0, 0;
      refTs, origTs := Timestamp(0, 0), Timestamp(0, 0);
      recvTs, transTs := Timestamp(0, 0), Timestamp(0, 0);
    }

    /** ntp_set_packet, when time() answers `now`. */
    method Set(now: int)
      modifies this
      ensures IsRequest(Bytes(), now)
    {
      Clear();
      liVnMode := 4 * 8 + 3;
      var currentTime := Wrap32(Wrap32(now) as int + NTP_OFFSET);
      hide Layout, Rev, Wrap32, IsRequest;
      transTs := transTs.(sec := Rev(currentTime));
      RequestLayout(now);
    }
  }

  /** A client request of NTP version 4: all zero but for the first byte and the transmit seconds since 1900. */
  predicate IsRequest(p: seq<uint8>, now: int)
  {
    && |p| == PACKET_SIZE
    && p[0] == 0x23
    && BigEndian(p[40..44]) == Wrap32(now + NTP_OFFSET)
    && forall i :: 0 < i < PACKET_SIZE && !(40 <= i < 44) ==> p[i] == 0
  }

  /** ntp_get_time; None is a failure of any call before the reply is there. */
  function GetTime(reply: Option<seq<uint8>>): int
  {
    if reply.None? || |reply.value| < PACKET_SIZE then 0
    else Wrap32(Rev(Load(reply.value[40..44])) as int - NTP_OFFSET) as int
  }

  /** The days from the beginning of 1900 to the beginning of a year, in the Gregorian calendar. */
  function DaysTo(year: nat): nat
    requires year >= 1900
  {
    if year == 1900 then 0
    else
      var before := year - 1;
      DaysTo(before) + if before % 4 == 0 && (before % 100 != 0 || before % 400 == 0) then 366 else 365
  }

  lemma {:induction false} DaysInclLeapDays(year: nat)
    requires 1901 <= year <= 2000
    ensures DaysTo(year) == 365 * (year - 1900) + (year - 1901) / 4
  {
    if year > 1901 {
      DaysInclLeapDays(year - 1);
    } else {
      assert DaysTo(1900) == 0;
    }
  }

  /** NTP counts from 1900 and Unix from 1970. */
  lemma {:induction false} OffsetIsSeventyYears()
    ensures NTP_OFFSET == DaysTo(1970) * 24 * 60 * 60
  {
    DaysInclLeapDays(1970);
  }

  /** Without a whole packet the answer is 0. */
  lemma {:induction false} NoReply(reply: Option<seq<uint8>>)
    requires reply.Some? ==> |reply.value| < 48
    ensures GetTime(reply) == 0
  {
  }

  lemma {:induction false} Residue(quotient: int, rest: int)
    requires 0 <= rest < 0x1_0000_0000
    ensures (quotient * 0x1_0000_0000 + rest) % 0x1_0000_0000 == rest
  {
  }

  lemma {:induction false} Unshift(now: int)
    ensures var seconds := (now + NTP_OFFSET) % 0x1_0000_0000;
            now % 0x1_0000_0000 == if seconds >= NTP_OFFSET then seconds - NTP_OFFSET else seconds - NTP_OFFSET + 0x1_0000_0000
    ensures now % 0x1_0000_0000 == now <==> 0 <= now < 0x1_0000_0000
  {
    var seconds, quotient := (now + NTP_OFFSET) % 0x1_0000_0000, (now + NTP_OFFSET) / 0x1_0000_0000;
    if seconds >= NTP_OFFSET {
      Residue(quotient, seconds - NTP_OFFSET);
    } else {
      Residue(quotient - 1, seconds - NTP_OFFSET + 0x1_0000_0000);
    }
  }

  lemma {:induction false} Received(p: seq<uint8>)
    requires |p| >= PACKET_SIZE
    ensures var seconds := BigEndian(p[40..44]) as int;
            GetTime(Some(p)) == if seconds >= NTP_OFFSET then seconds - NTP_OFFSET else seconds - NTP_OFFSET + 0x1_0000_0000
  {
    SwapReceives(p[40..44]);
    hide Load, Rev, BigEndian;
    var seconds := BigEndian(p[40..44]) as int;
    if seconds >= NTP_OFFSET {
      Residue(0, seconds - NTP_OFFSET);
    } else {
      Residue(-1, seconds - NTP_OFFSET + 0x1_0000_0000);
    }
  }

  /** A time comes back from the packet that carries it, if and only if it fits into 32 bits. */
  lemma {:induction false} RoundTrip(p: seq<uint8>, now: int)
    requires IsRequest(p, now)
    ensures GetTime(Some(p)) == now % 0x1_0000_0000
    ensures GetTime(Some(p)) == now <==> 0 <= now < 0x1_0000_0000
  {
    Received(p);
    hide GetTime, BigEndian;
    Unshift(now);
  }

  /** Section 3 of RFC 2030: with the top bit the seconds count from 1900, without it from the wrap in 2036. */
  function RfcTime(seconds: uint32): int
  {
    if seconds as int >= 0x8000_0000 then seconds as int - NTP_OFFSET
    else seconds as int + 0x1_0000_0000 - NTP_OFFSET
  }

  /** The client reads a reply as the RFC does, unless it is a time between 1968 and 1970. */
  lemma {:induction false} AgreesWithRfcIff(p: seq<uint8>)
    requires |p| >= PACKET_SIZE
    ensures var seconds := BigEndian(p[40..44]);
            GetTime(Some(p)) == RfcTime(seconds) <==> !(0x8000_0000 <= seconds as int < NTP_OFFSET)
  {
    Received(p);
    hide GetTime, BigEndian;
  }
}
