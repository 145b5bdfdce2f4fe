/** The link part of low_level_init and ethernet_link_thread (LWIP/Target/ethernetif.c). */
module LinkThread {
  import opened Lan8742
  import opened Wrappers

  datatype Duplex = HalfDuplex | FullDuplex
  datatype Speed = Speed10M | Speed100M
  datatype Config = Config(duplex: Duplex, speed: Speed)

  /** heth.gState as far as HAL_ETH_Init, HAL_ETH_Start_IT, HAL_ETH_Stop_IT and HAL_ETH_SetMACConfig depend on it; nothing leaves HalError. */
  datatype HalState = HalReady | HalStarted | HalError

  /** A call of HAL_ETH_Start_IT, with the MAC configuration at that moment, or of HAL_ETH_Stop_IT, and whether it succeeded. */
  datatype Call = Start(config: Config, ok: bool) | Stop(ok: bool)

  /** The thread reads the PHY in one iteration, or a fatal bus error interrupts. */
  datatype Event = Reading(phy: int) | BusError

  /** The four definite link modes among the readings of the PHY; other readings are errors or "auto-negotiation not done". */
  function Decode(reading: int): Option<Config>
  {
    match reading
    case 2 => Some(Config(FullDuplex, Speed100M))
    case 3 => Some(Config(HalfDuplex, Speed100M))
    case 4 => Some(Config(FullDuplex, Speed10M))
    case 5 => Some(Config(HalfDuplex, Speed10M))
    case _ => None
  }

  /** The HAL, the netif flags and the local variables of the thread; `calls` is the history of starts and stops. */
  datatype Link = Link(
    hal: HalState,
    macConfig: Config,
    linkUp: bool,
    up: bool,
    chosen: Config,
    linkChanged: bool,
    calls: seq<Call>)

  function HalStart(l: Link): Link
  {
    l.(hal := if l.hal.HalReady? then HalStarted else l.hal, calls := l.calls + [Start(l.macConfig, l.hal.HalReady?)])
  }

  function HalStop(l: Link): Link
  {
    l.(hal := if l.hal.HalStarted? then HalReady else l.hal, calls := l.calls + [Stop(l.hal.HalStarted?)])
  }

  function HalConfigure(l: Link, config: Config): Link
  {
    if l.hal.HalReady? then l.(macConfig := config) else l
  }

  /** Configure, start and announce the link. */
  function BringUp(l: Link, config: Config): Link
  {
    HalStart(HalConfigure(l, config)).(up := true, linkUp := true)
  }

  /** One iteration of the thread. */
  function Iterate(l: Link, reading: int): Link
  {
    if l.linkUp && reading <= LAN8742_STATUS_LINK_DOWN then HalStop(l).(up := false, linkUp := false)
    else if !l.linkUp && reading > LAN8742_STATUS_LINK_DOWN then
      var seen := if Decode(reading).Some? then l.(chosen := Decode(reading).value, linkChanged := true) else l;
      if seen.linkChanged then BringUp(seen, seen.chosen) else seen
    else l
  }

  /**
   * The state in which the thread starts: after low_level_init and the
   * unconditional netif_set_up of MX_LWIP_Init.  None is Error_Handler, which
   * never returns.
   */
  function Init(halOk: bool, phyOk: bool, reading: int): Option<Link>
  {
    var l := Link(if halOk then HalReady else HalError, Config(FullDuplex, Speed100M), false, false,
                  Config(HalfDuplex, Speed10M), false, []);
    if !phyOk then Some(l.(up := true))
    else if !halOk then None
    else if reading <= LAN8742_STATUS_LINK_DOWN then Some(l.(up := true))
    else Some(BringUp(l, if Decode(reading).Some? then Decode(reading).value else Config(FullDuplex, Speed100M)))
  }

  /** HAL_ETH_IRQHandler on a fatal bus error; its interrupt is enabled only while the MAC is started. */
  function HalBusError(l: Link): Link
  {
    l.(hal := if l.hal.HalStarted? then HalError else l.hal)
  }

  function Occur(l: Link, e: Event): Link
  {
    match e
    case Reading(phy) => Iterate(l, phy)
    case BusError => HalBusError(l)
  }

  function Run(l: Link, events: seq<Event>): Link
  {
    if events == [] then l else Occur(Run(l, events[..|events| - 1]), events[|events| - 1])
  }

  // -------------------------------------------------------------- safety

  predicate InStep(l: Link) { l.hal.HalStarted? <==> l.linkUp }

  predicate InStepThroughout(l: Link, events: seq<Event>)
  {
    InStep(Run(l, events)) && (events == [] || InStepThroughout(l, events[..|events| - 1]))
  }

  /** A bus error occurs while the link flag is up. */
  predicate ErrorWhileUp(l: Link, events: seq<Event>)
  {
    events != [] &&
    (var n := |events| - 1;
     ErrorWhileUp(l, events[..n]) || (events[n].BusError? && Run(l, events[..n]).linkUp))
  }

  predicate SeesDefinite(events: seq<Event>)
  {
    exists k :: 0 <= k < |events| && events[k].Reading? && Decode(events[k].phy).Some?
  }

  /** Up to the first bus error the HAL and the link flag agree; from then on the HAL is in error. */
  lemma {:induction false} ErrorOrInStep(halOk: bool, phyOk: bool, first: int, events: seq<Event>)
    requires Init(halOk, phyOk, first).Some?
    ensures var l0 := Init(halOk, phyOk, first).value;
            var l := Run(l0, events);
            && (l.hal.HalError? <==> !halOk || ErrorWhileUp(l0, events))
            && (!l.hal.HalError? ==> InStep(l))
            && (!halOk ==> (l.linkUp || l.linkChanged ==> SeesDefinite(events)))
    decreases |events|
  {
    if events != [] {
      var n := |events| - 1;
      ErrorOrInStep(halOk, phyOk, first, events[..n]);
      if SeesDefinite(events[..n]) { WitnessStays(events, n); }
      if events[n].Reading? && Decode(events[n].phy).Some? { assert SeesDefinite(events); }
    }
  }

  lemma {:induction false} WitnessStays(events: seq<Event>, n: nat)
    requires n <= |events| && SeesDefinite(events[..n])
    ensures SeesDefinite(events)
  {
    var k :| 0 <= k < n && events[..n][k].Reading? && Decode(events[..n][k].phy).Some?;
    assert events[k] == events[..n][k];
  }

  /** Without the HAL a definite reading brings the link up, over a MAC that is not running. */
  lemma {:induction false} DefiniteBringsUp(phyOk: bool, first: int, events: seq<Event>)
    requires Init(false, phyOk, first).Some? && SeesDefinite(events)
    ensures !InStepThroughout(Init(false, phyOk, first).value, events)
    decreases |events|
  {
    var n := |events| - 1;
    var l0 := Init(false, phyOk, first).value;
    ErrorOrInStep(false, phyOk, first, events[..n]);
    ErrorOrInStep(false, phyOk, first, events);
    var k :| 0 <= k < |events| && events[k].Reading? && Decode(events[k].phy).Some?;
    if k < n {
      assert events[..n][k] == events[k];
      DefiniteBringsUp(phyOk, first, events[..n]);
    }
  }

  /**
   * From any low_level_init that returns, over any sequence of PHY readings and
   * bus errors: the MAC runs exactly while the link flag is up, after every
   * event, if and only if HAL_ETH_Init succeeded and no bus error occurs while
   * the flag is up - or it failed and the PHY never reports a definite mode.
   */
  lemma {:induction false} InStepIff(halOk: bool, phyOk: bool, first: int, events: seq<Event>)
    requires Init(halOk, phyOk, first).Some?
    ensures var l0 := Init(halOk, phyOk, first).value;
            InStepThroughout(l0, events) <==> if halOk then !ErrorWhileUp(l0, events) else !SeesDefinite(events)
    decreases |events|
  {
    ErrorOrInStep(halOk, phyOk, first, events);
    if events != [] {
      var n := |events| - 1;
      InStepIff(halOk, phyOk, first, events[..n]);
      ErrorOrInStep(halOk, phyOk, first, events[..n]);
      if !halOk && SeesDefinite(events) { DefiniteBringsUp(phyOk, first, events); }
      if !halOk && SeesDefinite(events[..n]) { WitnessStays(events, n); }
    }
  }

  /** Starts and stops alternate, beginning with a start; all succeed; the last is a start exactly if the link is up. */
  predicate Alternating(calls: seq<Call>, linkUp: bool)
  {
    if calls == [] then !linkUp
    else
      var last := calls[|calls| - 1];
      last.ok && last.Start? == linkUp && Alternating(calls[..|calls| - 1], !linkUp)
  }

  /** The link flag changes, and with it the HAL is called, after the HAL has failed. */
  predicate ChangesInError(l: Link, events: seq<Event>)
  {
    events != [] &&
    (var n := |events| - 1;
     var before := Run(l, events[..n]);
     ChangesInError(l, events[..n]) || (before.hal.HalError? && Occur(before, events[n]).linkUp != before.linkUp))
  }

  lemma {:induction false} OccurCalls(l: Link, e: Event)
    requires InStep(l) || l.hal.HalError?
    ensures var next := Occur(l, e);
            if next.linkUp == l.linkUp then next.calls == l.calls
            else
              exists call :: next.calls == l.calls + [call] && call.Start? == next.linkUp && call.ok == !l.hal.HalError?
  {
    var next := Occur(l, e);
    if next.linkUp && !l.linkUp {
      assert next.calls == l.calls + [Start(next.macConfig, !l.hal.HalError?)];
    } else if l.linkUp && !next.linkUp {
      assert next.calls == l.calls + [Stop(!l.hal.HalError?)];
    }
  }

  /** All starts and stops succeed and alternate if and only if the link flag never changes after the HAL has failed. */
  lemma {:induction false} AlternatingIff(halOk: bool, phyOk: bool, first: int, events: seq<Event>)
    requires Init(halOk, phyOk, first).Some?
    ensures var l0 := Init(halOk, phyOk, first).value;
            Alternating(Run(l0, events).calls, Run(l0, events).linkUp) <==> !ChangesInError(l0, events)
    decreases |events|
  {
    var l0 := Init(halOk, phyOk, first).value;
    if events == [] {
      assert Alternating([], false);
    } else {
      var n := |events| - 1;
      AlternatingIff(halOk, phyOk, first, events[..n]);
      ErrorOrInStep(halOk, phyOk, first, events[..n]);
      var before, after := Run(l0, events[..n]), Run(l0, events);
      OccurCalls(before, events[n]);
      if after.calls != before.calls { assert after.calls[..|after.calls| - 1] == before.calls; }
    }
  }

  /** A bus error after a successful start: the MAC cannot be stopped, and the link is announced again over a dead MAC. */
  lemma {:induction false} BusErrorRun()
    ensures var l := Run(Init(true, true, 2).value, [BusError, Reading(1), Reading(2)]);
            && l.linkUp && l.hal.HalError?
            && l.calls == [Start(Config(FullDuplex, Speed100M), true), Stop(false), Start(Config(FullDuplex, Speed100M), false)]
  {
    var l := Init(true, true, 2).value;
    assert [BusError, Reading(1), Reading(2)][..2] == [BusError, Reading(1)] && [BusError, Reading(1)][..1] == [BusError];
    assert [BusError][..0] == [];
    assert Run(l, [BusError]) == HalBusError(l);
    assert Run(l, [BusError, Reading(1)]) == Iterate(HalBusError(l), 1);
  }

  // ------------------------------------------------ link configuration

  /** The mode last seen while the link was down, counting only definite ones. */
  function LastDefinite(l: Link, events: seq<Event>): Option<Config>
  {
    if events == [] then None
    else
      var m := |events| - 1;
      if events[m].Reading? && Decode(events[m].phy).Some? && !Run(l, events[..m]).linkUp then Decode(events[m].phy)
      else LastDefinite(l, events[..m])
  }

  lemma {:induction false} ChosenIsLastDefinite(l0: Link, events: seq<Event>)
    requires !l0.linkChanged
    ensures var l, config := Run(l0, events), LastDefinite(l0, events);
            (l.linkChanged <==> config.Some?) && (l.linkChanged ==> l.chosen == config.value)
    decreases |events|
  {
    if events != [] { ChosenIsLastDefinite(l0, events[..|events| - 1]); }
  }

  /**
   * Each start by the thread uses the mode last seen in the bring-up branch, and
   * there is none before one has been seen; a link that comes up is brought up
   * as soon as one has.
   */
  lemma {:induction false} ConfigIsLastDefinite(halOk: bool, phyOk: bool, first: int, events: seq<Event>, reading: int)
    requires Init(halOk, phyOk, first).Some?
    ensures var l0 := Init(halOk, phyOk, first).value;
            var before, after := Run(l0, events), Run(l0, events + [Reading(reading)]);
            var config := LastDefinite(l0, events + [Reading(reading)]);
            && (!before.linkUp && after.linkUp ==>
                  && config.Some?
                  && after.calls == before.calls + [Start(after.macConfig, !before.hal.HalError?)]
                  && (!before.hal.HalError? ==> after.macConfig == config.value))
            && (!before.linkUp ==> (after.linkUp <==> reading > LAN8742_STATUS_LINK_DOWN && config.Some?))
  {
    var l0 := Init(halOk, phyOk, first).value;
    ErrorOrInStep(halOk, phyOk, first, events);
    ChosenIsLastDefinite(l0, events + [Reading(reading)]);
    ChosenIsLastDefinite(l0, events);
    assert (events + [Reading(reading)])[..|events|] == events;
    hide Init, ErrorWhileUp;
  }

  /** The mode used for a start is the one read in the same iteration exactly if that reading was definite. */
  lemma {:induction false} StartIsCurrentIff(l: Link, reading: int)
    requires InStep(l) && !l.hal.HalError? && !l.linkUp && Iterate(l, reading).linkUp
    ensures Decode(reading) == Some(Iterate(l, reading).macConfig) <==> Decode(reading).Some?
    ensures Decode(reading).None? ==> Iterate(l, reading).macConfig == l.chosen
  {
  }

  /** Since `linkchanged` is never reset, a link that comes back before auto-negotiation is done is started with the old mode. */
  lemma {:induction false} StaleConfig()
    ensures var l := Run(Init(true, true, 1).value, [Reading(3), Reading(1), Reading(6)]);
            Decode(6).None? && l.linkUp && l.hal.HalStarted? && l.macConfig == Config(HalfDuplex, Speed100M)
  {
    var l := Init(true, true, 1).value;
    assert [Reading(3), Reading(1), Reading(6)][..2] == [Reading(3), Reading(1)] && [Reading(3), Reading(1)][..1] == [Reading(3)];
    assert [Reading(3)][..0] == [];
    assert Run(l, [Reading(3)]) == Iterate(l, 3);
    assert Run(l, [Reading(3), Reading(1)]) == Iterate(Run(l, [Reading(3)]), 1);
  }

  // ------------------------------------------- on the PHY's registers

  /** The configuration that the registers ask for; a negotiated code of no mode counts as 10 Mbit/s half duplex. */
  function ModeOf(r: Registers): Config
    requires Settled(r)
  {
    Config(if KnownMode(r) && Full(r) then FullDuplex else HalfDuplex, if KnownMode(r) && Fast(r) then Speed100M else Speed10M)
  }

  lemma {:induction false} DecodeIsMode(r: Registers)
    ensures Decode(LinkState(r)).Some? <==> Settled(r)
    ensures Settled(r) ==> Decode(LinkState(r)).value == ModeOf(r)
    ensures Readable(r) && LinkBit(r) <==> LinkState(r) > LAN8742_STATUS_LINK_DOWN
  {
    LinkStateIsBits(r);
  }

  /**
   * One iteration, on the registers it reads.  A readable register with the link
   * bit set keeps a link up; anything else takes it down.  A link that is down
   * comes up with the speed and duplex bits of the registers if these are
   * settled, and otherwise only if some were before.
   */
  lemma {:induction false} IterateOnRegisters(l: Link, r: Registers)
    requires InStep(l) || l.hal.HalError?
    ensures var next, ok := Iterate(l, LinkState(r)), !l.hal.HalError?;
            && (l.linkUp && Readable(r) && LinkBit(r) ==> next == l)
            && (l.linkUp && !(Readable(r) && LinkBit(r)) ==>
                  && !next.linkUp && !next.up && next.calls == l.calls + [Stop(ok)] && next.macConfig == l.macConfig
                  && next.hal == if ok then HalReady else HalError)
            && (!l.linkUp && !(Readable(r) && LinkBit(r)) ==> next == l)
            && (!l.linkUp && Settled(r) ==>
                  && next.linkUp && next.up && next.linkChanged && next.calls == l.calls + [Start(next.macConfig, ok)]
                  && next.hal == (if ok then HalStarted else HalError)
                  && (ok && KnownMode(r) ==>
                        && (next.macConfig.duplex.FullDuplex? <==> Full(r))
                        && (next.macConfig.speed.Speed100M? <==> Fast(r)))
                  && (!ok ==> next.macConfig == l.macConfig))
            && (!l.linkUp && Readable(r) && LinkBit(r) && !Settled(r) ==>
                  if !l.linkChanged then next == l
                  else
                    && next.linkUp && next.up && next.calls == l.calls + [Start(next.macConfig, ok)]
                    && next.macConfig == if ok then l.chosen else l.macConfig)
  {
    DecodeIsMode(r);
    hide LinkState, Settled, Readable, LinkBit, Fast, Full, KnownMode;
  }

  /** What low_level_init makes of the registers; with no settled mode it takes 100 Mbit/s full duplex. */
  lemma {:induction false} InitOnRegisters(halOk: bool, phyOk: bool, r: Registers)
    ensures Init(halOk, phyOk, LinkState(r)).None? <==> phyOk && !halOk
    ensures var init := Init(halOk, phyOk, LinkState(r));
            init.Some? ==>
              var l := init.value;
              && l.up && !l.linkChanged && (l.linkUp <==> phyOk && Readable(r) && LinkBit(r))
              && l.hal == (if !halOk then HalError else if l.linkUp then HalStarted else HalReady)
              && l.calls == (if l.linkUp then [Start(l.macConfig, true)] else [])
              && (l.linkUp && Settled(r) && KnownMode(r) ==>
                    && (l.macConfig.duplex.FullDuplex? <==> Full(r))
                    && (l.macConfig.speed.Speed100M? <==> Fast(r)))
              && (l.linkUp && !Settled(r) ==> l.macConfig == Config(FullDuplex, Speed100M))
  {
    DecodeIsMode(r);
    hide LinkState, Settled, Readable, LinkBit, Fast, Full, KnownMode;
  }

  /** What happens while the thread runs: it reads the registers, or a bus error interrupts. */
  datatype Sample = Read(r: Registers) | Fault

  function Events(samples: seq<Sample>): (r: seq<Event>)
    ensures |r| == |samples|
    ensures forall i :: 0 <= i < |r| ==> r[i] == if samples[i].Read? then Reading(LinkState(samples[i].r)) else BusError
  {
    seq(|samples|, i requires 0 <= i < |samples| => if samples[i].Read? then Reading(LinkState(samples[i].r)) else BusError)
  }

  /** The k-th sample is a settled mode, read while the link was down. */
  predicate SettledAt(l0: Link, samples: seq<Sample>, k: nat)
    requires k < |samples|
  {
    samples[k].Read? && Settled(samples[k].r) && !Run(l0, Events(samples)[..k]).linkUp
  }

  lemma {:induction false} LastDefiniteIsSettled(l0: Link, samples: seq<Sample>) returns (k: nat)
    requires LastDefinite(l0, Events(samples)).Some?
    ensures k < |samples| && SettledAt(l0, samples, k) && LastDefinite(l0, Events(samples)).value == ModeOf(samples[k].r)
    ensures forall j :: k < j < |samples| ==> !SettledAt(l0, samples, j)
    decreases |samples|
  {
    var m := |samples| - 1;
    if samples[m].Read? { DecodeIsMode(samples[m].r); }
    hide LinkState, Settled, ModeOf, Decode;
    if SettledAt(l0, samples, m) {
      k := m;
    } else {
      assert Events(samples[..m]) == Events(samples)[..m];
      k := LastDefiniteIsSettled(l0, samples[..m]);
      forall j: nat | j < m ensures SettledAt(l0, samples, j) <==> SettledAt(l0, samples[..m], j) {
        assert Events(samples)[..j] == Events(samples[..m])[..j];
      }
    }
  }

  /** Whenever the thread has brought the link up over a working HAL, the MAC has the mode of the latest settled registers it saw. */
  lemma {:induction false} StartUsesLatestSettled(halOk: bool, phyOk: bool, first: int, samples: seq<Sample>, r: Registers)
      returns (k: nat)
    requires Init(halOk, phyOk, first).Some?
    requires var l0 := Init(halOk, phyOk, first).value;
             var before, after := Run(l0, Events(samples)), Run(l0, Events(samples + [Read(r)]));
             !before.linkUp && after.linkUp && !before.hal.HalError?
    ensures var l0, all := Init(halOk, phyOk, first).value, samples + [Read(r)];
            && k < |all| && SettledAt(l0, all, k) && (forall j :: k < j < |all| ==> !SettledAt(l0, all, j))
            && Run(l0, Events(all)).hal.HalStarted? && Run(l0, Events(all)).macConfig == ModeOf(all[k].r)
  {
    var l0, all := Init(halOk, phyOk, first).value, samples + [Read(r)];
    assert Events(all) == Events(samples) + [Reading(LinkState(r))];
    ConfigIsLastDefinite(halOk, phyOk, first, Events(samples), LinkState(r));
    ErrorOrInStep(halOk, phyOk, first, Events(samples));
    IterateOnRegisters(Run(l0, Events(samples)), r);
    assert Events(all)[..|samples|] == Events(samples);
    hide LinkState, Settled, ModeOf, Decode, Init, ErrorWhileUp, SettledAt;
    k := LastDefiniteIsSettled(l0, all);
  }

  // ---------------------------------------------------------- the thread

  class EthLink {
    var hal: HalState
    var macConfig: Config
    var linkUp: bool
    var up: bool
    var hung: bool  // in Error_Handler
    ghost var calls: seq<Call>

    ghost function View(chosen: Config, linkChanged: bool): Link
      reads this
    {
      Link(hal, macConfig, linkUp, up, chosen, linkChanged, calls)
    }

    constructor (halOk: bool)
      ensures View(Config(HalfDuplex, Speed10M), false) ==
              Link(if halOk then HalReady else HalError, Config(FullDuplex, Speed100M), false, false,
                   Config(HalfDuplex, Speed10M), false, [])
      ensures !hung
    {
      hal, macConfig := if halOk then HalReady else HalError, Config(FullDuplex, Speed100M);
      linkUp, up, hung, calls := false, false, false, [];
    }

    /** low_level_init from the initialisation of the PHY on, and the netif_set_up that follows it. */
    method LowLevelInit(phyOk: bool, reading: int)
      requires !hung && !linkUp && !up && calls == [] && macConfig == Config(FullDuplex, Speed100M) && !hal.HalStarted?
      modifies this
      ensures hung <==> Init(old(hal).HalReady?, phyOk, reading).None?
      ensures !hung ==> View(Config(HalfDuplex, Speed10M), false) == Init(old(hal).HalReady?, phyOk, reading).value
    {
      if phyOk {
        if hal.HalReady? {
          if reading > LAN8742_STATUS_LINK_DOWN {
            var duplex, speed := FullDuplex, Speed100M;
            match reading {
              case 2 => duplex, speed := FullDuplex, Speed100M;
              case 3 => duplex, speed := HalfDuplex, Speed100M;
              case 4 => duplex, speed := FullDuplex, Speed10M;
              case 5 => duplex, speed := HalfDuplex, Speed10M;
              case _ => duplex, speed := FullDuplex, Speed100M;
            }
            ghost var l0 := View(Config(HalfDuplex, Speed10M), false);
            SetMACConfig(Config(duplex, speed));
            assert View(Config(HalfDuplex, Speed10M), false) == HalConfigure(l0, Config(duplex, speed));
            StartIT();
            assert View(Config(HalfDuplex, Speed10M), false) == HalStart(HalConfigure(l0, Config(duplex, speed)));
            up := true;
            linkUp := true;
          }
        } else {
          hung := true;
          return;
        }
      }
      up := true;
    }

    method StartIT()
      modifies this
      ensures hung == old(hung) && forall c, b :: View(c, b) == HalStart(old(View(c, b)))
    {
      calls := calls + [Start(macConfig, hal.HalReady?)];
      if hal.HalReady? { hal := HalStarted; }
    }

    method StopIT()
      modifies this
      ensures hung == old(hung) && forall c, b :: View(c, b) == HalStop(old(View(c, b)))
    {
      calls := calls + [Stop(hal.HalStarted?)];
      if hal.HalStarted? { hal := HalReady; }
    }

    method SetMACConfig(config: Config)
      modifies this
      ensures hung == old(hung) && forall c, b :: View(c, b) == HalConfigure(old(View(c, b)), config)
    {
      if hal.HalReady? { macConfig := config; }
    }

    method BusErrorInterrupt()
      modifies this
      ensures hung == old(hung) && forall c, b :: View(c, b) == HalBusError(old(View(c, b)))
    {
      if hal.HalStarted? { hal := HalError; }
    }

    /** ethernet_link_thread over the PHY readings of its successive iterations, with bus errors in between. */
    method LinkThread(events: seq<Event>) returns (chosen: Config, linkChanged: bool)
      requires !hung
      modifies this
      ensures View(chosen, linkChanged) == Run(old(View(Config(HalfDuplex, Speed10M), false)), events)
    {
      var duplex, speed := HalfDuplex, Speed10M;
      linkChanged := false;
      ghost var l0 := View(Config(duplex, speed), linkChanged);
      for i := 0 to |events|
        invariant View(Config(duplex, speed), linkChanged) == Run(l0, events[..i])
      {
        assert events[..i + 1][..i] == events[..i];
        if events[i].BusError? {
          BusErrorInterrupt();
          continue;
        }
        var state := events[i].phy;
        if linkUp && state <= LAN8742_STATUS_LINK_DOWN {
          StopIT();
          up := false;
          linkUp := false;
        } else if !linkUp && state > LAN8742_STATUS_LINK_DOWN {
          match state {
            case 2 => duplex, speed, linkChanged := FullDuplex, Speed100M, true;
            case 3 => duplex, speed, linkChanged := HalfDuplex, Speed100M, true;
            case 4 => duplex, speed, linkChanged := FullDuplex, Speed10M, true;
            case 5 => duplex, speed, linkChanged := HalfDuplex, Speed10M, true;
            case _ =>
          }
          if linkChanged {
            SetMACConfig(Config(duplex, speed));
            StartIT();
            up := true;
            linkUp := true;
          }
        }
      }
      assert events[..|events|] == events;
      chosen := Config(duplex, speed);
    }
  }
}
