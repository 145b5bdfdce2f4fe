/** The three debouncers of Read_Remote (Core/Src/main.c).  `false` is a low input. */
module Debounce {
  const DEBOUNCE_REMOTE: nat := 500

  datatype Channel = Channel(low: nat, high: nat, status: bool)

  const INITIAL := Channel(0, 0, false)

  // ------------------------------------- what a channel says of its samples

  /** The length of the run of equal samples at the end. */
  function CurrentRun(h: seq<bool>): (n: nat)
    ensures n <= |h| && (h != [] ==> n >= 1)
    ensures forall j :: |h| - n <= j < |h| ==> h[j] == h[|h| - 1]
    ensures n < |h| ==> h[|h| - n - 1] != h[|h| - 1]
  {
    var m := |h| - 1;
    if h == [] then 0
    else if m == 0 || h[m - 1] != h[m] then 1
    else
      var n := CurrentRun(h[..m]);
      assert forall j :: m - n <= j < m ==> h[..m][j] == h[j];
      n + 1
  }

  /** The 500 samples up to the k-th one are equal. */
  predicate Settles(h: seq<bool>, k: int)
    requires k <= |h|
  {
    k >= DEBOUNCE_REMOTE && forall j :: k - DEBOUNCE_REMOTE <= j < k ==> h[j] == h[k - 1]
  }

  /** `status` is the value of the latest 500 equal samples, and low if there have been none. */
  ghost predicate LatestSettled(h: seq<bool>, status: bool)
  {
    if exists k :: 0 <= k <= |h| && Settles(h, k) then
      exists k :: 0 <= k <= |h| && Settles(h, k) && status == h[k - 1] && forall m :: k < m <= |h| ==> !Settles(h, m)
    else !status
  }

  /** At most one counter runs: it is the length of the current run until the input has settled, and 501 from then on. */
  predicate Counts(h: seq<bool>, low: nat, high: nat)
  {
    var n := CurrentRun(h);
    var count := if n < DEBOUNCE_REMOTE then n else DEBOUNCE_REMOTE + 1;
    if h == [] then low == 0 && high == 0
    else if h[|h| - 1] then low == 0 && high == count
    else low == count && high == 0
  }

  ghost predicate Debounced(h: seq<bool>, c: Channel)
  {
    Counts(h, c.low, c.high) && LatestSettled(h, c.status)
  }

  /** What a call does to one channel. */
  function Sampled(c: Channel, sample: bool): Channel
  {
    if !sample then
      if c.low + 1 >= DEBOUNCE_REMOTE then Channel(DEBOUNCE_REMOTE + 1, 0, false) else Channel(c.low + 1, 0, c.status)
    else
      if c.high + 1 >= DEBOUNCE_REMOTE then Channel(0, DEBOUNCE_REMOTE + 1, true) else Channel(0, c.high + 1, c.status)
  }

  lemma {:induction false} RunGrows(h: seq<bool>, x: bool)
    ensures CurrentRun(h + [x]) == if h != [] && h[|h| - 1] == x then CurrentRun(h) + 1 else 1
  {
    assert (h + [x])[..|h|] == h;
  }

  lemma {:induction false} SettlesNow(h: seq<bool>)
    ensures Settles(h, |h|) <==> CurrentRun(h) >= DEBOUNCE_REMOTE
  {
    var n := CurrentRun(h);
    if DEBOUNCE_REMOTE > n && |h| > n { assert h[|h| - n - 1] != h[|h| - 1]; }
  }

  lemma {:induction false} SettlesBefore(h: seq<bool>, x: bool, k: int)
    requires 0 <= k <= |h|
    ensures Settles(h + [x], k) <==> Settles(h, k)
  {
    if k >= DEBOUNCE_REMOTE {
      assert forall j :: 0 <= j < k ==> (h + [x])[j] == h[j];
      if Settles(h + [x], k) {
        forall j | k - DEBOUNCE_REMOTE <= j < k ensures h[j] == h[k - 1] { assert (h + [x])[j] == h[j]; }
      }
    }
  }

  /** The latest 500 equal samples after one more sample: the last 500, if they are equal, or else those from before. */
  lemma {:induction false} StatusStep(h: seq<bool>, x: bool, before: bool)
    requires LatestSettled(h, before)
    ensures LatestSettled(h + [x], if CurrentRun(h + [x]) >= DEBOUNCE_REMOTE then x else before)
  {
    var g := h + [x];
    SettlesNow(g);
    forall k | 0 <= k <= |h| ensures Settles(g, k) <==> Settles(h, k) { SettlesBefore(h, x, k); }
    if CurrentRun(g) >= DEBOUNCE_REMOTE {
      assert Settles(g, |g|);
    } else if exists k :: 0 <= k <= |h| && Settles(h, k) {
      var k :| 0 <= k <= |h| && Settles(h, k) && before == h[k - 1] && forall m :: k < m <= |h| ==> !Settles(h, m);
      assert Settles(g, k) && g[k - 1] == h[k - 1];
    } else {
      assert forall k :: 0 <= k <= |g| ==> !Settles(g, k);
    }
  }

  /** One call keeps a channel a function of its whole history. */
  lemma {:induction false} SampleKeepsDebounced(h: seq<bool>, c: Channel, sample: bool)
    requires Debounced(h, c)
    ensures Debounced(h + [sample], Sampled(c, sample))
  {
    RunGrows(h, sample);
    StatusStep(h, sample, c.status);
  }

  /** The history determines the channel. */
  lemma {:induction false} DebouncedDetermines(h: seq<bool>, c: Channel, d: Channel)
    requires Debounced(h, c) && Debounced(h, d)
    ensures c == d
  {
    if exists k :: 0 <= k <= |h| && Settles(h, k) {
      var k :| 0 <= k <= |h| && Settles(h, k) && c.status == h[k - 1] && forall m :: k < m <= |h| ==> !Settles(h, m);
      var l :| 0 <= l <= |h| && Settles(h, l) && d.status == h[l - 1] && forall m :: l < m <= |h| ==> !Settles(h, m);
      assert k == l;
    }
  }

  function After(h: seq<bool>): Channel
  {
    if h == [] then INITIAL else Sampled(After(h[..|h| - 1]), h[|h| - 1])
  }

  lemma {:induction false} AfterAppend(h: seq<bool>, sample: bool)
    ensures After(h + [sample]) == Sampled(After(h), sample)
  {
    assert (h + [sample])[..|h|] == h;
  }

  /** For every history, the channel is the one that the history determines. */
  lemma {:induction false} AfterIsDebounced(h: seq<bool>, c: Channel)
    ensures Debounced(h, c) <==> c == After(h)
    decreases |h|
  {
    if h == [] {
      assert Debounced([], INITIAL);
    } else {
      var m := |h| - 1;
      AfterIsDebounced(h[..m], After(h[..m]));
      SampleKeepsDebounced(h[..m], After(h[..m]), h[m]);
      assert h[..m] + [h[m]] == h;
    }
    if Debounced(h, c) { DebouncedDetermines(h, c, After(h)); }
  }

  /** A settled input keeps its status through any disturbance of fewer than 500 samples. */
  lemma {:induction false} GlitchesRejected(h: seq<bool>, glitch: seq<bool>)
    requires Settles(h, |h|) && |glitch| < DEBOUNCE_REMOTE
    ensures After(h + glitch).status == h[|h| - 1]
  {
    var g := h + glitch;
    AfterIsDebounced(g, After(g));
    assert Settles(g, |h|) by {
      forall j | |h| - DEBOUNCE_REMOTE <= j < |h| ensures g[j] == g[|h| - 1] { assert g[j] == h[j]; }
    }
    var k :| 0 <= k <= |g| && Settles(g, k) && After(g).status == g[k - 1] && forall m :: k < m <= |g| ==> !Settles(g, m);
    assert k >= |h|;
    assert g[|h| - 1] == g[k - 1];
  }

  // ---------------------------------------------------------- Read_Remote

  class Remote {
    var batteryLow: nat
    var batteryHigh: nat
    var statusBattery: bool
    var fmDemLow: nat
    var fmDemHigh: nat
    var statusFMDem: bool
    var stereoLow: nat
    var stereoHigh: nat
    var statusStereo: bool
    ghost var battery: seq<bool>  // all the samples so far
    ghost var fmDem: seq<bool>
    ghost var stereo: seq<bool>

    function Battery(): Channel reads `batteryLow, `batteryHigh, `statusBattery { Channel(batteryLow, batteryHigh, statusBattery) }

    function FMDem(): Channel reads `fmDemLow, `fmDemHigh, `statusFMDem { Channel(fmDemLow, fmDemHigh, statusFMDem) }

    function Stereo(): Channel reads `stereoLow, `stereoHigh, `statusStereo { Channel(stereoLow, stereoHigh, statusStereo) }

    /** Each channel is the one determined by its own samples, see AfterIsDebounced. */
    ghost predicate Valid()
      reads this
    {
      Battery() == After(battery) && FMDem() == After(fmDem) && Stereo() == After(stereo)
    }

    constructor ()
      ensures Valid() && battery == fmDem == stereo == []
    {
      batteryLow, batteryHigh, statusBattery, battery := 0, 0, false, [];
      fmDemLow, fmDemHigh, statusFMDem, fmDem := 0, 0, false, [];
      stereoLow, stereoHigh, statusStereo, stereo := 0, 0, false, [];
    }

    /** Read_Remote: each channel takes its own input, whatever the others do. */
    method ReadRemote(batteryInput: bool, fmDemInput: bool, stereoInput: bool)
      requires Valid()
      modifies this
      ensures Valid()
      ensures battery == old(battery) + [batteryInput]
      ensures fmDem == old(fmDem) + [fmDemInput]
      ensures stereo == old(stereo) + [stereoInput]
    {
      hide After;
      ReadBattery(batteryInput);
      ReadFMDem(fmDemInput);
      ReadStereo(stereoInput);
    }

    method ReadBattery(input: bool)
      requires Battery() == After(battery)
      modifies `batteryLow, `batteryHigh, `statusBattery, `battery
      ensures Battery() == After(battery) && battery == old(battery) + [input]
    {
      AfterAppend(battery, input);
      battery := battery + [input];
      if !input {
        batteryLow := batteryLow + 1;
        batteryHigh := 0;
        if batteryLow >= DEBOUNCE_REMOTE {
          batteryLow := DEBOUNCE_REMOTE + 1;
          statusBattery := false;
        }
      } else {
        batteryHigh := batteryHigh + 1;
        batteryLow := 0;
        if batteryHigh >= DEBOUNCE_REMOTE {
          batteryHigh := DEBOUNCE_REMOTE + 1;
          statusBattery := true;
        }
      }
    }

    method ReadFMDem(input: bool)
      requires FMDem() == After(fmDem)
      modifies `fmDemLow, `fmDemHigh, `statusFMDem, `fmDem
      ensures FMDem() == After(fmDem) && fmDem == old(fmDem) + [input]
    {
      AfterAppend(fmDem, input);
      fmDem := fmDem + [input];
      if !input {
        fmDemLow := fmDemLow + 1;
        fmDemHigh := 0;
        if fmDemLow >= DEBOUNCE_REMOTE {
          fmDemLow := DEBOUNCE_REMOTE + 1;
          statusFMDem := false;
        }
      } else {
        fmDemHigh := fmDemHigh + 1;
        fmDemLow := 0;
        if fmDemHigh >= DEBOUNCE_REMOTE {
          fmDemHigh := DEBOUNCE_REMOTE + 1;
          statusFMDem := true;
        }
      }
    }

    method ReadStereo(input: bool)
      requires Stereo() == After(stereo)
      modifies `stereoLow, `stereoHigh, `statusStereo, `stereo
      ensures Stereo() == After(stereo) && stereo == old(stereo) + [input]
    {
      AfterAppend(stereo, input);
      stereo := stereo + [input];
      if !input {
        stereoLow := stereoLow + 1;
        stereoHigh := 0;
        if stereoLow >= DEBOUNCE_REMOTE {
          stereoLow := DEBOUNCE_REMOTE + 1;
          statusStereo := false;
        }
      } else {
        stereoHigh := stereoHigh + 1;
        stereoLow := 0;
        if stereoHigh >= DEBOUNCE_REMOTE {
          stereoHigh := DEBOUNCE_REMOTE + 1;
          statusStereo := true;
        }
      }
    }
  }
}
