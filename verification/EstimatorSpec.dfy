/** The bandwidth-delay estimator as functions of its state: the shared PING
    probe cycle, one direction's growth phase, and the advertised windows. */
module EstimatorSpec {
  import opened Basics
  import opened WndFilter

  const WINDOW_UNIT := 16384
  const WNDSIZE_MAX := 65535 * WINDOW_UNIT
  const WNDSIZE_MIN := 65536
  const NANO := 1_000_000_000
  const WND_FEEDBACK_FLOOR_NS := 600_000
  const WND_RTT_MIN_NS := 600 * NANO
  const WND_BW_MAX_NS := 86400 * NANO
  const STARTUP_STABLE_ROUNDS := 16
  const STARTUP_GROWTH_FACTOR := 3
  // the largest bandwidth the filters ever hold, in bytes per second
  const BW_CAP := INT64_MAX / WND_FEEDBACK_FLOOR_NS
  // the largest sample whose product with 1e9 fits an int64
  const SAMPLE_CAP := INT64_MAX / NANO

  /** SIZE_MAX of the platform and the three probe intervals. */
  datatype Params = Params(sizeMax: nat, startupInterval: int, rateLimit: int, probeTimeout: int)

  predicate Plausible(p: Params) {
    p.sizeMax >= 0xFFFF_FFFF && 0 < p.startupInterval && 0 < p.rateLimit && 0 < p.probeTimeout
  }

  function MinInterval(p: Params): int {
    if p.startupInterval < p.rateLimit then p.startupInterval else p.rateLimit
  }

  datatype Phase = Startup | Track

  datatype Dir = Dir(sample: nat, bw: Filter, bdp: nat, effective: nat, phase: Phase, stable: nat)

  datatype Est = Est(lastProbe: int, rttWnd: Filter, rtt: int, rx: Dir, tx: Dir, inFlight: bool)

  function FreshDir(seed: nat): Dir { Dir(0, EMPTY, 0, seed, Startup, 0) }

  /** mux_estimator_init() */
  function Init(bdp: nat): Est {
    var seed := if bdp < WNDSIZE_MIN then WNDSIZE_MIN else bdp;
    Est(0, EMPTY, 0, FreshDir(seed), FreshDir(seed), false)
  }

  // ---- The probe cycle -----------------------------------------------------

  datatype Probe = Probe(est: Est, pinged: bool)

  function Abandon(e: Est): Est {
    e.(inFlight := false, rx := e.rx.(sample := 0), tx := e.tx.(sample := 0))
  }

  /** The value a size_t keeps of `n`. */
  function Wrap(p: Params, n: nat): (r: nat)
    ensures r <= p.sizeMax
  {
    n % (p.sizeMax + 1)
  }

  function Accumulate(p: Params, e: Est, rx: bool, bytes: nat): Est {
    if rx then e.(rx := e.rx.(sample := Wrap(p, e.rx.sample + bytes)))
    else e.(tx := e.tx.(sample := Wrap(p, e.tx.sample + bytes)))
  }

  function StartSample(p: Params, e: Est, rx: bool, bytes: nat): Est {
    if rx then e.(rx := e.rx.(sample := Wrap(p, bytes)))
    else e.(tx := e.tx.(sample := Wrap(p, bytes)))
  }

  /** run_probe_cycle(): `now` is the clock, `sendOk` whether the PING could be
      queued. */
  function ProbeCycle(p: Params, e: Est, rx: bool, bytes: nat, now: int, sendOk: bool): Probe {
    if e.inFlight && now - e.lastProbe < p.probeTimeout then
      Probe(Accumulate(p, e, rx, bytes), false)
    else
      var e1 := if e.inFlight then Abandon(e) else e;
      var interval := if e1.rx.phase == Startup || e1.tx.phase == Startup
                      then p.startupInterval else p.rateLimit;
      if e1.lastProbe != 0 && now - e1.lastProbe < interval then Probe(e1, false)
      else if !sendOk then Probe(e1, false)
      else Probe(StartSample(p, e1.(lastProbe := now, inFlight := true), rx, bytes), true)
  }

  // ---- One direction ---------------------------------------------------------

  /** Whether demand x 1.5 exceeds the effective window. */
  predicate DemandOutgrows(demand: nat, effective: nat) {
    demand / 2 > effective || demand > effective - demand / 2
  }

  function Grown(effective: nat): nat {
    if effective > WNDSIZE_MAX / STARTUP_GROWTH_FACTOR then WNDSIZE_MAX
    else effective * STARTUP_GROWTH_FACTOR
  }

  /** phase_startup() */
  function PhaseStartup(d: Dir, demand: nat): Dir {
    if Get(d.bw) == 0 then d
    else if DemandOutgrows(demand, d.effective) then d.(effective := Grown(d.effective), stable := 0)
    else if d.stable + 1 < STARTUP_STABLE_ROUNDS then d.(stable := d.stable + 1)
    else d.(stable := d.stable + 1, phase := Track)
  }

  /** phase_track() */
  function PhaseTrack(p: Params, d: Dir): Dir {
    if d.effective != 0 && d.bdp > d.effective then d.(phase := Startup, stable := 0)
    else d.(effective := if d.bdp > p.sizeMax - d.bdp / 4 then p.sizeMax else d.bdp + d.bdp / 4)
  }

  /** bdp_to_size() */
  function BdpToSize(p: Params, v: real): (r: nat)
    ensures r <= p.sizeMax
    ensures 0.0 <= v < p.sizeMax as real ==> r as real <= v < (r + 1) as real
  {
    if v <= 0.0 then 0
    else if !(v < p.sizeMax as real) then p.sizeMax
    else v.Floor
  }

  function Bdp(p: Params, bw: int, rttMin: int): (r: nat)
    ensures r <= p.sizeMax
  {
    BdpToSize(p, bw as real * rttMin as real / 1000000000.0)
  }

  /** The bandwidth one sample over one round trip shows, clamped. */
  function BwSample(p: Params, sample: nat, rtt: int): int
    requires rtt > 0
  {
    MinOf(MinOf(sample, MinOf(SAMPLE_CAP, p.sizeMax)) * NANO / rtt, BW_CAP)
  }

  /** calc_dir() */
  function CalcDir(p: Params, d: Dir, rtt: int, rttMin: int, now: int): Dir
    requires rtt > 0
  {
    var bw := BwSample(p, d.sample, rtt);
    var filter := Update(Max, d.bw, WND_BW_MAX_NS, Sample(now, bw));
    var d1 := d.(bw := filter, bdp := Bdp(p, Get(filter), rttMin));
    if d.phase == Startup then PhaseStartup(d1, Bdp(p, bw, rttMin)) else PhaseTrack(p, d1)
  }

  // ---- PONG ------------------------------------------------------------------

  predicate Matches(e: Est, sentNs: int) { e.inFlight && sentNs == e.lastProbe }

  /** mux_estimator_calculate() */
  function Calculate(p: Params, e: Est, sentNs: int, now: int): Est {
    if !Matches(e, sentNs) then e
    else
      var rtt := now - sentNs;
      if rtt <= 0 then Abandon(e).(lastProbe := now)
      else
        var rttWnd := Update(Min, e.rttWnd, WND_RTT_MIN_NS, Sample(now, rtt));
        var e1 := e.(rttWnd := rttWnd, rtt := rtt,
                     rx := CalcDir(p, e.rx, rtt, Get(rttWnd), now),
                     tx := CalcDir(p, e.tx, rtt, Get(rttWnd), now));
        Abandon(e1).(lastProbe := now)
  }

  /** window_size() */
  function WindowSize(d: Dir): nat {
    var bwFloor := Get(d.bw) * WND_FEEDBACK_FLOOR_NS / NANO;
    var floor := if Get(d.bw) > 0 && bwFloor > WNDSIZE_MIN then MinOf(bwFloor, WNDSIZE_MAX) else WNDSIZE_MIN;
    if d.effective < floor then floor else if d.effective > WNDSIZE_MAX then WNDSIZE_MAX else d.effective
  }

  // ---- What every reachable direction satisfies ---------------------------------

  predicate DirOk(p: Params, d: Dir) {
    && d.sample <= p.sizeMax
    && (d.bw.ready ==> Within(d.bw, 0, BW_CAP))
    && (!d.bw.ready ==> d.bw == EMPTY)
    && d.bdp <= p.sizeMax && d.effective <= p.sizeMax
    && (d.phase == Startup ==> d.effective > 0 && d.stable < STARTUP_STABLE_ROUNDS)
    && d.stable <= STARTUP_STABLE_ROUNDS
  }

  predicate EstOk(p: Params, e: Est) {
    && DirOk(p, e.rx) && DirOk(p, e.tx)
    && (e.rttWnd.ready ==> Within(e.rttWnd, 1, INT64_MAX))
    && (!e.rttWnd.ready ==> e.rttWnd == EMPTY)
  }

  lemma BwSampleInRange(p: Params, sample: nat, rtt: int)
    requires Plausible(p) && rtt > 0
    ensures 0 <= MinOf(sample, MinOf(SAMPLE_CAP, p.sizeMax)) * NANO <= INT64_MAX
    ensures 0 <= BwSample(p, sample, rtt) <= BW_CAP
  {
    var n := MinOf(sample, MinOf(SAMPLE_CAP, p.sizeMax)) * NANO;
    assert n <= SAMPLE_CAP * NANO;
    assert n / rtt >= 0;
  }

  lemma CalcDirOk(p: Params, d: Dir, rtt: int, rttMin: int, now: int)
    requires Plausible(p) && DirOk(p, d) && rtt > 0
    ensures DirOk(p, CalcDir(p, d, rtt, rttMin, now))
  {
    hide Update, BdpToSize, BwSample;
    var bw := BwSample(p, d.sample, rtt);
    BwSampleInRange(p, d.sample, rtt);
    UpdateWithin(Max, d.bw, WND_BW_MAX_NS, Sample(now, bw), 0, BW_CAP);
  }

  /** A PONG keeps every reachable-state bound. */
  lemma CalculateOk(p: Params, e: Est, sentNs: int, now: int)
    requires Plausible(p) && EstOk(p, e) && now - sentNs <= INT64_MAX
    ensures EstOk(p, Calculate(p, e, sentNs, now))
  {
    hide Update, CalcDir;
    var rtt := now - sentNs;
    if Matches(e, sentNs) && rtt > 0 {
      UpdateWithin(Min, e.rttWnd, WND_RTT_MIN_NS, Sample(now, rtt), 1, INT64_MAX);
      var rttMin := Get(Update(Min, e.rttWnd, WND_RTT_MIN_NS, Sample(now, rtt)));
      CalcDirOk(p, e.rx, rtt, rttMin, now);
      CalcDirOk(p, e.tx, rtt, rttMin, now);
    }
  }

  lemma ProbeCycleOk(p: Params, e: Est, rx: bool, bytes: nat, now: int, sendOk: bool)
    requires Plausible(p) && EstOk(p, e)
    ensures EstOk(p, ProbeCycle(p, e, rx, bytes, now, sendOk).est)
  {
  }

  /** The feedback floor fits an int64, and the advertised window lies between
      the protocol bounds and at or above the bandwidth floor. */
  lemma WindowInRange(p: Params, d: Dir)
    requires Plausible(p) && DirOk(p, d)
    ensures 0 <= Get(d.bw) * WND_FEEDBACK_FLOOR_NS <= INT64_MAX
    ensures WNDSIZE_MIN <= WindowSize(d) <= WNDSIZE_MAX
    ensures WindowSize(d) >= MinOf(Get(d.bw) * WND_FEEDBACK_FLOOR_NS / NANO, WNDSIZE_MAX)
    ensures var floor := MinOf(Get(d.bw) * WND_FEEDBACK_FLOOR_NS / NANO, WNDSIZE_MAX);
            && (WNDSIZE_MIN <= d.effective <= WNDSIZE_MAX && d.effective >= floor ==> WindowSize(d) == d.effective)
            && (d.effective > WNDSIZE_MAX ==> WindowSize(d) == WNDSIZE_MAX)
            && (d.effective < WNDSIZE_MIN || d.effective < floor ==>
                  WindowSize(d) == WNDSIZE_MIN || WindowSize(d) == floor)
  {
    assert Get(d.bw) <= BW_CAP;
    assert BW_CAP * WND_FEEDBACK_FLOOR_NS <= INT64_MAX;
  }

  lemma InitOk(p: Params, bdp: nat)
    requires Plausible(p) && bdp <= p.sizeMax
    ensures EstOk(p, Init(bdp))
  {
  }
}
