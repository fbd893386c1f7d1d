/** The estimator as the session keeps it: fields updated in place by each
    event.  Every method is proved to take exactly the step the specification
    functions describe, so every theorem about runs is about these objects. */
module Estimator {
  import opened Basics
  import opened WndFilter
  import opened EstimatorSpec

  /** Within the range of the 64-bit integers every intermediate is kept in. */
  predicate FitsInt64(v: int) { -INT64_MAX - 1 <= v <= INT64_MAX }

  lemma BwSampleIs(p: Params, sample: nat, rtt: int)
    requires rtt > 0
    ensures var clampMax := if SAMPLE_CAP < p.sizeMax then SAMPLE_CAP else p.sizeMax;
            var clamped := if sample < clampMax then sample else clampMax;
            var raw := clamped * NANO / rtt;
            BwSample(p, sample, rtt) == if raw < BW_CAP then raw else BW_CAP
  {
  }

  class DirCtx {
    var sample: nat
    var bw: Filter
    var bdp: nat
    var effective: nat
    var phase: Phase
    var stable: nat

    function View(): Dir
      reads this
    {
      Dir(sample, bw, bdp, effective, phase, stable)
    }

    constructor (seed: nat)
      ensures View() == FreshDir(seed)
    {
      sample, bw, bdp, effective, phase, stable := 0, EMPTY, 0, seed, Startup, 0;
    }

    /** phase_startup() */
    method StartupPhase(demand: nat)
      requires phase == Startup
      modifies this
      ensures View() == PhaseStartup(old(View()), demand)
    {
      var bwMax := Get(bw);
      if bwMax == 0 {
        return;
      }
      var demandHalf := demand / 2;
      if demandHalf > effective || demand > effective - demandHalf {
        effective := if effective > WNDSIZE_MAX / STARTUP_GROWTH_FACTOR
                     then WNDSIZE_MAX else effective * STARTUP_GROWTH_FACTOR;
        stable := 0;
        return;
      }
      stable := stable + 1;
      if stable < STARTUP_STABLE_ROUNDS {
        return;
      }
      phase := Track;
    }

    /** phase_track() */
    method TrackPhase(p: Params)
      requires bdp <= p.sizeMax
      modifies this
      ensures View() == PhaseTrack(p, old(View()))
    {
      if effective != 0 && bdp > effective {
        phase := Startup;
        stable := 0;
        return;
      }
      var headroom := bdp / 4;
      effective := if bdp > p.sizeMax - headroom then p.sizeMax else bdp + headroom;
    }

    /** calc_dir(); no product leaves the int64 range. */
    method Calc(p: Params, rtt: int, rttMin: int, now: int)
      requires Plausible(p) && rtt > 0 && DirOk(p, View())
      modifies this
      ensures View() == CalcDir(p, old(View()), rtt, rttMin, now)
    {
      hide Update, Bdp, BwSample, PhaseStartup, PhaseTrack, Within;
      ghost var d0 := View();
      BwSampleInRange(p, sample, rtt);
      var clampMax := if SAMPLE_CAP < p.sizeMax then SAMPLE_CAP else p.sizeMax;
      var clamped := if sample < clampMax then sample else clampMax;
      assert FitsInt64(clamped * NANO);
      var raw := clamped * NANO / rtt;
      var bwSample := if raw < BW_CAP then raw else BW_CAP;
      assert bwSample == BwSample(p, sample, rtt) by { BwSampleIs(p, sample, rtt); }
      bw := Update(Max, bw, WND_BW_MAX_NS, Sample(now, bwSample));
      var bwMax := Get(bw);
      bdp := Bdp(p, bwMax, rttMin);
      var demand := Bdp(p, bwSample, rttMin);
      assert View() == d0.(bw := bw, bdp := Bdp(p, Get(bw), rttMin));
      if phase == Startup {
        StartupPhase(demand);
      } else {
        TrackPhase(p);
      }
    }

    /** window_size(); the feedback floor is computed without overflow. */
    method Window(p: Params) returns (w: nat)
      requires Plausible(p) && DirOk(p, View())
      ensures w == WindowSize(View())
      ensures WNDSIZE_MIN <= w <= WNDSIZE_MAX
    {
      WindowInRange(p, View());
      var floor := WNDSIZE_MIN;
      var bwMax := Get(bw);
      if bwMax > 0 {
        assert FitsInt64(bwMax * WND_FEEDBACK_FLOOR_NS);
        var bwFloor := bwMax * WND_FEEDBACK_FLOOR_NS / NANO;
        if bwFloor > floor {
          floor := if bwFloor > WNDSIZE_MAX then WNDSIZE_MAX else bwFloor;
        }
      }
      w := if effective < floor then floor else if effective > WNDSIZE_MAX then WNDSIZE_MAX else effective;
    }
  }

  class EstimatorCtx {
    var lastProbe: int
    var rttWnd: Filter
    var rtt: int
    const rx: DirCtx
    const tx: DirCtx
    var inFlight: bool

    ghost predicate Apart() { rx != tx }

    ghost function View(): Est
      reads this, rx, tx
    {
      Est(lastProbe, rttWnd, rtt, rx.View(), tx.View(), inFlight)
    }

    /** mux_estimator_init() */
    constructor (bdp: nat)
      ensures Apart() && fresh(rx) && fresh(tx) && View() == Init(bdp)
    {
      var seed := if bdp < WNDSIZE_MIN then WNDSIZE_MIN else bdp;
      lastProbe, rttWnd, rtt, inFlight := 0, EMPTY, 0, false;
      rx := new DirCtx(seed);
      tx := new DirCtx(seed);
    }

    /** reset_samples() */
    method ResetSamples()
      modifies rx`sample, tx`sample
      ensures rx.sample == 0 && tx.sample == 0
    {
      rx.sample := 0;
      tx.sample := 0;
    }

    /** mux_estimator_suspend() */
    method Suspend()
      requires Apart()
      modifies this`inFlight, rx`sample, tx`sample
      ensures View() == Abandon(old(View()))
    {
      inFlight := false;
      ResetSamples();
    }

    /** run_probe_cycle() for one direction; says whether a PING was sent. */
    method RunProbeCycle(p: Params, isRx: bool, bytes: nat, now: int, sendOk: bool) returns (pinged: bool)
      requires Apart()
      modifies this`inFlight, this`lastProbe, rx`sample, tx`sample
      ensures Probe(View(), pinged) == ProbeCycle(p, old(View()), isRx, bytes, now, sendOk)
    {
      hide Wrap;
      var d := if isRx then rx else tx;
      if inFlight {
        if now - lastProbe < p.probeTimeout {
          d.sample := Wrap(p, d.sample + bytes);
          return false;
        }
        inFlight := false;
        ResetSamples();
      }
      var minInterval := if rx.phase == Startup || tx.phase == Startup
                         then p.startupInterval else p.rateLimit;
      if lastProbe != 0 && now - lastProbe < minInterval {
        return false;
      }
      if !sendOk {
        return false;
      }
      lastProbe := now;
      inFlight := true;
      d.sample := Wrap(p, bytes);
      return true;
    }

    /** mux_estimator_calculate() */
    method OnPong(p: Params, sentNs: int, now: int)
      requires Apart() && Plausible(p) && EstOk(p, View())
      modifies this`inFlight, this`lastProbe, this`rttWnd, this`rtt, rx, tx
      ensures View() == Calculate(p, old(View()), sentNs, now)
    {
      hide Update, CalcDir, DirOk;
      if !inFlight || sentNs != lastProbe {
        return;
      }
      var rttNs := now - sentNs;
      if rttNs <= 0 {
        inFlight := false;
        ResetSamples();
        lastProbe := now;
        return;
      }
      rttWnd := Update(Min, rttWnd, WND_RTT_MIN_NS, Sample(now, rttNs));
      rtt := rttNs;
      rx.Calc(p, rttNs, Get(rttWnd), now);
      tx.Calc(p, rttNs, Get(rttWnd), now);
      inFlight := false;
      ResetSamples();
      lastProbe := now;
    }
  }
}
