/** What a PONG measures, what it does to a direction in TRACK, and what earns TRACK. */
module EstimatorTrack {
  import opened Basics
  import opened WndFilter
  import opened EstimatorSpec
  import opened EstimatorRuns
  import opened EstimatorStartup

  // ---- What is measured -------------------------------------------------------------------

  /** `bw` bytes a second is what `sample` bytes in `rtt` nanoseconds come to. */
  lemma BandwidthIs(p: Params, sample: nat, rtt: int)
    requires rtt > 0
    ensures var n, bw := MinOf(sample, MinOf(SAMPLE_CAP, p.sizeMax)), BwSample(p, sample, rtt);
            if n * NANO < (BW_CAP + 1) * rtt then bw * rtt <= n * NANO < (bw + 1) * rtt else bw == BW_CAP
  {
    var n := MinOf(sample, MinOf(SAMPLE_CAP, p.sizeMax)) * NANO;
    var q := n / rtt;
    assert q * rtt <= n < (q + 1) * rtt;
    if q > BW_CAP { Monotone2(BW_CAP + 1, q, rtt); } else { Monotone2(q + 1, BW_CAP + 1, rtt); }
  }

  lemma Monotone2(a: int, b: int, m: int)
    requires a <= b && m > 0
    ensures a * m <= b * m
  {
  }

  /** The whole bytes of a bandwidth over a round trip, as far as a size_t counts. */
  ghost predicate Measures(p: Params, bw: int, rtt: int, bdp: nat) {
    if bw * rtt <= 0 then bdp == 0
    else if bw * rtt >= p.sizeMax * NANO then bdp == p.sizeMax
    else bdp * NANO <= bw * rtt < (bdp + 1) * NANO
  }

  lemma BdpMeasures(p: Params, bw: int, rtt: int)
    ensures Measures(p, bw, rtt, Bdp(p, bw, rtt))
  {
    var x := bw * rtt;
    var v := bw as real * rtt as real / 1000000000.0;
    assert bw as real * rtt as real == x as real;
    var r := Bdp(p, bw, rtt);
    if 0 < x < p.sizeMax * NANO {
      assert r as real <= v < (r + 1) as real;
      assert r as real * 1000000000.0 <= x as real < (r + 1) as real * 1000000000.0;
      assert (r * NANO) as real <= x as real < ((r + 1) * NANO) as real;
    }
  }

  lemma MeasuresOne(p: Params, bw: int, rtt: int, a: nat, b: nat)
    requires Measures(p, bw, rtt, a) && Measures(p, bw, rtt, b)
    ensures a == b
  {
  }

  /** A new estimator advertises its seed, within the protocol's range. */
  lemma InitialWindow(bdp: nat, isRx: bool)
    ensures var w := WindowSize(DirOf(Init(bdp), isRx));
            if bdp < WNDSIZE_MIN then w == WNDSIZE_MIN
            else if bdp > WNDSIZE_MAX then w == WNDSIZE_MAX else w == bdp
  {
  }

  // ---- One PONG in TRACK --------------------------------------------------------------------

  /** A window with a quarter of headroom over a measure, as far as a size_t goes. */
  predicate Headroom(p: Params, bdp: nat, window: nat) {
    if 5 * bdp < 4 * p.sizeMax + 4 then 4 * window <= 5 * bdp < 4 * window + 4 else window == p.sizeMax
  }

  /** STARTUP is entered again exactly when the measure exceeds the window, which it
      then keeps; otherwise the window is the measure and a quarter. */
  lemma TrackPong(p: Params, d: Dir, c: Cycle)
    requires d.phase == Track
    ensures var d' := OnCycle(p, d, c);
            && d'.bw == Update(Max, d.bw, WND_BW_MAX_NS, Sample(c.now, Bw(p, c)))
            && Measures(p, Get(d'.bw), c.rttMin, d'.bdp)
            && (d'.phase == Startup <==> d.effective != 0 && d'.bdp > d.effective)
            && (d'.phase == Startup ==> d'.effective == d.effective && d'.stable == 0)
            && (d'.phase == Track ==> Headroom(p, d'.bdp, d'.effective) && d'.stable == d.stable)
  {
    hide Update, BwSample, Bdp;
    var filter := Update(Max, d.bw, WND_BW_MAX_NS, Sample(c.now, Bw(p, c)));
    BdpMeasures(p, Get(filter), c.rttMin);
    BdpSmall(p, Get(filter), c.rttMin);
  }

  lemma BdpSmall(p: Params, bw: int, rtt: int)
    ensures Bdp(p, bw, rtt) <= p.sizeMax
  {
  }

  /** A direction that stays in TRACK advertises what it measured, up to the cap. */
  lemma TrackAdvertises(p: Params, d: Dir, c: Cycle)
    requires Plausible(p) && d.phase == Track && OnCycle(p, d, c).phase == Track
    ensures var d' := OnCycle(p, d, c);
            d'.effective >= d'.bdp && WindowSize(d') >= MinOf(d'.bdp, WNDSIZE_MAX)
  {
    hide OnCycle, Update;
    TrackPong(p, d, c);
    TrackBdp(p, d, c);
  }

  lemma TrackBdp(p: Params, d: Dir, c: Cycle)
    ensures OnCycle(p, d, c).bdp <= p.sizeMax
  {
    hide Update, BwSample, BdpToSize;
  }

  // ---- Whole runs -----------------------------------------------------------------------------

  /** Once a PONG has been used, both directions hold what their filters measure. */
  ghost predicate Measured(p: Params, r: Run) {
    r.accepted != [] ==>
      forall isRx :: Measures(p, Get(DirOf(r.est, isRx).bw), Get(r.est.rttWnd), DirOf(r.est, isRx).bdp)
  }

  lemma StepMeasured(p: Params, r: Run, ev: Event)
    requires Measured(p, r)
    ensures Measured(p, EstimatorRuns.Step(p, r, ev))
  {
    hide Update, BwSample, Bdp, Measures, PhaseStartup, PhaseTrack, Wrap;
    var s := EstimatorRuns.Step(p, r, ev);
    forall isRx | s.accepted != []
      ensures Measures(p, Get(DirOf(s.est, isRx).bw), Get(s.est.rttWnd), DirOf(s.est, isRx).bdp)
    {
      if Used(r, ev) {
        var c := CycleAt(r, ev, isRx);
        StepCore(p, r, ev, isRx);
        FilterFed(p, DirOf(r.est, isRx), c);
        CycleMeasures(p, DirOf(r.est, isRx), c);
      } else {
        StepCore(p, r, ev, isRx);
      }
    }
  }

  lemma CycleMeasures(p: Params, d: Dir, c: Cycle)
    ensures Measures(p, Get(OnCycle(p, d, c).bw), c.rttMin, OnCycle(p, d, c).bdp)
  {
    hide Update, BwSample, Bdp, Measures;
    var filter := Update(Max, d.bw, WND_BW_MAX_NS, Sample(c.now, Bw(p, c)));
    BdpMeasures(p, Get(filter), c.rttMin);
  }

  /** Over every run the estimate of either direction is its bandwidth maximum over
      the round-trip minimum. */
  lemma {:induction false} EveryMeasure(p: Params, r: Run, evs: seq<Event>)
    requires Measured(p, r)
    ensures Measured(p, Play(p, r, evs))
    decreases |evs|
  {
    hide Measured, EstimatorRuns.Step;
    if evs != [] {
      StepMeasured(p, r, evs[0]);
      EveryMeasure(p, EstimatorRuns.Step(p, r, evs[0]), evs[1..]);
    }
  }

  /** The filters of one direction read the same. */
  predicate SameReadings(r: Run, s: Run, isRx: bool) {
    Get(DirOf(r.est, isRx).bw) == Get(DirOf(s.est, isRx).bw) && Get(r.est.rttWnd) == Get(s.est.rttWnd)
  }

  /** In TRACK, with a window no smaller than the measure. */
  predicate Settled(d: Dir) { d.phase == Track && d.bdp <= d.effective }

  lemma StepSettled(p: Params, r: Run, ev: Event, isRx: bool)
    requires Measured(p, r) && r.accepted != [] && Settled(DirOf(r.est, isRx))
    requires SameReadings(r, EstimatorRuns.Step(p, r, ev), isRx)
    ensures var s := EstimatorRuns.Step(p, r, ev);
            s.accepted != [] && Settled(DirOf(s.est, isRx)) && DirOf(s.est, isRx).bdp == DirOf(r.est, isRx).bdp
  {
    hide EstimatorRuns.Step, OnCycle, Update, Measures, CycleAt, Used;
    var s := EstimatorRuns.Step(p, r, ev);
    StepCore(p, r, ev, isRx);
    StepAccepted(p, r, ev);
    if Used(r, ev) {
      var d, c := DirOf(r.est, isRx), CycleAt(r, ev, isRx);
      StepRtt(p, r, ev, isRx);
      TrackPong(p, d, c);
      MeasuresOne(p, Get(d.bw), c.rttMin, OnCycle(p, d, c).bdp, d.bdp);
      HeadroomCovers(p, d, c);
    }
  }

  lemma StepAccepted(p: Params, r: Run, ev: Event)
    ensures r.accepted <= EstimatorRuns.Step(p, r, ev).accepted
  {
    hide CalcDir, Update;
  }

  lemma StepRtt(p: Params, r: Run, ev: Event, isRx: bool)
    requires Used(r, ev)
    ensures CycleAt(r, ev, isRx).rttMin == Get(EstimatorRuns.Step(p, r, ev).est.rttWnd)
  {
    hide CalcDir, Update;
  }

  lemma HeadroomCovers(p: Params, d: Dir, c: Cycle)
    requires d.phase == Track && OnCycle(p, d, c).phase == Track
    ensures OnCycle(p, d, c).effective >= OnCycle(p, d, c).bdp
  {
    hide OnCycle, Update;
    TrackPong(p, d, c);
    TrackBdp(p, d, c);
  }

  /** As long as bandwidth maximum and round-trip minimum read the same, a settled
      direction stays in TRACK with the same estimate. */
  lemma {:induction false} SteadyTrack(p: Params, r: Run, evs: seq<Event>, isRx: bool)
    requires Measured(p, r) && r.accepted != [] && Settled(DirOf(r.est, isRx))
    requires forall j :: 0 <= j <= |evs| ==> SameReadings(r, Play(p, r, evs[..j]), isRx)
    ensures var e := DirOf(Play(p, r, evs).est, isRx);
            Settled(e) && e.bdp == DirOf(r.est, isRx).bdp
    decreases |evs|
  {
    hide EstimatorRuns.Step, Measured;
    if evs != [] {
      var next := EstimatorRuns.Step(p, r, evs[0]);
      assert evs[..1] == [evs[0]] && [evs[0]][1..] == [];
      assert Play(p, r, evs[..1]) == next;
      StepSettled(p, r, evs[0], isRx);
      StepMeasured(p, r, evs[0]);
      forall j | 0 <= j <= |evs[1..]| ensures SameReadings(next, Play(p, next, evs[1..][..j]), isRx) {
        assert evs[..j + 1][0] == evs[0] && evs[..j + 1][1..] == evs[1..][..j];
        assert SameReadings(r, Play(p, r, evs[..j + 1]), isRx);
      }
      SteadyTrack(p, next, evs[1..], isRx);
    }
  }

  // ---- What earns TRACK -------------------------------------------------------------------------

  /** The demands of the rounds in which some bandwidth was known. */
  function Demands(p: Params, d: Dir, cs: seq<Cycle>): seq<nat>
    decreases |cs|
  {
    if cs == [] then []
    else
      var d' := OnCycle(p, d, cs[0]);
      (if Get(d'.bw) != 0 then [Demand(p, cs[0])] else []) + Demands(p, d', cs[1..])
  }

  /** In STARTUP until the last of the PONGs. */
  predicate UpToTheEnd(p: Params, d: Dir, cs: seq<Cycle>)
    decreases |cs|
  {
    cs != [] ==> d.phase == Startup && UpToTheEnd(p, OnCycle(p, d, cs[0]), cs[1..])
  }

  /** The window has had headroom for as many of the last demands as are counted
      stable, and TRACK takes sixteen. */
  ghost predicate Earned(d: Dir, demands: seq<nat>) {
    && d.stable <= |demands|
    && (forall i :: |demands| - d.stable <= i < |demands| ==> demands[i] + demands[i] / 2 <= d.effective)
    && (if d.phase == Track then d.stable == STARTUP_STABLE_ROUNDS else d.stable < STARTUP_STABLE_ROUNDS)
  }

  lemma RoundEarned(p: Params, d: Dir, c: Cycle, demands: seq<nat>)
    requires d.phase == Startup && Earned(d, demands)
    ensures var d' := OnCycle(p, d, c);
            Earned(d', demands + if Get(d'.bw) != 0 then [Demand(p, c)] else [])
  {
    hide OnCycle, Update, Demand;
    var d1 := StartupCycle(p, d, c);
    OutgrowsIff(Demand(p, c), d.effective);
    var more := demands + [Demand(p, c)];
    assert more[|demands|] == Demand(p, c) && forall i :: 0 <= i < |demands| ==> more[i] == demands[i];
    assert demands + [] == demands;
  }

  lemma {:induction false} EarnedOn(p: Params, d: Dir, cs: seq<Cycle>, demands: seq<nat>)
    requires UpToTheEnd(p, d, cs) && Earned(d, demands)
    ensures Earned(AfterCycles(p, d, cs), demands + Demands(p, d, cs))
    decreases |cs|
  {
    hide OnCycle, Demand, Earned;
    if cs == [] {
      assert demands + [] == demands;
    } else {
      var d' := OnCycle(p, d, cs[0]);
      var more := demands + if Get(d'.bw) != 0 then [Demand(p, cs[0])] else [];
      RoundEarned(p, d, cs[0], demands);
      EarnedOn(p, d', cs[1..], more);
      assert more + Demands(p, d', cs[1..]) == demands + Demands(p, d, cs);
    }
  }

  /** STARTUP is left only after sixteen demands in a row for which the window, as it
      then stands, has half as much headroom again. */
  lemma TrackIsEarned(p: Params, d: Dir, cs: seq<Cycle>)
    requires d.phase == Startup && d.stable == 0 && UpToTheEnd(p, d, cs) && AfterCycles(p, d, cs).phase == Track
    ensures var e, ds := AfterCycles(p, d, cs), Demands(p, d, cs);
            |ds| >= STARTUP_STABLE_ROUNDS &&
            forall i :: |ds| - STARTUP_STABLE_ROUNDS <= i < |ds| ==> ds[i] + ds[i] / 2 <= e.effective
  {
    hide AfterCycles, Demands, UpToTheEnd;
    EarnedOn(p, d, cs, []);
    assert [] + Demands(p, d, cs) == Demands(p, d, cs);
  }

  /** A direction of a run is where its PONGs put it. */
  lemma {:induction false} RunIsCycles(p: Params, r: Run, evs: seq<Event>, isRx: bool, d: Dir)
    requires Core(d) == Core(DirOf(r.est, isRx))
    ensures Core(DirOf(Play(p, r, evs).est, isRx)) == Core(AfterCycles(p, d, Cycles(p, r, evs, isRx)))
    decreases |evs|
  {
    hide OnCycle, CycleAt, Used, EstimatorRuns.Step;
    if evs != [] {
      var ev, next := evs[0], EstimatorRuns.Step(p, r, evs[0]);
      var more := Cycles(p, next, evs[1..], isRx);
      StepCore(p, r, ev, isRx);
      if Used(r, ev) {
        var c := CycleAt(r, ev, isRx);
        var cs := Cycles(p, r, evs, isRx);
        assert cs == [c] + more && cs[0] == c && cs[1..] == more;
        SameCore(p, d, DirOf(r.est, isRx), c);
        RunIsCycles(p, next, evs[1..], isRx, OnCycle(p, d, c));
      } else {
        assert Cycles(p, r, evs, isRx) == [] + more == more;
        RunIsCycles(p, next, evs[1..], isRx, d);
      }
    }
  }

  lemma SameCore(p: Params, d: Dir, e: Dir, c: Cycle)
    requires Core(d) == Core(e)
    ensures OnCycle(p, d, c) == OnCycle(p, e, c)
  {
    hide CalcDir;
    assert d.(sample := c.sample) == e.(sample := c.sample);
  }

  // ---- The filters over whole runs ------------------------------------------------------------

  function BwSamples(p: Params, cs: seq<Cycle>): (xs: seq<Sample>)
    ensures |xs| == |cs| && forall i :: 0 <= i < |xs| ==> xs[i] == Sample(cs[i].now, Bw(p, cs[i]))
  {
    seq(|cs|, i requires 0 <= i < |cs| => Sample(cs[i].now, Bw(p, cs[i])))
  }

  function RttSamples(cs: seq<Cycle>): (xs: seq<Sample>)
    ensures |xs| == |cs| && forall i :: 0 <= i < |xs| ==> xs[i] == Sample(cs[i].now, cs[i].rtt)
  {
    seq(|cs|, i requires 0 <= i < |cs| => Sample(cs[i].now, cs[i].rtt))
  }

  lemma FeedSnoc(mode: Mode, wnd: nat, xs: seq<Sample>, x: Sample)
    ensures Feed(mode, wnd, xs + [x]) == Update(mode, Feed(mode, wnd, xs), wnd, x)
  {
    hide Update;
    assert (xs + [x])[..|xs|] == xs;
  }

  lemma StepFilters(p: Params, r: Run, ev: Event, isRx: bool)
    ensures var s := EstimatorRuns.Step(p, r, ev);
            if Used(r, ev) then
              var c := CycleAt(r, ev, isRx);
              DirOf(s.est, isRx).bw == Update(Max, DirOf(r.est, isRx).bw, WND_BW_MAX_NS, Sample(c.now, Bw(p, c))) &&
              s.est.rttWnd == Update(Min, r.est.rttWnd, WND_RTT_MIN_NS, Sample(c.now, c.rtt))
            else DirOf(s.est, isRx).bw == DirOf(r.est, isRx).bw && s.est.rttWnd == r.est.rttWnd
  {
    hide Update, CalcDir, OnCycle;
    StepCore(p, r, ev, isRx);
    if Used(r, ev) { FilterFed(p, DirOf(r.est, isRx), CycleAt(r, ev, isRx)); }
  }

  lemma NoSamples(p: Params)
    ensures BwSamples(p, []) == [] && RttSamples([]) == []
  {
  }

  lemma SamplesCons(p: Params, c: Cycle, more: seq<Cycle>, xs: seq<Sample>, ys: seq<Sample>)
    ensures xs + [Sample(c.now, Bw(p, c))] + BwSamples(p, more) == xs + BwSamples(p, [c] + more)
    ensures ys + [Sample(c.now, c.rtt)] + RttSamples(more) == ys + RttSamples([c] + more)
  {
    hide Bw;
    assert BwSamples(p, [c] + more) == [Sample(c.now, Bw(p, c))] + BwSamples(p, more);
    assert RttSamples([c] + more) == [Sample(c.now, c.rtt)] + RttSamples(more);
  }

  /** The filters have been fed the accepted PONGs, each once and in order. */
  lemma {:induction false} RunFeeds(p: Params, r: Run, evs: seq<Event>, isRx: bool, xs: seq<Sample>, ys: seq<Sample>)
    requires DirOf(r.est, isRx).bw == Feed(Max, WND_BW_MAX_NS, xs)
    requires r.est.rttWnd == Feed(Min, WND_RTT_MIN_NS, ys)
    ensures var s, cs := Play(p, r, evs), Cycles(p, r, evs, isRx);
            && DirOf(s.est, isRx).bw == Feed(Max, WND_BW_MAX_NS, xs + BwSamples(p, cs))
            && s.est.rttWnd == Feed(Min, WND_RTT_MIN_NS, ys + RttSamples(cs))
    decreases |evs|
  {
    hide Update, Feed, CycleAt, Used, EstimatorRuns.Step, Bw, BwSamples, RttSamples, DirOf;
    if evs == [] {
      NoSamples(p);
      assert xs + [] == xs && ys + [] == ys;
    } else {
      var ev, next := evs[0], EstimatorRuns.Step(p, r, evs[0]);
      var cs, more := Cycles(p, r, evs, isRx), Cycles(p, next, evs[1..], isRx);
      StepFilters(p, r, ev, isRx);
      if Used(r, ev) {
        var c := CycleAt(r, ev, isRx);
        var x, y := Sample(c.now, Bw(p, c)), Sample(c.now, c.rtt);
        FeedSnoc(Max, WND_BW_MAX_NS, xs, x);
        FeedSnoc(Min, WND_RTT_MIN_NS, ys, y);
        RunFeeds(p, next, evs[1..], isRx, xs + [x], ys + [y]);
        assert cs == [c] + more;
        SamplesCons(p, c, more, xs, ys);
      } else {
        assert cs == [] + more == more;
        RunFeeds(p, next, evs[1..], isRx, xs, ys);
      }
    }
  }

  predicate InClock(cs: seq<Cycle>, from: int) {
    (forall i, j :: 0 <= i <= j < |cs| ==> cs[i].now <= cs[j].now) &&
    forall i :: 0 <= i < |cs| ==> from <= cs[i].now <= INT64_MAX
  }

  lemma InClockCons(c: Cycle, cs: seq<Cycle>, from: int)
    requires from <= c.now <= INT64_MAX && InClock(cs, c.now)
    ensures InClock([c] + cs, from)
  {
  }

  lemma InClockEarlier(cs: seq<Cycle>, from: int, later: int)
    requires InClock(cs, later) && from <= later
    ensures InClock(cs, from)
  {
  }

  lemma {:induction false} CyclesInClock(p: Params, r: Run, evs: seq<Event>, isRx: bool)
    requires ClocksOk(p, r, evs)
    ensures InClock(Cycles(p, r, evs, isRx), r.clock)
    decreases |evs|
  {
    hide CycleAt, Used, EstimatorRuns.Step, InClock;
    if evs == [] {
      assert InClock([], r.clock) by { NoCycle(r.clock); }
    } else {
      var ev, next := evs[0], EstimatorRuns.Step(p, r, evs[0]);
      CyclesInClock(p, next, evs[1..], isRx);
      StepClock(p, r, ev);
      var more := Cycles(p, next, evs[1..], isRx);
      if Used(r, ev) {
        var c := CycleAt(r, ev, isRx);
        CycleNow(r, ev, isRx);
        UsedIsPong(r, ev);
        InClockCons(c, more, r.clock);
      } else {
        assert [] + more == more;
        InClockEarlier(more, r.clock, next.clock);
      }
    }
  }

  lemma NoCycle(from: int)
    ensures InClock([], from)
  {
  }

  lemma UsedIsPong(r: Run, ev: Event)
    requires Used(r, ev) && ClockOk(r, ev)
    ensures ev.Pong? && r.clock <= ev.now <= INT64_MAX
  {
  }

  /** Sample `m` is the largest, and no older than the window of its filter. */
  ghost predicate LargestAt(p: Params, cs: seq<Cycle>, m: nat)
    requires m < |cs|
  {
    (forall i :: 0 <= i < |cs| ==> Bw(p, cs[m]) >= Bw(p, cs[i])) && cs[|cs| - 1].now - cs[m].now <= WND_BW_MAX_NS
  }

  ghost predicate ShortestAt(cs: seq<Cycle>, m: nat)
    requires m < |cs|
  {
    (forall i :: 0 <= i < |cs| ==> cs[m].rtt <= cs[i].rtt) && cs[|cs| - 1].now - cs[m].now <= WND_RTT_MIN_NS
  }

  lemma LargestReported(p: Params, cs: seq<Cycle>, m: nat)
    requires m < |cs| && InClock(cs, 0) && LargestAt(p, cs, m)
    ensures Get(Feed(Max, WND_BW_MAX_NS, BwSamples(p, cs))) == Bw(p, cs[m])
  {
    hide Feed, Bw;
    var xs := BwSamples(p, cs);
    assert forall j :: 0 <= j < |xs| ==> Beats(Max, xs[m].v, xs[j].v);
    PeakIsReported(Max, WND_BW_MAX_NS, xs, m);
  }

  lemma ShortestReported(cs: seq<Cycle>, m: nat)
    requires m < |cs| && InClock(cs, 0) && ShortestAt(cs, m)
    ensures Get(Feed(Min, WND_RTT_MIN_NS, RttSamples(cs))) == cs[m].rtt
  {
    hide Feed;
    var ys := RttSamples(cs);
    assert forall j :: 0 <= j < |ys| ==> Beats(Min, ys[m].v, ys[j].v);
    PeakIsReported(Min, WND_RTT_MIN_NS, ys, m);
  }

  /** Over every run the bandwidth known is the largest sample while that is at most a
      day old, and the round trip known the shortest while that is at most ten
      minutes old. */
  lemma EveryReading(p: Params, bdp: nat, evs: seq<Event>, isRx: bool, m: nat)
    requires ClocksOk(p, Begin(bdp), evs) && m < |Cycles(p, Begin(bdp), evs, isRx)|
    ensures var s, cs := Play(p, Begin(bdp), evs), Cycles(p, Begin(bdp), evs, isRx);
            && (LargestAt(p, cs, m) ==> Get(DirOf(s.est, isRx).bw) == Bw(p, cs[m]))
            && (ShortestAt(cs, m) ==> Get(s.est.rttWnd) == cs[m].rtt)
  {
    hide Play, Cycles, ClocksOk, Feed, Bw, LargestAt, ShortestAt, BwSamples, RttSamples, InClock, DirOf;
    var cs := Cycles(p, Begin(bdp), evs, isRx);
    FedNothing(bdp, isRx);
    RunFeeds(p, Begin(bdp), evs, isRx, [], []);
    CyclesInClock(p, Begin(bdp), evs, isRx);
    assert [] + BwSamples(p, cs) == BwSamples(p, cs) && [] + RttSamples(cs) == RttSamples(cs);
    if LargestAt(p, cs, m) { LargestReported(p, cs, m); }
    if ShortestAt(cs, m) { ShortestReported(cs, m); }
  }

  lemma FedNothing(bdp: nat, isRx: bool)
    ensures DirOf(Begin(bdp).est, isRx).bw == Feed(Max, WND_BW_MAX_NS, [])
    ensures Begin(bdp).est.rttWnd == Feed(Min, WND_RTT_MIN_NS, [])
  {
  }
}
