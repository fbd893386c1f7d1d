/** STARTUP ends: how many accepted PONGs one direction can stay in its growth
    phase, and exactly which steady demand never lets it leave. */
module EstimatorStartup {
  import opened Basics
  import opened WndFilter
  import opened EstimatorSpec
  import opened EstimatorRuns

  /** One accepted PONG, as one direction sees it. */
  datatype RawCycle = Cycle(sample: nat, rtt: int, rttMin: int, now: int)

  type Cycle = c: RawCycle | c.rtt > 0 witness Cycle(0, 1, 1, 0)

  function Demand(p: Params, c: Cycle): nat {
    Bdp(p, BwSample(p, c.sample, c.rtt), c.rttMin)
  }

  function OnCycle(p: Params, d: Dir, c: Cycle): Dir {
    CalcDir(p, d.(sample := c.sample), c.rtt, c.rttMin, c.now)
  }

  function AfterCycles(p: Params, d: Dir, cs: seq<Cycle>): Dir
    decreases |cs|
  {
    if cs == [] then d else AfterCycles(p, OnCycle(p, d, cs[0]), cs[1..])
  }

  /** A demand the largest window has headroom for. */
  predicate Modest(demand: nat) { demand + demand / 2 <= WNDSIZE_MAX }

  lemma OutgrowsIff(demand: nat, effective: nat)
    ensures DemandOutgrows(demand, effective) <==> demand + demand / 2 > effective
  {
  }

  /** How often the window can still triple before it reaches the cap. */
  function TriplingsLeft(effective: nat): nat
    requires effective > 0
    decreases WNDSIZE_MAX - effective
  {
    if effective >= WNDSIZE_MAX then 0 else 1 + TriplingsLeft(Grown(effective))
  }

  /** The lexicographic measure (triplings left, stable rounds left), flattened. */
  function RoundsLeft(d: Dir): nat
    requires d.effective > 0 && d.stable <= STARTUP_STABLE_ROUNDS
  {
    STARTUP_STABLE_ROUNDS * TriplingsLeft(d.effective) + STARTUP_STABLE_ROUNDS - d.stable
  }

  predicate Growing(d: Dir) {
    d.phase == Startup && d.effective > 0 && d.stable < STARTUP_STABLE_ROUNDS
  }

  /** A STARTUP round with modest demand and a known bandwidth makes progress. */
  lemma RoundProgress(d: Dir, demand: nat)
    requires Growing(d) && Get(d.bw) != 0 && Modest(demand)
    ensures var d' := PhaseStartup(d, demand);
            d'.phase == Track || (Growing(d') && RoundsLeft(d') < RoundsLeft(d))
  {
    OutgrowsIff(demand, d.effective);
  }

  // ---- What the bandwidth filter remembers -------------------------------------

  /** The filter never reports less than the sample it was just given. */
  lemma FilterAtLeast(f: Filter, wnd: nat, x: Sample)
    ensures Get(Update(Max, f, wnd, x)) >= x.v
  {
  }

  /** The largest bandwidth seen so far, and since when. */
  datatype Peak = Peak(bw: nat, since: int)

  /** A sample becomes the peak when it is at least as large. */
  function Raised(k: Peak, bw: nat, now: int): Peak {
    if bw > 0 && bw >= k.bw then Peak(bw, now) else k
  }

  /** The peak is not older than the filter's window. */
  predicate Recent(k: Peak, now: int) { k.bw > 0 && now <= k.since + WND_BW_MAX_NS }

  /** The filter holds nothing above the peak, and as long as the peak is recent
      all it holds is no older than it. */
  ghost predicate Recalls(f: Filter, k: Peak, now: int) {
    && (f.ready ==> Within(f, 0, k.bw))
    && (Recent(k, now) ==> f.ready && f.s0.v > 0 && SlotsIn(f, k.since, now))
  }

  predicate SlotsIn(f: Filter, lo: int, hi: int) {
    lo <= f.s0.t <= hi && lo <= f.s1.t <= hi && lo <= f.s2.t <= hi
  }

  lemma UpdateSlots(f: Filter, x: Sample, lo: int, now: int)
    requires SlotsIn(f, lo, now) && now <= x.t <= lo + WND_BW_MAX_NS && f.ready && f.s0.v > 0 && x.v >= 0
    ensures var g := Update(Max, f, WND_BW_MAX_NS, x);
            g.ready && g.s0.v > 0 && SlotsIn(g, lo, x.t)
  {
  }

  lemma UpdateRecalls(f: Filter, k: Peak, now: int, x: Sample)
    requires Recalls(f, k, now) && now <= x.t && x.v >= 0
    ensures var g := Update(Max, f, WND_BW_MAX_NS, x);
            && Recalls(g, Raised(k, x.v, x.t), x.t)
            && (x.v > 0 || Recent(k, x.t) ==> Get(g) > 0)
  {
    FilterAtLeast(f, WND_BW_MAX_NS, x);
    if x.v > 0 && x.v >= k.bw {
      assert Update(Max, f, WND_BW_MAX_NS, x) == Reset(x);
    } else {
      hide Update;
      UpdateWithin(Max, f, WND_BW_MAX_NS, x, 0, k.bw);
      if Recent(k, x.t) { UpdateSlots(f, x, k.since, now); }
    }
  }

  // ---- STARTUP ends --------------------------------------------------------------

  function Bw(p: Params, c: Cycle): (bw: nat) {
    BwIsNat(p, c);
    BwSample(p, c.sample, c.rtt)
  }

  lemma BwIsNat(p: Params, c: Cycle)
    ensures BwSample(p, c.sample, c.rtt) >= 0
  {
    assert MinOf(c.sample, MinOf(SAMPLE_CAP, p.sizeMax)) * NANO / c.rtt >= 0;
  }

  /** A PONG after which some bandwidth is known: its own, or a recent peak; and
      with no more demand than the largest window has headroom for. */
  predicate CycleOk(p: Params, k: Peak, c: Cycle) {
    (Bw(p, c) > 0 || Recent(k, c.now)) && Modest(Demand(p, c))
  }

  /** Every PONG of a row is such a one. */
  predicate AllOk(p: Params, k: Peak, cs: seq<Cycle>)
    decreases |cs|
  {
    cs != [] ==> CycleOk(p, k, cs[0]) && AllOk(p, Raised(k, Bw(p, cs[0]), cs[0].now), cs[1..])
  }

  predicate Rising(now: int, cs: seq<Cycle>)
    decreases |cs|
  {
    cs != [] ==> now <= cs[0].now && Rising(cs[0].now, cs[1..])
  }

  /** What a PONG does to a direction in STARTUP. */
  lemma StartupCycle(p: Params, d: Dir, c: Cycle) returns (d1: Dir)
    requires d.phase == Startup
    ensures OnCycle(p, d, c) == PhaseStartup(d1, Demand(p, c))
    ensures d1.bw == Update(Max, d.bw, WND_BW_MAX_NS, Sample(c.now, Bw(p, c)))
    ensures d1.phase == d.phase && d1.effective == d.effective && d1.stable == d.stable
  {
    hide Update, BdpToSize, BwSample, PhaseStartup;
    var filter := Update(Max, d.bw, WND_BW_MAX_NS, Sample(c.now, Bw(p, c)));
    d1 := d.(sample := c.sample, bw := filter, bdp := Bdp(p, Get(filter), c.rttMin));
  }

  /** The filter of either phase is fed each PONG. */
  lemma FilterFed(p: Params, d: Dir, c: Cycle)
    ensures OnCycle(p, d, c).bw == Update(Max, d.bw, WND_BW_MAX_NS, Sample(c.now, Bw(p, c)))
  {
    hide Update, BdpToSize, BwSample;
  }

  lemma CycleProgress(p: Params, d: Dir, c: Cycle, k: Peak, now: int)
    requires Growing(d) && Recalls(d.bw, k, now) && now <= c.now && CycleOk(p, k, c)
    ensures var d' := OnCycle(p, d, c);
            && (d'.phase == Track || (Growing(d') && RoundsLeft(d') < RoundsLeft(d)))
            && Recalls(d'.bw, Raised(k, Bw(p, c), c.now), c.now)
  {
    hide OnCycle, Bw, TriplingsLeft, PhaseStartup, Demand, Update, Recalls, Recent;
    var d1 := StartupCycle(p, d, c);
    FilterFed(p, d, c);
    UpdateRecalls(d.bw, k, now, Sample(c.now, Bw(p, c)));
    RoundProgress(d1, Demand(p, c));
  }

  /** A STARTUP epoch ends: within RoundsLeft(d) accepted PONGs of modest demand,
      each with some bandwidth known, the direction has been in TRACK. */
  lemma {:induction false} StartupEnds(p: Params, d: Dir, cs: seq<Cycle>, peak: Peak, now: int) returns (k: nat)
    requires Growing(d) && Recalls(d.bw, peak, now)
    requires Rising(now, cs) && AllOk(p, peak, cs)
    requires |cs| >= RoundsLeft(d)
    ensures k <= RoundsLeft(d) && k <= |cs| && AfterCycles(p, d, cs[..k]).phase == Track
    decreases |cs|
  {
    hide OnCycle, RoundsLeft, CycleOk, Recalls, Bw, Raised, Growing;
    RoundsLeftPositive(d);
    var c := cs[0];
    var d' := OnCycle(p, d, c);
    CycleProgress(p, d, c, peak, now);
    if d'.phase == Track {
      k := 1;
      assert cs[..1] == [c] && [c][1..] == [];
    } else {
      var j := StartupEnds(p, d', cs[1..], Raised(peak, Bw(p, c), c.now), c.now);
      k := j + 1;
      assert cs[..k][0] == c && cs[..k][1..] == cs[1..][..j];
    }
  }

  /** PONGs that all show some bandwidth are such a row, whatever was known before. */
  lemma {:induction false} AllNonZero(p: Params, k: Peak, cs: seq<Cycle>)
    requires forall i :: 0 <= i < |cs| ==> Bw(p, cs[i]) > 0 && Modest(Demand(p, cs[i]))
    ensures AllOk(p, k, cs)
    decreases |cs|
  {
    hide Bw, Demand;
    if cs != [] { AllNonZero(p, Raised(k, Bw(p, cs[0]), cs[0].now), cs[1..]); }
  }

  /** So are PONGs of one window of the filter, once one showed some bandwidth. */
  lemma {:induction false} AllInWindow(p: Params, k: Peak, cs: seq<Cycle>, t: int)
    requires forall i :: 0 <= i < |cs| ==> t <= cs[i].now <= t + WND_BW_MAX_NS && Modest(Demand(p, cs[i]))
    requires if k.bw > 0 then k.since >= t else cs != [] && Bw(p, cs[0]) > 0
    ensures AllOk(p, k, cs)
    decreases |cs|
  {
    hide Bw, Demand;
    if |cs| > 1 || k.bw > 0 {
      if cs != [] { AllInWindow(p, Raised(k, Bw(p, cs[0]), cs[0].now), cs[1..], t); }
    }
  }

  lemma RoundsLeftPositive(d: Dir)
    requires Growing(d)
    ensures RoundsLeft(d) >= 1
  {
  }

  function Pow3(k: nat): nat { if k == 0 then 1 else 3 * Pow3(k - 1) }

  lemma {:induction false} TriplingsBound(effective: nat, k: nat)
    requires effective > 0 && effective * Pow3(k) >= WNDSIZE_MAX
    ensures TriplingsLeft(effective) <= k
    decreases k
  {
    if effective < WNDSIZE_MAX {
      assert k > 0;
      if effective <= WNDSIZE_MAX / STARTUP_GROWTH_FACTOR {
        assert effective * 3 * Pow3(k - 1) == effective * Pow3(k);
        TriplingsBound(effective * 3, k - 1);
      } else {
        assert TriplingsLeft(WNDSIZE_MAX) == 0;
      }
    }
  }

  /** From any window an estimator is seeded with, at most 160 rounds. */
  lemma SeededRounds(d: Dir)
    requires Growing(d) && d.effective >= WNDSIZE_MIN
    ensures RoundsLeft(d) <= 160
  {
    hide TriplingsLeft;
    assert Pow3(9) == 19683 by {
      assert Pow3(3) == 27;
      assert Pow3(6) == 27 * Pow3(3);
      assert Pow3(9) == 27 * Pow3(6);
    }
    assert d.effective * 19683 >= WNDSIZE_MAX;
    TriplingsBound(d.effective, 9);
  }

  /** From whatever window STARTUP is entered again, at most 320. */
  lemma ReenteredRounds(d: Dir)
    requires Growing(d)
    ensures RoundsLeft(d) <= 320
  {
    hide TriplingsLeft;
    assert Pow3(19) >= WNDSIZE_MAX by {
      assert Pow3(3) == 27;
      assert Pow3(6) == 27 * Pow3(3);
      assert Pow3(9) == 27 * Pow3(6);
      assert Pow3(12) == 27 * Pow3(9);
      assert Pow3(15) == 27 * Pow3(12);
      assert Pow3(18) == 27 * Pow3(15);
    }
    assert d.effective * Pow3(19) >= Pow3(19);
    TriplingsBound(d.effective, 19);
  }

  // ---- Over whole runs ---------------------------------------------------------

  function DirOf(e: Est, isRx: bool): Dir { if isRx then e.rx else e.tx }

  predicate Used(r: Run, ev: Event) { ev.Pong? && Matches(r.est, ev.sentNs) && ev.now > ev.sentNs }

  /** The PONG of a run as one direction sees it. */
  function CycleAt(r: Run, ev: Event, isRx: bool): Cycle
    requires Used(r, ev)
  {
    var rtt := ev.now - ev.sentNs;
    Cycle(DirOf(r.est, isRx).sample, rtt, Get(Update(Min, r.est.rttWnd, WND_RTT_MIN_NS, Sample(ev.now, rtt))), ev.now)
  }

  /** The accepted PONGs of a run, in order. */
  function Cycles(p: Params, r: Run, evs: seq<Event>, isRx: bool): seq<Cycle>
    decreases |evs|
  {
    if evs == [] then []
    else (if Used(r, evs[0]) then [CycleAt(r, evs[0], isRx)] else []) +
         Cycles(p, EstimatorRuns.Step(p, r, evs[0]), evs[1..], isRx)
  }

  /** A direction but for the bytes it is counting. */
  function Core(d: Dir): Dir { d.(sample := 0) }

  /** Only an accepted PONG moves a direction, and it moves it by one cycle. */
  lemma StepCore(p: Params, r: Run, ev: Event, isRx: bool)
    ensures !Used(r, ev) ==> Core(DirOf(EstimatorRuns.Step(p, r, ev).est, isRx)) == Core(DirOf(r.est, isRx))
    ensures Used(r, ev) ==>
              Core(DirOf(EstimatorRuns.Step(p, r, ev).est, isRx)) ==
              Core(OnCycle(p, DirOf(r.est, isRx), CycleAt(r, ev, isRx)))
  {
    hide CalcDir, Update, Wrap;
  }

  lemma CoreOnly(d: Dir, e: Dir)
    requires Core(d) == Core(e)
    ensures Growing(d) <==> Growing(e)
    ensures Growing(d) ==> RoundsLeft(d) == RoundsLeft(e)
    ensures d.phase == e.phase
  {
  }

  /** Over every run: once as many PONGs as the window allows have been accepted,
      each of modest demand and with some bandwidth known, the direction has been
      in TRACK. */
  lemma {:induction false} RunLeavesStartup(p: Params, r: Run, evs: seq<Event>, isRx: bool, peak: Peak) returns (j: nat)
    requires Growing(DirOf(r.est, isRx)) && Recalls(DirOf(r.est, isRx).bw, peak, r.clock)
    requires ClocksOk(p, r, evs) && AllOk(p, peak, Cycles(p, r, evs, isRx))
    requires |Cycles(p, r, evs, isRx)| >= RoundsLeft(DirOf(r.est, isRx))
    ensures j <= |evs| && DirOf(Play(p, r, evs[..j]).est, isRx).phase == Track
    decreases |evs|
  {
    hide OnCycle, RoundsLeft, CycleOk, CycleAt, Used, EstimatorRuns.Step, Growing, Recalls, Raised, Bw, ClockOk;
    var d := DirOf(r.est, isRx);
    RoundsLeftPositive(d);
    assert evs != [];
    var ev, next := evs[0], EstimatorRuns.Step(p, r, evs[0]);
    var e := DirOf(next.est, isRx);
    var cs, more := Cycles(p, r, evs, isRx), Cycles(p, next, evs[1..], isRx);
    var peak' := peak;
    StepCore(p, r, ev, isRx);
    StepClock(p, r, ev);
    if Used(r, ev) {
      var c := CycleAt(r, ev, isRx);
      assert cs == [c] + more && cs[1..] == more;
      CycleNow(r, ev, isRx);
      peak' := Raised(peak, Bw(p, c), c.now);
      CycleProgress(p, d, c, peak, r.clock);
      CoreOnly(e, OnCycle(p, d, c));
    } else {
      assert cs == more;
      CoreOnly(e, d);
      LaterRecalls(d.bw, peak, r.clock, next.clock);
    }
    if e.phase == Track {
      j := 1;
      assert evs[..1] == [ev] && [ev][1..] == [];
    } else {
      var k := RunLeavesStartup(p, next, evs[1..], isRx, peak');
      j := k + 1;
      assert evs[..j][0] == ev && evs[..j][1..] == evs[1..][..k];
    }
  }

  lemma StepClock(p: Params, r: Run, ev: Event)
    requires ClockOk(r, ev)
    ensures r.clock <= EstimatorRuns.Step(p, r, ev).clock
    ensures Used(r, ev) ==> EstimatorRuns.Step(p, r, ev).clock == ev.now
  {
  }

  lemma CycleNow(r: Run, ev: Event, isRx: bool)
    requires Used(r, ev)
    ensures CycleAt(r, ev, isRx).now == ev.now
  {
  }

  lemma LaterRecalls(f: Filter, k: Peak, now: int, later: int)
    requires Recalls(f, k, now) && now <= later
    ensures Recalls(f, k, later)
  {
  }

  /** A filter not in use is empty; in one in use the slots are in the order of
      their times, and of their values the other way round. */
  predicate SlotsOrdered(f: Filter, now: int) {
    if f.ready then f.s0.t <= f.s1.t <= f.s2.t <= now && f.s0.v >= f.s1.v >= f.s2.v >= 0 else f == EMPTY
  }

  lemma UpdateOrdered(f: Filter, now: int, x: Sample)
    requires SlotsOrdered(f, now) && now <= x.t && x.v >= 0
    ensures SlotsOrdered(Update(Max, f, WND_BW_MAX_NS, x), x.t)
  {
  }

  lemma {:induction false} RunOrdered(p: Params, r: Run, evs: seq<Event>, isRx: bool)
    requires ClocksOk(p, r, evs) && SlotsOrdered(DirOf(r.est, isRx).bw, r.clock)
    ensures var s := Play(p, r, evs); SlotsOrdered(DirOf(s.est, isRx).bw, s.clock)
    decreases |evs|
  {
    hide OnCycle, CycleAt, Used, EstimatorRuns.Step, Update, Bw, ClockOk;
    if evs != [] {
      var d, ev := DirOf(r.est, isRx), evs[0];
      StepCore(p, r, ev, isRx);
      StepClock(p, r, ev);
      if Used(r, ev) {
        var c := CycleAt(r, ev, isRx);
        CycleNow(r, ev, isRx);
        FilterFed(p, d, c);
        UpdateOrdered(d.bw, r.clock, Sample(c.now, Bw(p, c)));
      }
      RunOrdered(p, EstimatorRuns.Step(p, r, ev), evs[1..], isRx);
    }
  }

  /** What the filter itself says of the peak. */
  function PeakOf(f: Filter): Peak { Peak(if f.s0.v > 0 then f.s0.v else 0, f.s0.t) }

  lemma OrderedRecalls(f: Filter, now: int)
    requires SlotsOrdered(f, now)
    ensures Recalls(f, PeakOf(f), now)
  {
  }

  /** From every reachable state: a direction in STARTUP has been in TRACK once 320
      PONGs of modest demand have been accepted, each with some bandwidth known. */
  lemma EveryEpochEnds(p: Params, bdp: nat, before: seq<Event>, evs: seq<Event>, isRx: bool) returns (j: nat)
    requires Plausible(p) && bdp <= p.sizeMax && ClocksOk(p, Begin(bdp), before)
    requires var r := Play(p, Begin(bdp), before);
             && DirOf(r.est, isRx).phase == Startup && ClocksOk(p, r, evs)
             && AllOk(p, PeakOf(DirOf(r.est, isRx).bw), Cycles(p, r, evs, isRx))
             && |Cycles(p, r, evs, isRx)| >= 320
    ensures j <= |evs| && DirOf(Play(p, Play(p, Begin(bdp), before), evs[..j]).est, isRx).phase == Track
  {
    hide Play, Cycles, AllOk, ClocksOk, RoundsLeft, PeakOf, Recalls, ProbeState, OncePerPing, Spaced, Conserves;
    var r := Play(p, Begin(bdp), before);
    var d := DirOf(r.est, isRx);
    BeginInv(p, bdp);
    EveryRun(p, Begin(bdp), before);
    RunOrdered(p, Begin(bdp), before, isRx);
    OrderedRecalls(d.bw, r.clock);
    ReenteredRounds(d);
    j := RunLeavesStartup(p, r, evs, isRx, PeakOf(d.bw));
  }
}
