/** Exactly which steady demand lets STARTUP end, over rows of PONGs and over whole
    runs, and runs in which it never does. */
module EstimatorSteady {
  import opened Basics
  import opened WndFilter
  import opened EstimatorSpec
  import opened EstimatorRuns
  import opened EstimatorStartup

  /** The direction after the first `n` of an endless row of PONGs. */
  function Nth(p: Params, d: Dir, cycle: nat -> Cycle, n: nat): Dir {
    if n == 0 then d else OnCycle(p, Nth(p, d, cycle, n - 1), cycle(n - 1))
  }

  /** Every PONG shows some bandwidth and the same demand. */
  ghost predicate Steady(p: Params, cycle: nat -> Cycle, demand: nat) {
    forall i :: Bw(p, cycle(i)) > 0 && Demand(p, cycle(i)) == demand
  }

  /** The current window or the largest one has headroom for the demand. */
  predicate EventuallyFits(d: Dir, demand: nat) {
    demand + demand / 2 <= WNDSIZE_MAX || demand + demand / 2 <= d.effective
  }

  lemma StuckCycle(p: Params, d: Dir, c: Cycle)
    requires Growing(d) && Bw(p, c) > 0 && !EventuallyFits(d, Demand(p, c))
    ensures Growing(OnCycle(p, d, c)) && !EventuallyFits(OnCycle(p, d, c), Demand(p, c))
  {
    hide OnCycle, Bw, Demand, Update;
    var d1 := StartupCycle(p, d, c);
    FilterAtLeast(d.bw, WND_BW_MAX_NS, Sample(c.now, Bw(p, c)));
    OutgrowsIff(Demand(p, c), d.effective);
  }

  lemma SettleCycle(p: Params, d: Dir, c: Cycle)
    requires Growing(d) && Bw(p, c) > 0 && EventuallyFits(d, Demand(p, c))
    ensures var d' := OnCycle(p, d, c);
            d'.phase == Track ||
            (Growing(d') && EventuallyFits(d', Demand(p, c)) && RoundsLeft(d') < RoundsLeft(d))
  {
    hide OnCycle, Bw, Demand, Update;
    var d1 := StartupCycle(p, d, c);
    FilterAtLeast(d.bw, WND_BW_MAX_NS, Sample(c.now, Bw(p, c)));
    OutgrowsIff(Demand(p, c), d.effective);
  }

  /** Never leaving: the window is never large enough for the demand. */
  lemma {:induction false} StuckForever(p: Params, d: Dir, cycle: nat -> Cycle, demand: nat, n: nat)
    requires Growing(d) && Steady(p, cycle, demand) && !EventuallyFits(d, demand)
    ensures Growing(Nth(p, d, cycle, n)) && !EventuallyFits(Nth(p, d, cycle, n), demand)
  {
    hide OnCycle, Bw, Demand, Growing, EventuallyFits;
    if n > 0 {
      StuckForever(p, d, cycle, demand, n - 1);
      assert Demand(p, cycle(n - 1)) == demand;
      StuckCycle(p, Nth(p, d, cycle, n - 1), cycle(n - 1));
    }
  }

  lemma {:induction false} SettledAfter(p: Params, d: Dir, cycle: nat -> Cycle, demand: nat) returns (n: nat)
    requires Growing(d) && Steady(p, cycle, demand) && EventuallyFits(d, demand)
    ensures n <= RoundsLeft(d) && Nth(p, d, cycle, n).phase == Track
  {
    hide RoundsLeft, OnCycle, Bw, Demand, EventuallyFits;
    n := 0;
    var at := d;
    while at.phase == Startup
      invariant at == Nth(p, d, cycle, n)
      invariant at.phase == Startup ==> Growing(at) && EventuallyFits(at, demand) && RoundsLeft(at) + n <= RoundsLeft(d)
      invariant n <= RoundsLeft(d)
      decreases at.phase == Startup, RoundsLeft(d) - n
    {
      RoundsLeftPositive(at);
      assert Demand(p, cycle(n)) == demand;
      SettleCycle(p, at, cycle(n));
      at := OnCycle(p, at, cycle(n));
      n := n + 1;
    }
  }

  /** A steady demand lets STARTUP end if and only if one and a half times the
      demand fits the larger of the current window and the protocol cap; and then
      within the rounds the window leaves. */
  lemma SteadyDemandEndsIff(p: Params, d: Dir, cycle: nat -> Cycle, demand: nat)
    requires Growing(d) && Steady(p, cycle, demand)
    ensures (exists n: nat :: Nth(p, d, cycle, n).phase == Track) <==> EventuallyFits(d, demand)
    ensures EventuallyFits(d, demand) ==> exists n: nat :: n <= RoundsLeft(d) && Nth(p, d, cycle, n).phase == Track
  {
    hide Nth, EventuallyFits, Steady, RoundsLeft;
    if EventuallyFits(d, demand) {
      var n := SettledAfter(p, d, cycle, demand);
    } else {
      forall n: nat ensures Nth(p, d, cycle, n).phase == Startup {
        StuckForever(p, d, cycle, demand, n);
      }
    }
  }

  // ---- Over whole runs ---------------------------------------------------------

  /** Every accepted PONG of a run shows some bandwidth and the same demand. */
  ghost predicate SteadyRun(p: Params, cs: seq<Cycle>, demand: nat) {
    forall i :: 0 <= i < |cs| ==> Bw(p, cs[i]) > 0 && Demand(p, cs[i]) == demand
  }

  lemma CyclesCons(p: Params, r: Run, evs: seq<Event>, isRx: bool)
    requires evs != []
    ensures var cs, more := Cycles(p, r, evs, isRx), Cycles(p, EstimatorRuns.Step(p, r, evs[0]), evs[1..], isRx);
            if Used(r, evs[0]) then cs == [CycleAt(r, evs[0], isRx)] + more && cs[1..] == more else cs == more
  {
    hide EstimatorRuns.Step, CycleAt, Used;
  }

  lemma FitsCore(d: Dir, e: Dir, demand: nat)
    requires Core(d) == Core(e)
    ensures EventuallyFits(d, demand) <==> EventuallyFits(e, demand)
  {
  }

  lemma SteadyTail(p: Params, cs: seq<Cycle>, demand: nat)
    requires SteadyRun(p, cs, demand) && cs != []
    ensures SteadyRun(p, cs[1..], demand) && Bw(p, cs[0]) > 0 && Demand(p, cs[0]) == demand
  {
    hide Bw, Demand;
  }

  lemma {:induction false} RunStuck(p: Params, r: Run, evs: seq<Event>, isRx: bool, demand: nat)
    requires Growing(DirOf(r.est, isRx)) && !EventuallyFits(DirOf(r.est, isRx), demand)
    requires SteadyRun(p, Cycles(p, r, evs, isRx), demand)
    ensures Growing(DirOf(Play(p, r, evs).est, isRx))
    decreases |evs|
  {
    hide OnCycle, CycleAt, Used, EstimatorRuns.Step, Growing, EventuallyFits, Cycles, SteadyRun, Bw, Demand, Core;
    if evs != [] {
      var d, ev, next := DirOf(r.est, isRx), evs[0], EstimatorRuns.Step(p, r, evs[0]);
      StepCore(p, r, ev, isRx);
      CyclesCons(p, r, evs, isRx);
      var moved := d;
      if Used(r, ev) {
        var c := CycleAt(r, ev, isRx);
        SteadyTail(p, Cycles(p, r, evs, isRx), demand);
        StuckCycle(p, d, c);
        moved := OnCycle(p, d, c);
      }
      CoreOnly(DirOf(next.est, isRx), moved);
      FitsCore(DirOf(next.est, isRx), moved, demand);
      RunStuck(p, next, evs[1..], isRx, demand);
    }
  }

  lemma {:induction false} RunSettles(p: Params, r: Run, evs: seq<Event>, isRx: bool, demand: nat) returns (j: nat)
    requires Growing(DirOf(r.est, isRx)) && EventuallyFits(DirOf(r.est, isRx), demand)
    requires SteadyRun(p, Cycles(p, r, evs, isRx), demand)
    requires |Cycles(p, r, evs, isRx)| >= RoundsLeft(DirOf(r.est, isRx))
    ensures j <= |evs| && DirOf(Play(p, r, evs[..j]).est, isRx).phase == Track
    decreases |evs|
  {
    hide OnCycle, CycleAt, Used, EstimatorRuns.Step, Growing, EventuallyFits, SteadyRun, Bw, Demand, Core, RoundsLeft;
    var d := DirOf(r.est, isRx);
    RoundsLeftPositive(d);
    assert evs != [];
    hide Cycles;
    var ev, next := evs[0], EstimatorRuns.Step(p, r, evs[0]);
    StepCore(p, r, ev, isRx);
    CyclesCons(p, r, evs, isRx);
    var moved := d;
    if Used(r, ev) {
      var c := CycleAt(r, ev, isRx);
      SteadyTail(p, Cycles(p, r, evs, isRx), demand);
      SettleCycle(p, d, c);
      moved := OnCycle(p, d, c);
    }
    var e := DirOf(next.est, isRx);
    CoreOnly(e, moved);
    FitsCore(e, moved, demand);
    if e.phase == Track {
      j := 1;
      assert evs[..1] == [ev] && [ev][1..] == [];
    } else {
      var k := RunSettles(p, next, evs[1..], isRx, demand);
      j := k + 1;
      assert evs[..j][0] == ev && evs[..j][1..] == evs[1..][..k];
    }
  }

  lemma {:induction false} CyclesPrefix(p: Params, r: Run, evs: seq<Event>, j: nat, isRx: bool)
    requires j <= |evs|
    ensures Cycles(p, r, evs[..j], isRx) <= Cycles(p, r, evs, isRx)
    decreases j
  {
    hide Cycles, EstimatorRuns.Step, CycleAt, Used;
    if j == 0 {
      assert Cycles(p, r, evs[..0], isRx) == [] by { NoCycles(p, r, evs[..0], isRx); }
    } else {
      CyclesPrefix(p, EstimatorRuns.Step(p, r, evs[0]), evs[1..], j - 1, isRx);
      assert evs[..j][1..] == evs[1..][..j - 1];
      CyclesCons(p, r, evs[..j], isRx);
      CyclesCons(p, r, evs, isRx);
    }
  }

  lemma NoCycles(p: Params, r: Run, evs: seq<Event>, isRx: bool)
    requires evs == []
    ensures Cycles(p, r, evs, isRx) == []
  {
  }

  /** Over every run with one demand and enough accepted PONGs: the direction leaves
      STARTUP if and only if the demand fits the current window or the largest one. */
  lemma SteadyRunEndsIff(p: Params, r: Run, evs: seq<Event>, isRx: bool, demand: nat)
    requires Growing(DirOf(r.est, isRx)) && SteadyRun(p, Cycles(p, r, evs, isRx), demand)
    requires |Cycles(p, r, evs, isRx)| >= RoundsLeft(DirOf(r.est, isRx))
    ensures (exists j :: 0 <= j <= |evs| && DirOf(Play(p, r, evs[..j]).est, isRx).phase == Track) <==>
            EventuallyFits(DirOf(r.est, isRx), demand)
  {
    hide Cycles, Play, EventuallyFits, RoundsLeft, Bw, Demand;
    if EventuallyFits(DirOf(r.est, isRx), demand) {
      var j := RunSettles(p, r, evs, isRx, demand);
    } else {
      forall j | 0 <= j <= |evs| ensures DirOf(Play(p, r, evs[..j]).est, isRx).phase == Startup {
        CyclesPrefix(p, r, evs, j, isRx);
        RunStuck(p, r, evs[..j], isRx, demand);
      }
    }
  }

  // ---- A demand that never ends ----------------------------------------------------

  const GIGABYTE := 1_000_000_000

  /** From one PING to the next. */
  function Gap(p: Params): int { NANO + p.startupInterval + p.rateLimit }

  /** A gigabyte reported with each PING, and its PONG a second later. */
  function Flood(p: Params, t: int, n: nat): seq<Event>
    decreases n
  {
    if n == 0 then []
    else [Report(true, GIGABYTE, t, true), Pong(t, t + NANO)] + Flood(p, t + Gap(p), n - 1)
  }

  lemma FloodDemand(p: Params, c: Cycle)
    requires Plausible(p) && c.sample == GIGABYTE && c.rtt == NANO && c.rttMin == NANO
    ensures Bw(p, c) == GIGABYTE && Demand(p, c) == GIGABYTE
  {
    assert GIGABYTE as real * NANO as real / 1000000000.0 == GIGABYTE as real;
  }

  /** No PING is in flight, and none of the rounds so far left room. */
  ghost predicate Flooded(p: Params, r: Run, t: int) {
    && !r.est.inFlight && r.clock <= t && 1 <= t
    && (r.est.lastProbe == 0 || t - r.est.lastProbe >= p.startupInterval + p.rateLimit)
    && Growing(r.est.rx) && !EventuallyFits(r.est.rx, GIGABYTE)
    && (r.est.rttWnd.ready ==> Within(r.est.rttWnd, NANO, NANO))
  }

  /** The report sends a PING. */
  lemma FloodPing(p: Params, r: Run, t: int)
    requires Plausible(p) && Flooded(p, r, t)
    ensures var s := EstimatorRuns.Step(p, r, Report(true, GIGABYTE, t, true));
            && s.clock == t && s.est.inFlight && s.est.lastProbe == t && s.est.rx.sample == GIGABYTE
            && s.est.rttWnd == r.est.rttWnd && Core(s.est.rx) == Core(r.est.rx) && s.accepted == r.accepted
            && s.pings == r.pings + [t]
  {
    assert Wrap(p, GIGABYTE) == GIGABYTE;
  }

  lemma FloodPong(p: Params, s: Run, t: int)
    requires Plausible(p) && s.clock == t && 1 <= t && s.est.inFlight && s.est.lastProbe == t
    requires s.est.rx.sample == GIGABYTE && Growing(s.est.rx) && !EventuallyFits(s.est.rx, GIGABYTE)
    requires s.est.rttWnd.ready ==> Within(s.est.rttWnd, NANO, NANO)
    ensures var u := EstimatorRuns.Step(p, s, Pong(t, t + NANO));
            Flooded(p, u, t + Gap(p)) && |u.accepted| == |s.accepted| + 1
  {
    hide Update, OnCycle, Bw, Demand, Growing, EventuallyFits, CalcDir;
    var ev := Pong(t, t + NANO);
    UpdateWithin(Min, s.est.rttWnd, WND_RTT_MIN_NS, Sample(t + NANO, NANO), NANO, NANO);
    var c := CycleAt(s, ev, true);
    FloodDemand(p, c);
    StuckCycle(p, s.est.rx, c);
    StepCore(p, s, ev, true);
    var u := EstimatorRuns.Step(p, s, ev);
    CoreOnly(u.est.rx, OnCycle(p, s.est.rx, c));
    FitsCore(u.est.rx, OnCycle(p, s.est.rx, c), GIGABYTE);
  }

  lemma FloodRound(p: Params, r: Run, t: int)
    requires Plausible(p) && Flooded(p, r, t)
    ensures var s := EstimatorRuns.Step(p, r, Report(true, GIGABYTE, t, true));
            var u := EstimatorRuns.Step(p, s, Pong(t, t + NANO));
            s.clock == t && Flooded(p, u, t + Gap(p)) && |u.accepted| == |r.accepted| + 1
  {
    hide EstimatorRuns.Step, Growing, EventuallyFits;
    FloodPing(p, r, t);
    var s := EstimatorRuns.Step(p, r, Report(true, GIGABYTE, t, true));
    CoreOnly(s.est.rx, r.est.rx);
    FitsCore(s.est.rx, r.est.rx, GIGABYTE);
    FloodPong(p, s, t);
  }

  lemma PlayTwo(p: Params, r: Run, a: Event, b: Event, rest: seq<Event>)
    ensures var s := EstimatorRuns.Step(p, r, a); var u := EstimatorRuns.Step(p, s, b);
            && Play(p, r, [a, b] + rest) == Play(p, u, rest)
            && (ClockOk(r, a) && ClockOk(s, b) && ClocksOk(p, u, rest) ==> ClocksOk(p, r, [a, b] + rest))
  {
    hide EstimatorRuns.Step, ClockOk;
    var evs := [a, b] + rest;
    assert evs[1..] == [b] + rest && evs[1..][1..] == rest;
  }

  lemma {:induction false} FloodPlays(p: Params, r: Run, t: int, n: nat)
    requires Plausible(p) && Flooded(p, r, t) && t + n * Gap(p) <= INT64_MAX
    ensures ClocksOk(p, r, Flood(p, t, n))
    ensures var s := Play(p, r, Flood(p, t, n));
            s.est.rx.phase == Startup && |s.accepted| == |r.accepted| + n
    decreases n
  {
    hide EstimatorRuns.Step, Play, ClocksOk;
    if n == 0 {
      NothingPlayed(p, r);
    } else {
      var a, b := Report(true, GIGABYTE, t, true), Pong(t, t + NANO);
      var s := EstimatorRuns.Step(p, r, a);
      var u := EstimatorRuns.Step(p, s, b);
      FloodRound(p, r, t);
      assert n * Gap(p) == Gap(p) + (n - 1) * Gap(p);
      assert (n - 1) * Gap(p) >= 0;
      FloodPlays(p, u, t + Gap(p), n - 1);
      PlayTwo(p, r, a, b, Flood(p, t + Gap(p), n - 1));
    }
  }

  lemma NothingPlayed(p: Params, r: Run)
    ensures Play(p, r, []) == r && ClocksOk(p, r, [])
  {
  }

  /** A gigabyte a second over a round trip of one second, from a fresh estimator on:
      for as many rounds as the clock can count every PONG is accepted, and STARTUP
      does not end. */
  lemma FloodNeverEnds(p: Params, n: nat)
    requires Plausible(p) && 1 + n * Gap(p) <= INT64_MAX
    ensures ClocksOk(p, Begin(0), Flood(p, 1, n))
    ensures var s := Play(p, Begin(0), Flood(p, 1, n));
            s.est.rx.phase == Startup && |s.accepted| == n
  {
    FloodPlays(p, Begin(0), 1, n);
  }

  // ---- No demand at all ---------------------------------------------------------------

  /** A PONG that shows no bandwidth shows no demand either.  It counts as a stable
      round exactly while the filter still remembers some bandwidth, and otherwise
      changes nothing of the phase. */
  lemma IdleCycle(p: Params, d: Dir, c: Cycle)
    requires Growing(d) && Bw(p, c) == 0
    ensures Demand(p, c) == 0
    ensures var d' := OnCycle(p, d, c);
            && d'.effective == d.effective
            && (Get(d'.bw) == 0 ==> d'.phase == Startup && d'.stable == d.stable)
            && (Get(d'.bw) != 0 ==> d'.stable == d.stable + 1 &&
                                    (d'.phase == Track <==> d'.stable == STARTUP_STABLE_ROUNDS))
  {
    hide Update, BdpToSize, BwSample;
    assert 0 as real * c.rttMin as real / 1000000000.0 == 0.0;
    NothingIsNothing(p);
  }

  lemma NothingIsNothing(p: Params)
    ensures BdpToSize(p, 0.0) == 0
  {
  }

  /** Growing, with no bandwidth ever seen. */
  ghost predicate Idle(d: Dir) { Growing(d) && Get(d.bw) == 0 && (d.bw.ready ==> Within(d.bw, 0, 0)) }

  lemma IdleStays(p: Params, d: Dir, c: Cycle)
    requires Idle(d) && Bw(p, c) == 0
    ensures Idle(OnCycle(p, d, c))
  {
    hide OnCycle, Bw, Update;
    UpdateWithin(Max, d.bw, WND_BW_MAX_NS, Sample(c.now, 0), 0, 0);
    FilterFed(p, d, c);
    IdleCycle(p, d, c);
  }

  /** Without any bandwidth STARTUP does not end, over every run. */
  lemma {:induction false} IdleNeverEnds(p: Params, r: Run, evs: seq<Event>, isRx: bool)
    requires Idle(DirOf(r.est, isRx))
    requires forall i :: 0 <= i < |Cycles(p, r, evs, isRx)| ==> Bw(p, Cycles(p, r, evs, isRx)[i]) == 0
    ensures Idle(DirOf(Play(p, r, evs).est, isRx))
    decreases |evs|
  {
    hide OnCycle, CycleAt, Used, EstimatorRuns.Step, Cycles, Bw, Core;
    if evs != [] {
      var d, ev, next := DirOf(r.est, isRx), evs[0], EstimatorRuns.Step(p, r, evs[0]);
      var cs, more := Cycles(p, r, evs, isRx), Cycles(p, next, evs[1..], isRx);
      StepCore(p, r, ev, isRx);
      CyclesCons(p, r, evs, isRx);
      assert forall i :: 0 <= i < |more| ==> more[i] in cs;
      var moved := d;
      if Used(r, ev) {
        assert cs[0] == CycleAt(r, ev, isRx);
        IdleStays(p, d, CycleAt(r, ev, isRx));
        moved := OnCycle(p, d, CycleAt(r, ev, isRx));
      }
      IdleCore(DirOf(next.est, isRx), moved);
      IdleNeverEnds(p, next, evs[1..], isRx);
    }
  }

  /** Every session begins so. */
  lemma BeginsIdle(bdp: nat, isRx: bool)
    ensures Idle(DirOf(Begin(bdp).est, isRx))
  {
  }

  lemma IdleCore(d: Dir, e: Dir)
    requires Core(d) == Core(e)
    ensures Idle(d) <==> Idle(e)
  {
  }
}
