/** Whole runs of the estimator: every interleaving of byte reports, PONGs and
    suspends over a non-decreasing positive clock. */
module EstimatorRuns {
  import opened Basics
  import opened WndFilter
  import opened EstimatorSpec

  datatype Event =
    | Report(rx: bool, bytes: nat, now: int, sendOk: bool)
    | Pong(sentNs: int, now: int)
    | Suspend

  /** A PONG the estimator used, and the bytes it consumed per direction. */
  datatype Accepted = Accepted(sentNs: int, rxBytes: nat, txBytes: nat, rxReported: nat, txReported: nat)

  /** A run so far: the state, the clock, the PINGs sent, the bytes reported
      per direction since the last of them, and the PONGs used. */
  datatype Run = Run(
    est: Est,
    clock: int,
    pings: seq<int>,
    rxSince: nat,
    txSince: nat,
    accepted: seq<Accepted>)

  function Begin(bdp: nat): Run { Run(Init(bdp), 0, [], 0, 0, []) }

  /** The clock is positive and does not run backwards. */
  predicate ClockOk(r: Run, ev: Event) {
    ev.Suspend? || (r.clock <= ev.now && 1 <= ev.now <= INT64_MAX)
  }

  function Step(p: Params, r: Run, ev: Event): Run {
    match ev
    case Suspend => r.(est := Abandon(r.est))
    case Report(rx, bytes, now, sendOk) =>
      var probe := ProbeCycle(p, r.est, rx, bytes, now, sendOk);
      var rx0 := if probe.pinged then 0 else r.rxSince;
      var tx0 := if probe.pinged then 0 else r.txSince;
      r.(est := probe.est, clock := now,
         pings := if probe.pinged then r.pings + [now] else r.pings,
         rxSince := if rx then rx0 + bytes else rx0,
         txSince := if rx then tx0 else tx0 + bytes)
    case Pong(sentNs, now) =>
      var used := Matches(r.est, sentNs) && now > sentNs;
      r.(est := Calculate(p, r.est, sentNs, now), clock := now,
         accepted := if used
                     then r.accepted + [Accepted(sentNs, r.est.rx.sample, r.est.tx.sample, r.rxSince, r.txSince)]
                     else r.accepted)
  }

  function Play(p: Params, r: Run, evs: seq<Event>): Run
    decreases |evs|
  {
    if evs == [] then r else Play(p, Step(p, r, evs[0]), evs[1..])
  }

  predicate ClocksOk(p: Params, r: Run, evs: seq<Event>)
    decreases |evs|
  {
    evs != [] ==> ClockOk(r, evs[0]) && ClocksOk(p, Step(p, r, evs[0]), evs[1..])
  }

  // ---- The invariant of every run --------------------------------------------

  /** Consecutive PINGs are at least the smaller interval apart. */
  ghost predicate Spaced(p: Params, pings: seq<int>) {
    && (forall i :: 0 <= i < |pings| ==> pings[i] >= 1)
    && (forall i, j :: 0 <= i < j < |pings| ==> pings[j] - pings[i] >= MinInterval(p))
  }

  /** Every PING has at most one accepted PONG, and only a sent one has any. */
  ghost predicate OncePerPing(r: Run) {
    && (forall i :: 0 <= i < |r.accepted| ==> r.accepted[i].sentNs in r.pings)
    && (forall i, j :: 0 <= i < j < |r.accepted| ==> r.accepted[i].sentNs < r.accepted[j].sentNs)
  }

  /** An accepted PONG consumed exactly what was reported since its PING, as a
      size_t counts it. */
  ghost predicate Conserves(p: Params, a: Accepted) {
    a.rxBytes == Wrap(p, a.rxReported) && a.txBytes == Wrap(p, a.txReported)
  }

  ghost predicate ProbeState(p: Params, r: Run) {
    var e := r.est;
    && 0 <= e.lastProbe <= r.clock <= INT64_MAX
    && (r.pings == [] ==> e.lastProbe == 0 && !e.inFlight)
    && (r.pings != [] ==> e.lastProbe >= r.pings[|r.pings| - 1])
    && (!e.inFlight ==> e.rx.sample == 0 && e.tx.sample == 0)
    && (e.inFlight ==>
          && r.pings != [] && e.lastProbe == r.pings[|r.pings| - 1]
          && e.rx.sample == Wrap(p, r.rxSince)
          && e.tx.sample == Wrap(p, r.txSince)
          && (r.accepted != [] ==> r.accepted[|r.accepted| - 1].sentNs < e.lastProbe))
  }

  ghost predicate Inv(p: Params, r: Run) {
    && EstOk(p, r.est)
    && ProbeState(p, r)
    && Spaced(p, r.pings)
    && OncePerPing(r)
    && (forall i :: 0 <= i < |r.accepted| ==> Conserves(p, r.accepted[i]))
  }

  lemma BeginInv(p: Params, bdp: nat)
    requires Plausible(p) && bdp <= p.sizeMax
    ensures Inv(p, Begin(bdp))
  {
    InitOk(p, bdp);
  }

  /** Adding modulo the word size loses nothing. */
  lemma WrapSum(p: Params, a: nat, b: nat)
    ensures Wrap(p, Wrap(p, a) + b) == Wrap(p, a + b)
    ensures Wrap(p, 0) == 0
  {
    var m := p.sizeMax + 1;
    var x := a % m + b;
    DivMod(a, m);
    DivMod(x, m);
    Distribute(a / m, x / m, m);
    ModUnique(a + b, a / m + x / m, m, x % m);
  }

  lemma DivMod(x: nat, m: nat)
    requires m > 0
    ensures x == (x / m) * m + x % m && 0 <= x % m < m
  {
  }

  lemma Distribute(a: int, b: int, m: int)
    ensures (a + b) * m == a * m + b * m
  {
  }

  lemma SpacedSnoc(p: Params, pings: seq<int>, now: int)
    requires Spaced(p, pings) && now >= 1
    requires pings != [] ==> now - pings[|pings| - 1] >= MinInterval(p) > 0
    ensures Spaced(p, pings + [now])
  {
    forall i | 0 <= i < |pings| ensures now - pings[i] >= MinInterval(p) {
      if i < |pings| - 1 { assert pings[|pings| - 1] - pings[i] >= MinInterval(p); }
    }
  }

  lemma OncePerPingSnoc(r: Run, a: Accepted)
    requires OncePerPing(r) && a.sentNs in r.pings
    requires r.accepted != [] ==> r.accepted[|r.accepted| - 1].sentNs < a.sentNs
    ensures OncePerPing(r.(accepted := r.accepted + [a]))
  {
    forall i | 0 <= i < |r.accepted| ensures r.accepted[i].sentNs < a.sentNs {
      if i < |r.accepted| - 1 { assert r.accepted[i].sentNs < r.accepted[|r.accepted| - 1].sentNs; }
    }
  }

  /** Which clauses of the invariant look at which part of a run. */
  lemma OncePerPingFrame(r: Run, s: Run)
    requires OncePerPing(r) && s.pings == r.pings && s.accepted == r.accepted
    ensures OncePerPing(s)
  {
  }

  lemma ReportProbe(p: Params, r: Run, ev: Event)
    requires Plausible(p) && ProbeState(p, r) && ev.Report? && ClockOk(r, ev)
    requires r.accepted != [] ==> r.accepted[|r.accepted| - 1].sentNs in r.pings
    requires Spaced(p, r.pings)
    ensures ProbeState(p, Step(p, r, ev))
    ensures var q := ProbeCycle(p, r.est, ev.rx, ev.bytes, ev.now, ev.sendOk).pinged;
            q && r.pings != [] ==> ev.now - r.pings[|r.pings| - 1] >= MinInterval(p)
  {
    hide Wrap;
    WrapSum(p, r.rxSince, ev.bytes);
    WrapSum(p, r.txSince, ev.bytes);
    if r.accepted != [] {
      var a := r.accepted[|r.accepted| - 1].sentNs;
      var k :| 0 <= k < |r.pings| && r.pings[k] == a;
      assert a <= r.pings[|r.pings| - 1];
    }
  }

  /** A report sends a PING exactly when it can, none is alive, and the interval of the
      slower rate has passed, or of the faster one while a direction is in STARTUP. */
  lemma PingIff(p: Params, r: Run, ev: Event)
    requires ev.Report?
    ensures var e := r.est;
            var waited := if e.rx.phase == Track && e.tx.phase == Track then p.rateLimit else p.startupInterval;
            Step(p, r, ev).pings == r.pings + [ev.now] <==>
            && ev.sendOk && (e.inFlight ==> ev.now - e.lastProbe >= p.probeTimeout)
            && (e.lastProbe == 0 || ev.now - e.lastProbe >= waited)
  {
    hide Wrap;
    assert r.pings != r.pings + [ev.now];
  }

  lemma ReportInv(p: Params, r: Run, ev: Event)
    requires Plausible(p) && Inv(p, r) && ev.Report? && ClockOk(r, ev)
    ensures Inv(p, Step(p, r, ev))
  {
    hide EstOk, Conserves, Spaced, ProbeCycle, ProbeState;
    ProbeCycleOk(p, r.est, ev.rx, ev.bytes, ev.now, ev.sendOk);
    ReportProbe(p, r, ev);
    var s := Step(p, r, ev);
    if s.pings != r.pings {
      SpacedSnoc(p, r.pings, ev.now);
    }
  }

  lemma PongInv(p: Params, r: Run, ev: Event)
    requires Plausible(p) && Inv(p, r) && ev.Pong? && ClockOk(r, ev)
    ensures Inv(p, Step(p, r, ev))
  {
    hide EstOk, CalcDir, Wrap, Update, OncePerPing, Spaced;
    var s := Step(p, r, ev);
    if !Matches(r.est, ev.sentNs) {
      OncePerPingFrame(r, s);
    } else {
      CalculateOk(p, r.est, ev.sentNs, ev.now);
      if ev.now > ev.sentNs {
        var a := s.accepted[|r.accepted|];
        OncePerPingSnoc(r, a);
        OncePerPingFrame(r.(accepted := r.accepted + [a]), s);
      } else {
        OncePerPingFrame(r, s);
      }
    }
  }

  lemma StepInv(p: Params, r: Run, ev: Event)
    requires Plausible(p) && Inv(p, r) && ClockOk(r, ev)
    ensures Inv(p, Step(p, r, ev))
  {
    match ev
    case Report(_, _, _, _) => ReportInv(p, r, ev);
    case Pong(_, _) => PongInv(p, r, ev);
    case Suspend =>
  }

  /** Over every interleaving: no probe in flight means both samples are zero,
      PINGs are spaced, each has at most one accepted PONG, that PONG consumed
      exactly the bytes reported since, and no bound is ever exceeded. */
  lemma {:induction false} EveryRun(p: Params, r: Run, evs: seq<Event>)
    requires Plausible(p) && Inv(p, r) && ClocksOk(p, r, evs)
    ensures Inv(p, Play(p, r, evs))
    decreases |evs|
  {
    hide Inv, Step;
    if evs != [] {
      StepInv(p, r, evs[0]);
      EveryRun(p, Step(p, r, evs[0]), evs[1..]);
    }
  }

  /** Both windows a session can ever advertise are within the protocol. */
  lemma EveryWindow(p: Params, bdp: nat, evs: seq<Event>)
    requires Plausible(p) && bdp <= p.sizeMax && ClocksOk(p, Begin(bdp), evs)
    ensures var e := Play(p, Begin(bdp), evs).est;
            && WNDSIZE_MIN <= WindowSize(e.rx) <= WNDSIZE_MAX
            && WNDSIZE_MIN <= WindowSize(e.tx) <= WNDSIZE_MAX
            && 0 <= Get(e.rx.bw) <= BW_CAP && 0 <= Get(e.tx.bw) <= BW_CAP
            && WindowSize(e.rx) >= MinOf(Get(e.rx.bw) * WND_FEEDBACK_FLOOR_NS / NANO, WNDSIZE_MAX)
            && WindowSize(e.tx) >= MinOf(Get(e.tx.bw) * WND_FEEDBACK_FLOOR_NS / NANO, WNDSIZE_MAX)
            && (e.rx.phase == Startup ==> e.rx.effective > 0)
            && (e.tx.phase == Startup ==> e.tx.effective > 0)
  {
    hide Play, WindowSize, ProbeState, OncePerPing, Spaced, Conserves;
    BeginInv(p, bdp);
    EveryRun(p, Begin(bdp), evs);
    var e := Play(p, Begin(bdp), evs).est;
    WindowInRange(p, e.rx);
    WindowInRange(p, e.tx);
  }

  // ---- Stale PONGs -----------------------------------------------------------

  /** From `from` on, only PONGs for PINGs later than `bound` were accepted, and
      only such a PING can still be in flight. */
  ghost predicate Fresh(r: Run, from: nat, bound: int) {
    && from <= |r.accepted|
    && (forall i :: from <= i < |r.accepted| ==> r.accepted[i].sentNs > bound)
    && bound <= r.est.lastProbe
    && (r.est.inFlight ==> r.est.lastProbe > bound)
  }

  lemma StepFresh(p: Params, r: Run, ev: Event, from: nat, bound: int)
    requires Plausible(p) && Inv(p, r) && ClockOk(r, ev) && bound >= 1
    requires Fresh(r, from, bound)
    ensures Fresh(Step(p, r, ev), from, bound)
  {
    hide EstOk, CalcDir, Spaced, OncePerPing, Conserves, Wrap, Update;
  }

  /** Once no probe is in flight -- after a suspend or a timed-out probe -- no
      PING sent until then ever has its PONG accepted. */
  lemma {:induction false} StalePongNeverAccepted(p: Params, r: Run, evs: seq<Event>, from: nat, bound: int)
    requires Plausible(p) && Inv(p, r) && ClocksOk(p, r, evs) && bound >= 1
    requires Fresh(r, from, bound)
    ensures Fresh(Play(p, r, evs), from, bound)
    decreases |evs|
  {
    hide Inv, Step, Fresh;
    if evs != [] {
      StepInv(p, r, evs[0]);
      StepFresh(p, r, evs[0], from, bound);
      StalePongNeverAccepted(p, Step(p, r, evs[0]), evs[1..], from, bound);
    }
  }

  lemma AfterSuspend(p: Params, r: Run, evs: seq<Event>, i: nat)
    requires Plausible(p) && Inv(p, r) && r.pings != []
    requires ClocksOk(p, Step(p, r, Suspend), evs)
    requires |r.accepted| <= i < |Play(p, Step(p, r, Suspend), evs).accepted|
    ensures forall k :: 0 <= k < |r.pings| ==>
              Play(p, Step(p, r, Suspend), evs).accepted[i].sentNs > r.pings[k]
  {
    hide Play, ClocksOk, EstOk, Conserves, OncePerPing;
    var s := Step(p, r, Suspend);
    StepInv(p, r, Suspend);
    var bound := r.pings[|r.pings| - 1];
    assert Fresh(s, |r.accepted|, bound);
    StalePongNeverAccepted(p, s, evs, |r.accepted|, bound);
    forall k | 0 <= k < |r.pings| ensures r.pings[k] <= bound {
    }
  }

  /** A probe whose timeout has passed is dead from the next report on. */
  lemma AfterTimeout(p: Params, r: Run, ev: Event, evs: seq<Event>, i: nat)
    requires Plausible(p) && Inv(p, r) && r.est.inFlight
    requires ev.Report? && ClockOk(r, ev) && ev.now - r.est.lastProbe >= p.probeTimeout
    requires ClocksOk(p, Step(p, r, ev), evs)
    requires |r.accepted| <= i < |Play(p, Step(p, r, ev), evs).accepted|
    ensures Play(p, Step(p, r, ev), evs).accepted[i].sentNs > r.est.lastProbe
  {
    hide Play, ClocksOk, EstOk, Conserves, OncePerPing;
    var s := Step(p, r, ev);
    StepInv(p, r, ev);
    assert Fresh(s, |r.accepted|, r.est.lastProbe);
    StalePongNeverAccepted(p, s, evs, |r.accepted|, r.est.lastProbe);
  }
}
