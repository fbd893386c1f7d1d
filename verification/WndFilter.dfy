/** The three-slot windowed extremum filter behind the delivery-rate maximum
    and the round-trip minimum. */
module WndFilter {

  datatype Mode = Max | Min
  datatype Sample = Sample(t: int, v: int)
  datatype Filter = Filter(ready: bool, s0: Sample, s1: Sample, s2: Sample)

  const EMPTY := Filter(false, Sample(0, 0), Sample(0, 0), Sample(0, 0))

  /** `a` is at least as extreme as `b`. */
  predicate Beats(mode: Mode, a: int, b: int) {
    if mode == Max then a >= b else a <= b
  }

  /** The elapsed time as an unsigned 64-bit difference. */
  function TimeDelta(now: int, since: int): int {
    (now - since) % 0x1_0000_0000_0000_0000
  }

  function Get(f: Filter): int { f.s0.v }

  function Reset(x: Sample): Filter { Filter(true, x, x, x) }

  /** subwin_update(): age the slots out as time advances. */
  function Age(f: Filter, wnd: nat, x: Sample): Filter {
    var dt := TimeDelta(x.t, f.s0.t);
    if dt > wnd then
      var g := Filter(f.ready, f.s1, f.s2, x);
      if TimeDelta(x.t, g.s0.t) > wnd then Filter(f.ready, g.s1, g.s2, x) else g
    else if f.s1.t == f.s0.t && dt > wnd / 4 then f.(s1 := x, s2 := x)
    else if f.s2.t == f.s1.t && dt > wnd / 2 then f.(s2 := x)
    else f
  }

  /** wndfilter_update_max() and wndfilter_update_min() */
  function Update(mode: Mode, f: Filter, wnd: nat, x: Sample): Filter {
    if !f.ready || Beats(mode, x.v, f.s0.v) || TimeDelta(x.t, f.s2.t) > wnd then Reset(x)
    else if Beats(mode, x.v, f.s1.v) then Age(f.(s1 := x, s2 := x), wnd, x)
    else if Beats(mode, x.v, f.s2.v) then Age(f.(s2 := x), wnd, x)
    else Age(f, wnd, x)
  }

  /** Feed a whole run of samples to an empty filter. */
  function Feed(mode: Mode, wnd: nat, xs: seq<Sample>): Filter {
    if xs == [] then EMPTY
    else Update(mode, Feed(mode, wnd, xs[..|xs| - 1]), wnd, xs[|xs| - 1])
  }

  predicate Monotone(xs: seq<Sample>) {
    (forall i, j :: 0 <= i <= j < |xs| ==> xs[i].t <= xs[j].t) &&
    forall i :: 0 <= i < |xs| ==> 0 <= xs[i].t < 0x8000_0000_0000_0000
  }

  /** Sample `i` of the run beats itself and everything after it. */
  ghost predicate Dominates(mode: Mode, xs: seq<Sample>, i: int) {
    0 <= i < |xs| && forall j :: i <= j < |xs| ==> Beats(mode, xs[i].v, xs[j].v)
  }

  /** The slots hold samples of the run, oldest first, each dominating the rest
      of the run from its own place on. */
  ghost predicate Tracks(mode: Mode, f: Filter, xs: seq<Sample>, i0: int, i1: int, i2: int) {
    && f.ready
    && Dominates(mode, xs, i0) && Dominates(mode, xs, i1) && Dominates(mode, xs, i2)
    && i0 <= i1 <= i2
    && f.s0 == xs[i0] && f.s1 == xs[i1] && f.s2 == xs[i2]
  }

  lemma DominatesMore(mode: Mode, xs: seq<Sample>, x: Sample, i: int)
    requires Dominates(mode, xs, i)
    ensures Beats(mode, xs[i].v, x.v) ==> Dominates(mode, xs + [x], i)
  {
  }

  lemma NewestDominates(mode: Mode, xs: seq<Sample>, x: Sample)
    ensures Dominates(mode, xs + [x], |xs|)
  {
  }

  /** Ageing keeps the slots in the run and the first one in the window. */
  lemma AgeTracks(mode: Mode, f: Filter, wnd: nat, xs: seq<Sample>, i0: int, i1: int, i2: int)
    requires xs != [] && Monotone(xs) && Tracks(mode, f, xs, i0, i1, i2)
    requires TimeDelta(xs[|xs| - 1].t, f.s2.t) <= wnd
    ensures var g := Age(f, wnd, xs[|xs| - 1]);
            TimeDelta(xs[|xs| - 1].t, g.s0.t) <= wnd &&
            exists j0, j1, j2 :: Tracks(mode, g, xs, j0, j1, j2)
  {
    var n := |xs| - 1;
    var x := xs[n];
    assert Dominates(mode, xs, n);
    var g := Age(f, wnd, x);
    var dt := TimeDelta(x.t, f.s0.t);
    if dt > wnd {
      if TimeDelta(x.t, f.s1.t) > wnd {
        assert Tracks(mode, g, xs, i2, n, n);
      } else {
        assert Tracks(mode, g, xs, i1, i2, n);
      }
    } else if f.s1.t == f.s0.t && dt > wnd / 4 {
      assert Tracks(mode, g, xs, i0, n, n);
    } else if f.s2.t == f.s1.t && dt > wnd / 2 {
      assert Tracks(mode, g, xs, i0, i1, n);
    } else {
      assert Tracks(mode, g, xs, i0, i1, i2);
    }
  }

  lemma UpdateTracks(mode: Mode, f: Filter, wnd: nat, xs: seq<Sample>, x: Sample, i0: int, i1: int, i2: int)
    requires Monotone(xs + [x])
    requires f.ready ==> Tracks(mode, f, xs, i0, i1, i2)
    ensures var g := Update(mode, f, wnd, x);
            TimeDelta(x.t, g.s0.t) <= wnd &&
            exists j0, j1, j2 :: Tracks(mode, g, xs + [x], j0, j1, j2)
  {
    hide Age;
    var ys, n := xs + [x], |xs|;
    NewestDominates(mode, xs, x);
    if !f.ready || Beats(mode, x.v, f.s0.v) || TimeDelta(x.t, f.s2.t) > wnd {
      assert Tracks(mode, Reset(x), ys, n, n, n);
    } else {
      DominatesMore(mode, xs, x, i0);
      DominatesMore(mode, xs, x, i1);
      DominatesMore(mode, xs, x, i2);
      if Beats(mode, x.v, f.s1.v) {
        AgeTracks(mode, f.(s1 := x, s2 := x), wnd, ys, i0, n, n);
      } else if Beats(mode, x.v, f.s2.v) {
        AgeTracks(mode, f.(s2 := x), wnd, ys, i0, i1, n);
      } else {
        AgeTracks(mode, f, wnd, ys, i0, i1, i2);
      }
    }
  }

  lemma MonotonePrefix(xs: seq<Sample>)
    requires xs != [] && Monotone(xs)
    ensures Monotone(xs[..|xs| - 1])
  {
  }

  lemma {:induction false} FeedTracks(mode: Mode, wnd: nat, xs: seq<Sample>)
    requires xs != [] && Monotone(xs)
    ensures TimeDelta(xs[|xs| - 1].t, Feed(mode, wnd, xs).s0.t) <= wnd
    ensures exists i0, i1, i2 :: Tracks(mode, Feed(mode, wnd, xs), xs, i0, i1, i2)
  {
    hide Update, Tracks, Monotone, TimeDelta;
    var init, x := xs[..|xs| - 1], xs[|xs| - 1];
    assert init + [x] == xs;
    var f := Feed(mode, wnd, init);
    if init == [] {
      UpdateTracks(mode, f, wnd, init, x, 0, 0, 0);
    } else {
      MonotonePrefix(xs);
      FeedTracks(mode, wnd, init);
      var k0, k1, k2 :| Tracks(mode, f, init, k0, k1, k2);
      UpdateTracks(mode, f, wnd, init, x, k0, k1, k2);
    }
  }

  /** After any run over a monotone clock the filter reports a sample of that
      run no older than the window, which is the extremum of everything fed
      from its own place on; in particular it beats the newest sample. */
  lemma FeedReportsExtremum(mode: Mode, wnd: nat, xs: seq<Sample>) returns (i0: int)
    requires xs != [] && Monotone(xs)
    ensures 0 <= i0 < |xs| && Get(Feed(mode, wnd, xs)) == xs[i0].v
    ensures xs[|xs| - 1].t - xs[i0].t <= wnd
    ensures forall j :: i0 <= j < |xs| ==> Beats(mode, Get(Feed(mode, wnd, xs)), xs[j].v)
  {
    hide Feed;
    FeedTracks(mode, wnd, xs);
    var f := Feed(mode, wnd, xs);
    var k0, k1, k2 :| Tracks(mode, f, xs, k0, k1, k2);
    i0 := k0;
    assert Dominates(mode, xs, k0);
  }

  /** The filter reports `v`, and holds nothing from before `t`. */
  predicate Holds(f: Filter, v: int, t: int, now: int) {
    f.ready && f.s0.v == v && t <= f.s0.t <= now && t <= f.s1.t <= now && t <= f.s2.t <= now
  }

  lemma UpdateHolds(mode: Mode, f: Filter, wnd: nat, x: Sample, v: int, t: int, now: int)
    requires Holds(f, v, t, now) && Beats(mode, v, x.v)
    requires 0 <= t <= now <= x.t < 0x8000_0000_0000_0000 && x.t - t <= wnd
    ensures Holds(Update(mode, f, wnd, x), v, t, x.t)
  {
  }

  lemma PeakResets(mode: Mode, wnd: nat, xs: seq<Sample>, x: Sample)
    requires Monotone(xs) && forall j :: 0 <= j < |xs| ==> Beats(mode, x.v, xs[j].v)
    ensures Update(mode, Feed(mode, wnd, xs), wnd, x) == Reset(x)
  {
    hide Feed;
    if xs == [] {
      assert Feed(mode, wnd, xs) == EMPTY by { NothingFed(mode, wnd); }
    } else {
      FeedTracks(mode, wnd, xs);
      var i0, i1, i2 :| Tracks(mode, Feed(mode, wnd, xs), xs, i0, i1, i2);
      assert Beats(mode, x.v, xs[i0].v);
    }
  }

  lemma NothingFed(mode: Mode, wnd: nat)
    ensures Feed(mode, wnd, []) == EMPTY
  {
  }

  lemma {:induction false} FeedHolds(mode: Mode, wnd: nat, xs: seq<Sample>, m: nat)
    requires m < |xs| && Monotone(xs) && (forall j :: 0 <= j < |xs| ==> Beats(mode, xs[m].v, xs[j].v))
    requires xs[|xs| - 1].t - xs[m].t <= wnd
    ensures Holds(Feed(mode, wnd, xs), xs[m].v, xs[m].t, xs[|xs| - 1].t)
    decreases |xs|
  {
    hide Update, Tracks;
    var n := |xs| - 1;
    var init, x := xs[..n], xs[n];
    MonotonePrefix(xs);
    if m == n {
      PeakResets(mode, wnd, init, x);
    } else {
      FeedHolds(mode, wnd, init, m);
      UpdateHolds(mode, Feed(mode, wnd, init), wnd, x, xs[m].v, xs[m].t, xs[n - 1].t);
    }
  }

  /** The sample that beats every other of a run is the one reported, as long as it
      is no older than the window. */
  lemma PeakIsReported(mode: Mode, wnd: nat, xs: seq<Sample>, m: nat)
    requires m < |xs| && Monotone(xs) && (forall j :: 0 <= j < |xs| ==> Beats(mode, xs[m].v, xs[j].v))
    requires xs[|xs| - 1].t - xs[m].t <= wnd
    ensures Get(Feed(mode, wnd, xs)) == xs[m].v
  {
    hide Feed, Monotone;
    FeedHolds(mode, wnd, xs, m);
  }

  /** Every slot of a filter in use lies between two bounds. */
  predicate Within(f: Filter, lo: int, hi: int) {
    lo <= f.s0.v <= hi && lo <= f.s1.v <= hi && lo <= f.s2.v <= hi
  }

  lemma UpdateWithin(mode: Mode, f: Filter, wnd: nat, x: Sample, lo: int, hi: int)
    requires f.ready ==> Within(f, lo, hi)
    requires lo <= x.v <= hi
    ensures Update(mode, f, wnd, x).ready && Within(Update(mode, f, wnd, x), lo, hi)
  {
  }
}
