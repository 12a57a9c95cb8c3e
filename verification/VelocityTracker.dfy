/** Rolling-window event rate per subject: the tracker's step, what it computes over whole
    histories, and the object. */
module VelocityTracking {
  import opened Common
  import opened Recency

  datatype Config = Config(windowMs: nat, threshold: nat, maxSubjects: nat)

  datatype State = State(windows: map<string, seq<nat>>, lru: seq<string>)

  const EMPTY: State := State(map[], [])

  // ---------------------------------------------------------------- one observation

  function Evicted(cfg: Config, st: State, s: string): State {
    if s !in st.windows && |st.windows| >= cfg.maxSubjects && st.lru != [] then
      State(st.windows - {st.lru[0]}, st.lru[1..])
    else st
  }

  /** Pruning stops at the first sample that is not older than the cutoff. */
  function DropStale(window: seq<nat>, cutoff: nat): seq<nat> {
    if window != [] && window[0] < cutoff then DropStale(window[1..], cutoff) else window
  }

  function WindowOf(st: State, s: string): seq<nat> {
    if s in st.windows then st.windows[s] else []
  }

  function Observed(cfg: Config, st: State, s: string, now: nat): State {
    var kept := Evicted(cfg, st, s);
    var window := DropStale(WindowOf(kept, s), SaturatingSub(now, cfg.windowMs)) + [now];
    State(kept.windows[s := window], Without(kept.lru, s) + [s])
  }

  function Run(cfg: Config, h: seq<Obs>): State {
    if h == [] then EMPTY
    else
      var o := h[|h| - 1];
      Observed(cfg, Run(cfg, h[..|h| - 1]), o.subject, o.time)
  }

  lemma RunNext(cfg: Config, h: seq<Obs>, o: Obs)
    ensures Run(cfg, h + [o]) == Observed(cfg, Run(cfg, h), o.subject, o.time)
  {
    assert (h + [o])[..|h|] == h;
  }

  // ---------------------------------------------------------------- which subjects are tracked

  lemma ObservedMatches(cfg: Config, st: State, s: string, now: nat)
    requires ListMatches(st.windows, st.lru)
    ensures var after := Observed(cfg, st, s, now);
            && ListMatches(after.windows, after.lru)
            && after.lru == LruStep(st.lru, s, cfg.maxSubjects)
  {
    EvictionFollowsList(st.windows, st.lru, s, cfg.maxSubjects);
    var kept := Evicted(cfg, st, s);
    TouchMatches(kept.windows, kept.lru, s, Observed(cfg, st, s, now).windows[s]);
  }

  /** For every history, whatever its clock does: the tracked subjects are exactly the
      `max(1, max_subjects)` most recently observed ones, and the list holds them in that order. */
  lemma {:induction false} TracksMostRecent(cfg: Config, h: seq<Obs>)
    ensures Run(cfg, h).lru == Tracked(h, cfg.maxSubjects)
    ensures ListMatches(Run(cfg, h).windows, Run(cfg, h).lru)
    decreases |h|
  {
    if h != [] {
      var front, o := h[..|h| - 1], h[|h| - 1];
      TracksMostRecent(cfg, front);
      assert h == front + [o];
      RunNext(cfg, front, o);
      ObservedMatches(cfg, Run(cfg, front), o.subject, o.time);
      LruStepTracks(front, o, cfg.maxSubjects);
    }
  }

  // ---------------------------------------------------------------- what the window counts

  function Times(xs: seq<Sample>): (r: seq<nat>)
    ensures |r| == |xs| && forall i :: 0 <= i < |xs| ==> r[i] == xs[i].time
  {
    seq(|xs|, i requires 0 <= i < |xs| => xs[i].time)
  }

  /** On a sorted window, stopping at the first fresh sample keeps exactly the fresh ones. */
  lemma {:induction false} DropStaleIsFilter(xs: seq<Sample>, earlier: nat, cutoff: nat)
    requires SortedSamples(xs) && earlier <= cutoff
    ensures DropStale(Times(FreshSamples(xs, earlier)), cutoff) == Times(FreshSamples(xs, cutoff))
    decreases |xs|
  {
    if xs != [] {
      var front, last := xs[..|xs| - 1], xs[|xs| - 1];
      assert front + [last] == xs;
      FrontOfSorted(xs, cutoff);
      DropStaleIsFilter(front, earlier, cutoff);
      FilterOneMore(front, last, earlier, cutoff);
    }
  }

  lemma FrontOfSorted(xs: seq<Sample>, cutoff: nat)
    requires SortedSamples(xs) && xs != []
    ensures var front, last := xs[..|xs| - 1], xs[|xs| - 1];
            SortedSamples(front) && (last.time < cutoff ==> FreshSamples(front, cutoff) == [])
  {
    if xs[|xs| - 1].time < cutoff {
      AllStale(xs[..|xs| - 1], cutoff);
    }
  }

  lemma FilterOneMore(xs: seq<Sample>, x: Sample, earlier: nat, cutoff: nat)
    requires earlier <= cutoff
    requires DropStale(Times(FreshSamples(xs, earlier)), cutoff) == Times(FreshSamples(xs, cutoff))
    requires x.time < cutoff ==> FreshSamples(xs, cutoff) == []
    ensures DropStale(Times(FreshSamples(xs + [x], earlier)), cutoff) == Times(FreshSamples(xs + [x], cutoff))
  {
    FreshTimesNext(xs, x, earlier);
    FreshTimesNext(xs, x, cutoff);
    var kept, current := Times(FreshSamples(xs, earlier)), Times(FreshSamples(xs, cutoff));
    assert kept + [] == kept && current + [] == current;
    if x.time >= earlier {
      DropStaleSnoc(kept, x.time, cutoff);
    }
  }

  lemma FreshTimesNext(xs: seq<Sample>, x: Sample, cutoff: nat)
    ensures Times(FreshSamples(xs + [x], cutoff))
         == Times(FreshSamples(xs, cutoff)) + if x.time >= cutoff then [x.time] else []
  {
    FreshNext(xs, x, cutoff);
  }

  lemma {:induction false} DropStaleSnoc(window: seq<nat>, t: nat, cutoff: nat)
    ensures DropStale(window + [t], cutoff) ==
        if DropStale(window, cutoff) == [] then (if t < cutoff then [] else [t]) else DropStale(window, cutoff) + [t]
    decreases |window|
  {
    if window == [] {
      assert [t][1..] == [];
    } else {
      assert (window + [t])[1..] == window[1..] + [t];
      DropStaleSnoc(window[1..], t, cutoff);
    }
  }

  lemma {:induction false} AllStale(xs: seq<Sample>, cutoff: nat)
    requires forall x <- xs :: x.time < cutoff
    ensures FreshSamples(xs, cutoff) == []
    decreases |xs|
  {
    if xs != [] {
      AllStale(xs[..|xs| - 1], cutoff);
    }
  }

  ghost predicate WindowExact(cfg: Config, h: seq<Obs>, s: string) {
    var st := Run(cfg, h);
    s in st.windows ==>
      st.windows[s] == Times(FreshSamples(Since(h, s, cfg.maxSubjects), LastCutoff(cfg.windowMs, h, s)))
  }

  /** What an observation makes of the subject's own window. */
  lemma OwnWindow(cfg: Config, h: seq<Obs>, o: Obs)
    ensures var s := o.subject;
            var kept := if s in Tracked(h, cfg.maxSubjects) then WindowOf(Run(cfg, h), s) else [];
            && s in Run(cfg, h + [o]).windows
            && Run(cfg, h + [o]).windows[s] == DropStale(kept, CutoffAt(cfg.windowMs, o.time)) + [o.time]
    ensures forall x :: x in Run(cfg, h).windows <==> x in Tracked(h, cfg.maxSubjects)
  {
    RunNext(cfg, h, o);
    TracksMostRecent(cfg, h);
  }

  lemma KeptSamplesExact(all: seq<Sample>, x: Sample, earlier: nat, cutoff: nat)
    requires SortedSamples(all) && earlier <= cutoff <= x.time
    ensures DropStale(Times(FreshSamples(all, earlier)), cutoff) + [x.time] == Times(FreshSamples(all + [x], cutoff))
  {
    DropStaleIsFilter(all, earlier, cutoff);
    FreshNext(all, x, cutoff);
  }

  lemma OwnObservationExact(cfg: Config, h: seq<Obs>, o: Obs)
    requires Monotone(h + [o]) && WindowExact(cfg, h, o.subject)
    ensures WindowExact(cfg, h + [o], o.subject)
  {
    var s, cap, x := o.subject, cfg.maxSubjects, Sample(o.target, o.time);
    OwnWindow(cfg, h, o);
    SinceNext(h, o, s, cap);
    assert LastCutoff(cfg.windowMs, h + [o], s) == CutoffAt(cfg.windowMs, o.time);
    if s in Tracked(h, cap) {
      LastCutoffGrows(cfg.windowMs, h, o, s);
      SinceSorted(h, s, cap);
      KeptSamplesExact(Since(h, s, cap), x, LastCutoff(cfg.windowMs, h, s), CutoffAt(cfg.windowMs, o.time));
    } else {
      FreshNext([], x, CutoffAt(cfg.windowMs, o.time));
      assert [] + [x] == [x];
    }
  }

  lemma OtherObservationExact(cfg: Config, h: seq<Obs>, o: Obs, s: string)
    requires s != o.subject && WindowExact(cfg, h, s)
    ensures WindowExact(cfg, h + [o], s)
  {
    RunNext(cfg, h, o);
    SinceNext(h, o, s, cfg.maxSubjects);
    assert (h + [o])[..|h|] == h;
  }

  lemma {:induction false} WindowsStayExact(cfg: Config, h: seq<Obs>, s: string)
    requires Monotone(h)
    ensures WindowExact(cfg, h, s)
    decreases |h|
  {
    if h != [] {
      var front, o := h[..|h| - 1], h[|h| - 1];
      assert h == front + [o];
      WindowsStayExact(cfg, front, s);
      if o.subject == s {
        OwnObservationExact(cfg, front, o);
      } else {
        OtherObservationExact(cfg, front, o, s);
      }
    }
  }

  /** How many of the subject's observations since admission were made no more than the window's length
      before now. */
  function CountInWindow(cfg: Config, h: seq<Obs>, s: string, now: nat): nat {
    var from := AdmittedAt(h, s, cfg.maxSubjects);
    |set i: nat | from <= i < |h| && h[i].subject == s && h[i].time + cfg.windowMs >= now|
  }

  lemma CountIsFresh(cfg: Config, h: seq<Obs>, s: string, now: nat)
    ensures CountInWindow(cfg, h, s, now)
         == |FreshSamples(Since(h, s, cfg.maxSubjects), CutoffAt(cfg.windowMs, now))|
  {
    var from := AdmittedAt(h, s, cfg.maxSubjects);
    FreshCount(h, s, cfg.maxSubjects, CutoffAt(cfg.windowMs, now));
    CutoffIsWindow(h, s, from, cfg.windowMs, now);
    assert WindowIndexes(h, s, from, cfg.windowMs, now)
        == set i: nat | from <= i < |h| && h[i].subject == s && h[i].time + cfg.windowMs >= now;
  }

  /** With clocks that never go back, the length `observe` compares with its threshold is the
      number of the subject's observations in the window since it was last admitted. */
  lemma CountIsExact(cfg: Config, h: seq<Obs>, o: Obs)
    requires Monotone(h + [o])
    ensures o.subject in Run(cfg, h + [o]).windows
    ensures |Run(cfg, h + [o]).windows[o.subject]| == CountInWindow(cfg, h + [o], o.subject, o.time)
  {
    RunNext(cfg, h, o);
    WindowsStayExact(cfg, h + [o], o.subject);
    CountIsFresh(cfg, h + [o], o.subject, o.time);
  }

  function FreshTimes(window: seq<nat>, cutoff: nat): (r: seq<nat>)
    ensures forall t :: t in r <==> t in window && t >= cutoff
  {
    if window == [] then []
    else (if window[0] >= cutoff then [window[0]] else []) + FreshTimes(window[1..], cutoff)
  }

  /** No stale sample stands behind a fresh one. */
  predicate StaleFirst(window: seq<nat>, cutoff: nat) {
    forall i, j :: 0 <= i < j < |window| && window[i] >= cutoff ==> window[j] >= cutoff
  }

  /** Pruning leaves exactly the fresh samples if and only if no stale one stands behind a fresh
      one. */
  lemma {:induction false} PruningExactIff(window: seq<nat>, cutoff: nat)
    ensures DropStale(window, cutoff) == FreshTimes(window, cutoff) <==> StaleFirst(window, cutoff)
    decreases |window|
  {
    if window != [] {
      if window[0] < cutoff {
        StaleInFront(window, cutoff);
        PruningExactIff(window[1..], cutoff);
      } else {
        FreshInFront(window, cutoff);
      }
    }
  }

  lemma {:induction false} StaleInFront(window: seq<nat>, cutoff: nat)
    requires window != [] && window[0] < cutoff
    ensures StaleFirst(window, cutoff) <==> StaleFirst(window[1..], cutoff)
  {
    if StaleFirst(window, cutoff) {
      assert forall i :: 0 <= i < |window| - 1 ==> window[1..][i] == window[i + 1];
    }
    if StaleFirst(window[1..], cutoff) {
      assert forall i :: 0 < i < |window| ==> window[i] == window[1..][i - 1];
    }
  }

  lemma {:induction false} FreshInFront(window: seq<nat>, cutoff: nat)
    requires window != [] && window[0] >= cutoff
    ensures DropStale(window, cutoff) == FreshTimes(window, cutoff) <==> StaleFirst(window, cutoff)
  {
    if StaleFirst(window, cutoff) {
      AllFresh(window, cutoff);
    } else {
      var i, j :| 0 <= i < j < |window| && window[i] >= cutoff && window[j] < cutoff;
      assert window[j] in window && window[j] !in FreshTimes(window, cutoff);
    }
  }

  lemma {:induction false} AllFresh(window: seq<nat>, cutoff: nat)
    requires forall i :: 0 <= i < |window| ==> window[i] >= cutoff
    ensures FreshTimes(window, cutoff) == window
    decreases |window|
  {
    if window != [] {
      AllFresh(window[1..], cutoff);
    }
  }

  // ---------------------------------------------------------------- clocks that go back

  function CountStale(window: seq<nat>, cutoff: nat): nat {
    if window == [] then 0 else (if window[0] < cutoff then 1 else 0) + CountStale(window[1..], cutoff)
  }

  /** Samples from `lo` up to, but not including, `hi`. */
  function CountBetween(xs: seq<Sample>, lo: nat, hi: nat): nat {
    if xs == [] then 0
    else CountBetween(xs[..|xs| - 1], lo, hi) + if lo <= xs[|xs| - 1].time < hi then 1 else 0
  }

  predicate NoneBetween(xs: seq<Sample>, lo: nat, hi: nat) {
    forall x <- xs :: !(lo <= x.time < hi)
  }

  lemma {:induction false} FreshOrStale(window: seq<nat>, cutoff: nat)
    ensures |window| == |FreshTimes(window, cutoff)| + CountStale(window, cutoff)
    ensures (forall i :: 0 <= i < |window| ==> window[i] >= cutoff) ==> CountStale(window, cutoff) == 0
    decreases |window|
  {
    if window != [] {
      FreshOrStale(window[1..], cutoff);
    }
  }

  /** What pruning keeps: the fresh samples, and the stale ones behind the first fresh one. */
  lemma {:induction false} PruningKeeps(window: seq<nat>, cutoff: nat)
    ensures |DropStale(window, cutoff)| == |FreshTimes(window, cutoff)| + CountStale(DropStale(window, cutoff), cutoff)
    decreases |window|
  {
    FreshOrStale(window, cutoff);
    if window != [] && window[0] < cutoff {
      PruningKeeps(window[1..], cutoff);
    }
  }

  lemma {:induction false} FreshTimesSnoc(window: seq<nat>, t: nat, cutoff: nat)
    ensures FreshTimes(window + [t], cutoff) == FreshTimes(window, cutoff) + if t >= cutoff then [t] else []
    decreases |window|
  {
    if window == [] {
      assert [t][1..] == [];
    } else {
      FreshTimesSnoc(window[1..], t, cutoff);
      FreshTimesCons(window[0], window[1..] + [t], cutoff);
      assert window + [t] == [window[0]] + (window[1..] + [t]);
    }
  }

  lemma FreshTimesCons(t: nat, window: seq<nat>, cutoff: nat)
    ensures FreshTimes([t] + window, cutoff) == (if t >= cutoff then [t] else []) + FreshTimes(window, cutoff)
  {
    assert ([t] + window)[1..] == window;
  }

  /** A window pruned at `earlier` lacks, of what is fresh at `cutoff`, the samples in between. */
  lemma {:induction false} EarlierPruningLacks(xs: seq<Sample>, earlier: nat, cutoff: nat)
    ensures var pruned, exact := FreshTimes(Times(FreshSamples(xs, earlier)), cutoff), Times(FreshSamples(xs, cutoff));
            && |exact| == |pruned| + CountBetween(xs, cutoff, earlier)
            && (CountBetween(xs, cutoff, earlier) == 0 ==> pruned == exact)
    ensures CountBetween(xs, cutoff, earlier) == 0 <==> NoneBetween(xs, cutoff, earlier)
    decreases |xs|
  {
    if xs != [] {
      var front, last := xs[..|xs| - 1], xs[|xs| - 1];
      assert xs == front + [last];
      EarlierPruningLacks(front, earlier, cutoff);
      var before, exact := Times(FreshSamples(front, earlier)), Times(FreshSamples(front, cutoff));
      assert before + [] == before && exact + [] == exact && FreshTimes(before, cutoff) + [] == FreshTimes(before, cutoff);
      FreshTimesNext(front, last, earlier);
      FreshTimesNext(front, last, cutoff);
      FreshTimesSnoc(before, last.time, cutoff);
      assert NoneBetween(xs, cutoff, earlier) <==> NoneBetween(front, cutoff, earlier) && !(cutoff <= last.time < earlier);
    }
  }

  /** One pruning step, whatever the clock did: a window that was exact at cutoff `earlier` is exact
      at `cutoff` if and only if no stale sample stands behind a fresh one, and none that is fresh now
      was pruned before. */
  lemma StepExactIff(xs: seq<Sample>, earlier: nat, cutoff: nat)
    ensures var window := Times(FreshSamples(xs, earlier));
            DropStale(window, cutoff) == Times(FreshSamples(xs, cutoff)) <==>
              StaleFirst(window, cutoff) && NoneBetween(xs, cutoff, earlier)
  {
    var window, exact := Times(FreshSamples(xs, earlier)), Times(FreshSamples(xs, cutoff));
    PruningExactIff(window, cutoff);
    PruningKeeps(window, cutoff);
    EarlierPruningLacks(xs, earlier, cutoff);
    if DropStale(window, cutoff) == exact {
      FreshOrStale(exact, cutoff);
    }
  }

  /** How far off one step is: too many by the stale samples kept, too few by those pruned before. */
  lemma StepCount(xs: seq<Sample>, earlier: nat, cutoff: nat)
    ensures var window := Times(FreshSamples(xs, earlier));
            |DropStale(window, cutoff)| + CountBetween(xs, cutoff, earlier)
              == |FreshSamples(xs, cutoff)| + CountStale(DropStale(window, cutoff), cutoff)
  {
    PruningKeeps(Times(FreshSamples(xs, earlier)), cutoff);
    EarlierPruningLacks(xs, earlier, cutoff);
  }

  /** What a caller can check before an observation: its subject's window has no stale sample behind
      a fresh one, and no sample since admission lies between the new cutoff and the last one. */
  ghost predicate ClockFits(cfg: Config, h: seq<Obs>, o: Obs) {
    var s, cutoff := o.subject, CutoffAt(cfg.windowMs, o.time);
    s in Run(cfg, h).windows ==>
      && StaleFirst(Run(cfg, h).windows[s], cutoff)
      && NoneBetween(Since(h, s, cfg.maxSubjects), cutoff, LastCutoff(cfg.windowMs, h, s))
  }

  lemma OwnObservationExactIff(cfg: Config, h: seq<Obs>, o: Obs)
    requires WindowExact(cfg, h, o.subject)
    ensures WindowExact(cfg, h + [o], o.subject) <==> ClockFits(cfg, h, o)
  {
    var s, cap, x := o.subject, cfg.maxSubjects, Sample(o.target, o.time);
    var cutoff := CutoffAt(cfg.windowMs, o.time);
    OwnWindow(cfg, h, o);
    SinceNext(h, o, s, cap);
    assert LastCutoff(cfg.windowMs, h + [o], s) == cutoff;
    if s in Tracked(h, cap) {
      var all := Since(h, s, cap);
      StepExactIff(all, LastCutoff(cfg.windowMs, h, s), cutoff);
      FreshTimesNext(all, x, cutoff);
      SameFronts(DropStale(Run(cfg, h).windows[s], cutoff), Times(FreshSamples(all, cutoff)), o.time);
    } else {
      FreshNext([], x, cutoff);
      assert [] + [x] == [x];
    }
  }

  lemma SameFronts(a: seq<nat>, b: seq<nat>, t: nat)
    ensures a + [t] == b + [t] <==> a == b
  {
    if a + [t] == b + [t] {
      assert a == (a + [t])[..|a|] && b == (b + [t])[..|b|];
    }
  }

  predicate Throughout(h: seq<Obs>, p: seq<Obs> -> bool) {
    forall n :: 0 <= n <= |h| ==> p(h[..n])
  }

  lemma ThroughoutNext(h: seq<Obs>, o: Obs, p: seq<Obs> -> bool)
    ensures Throughout(h + [o], p) <==> Throughout(h, p) && p(h + [o])
  {
    var more := h + [o];
    assert forall n :: 0 <= n <= |h| ==> more[..n] == h[..n];
    assert more[..|more|] == more;
  }

  /** The subject's window was exact after every observation. */
  ghost predicate ExactThroughout(cfg: Config, h: seq<Obs>, s: string) {
    Throughout(h, (g: seq<Obs>) => WindowExact(cfg, g, s))
  }

  ghost predicate FitsThroughout(cfg: Config, h: seq<Obs>, s: string) {
    forall n :: 0 <= n < |h| && h[n].subject == s ==> ClockFits(cfg, h[..n], h[n])
  }

  lemma ExactThroughoutNext(cfg: Config, h: seq<Obs>, o: Obs, s: string)
    ensures ExactThroughout(cfg, h + [o], s) <==> ExactThroughout(cfg, h, s) && WindowExact(cfg, h + [o], s)
  {
    ThroughoutNext(h, o, (g: seq<Obs>) => WindowExact(cfg, g, s));
  }

  lemma FitsThroughoutNext(cfg: Config, h: seq<Obs>, o: Obs, s: string)
    ensures FitsThroughout(cfg, h + [o], s) <==> FitsThroughout(cfg, h, s) && (o.subject == s ==> ClockFits(cfg, h, o))
  {
    var more := h + [o];
    assert forall n :: 0 <= n <= |h| ==> more[..n] == h[..n];
    assert h[..|h|] == h;
    assert forall n :: 0 <= n < |h| ==> more[n] == h[n];
  }

  ghost predicate ExactMeansFits(cfg: Config, s: string, h: seq<Obs>) {
    ExactThroughout(cfg, h, s) <==> FitsThroughout(cfg, h, s)
  }

  lemma ExactMeansFitsNext(cfg: Config, s: string, h: seq<Obs>, o: Obs)
    requires ExactMeansFits(cfg, s, h)
    ensures ExactMeansFits(cfg, s, h + [o])
  {
    ExactThroughoutNext(cfg, h, o, s);
    FitsThroughoutNext(cfg, h, o, s);
    if ExactThroughout(cfg, h, s) {
      assert h[..|h|] == h;
      ExactOneMore(cfg, h, o, s);
    }
  }

  /** Over any run, whatever the clock does: the subject's window is exact after every observation if
      and only if the clock fitted at each of its own. */
  lemma {:induction false} ExactThroughoutIff(cfg: Config, h: seq<Obs>, s: string)
    ensures ExactThroughout(cfg, h, s) <==> FitsThroughout(cfg, h, s)
  {
    var holds := (g: seq<Obs>) => ExactMeansFits(cfg, s, g);
    forall front, o: Obs | holds(front)
      ensures holds(front + [o])
    {
      ExactMeansFitsNext(cfg, s, front, o);
    }
    OverHistories(h, holds);
  }

  lemma ExactOneMore(cfg: Config, h: seq<Obs>, o: Obs, s: string)
    requires WindowExact(cfg, h, s)
    ensures WindowExact(cfg, h + [o], s) <==> (o.subject == s ==> ClockFits(cfg, h, o))
  {
    if o.subject == s {
      OwnObservationExactIff(cfg, h, o);
    } else {
      OtherObservationExact(cfg, h, o, s);
    }
  }

  /** A clock that never went back fits. */
  lemma MonotoneFits(cfg: Config, h: seq<Obs>, o: Obs)
    requires Monotone(h + [o])
    ensures ClockFits(cfg, h, o)
  {
    assert forall i :: 0 <= i < |h| ==> h[i] == (h + [o])[i];
    WindowsStayExact(cfg, h, o.subject);
    OwnObservationExact(cfg, h, o);
    OwnObservationExactIff(cfg, h, o);
  }

  /** After an exact window, the count compared with the threshold is too high by the stale samples
      that stay, and too low by the fresh ones pruned before. */
  lemma CountIsOffBy(cfg: Config, h: seq<Obs>, o: Obs)
    requires o.subject in Run(cfg, h).windows && WindowExact(cfg, h, o.subject)
    ensures var s, cutoff := o.subject, CutoffAt(cfg.windowMs, o.time);
            && s in Run(cfg, h + [o]).windows
            && |Run(cfg, h + [o]).windows[s]| + CountBetween(Since(h, s, cfg.maxSubjects), cutoff, LastCutoff(cfg.windowMs, h, s))
               == CountInWindow(cfg, h + [o], s, o.time) + CountStale(DropStale(Run(cfg, h).windows[s], cutoff), cutoff)
  {
    var s, cap, x := o.subject, cfg.maxSubjects, Sample(o.target, o.time);
    var cutoff := CutoffAt(cfg.windowMs, o.time);
    OwnWindow(cfg, h, o);
    SinceNext(h, o, s, cap);
    StepCount(Since(h, s, cap), LastCutoff(cfg.windowMs, h, s), cutoff);
    FreshNext(Since(h, s, cap), x, cutoff);
    CountIsFresh(cfg, h + [o], s, o.time);
  }

  lemma OwnStep(cfg: Config, h: seq<Obs>, s: string, t: nat)
    requires s in Run(cfg, h).windows
    ensures var after, o := Run(cfg, h + [Obs(s, "", t)]), Sample("", t);
            && s in after.windows
            && after.windows[s] == DropStale(Run(cfg, h).windows[s], CutoffAt(cfg.windowMs, t)) + [t]
            && Since(h + [Obs(s, "", t)], s, cfg.maxSubjects) == Since(h, s, cfg.maxSubjects) + [o]
  {
    OwnWindow(cfg, h, Obs(s, "", t));
    SinceNext(h, Obs(s, "", t), s, cfg.maxSubjects);
  }

  lemma FirstStep(cfg: Config, s: string, t: nat)
    ensures var h := [Obs(s, "", t)];
            s in Run(cfg, h).windows && Run(cfg, h).windows[s] == [t]
            && Since(h, s, cfg.maxSubjects) == [Sample("", t)]
  {
    OwnWindow(cfg, [], Obs(s, "", t));
    SinceNext([], Obs(s, "", t), s, cfg.maxSubjects);
    assert [] + [Obs(s, "", t)] == [Obs(s, "", t)];
  }

  lemma CountsAtLeast(xs: seq<Sample>, x: Sample, cutoff: nat)
    ensures |FreshSamples(xs + [x], cutoff)| == |FreshSamples(xs, cutoff)| + if x.time >= cutoff then 1 else 0
  {
    FreshNext(xs, x, cutoff);
  }

  /** A clock that goes back and forth within a window of 5: a stale sample hides behind a fresh one,
      and three are counted where two are in the window. */
  lemma {:induction false} BackwardClockOvercounts(cfg: Config, s: string)
    requires cfg.windowMs == 5
    ensures var h := [Obs(s, "", 100)] + [Obs(s, "", 50)] + [Obs(s, "", 100)];
            && s in Run(cfg, h).windows && |Run(cfg, h).windows[s]| == 3
            && CountInWindow(cfg, h, s, 100) == 2
  {
    var h1 := [Obs(s, "", 100)];
    var h2 := h1 + [Obs(s, "", 50)];
    var h3 := h2 + [Obs(s, "", 100)];
    FirstStep(cfg, s, 100);
    OwnStep(cfg, h1, s, 50);
    OwnStep(cfg, h2, s, 100);
    CountIsFresh(cfg, h3, s, 100);
    CountsAtLeast([], Sample("", 100), 95);
    CountsAtLeast([Sample("", 100)], Sample("", 50), 95);
    CountsAtLeast([Sample("", 100)] + [Sample("", 50)], Sample("", 100), 95);
    assert [] + [Sample("", 100)] == [Sample("", 100)];
  }

  lemma {:induction false} Ahead(cfg: Config, s: string, h: seq<Obs>)
    requires cfg.windowMs == 50 && s in Run(cfg, h).windows && Run(cfg, h).windows[s] == [100, 110]
    ensures var end := h + [Obs(s, "", 200)];
            && s in Run(cfg, end).windows && Run(cfg, end).windows[s] == [200]
            && Since(end, s, cfg.maxSubjects) == Since(h, s, cfg.maxSubjects) + [Sample("", 200)]
  {
    OwnStep(cfg, h, s, 200);
    assert DropStale([100, 110], 150) == [] by {
      assert [100, 110][1..] == [110] && [110][1..] == [];
    }
  }

  lemma {:induction false} AndBack(cfg: Config, s: string, h: seq<Obs>)
    requires cfg.windowMs == 50 && s in Run(cfg, h).windows && Run(cfg, h).windows[s] == [200]
    ensures var end := h + [Obs(s, "", 120)];
            && s in Run(cfg, end).windows && Run(cfg, end).windows[s] == [200, 120]
            && Since(end, s, cfg.maxSubjects) == Since(h, s, cfg.maxSubjects) + [Sample("", 120)]
  {
    OwnStep(cfg, h, s, 120);
  }

  lemma {:induction false} CountWhenAllFresh(cfg: Config, h: seq<Obs>, s: string, now: nat)
    requires var xs := Since(h, s, cfg.maxSubjects);
             forall i :: 0 <= i < |xs| ==> xs[i].time >= CutoffAt(cfg.windowMs, now)
    ensures CountInWindow(cfg, h, s, now) == |Since(h, s, cfg.maxSubjects)|
  {
    CountIsFresh(cfg, h, s, now);
    AllSamplesFresh(Since(h, s, cfg.maxSubjects), CutoffAt(cfg.windowMs, now));
  }

  lemma {:induction false} AllSamplesFresh(xs: seq<Sample>, cutoff: nat)
    requires forall i :: 0 <= i < |xs| ==> xs[i].time >= cutoff
    ensures |FreshSamples(xs, cutoff)| == |xs|
    decreases |xs|
  {
    if xs != [] {
      AllSamplesFresh(xs[..|xs| - 1], cutoff);
    }
  }

  lemma {:induction false} TwoFirst(cfg: Config, s: string, h: seq<Obs>)
    requires cfg.windowMs == 50 && h == [Obs(s, "", 100)] + [Obs(s, "", 110)]
    ensures s in Run(cfg, h).windows && Run(cfg, h).windows[s] == [100, 110]
    ensures Since(h, s, cfg.maxSubjects) == [Sample("", 100), Sample("", 110)]
  {
    FirstStep(cfg, s, 100);
    OwnStep(cfg, [Obs(s, "", 100)], s, 110);
  }

  /** A clock that runs ahead and comes back, with a window of 50: what was pruned on the way is gone,
      and two are counted where four are no older than the window. */
  lemma {:induction false} BackwardClockUndercounts(cfg: Config, s: string, h: seq<Obs>)
    requires cfg.windowMs == 50
    requires h == [Obs(s, "", 100)] + [Obs(s, "", 110)] + [Obs(s, "", 200)] + [Obs(s, "", 120)]
    ensures s in Run(cfg, h).windows && |Run(cfg, h).windows[s]| == 2 && CountInWindow(cfg, h, s, 120) == 4
  {
    var two := [Obs(s, "", 100)] + [Obs(s, "", 110)];
    TwoFirst(cfg, s, two);
    Ahead(cfg, s, two);
    AndBack(cfg, s, two + [Obs(s, "", 200)]);
    CountWhenAllFresh(cfg, h, s, 120);
  }

  // ---------------------------------------------------------------- the object

  class VelocityTracker {
    const config: Config
    var windows: map<string, seq<nat>>
    var lru: seq<string>
    var atCapacityReported: bool
    ghost var history: seq<Obs>

    ghost function Value(): State
      reads this
    {
      State(windows, lru)
    }

    ghost predicate Valid()
      reads this
    {
      Value() == Run(config, history)
    }

    constructor (config: Config)
      ensures this.config == config && history == [] && Valid()
    {
      this.config := config;
      windows := map[];
      lru := [];
      atCapacityReported := false;
      history := [];
    }

    /** Makes room for a new subject. */
    method EvictFor(subject: string)
      modifies this`windows, this`lru, this`atCapacityReported
      ensures Value() == Evicted(config, old(Value()), subject)
    {
      if subject !in windows && |windows| >= config.maxSubjects {
        if lru != [] {
          windows := windows - {lru[0]};
          lru := lru[1..];
        }
        atCapacityReported := true;
      }
    }

    method Observe(subject: string, now: nat) returns (signal: Option<nat>)
      requires Valid()
      modifies this
      ensures Valid() && history == old(history) + [Obs(subject, "", now)]
      ensures Value() == Observed(config, old(Value()), subject, now)
      ensures subject in windows
      ensures Monotone(history) ==> |windows[subject]| == CountInWindow(config, history, subject, now)
      ensures |windows[subject]| < U32_MODULUS ==>
          signal == if |windows[subject]| > config.threshold then Some(|windows[subject]|) else None
      ensures signal == if AsU32(|windows[subject]|) > config.threshold then Some(AsU32(|windows[subject]|)) else None
    {
      EvictFor(subject);
      ghost var kept := Value();
      var window := if subject in windows then windows[subject] else [];
      var cutoff := SaturatingSub(now, config.windowMs);
      while window != [] && window[0] < cutoff
        invariant DropStale(window, cutoff) == DropStale(WindowOf(kept, subject), cutoff)
        decreases |window|
      {
        window := window[1..];
      }
      window := window + [now];
      windows := windows[subject := window];
      lru := Without(lru, subject) + [subject];
      var count := AsU32(|window|);
      LowBits(|window|);
      signal := if count > config.threshold then Some(count) else None;
      Remember(Obs(subject, "", now));
    }

    /** Extends the ghost history; with monotone clocks the window length is the count over it. */
    ghost method Remember(o: Obs)
      requires Value() == Observed(config, Run(config, history), o.subject, o.time)
      modifies this`history
      ensures history == old(history) + [o] && Valid()
      ensures o.subject in windows
      ensures Monotone(history) ==> |windows[o.subject]| == CountInWindow(config, history, o.subject, o.time)
    {
      RunNext(config, history, o);
      if Monotone(history + [o]) {
        CountIsExact(config, history, o);
      }
      history := history + [o];
    }
  }
}
