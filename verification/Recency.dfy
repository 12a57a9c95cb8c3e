/** Bounded tracking of the most recently active subjects, and what a history of observations
    says about one subject since it was last admitted. Shared by both trackers. */
module Recency {
  import opened Common

  datatype Obs = Obs(subject: string, target: string, time: nat)

  /** A sample of one subject: what it hit, and when. */
  datatype Sample = Sample(target: string, time: nat)

  /** What holds at the start and survives one more observation holds of every history. */
  lemma {:induction false} OverHistories(h: seq<Obs>, holds: seq<Obs> -> bool)
    requires holds([]) && forall front, o: Obs :: holds(front) ==> holds(front + [o])
    ensures holds(h)
    decreases |h|
  {
    if h != [] {
      OverHistories(h[..|h| - 1], holds);
      assert h == h[..|h| - 1] + [h[|h| - 1]];
    }
  }

  // ---------------------------------------------------------------- the LRU list

  function Without(xs: seq<string>, x: string): (r: seq<string>)
    ensures |r| <= |xs|
    ensures forall e :: e in r <==> e in xs && e != x
  {
    if xs == [] then []
    else if xs[0] == x then Without(xs[1..], x)
    else [xs[0]] + Without(xs[1..], x)
  }

  predicate NoDuplicates(xs: seq<string>) {
    forall i, j :: 0 <= i < j < |xs| ==> xs[i] != xs[j]
  }

  lemma {:induction false} WithoutAbsent(xs: seq<string>, x: string)
    requires x !in xs
    ensures Without(xs, x) == xs
    decreases |xs|
  {
    if xs != [] {
      WithoutAbsent(xs[1..], x);
    }
  }

  lemma {:induction false} WithoutFirst(y: string, ys: seq<string>, x: string)
    ensures Without([y] + ys, x) == (if y == x then [] else [y]) + Without(ys, x)
  {
    assert ([y] + ys)[1..] == ys;
  }

  lemma {:induction false} WithoutConcat(a: seq<string>, b: seq<string>, x: string)
    ensures Without(a + b, x) == Without(a, x) + Without(b, x)
    decreases |a|
  {
    if a == [] {
      assert a + b == b;
    } else {
      WithoutConcat(a[1..], b, x);
      WithoutFirst(a[0], a[1..], x);
      WithoutFirst(a[0], a[1..] + b, x);
      assert [a[0]] + a[1..] == a && [a[0]] + (a[1..] + b) == a + b;
    }
  }

  lemma {:induction false} WithoutKeepsDistinct(xs: seq<string>, x: string)
    requires NoDuplicates(xs)
    ensures NoDuplicates(Without(xs, x))
    ensures x in xs ==> |Without(xs, x)| == |xs| - 1
    decreases |xs|
  {
    if xs != [] {
      WithoutKeepsDistinct(xs[1..], x);
      assert xs[0] !in xs[1..];
      if xs[0] == x {
        WithoutAbsent(xs[1..], x);
      } else {
        assert xs[0] !in Without(xs[1..], x);
      }
    }
  }

  /** All subjects ever seen, by their last observation, most recent at the back. */
  function ByRecency(h: seq<Obs>): (r: seq<string>)
  {
    if h == [] then []
    else
      var s := h[|h| - 1].subject;
      Without(ByRecency(h[..|h| - 1]), s) + [s]
  }

  /** The `max(1, cap)` most recently observed distinct subjects. */
  function Tracked(h: seq<Obs>, cap: nat): seq<string> {
    LastOf(ByRecency(h), Max(1, cap))
  }

  function LastOf(xs: seq<string>, k: nat): (r: seq<string>)
    ensures |r| == Min(k, |xs|)
  {
    if |xs| <= k then xs else xs[|xs| - k..]
  }

  /** What `observe` does to the list: evict the front when a new subject finds it full, then move
      the subject to the back. */
  function LruEvicted(lru: seq<string>, s: string, cap: nat): seq<string> {
    if s !in lru && |lru| >= cap && lru != [] then lru[1..] else lru
  }

  function LruStep(lru: seq<string>, s: string, cap: nat): seq<string> {
    Without(LruEvicted(lru, s, cap), s) + [s]
  }

  predicate Appears(h: seq<Obs>, s: string) {
    exists i :: 0 <= i < |h| && h[i].subject == s
  }

  lemma AppearsNext(h: seq<Obs>, o: Obs, s: string)
    ensures Appears(h + [o], s) <==> Appears(h, s) || o.subject == s
  {
    assert (h + [o])[|h|] == o;
    assert forall i :: 0 <= i < |h| ==> (h + [o])[i] == h[i];
  }

  lemma {:induction false} ByRecencyDistinct(h: seq<Obs>)
    ensures NoDuplicates(ByRecency(h))
    ensures forall s :: s in ByRecency(h) <==> Appears(h, s)
    decreases |h|
  {
    if h != [] {
      var front, o := h[..|h| - 1], h[|h| - 1];
      ByRecencyDistinct(front);
      WithoutKeepsDistinct(ByRecency(front), o.subject);
      assert h == front + [o];
      forall x
        ensures x in ByRecency(h) <==> Appears(h, x)
      {
        AppearsNext(front, o, x);
      }
    }
  }

  /** The index of a subject's last observation. */
  function LastIndex(h: seq<Obs>, s: string): (r: Option<nat>)
    ensures r.Some? ==> r.value < |h| && h[r.value].subject == s
    ensures r.Some? ==> forall j :: r.value < j < |h| ==> h[j].subject != s
    ensures r.None? ==> forall j :: 0 <= j < |h| ==> h[j].subject != s
  {
    if h == [] then None
    else if h[|h| - 1].subject == s then Some(|h| - 1)
    else LastIndex(h[..|h| - 1], s)
  }

  predicate SeenBefore(h: seq<Obs>, a: string, b: string) {
    LastIndex(h, a).Some? && LastIndex(h, b).Some? && LastIndex(h, a).value < LastIndex(h, b).value
  }

  lemma {:induction false} WithoutKeepsOrder(xs: seq<string>, x: string, i: nat, j: nat) returns (i': nat, j': nat)
    requires i < j < |Without(xs, x)|
    ensures i' < j' < |xs| && xs[i'] == Without(xs, x)[i] && xs[j'] == Without(xs, x)[j]
    decreases |xs|
  {
    if xs[0] == x {
      i', j' := WithoutKeepsOrder(xs[1..], x, i, j);
      i', j' := i' + 1, j' + 1;
    } else if i == 0 {
      i' := 0;
      assert Without(xs, x)[j] in Without(xs[1..], x);
      var k :| 0 <= k < |xs[1..]| && xs[1..][k] == Without(xs, x)[j];
      j' := k + 1;
    } else {
      i', j' := WithoutKeepsOrder(xs[1..], x, i - 1, j - 1);
      i', j' := i' + 1, j' + 1;
    }
  }

  /** `ByRecency` is ordered by last observation. */
  lemma {:induction false} ByRecencyOrdered(h: seq<Obs>, i: nat, j: nat)
    requires i < j < |ByRecency(h)|
    ensures SeenBefore(h, ByRecency(h)[i], ByRecency(h)[j])
    decreases |h|
  {
    var front, s := h[..|h| - 1], h[|h| - 1].subject;
    var older := Without(ByRecency(front), s);
    ByRecencyDistinct(front);
    if j == |older| {
      assert older[i] in ByRecency(front);
      assert Appears(front, older[i]);
    } else {
      var i', j' := WithoutKeepsOrder(ByRecency(front), s, i, j);
      ByRecencyOrdered(front, i', j');
      assert older[i] in older && older[j] in older;
    }
  }

  lemma TouchTracked(older: seq<string>, lru: seq<string>, s: string, k: nat)
    requires NoDuplicates(older + lru) && s in lru && |lru| <= k && (older != [] ==> |lru| == k)
    ensures LastOf(Without(older + lru, s) + [s], k) == Without(lru, s) + [s]
  {
    assert s !in older by {
      var j :| 0 <= j < |lru| && lru[j] == s;
      assert (older + lru)[|older| + j] == s;
      assert forall i :: 0 <= i < |older| ==> (older + lru)[i] == older[i];
    }
    WithoutConcat(older, lru, s);
    WithoutAbsent(older, s);
    assert NoDuplicates(lru) by {
      assert forall i :: 0 <= i < |lru| ==> (older + lru)[|older| + i] == lru[i];
    }
    WithoutKeepsDistinct(lru, s);
  }

  lemma AdmitUntracked(older: seq<string>, lru: seq<string>, s: string, k: nat)
    requires s !in lru && |lru| <= k && 1 <= k && (older != [] ==> |lru| == k)
    ensures LastOf(Without(older + lru, s) + [s], k) == (if |lru| == k then lru[1..] else lru) + [s]
  {
    WithoutConcat(older, lru, s);
    WithoutAbsent(lru, s);
    if |lru| == k {
      var all := Without(older, s) + lru + [s];
      assert all[|all| - k..] == lru[1..] + [s];
    } else {
      assert older + lru == lru;
    }
  }

  /** Evicting one subject at a time keeps exactly the most recent ones. */
  lemma LruStepTracks(h: seq<Obs>, o: Obs, cap: nat)
    ensures LruStep(Tracked(h, cap), o.subject, cap) == Tracked(h + [o], cap)
  {
    var all, k, s := ByRecency(h), Max(1, cap), o.subject;
    var lru := Tracked(h, cap);
    var older := all[..|all| - |lru|];
    assert (h + [o])[..|h|] == h;
    assert all == older + lru;
    ByRecencyDistinct(h);
    if s in lru {
      TouchTracked(older, lru, s, k);
    } else {
      AdmitUntracked(older, lru, s, k);
      WithoutAbsent(LruEvicted(lru, s, cap), s);
    }
  }

  // ---------------------------------------------------------------- one subject since admission

  /** The position at which the subject was last admitted: observed while not tracked. */
  function AdmittedAt(h: seq<Obs>, s: string, cap: nat): nat {
    if h == [] then 0
    else
      var front, o := h[..|h| - 1], h[|h| - 1];
      if o.subject == s && s !in Tracked(front, cap) then |front| else AdmittedAt(front, s, cap)
  }

  /** The subject's samples from its last admission on. */
  function Since(h: seq<Obs>, s: string, cap: nat): seq<Sample> {
    if h == [] then []
    else
      var front, o := h[..|h| - 1], h[|h| - 1];
      if o.subject != s then Since(front, s, cap)
      else if s in Tracked(front, cap) then Since(front, s, cap) + [Sample(o.target, o.time)]
      else [Sample(o.target, o.time)]
  }

  lemma SinceNext(h: seq<Obs>, o: Obs, s: string, cap: nat)
    ensures Since(h + [o], s, cap) ==
        if o.subject != s then Since(h, s, cap)
        else (if s in Tracked(h, cap) then Since(h, s, cap) else []) + [Sample(o.target, o.time)]
  {
    assert (h + [o])[..|h|] == h;
  }

  /** Only the observed subject can become tracked. */
  lemma OnlyObservedIsAdmitted(h: seq<Obs>, o: Obs, s: string, cap: nat)
    requires s !in Tracked(h, cap) && s in Tracked(h + [o], cap)
    ensures o.subject == s
  {
    LruStepTracks(h, o, cap);
    var evicted := LruEvicted(Tracked(h, cap), o.subject, cap);
    assert forall x :: x in evicted ==> x in Tracked(h, cap);
  }

  ghost predicate TrackedFrom(h: seq<Obs>, s: string, cap: nat, a: nat) {
    forall j :: a < j <= |h| ==> s in Tracked(h[..j], cap)
  }

  lemma TrackedFromNext(h: seq<Obs>, o: Obs, s: string, cap: nat, a: nat)
    requires TrackedFrom(h, s, cap, a) && s in Tracked(h + [o], cap)
    ensures TrackedFrom(h + [o], s, cap, a)
  {
    forall j | a < j <= |h| + 1
      ensures s in Tracked((h + [o])[..j], cap)
    {
      assert (h + [o])[..j] == if j <= |h| then h[..j] else h + [o];
    }
  }

  /** A tracked subject was admitted at an observation of its own that found it untracked, and has
      been tracked ever since. */
  lemma {:induction false} AdmissionMeaning(h: seq<Obs>, s: string, cap: nat)
    requires s in Tracked(h, cap)
    ensures var a := AdmittedAt(h, s, cap);
            && a < |h| && h[a].subject == s && s !in Tracked(h[..a], cap)
            && TrackedFrom(h, s, cap, a)
    decreases |h|
  {
    var front, o := h[..|h| - 1], h[|h| - 1];
    var a := AdmittedAt(h, s, cap);
    assert h == front + [o];
    if s in Tracked(front, cap) {
      AdmissionMeaning(front, s, cap);
      assert front[..a] == h[..a];
    } else {
      OnlyObservedIsAdmitted(front, o, s, cap);
      assert h[..a] == front;
    }
    TrackedFromNext(front, o, s, cap, a);
  }

  /** Clocks never go back. */
  predicate Monotone(h: seq<Obs>) {
    forall i, j :: 0 <= i < j < |h| ==> h[i].time <= h[j].time
  }

  predicate SortedSamples(xs: seq<Sample>) {
    forall i, j :: 0 <= i < j < |xs| ==> xs[i].time <= xs[j].time
  }

  lemma {:induction false} SinceSorted(h: seq<Obs>, s: string, cap: nat)
    requires Monotone(h)
    ensures SortedSamples(Since(h, s, cap))
    ensures h != [] ==> forall x <- Since(h, s, cap) :: x.time <= h[|h| - 1].time
    decreases |h|
  {
    if h != [] {
      SinceSorted(h[..|h| - 1], s, cap);
    }
  }

  /** The positions of the subject's observations since admission that are not older than `cutoff`. */
  function FreshIndexes(h: seq<Obs>, s: string, from: nat, cutoff: nat): set<nat> {
    set i | from <= i < |h| && h[i].subject == s && h[i].time >= cutoff
  }

  function FreshSamples(xs: seq<Sample>, cutoff: nat): (r: seq<Sample>)
    ensures forall x :: x in r <==> x in xs && x.time >= cutoff
  {
    if xs == [] then []
    else
      var front, last := xs[..|xs| - 1], xs[|xs| - 1];
      FreshSamples(front, cutoff) + if last.time >= cutoff then [last] else []
  }

  lemma FreshNext(xs: seq<Sample>, x: Sample, cutoff: nat)
    ensures FreshSamples(xs + [x], cutoff) == FreshSamples(xs, cutoff) + if x.time >= cutoff then [x] else []
  {
    assert (xs + [x])[..|xs|] == xs;
  }

  lemma FreshIndexesNext(h: seq<Obs>, o: Obs, s: string, from: nat, cutoff: nat)
    requires from <= |h|
    ensures |FreshIndexes(h + [o], s, from, cutoff)|
         == |FreshIndexes(h, s, from, cutoff)| + if o.subject == s && o.time >= cutoff then 1 else 0
  {
    var before, after := FreshIndexes(h, s, from, cutoff), FreshIndexes(h + [o], s, from, cutoff);
    assert after == if o.subject == s && o.time >= cutoff then before + {|h|} else before;
  }

  lemma AdmittedNext(h: seq<Obs>, o: Obs, s: string, cap: nat)
    ensures AdmittedAt(h + [o], s, cap)
         == if o.subject == s && s !in Tracked(h, cap) then |h| else AdmittedAt(h, s, cap)
  {
    assert (h + [o])[..|h|] == h;
  }

  /** The number of fresh samples is the number of positions in the history. */
  lemma {:induction false} FreshCount(h: seq<Obs>, s: string, cap: nat, cutoff: nat)
    ensures AdmittedAt(h, s, cap) <= |h|
    ensures |FreshSamples(Since(h, s, cap), cutoff)| == |FreshIndexes(h, s, AdmittedAt(h, s, cap), cutoff)|
    decreases |h|
  {
    if h == [] {
      assert FreshIndexes(h, s, 0, cutoff) == {};
    } else {
      var front, o := h[..|h| - 1], h[|h| - 1];
      FreshCount(front, s, cap, cutoff);
      assert h == front + [o];
      FreshCountNext(front, o, s, cap, cutoff);
    }
  }

  lemma FreshCountNext(h: seq<Obs>, o: Obs, s: string, cap: nat, cutoff: nat)
    requires AdmittedAt(h, s, cap) <= |h|
    requires |FreshSamples(Since(h, s, cap), cutoff)| == |FreshIndexes(h, s, AdmittedAt(h, s, cap), cutoff)|
    ensures AdmittedAt(h + [o], s, cap) <= |h|
    ensures |FreshSamples(Since(h + [o], s, cap), cutoff)|
         == |FreshIndexes(h + [o], s, AdmittedAt(h + [o], s, cap), cutoff)|
  {
    AdmittedNext(h, o, s, cap);
    SinceNext(h, o, s, cap);
    FreshIndexesNext(h, o, s, AdmittedAt(h + [o], s, cap), cutoff);
    if o.subject == s {
      var kept := if s in Tracked(h, cap) then Since(h, s, cap) else [];
      FreshNext(kept, Sample(o.target, o.time), cutoff);
      if s !in Tracked(h, cap) {
        assert FreshIndexes(h, s, |h|, cutoff) == {};
      }
    }
  }

  ghost predicate ObservedFrom(h: seq<Obs>, s: string, from: nat, x: Sample) {
    exists i :: from <= i < |h| && h[i] == Obs(s, x.target, x.time)
  }

  lemma ObservedFromNext(h: seq<Obs>, o: Obs, s: string, from: nat, x: Sample)
    requires from <= |h|
    ensures ObservedFrom(h + [o], s, from, x) <==> ObservedFrom(h, s, from, x) || o == Obs(s, x.target, x.time)
  {
    var longer := h + [o];
    assert longer[|h|] == o;
    assert forall i :: 0 <= i < |h| ==> longer[i] == h[i];
  }

  /** The samples since admission are the subject's observations from that position on. */
  lemma {:induction false} SinceIsHistory(h: seq<Obs>, s: string, cap: nat, x: Sample)
    ensures AdmittedAt(h, s, cap) <= |h|
    ensures x in Since(h, s, cap) <==> ObservedFrom(h, s, AdmittedAt(h, s, cap), x)
    decreases |h|
  {
    if h != [] {
      var front, o := h[..|h| - 1], h[|h| - 1];
      assert h == front + [o];
      SinceIsHistory(front, s, cap, x);
      ObservedFromNext(front, o, s, AdmittedAt(h, s, cap), x);
    }
  }

  // ---------------------------------------------------------------- the rolling window

  function CutoffAt(windowMs: nat, now: nat): nat {
    SaturatingSub(now, windowMs)
  }

  /** The positions from `from` on at which the subject was observed no more than `windowMs` before
      `now`. */
  function WindowIndexes(h: seq<Obs>, s: string, from: nat, windowMs: nat, now: nat): set<nat> {
    set i: nat | from <= i < |h| && h[i].subject == s && h[i].time + windowMs >= now
  }

  /** Comparing with the cutoff is comparing with the window. */
  lemma CutoffIsWindow(h: seq<Obs>, s: string, from: nat, windowMs: nat, now: nat)
    ensures FreshIndexes(h, s, from, CutoffAt(windowMs, now)) == WindowIndexes(h, s, from, windowMs, now)
  {
  }

  /** The cutoff of the subject's own last observation. */
  function LastCutoff(windowMs: nat, h: seq<Obs>, s: string): nat {
    match LastIndex(h, s)
    case None => 0
    case Some(i) => CutoffAt(windowMs, h[i].time)
  }

  lemma LastCutoffGrows(windowMs: nat, h: seq<Obs>, o: Obs, s: string)
    requires Monotone(h + [o])
    ensures Monotone(h) && LastCutoff(windowMs, h, s) <= CutoffAt(windowMs, o.time)
  {
    assert forall i :: 0 <= i < |h| ==> h[i] == (h + [o])[i];
    if LastIndex(h, s).Some? {
      assert (h + [o])[LastIndex(h, s).value].time <= (h + [o])[|h|].time;
    }
  }

  // ---------------------------------------------------------------- the map beside the list

  lemma {:induction false} DistinctCount(xs: seq<string>)
    requires NoDuplicates(xs)
    ensures |set x | x in xs| == |xs|
    decreases |xs|
  {
    if xs == [] {
      assert (set x | x in xs) == {};
    } else {
      DistinctCount(xs[1..]);
      assert (set x | x in xs) == (set x | x in xs[1..]) + {xs[0]};
    }
  }

  /** The map's keys are the list's entries, and the list is free of duplicates. */
  ghost predicate ListMatches<W>(windows: map<string, W>, lru: seq<string>) {
    NoDuplicates(lru) && windows.Keys == (set x | x in lru)
  }

  lemma EvictionFollowsList<W>(windows: map<string, W>, lru: seq<string>, s: string, cap: nat)
    requires ListMatches(windows, lru)
    ensures |windows| == |lru|
    ensures s !in windows && |windows| >= cap && lru != [] ==> ListMatches(windows - {lru[0]}, lru[1..])
  {
    DistinctCount(lru);
    assert |windows| == |windows.Keys|;
    if lru != [] {
      assert lru == [lru[0]] + lru[1..];
    }
  }

  lemma TouchMatches<W>(windows: map<string, W>, lru: seq<string>, s: string, w: W)
    requires ListMatches(windows, lru)
    ensures ListMatches(windows[s := w], Without(lru, s) + [s])
  {
    WithoutKeepsDistinct(lru, s);
  }
}
