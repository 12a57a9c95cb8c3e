/** Distinct targets per subject in a rolling window, with a cap per subject: the tracker's step,
    the proof that evicting the oldest target never makes a later count wrong, and the object. */
module TargetTracking {
  import opened Common
  import opened Recency

  datatype Config = Config(windowMs: nat, threshold: nat, maxSubjects: nat, maxTargets: nat)

  /** Target to the time it was last seen. */
  type Entry = map<string, nat>

  datatype State = State(windows: map<string, Entry>, lru: seq<string>)

  const EMPTY: State := State(map[], [])

  // ---------------------------------------------------------------- one observation

  function Pruned(entry: Entry, cutoff: nat): Entry {
    map t | t in entry && entry[t] >= cutoff :: entry[t]
  }

  /** Seen earlier, or at the same time and earlier in key order. */
  predicate Precedes(entry: Entry, a: string, b: string)
    requires a in entry && b in entry
  {
    entry[a] < entry[b] || (entry[a] == entry[b] && (a == b || LexLess(a, b)))
  }

  /** The target `min_by_key` finds when it walks the map in key order. */
  predicate IsOldest(entry: Entry, t: string) {
    t in entry && forall u <- entry :: Precedes(entry, t, u)
  }

  lemma {:induction false} PrecedesTransitive(entry: Entry, a: string, b: string, c: string)
    requires a in entry && b in entry && c in entry && Precedes(entry, a, b) && Precedes(entry, b, c)
    ensures Precedes(entry, a, c)
  {
    if entry[a] == entry[b] == entry[c] && LexLess(a, b) && LexLess(b, c) {
      LexTransitive(a, b, c);
    }
  }

  lemma {:induction false} OldestExists(entry: Entry)
    requires entry != map[]
    ensures exists t :: IsOldest(entry, t)
    decreases |entry|
  {
    var u :| u in entry;
    var rest := entry - {u};
    if rest == map[] {
      assert forall v <- entry :: v != u ==> v in rest;
      assert IsOldest(entry, u);
    } else {
      assert entry.Keys == rest.Keys + {u};
      OldestExists(rest);
      var t :| IsOldest(rest, t);
      LexTotal(t, u);
      var best := if Precedes(entry, t, u) then t else u;
      forall v | v in entry
        ensures Precedes(entry, best, v)
      {
        if v != u {
          assert Precedes(rest, t, v);
          if best == u {
            PrecedesTransitive(entry, u, t, v);
          }
        }
      }
      assert IsOldest(entry, best);
    }
  }

  lemma OldestUnique(entry: Entry, a: string, b: string)
    requires IsOldest(entry, a) && IsOldest(entry, b)
    ensures a == b
  {
    LexTotal(a, b);
  }

  ghost function Oldest(entry: Entry): (t: string)
    requires entry != map[]
    ensures IsOldest(entry, t)
  {
    OldestExists(entry);
    var t :| IsOldest(entry, t);
    t
  }

  ghost function MadeRoom(entry: Entry, target: string, cap: nat): Entry {
    if |entry| >= cap && target !in entry && entry != map[] then entry - {Oldest(entry)} else entry
  }

  ghost function EntryAfter(entry: Entry, target: string, now: nat, cutoff: nat, cap: nat): Entry {
    MadeRoom(Pruned(entry, cutoff), target, cap)[target := now]
  }

  function Evicted(cfg: Config, st: State, s: string): State {
    if s !in st.windows && |st.windows| >= cfg.maxSubjects && st.lru != [] then
      State(st.windows - {st.lru[0]}, st.lru[1..])
    else st
  }

  function EntryOf(st: State, s: string): Entry {
    if s in st.windows then st.windows[s] else map[]
  }

  ghost function Observed(cfg: Config, st: State, s: string, target: string, now: nat): State {
    var kept := Evicted(cfg, st, s);
    State(kept.windows[s := EntryAfter(EntryOf(kept, s), target, now, CutoffAt(cfg.windowMs, now), cfg.maxTargets)],
          Without(kept.lru, s) + [s])
  }

  ghost function Run(cfg: Config, h: seq<Obs>): State {
    if h == [] then EMPTY
    else
      var o := h[|h| - 1];
      Observed(cfg, Run(cfg, h[..|h| - 1]), o.subject, o.target, o.time)
  }

  lemma RunNext(cfg: Config, h: seq<Obs>, o: Obs)
    ensures Run(cfg, h + [o]) == Observed(cfg, Run(cfg, h), o.subject, o.target, o.time)
  {
    assert (h + [o])[..|h|] == h;
  }

  lemma ObservedMatches(cfg: Config, st: State, s: string, target: string, now: nat)
    requires ListMatches(st.windows, st.lru)
    ensures var after := Observed(cfg, st, s, target, now);
            && ListMatches(after.windows, after.lru)
            && after.lru == LruStep(st.lru, s, cfg.maxSubjects)
  {
    EvictionFollowsList(st.windows, st.lru, s, cfg.maxSubjects);
    var kept := Evicted(cfg, st, s);
    TouchMatches(kept.windows, kept.lru, s, Observed(cfg, st, s, target, now).windows[s]);
  }

  ghost predicate Tracks(cfg: Config, h: seq<Obs>) {
    && Run(cfg, h).lru == Tracked(h, cfg.maxSubjects)
    && ListMatches(Run(cfg, h).windows, Run(cfg, h).lru)
  }

  lemma TracksNext(cfg: Config, h: seq<Obs>, o: Obs)
    requires Tracks(cfg, h)
    ensures Tracks(cfg, h + [o])
  {
    RunNext(cfg, h, o);
    ObservedMatches(cfg, Run(cfg, h), o.subject, o.target, o.time);
    LruStepTracks(h, o, cfg.maxSubjects);
  }

  /** The tracked subjects are the most recently observed ones, whatever the clock does. */
  lemma TracksMostRecent(cfg: Config, h: seq<Obs>)
    ensures Tracks(cfg, h)
  {
    var holds := (g: seq<Obs>) => Tracks(cfg, g);
    TracksFromStart(cfg);
    forall front, o: Obs | holds(front)
      ensures holds(front + [o])
    {
      TracksNext(cfg, front, o);
    }
    OverHistories(h, holds);
  }

  lemma TracksFromStart(cfg: Config)
    ensures Tracks(cfg, [])
  {
  }

  // ---------------------------------------------------------------- distinct targets in a history

  function TargetsOf(xs: seq<Sample>): set<string> {
    set x | x in xs :: x.target
  }

  function LastSeen(xs: seq<Sample>, t: string): nat
    requires t in TargetsOf(xs)
  {
    if xs[|xs| - 1].target == t then xs[|xs| - 1].time
    else
      assert xs == xs[..|xs| - 1] + [xs[|xs| - 1]];
      LastSeen(xs[..|xs| - 1], t)
  }

  function FreshTargets(xs: seq<Sample>, cutoff: nat): set<string> {
    set t | t in TargetsOf(xs) && LastSeen(xs, t) >= cutoff
  }

  lemma LastSeenNext(xs: seq<Sample>, x: Sample, t: string)
    ensures t in TargetsOf(xs + [x]) <==> t == x.target || t in TargetsOf(xs)
    ensures t in TargetsOf(xs + [x]) ==>
        LastSeen(xs + [x], t) == if t == x.target then x.time else LastSeen(xs, t)
  {
    assert (xs + [x])[..|xs|] == xs;
    assert x in xs + [x];
    assert forall y :: y in xs ==> y in xs + [x];
  }

  lemma {:induction false} LastSeenIsASample(xs: seq<Sample>, t: string)
    requires t in TargetsOf(xs)
    ensures Sample(t, LastSeen(xs, t)) in xs
    decreases |xs|
  {
    if xs[|xs| - 1].target != t {
      assert xs == xs[..|xs| - 1] + [xs[|xs| - 1]];
      LastSeenIsASample(xs[..|xs| - 1], t);
    }
  }

  // ---------------------------------------------------------------- the entry over time

  /** The entry holds true last-seen times. A target it misses was stale at the last cutoff, or the
      entry is full and every target it holds was seen no earlier. */
  ghost predicate EntryHolds(xs: seq<Sample>, entry: Entry, full: nat, cutoff: nat) {
    && |entry| <= full
    && (forall t <- entry :: t in TargetsOf(xs) && entry[t] == LastSeen(xs, t) && entry[t] >= cutoff)
    && (forall t <- TargetsOf(xs) :: t !in entry ==> ExcusedAt(xs, entry, full, cutoff, t))
  }

  ghost predicate ExcusedAt(xs: seq<Sample>, entry: Entry, full: nat, cutoff: nat, t: string)
    requires t in TargetsOf(xs)
  {
    LastSeen(xs, t) < cutoff || (|entry| == full && forall u <- entry :: LastSeen(xs, t) <= entry[u])
  }

  lemma PruneKeeps(xs: seq<Sample>, entry: Entry, full: nat, earlier: nat, cutoff: nat)
    requires EntryHolds(xs, entry, full, earlier) && earlier <= cutoff
    ensures EntryHolds(xs, Pruned(entry, cutoff), full, cutoff)
  {
    var kept := Pruned(entry, cutoff);
    assert kept.Keys <= entry.Keys;
    KeysCount(kept.Keys, entry.Keys);
    forall t | t in TargetsOf(xs) && t !in kept
      ensures ExcusedAt(xs, kept, full, cutoff, t)
    {
      if t !in entry {
        assert ExcusedAt(xs, entry, full, earlier, t);
        if kept.Keys == entry.Keys {
          assert kept == entry;
        } else {
          var u :| u in entry && u !in kept;
          assert entry[u] < cutoff;
        }
      }
    }
  }

  lemma KeysCount(a: set<string>, b: set<string>)
    requires a <= b
    ensures |a| <= |b| && (|a| == |b| ==> a == b)
  {
    assert b == a + (b - a);
  }

  /** Evicting the oldest target keeps every miss excused once the new target is in. */
  lemma InsertKeeps(xs: seq<Sample>, entry: Entry, target: string, now: nat, cap: nat, cutoff: nat)
    requires EntryHolds(xs, entry, Max(1, cap), cutoff) && cutoff <= now
    requires forall x <- xs :: x.time <= now
    ensures EntryHolds(xs + [Sample(target, now)], MadeRoom(entry, target, cap)[target := now], Max(1, cap), cutoff)
  {
    var full, x := Max(1, cap), Sample(target, now);
    var room := MadeRoom(entry, target, cap);
    var after := room[target := now];
    RoomSize(entry, target, now, cap);
    forall t | t in after
      ensures t in TargetsOf(xs + [x]) && after[t] == LastSeen(xs + [x], t) && after[t] >= cutoff
    {
      LastSeenNext(xs, x, t);
    }
    forall t | t in TargetsOf(xs + [x]) && t !in after
      ensures ExcusedAt(xs + [x], after, full, cutoff, t)
    {
      LastSeenNext(xs, x, t);
      LastSeenIsASample(xs, t);
      MissStaysExcused(xs, entry, target, now, cap, cutoff, t);
    }
  }

  lemma MissStaysExcused(xs: seq<Sample>, entry: Entry, target: string, now: nat, cap: nat, cutoff: nat, t: string)
    requires EntryHolds(xs, entry, Max(1, cap), cutoff) && t in TargetsOf(xs) && t != target
    requires t !in MadeRoom(entry, target, cap)
    requires LastSeen(xs, t) <= now
    ensures var after := MadeRoom(entry, target, cap)[target := now];
            LastSeen(xs, t) < cutoff || (|after| == Max(1, cap) && forall u <- after :: LastSeen(xs, t) <= after[u])
  {
    var room := MadeRoom(entry, target, cap);
    RoomSize(entry, target, now, cap);
    if t in entry {
      assert IsOldest(entry, t);
      forall u | u in room
        ensures LastSeen(xs, t) <= room[u]
      {
        assert Precedes(entry, t, u);
      }
    } else {
      assert ExcusedAt(xs, entry, Max(1, cap), cutoff, t);
    }
  }

  /** A full entry stays full. */
  lemma RoomSize(entry: Entry, target: string, now: nat, cap: nat)
    requires |entry| <= Max(1, cap)
    ensures var room := MadeRoom(entry, target, cap);
            var after := room[target := now];
            && |after| <= Max(1, cap)
            && (room != entry || |entry| == Max(1, cap) ==> |after| == Max(1, cap))
            && (forall u <- room :: u in entry && room[u] == entry[u])
  {
    var room := MadeRoom(entry, target, cap);
    assert room[target := now].Keys == room.Keys + {target};
    if room != entry {
      assert entry.Keys == room.Keys + {Oldest(entry)};
    }
  }

  /** The entry's size is the number of distinct fresh targets, up to the cap. */
  lemma EntryCounts(xs: seq<Sample>, entry: Entry, full: nat, cutoff: nat)
    requires EntryHolds(xs, entry, full, cutoff)
    ensures |entry| == Min(|FreshTargets(xs, cutoff)|, full)
  {
    var recent := FreshTargets(xs, cutoff);
    assert entry.Keys <= recent;
    KeysCount(entry.Keys, recent);
    if entry.Keys != recent {
      var t :| t in recent && t !in entry;
      assert ExcusedAt(xs, entry, full, cutoff, t);
    }
  }

  // ---------------------------------------------------------------- over whole histories

  ghost predicate HistoryHolds(cfg: Config, h: seq<Obs>, s: string) {
    var st := Run(cfg, h);
    s in st.windows ==>
      EntryHolds(Since(h, s, cfg.maxSubjects), st.windows[s], Max(1, cfg.maxTargets), LastCutoff(cfg.windowMs, h, s))
  }

  lemma ObservationKeeps(xs: seq<Sample>, entry: Entry, target: string, now: nat, cap: nat, earlier: nat, cutoff: nat)
    requires EntryHolds(xs, entry, Max(1, cap), earlier) && earlier <= cutoff <= now
    requires forall x <- xs :: x.time <= now
    ensures EntryHolds(xs + [Sample(target, now)], EntryAfter(entry, target, now, cutoff, cap), Max(1, cap), cutoff)
  {
    PruneKeeps(xs, entry, Max(1, cap), earlier, cutoff);
    InsertKeeps(xs, Pruned(entry, cutoff), target, now, cap, cutoff);
  }

  /** What an observation makes of the subject's own entry. */
  lemma OwnEntry(cfg: Config, h: seq<Obs>, o: Obs)
    ensures var s, now := o.subject, o.time;
            var before := if s in Tracked(h, cfg.maxSubjects) then EntryOf(Run(cfg, h), s) else map[];
            && s in Run(cfg, h + [o]).windows
            && Run(cfg, h + [o]).windows[s]
                 == EntryAfter(before, o.target, now, CutoffAt(cfg.windowMs, now), cfg.maxTargets)
    ensures forall x :: x in Run(cfg, h).windows <==> x in Tracked(h, cfg.maxSubjects)
  {
    RunNext(cfg, h, o);
    KeysAreTracked(cfg, h);
    ObservedEntry(cfg, Run(cfg, h), o.subject, o.target, o.time);
  }

  lemma KeysAreTracked(cfg: Config, h: seq<Obs>)
    ensures forall x :: x in Run(cfg, h).windows <==> x in Tracked(h, cfg.maxSubjects)
  {
    TracksMostRecent(cfg, h);
  }

  /** Evicting another subject does not touch the entry. */
  lemma ObservedEntry(cfg: Config, st: State, s: string, target: string, now: nat)
    ensures var after := Observed(cfg, st, s, target, now);
            && s in after.windows
            && after.windows[s]
                 == EntryAfter(EntryOf(st, s), target, now, CutoffAt(cfg.windowMs, now), cfg.maxTargets)
  {
    assert EntryOf(Evicted(cfg, st, s), s) == EntryOf(st, s);
  }

  lemma OwnObservationHolds(cfg: Config, h: seq<Obs>, o: Obs)
    requires Monotone(h + [o]) && HistoryHolds(cfg, h, o.subject)
    ensures HistoryHolds(cfg, h + [o], o.subject)
  {
    var s, cap, now := o.subject, cfg.maxSubjects, o.time;
    var cutoff := CutoffAt(cfg.windowMs, now);
    OwnEntry(cfg, h, o);
    SinceNext(h, o, s, cap);
    assert LastCutoff(cfg.windowMs, h + [o], s) == cutoff;
    if s in Tracked(h, cap) {
      LastCutoffGrows(cfg.windowMs, h, o, s);
      SinceSorted(h, s, cap);
      SamplesBefore(h, o, s, cap);
      ObservationKeeps(Since(h, s, cap), Run(cfg, h).windows[s], o.target, now, cfg.maxTargets,
                       LastCutoff(cfg.windowMs, h, s), cutoff);
    } else {
      assert EntryHolds([], map[], Max(1, cfg.maxTargets), 0);
      ObservationKeeps([], map[], o.target, now, cfg.maxTargets, 0, cutoff);
    }
  }

  lemma SamplesBefore(h: seq<Obs>, o: Obs, s: string, cap: nat)
    requires Monotone(h + [o])
    ensures forall x <- Since(h, s, cap) :: x.time <= o.time
  {
    assert forall i :: 0 <= i < |h| ==> h[i] == (h + [o])[i];
    SinceSorted(h, s, cap);
    if h != [] {
      assert (h + [o])[|h| - 1].time <= (h + [o])[|h|].time;
    }
  }

  lemma OtherObservationHolds(cfg: Config, h: seq<Obs>, o: Obs, s: string)
    requires s != o.subject && HistoryHolds(cfg, h, s)
    ensures HistoryHolds(cfg, h + [o], s)
  {
    RunNext(cfg, h, o);
    SinceNext(h, o, s, cfg.maxSubjects);
    assert (h + [o])[..|h|] == h;
  }

  lemma {:induction false} EntriesStayTrue(cfg: Config, h: seq<Obs>, s: string)
    requires Monotone(h)
    ensures HistoryHolds(cfg, h, s)
    decreases |h|
  {
    if h != [] {
      var front, o := h[..|h| - 1], h[|h| - 1];
      assert h == front + [o];
      EntriesStayTrue(cfg, front, s);
      if o.subject == s {
        OwnObservationHolds(cfg, front, o);
      } else {
        OtherObservationHolds(cfg, front, o, s);
      }
    }
  }

  /** The distinct targets the subject hit within the window that ends now, since it was last
      admitted. */
  function TargetsInWindow(cfg: Config, h: seq<Obs>, s: string, now: nat): set<string> {
    var from := AdmittedAt(h, s, cfg.maxSubjects);
    set i: nat | from <= i < |h| && h[i].subject == s && h[i].time + cfg.windowMs >= now :: h[i].target
  }

  lemma {:induction false} LastSeenIsLatest(xs: seq<Sample>, x: Sample)
    requires SortedSamples(xs) && x in xs
    ensures x.target in TargetsOf(xs) && x.time <= LastSeen(xs, x.target)
    decreases |xs|
  {
    var front, last := xs[..|xs| - 1], xs[|xs| - 1];
    assert xs == front + [last];
    if last.target != x.target {
      LastSeenIsLatest(front, x);
    }
  }

  /** Last-seen times and positions in the history name the same targets. */
  lemma FreshTargetsAreInWindow(cfg: Config, h: seq<Obs>, s: string, now: nat)
    requires Monotone(h)
    ensures FreshTargets(Since(h, s, cfg.maxSubjects), CutoffAt(cfg.windowMs, now)) == TargetsInWindow(cfg, h, s, now)
  {
    var xs, cap, cutoff := Since(h, s, cfg.maxSubjects), cfg.maxSubjects, CutoffAt(cfg.windowMs, now);
    SinceSorted(h, s, cap);
    forall t | t in FreshTargets(xs, cutoff)
      ensures t in TargetsInWindow(cfg, h, s, now)
    {
      LastSeenIsASample(xs, t);
      SinceIsHistory(h, s, cap, Sample(t, LastSeen(xs, t)));
    }
    forall t | t in TargetsInWindow(cfg, h, s, now)
      ensures t in FreshTargets(xs, cutoff)
    {
      var i: nat :| AdmittedAt(h, s, cap) <= i < |h| && h[i].subject == s && h[i].time + cfg.windowMs >= now
                    && h[i].target == t;
      SinceIsHistory(h, s, cap, Sample(t, h[i].time));
      assert h[i] == Obs(s, t, h[i].time);
      LastSeenIsLatest(xs, Sample(t, h[i].time));
    }
  }

  /** With clocks that never go back, the size `observe` compares with its threshold is the number
      of distinct targets in the window since the subject was last admitted, up to the cap. */
  lemma CountIsExact(cfg: Config, h: seq<Obs>, o: Obs)
    requires Monotone(h + [o])
    ensures o.subject in Run(cfg, h + [o]).windows
    ensures |Run(cfg, h + [o]).windows[o.subject]|
         == Min(|TargetsInWindow(cfg, h + [o], o.subject, o.time)|, Max(1, cfg.maxTargets))
  {
    var s := o.subject;
    OwnEntry(cfg, h, o);
    EntriesStayTrue(cfg, h + [o], s);
    EntryCounts(Since(h + [o], s, cfg.maxSubjects), Run(cfg, h + [o]).windows[s],
                Max(1, cfg.maxTargets), CutoffAt(cfg.windowMs, o.time));
    FreshTargetsAreInWindow(cfg, h + [o], s, o.time);
  }

  // ---------------------------------------------------------------- any clock

  /** Whatever the clock does, an entry holds times at which its targets were really seen. */
  ghost predicate EntrySound(xs: seq<Sample>, entry: Entry, full: nat) {
    |entry| <= full && forall t <- entry :: Sample(t, entry[t]) in xs
  }

  lemma ObservationKeepsSound(xs: seq<Sample>, entry: Entry, target: string, now: nat, cutoff: nat, cap: nat)
    requires EntrySound(xs, entry, Max(1, cap))
    ensures EntrySound(xs + [Sample(target, now)], EntryAfter(entry, target, now, cutoff, cap), Max(1, cap))
  {
    var pruned := Pruned(entry, cutoff);
    KeysCount(pruned.Keys, entry.Keys);
    RoomSize(pruned, target, now, cap);
  }

  ghost predicate SoundFor(cfg: Config, s: string, h: seq<Obs>) {
    s in Run(cfg, h).windows ==>
      EntrySound(Since(h, s, cfg.maxSubjects), Run(cfg, h).windows[s], Max(1, cfg.maxTargets))
  }

  lemma SoundNext(cfg: Config, s: string, h: seq<Obs>, o: Obs)
    requires SoundFor(cfg, s, h)
    ensures SoundFor(cfg, s, h + [o])
  {
    SinceNext(h, o, s, cfg.maxSubjects);
    if o.subject == s {
      OwnEntry(cfg, h, o);
      var tracked := s in Tracked(h, cfg.maxSubjects);
      ObservationKeepsSound(if tracked then Since(h, s, cfg.maxSubjects) else [],
                            if tracked then EntryOf(Run(cfg, h), s) else map[],
                            o.target, o.time, CutoffAt(cfg.windowMs, o.time), cfg.maxTargets);
    } else {
      RunNext(cfg, h, o);
    }
  }

  lemma AlwaysSound(cfg: Config, s: string, h: seq<Obs>)
    ensures SoundFor(cfg, s, h)
  {
    var holds := (g: seq<Obs>) => SoundFor(cfg, s, g);
    forall front, o: Obs | holds(front)
      ensures holds(front + [o])
    {
      SoundNext(cfg, s, front, o);
    }
    OverHistories(h, holds);
  }

  /** The targets that pruning at the new cutoff leaves in the entry. */
  ghost function Kept(cfg: Config, h: seq<Obs>, o: Obs): set<string> {
    Pruned(EntryOf(Run(cfg, h), o.subject), CutoffAt(cfg.windowMs, o.time)).Keys
  }

  /** The targets of the window that the entry no longer has at a time in the window: pruned or evicted
      before, or seen again with an older time. A caller can tell them before the observation. */
  ghost function Missing(cfg: Config, h: seq<Obs>, o: Obs): set<string> {
    TargetsInWindow(cfg, h + [o], o.subject, o.time) - Kept(cfg, h, o) - {o.target}
  }

  lemma InWindow(cfg: Config, h: seq<Obs>, s: string, now: nat, t: string, time: nat)
    requires Sample(t, time) in Since(h, s, cfg.maxSubjects) && time >= CutoffAt(cfg.windowMs, now)
    ensures t in TargetsInWindow(cfg, h, s, now)
  {
    var from := AdmittedAt(h, s, cfg.maxSubjects);
    SinceIsHistory(h, s, cfg.maxSubjects, Sample(t, time));
    var i :| from <= i < |h| && h[i] == Obs(s, t, time);
    assert h[i].subject == s && h[i].time + cfg.windowMs >= now && h[i].target == t;
  }

  lemma KeptIsInWindow(cfg: Config, h: seq<Obs>, o: Obs)
    ensures Kept(cfg, h, o) + {o.target} <= TargetsInWindow(cfg, h + [o], o.subject, o.time)
  {
    var s, cap := o.subject, cfg.maxSubjects;
    AlwaysSound(cfg, s, h);
    KeysAreTracked(cfg, h);
    SinceNext(h, o, s, cap);
    forall t | t in Kept(cfg, h, o) + {o.target}
      ensures t in TargetsInWindow(cfg, h + [o], s, o.time)
    {
      if t in Kept(cfg, h, o) {
        InWindow(cfg, h + [o], s, o.time, t, EntryOf(Run(cfg, h), s)[t]);
      } else {
        InWindow(cfg, h + [o], s, o.time, t, o.time);
      }
    }
  }

  lemma {:induction false} SizeWithRoom(entry: Entry, target: string, now: nat, cap: nat)
    requires |entry| <= Max(1, cap)
    ensures |MadeRoom(entry, target, cap)[target := now]| == Min(|entry.Keys + {target}|, Max(1, cap))
  {
    PutSize(MadeRoom(entry, target, cap), target, now);
    PutSize(entry, target, now);
    if |entry| >= cap && target !in entry && entry != map[] {
      WithoutSize(entry, Oldest(entry));
    }
  }

  lemma {:induction false} PutSize(entry: Entry, target: string, now: nat)
    ensures |entry[target := now]| == |entry.Keys + {target}| == |entry| + if target in entry then 0 else 1
  {
    assert entry[target := now].Keys == entry.Keys + {target};
    assert |entry[target := now]| == |entry[target := now].Keys| && |entry| == |entry.Keys|;
    if target in entry {
      assert entry.Keys + {target} == entry.Keys;
    }
  }

  lemma {:induction false} WithoutSize(entry: Entry, t: string)
    requires t in entry
    ensures |entry - {t}| == |entry| - 1
  {
    assert (entry - {t}).Keys == entry.Keys - {t};
    assert |entry - {t}| == |(entry - {t}).Keys| && |entry| == |entry.Keys|;
  }

  lemma CountIsKept(cfg: Config, h: seq<Obs>, o: Obs)
    ensures o.subject in Run(cfg, h + [o]).windows
    ensures |Run(cfg, h + [o]).windows[o.subject]| == Min(|Kept(cfg, h, o) + {o.target}|, Max(1, cfg.maxTargets))
  {
    var s := o.subject;
    OwnEntry(cfg, h, o);
    AlwaysSound(cfg, s, h);
    var entry := EntryOf(Run(cfg, h), s);
    var pruned := Pruned(entry, CutoffAt(cfg.windowMs, o.time));
    KeysCount(pruned.Keys, entry.Keys);
    SizeWithRoom(pruned, o.target, o.time, cfg.maxTargets);
  }

  lemma Remainder(all: set<string>, kept: set<string>, target: string)
    requires kept + {target} <= all
    ensures |kept + {target}| == |all| - |all - kept - {target}|
  {
    assert all == (kept + {target}) + (all - kept - {target});
  }

  /** For every history and clock: the size compared with the threshold is the number of distinct
      targets in the window less the missing ones, up to the cap. */
  lemma CountForAnyClock(cfg: Config, h: seq<Obs>, o: Obs)
    ensures o.subject in Run(cfg, h + [o]).windows
    ensures |Kept(cfg, h, o) + {o.target}|
         == |TargetsInWindow(cfg, h + [o], o.subject, o.time)| - |Missing(cfg, h, o)|
    ensures |Run(cfg, h + [o]).windows[o.subject]|
         == Min(|Kept(cfg, h, o) + {o.target}|, Max(1, cfg.maxTargets))
  {
    CountIsKept(cfg, h, o);
    KeptIsInWindow(cfg, h, o);
    Remainder(TargetsInWindow(cfg, h + [o], o.subject, o.time), Kept(cfg, h, o), o.target);
  }

  /** For every history and clock: that size is min(D, max(1, cap)) for the D distinct targets in the
      window if and only if none of them is missing, or the entry is full all the same. */
  lemma CountExactIff(cfg: Config, h: seq<Obs>, o: Obs)
    ensures o.subject in Run(cfg, h + [o]).windows
    ensures |Run(cfg, h + [o]).windows[o.subject]|
              == Min(|TargetsInWindow(cfg, h + [o], o.subject, o.time)|, Max(1, cfg.maxTargets))
            <==> Missing(cfg, h, o) == {} || |Kept(cfg, h, o) + {o.target}| >= Max(1, cfg.maxTargets)
  {
    CountForAnyClock(cfg, h, o);
  }

  lemma FirstTarget(cfg: Config, s: string, a: string)
    ensures var h := [Obs(s, a, 100)];
            s in Run(cfg, h).windows && Run(cfg, h).windows[s] == map[a := 100]
            && Since(h, s, cfg.maxSubjects) == [Sample(a, 100)]
  {
    OwnEntry(cfg, [], Obs(s, a, 100));
    SinceNext([], Obs(s, a, 100), s, cfg.maxSubjects);
    assert [] + [Obs(s, a, 100)] == [Obs(s, a, 100)];
  }

  lemma {:induction false} PrunedAhead(cfg: Config, s: string, h: seq<Obs>, a: string, b: string)
    requires cfg.windowMs == 50 && s in Run(cfg, h).windows && Run(cfg, h).windows[s] == map[a := 100]
    ensures var end := h + [Obs(s, b, 200)];
            && s in Run(cfg, end).windows && Run(cfg, end).windows[s] == map[b := 200]
            && Since(end, s, cfg.maxSubjects) == Since(h, s, cfg.maxSubjects) + [Sample(b, 200)]
  {
    OwnEntry(cfg, h, Obs(s, b, 200));
    SinceNext(h, Obs(s, b, 200), s, cfg.maxSubjects);
    KeysAreTracked(cfg, h);
    assert Pruned(map[a := 100], 150) == map[];
  }

  /** A clock that runs ahead and comes back, with a window of 50: `a` was pruned at 200, is in the window
      again at 120, and is missing. */
  lemma {:induction false} BackwardClockMisses(cfg: Config, s: string, h: seq<Obs>, a: string, b: string, c: string)
    requires cfg.windowMs == 50 && h == [Obs(s, a, 100)] + [Obs(s, b, 200)] && a != b && a != c
    ensures a in Missing(cfg, h, Obs(s, c, 120))
  {
    FirstTarget(cfg, s, a);
    PrunedAhead(cfg, s, [Obs(s, a, 100)], a, b);
    var o := Obs(s, c, 120);
    KeysAreTracked(cfg, h);
    SinceNext(h, o, s, cfg.maxSubjects);
    assert Sample(a, 100) in Since(h + [o], s, cfg.maxSubjects);
    InWindow(cfg, h + [o], s, 120, a, 100);
  }

  // ---------------------------------------------------------------- the object

  /** Walks the entry for the earliest-seen target. */
  method FindOldest(entry: Entry) returns (oldest: string)
    requires entry != map[]
    ensures IsOldest(entry, oldest)
    ensures oldest in entry
    ensures forall u <- entry :: u == oldest || entry[oldest] < entry[u]
                                 || (entry[oldest] == entry[u] && LexLess(oldest, u))
  {
    var todo := entry.Keys;
    oldest :| oldest in todo;
    todo := todo - {oldest};
    while todo != {}
      invariant todo <= entry.Keys && oldest in entry
      invariant forall u <- entry :: u !in todo ==> Precedes(entry, oldest, u)
      decreases todo
    {
      var u :| u in todo;
      todo := todo - {u};
      LexTotal(oldest, u);
      if !Precedes(entry, oldest, u) {
        forall v | v in entry && Precedes(entry, oldest, v)
          ensures Precedes(entry, u, v)
        {
          PrecedesTransitive(entry, u, oldest, v);
        }
        oldest := u;
      }
    }
  }

  class TargetTracker {
    const config: Config
    var windows: map<string, Entry>
    var lru: seq<string>
    var subjectAtCapacityReported: bool
    var targetAtCapacityReported: bool
    ghost var history: seq<Obs>

    ghost function Value(): State
      reads this
    {
      State(windows, lru)
    }

    ghost predicate Valid()
      reads this
    {
      Value() == Run(config, history)
    }

    constructor (config: Config)
      ensures this.config == config && history == [] && Valid()
    {
      this.config := config;
      windows := map[];
      lru := [];
      subjectAtCapacityReported := false;
      targetAtCapacityReported := false;
      history := [];
    }

    /** Makes room for a new subject. */
    method EvictFor(subject: string)
      modifies this`windows, this`lru, this`subjectAtCapacityReported
      ensures Value() == Evicted(config, old(Value()), subject)
    {
      if subject !in windows && |windows| >= config.maxSubjects {
        if lru != [] {
          windows := windows - {lru[0]};
          lru := lru[1..];
        }
        subjectAtCapacityReported := true;
      }
    }

    /** The subject's entry with stale targets pruned, room made, and the target seen now. */
    method Touched(entry: Entry, target: string, now: nat) returns (after: Entry)
      modifies this`targetAtCapacityReported
      ensures after == EntryAfter(entry, target, now, CutoffAt(config.windowMs, now), config.maxTargets)
    {
      var cutoff := SaturatingSub(now, config.windowMs);
      after := Pruned(entry, cutoff);
      if |after| >= config.maxTargets && target !in after {
        if after != map[] {
          var oldest := FindOldest(after);
          OldestUnique(after, oldest, Oldest(after));
          after := after - {oldest};
        }
        targetAtCapacityReported := true;
      }
      after := after[target := now];
    }

    method Observe(subject: string, target: string, now: nat) returns (signal: Option<nat>)
      requires Valid()
      modifies this
      ensures Valid() && history == old(history) + [Obs(subject, target, now)]
      ensures Value() == Observed(config, old(Value()), subject, target, now)
      ensures subject in windows
      ensures Monotone(history) ==>
          |windows[subject]| == Min(|TargetsInWindow(config, history, subject, now)|, Max(1, config.maxTargets))
      ensures |windows[subject]| < U32_MODULUS ==>
          signal == if |windows[subject]| > config.threshold then Some(|windows[subject]|) else None
      ensures signal == if AsU32(|windows[subject]|) > config.threshold then Some(AsU32(|windows[subject]|)) else None
    {
      EvictFor(subject);
      var entry := if subject in windows then windows[subject] else map[];
      entry := Touched(entry, target, now);
      windows := windows[subject := entry];
      lru := Without(lru, subject) + [subject];
      var count := AsU32(|entry|);
      LowBits(|entry|);
      signal := if count > config.threshold then Some(count) else None;
      Remember(Obs(subject, target, now));
    }

    /** Extends the ghost history; with monotone clocks the entry size is the count over it. */
    ghost method Remember(o: Obs)
      requires Value() == Observed(config, Run(config, history), o.subject, o.target, o.time)
      modifies this`history
      ensures history == old(history) + [o] && Valid()
      ensures o.subject in windows
      ensures Monotone(history) ==>
          |windows[o.subject]| == Min(|TargetsInWindow(config, history, o.subject, o.time)|, Max(1, config.maxTargets))
    {
      RunNext(config, history, o);
      if Monotone(history + [o]) {
        CountIsExact(config, history, o);
      }
      history := history + [o];
    }
  }
}
