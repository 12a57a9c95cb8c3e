/** The staleness sweep: every open lifecycle whose last event is old enough is closed with
    uncertainty. */
module StalenessScanner {
  import opened Common
  import opened LifecycleTypes
  import opened LifecycleStores
  import opened LifecycleEngine

  function TimeoutStateFor(current: State): State {
    match current
    case Started => Abandoned
    case Processing => Timeout
    case Pending => Timeout
    case Unknown => Timeout
    case other => other
  }

  predicate Stale(lc: Lifecycle, now: nat) {
    SaturatingSub(now, lc.lastEventAtMs) >= lc.stalenessMs
  }

  function TimedOut(lc: Lifecycle, now: nat): Lifecycle {
    lc.(state := TimeoutStateFor(lc.state), closure := ClosedWithUncertainty, closedAtMs := Some(now))
  }

  function SweepOne(s: Store, lc: Lifecycle, now: nat): Store {
    if Stale(lc, now) then Upsert(s, TimedOut(lc, now)) else s
  }

  /** The sweep over one listing of the open lifecycles. */
  function SweepList(s: Store, open: seq<Lifecycle>, now: nat): Store {
    if open == [] then s else SweepOne(SweepList(s, open[..|open| - 1], now), open[|open| - 1], now)
  }

  /** What a sweep means: all open stale lifecycles time out at once, nothing else changes. */
  function SweptLifecycle(lc: Lifecycle, now: nat): Lifecycle {
    if lc.closure == Open && Stale(lc, now) then TimedOut(lc, now) else lc
  }

  function Swept(m: MemState, now: nat): MemState {
    m.(lifecycles := map id | id in m.lifecycles :: SweptLifecycle(m.lifecycles[id], now))
  }

  /** Writing a stored lifecycle back with the same keys and events moves no index. */
  lemma RewriteMovesNoIndex(m: MemState, lc: Lifecycle)
    requires MemInv(m) && lc.id in m.lifecycles
    requires var was := m.lifecycles[lc.id];
             was.resourceId == lc.resourceId && was.businessKey == lc.businessKey && was.eventIds == lc.eventIds
    ensures MemUpsert(m, lc) == m.(lifecycles := m.lifecycles[lc.id := lc])
    ensures Upsertable(m, lc)
  {
    StoredIsUpsertable(m, lc.id);
    ReindexingIsIdle(m, lc, m.byResource, RESOURCE_KEY);
    ReindexingIsIdle(m, lc, m.byBusinessKey, BUSINESS_KEY);
    RebindingIsIdle(m, lc.id);
  }

  lemma ReindexingIsIdle(m: MemState, lc: Lifecycle, index: map<string, string>, keyOf: Lifecycle -> Option<string>)
    requires IndexExact(m, index, keyOf) && lc.id in m.lifecycles && keyOf(m.lifecycles[lc.id]) == keyOf(lc)
    ensures Reindexed(index, keyOf(lc), lc.id) == index
  {
  }

  lemma RebindingIsIdle(m: MemState, id: string)
    requires EventsExact(m) && id in m.lifecycles
    ensures BindAll(m.byEvent, m.lifecycles[id].eventIds, id) == m.byEvent
  {
    assert forall e <- m.lifecycles[id].eventIds :: e in m.byEvent && m.byEvent[e] == id;
  }

  /** Part way through a listing: its first `i` entries are swept. */
  function SweptUpTo(m: MemState, ids: seq<string>, i: nat, now: nat): MemState
    requires i <= |ids|
  {
    m.(lifecycles := map id | id in m.lifecycles ::
         if id in ids[..i] then SweptLifecycle(m.lifecycles[id], now) else m.lifecycles[id])
  }

  lemma SweptUpToKeepsIndexes(m: MemState, ids: seq<string>, i: nat, now: nat)
    requires MemInv(m) && i <= |ids|
    ensures MemInv(SweptUpTo(m, ids, i, now))
  {
    var after := SweptUpTo(m, ids, i, now);
    forall id | id in after.lifecycles
      ensures RESOURCE_KEY(after.lifecycles[id]) == RESOURCE_KEY(m.lifecycles[id])
      ensures BUSINESS_KEY(after.lifecycles[id]) == BUSINESS_KEY(m.lifecycles[id])
      ensures after.lifecycles[id].eventIds == m.lifecycles[id].eventIds
    {
    }
  }

  lemma SweptUpToNext(m: MemState, open: seq<Lifecycle>, ids: seq<string>, i: nat, now: nat)
    requires MemInv(m) && ListsOpen(Mem(m), open, ids) && i < |ids|
    ensures var part := SweptUpTo(m, ids, i, now);
            && ids[i] == open[i].id
            && ids[i] in part.lifecycles && part.lifecycles[ids[i]] == open[i]
            && SweptUpTo(m, ids, i + 1, now)
                 == part.(lifecycles := part.lifecycles[ids[i] := SweptLifecycle(open[i], now)])
  {
    var id := ids[i];
    assert id in OpenIds(Mem(m)) && Get(Mem(m), id) == Some(open[i]);
    assert id !in ids[..i];
    assert ids[..i + 1] == ids[..i] + [id];
    assert SweptUpTo(m, ids, i + 1, now).lifecycles
        == SweptUpTo(m, ids, i, now).lifecycles[id := SweptLifecycle(open[i], now)];
  }

  lemma SweepNext(m: MemState, open: seq<Lifecycle>, ids: seq<string>, i: nat, now: nat)
    requires MemInv(m) && ListsOpen(Mem(m), open, ids) && i < |ids|
    ensures SweepOne(Mem(SweptUpTo(m, ids, i, now)), open[i], now) == Mem(SweptUpTo(m, ids, i + 1, now))
    ensures Stale(open[i], now) ==> Upsertable(SweptUpTo(m, ids, i, now), TimedOut(open[i], now))
  {
    var part := SweptUpTo(m, ids, i, now);
    assert MemInv(part) by { SweptUpToKeepsIndexes(m, ids, i, now); }
    SweptUpToNext(m, open, ids, i, now);
    assert open[i].closure == Open by {
      assert ids[i] in OpenIds(Mem(m)) && Get(Mem(m), ids[i]) == Some(open[i]);
    }
    if Stale(open[i], now) {
      RewriteMovesNoIndex(part, TimedOut(open[i], now));
    } else {
      assert part.lifecycles[ids[i] := open[i]] == part.lifecycles;
    }
  }

  lemma NothingSwept(m: MemState, ids: seq<string>, now: nat)
    ensures SweptUpTo(m, ids, 0, now) == m
  {
    assert SweptUpTo(m, ids, 0, now).lifecycles == m.lifecycles;
  }

  lemma {:induction false} SweepPrefix(m: MemState, open: seq<Lifecycle>, ids: seq<string>, i: nat, now: nat)
    requires MemInv(m) && ListsOpen(Mem(m), open, ids) && i <= |ids|
    ensures SweepList(Mem(m), open[..i], now) == Mem(SweptUpTo(m, ids, i, now))
  {
    if i == 0 {
      NothingSwept(m, ids, now);
    } else {
      SweepPrefix(m, open, ids, i - 1, now);
      SweepPrefixNext(m, open, ids, i - 1, now);
    }
  }

  lemma SweepPrefixNext(m: MemState, open: seq<Lifecycle>, ids: seq<string>, i: nat, now: nat)
    requires MemInv(m) && ListsOpen(Mem(m), open, ids) && i < |ids|
    requires SweepList(Mem(m), open[..i], now) == Mem(SweptUpTo(m, ids, i, now))
    ensures SweepList(Mem(m), open[..i + 1], now) == Mem(SweptUpTo(m, ids, i + 1, now))
  {
    SweepListNext(Mem(m), open, i, now);
    SweepNext(m, open, ids, i, now);
  }

  lemma SweptAll(m: MemState, open: seq<Lifecycle>, ids: seq<string>, now: nat)
    requires MemInv(m) && ListsOpen(Mem(m), open, ids)
    ensures SweptUpTo(m, ids, |ids|, now) == Swept(m, now)
  {
    assert ids[..|ids|] == ids;
    forall id | id in m.lifecycles
      ensures id in ids || SweptLifecycle(m.lifecycles[id], now) == m.lifecycles[id]
    {
      assert id in ids <==> id in OpenIds(Mem(m));
    }
    assert SweptUpTo(m, ids, |ids|, now).lifecycles == Swept(m, now).lifecycles;
  }

  /** In whatever order the open lifecycles are listed, the sweep times out all stale ones at once. */
  lemma SweepMeaning(m: MemState, open: seq<Lifecycle>, now: nat)
    requires MemInv(m) && IsOpenListing(Mem(m), open)
    ensures SweepList(Mem(m), open, now) == Mem(Swept(m, now))
    ensures MemInv(Swept(m, now))
  {
    var ids :| ListsOpen(Mem(m), open, ids);
    SweptAll(m, open, ids, now);
    SweptUpToKeepsIndexes(m, ids, |ids|, now);
    SweepPrefix(m, open, ids, |ids|, now);
    assert open[..|ids|] == open;
  }

  lemma SweepListNext(s: Store, open: seq<Lifecycle>, i: nat, now: nat)
    requires i < |open|
    ensures SweepList(s, open[..i + 1], now) == SweepOne(SweepList(s, open[..i], now), open[i], now)
  {
    assert open[..i + 1][..i] == open[..i];
  }

  ghost predicate Alike(a: Store, b: Store) {
    a.Mem? && b.Sql? && MemInv(a.m) && Related(a.m, b.q)
  }

  lemma SweepOneStaysAlike(a: Store, b: Store, lc: Lifecycle, now: nat)
    requires Alike(a, b) && (Stale(lc, now) ==> Upsertable(a.m, TimedOut(lc, now)))
    ensures Alike(SweepOne(a, lc, now), SweepOne(b, lc, now))
  {
    if Stale(lc, now) {
      UpsertKeepsIndexes(a.m, TimedOut(lc, now));
      UpsertKeepsRelation(a.m, b.q, TimedOut(lc, now));
    }
  }

  lemma {:induction false} SweepStaysAlike(m: MemState, q: SqlState, open: seq<Lifecycle>, ids: seq<string>,
                                           i: nat, now: nat)
    requires Alike(Mem(m), Sql(q)) && ListsOpen(Mem(m), open, ids) && i <= |ids|
    ensures Alike(SweepList(Mem(m), open[..i], now), SweepList(Sql(q), open[..i], now))
  {
    if i > 0 {
      SweepStaysAlike(m, q, open, ids, i - 1, now);
      SweepStaysAlikeNext(m, q, open, ids, i - 1, now);
    }
  }

  lemma SweepStaysAlikeNext(m: MemState, q: SqlState, open: seq<Lifecycle>, ids: seq<string>, i: nat, now: nat)
    requires MemInv(m) && ListsOpen(Mem(m), open, ids) && i < |ids|
    requires Alike(SweepList(Mem(m), open[..i], now), SweepList(Sql(q), open[..i], now))
    ensures Alike(SweepList(Mem(m), open[..i + 1], now), SweepList(Sql(q), open[..i + 1], now))
  {
    var a, b := SweepList(Mem(m), open[..i], now), SweepList(Sql(q), open[..i], now);
    SweepPrefix(m, open, ids, i, now);
    SweepNext(m, open, ids, i, now);
    SweepListNext(Mem(m), open, i, now);
    SweepListNext(Sql(q), open, i, now);
    SweepOneStaysAlike(a, b, open[i], now);
  }

  lemma ListingsAgree(m: MemState, q: SqlState, open: seq<Lifecycle>, ids: seq<string>)
    requires Related(m, q) && ListsOpen(Sql(q), open, ids)
    ensures OpenIds(Sql(q)) == OpenIds(Mem(m)) && ListsOpen(Mem(m), open, ids)
  {
    assert forall id <- q.rows :: q.rows[id] == RowOf(m.lifecycles[id]);
  }

  /** Both stores list the same open lifecycles and sweep to alike stores, each in its own order. */
  lemma SweepAgrees(m: MemState, q: SqlState, open: seq<Lifecycle>, now: nat)
    requires MemInv(m) && Related(m, q) && IsOpenListing(Sql(q), open)
    ensures OpenIds(Sql(q)) == OpenIds(Mem(m)) && IsOpenListing(Mem(m), open)
    ensures var b := SweepList(Sql(q), open, now); b.Sql? && Related(Swept(m, now), b.q)
  {
    var ids :| ListsOpen(Sql(q), open, ids);
    ListingsAgree(m, q, open, ids);
    SweepStaysAlike(m, q, open, ids, |ids|, now);
    SweepMeaning(m, open, now);
    assert open[..|ids|] == open;
  }

  // ---------------------------------------------------------------- when an apply comes in between

  /** The store when an event is applied between the sweep's listing of `m` and its write-back of
      lifecycle `id`: after the apply, and after the write-back of the snapshot. */
  ghost function Raced(m: MemState, e: Event, applied: nat, id: string, swept: nat): (Store, Store)
    requires id in m.lifecycles
  {
    var between := ApplyStep(Mem(m), e, applied);
    (between, SweepOne(between, m.lifecycles[id], swept))
  }

  /** What the apply made of the lifecycle, and what the write-back made of that. */
  lemma RacedLifecycle(m: MemState, e: Event, applied: nat, id: string, swept: nat)
    requires MemInv(m) && Admissible(m, e) && id in m.lifecycles && m.lifecycles[id].closure == Open
    ensures var (between, after) := Raced(m, e, applied, id, swept);
            var snapshot := m.lifecycles[id];
            var corr := Correlate(Mem(m), e);
            && between.Mem? && after.Mem? && id in between.m.lifecycles && id in after.m.lifecycles
            && between.m.lifecycles[id] ==
                 (if corr.Match? && corr.lifecycleId == id then Advanced(snapshot, corr.tier, e, applied) else snapshot)
            && after.m.lifecycles[id] ==
                 (if Stale(snapshot, swept) then TimedOut(snapshot, swept) else between.m.lifecycles[id])
  {
    MatchResolves(m, e);
  }

  /** When the sweep is not atomic, an event held after the apply is gone after the write-back if and
      only if the snapshot was stale and the event was new to this very lifecycle; and a lifecycle
      that the apply closed keeps that closure if and only if the snapshot was not stale. */
  lemma RacingSweepLosesIff(m: MemState, e: Event, applied: nat, id: string, swept: nat)
    requires MemInv(m) && Admissible(m, e) && id in m.lifecycles && m.lifecycles[id].closure == Open
    ensures var (between, after) := Raced(m, e, applied, id, swept);
            var snapshot, corr := m.lifecycles[id], Correlate(Mem(m), e);
            && between.Mem? && after.Mem? && id in between.m.lifecycles && id in after.m.lifecycles
            && var was, now := between.m.lifecycles[id], after.m.lifecycles[id];
               && ((exists x :: x in was.eventIds && x !in now.eventIds) <==>
                     Stale(snapshot, swept) && corr.Match? && corr.lifecycleId == id && e.eventId !in snapshot.eventIds)
               && (was.closure != Open ==> (now == was <==> !Stale(snapshot, swept)))
  {
    RacedLifecycle(m, e, applied, id, swept);
    var (between, after) := Raced(m, e, applied, id, swept);
    var snapshot, was := m.lifecycles[id], between.m.lifecycles[id];
    if was != snapshot {
      assert was.eventIds[|was.eventIds| - 1] == e.eventId;
      assert forall x :: x in was.eventIds <==> x in snapshot.eventIds || x == e.eventId;
    }
  }

  lemma RaceLoses(m: MemState, e: Event, tier: InferenceTier, applied: nat, id: string, swept: nat)
    requires MemInv(m) && Admissible(m, e) && Correlate(Mem(m), e) == Match(id, tier)
    requires id in m.lifecycles && m.lifecycles[id].closure == Open
    requires Stale(m.lifecycles[id], swept) && e.eventId !in m.lifecycles[id].eventIds
    ensures var (between, after) := Raced(m, e, applied, id, swept);
            && between.Mem? && after.Mem? && id in between.m.lifecycles && id in after.m.lifecycles
            && e.eventId in between.m.lifecycles[id].eventIds && e.eventId !in after.m.lifecycles[id].eventIds
  {
    RacedLifecycle(m, e, applied, id, swept);
  }

  /** The losing case is reached: one event founds a lifecycle, a sweep finds it stale, and a second
      event is applied before the write-back. */
  lemma RaceIsReachable(m0: MemState, a: string, b: string, r: string, x: string, founded: nat, applied: nat, swept: nat)
    requires m0 == MemState(map[], map[], map[], map[]) && a != b
    requires founded + StalenessFor(Payment) <= swept
    ensures var m1, id := Applied(m0, Creating(a, r, None), founded), NewId(Creating(a, r, None));
            && MemInv(m1) && Admissible(m1, Moving(b, r, x))
            && id in m1.lifecycles && m1.lifecycles[id].closure == Open
            && var (between, after) := Raced(m1, Moving(b, r, x), applied, id, swept);
               && between.Mem? && after.Mem? && id in between.m.lifecycles && id in after.m.lifecycles
               && b in between.m.lifecycles[id].eventIds && b !in after.m.lifecycles[id].eventIds
  {
    var first, second := Creating(a, r, None), Moving(b, r, x);
    var m1, id := Applied(m0, first, founded), NewId(first);
    CreatingFounds(m0, a, r, None, founded);
    MovingMatches(m1, b, r, x, id);
    FoundedOnce(m0, first, second, founded);
    RaceLoses(m1, second, ResourceId, applied, id, swept);
  }

  lemma FoundedOnce(m0: MemState, first: Event, second: Event, now: nat)
    requires m0 == MemState(map[], map[], map[], map[]) && first.eventId != second.eventId
    ensures var m1 := Applied(m0, first, now); MemInv(m1) && Admissible(m1, second)
  {
    EmptyIsSound(m0);
    SecondAdmissible(m0, first, second, now);
  }

  lemma SecondAdmissible(m0: MemState, first: Event, second: Event, now: nat)
    requires Sound(m0, {}) && first.eventId != second.eventId
    ensures var m1 := Applied(m0, first, now); MemInv(m1) && Admissible(m1, second)
  {
    FreshKeepsSound(m0, {}, first, now);
    FreshIsAdmissible(Applied(m0, first, now), {} + {first.eventId}, second);
  }
}
