/** The engine and the scanner as they run against a store object, proved against the step
    functions. */
module LifecycleObjects {
  import opened Common
  import opened LifecycleTypes
  import opened LifecycleStores
  import opened LifecycleStoreObjects
  import opened LifecycleEngine
  import opened StalenessScanner

  predicate SameKeys(a: Lifecycle, b: Lifecycle) {
    a.id == b.id && a.resourceId == b.resourceId && a.businessKey == b.businessKey
  }

  lemma UpsertKeepsTable(q: SqlState, lc: Lifecycle)
    requires TableOk(q.rows)
    requires forall id <- q.rows :: id != lc.id ==>
        && (lc.resourceId.Some? ==> q.rows[id].resourceId != lc.resourceId)
        && (lc.businessKey.Some? ==> q.rows[id].businessKey != lc.businessKey)
    ensures TableOk(SqlUpsert(q, lc).rows)
    ensures SqlUpsert(q, lc).rows == q.rows[lc.id := RowOf(lc)]
  {
    assert Displaced(q.rows, lc) <= {lc.id};
    assert SqlUpsert(q, lc).rows == q.rows[lc.id := RowOf(lc)];
  }

  /** Writing a row back under its own keys. */
  lemma RewriteKeepsTable(q: SqlState, lc: Lifecycle)
    requires TableOk(q.rows) && lc.id in q.rows && SameKeys(q.rows[lc.id].body, lc)
    ensures TableOk(SqlUpsert(q, lc).rows)
    ensures SqlUpsert(q, lc).rows == q.rows[lc.id := RowOf(lc)]
  {
    assert q.rows[lc.id] == RowOf(q.rows[lc.id].body);
    UpsertKeepsTable(q, lc);
  }

  lemma FoundingKeepsTable(q: SqlState, e: Event, now: nat)
    requires TableOk(q.rows) && Correlate(Sql(q), e).New?
    ensures TableOk(SqlUpsert(q, PlanOf(Sql(q), e, now).lc).rows)
  {
    var lc := PlanOf(Sql(q), e, now).lc;
    assert lc.resourceId.Some? ==> FindByResource(Sql(q), lc.resourceId.value).None?;
    assert lc.businessKey.Some? ==> FindByBusinessKey(Sql(q), lc.businessKey.value).None?;
    UpsertKeepsTable(q, lc);
  }

  /** A plan never hands a row's keys to a second row. */
  lemma PlanKeepsTable(q: SqlState, e: Event, now: nat)
    requires TableOk(q.rows)
    ensures var after := ApplyStep(Sql(q), e, now); after.Sql? && TableOk(after.q.rows)
  {
    var corr := Correlate(Sql(q), e);
    var plan := PlanOf(Sql(q), e, now);
    if plan.Write? {
      match corr
      case New(_, _, _) => FoundingKeepsTable(q, e, now);
      case Match(id, _) =>
        assert q.rows[id].body.id == id;
        RewriteKeepsTable(q, plan.lc);
    }
  }

  /** The sweep only writes rows back. */
  lemma {:induction false} SweepKeepsTable(q: SqlState, open: seq<Lifecycle>, ids: seq<string>, i: nat, now: nat)
    requires TableOk(q.rows) && ListsOpen(Sql(q), open, ids) && i <= |ids|
    ensures var b := SweepList(Sql(q), open[..i], now);
            && b.Sql? && TableOk(b.q.rows) && b.q.rows.Keys == q.rows.Keys
            && forall id <- q.rows :: SameKeys(b.q.rows[id].body, q.rows[id].body)
  {
    if i > 0 {
      SweepKeepsTable(q, open, ids, i - 1, now);
      SweepListNext(Sql(q), open, i - 1, now);
      assert ids[i - 1] in OpenIds(Sql(q)) && Get(Sql(q), ids[i - 1]) == Some(open[i - 1]);
      SweepOneKeepsTable(SweepList(Sql(q), open[..i - 1], now).q, open[i - 1], now);
    }
  }

  lemma SweepOneKeepsTable(q: SqlState, lc: Lifecycle, now: nat)
    requires TableOk(q.rows) && lc.id in q.rows && SameKeys(q.rows[lc.id].body, lc)
    ensures var b := SweepOne(Sql(q), lc, now);
            && b.Sql? && TableOk(b.q.rows) && b.q.rows.Keys == q.rows.Keys
            && forall id <- q.rows :: SameKeys(b.q.rows[id].body, q.rows[id].body)
  {
    if Stale(lc, now) {
      RewriteKeepsTable(q, TimedOut(lc, now));
    }
  }

  class LifecycleEngineObject {
    constructor () {}

    method Correlate(store: LifecycleStore, e: Event) returns (corr: Corr)
      requires store.Valid()
      ensures corr == LifecycleEngine.Correlate(store.Value(), e)
    {
      if e.operationId.Some? {
        var found := store.FindByBusinessKey(e.operationId.value);
        if found.Some? {
          return Match(found.value, Explicit);
        }
      }
      if e.businessId.Some? {
        var found := store.FindByBusinessKey(e.businessId.value);
        if found.Some? {
          return Match(found.value, BusinessId);
        }
      }
      var parent := if e.parentEventId.Some? then e.parentEventId else e.causationId;
      if parent.Some? {
        var found := store.FindByEvent(parent.value);
        if found.Some? {
          return Match(found.value, Causation);
        }
      }
      var initiates := FromEventType(e.eventType);
      if e.resourceId.Some? {
        var found := store.FindByResource(e.resourceId.value);
        if found.Some? {
          return Match(found.value, ResourceId);
        }
        if initiates.Some? {
          var key := if e.businessId.Some? then e.businessId else e.operationId;
          return New(initiates.value, e.resourceId, key);
        }
      }
      if e.businessId.Some? && initiates.Some? {
        return New(initiates.value, None, e.businessId);
      }
      corr := NoMatch;
    }

    method Apply(store: LifecycleStore, e: Event, now: nat) returns (outcome: Outcome)
      requires store.Valid()
      modifies store.Footprint()
      ensures store.Valid()
      ensures store.Value() == ApplyStep(old(store.Value()), e, now)
      ensures outcome == PlanOf(old(store.Value()), e, now).outcome
    {
      ghost var before := store.Value();
      if store.Sqlite? {
        PlanKeepsTable(before.q, e, now);
      }
      var corr := Correlate(store, e);
      match corr
      case NoMatch =>
        outcome := Unbound;
      case New(t, resourceId, businessKey) =>
        var lc := Founded(t, resourceId, businessKey, e, now);
        store.Upsert(lc);
        store.RecordEvent(e.eventId, lc.id);
        outcome := Created(lc.id, t, lc.state, lc.closure);
      case Match(id, tier) =>
        var loaded := store.Get(id);
        if loaded.None? {
          return Unbound;
        }
        var lc := loaded.value;
        if lc.closure != Open {
          var lateClass := ClassifyLate(lc, e);
          store.Upsert(lc.(lateEvents := lc.lateEvents + [LateEvent(e.eventId, e.eventType, now, lateClass)]));
          return Late(id, tier, lateClass);
        }
        var (state, closure) := NextState(lc.lifecycleType, e.eventType, (lc.state, lc.closure));
        lc := lc.(eventIds := lc.eventIds + [e.eventId], tiers := lc.tiers + [tier], lastEventAtMs := now,
                  state := state, closure := closure);
        if closure != Open {
          lc := lc.(closedAtMs := Some(now));
        }
        store.Upsert(lc);
        store.RecordEvent(e.eventId, id);
        outcome := Updated(id, tier, state, closure);
    }
  }

  datatype StalenessResult = StalenessResult(lifecycleId: string, atMs: nat, wasState: State, newState: State)

  /** One result per stale lifecycle, in the order of the listing. */
  function Results(open: seq<Lifecycle>, now: nat): seq<StalenessResult> {
    if open == [] then []
    else
      var lc := open[|open| - 1];
      Results(open[..|open| - 1], now)
      + if Stale(lc, now) then [StalenessResult(lc.id, now, lc.state, TimeoutStateFor(lc.state))] else []
  }

  /** Lifecycle `id` is open, its last event is at least its staleness ago, and `r` tells its states
      before and after the sweep. */
  ghost predicate Reports(m: MemState, now: nat, id: string, r: StalenessResult) {
    && id in m.lifecycles && m.lifecycles[id].closure == Open
    && (m.lifecycles[id].lastEventAtMs + m.lifecycles[id].stalenessMs <= now || m.lifecycles[id].stalenessMs == 0)
    && id in Swept(m, now).lifecycles
    && r == StalenessResult(id, now, m.lifecycles[id].state, Swept(m, now).lifecycles[id].state)
  }

  /** The sweep reports exactly those. */
  lemma {:induction false} ResultsReport(m: MemState, open: seq<Lifecycle>, now: nat, r: StalenessResult)
    requires MemInv(m) && IsOpenListing(Mem(m), open)
    ensures r in Results(open, now) <==> exists id :: Reports(m, now, id, r)
  {
    var ids :| ListsOpen(Mem(m), open, ids);
    ResultsByEntry(open, now, r);
    forall i | 0 <= i < |open|
      ensures ids[i] in m.lifecycles && m.lifecycles[ids[i]] == open[i] && open[i].id == ids[i] && open[i].closure == Open
      ensures Reports(m, now, ids[i], r) <==>
                Stale(open[i], now) && r == StalenessResult(open[i].id, now, open[i].state, TimeoutStateFor(open[i].state))
    {
      assert ids[i] in OpenIds(Mem(m)) && Get(Mem(m), ids[i]) == Some(open[i]);
    }
    if id :| Reports(m, now, id, r) {
      assert id in OpenIds(Mem(m));
      var i :| 0 <= i < |ids| && ids[i] == id;
    }
  }

  lemma {:induction false} ResultsByEntry(open: seq<Lifecycle>, now: nat, r: StalenessResult)
    ensures r in Results(open, now) <==>
              exists i :: 0 <= i < |open| && Stale(open[i], now)
                          && r == StalenessResult(open[i].id, now, open[i].state, TimeoutStateFor(open[i].state))
    decreases |open|
  {
    if open != [] {
      var front, last := open[..|open| - 1], open[|open| - 1];
      ResultsByEntry(front, now, r);
      assert forall i :: 0 <= i < |front| ==> front[i] == open[i];
    }
  }

  method Sweep(store: LifecycleStore, now: nat) returns (results: seq<StalenessResult>, ghost open: seq<Lifecycle>)
    requires store.Valid()
    modifies store.Footprint()
    ensures store.Valid()
    ensures IsOpenListing(old(store.Value()), open)
    ensures store.Value() == SweepList(old(store.Value()), open, now)
    ensures results == Results(open, now)
  {
    var listed := store.AllOpen();
    open := listed;
    results := [];
    ghost var before := store.Value();
    for i := 0 to |listed|
      invariant store.Value() == SweepList(before, listed[..i], now)
      invariant results == Results(listed[..i], now)
    {
      var lc := listed[i];
      assert listed[..i + 1][..i] == listed[..i];
      var age := SaturatingSub(now, lc.lastEventAtMs);
      if age >= lc.stalenessMs {
        var wasState := lc.state;
        var newState := TimeoutStateFor(lc.state);
        store.Upsert(lc.(state := newState, closure := ClosedWithUncertainty, closedAtMs := Some(now)));
        results := results + [StalenessResult(lc.id, now, wasState, newState)];
      }
    }
    assert listed[..|listed|] == listed;
    if store.Sqlite? {
      ghost var ids :| ListsOpen(before, listed, ids);
      SweepKeepsTable(before.q, listed, ids, |ids|, now);
    }
  }
}
