/** Whole runs of the lifecycle component: any mix of applies of admissible events, repeated ones
    included, and atomic sweeps under nondecreasing time, carried out on both stores side by side. */
module LifecycleRuns {
  import opened Common
  import opened LifecycleTypes
  import opened LifecycleStores
  import opened LifecycleEngine
  import opened StalenessScanner

  /** An event a lifecycle was given while open, when, and on which rung it was matched. */
  datatype Given = Given(e: Event, at: nat, tier: InferenceTier)

  /** Both stores, the events each lifecycle was given while open, and the time of the last call and
      of the last sweep. */
  datatype World = World(m: MemState, q: SqlState, own: map<string, seq<Given>>, clock: nat, lastSweep: nat)

  /** Each store sweeps in the order in which it happens to list its open lifecycles. */
  datatype Op =
    | Apply(e: Event, now: nat)
    | Sweep(now: nat, memOrder: seq<Lifecycle>, sqlOrder: seq<Lifecycle>)

  ghost predicate Legal(w: World, op: Op) {
    && w.clock <= op.now
    && match op
       case Apply(e, _) => Admissible(w.m, e)
       case Sweep(_, memOrder, sqlOrder) =>
         IsOpenListing(Mem(w.m), memOrder) && IsOpenListing(Sql(w.q), sqlOrder)
  }

  lemma {:induction false} SweepKeepsKind(s: Store, open: seq<Lifecycle>, now: nat)
    ensures SweepList(s, open, now).Mem? == s.Mem?
    decreases |open|
  {
    if open != [] {
      SweepKeepsKind(s, open[..|open| - 1], now);
    }
  }

  function OwnOf(own: map<string, seq<Given>>, id: string): seq<Given> {
    if id in own then own[id] else []
  }

  /** The event joins those of the lifecycle it is bound to. */
  function OwnAfter(own: map<string, seq<Given>>, plan: Plan, given: Given): map<string, seq<Given>> {
    if plan.Write? && plan.bindTo.Some? then own[plan.lc.id := OwnOf(own, plan.lc.id) + [given]] else own
  }

  /** A founding event counts as matched by resource. */
  ghost function GivenNow(m: MemState, e: Event, now: nat): Given {
    var corr := Correlate(Mem(m), e);
    Given(e, now, if corr.Match? then corr.tier else ResourceId)
  }

  ghost function Step(w: World, op: Op): World {
    match op
    case Apply(e, now) =>
      World(ApplyStep(Mem(w.m), e, now).m, ApplyStep(Sql(w.q), e, now).q,
            OwnAfter(w.own, PlanOf(Mem(w.m), e, now), GivenNow(w.m, e, now)), now, w.lastSweep)
    case Sweep(now, memOrder, sqlOrder) =>
      SweepKeepsKind(Mem(w.m), memOrder, now);
      SweepKeepsKind(Sql(w.q), sqlOrder, now);
      World(SweepList(Mem(w.m), memOrder, now).m, SweepList(Sql(w.q), sqlOrder, now).q, w.own, now, now)
  }

  ghost predicate LegalRun(w: World, ops: seq<Op>)
    decreases |ops|
  {
    ops == [] || (Legal(w, ops[0]) && LegalRun(Step(w, ops[0]), ops[1..]))
  }

  ghost function Run(w: World, ops: seq<Op>): World
    decreases |ops|
  {
    if ops == [] then w else Run(Step(w, ops[0]), ops[1..])
  }

  // ---------------------------------------------------------------- state as a fold of events

  /** State and closure after the given events, by the state machine alone. */
  function Folded(t: LifecycleType, events: seq<Given>): (State, Closure) {
    if events == [] then (Started, Open)
    else NextState(t, events[|events| - 1].e.eventType, Folded(t, events[..|events| - 1]))
  }

  lemma FoldedNext(t: LifecycleType, events: seq<Given>, given: Given)
    ensures Folded(t, events + [given]) == NextState(t, given.e.eventType, Folded(t, events))
  {
    assert (events + [given])[..|events|] == events;
  }

  /** Open means Started, Processing or Pending; uncertainty is never the state machine's doing. */
  lemma {:induction false} FoldedOpenStates(t: LifecycleType, events: seq<Given>)
    ensures var f := Folded(t, events);
            && f.1 != ClosedWithUncertainty
            && (f.1 == Open ==> f.0 in {Started, Processing, Pending})
    decreases |events|
  {
    if events != [] {
      FoldedOpenStates(t, events[..|events| - 1]);
    }
  }

  /** State and closure are the fold of the lifecycle's own events, followed by at most one
      timeout. */
  ghost predicate FoldsItsEvents(lc: Lifecycle, events: seq<Given>) {
    var f := Folded(lc.lifecycleType, events);
    if lc.closure == ClosedWithUncertainty then f.1 == Open && lc.state == TimeoutStateFor(f.0)
    else (lc.state, lc.closure) == f
  }

  /** The list of event ids names the lifecycle's own events, one by one. */
  ghost predicate Names(ids: seq<string>, events: seq<Given>) {
    |ids| == |events| && forall i :: 0 <= i < |ids| ==> ids[i] == events[i].e.eventId
  }

  ghost predicate Healthy(lc: Lifecycle, events: seq<Given>) {
    && events != [] && Names(lc.eventIds, events)
    && FoldsItsEvents(lc, events)
    && lc.stalenessMs == 3_600_000
  }

  /** Where a lifecycle came from, which rungs its events were matched on, and its times: it started
      with its first event and was last touched by its last; it was closed with its last event, or timed
      out an hour or more after it. */
  ghost predicate Recorded(lc: Lifecycle, events: seq<Given>) {
    && events != []
    && (var first := events[0];
        && lc.id == "lc_" + first.e.eventId && lc.tenantId == first.e.tenantId && lc.startedAtMs == first.at
        && lc.resourceId == first.e.resourceId
        && lc.businessKey == if first.e.resourceId.Some? && first.e.businessId.None? then first.e.operationId
                             else first.e.businessId)
    && |lc.tiers| == |events| && (forall i :: 0 <= i < |events| ==> lc.tiers[i] == events[i].tier)
    && (forall i, j :: 0 <= i < j < |events| ==> events[i].at <= events[j].at)
    && (var last := events[|events| - 1].at;
        && lc.lastEventAtMs == last
        && match lc.closure
           case Open => lc.closedAtMs == None
           case ClosedWithUncertainty => lc.closedAtMs.Some? && last + 3_600_000 <= lc.closedAtMs.value
           case _ => lc.closedAtMs == Some(last))
  }

  /** Had an event since the last sweep, or was not stale when it ran. */
  predicate InTime(lc: Lifecycle, clock: nat, lastSweep: nat) {
    && lc.lastEventAtMs <= clock
    && (lc.closure == Open ==> lastSweep <= lc.lastEventAtMs || lastSweep - lc.lastEventAtMs < lc.stalenessMs)
  }

  ghost predicate Sane(lc: Lifecycle, events: seq<Given>, now: nat, lastSweep: nat) {
    Healthy(lc, events) && Recorded(lc, events) && InTime(lc, now, lastSweep)
  }

  ghost predicate AllHealthy(all: map<string, Lifecycle>, own: map<string, seq<Given>>, clock: nat, lastSweep: nat) {
    && own.Keys == all.Keys
    && forall id <- all :: Sane(all[id], own[id], clock, lastSweep)
  }

  ghost predicate Inv(w: World) {
    && MemInv(w.m)
    && AllKeyed(w.m)
    && Related(w.m, w.q)
    && w.lastSweep <= w.clock
    && AllHealthy(w.m.lifecycles, w.own, w.clock, w.lastSweep)
  }

  lemma EmptyWorldHolds(clock: nat)
    ensures Inv(World(MemState(map[], map[], map[], map[]), SqlState(map[], map[]), map[], clock, clock))
  {
  }

  // ---------------------------------------------------------------- one call

  lemma FoundedIsHealthy(t: LifecycleType, r: Option<string>, k: Option<string>, given: Given)
    ensures Healthy(Founded(t, r, k, given.e, given.at), [given])
  {
    FoldedOpenStates(t, [given]);
    FoldedNext(t, [], given);
    assert [] + [given] == [given];
  }

  lemma FoundedIsRecorded(t: LifecycleType, e: Event, now: nat)
    requires Founding(e).New?
    ensures Recorded(Founded(t, Founding(e).resourceId, Founding(e).businessKey, e, now), [Given(e, now, ResourceId)])
  {
    FoldedOpenStates(t, [Given(e, now, ResourceId)]);
    FoldedNext(t, [], Given(e, now, ResourceId));
    assert [] + [Given(e, now, ResourceId)] == [Given(e, now, ResourceId)];
  }

  lemma AdvancedIsHealthy(lc: Lifecycle, given: Given, events: seq<Given>)
    requires Healthy(lc, events) && lc.closure == Open
    ensures Healthy(Advanced(lc, given.tier, given.e, given.at), events + [given])
  {
    FoldedNext(lc.lifecycleType, events, given);
    FoldedOpenStates(lc.lifecycleType, events + [given]);
  }

  lemma AdvancedIsRecorded(lc: Lifecycle, given: Given, events: seq<Given>)
    requires Healthy(lc, events) && Recorded(lc, events) && lc.closure == Open && lc.lastEventAtMs <= given.at
    ensures Recorded(Advanced(lc, given.tier, given.e, given.at), events + [given])
  {
    FoldedNext(lc.lifecycleType, events, given);
    FoldedOpenStates(lc.lifecycleType, events + [given]);
    var more := events + [given];
    assert more[0] == events[0] && more[|events|] == given;
    assert forall i :: 0 <= i < |events| ==> more[i] == events[i];
  }

  lemma TimedOutIsHealthy(lc: Lifecycle, now: nat, events: seq<Given>)
    requires Healthy(lc, events) && lc.closure == Open
    ensures Healthy(TimedOut(lc, now), events)
  {
  }

  lemma TimedOutIsRecorded(lc: Lifecycle, now: nat, events: seq<Given>)
    requires Healthy(lc, events) && Recorded(lc, events) && lc.closure == Open && Stale(lc, now)
    ensures Recorded(TimedOut(lc, now), events)
  {
  }

  lemma FoundingIsSane(m: MemState, own: map<string, seq<Given>>, e: Event, lastSweep: nat, now: nat)
    requires Correlate(Mem(m), e).New? && NewId(e) !in own && lastSweep <= now
    ensures var plan := PlanOf(Mem(m), e, now);
            var more := OwnAfter(own, plan, GivenNow(m, e, now));
            && plan.Write? && plan.lc.id in more && more == own[plan.lc.id := more[plan.lc.id]]
            && Sane(plan.lc, more[plan.lc.id], now, lastSweep)
  {
    var corr, given := Correlate(Mem(m), e), GivenNow(m, e, now);
    FoundedIsHealthy(corr.lifecycleType, corr.resourceId, corr.businessKey, given);
    FoundedIsRecorded(corr.lifecycleType, e, now);
    assert OwnOf(own, NewId(e)) + [given] == [given];
  }

  lemma AdvancingIsSane(m: MemState, own: map<string, seq<Given>>, e: Event, id: string, clock: nat, lastSweep: nat, now: nat)
    requires Correlate(Mem(m), e).Match? && Correlate(Mem(m), e).lifecycleId == id
    requires id in m.lifecycles && m.lifecycles[id].id == id && id in own
    requires Sane(m.lifecycles[id], own[id], clock, lastSweep) && lastSweep <= clock <= now
    ensures var plan := PlanOf(Mem(m), e, now);
            var more := OwnAfter(own, plan, GivenNow(m, e, now));
            && plan.Write? && plan.lc.id in more && more == own[plan.lc.id := more[plan.lc.id]]
            && Sane(plan.lc, more[plan.lc.id], now, lastSweep)
  {
    var lc := m.lifecycles[id];
    if lc.closure == Open {
      AdvancedIsHealthy(lc, GivenNow(m, e, now), own[id]);
      AdvancedIsRecorded(lc, GivenNow(m, e, now), own[id]);
    } else {
      assert own == own[id := own[id]];
    }
  }

  lemma PlannedIsHealthy(m: MemState, own: map<string, seq<Given>>, e: Event, clock: nat, lastSweep: nat, now: nat)
    requires MemInv(m) && Admissible(m, e) && AllHealthy(m.lifecycles, own, clock, lastSweep)
    requires lastSweep <= clock <= now
    requires PlanOf(Mem(m), e, now).Write?
    ensures var plan := PlanOf(Mem(m), e, now);
            var more := OwnAfter(own, plan, GivenNow(m, e, now));
            && plan.lc.id in more
            && more == own[plan.lc.id := more[plan.lc.id]]
            && Sane(plan.lc, more[plan.lc.id], now, lastSweep)
  {
    var corr := Correlate(Mem(m), e);
    MatchResolves(m, e);
    match corr
    case New(_, _, _) => FoundingIsSane(m, own, e, lastSweep, now);
    case Match(id, _) => AdvancingIsSane(m, own, e, id, clock, lastSweep, now);
  }

  /** Writing one healthy lifecycle keeps the others as they were. */
  lemma WrittenKeepsHealthy(all: map<string, Lifecycle>, own: map<string, seq<Given>>, lc: Lifecycle,
                            events: seq<Given>, clock: nat, now: nat, lastSweep: nat)
    requires AllHealthy(all, own, clock, lastSweep) && clock <= now
    requires Sane(lc, events, now, lastSweep)
    ensures AllHealthy(all[lc.id := lc], own[lc.id := events], now, lastSweep)
  {
  }

  lemma LaterKeepsHealthy(all: map<string, Lifecycle>, own: map<string, seq<Given>>, clock: nat, now: nat, lastSweep: nat)
    requires AllHealthy(all, own, clock, lastSweep) && clock <= now
    ensures AllHealthy(all, own, now, lastSweep)
  {
  }

  lemma ApplyKeepsHealthy(m: MemState, own: map<string, seq<Given>>, e: Event, clock: nat, lastSweep: nat, now: nat)
    requires MemInv(m) && Admissible(m, e) && AllHealthy(m.lifecycles, own, clock, lastSweep)
    requires lastSweep <= clock <= now
    ensures var s := ApplyStep(Mem(m), e, now);
            s.Mem? && AllHealthy(s.m.lifecycles, OwnAfter(own, PlanOf(Mem(m), e, now), GivenNow(m, e, now)), now, lastSweep)
  {
    AppliedLifecycles(m, e, now);
    var plan := PlanOf(Mem(m), e, now);
    if plan.Write? {
      PlannedIsHealthy(m, own, e, clock, lastSweep, now);
      WrittenKeepsHealthy(m.lifecycles, own, plan.lc, OwnAfter(own, plan, GivenNow(m, e, now))[plan.lc.id], clock, now, lastSweep);
    } else {
      LaterKeepsHealthy(m.lifecycles, own, clock, now, lastSweep);
    }
  }

  lemma ApplyKeeps(w: World, e: Event, now: nat)
    requires Inv(w) && Legal(w, Apply(e, now))
    ensures Inv(Step(w, Apply(e, now)))
  {
    ApplyKeepsIndexes(w.m, e, now);
    ApplyKeepsKeyed(w.m, e, now);
    ApplyAgrees(w.m, w.q, e, now);
    ApplyKeepsHealthy(w.m, w.own, e, w.clock, w.lastSweep, now);
  }

  lemma SweptKeepsHealthy(m: MemState, own: map<string, seq<Given>>, clock: nat, lastSweep: nat, now: nat)
    requires AllHealthy(m.lifecycles, own, clock, lastSweep) && clock <= now
    ensures AllHealthy(Swept(m, now).lifecycles, own, now, now)
  {
    forall id | id in m.lifecycles
      ensures Sane(SweptLifecycle(m.lifecycles[id], now), own[id], now, now)
    {
      var lc := m.lifecycles[id];
      if lc.closure == Open && Stale(lc, now) {
        TimedOutIsHealthy(lc, now, own[id]);
        TimedOutIsRecorded(lc, now, own[id]);
      }
    }
    assert Swept(m, now).lifecycles.Keys == m.lifecycles.Keys;
  }

  lemma SweptKeepsKeyed(m: MemState, now: nat)
    requires AllKeyed(m)
    ensures AllKeyed(Swept(m, now))
  {
  }

  lemma SweepsKeepStores(m: MemState, q: SqlState, memOrder: seq<Lifecycle>, sqlOrder: seq<Lifecycle>, now: nat)
    requires MemInv(m) && AllKeyed(m) && Related(m, q)
    requires IsOpenListing(Mem(m), memOrder) && IsOpenListing(Sql(q), sqlOrder)
    ensures SweepList(Mem(m), memOrder, now) == Mem(Swept(m, now))
    ensures var b := SweepList(Sql(q), sqlOrder, now); b.Sql? && Related(Swept(m, now), b.q)
    ensures MemInv(Swept(m, now)) && AllKeyed(Swept(m, now))
  {
    SweepMeaning(m, memOrder, now);
    SweepAgrees(m, q, sqlOrder, now);
    SweptKeepsKeyed(m, now);
  }

  lemma SweepKeeps(w: World, op: Op)
    requires Inv(w) && op.Sweep? && Legal(w, op)
    ensures Inv(Step(w, op))
    ensures Step(w, op).m == Swept(w.m, op.now)
  {
    SweepsKeepStores(w.m, w.q, op.memOrder, op.sqlOrder, op.now);
    SweptKeepsHealthy(w.m, w.own, w.clock, w.lastSweep, op.now);
  }

  lemma StepKeeps(w: World, op: Op)
    requires Inv(w) && Legal(w, op)
    ensures Inv(Step(w, op))
  {
    match op
    case Apply(e, now) => ApplyKeeps(w, e, now);
    case Sweep(_, _, _) => SweepKeeps(w, op);
  }

  lemma {:induction false} RunKeeps(w: World, ops: seq<Op>)
    requires Inv(w) && LegalRun(w, ops)
    ensures Inv(Run(w, ops))
    decreases |ops|
  {
    if ops != [] {
      StepKeeps(w, ops[0]);
      RunKeeps(Step(w, ops[0]), ops[1..]);
    }
  }

  // ---------------------------------------------------------------- what every run guarantees

  /** After any run the indexes are exact, keys are unique, and both stores hold and answer alike. */
  lemma StoresStayAlike(w: World, ops: seq<Op>)
    requires Inv(w) && LegalRun(w, ops)
    ensures var end := Run(w, ops);
            && MemInv(end.m) && Related(end.m, end.q)
            && forall a, b :: a in end.m.lifecycles && b in end.m.lifecycles && a != b ==>
                 var x, y := end.m.lifecycles[a], end.m.lifecycles[b];
                 && (x.resourceId.Some? ==> x.resourceId != y.resourceId)
                 && (x.businessKey.Some? ==> x.businessKey != y.businessKey)
  {
    RunKeeps(w, ops);
    var m := Run(w, ops).m;
    forall a, b | a in m.lifecycles && b in m.lifecycles && a != b
      ensures m.lifecycles[a].resourceId.Some? ==> m.lifecycles[a].resourceId != m.lifecycles[b].resourceId
      ensures m.lifecycles[a].businessKey.Some? ==> m.lifecycles[a].businessKey != m.lifecycles[b].businessKey
    {
      KeysUnique(m, a, b);
    }
  }

  /** After any run the next event leaves the indexes exact if and only if it is admissible. */
  lemma NextEventKeepsIndexesIff(w: World, ops: seq<Op>, e: Event, now: nat)
    requires Inv(w) && LegalRun(w, ops)
    ensures var after := ApplyStep(Mem(Run(w, ops).m), e, now);
            after.Mem? && (MemInv(after.m) <==> Admissible(Run(w, ops).m, e))
  {
    RunKeeps(w, ops);
    IndexesKeptIff(Run(w, ops).m, e, now);
  }

  /** The same queries, put to both stores after any run, have the same answers. */
  lemma StoresAnswerAlike(w: World, ops: seq<Op>, key: string)
    requires Inv(w) && LegalRun(w, ops)
    ensures var end := Run(w, ops);
            && FindByResource(Sql(end.q), key) == FindByResource(Mem(end.m), key)
            && FindByBusinessKey(Sql(end.q), key) == FindByBusinessKey(Mem(end.m), key)
            && FindByEvent(Sql(end.q), key) == FindByEvent(Mem(end.m), key)
            && Get(Sql(end.q), key) == Get(Mem(end.m), key)
            && OpenIds(Sql(end.q)) == OpenIds(Mem(end.m))
  {
    RunKeeps(w, ops);
    LookupsAgree(Run(w, ops).m, Run(w, ops).q, key);
    OpenIdsAgree(Run(w, ops).m, Run(w, ops).q);
  }

  lemma OpenIdsAgree(m: MemState, q: SqlState)
    requires Related(m, q)
    ensures OpenIds(Sql(q)) == OpenIds(Mem(m))
  {
    assert forall id <- q.rows :: q.rows[id] == RowOf(m.lifecycles[id]);
  }

  /** Every lifecycle's state and closure are explained by its own events and at most one timeout;
      while it is open, the timeout table's fall-through arm does not apply to it. */
  lemma StateIsFoldOfEvents(w: World, ops: seq<Op>, id: string)
    requires Inv(w) && LegalRun(w, ops) && id in Run(w, ops).m.lifecycles
    ensures var end := Run(w, ops);
            var lc := end.m.lifecycles[id];
            && id in end.own && Names(lc.eventIds, end.own[id]) && FoldsItsEvents(lc, end.own[id])
            && (lc.closure == Open ==> lc.state in {Started, Processing, Pending}
                                       && TimeoutStateFor(lc.state) in {Abandoned, Timeout})
            && (lc.closure == ClosedWithUncertainty ==> lc.state in {Abandoned, Timeout})
  {
    RunKeeps(w, ops);
    var end := Run(w, ops);
    var lc := end.m.lifecycles[id];
    assert Healthy(lc, end.own[id]);
    FoldedOpenStates(lc.lifecycleType, end.own[id]);
  }

  /** What the class of a late event tells: after any run, replaying the closed lifecycle's own events
      with the late one behind them ends in another terminal state if and only if it is recorded as a
      conflict, short of a duplicate; and mere information changes nothing in the replay. */
  lemma LateClassReplays(w: World, ops: seq<Op>, e: Event, now: nat, id: string)
    requires Inv(w) && LegalRun(w, ops) && id in Run(w, ops).m.lifecycles
    requires Run(w, ops).m.lifecycles[id].closure != Open
    requires Correlate(Mem(Run(w, ops).m), e).Match? && Correlate(Mem(Run(w, ops).m), e).lifecycleId == id
    ensures var end := Run(w, ops);
            var lc, after := end.m.lifecycles[id], ApplyStep(Mem(end.m), e, now);
            && id in end.own && after.Mem? && id in after.m.lifecycles
            && var late := after.m.lifecycles[id].lateEvents;
               var replayed := Folded(lc.lifecycleType, end.own[id] + [Given(e, now, ResourceId)]);
               && |late| == |lc.lateEvents| + 1
               && var recorded := late[|lc.lateEvents|].lateClass;
                  && (recorded == Duplicate <==> exists own <- end.own[id] :: own.e.eventId == e.eventId)
                  && (recorded != Duplicate ==>
                        (recorded == Conflict <==> replayed.1 != Open && replayed.0 != lc.state))
                  && (recorded == LateInformation ==> replayed == Folded(lc.lifecycleType, end.own[id]))
                  && (recorded == LateInformation <==> recorded != Duplicate && Ignored(e.eventType))
  {
    RunKeeps(w, ops);
    var end := Run(w, ops);
    ClassReplays(end.m.lifecycles[id], end.own[id], Given(e, now, ResourceId));
    LateIsRecorded(end.m, e, now, id);
  }

  /** Not among the events that move a payment. */
  predicate Ignored(eventType: string) {
    eventType !in ["payment.create", "payment.process", "payment.processing", "payment.retry", "payment.pending",
                   "payment.settle", "payment.success", "payment.completed", "payment.fail", "payment.failed",
                   "payment.error", "payment.cancel", "payment.cancelled", "payment.reverse", "payment.reversed"]
  }

  lemma {:induction false} MoversMove(t: LifecycleType, eventType: string)
    ensures TransitionFor(t, eventType).None? <==> Ignored(eventType)
  {
  }

  lemma {:induction false} LateIsRecorded(m: MemState, e: Event, now: nat, id: string)
    requires Correlate(Mem(m), e).Match? && Correlate(Mem(m), e).lifecycleId == id
    requires id in m.lifecycles && m.lifecycles[id].closure != Open && m.lifecycles[id].id == id
    ensures var after := ApplyStep(Mem(m), e, now);
            after.Mem? && id in after.m.lifecycles && after.m.lifecycles[id] == Lateness(m.lifecycles[id], e, now)
  {
  }

  lemma {:induction false} ClassReplays(lc: Lifecycle, events: seq<Given>, given: Given)
    requires Healthy(lc, events) && lc.closure != Open
    ensures var replayed := Folded(lc.lifecycleType, events + [given]);
            var lateClass := ClassifyLate(lc, given.e);
            && (lateClass == Duplicate <==> exists own <- events :: own.e.eventId == given.e.eventId)
            && (lateClass != Duplicate ==> (lateClass == Conflict <==> replayed.1 != Open && replayed.0 != lc.state))
            && (lateClass == LateInformation ==> replayed == Folded(lc.lifecycleType, events))
            && (lateClass == LateInformation <==> lateClass != Duplicate && Ignored(given.e.eventType))
  {
    MoversMove(lc.lifecycleType, given.e.eventType);
    FoldedNext(lc.lifecycleType, events, given);
    FoldedOpenStates(lc.lifecycleType, events);
    NamedIsOwn(lc.eventIds, events, given.e.eventId);
  }

  lemma NamedIsOwn(ids: seq<string>, events: seq<Given>, x: string)
    requires Names(ids, events)
    ensures x in ids <==> exists own <- events :: own.e.eventId == x
  {
    if x in ids {
      var i :| 0 <= i < |ids| && ids[i] == x;
      assert events[i] in events && events[i].e.eventId == x;
    }
    if own :| own in events && own.e.eventId == x {
      var i :| 0 <= i < |events| && events[i] == own;
      assert ids[i] == x;
    }
  }

  /** Every lifecycle is what its own events make of it: origin, keys, rungs and times. */
  lemma TimesAreOwnEvents(w: World, ops: seq<Op>, id: string)
    requires Inv(w) && LegalRun(w, ops) && id in Run(w, ops).m.lifecycles
    ensures var end := Run(w, ops); id in end.own && Recorded(end.m.lifecycles[id], end.own[id])
  {
    RunKeeps(w, ops);
  }

  /** With sweeps at most `interval` apart, no lifecycle stays open an hour and `interval` past the last
      event it was given. */
  lemma NoneStaysOpenTooLong(w: World, ops: seq<Op>, id: string, interval: nat)
    requires Inv(w) && LegalRun(w, ops) && id in Run(w, ops).m.lifecycles
    requires Run(w, ops).clock - Run(w, ops).lastSweep <= interval
    requires Run(w, ops).m.lifecycles[id].closure == Open
    ensures var end := Run(w, ops);
            && id in end.own && end.own[id] != []
            && end.clock < end.own[id][|end.own[id]| - 1].at + 3_600_000 + interval
  {
    RunKeeps(w, ops);
    var end := Run(w, ops);
    assert InTime(end.m.lifecycles[id], end.clock, end.lastSweep);
    assert Healthy(end.m.lifecycles[id], end.own[id]) && Recorded(end.m.lifecycles[id], end.own[id]);
  }

  /** None is closed with uncertainty less than an hour after an event it was given. */
  lemma NoneClosedTooEarly(w: World, ops: seq<Op>, id: string)
    requires Inv(w) && LegalRun(w, ops) && id in Run(w, ops).m.lifecycles
    requires Run(w, ops).m.lifecycles[id].closure == ClosedWithUncertainty
    ensures var end := Run(w, ops);
            && id in end.own && end.m.lifecycles[id].closedAtMs.Some?
            && forall given <- end.own[id] :: given.at + 3_600_000 <= end.m.lifecycles[id].closedAtMs.value
  {
    RunKeeps(w, ops);
    var end := Run(w, ops);
    assert Sane(end.m.lifecycles[id], end.own[id], end.clock, end.lastSweep);
    LastIsLatest(end.m.lifecycles[id], end.own[id]);
  }

  lemma LastIsLatest(lc: Lifecycle, events: seq<Given>)
    requires Recorded(lc, events)
    ensures forall given <- events :: given.at <= lc.lastEventAtMs
    ensures lc.closure == ClosedWithUncertainty ==>
              lc.closedAtMs.Some? && lc.lastEventAtMs + 3_600_000 <= lc.closedAtMs.value
  {
    forall given | given in events
      ensures given.at <= events[|events| - 1].at
    {
      var i :| 0 <= i < |events| && events[i] == given;
      assert i < |events| - 1 ==> events[i].at <= events[|events| - 1].at;
    }
  }

  /** What the next sweep makes of a lifecycle, by its own events alone. */
  lemma NextSweepClosesExactly(w: World, ops: seq<Op>, op: Op, id: string)
    requires Inv(w) && LegalRun(w, ops) && op.Sweep? && Legal(Run(w, ops), op) && id in Run(w, ops).m.lifecycles
    ensures var end := Run(w, ops);
            var lc, after := end.m.lifecycles[id], Step(end, op).m.lifecycles;
            && id in end.own && end.own[id] != [] && id in after
            && after[id] ==
                 if lc.closure == Open && end.own[id][|end.own[id]| - 1].at + 3_600_000 <= op.now then
                   lc.(closure := ClosedWithUncertainty, closedAtMs := Some(op.now),
                       state := if lc.state == Started then Abandoned else Timeout)
                 else lc
  {
    RunKeeps(w, ops);
    var end := Run(w, ops);
    SweepKeeps(end, op);
    SweptMeans(end.m.lifecycles[id], end.own[id], op.now);
  }

  lemma SweptMeans(lc: Lifecycle, events: seq<Given>, now: nat)
    requires Healthy(lc, events) && Recorded(lc, events)
    ensures SweptLifecycle(lc, now) ==
        if lc.closure == Open && events[|events| - 1].at + 3_600_000 <= now then
          lc.(closure := ClosedWithUncertainty, closedAtMs := Some(now),
              state := if lc.state == Started then Abandoned else Timeout)
        else lc
  {
    FoldedOpenStates(lc.lifecycleType, events);
  }

  /** A closed lifecycle changes only by gaining late events. */
  predicate OnlyLateEvents(before: Lifecycle, after: Lifecycle) {
    before.lateEvents <= after.lateEvents && after == before.(lateEvents := after.lateEvents)
  }

  lemma ClosedSurvivesApply(m: MemState, e: Event, now: nat, id: string)
    requires MemInv(m) && Admissible(m, e)
    requires id in m.lifecycles && m.lifecycles[id].closure != Open
    ensures var after := ApplyStep(Mem(m), e, now);
            after.Mem? && id in after.m.lifecycles && OnlyLateEvents(m.lifecycles[id], after.m.lifecycles[id])
  {
    ApplyGrowsOneList(m, e, now);
  }

  lemma ClosedStepStaysClosed(w: World, op: Op, id: string)
    requires Inv(w) && Legal(w, op) && id in w.m.lifecycles && w.m.lifecycles[id].closure != Open
    ensures id in Step(w, op).m.lifecycles
    ensures OnlyLateEvents(w.m.lifecycles[id], Step(w, op).m.lifecycles[id])
  {
    match op
    case Apply(e, now) => ClosedSurvivesApply(w.m, e, now, id);
    case Sweep(_, _, _) => SweepKeeps(w, op);
  }

  lemma {:induction false} ClosedStaysClosed(w: World, ops: seq<Op>, id: string)
    requires Inv(w) && LegalRun(w, ops) && id in w.m.lifecycles && w.m.lifecycles[id].closure != Open
    ensures id in Run(w, ops).m.lifecycles
    ensures OnlyLateEvents(w.m.lifecycles[id], Run(w, ops).m.lifecycles[id])
    decreases |ops|
  {
    if ops != [] {
      StepKeeps(w, ops[0]);
      ClosedStepStaysClosed(w, ops[0], id);
      ClosedStaysClosed(Step(w, ops[0]), ops[1..], id);
    }
  }
}
