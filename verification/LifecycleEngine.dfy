/** The lifecycle engine: correlate an event with a lifecycle or found a new one, run its state
    machine, classify late events. `apply` is composed of the steps it performs under its lock. */
module LifecycleEngine {
  import opened Common
  import opened LifecycleTypes
  import opened LifecycleStores

  datatype Corr =
    | Match(lifecycleId: string, tier: InferenceTier)
    | New(lifecycleType: LifecycleType, resourceId: Option<string>, businessKey: Option<string>)
    | NoMatch

  datatype Outcome =
    | Created(lifecycleId: string, lifecycleType: LifecycleType, state: State, closure: Closure)
    | Updated(lifecycleId: string, tier: InferenceTier, state: State, closure: Closure)
    | Late(lifecycleId: string, tier: InferenceTier, lateClass: LateEventClass)
    | Unbound

  // ---------------------------------------------------------------- state machine

  function TransitionFor(t: LifecycleType, eventType: string): Option<(State, Closure)> {
    match t
    case Payment =>
      if eventType == "payment.create" then Some((Started, Open))
      else if eventType in {"payment.process", "payment.processing"} then Some((Processing, Open))
      else if eventType == "payment.pending" then Some((Pending, Open))
      else if eventType == "payment.retry" then Some((Processing, Open))
      else if eventType in {"payment.settle", "payment.success", "payment.completed"} then Some((Success, Closed))
      else if eventType in {"payment.fail", "payment.failed", "payment.error"} then Some((Failed, ClosedWithException))
      else if eventType in {"payment.cancel", "payment.cancelled"} then Some((Cancelled, Closed))
      else if eventType in {"payment.reverse", "payment.reversed"} then Some((Reversed, ClosedWithException))
      else None
  }

  /** `transition_for(..).unwrap_or(current)`. */
  function NextState(t: LifecycleType, eventType: string, current: (State, Closure)): (State, Closure) {
    match TransitionFor(t, eventType)
    case Some(next) => next
    case None => current
  }

  function ClassifyLate(lc: Lifecycle, e: Event): LateEventClass {
    if e.eventId in lc.eventIds then Duplicate
    else
      match TransitionFor(lc.lifecycleType, e.eventType)
      case Some((state, _)) => if IsTerminal(state) && state != lc.state then Conflict else Amendment
      case None => LateInformation
  }

  // ---------------------------------------------------------------- the ladder

  function Or(a: Option<string>, b: Option<string>): Option<string> {
    if a.Some? then a else b
  }

  ghost function MatchKey(s: Store, key: Option<string>): Option<string> {
    if key.Some? then FindByBusinessKey(s, key.value) else None
  }

  ghost function MatchEvent(s: Store, event: Option<string>): Option<string> {
    if event.Some? then FindByEvent(s, event.value) else None
  }

  ghost function MatchResource(s: Store, resource: Option<string>): Option<string> {
    if resource.Some? then FindByResource(s, resource.value) else None
  }

  /** What an event that matches nothing founds, if it may. */
  function Founding(e: Event): Corr {
    var t := FromEventType(e.eventType);
    if t.None? then NoMatch
    else if e.resourceId.Some? then New(t.value, e.resourceId, Or(e.businessId, e.operationId))
    else if e.businessId.Some? then New(t.value, None, e.businessId)
    else NoMatch
  }

  ghost function Correlate(s: Store, e: Event): Corr {
    if MatchKey(s, e.operationId).Some? then Match(MatchKey(s, e.operationId).value, Explicit)
    else if MatchKey(s, e.businessId).Some? then Match(MatchKey(s, e.businessId).value, BusinessId)
    else
      var cause := MatchEvent(s, Or(e.parentEventId, e.causationId));
      if cause.Some? then Match(cause.value, Causation)
      else if MatchResource(s, e.resourceId).Some? then Match(MatchResource(s, e.resourceId).value, ResourceId)
      else Founding(e)
  }

  // ---------------------------------------------------------------- apply, step by step

  /** What `apply` decided to write: a lifecycle, and whether to bind the event to it. */
  datatype Plan =
    | Leave(outcome: Outcome)
    | Write(lc: Lifecycle, bindTo: Option<string>, outcome: Outcome)

  function Lateness(lc: Lifecycle, e: Event, now: nat): Lifecycle {
    lc.(lateEvents := lc.lateEvents + [LateEvent(e.eventId, e.eventType, now, ClassifyLate(lc, e))])
  }

  function Advanced(lc: Lifecycle, tier: InferenceTier, e: Event, now: nat): Lifecycle {
    var (state, closure) := NextState(lc.lifecycleType, e.eventType, (lc.state, lc.closure));
    lc.(eventIds := lc.eventIds + [e.eventId],
        tiers := lc.tiers + [tier],
        lastEventAtMs := now,
        state := state,
        closure := closure,
        closedAtMs := if closure != Open then Some(now) else lc.closedAtMs)
  }

  function NewId(e: Event): string {
    "lc_" + e.eventId
  }

  function Founded(t: LifecycleType, resourceId: Option<string>, businessKey: Option<string>, e: Event, now: nat): Lifecycle {
    var (state, closure) := NextState(t, e.eventType, (Started, Open));
    Lifecycle(NewId(e), e.tenantId, t, businessKey, resourceId, state, closure, now, now,
              if closure != Open then Some(now) else None, [e.eventId], [], StalenessFor(t), [ResourceId])
  }

  ghost function Loaded(s: Store, corr: Corr): Option<Lifecycle> {
    if corr.Match? then Get(s, corr.lifecycleId) else None
  }

  function Decide(corr: Corr, loaded: Option<Lifecycle>, e: Event, now: nat): Plan {
    match corr
    case NoMatch => Leave(Unbound)
    case New(t, resourceId, businessKey) =>
      var lc := Founded(t, resourceId, businessKey, e, now);
      Write(lc, Some(lc.id), Created(lc.id, t, lc.state, lc.closure))
    case Match(id, tier) =>
      if loaded.None? then Leave(Unbound)
      else if loaded.value.closure != Open then
        Write(Lateness(loaded.value, e, now), None, Late(id, tier, ClassifyLate(loaded.value, e)))
      else
        var lc := Advanced(loaded.value, tier, e, now);
        Write(lc, Some(id), Updated(id, tier, lc.state, lc.closure))
  }

  function Upserted(s: Store, plan: Plan): Store {
    if plan.Write? then Upsert(s, plan.lc) else s
  }

  function Bound(s: Store, plan: Plan, e: Event): Store {
    if plan.Write? && plan.bindTo.Some? then RecordEvent(s, e.eventId, plan.bindTo.value) else s
  }

  ghost function PlanOf(s: Store, e: Event, now: nat): Plan {
    var corr := Correlate(s, e);
    Decide(corr, Loaded(s, corr), e, now)
  }

  ghost function ApplyStep(s: Store, e: Event, now: nat): Store {
    var plan := PlanOf(s, e, now);
    Bound(Upserted(s, plan), plan, e)
  }

  // ---------------------------------------------------------------- which events may be applied

  /** What the store must say of an event before it is applied: a founding takes an id and an event
      nobody has; an open lifecycle takes an event that is unbound, or already its own. An event
      that matches nothing, or a closed lifecycle, may always come. */
  ghost predicate Admissible(m: MemState, e: Event) {
    match Correlate(Mem(m), e)
    case NoMatch => true
    case New(_, _, _) => NewId(e) !in m.lifecycles && e.eventId !in m.byEvent
    case Match(id, _) =>
      id in m.lifecycles && m.lifecycles[id].closure == Open ==> KeyFree(m.byEvent, Some(e.eventId), id)
  }

  /** Every lifecycle was founded with a key. */
  ghost predicate AllKeyed(m: MemState) {
    forall id <- m.lifecycles :: m.lifecycles[id].resourceId.Some? || m.lifecycles[id].businessKey.Some?
  }

  /** Every id in use stems from an event applied before. */
  ghost predicate IdsFrom(m: MemState, seen: set<string>) {
    && m.byEvent.Keys <= seen
    && (forall id <- m.lifecycles :: |id| >= 3 && id[3..] in seen)
  }

  lemma NewIdUnused(m: MemState, seen: set<string>, e: Event)
    requires IdsFrom(m, seen) && e.eventId !in seen
    ensures NewId(e) !in m.lifecycles && e.eventId !in m.byEvent
  {
    assert NewId(e)[3..] == e.eventId;
  }

  /** A fresh event id may always come. */
  lemma FreshIsAdmissible(m: MemState, seen: set<string>, e: Event)
    requires IdsFrom(m, seen) && e.eventId !in seen
    ensures Admissible(m, e)
  {
    NewIdUnused(m, seen, e);
  }

  /** An index hit always resolves. */
  lemma MatchResolves(m: MemState, e: Event)
    requires MemInv(m)
    ensures var corr := Correlate(Mem(m), e);
            corr.Match? ==> corr.lifecycleId in m.lifecycles
  {
  }

  /** Lifecycle `id` answers the event on this rung of the ladder, by a scan over all lifecycles. */
  ghost predicate OnRung(m: MemState, e: Event, tier: InferenceTier, id: string) {
    id in m.lifecycles &&
    var lc := m.lifecycles[id];
    match tier
    case Explicit => e.operationId.Some? && lc.businessKey == e.operationId
    case BusinessId => e.businessId.Some? && lc.businessKey == e.businessId
    case Causation =>
      if e.parentEventId.Some? then e.parentEventId.value in lc.eventIds
      else e.causationId.Some? && e.causationId.value in lc.eventIds
    case ResourceId => e.resourceId.Some? && lc.resourceId == e.resourceId
    case _ => false
  }

  /** The order the ladder is climbed in. */
  function RungNumber(tier: InferenceTier): nat {
    match tier
    case Explicit => 1
    case BusinessId => 2
    case Causation => 3
    case ResourceId => 4
    case _ => 5
  }

  ghost predicate TopRung(m: MemState, e: Event, tier: InferenceTier) {
    forall higher, id :: RungNumber(higher) < RungNumber(tier) ==> !OnRung(m, e, higher, id)
  }

  lemma RungByIndex(m: MemState, e: Event, id: string)
    requires MemInv(m)
    ensures OnRung(m, e, Explicit, id) <==> MatchKey(Mem(m), e.operationId) == Some(id)
    ensures OnRung(m, e, BusinessId, id) <==> MatchKey(Mem(m), e.businessId) == Some(id)
    ensures OnRung(m, e, Causation, id) <==> MatchEvent(Mem(m), Or(e.parentEventId, e.causationId)) == Some(id)
    ensures OnRung(m, e, ResourceId, id) <==> MatchResource(Mem(m), e.resourceId) == Some(id)
  {
    forall x | x in m.lifecycles
      ensures RESOURCE_KEY(m.lifecycles[x]) == m.lifecycles[x].resourceId
      ensures BUSINESS_KEY(m.lifecycles[x]) == m.lifecycles[x].businessKey
    {
    }
  }

  /** What the index says on one rung. */
  ghost function AnswerOn(s: Store, e: Event, tier: InferenceTier): Option<string> {
    match tier
    case Explicit => MatchKey(s, e.operationId)
    case BusinessId => MatchKey(s, e.businessId)
    case Causation => MatchEvent(s, Or(e.parentEventId, e.causationId))
    case ResourceId => MatchResource(s, e.resourceId)
    case _ => None
  }

  lemma OnRungIsAnswer(m: MemState, e: Event, tier: InferenceTier, id: string)
    requires MemInv(m)
    ensures OnRung(m, e, tier, id) <==> AnswerOn(Mem(m), e, tier) == Some(id)
  {
    RungByIndex(m, e, id);
  }

  lemma LadderByAnswers(s: Store, e: Event, tier: InferenceTier, id: string)
    ensures Correlate(s, e) == Match(id, tier) <==>
              && AnswerOn(s, e, tier) == Some(id)
              && forall higher :: RungNumber(higher) < RungNumber(tier) ==> AnswerOn(s, e, higher).None?
    ensures AnswerOn(s, e, tier).Some? ==> Correlate(s, e).Match?
  {
    assert AnswerOn(s, e, Explicit).None? || AnswerOn(s, e, Explicit).Some?;
    assert AnswerOn(s, e, BusinessId).None? || AnswerOn(s, e, BusinessId).Some?;
    assert AnswerOn(s, e, Causation).None? || AnswerOn(s, e, Causation).Some?;
    assert AnswerOn(s, e, ResourceId).None? || AnswerOn(s, e, ResourceId).Some?;
  }

  /** Correlation answers with the one lifecycle on the highest rung that any lifecycle is on, and
      with no match exactly when none is on any. */
  lemma CorrelationIsTopRung(m: MemState, e: Event, tier: InferenceTier, id: string)
    requires MemInv(m)
    ensures Correlate(Mem(m), e) == Match(id, tier) <==> OnRung(m, e, tier, id) && TopRung(m, e, tier)
    ensures OnRung(m, e, tier, id) ==> Correlate(Mem(m), e).Match?
  {
    LadderByAnswers(Mem(m), e, tier, id);
    forall t, x
      ensures OnRung(m, e, t, x) <==> AnswerOn(Mem(m), e, t) == Some(x)
    {
      OnRungIsAnswer(m, e, t, x);
    }
    assert forall t :: AnswerOn(Mem(m), e, t).Some? ==> OnRung(m, e, t, AnswerOn(Mem(m), e, t).value);
  }

  /** A lifecycle is founded exactly by a payment event that names a resource or a business id, and
      matches nothing. */
  lemma FoundsIff(m: MemState, e: Event)
    requires MemInv(m)
    ensures Correlate(Mem(m), e).New? <==>
              && (forall tier, id :: !OnRung(m, e, tier, id))
              && "payment." <= e.eventType && (e.resourceId.Some? || e.businessId.Some?)
  {
    forall tier, id
      ensures OnRung(m, e, tier, id) ==> Correlate(Mem(m), e).Match?
    {
      CorrelationIsTopRung(m, e, tier, id);
    }
    var corr := Correlate(Mem(m), e);
    if corr.Match? {
      CorrelationIsTopRung(m, e, corr.tier, corr.lifecycleId);
    }
  }

  /** A lifecycle is founded only with keys that no lifecycle has. */
  lemma FoundingKeysFree(m: MemState, e: Event)
    requires Correlate(Mem(m), e).New?
    ensures var corr := Correlate(Mem(m), e);
            && (corr.resourceId.Some? ==> corr.resourceId.value !in m.byResource)
            && (corr.businessKey.Some? ==> corr.businessKey.value !in m.byBusinessKey)
  {
  }

  /** A plan writes what `upsert` may take, and binds its event to what it writes. */
  ghost predicate SafePlan(m: MemState, plan: Plan, e: Event) {
    plan.Write? ==>
      && Upsertable(m, plan.lc)
      && (plan.bindTo.Some? ==> plan.bindTo.value == plan.lc.id)
      && (plan.bindTo.Some? ==> e.eventId in plan.lc.eventIds)
  }

  lemma FoundingIsSafe(m: MemState, corr: Corr, e: Event, now: nat)
    requires corr.New? && NewId(e) !in m.lifecycles && e.eventId !in m.byEvent
    requires corr.resourceId.Some? ==> corr.resourceId.value !in m.byResource
    requires corr.businessKey.Some? ==> corr.businessKey.value !in m.byBusinessKey
    ensures SafePlan(m, Decide(corr, None, e, now), e)
  {
  }

  lemma MatchIsSafe(m: MemState, id: string, tier: InferenceTier, e: Event, now: nat)
    requires MemInv(m) && id in m.lifecycles
    requires m.lifecycles[id].closure == Open ==> KeyFree(m.byEvent, Some(e.eventId), id)
    ensures SafePlan(m, Decide(Match(id, tier), Some(m.lifecycles[id]), e, now), e)
  {
    StoredIsUpsertable(m, id);
  }

  lemma PlanIsSafe(m: MemState, e: Event, now: nat)
    requires MemInv(m) && Admissible(m, e)
    ensures SafePlan(m, PlanOf(Mem(m), e, now), e)
  {
    var corr := Correlate(Mem(m), e);
    match corr
    case NoMatch =>
    case New(_, _, _) =>
      FoundingKeysFree(m, e);
      FoundingIsSafe(m, corr, e, now);
    case Match(id, tier) =>
      MatchResolves(m, e);
      MatchIsSafe(m, id, tier, e, now);
  }

  /** A stored lifecycle may always be written back. */
  lemma StoredIsUpsertable(m: MemState, id: string)
    requires MemInv(m) && id in m.lifecycles
    ensures Upsertable(m, m.lifecycles[id])
  {
    assert RESOURCE_KEY(m.lifecycles[id]) == m.lifecycles[id].resourceId;
    assert BUSINESS_KEY(m.lifecycles[id]) == m.lifecycles[id].businessKey;
  }

  /** The binding is already there once the lifecycle was written. */
  lemma BindingIsRedundant(m: MemState, plan: Plan, e: Event)
    requires plan.Write? && plan.bindTo == Some(plan.lc.id) && e.eventId in plan.lc.eventIds
    ensures Bound(Upserted(Mem(m), plan), plan, e) == Upserted(Mem(m), plan)
  {
    var after := MemUpsert(m, plan.lc);
    assert after.byEvent[e.eventId := plan.lc.id] == after.byEvent;
  }

  /** One apply of an admissible event keeps every index exact. */
  lemma ApplyKeepsIndexes(m: MemState, e: Event, now: nat)
    requires MemInv(m) && Admissible(m, e)
    ensures var after := ApplyStep(Mem(m), e, now);
            && after.Mem?
            && after == Upserted(Mem(m), PlanOf(Mem(m), e, now))
            && MemInv(after.m)
  {
    var plan := PlanOf(Mem(m), e, now);
    PlanIsSafe(m, e, now);
    if plan.Write? {
      UpsertKeepsIndexes(m, plan.lc);
      if plan.bindTo.Some? {
        BindingIsRedundant(m, plan, e);
      }
    }
  }

  lemma ApplyKeepsIdsFrom(m: MemState, seen: set<string>, e: Event, now: nat)
    requires MemInv(m) && IdsFrom(m, seen) && e.eventId !in seen
    ensures Admissible(m, e)
    ensures var after := ApplyStep(Mem(m), e, now);
            after.Mem? && MemInv(after.m) && IdsFrom(after.m, seen + {e.eventId})
  {
    FreshIsAdmissible(m, seen, e);
    ApplyKeepsIndexes(m, e, now);
    if PlanOf(Mem(m), e, now).Write? {
      WrittenIdIsFrom(m, seen, e, now);
    }
  }

  lemma ApplyKeepsKeyed(m: MemState, e: Event, now: nat)
    requires MemInv(m) && AllKeyed(m)
    ensures var after := ApplyStep(Mem(m), e, now); after.Mem? && AllKeyed(after.m)
  {
    MatchResolves(m, e);
  }

  // ---------------------------------------------------------------- exactly which events keep the indexes

  /** Binding an event to a second lifecycle leaves the first one listing an event not its own. */
  lemma SecondBindingBreaks(m: MemState, after: MemState, e: string, id: string)
    requires MemInv(m) && e in m.byEvent && m.byEvent[e] != id
    requires var first := m.byEvent[e]; first in after.lifecycles && after.lifecycles[first] == m.lifecycles[first]
    requires e in after.byEvent && after.byEvent[e] == id
    ensures !MemInv(after)
  {
    assert e in m.lifecycles[m.byEvent[e]].eventIds;
  }

  /** Founding over a stored lifecycle leaves that one's key pointing at a lifecycle without it. */
  lemma SecondFoundingBreaks(m: MemState, e: Event, now: nat)
    requires MemInv(m) && AllKeyed(m) && Correlate(Mem(m), e).New? && NewId(e) in m.lifecycles
    ensures var after := ApplyStep(Mem(m), e, now); after.Mem? && !MemInv(after.m)
  {
    FoundingKeysFree(m, e);
    var was, after := m.lifecycles[NewId(e)], ApplyStep(Mem(m), e, now).m;
    var lc := PlanOf(Mem(m), e, now).lc;
    assert RESOURCE_KEY(was) == was.resourceId && BUSINESS_KEY(was) == was.businessKey;
    assert RESOURCE_KEY(lc) == lc.resourceId && BUSINESS_KEY(lc) == lc.businessKey;
    assert after.lifecycles[NewId(e)] == lc;
    if was.resourceId.Some? {
      assert after.byResource[was.resourceId.value] == NewId(e);
    } else {
      assert after.byBusinessKey[was.businessKey.value] == NewId(e);
    }
  }

  lemma InadmissibleBreaks(m: MemState, e: Event, now: nat)
    requires MemInv(m) && AllKeyed(m) && !Admissible(m, e)
    ensures var after := ApplyStep(Mem(m), e, now); after.Mem? && !MemInv(after.m)
  {
    MatchResolves(m, e);
    var corr, after := Correlate(Mem(m), e), ApplyStep(Mem(m), e, now).m;
    if corr.New? && NewId(e) in m.lifecycles {
      SecondFoundingBreaks(m, e, now);
    } else {
      var id := if corr.New? then NewId(e) else corr.lifecycleId;
      SecondBindingBreaks(m, after, e.eventId, id);
    }
  }

  /** An apply keeps every index exact if and only if the event was admissible. */
  lemma IndexesKeptIff(m: MemState, e: Event, now: nat)
    requires MemInv(m) && AllKeyed(m)
    ensures var after := ApplyStep(Mem(m), e, now);
            after.Mem? && AllKeyed(after.m) && (MemInv(after.m) <==> Admissible(m, e))
  {
    ApplyKeepsKeyed(m, e, now);
    if Admissible(m, e) {
      ApplyKeepsIndexes(m, e, now);
    } else {
      InadmissibleBreaks(m, e, now);
    }
  }

  lemma WrittenIdIsFrom(m: MemState, seen: set<string>, e: Event, now: nat)
    requires MemInv(m) && IdsFrom(m, seen) && e.eventId !in seen
    requires PlanOf(Mem(m), e, now).Write?
    ensures IdsFrom(MemUpsert(m, PlanOf(Mem(m), e, now).lc), seen + {e.eventId})
  {
    assert NewId(e)[3..] == e.eventId;
    MatchResolves(m, e);
    var lc := PlanOf(Mem(m), e, now).lc;
    forall x | x in lc.eventIds
      ensures x in seen + {e.eventId}
    {
      assert x == e.eventId || x in m.byEvent;
    }
  }

  // ---------------------------------------------------------------- a redelivery that breaks them

  /** An event that founds a payment, or moves one. */
  function Creating(eventId: string, resource: string, businessId: Option<string>): Event {
    Event(eventId, "payment.create", "tenant", None, businessId, None, None, Some(resource))
  }

  function Moving(eventId: string, resource: string, operation: string): Event {
    Event(eventId, "payment.process", "tenant", Some(operation), None, None, None, Some(resource))
  }

  ghost function Applied(m: MemState, e: Event, now: nat): MemState {
    var s := ApplyStep(Mem(m), e, now);
    if s.Mem? then s.m else m
  }

  ghost predicate Sound(m: MemState, seen: set<string>) {
    MemInv(m) && AllKeyed(m) && IdsFrom(m, seen)
  }

  lemma EmptyIsSound(m: MemState)
    requires m == MemState(map[], map[], map[], map[])
    ensures Sound(m, {})
  {
  }

  lemma FreshKeepsSound(m: MemState, seen: set<string>, e: Event, now: nat)
    requires Sound(m, seen) && e.eventId !in seen
    ensures Admissible(m, e) && Sound(Applied(m, e, now), seen + {e.eventId})
  {
    ApplyKeepsIdsFrom(m, seen, e, now);
    ApplyKeepsKeyed(m, e, now);
  }

  lemma CreatingFounds(m: MemState, eventId: string, resource: string, businessId: Option<string>, now: nat)
    requires resource !in m.byResource && (businessId.Some? ==> businessId.value !in m.byBusinessKey)
    ensures var e := Creating(eventId, resource, businessId);
            var after, id := Applied(m, e, now), NewId(e);
            && id in after.lifecycles
            && after.lifecycles == m.lifecycles[id := Founded(Payment, Some(resource), businessId, e, now)]
            && after.lifecycles[id].closure == Open
            && after.byResource == m.byResource[resource := id]
            && after.byBusinessKey == Reindexed(m.byBusinessKey, businessId, id)
            && after.byEvent == m.byEvent[eventId := id]
  {
    var e := Creating(eventId, resource, businessId);
    assert FromEventType(e.eventType) == Some(Payment);
    assert Correlate(Mem(m), e) == New(Payment, e.resourceId, e.businessId);
    assert BindAll(m.byEvent, [eventId], NewId(e)) == m.byEvent[eventId := NewId(e)];
  }

  lemma MovingMatches(m: MemState, eventId: string, resource: string, operation: string, id: string)
    requires m.byResource == map[resource := id] && m.byBusinessKey == map[]
    ensures Correlate(Mem(m), Moving(eventId, resource, operation)) == Match(id, ResourceId)
  {
  }

  /** With no business key around, the event moves the lifecycle of its resource. */
  lemma MovingMoves(m: MemState, eventId: string, resource: string, operation: string, id: string, now: nat)
    requires m.byResource == map[resource := id] && m.byBusinessKey == map[]
    requires id in m.lifecycles && m.lifecycles[id].closure == Open && m.lifecycles[id].id == id
    requires m.lifecycles[id].resourceId == Some(resource) && m.lifecycles[id].businessKey == None
    ensures var after := Applied(m, Moving(eventId, resource, operation), now);
            && after.byResource == m.byResource && after.byBusinessKey == m.byBusinessKey
            && eventId in after.byEvent && after.byEvent[eventId] == id
            && id in after.lifecycles && eventId in after.lifecycles[id].eventIds
  {
    MovingMatches(m, eventId, resource, operation, id);
  }

  lemma BoundElsewhere(m: MemState, e: Event, id: string)
    requires MemInv(m) && e.operationId.Some?
    requires e.operationId.value in m.byBusinessKey && m.byBusinessKey[e.operationId.value] == id
    requires id in m.lifecycles && m.lifecycles[id].closure == Open
    requires e.eventId in m.byEvent && m.byEvent[e.eventId] != id
    ensures !Admissible(m, e)
  {
    assert Correlate(Mem(m), e) == Match(id, Explicit);
  }

  lemma NewIdsApart(a: Event, b: Event)
    requires a.eventId != b.eventId
    ensures NewId(a) != NewId(b)
  {
    assert NewId(a)[3..] == a.eventId && NewId(b)[3..] == b.eventId;
  }

  lemma ThreeSound(m0: MemState, first: Event, second: Event, third: Event, now: nat)
    requires Sound(m0, {})
    requires first.eventId != second.eventId && first.eventId != third.eventId && second.eventId != third.eventId
    ensures var m1 := Applied(m0, first, now); var m2 := Applied(m1, second, now);
            && Admissible(m0, first) && Admissible(m1, second) && Admissible(m2, third)
            && Sound(Applied(m2, third, now), {} + {first.eventId} + {second.eventId} + {third.eventId})
  {
    var m1 := Applied(m0, first, now);
    var m2 := Applied(m1, second, now);
    FreshKeepsSound(m0, {}, first, now);
    FreshKeepsSound(m1, {} + {first.eventId}, second, now);
    FreshKeepsSound(m2, {} + {first.eventId} + {second.eventId}, third, now);
  }

  lemma {:induction false} SecondKeyTaken(m0: MemState, a: string, b: string, c: string, r: string, q: string, x: string, now: nat)
    requires m0.byResource == map[] && m0.byBusinessKey == map[] && b != c && r != q
    ensures var first, third := Creating(a, r, None), Creating(c, q, Some(x));
            var m3 := Applied(Applied(Applied(m0, first, now), Moving(b, r, x), now), third, now);
            && m3.byBusinessKey == map[x := NewId(third)]
            && NewId(third) in m3.lifecycles && m3.lifecycles[NewId(third)].closure == Open
            && b in m3.byEvent && m3.byEvent[b] == NewId(first)
  {
    var m1 := Applied(m0, Creating(a, r, None), now);
    CreatingFounds(m0, a, r, None, now);
    MovingMoves(m1, b, r, x, NewId(Creating(a, r, None)), now);
    CreatingFounds(Applied(m1, Moving(b, r, x), now), c, q, Some(x), now);
  }

  lemma MovedElsewhere(m: MemState, seen: set<string>, e: Event, first: Event, third: Event, now: nat)
    requires Sound(m, seen) && e.operationId.Some? && first.eventId != third.eventId
    requires m.byBusinessKey == map[e.operationId.value := NewId(third)]
    requires NewId(third) in m.lifecycles && m.lifecycles[NewId(third)].closure == Open
    requires e.eventId in m.byEvent && m.byEvent[e.eventId] == NewId(first)
    ensures !Admissible(m, e) && !MemInv(Applied(m, e, now))
  {
    NewIdsApart(first, third);
    BoundElsewhere(m, e, NewId(third));
    IndexesKeptIff(m, e, now);
  }

  /** `b` moves the lifecycle founded by `a`; then `c` founds another under the business key that `b`
      carries as its operation id; so `b`, delivered again, moves that other lifecycle. Every event
      but the redelivered one was admissible, and the redelivered one is the very same event. */
  lemma RedeliveryMayBreak(m0: MemState, a: string, b: string, c: string, r: string, q: string, x: string, now: nat)
    requires m0 == MemState(map[], map[], map[], map[])
    requires a != b && a != c && b != c && r != q
    ensures var e := Moving(b, r, x);
            var m1 := Applied(m0, Creating(a, r, None), now);
            var m2 := Applied(m1, e, now);
            var m3 := Applied(m2, Creating(c, q, Some(x)), now);
            && Admissible(m0, Creating(a, r, None)) && Admissible(m1, e) && Admissible(m2, Creating(c, q, Some(x)))
            && MemInv(m3) && !Admissible(m3, e)
            && !MemInv(Applied(m3, e, now))
  {
    var first, e, third := Creating(a, r, None), Moving(b, r, x), Creating(c, q, Some(x));
    EmptyIsSound(m0);
    ThreeSound(m0, first, e, third, now);
    SecondKeyTaken(m0, a, b, c, r, q, x, now);
    var m3 := Applied(Applied(Applied(m0, first, now), e, now), third, now);
    MovedElsewhere(m3, {} + {a} + {b} + {c}, e, first, third, now);
  }

  // ---------------------------------------------------------------- the two stores agree

  lemma LookupsAgree(m: MemState, q: SqlState, key: string)
    requires MemInv(m) && Related(m, q)
    ensures FindByResource(Sql(q), key) == FindByResource(Mem(m), key)
    ensures FindByBusinessKey(Sql(q), key) == FindByBusinessKey(Mem(m), key)
    ensures FindByEvent(Sql(q), key) == FindByEvent(Mem(m), key)
    ensures Get(Sql(q), key) == Get(Mem(m), key)
  {
    QueriesAgree(m, q, key, FindByResource(Sql(q), key), FindByBusinessKey(Sql(q), key));
  }

  lemma LookupAgrees(m: MemState, q: SqlState, key: Option<string>)
    requires MemInv(m) && Related(m, q)
    ensures MatchKey(Sql(q), key) == MatchKey(Mem(m), key)
    ensures MatchEvent(Sql(q), key) == MatchEvent(Mem(m), key)
    ensures MatchResource(Sql(q), key) == MatchResource(Mem(m), key)
  {
    if key.Some? {
      LookupsAgree(m, q, key.value);
    }
  }

  lemma RungsAgree(m: MemState, q: SqlState, e: Event)
    requires MemInv(m) && Related(m, q)
    ensures MatchKey(Sql(q), e.operationId) == MatchKey(Mem(m), e.operationId)
    ensures MatchKey(Sql(q), e.businessId) == MatchKey(Mem(m), e.businessId)
    ensures var cause := Or(e.parentEventId, e.causationId); MatchEvent(Sql(q), cause) == MatchEvent(Mem(m), cause)
    ensures MatchResource(Sql(q), e.resourceId) == MatchResource(Mem(m), e.resourceId)
  {
    LookupAgrees(m, q, e.operationId);
    LookupAgrees(m, q, e.businessId);
    LookupAgrees(m, q, Or(e.parentEventId, e.causationId));
    LookupAgrees(m, q, e.resourceId);
  }

  /** The ladder depends on its four lookups only. */
  lemma SameRungsSameAnswer(a: Store, b: Store, e: Event)
    requires MatchKey(a, e.operationId) == MatchKey(b, e.operationId)
    requires MatchKey(a, e.businessId) == MatchKey(b, e.businessId)
    requires var cause := Or(e.parentEventId, e.causationId); MatchEvent(a, cause) == MatchEvent(b, cause)
    requires MatchResource(a, e.resourceId) == MatchResource(b, e.resourceId)
    ensures Correlate(a, e) == Correlate(b, e)
  {
  }

  lemma LoadsAgree(m: MemState, q: SqlState, corr: Corr)
    requires MemInv(m) && Related(m, q)
    ensures Loaded(Sql(q), corr) == Loaded(Mem(m), corr)
  {
  }

  lemma CorrelationsAgree(m: MemState, q: SqlState, e: Event)
    requires MemInv(m) && Related(m, q)
    ensures Correlate(Sql(q), e) == Correlate(Mem(m), e)
    ensures Loaded(Sql(q), Correlate(Sql(q), e)) == Loaded(Mem(m), Correlate(Mem(m), e))
  {
    RungsAgree(m, q, e);
    SameRungsSameAnswer(Sql(q), Mem(m), e);
    LoadsAgree(m, q, Correlate(Mem(m), e));
  }

  /** The engine takes the same decision on either store and leaves them alike. */
  lemma ApplyAgrees(m: MemState, q: SqlState, e: Event, now: nat)
    requires MemInv(m) && Related(m, q) && Admissible(m, e)
    ensures PlanOf(Sql(q), e, now) == PlanOf(Mem(m), e, now)
    ensures var plan := PlanOf(Sql(q), e, now); plan.Write? ==> Displaced(q.rows, plan.lc) <= {plan.lc.id}
    ensures var (a, b) := (ApplyStep(Mem(m), e, now), ApplyStep(Sql(q), e, now));
            a.Mem? && b.Sql? && Related(a.m, b.q)
  {
    CorrelationsAgree(m, q, e);
    PlanIsSafe(m, e, now);
    var plan := PlanOf(Mem(m), e, now);
    if plan.Write? {
      UpsertKeepsRelation(m, q, plan.lc);
    }
  }

  // ---------------------------------------------------------------- what one apply may change

  /** `after` extends `before` by one entry in exactly one of its two lists, at time `now`. */
  predicate GrewByOne(before: Lifecycle, after: Lifecycle, e: Event, now: nat) {
    || (&& before.closure != Open
        && |after.lateEvents| == |before.lateEvents| + 1
        && (var late := after.lateEvents[|before.lateEvents|];
            && late.eventId == e.eventId && late.eventType == e.eventType && late.arrivedAtMs == now
            && late.lateClass == ClassifyLate(before, e))
        && after == before.(lateEvents := after.lateEvents)
        && before.lateEvents <= after.lateEvents)
    || (&& before.closure == Open
        && MovesTo(e.eventType, (before.state, before.closure), (after.state, after.closure))
        && |after.tiers| == |before.tiers| + 1 && before.tiers <= after.tiers
        && after == before.(eventIds := before.eventIds + [e.eventId], tiers := after.tiers, lastEventAtMs := now,
                            state := after.state, closure := after.closure,
                            closedAtMs := if after.closure == Open then before.closedAtMs else Some(now)))
  }

  ghost predicate FoundsOne(m: MemState, after: MemState, id: string, e: Event, now: nat) {
    && id == "lc_" + e.eventId && id !in m.lifecycles && id in after.lifecycles
    && after.lifecycles == m.lifecycles[id := after.lifecycles[id]]
    && var lc := after.lifecycles[id];
       && lc.id == id && lc.tenantId == e.tenantId && lc.resourceId == e.resourceId
       && lc.businessKey == (if e.resourceId.Some? && e.businessId.None? then e.operationId else e.businessId)
       && lc.eventIds == [e.eventId] && lc.lateEvents == [] && lc.tiers == [ResourceId]
       && lc.startedAtMs == now && lc.lastEventAtMs == now && lc.stalenessMs == 3_600_000
       && MovesTo(e.eventType, (Started, Open), (lc.state, lc.closure))
       && lc.closedAtMs == if lc.closure == Open then None else Some(now)
  }

  ghost predicate GrowsOne(m: MemState, after: MemState, id: string, e: Event, now: nat) {
    && id in m.lifecycles && id in after.lifecycles
    && GrewByOne(m.lifecycles[id], after.lifecycles[id], e, now)
    && after.lifecycles == m.lifecycles[id := after.lifecycles[id]]
  }

  /** Where a payment event takes state and closure: other events leave them. */
  predicate MovesTo(eventType: string, was: (State, Closure), next: (State, Closure)) {
    if eventType == "payment.create" then next == (Started, Open)
    else if eventType in ["payment.process", "payment.processing", "payment.retry"] then next == (Processing, Open)
    else if eventType == "payment.pending" then next == (Pending, Open)
    else if eventType in ["payment.settle", "payment.success", "payment.completed"] then next == (Success, Closed)
    else if eventType in ["payment.fail", "payment.failed", "payment.error"] then next == (Failed, ClosedWithException)
    else if eventType in ["payment.cancel", "payment.cancelled"] then next == (Cancelled, Closed)
    else if eventType in ["payment.reverse", "payment.reversed"] then next == (Reversed, ClosedWithException)
    else next == was
  }

  lemma {:induction false} NextStateMoves(t: LifecycleType, eventType: string, was: (State, Closure))
    ensures MovesTo(eventType, was, NextState(t, eventType, was))
  {
  }

  /** A late event is a duplicate if the lifecycle has it, a conflict if it would have moved the
      lifecycle to another terminal state, and mere information if the state machine ignores it. */
  lemma LateClassMeaning(lc: Lifecycle, e: Event)
    ensures var lateClass := ClassifyLate(lc, e);
            var replayed := NextState(lc.lifecycleType, e.eventType, (lc.state, lc.closure)).0;
            && (lateClass == Duplicate <==> e.eventId in lc.eventIds)
            && (lateClass == Conflict <==> e.eventId !in lc.eventIds && IsTerminal(replayed) && replayed != lc.state)
            && (lateClass == LateInformation <==>
                  e.eventId !in lc.eventIds && TransitionFor(lc.lifecycleType, e.eventType).None?)
            && lateClass in {Duplicate, Conflict, Amendment, LateInformation}
  {
  }

  /** Each apply, repeated events included, founds one lifecycle holding just the event, or grows
      exactly one list of one lifecycle, or changes nothing; a closed lifecycle only ever gains late
      events. Only a founding under an id already taken does otherwise. */
  lemma ApplyGrowsOneList(m: MemState, e: Event, now: nat)
    requires MemInv(m) && (Correlate(Mem(m), e).New? ==> NewId(e) !in m.lifecycles)
    ensures var after := ApplyStep(Mem(m), e, now);
            && after.Mem?
            && (after.m == m || (exists id :: FoundsOne(m, after.m, id, e, now)) || (exists id :: GrowsOne(m, after.m, id, e, now)))
  {
    MatchResolves(m, e);
    AppliedLifecycles(m, e, now);
    var corr := Correlate(Mem(m), e);
    var after := ApplyStep(Mem(m), e, now).m;
    match corr
    case NoMatch =>
    case New(t, _, _) =>
      FoundedFounds(m, e, now, corr);
      assert FoundsOne(m, after, NewId(e), e, now);
    case Match(id, tier) =>
      WrittenGrows(m.lifecycles[id], tier, e, now);
      assert m.lifecycles[id].id == id;
      assert GrowsOne(m, after, id, e, now);
  }

  lemma {:induction false} WrittenGrows(lc: Lifecycle, tier: InferenceTier, e: Event, now: nat)
    ensures lc.closure == Open ==> GrewByOne(lc, Advanced(lc, tier, e, now), e, now)
    ensures lc.closure != Open ==> GrewByOne(lc, Lateness(lc, e, now), e, now)
  {
    NextStateMoves(lc.lifecycleType, e.eventType, (lc.state, lc.closure));
  }

  lemma {:induction false} FoundedFounds(m: MemState, e: Event, now: nat, corr: Corr)
    requires corr == Founding(e) && corr.New? && NewId(e) !in m.lifecycles
    ensures var lc := Founded(corr.lifecycleType, corr.resourceId, corr.businessKey, e, now);
            FoundsOne(m, m.(lifecycles := m.lifecycles[NewId(e) := lc]), NewId(e), e, now)
  {
    NextStateMoves(corr.lifecycleType, e.eventType, (Started, Open));
  }

  /** The answer of an apply describes what the store holds afterwards. */
  lemma OutcomeDescribes(m: MemState, e: Event, now: nat)
    requires MemInv(m)
    ensures var after := ApplyStep(Mem(m), e, now);
            after.Mem? &&
            match PlanOf(Mem(m), e, now).outcome
            case Created(id, t, state, closure) =>
              && id in after.m.lifecycles && after.m.lifecycles[id].eventIds == [e.eventId]
              && (after.m.lifecycles[id].lifecycleType, after.m.lifecycles[id].state, after.m.lifecycles[id].closure)
                 == (t, state, closure)
            case Updated(id, tier, state, closure) =>
              && id in m.lifecycles && id in after.m.lifecycles && OnRung(m, e, tier, id) && TopRung(m, e, tier)
              && after.m.lifecycles[id].eventIds == m.lifecycles[id].eventIds + [e.eventId]
              && after.m.lifecycles[id].tiers == m.lifecycles[id].tiers + [tier]
              && (after.m.lifecycles[id].state, after.m.lifecycles[id].closure) == (state, closure)
            case Late(id, tier, lateClass) =>
              && id in m.lifecycles && id in after.m.lifecycles && OnRung(m, e, tier, id) && TopRung(m, e, tier)
              && after.m.lifecycles[id].lateEvents
                 == m.lifecycles[id].lateEvents + [LateEvent(e.eventId, e.eventType, now, lateClass)]
            case Unbound => after.m == m && forall tier, id :: !OnRung(m, e, tier, id)
  {
    MatchResolves(m, e);
    AppliedLifecycles(m, e, now);
    var corr := Correlate(Mem(m), e);
    if corr.Match? {
      CorrelationIsTopRung(m, e, corr.tier, corr.lifecycleId);
      assert m.lifecycles[corr.lifecycleId].id == corr.lifecycleId;
    } else {
      forall tier, id
        ensures !OnRung(m, e, tier, id)
      {
        CorrelationIsTopRung(m, e, tier, id);
      }
    }
  }

  /** For every event, admissible or not: what an apply drops from a lifecycle's list is the events of a
      lifecycle it founds over, but for the founding event itself, and nothing else. */
  lemma ApplyDropsIff(m: MemState, e: Event, now: nat, id: string, x: string)
    requires MemInv(m) && id in m.lifecycles && x in m.lifecycles[id].eventIds
    ensures var after := ApplyStep(Mem(m), e, now);
            && after.Mem? && id in after.m.lifecycles
            && (x !in after.m.lifecycles[id].eventIds <==>
                  Correlate(Mem(m), e).New? && id == NewId(e) && x != e.eventId)
  {
    AppliedLifecycles(m, e, now);
    PlannedEvents(m, e, now);
  }

  lemma AppliedLifecycles(m: MemState, e: Event, now: nat)
    ensures var plan, s := PlanOf(Mem(m), e, now), ApplyStep(Mem(m), e, now);
            s.Mem? && s.m.lifecycles == if plan.Write? then m.lifecycles[plan.lc.id := plan.lc] else m.lifecycles
  {
  }

  /** A plan founds with its own event alone, or keeps the events of the lifecycle it writes. */
  lemma PlannedEvents(m: MemState, e: Event, now: nat)
    requires MemInv(m)
    ensures var corr, plan := Correlate(Mem(m), e), PlanOf(Mem(m), e, now);
            && (corr.New? ==> plan.Write? && plan.lc.id == NewId(e) && plan.lc.eventIds == [e.eventId])
            && (!corr.New? && plan.Write? ==>
                  plan.lc.id in m.lifecycles && m.lifecycles[plan.lc.id].eventIds <= plan.lc.eventIds)
  {
    MatchResolves(m, e);
  }

  /** Such a founding: `a` founds a lifecycle, `b` moves it, and `a`, coming again with another resource,
      founds over it and drops `b`. */
  lemma {:induction false} SecondFoundingDrops(m0: MemState, a: string, b: string, r: string, q: string, x: string, now: nat)
    requires m0 == MemState(map[], map[], map[], map[]) && a != b && r != q
    ensures var m2, id := Applied(Applied(m0, Creating(a, r, None), now), Moving(b, r, x), now), "lc_" + a;
            && MemInv(m2) && id in m2.lifecycles && b in m2.lifecycles[id].eventIds
            && var after := Applied(m2, Creating(a, q, None), now);
               id in after.lifecycles && b !in after.lifecycles[id].eventIds
  {
    var first, second := Creating(a, r, None), Moving(b, r, x);
    EmptyIsSound(m0);
    TwoSound(m0, first, second, now);
    SecondFoundingIsOver(m0, a, b, r, q, x, now);
  }

  lemma {:induction false} SecondFoundingIsOver(m0: MemState, a: string, b: string, r: string, q: string, x: string, now: nat)
    requires m0.byResource == map[] && m0.byBusinessKey == map[] && a != b && r != q
    ensures var m2, id := Applied(Applied(m0, Creating(a, r, None), now), Moving(b, r, x), now), NewId(Creating(a, r, None));
            && id in m2.lifecycles && b in m2.lifecycles[id].eventIds
            && var after := Applied(m2, Creating(a, q, None), now);
               id in after.lifecycles && after.lifecycles[id].eventIds == [a]
  {
    var m1 := Applied(m0, Creating(a, r, None), now);
    CreatingFounds(m0, a, r, None, now);
    MovingMoves(m1, b, r, x, NewId(Creating(a, r, None)), now);
    CreatingFounds(Applied(m1, Moving(b, r, x), now), a, q, None, now);
  }

  lemma {:induction false} TwoSound(m0: MemState, first: Event, second: Event, now: nat)
    requires Sound(m0, {}) && first.eventId != second.eventId
    ensures MemInv(Applied(Applied(m0, first, now), second, now))
  {
    FreshKeepsSound(m0, {}, first, now);
    FreshKeepsSound(Applied(m0, first, now), {} + {first.eventId}, second, now);
  }

  /** A repeated event id on its own open lifecycle is appended to the list again, and harms no
      index. */
  lemma RepeatedIdAppendsAgain(m: MemState, e: Event, now: nat)
    requires MemInv(m)
    requires var corr := Correlate(Mem(m), e); corr.Match? && m.lifecycles[corr.lifecycleId].closure == Open
    requires e.eventId in m.lifecycles[Correlate(Mem(m), e).lifecycleId].eventIds
    ensures var id := Correlate(Mem(m), e).lifecycleId;
            && id in m.lifecycles
            && ApplyStep(Mem(m), e, now).m.lifecycles[id].eventIds == m.lifecycles[id].eventIds + [e.eventId]
            && Admissible(m, e) && MemInv(ApplyStep(Mem(m), e, now).m)
  {
    MatchResolves(m, e);
    ApplyKeepsIndexes(m, e, now);
  }
}
