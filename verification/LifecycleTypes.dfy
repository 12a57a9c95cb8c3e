/** Lifecycle domain types, and the parts of a canonical event the engine looks at. */
module LifecycleTypes {
  import opened Common

  datatype LifecycleType = Payment

  datatype State =
    | Started | Processing | Pending | Success | Failed | Cancelled | Rejected | Timeout | Expired
    | Abandoned | Reversed | Compensated | PartiallyCompleted | Conflicted | Unknown

  datatype Closure = Open | Closed | ClosedWithException | ClosedWithUncertainty

  datatype InferenceTier = Explicit | BusinessId | Causation | ResourceId | UnknownTier

  datatype LateEventClass = Duplicate | Correction | Amendment | Conflict | LateInformation | UnknownClass

  datatype LateEvent = LateEvent(eventId: string, eventType: string, arrivedAtMs: nat, lateClass: LateEventClass)

  datatype Lifecycle = Lifecycle(
    id: string,
    tenantId: string,
    lifecycleType: LifecycleType,
    businessKey: Option<string>,
    resourceId: Option<string>,
    state: State,
    closure: Closure,
    startedAtMs: nat,
    lastEventAtMs: nat,
    closedAtMs: Option<nat>,
    eventIds: seq<string>,
    lateEvents: seq<LateEvent>,
    stalenessMs: nat,
    tiers: seq<InferenceTier>)

  datatype Event = Event(
    eventId: string,
    eventType: string,
    tenantId: string,
    operationId: Option<string>,
    businessId: Option<string>,
    parentEventId: Option<string>,
    causationId: Option<string>,
    resourceId: Option<string>)

  predicate IsTerminal(s: State) {
    s in {Success, Failed, Cancelled, Rejected, Timeout, Expired, Abandoned, Reversed, Compensated}
  }

  function FromEventType(eventType: string): Option<LifecycleType> {
    if "payment." <= eventType then Some(Payment) else None
  }

  function StalenessFor(t: LifecycleType): nat {
    match t
    case Payment => 60 * 60 * 1000
  }
}
