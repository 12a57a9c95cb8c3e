/** The scanner's sweep takes no lock: its listing and its write-backs fall between the small steps of
    concurrent applies. Exactly when an event that an apply bound is missing from its lifecycle at the
    end. One scanner runs, so sweeps do not overlap each other. */
module SweepInterleaving {
  import opened Common
  import opened LifecycleTypes
  import opened LifecycleStores
  import opened LifecycleEngine
  import opened StalenessScanner
  import opened ApplyInterleaving

  datatype Scanner =
    | Idle
    | Sweeping(open: seq<Lifecycle>, next: nat, now: nat)

  /** The engine's tasks and store, and the scanner. */
  datatype Both = Both(engine: System, scanner: Scanner)

  /** Who moves next: a task, or the scanner listing the open lifecycles or writing one back. */
  datatype Pick =
    | Thread(i: nat)
    | List(open: seq<Lifecycle>, now: nat)
    | WriteBack

  ghost function Advance(tasks: seq<Task>, s: Both, p: Pick): (r: Both)
    requires |s.engine.pcs| == |tasks|
    ensures |r.engine.pcs| == |tasks|
  {
    match p
    case Thread(i) => s.(engine := StepTask(tasks, s.engine, i))
    case List(open, now) =>
      if s.scanner.Idle? && IsOpenListing(s.engine.store, open) then s.(scanner := Sweeping(open, 0, now)) else s
    case WriteBack =>
      match s.scanner
      case Idle => s
      case Sweeping(open, next, now) =>
        if next < |open| then
          Both(s.engine.(store := SweepOne(s.engine.store, open[next], now)), Sweeping(open, next + 1, now))
        else s.(scanner := Idle)
  }

  ghost function After(tasks: seq<Task>, s: Both, picks: seq<Pick>): (r: Both)
    requires |s.engine.pcs| == |tasks|
    ensures |r.engine.pcs| == |tasks|
    decreases |picks|
  {
    if picks == [] then s else After(tasks, Advance(tasks, s, picks[0]), picks[1..])
  }

  // ---------------------------------------------------------------- what every reachable state keeps

  ghost function Lifecycles(s: Both): map<string, Lifecycle> {
    match s.engine.store
    case Mem(m) => m.lifecycles
    case Sql(_) => map[]
  }

  /** Has not written its lifecycle yet. */
  predicate Unwritten(pc: Pc) {
    pc.Waiting? || pc.Locked? || pc.Correlated? || pc.Planned?
  }

  ghost predicate Named(all: map<string, Lifecycle>) {
    forall id <- all :: all[id].id == id
  }

  ghost predicate DistinctEvents(tasks: seq<Task>) {
    forall i, j :: 0 <= i < j < |tasks| ==> tasks[i].e.eventId != tasks[j].e.eventId
  }

  ghost predicate Locking(s: System) {
    && RestingBut(s.pcs, s.holder)
    && (s.holder.Some? ==> s.holder.value < |s.pcs| && !Resting(s.pcs[s.holder.value]))
  }

  ghost predicate ListingOk(scanner: Scanner, all: map<string, Lifecycle>) {
    scanner.Sweeping? ==>
      && (forall i, j :: 0 <= i < j < |scanner.open| ==> scanner.open[i].id != scanner.open[j].id)
      && (forall n :: 0 <= n < |scanner.open| ==> scanner.open[n].id in all)
  }

  ghost predicate UnknownIn(all: map<string, Lifecycle>, x: string) {
    forall id <- all :: x !in all[id].eventIds
  }

  ghost predicate UnknownTo(scanner: Scanner, x: string) {
    scanner.Sweeping? ==> forall n :: 0 <= n < |scanner.open| ==> x !in scanner.open[n].eventIds
  }

  /** Nobody has the event of a task that has not written. */
  ghost predicate Unseen(tasks: seq<Task>, s: Both) {
    forall j :: 0 <= j < |tasks| && j < |s.engine.pcs| && Unwritten(s.engine.pcs[j]) ==>
      && NewId(tasks[j].e) !in Lifecycles(s)
      && UnknownIn(Lifecycles(s), tasks[j].e.eventId)
      && UnknownTo(s.scanner, tasks[j].e.eventId)
  }

  ghost predicate PlanOk(tasks: seq<Task>, i: nat, plan: Plan, pcs: seq<Pc>, all: map<string, Lifecycle>)
    requires i < |tasks| == |pcs|
  {
    plan.Write? ==>
      && (plan.lc.id in all || plan.lc.id == NewId(tasks[i].e))
      && (plan.bindTo.Some? ==> tasks[i].e.eventId in plan.lc.eventIds)
      && forall j :: 0 <= j < |tasks| && j != i && Unwritten(pcs[j]) ==> tasks[j].e.eventId !in plan.lc.eventIds
  }

  ghost predicate PlansOk(tasks: seq<Task>, pcs: seq<Pc>, all: map<string, Lifecycle>)
    requires |pcs| == |tasks|
  {
    forall i :: 0 <= i < |tasks| && pcs[i].Planned? ==> PlanOk(tasks, i, pcs[i].plan, pcs, all)
  }

  ghost predicate Reached(tasks: seq<Task>, s: Both) {
    && s.engine.store.Mem? && |s.engine.pcs| == |tasks| && DistinctEvents(tasks)
    && Locking(s.engine) && Named(Lifecycles(s))
    && ListingOk(s.scanner, Lifecycles(s))
    && Unseen(tasks, s)
    && PlansOk(tasks, s.engine.pcs, Lifecycles(s))
  }

  // ---------------------------------------------------------------- one step

  lemma PlannedFromStore(tasks: seq<Task>, s: Both, i: nat)
    requires Reached(tasks, s) && i < |tasks| && s.engine.pcs[i].Correlated?
    ensures var after := Advance(tasks, s, Thread(i));
            && after == s.(engine := s.engine.(pcs := s.engine.pcs[i := after.engine.pcs[i]]))
            && after.engine.pcs[i].Planned?
            && PlanOk(tasks, i, after.engine.pcs[i].plan, after.engine.pcs, Lifecycles(s))
  {
    var corr := s.engine.pcs[i].corr;
    var loaded := Loaded(s.engine.store, corr);
    if corr.Match? && loaded.Some? {
      assert corr.lifecycleId in Lifecycles(s) && loaded.value == Lifecycles(s)[corr.lifecycleId];
    }
  }

  lemma LoadingKeeps(tasks: seq<Task>, s: Both, i: nat)
    requires Reached(tasks, s) && i < |tasks| && s.engine.pcs[i].Correlated?
    ensures Reached(tasks, Advance(tasks, s, Thread(i)))
  {
    PlannedFromStore(tasks, s, i);
  }

  /** Writing one lifecycle that holds no event of an unwritten task. */
  lemma WritingKeepsUnseen(tasks: seq<Task>, s: Both, t: Both, lc: Lifecycle)
    requires Unseen(tasks, s) && |s.engine.pcs| == |tasks| == |t.engine.pcs| && t.scanner == s.scanner
    requires Lifecycles(t) == Lifecycles(s)[lc.id := lc]
    requires forall j :: 0 <= j < |tasks| && Unwritten(t.engine.pcs[j]) ==>
               Unwritten(s.engine.pcs[j]) && NewId(tasks[j].e) != lc.id && tasks[j].e.eventId !in lc.eventIds
    ensures Unseen(tasks, t)
  {
  }

  lemma UpsertingStep(tasks: seq<Task>, s: Both, i: nat)
    requires Reached(tasks, s) && i < |tasks| && s.engine.pcs[i].Planned?
    ensures var plan, t := s.engine.pcs[i].plan, Advance(tasks, s, Thread(i));
            && t.engine.store.Mem? && t.scanner == s.scanner && t.engine.holder == s.engine.holder
            && t.engine.pcs == s.engine.pcs[i := Pc.Stored(plan)]
            && Lifecycles(t) == if plan.Write? then Lifecycles(s)[plan.lc.id := plan.lc] else Lifecycles(s)
  {
  }

  lemma NewIdsDiffer(tasks: seq<Task>, i: nat, j: nat)
    requires DistinctEvents(tasks) && i < |tasks| && j < |tasks| && i != j
    ensures NewId(tasks[i].e) != NewId(tasks[j].e)
  {
    NewIdsApart(tasks[i].e, tasks[j].e);
  }

  lemma UpsertingKeeps(tasks: seq<Task>, s: Both, i: nat)
    requires Reached(tasks, s) && i < |tasks| && s.engine.pcs[i].Planned?
    ensures Reached(tasks, Advance(tasks, s, Thread(i)))
  {
    UpsertingStep(tasks, s, i);
    var plan, t := s.engine.pcs[i].plan, Advance(tasks, s, Thread(i));
    assert s.engine.holder == Some(i);
    assert forall j :: 0 <= j < |tasks| && j != i ==> t.engine.pcs[j] == s.engine.pcs[j];
    if plan.Write? {
      assert PlanOk(tasks, i, plan, s.engine.pcs, Lifecycles(s));
      forall j | 0 <= j < |tasks| && Unwritten(t.engine.pcs[j])
        ensures NewId(tasks[j].e) != plan.lc.id
      {
        NewIdsDiffer(tasks, i, j);
      }
      WritingKeepsUnseen(tasks, s, t, plan.lc);
    }
  }

  /** The other moves of a task leave the lifecycles alone. */
  lemma QuietStep(tasks: seq<Task>, s: Both, i: nat)
    requires Reached(tasks, s)
    requires i < |tasks| ==> !s.engine.pcs[i].Correlated? && !s.engine.pcs[i].Planned?
    ensures var t := Advance(tasks, s, Thread(i));
            && t.engine.store.Mem? && Lifecycles(t) == Lifecycles(s) && t.scanner == s.scanner
            && Locking(t.engine)
            && forall j :: 0 <= j < |tasks| ==>
                 && (Unwritten(t.engine.pcs[j]) ==> Unwritten(s.engine.pcs[j]))
                 && (Unwritten(s.engine.pcs[j]) ==> Unwritten(t.engine.pcs[j]))
                 && (t.engine.pcs[j].Planned? ==> t.engine.pcs[j] == s.engine.pcs[j])
                 && (s.engine.pcs[j].Planned? ==> t.engine.pcs[j] == s.engine.pcs[j])
  {
    if i < |tasks| {
      var pc := s.engine.pcs[i];
      assert pc.Done? ==> s.engine.pcs[i := pc] == s.engine.pcs;
    }
  }

  lemma QuietKeeps(tasks: seq<Task>, s: Both, i: nat)
    requires Reached(tasks, s)
    requires i < |tasks| ==> !s.engine.pcs[i].Correlated? && !s.engine.pcs[i].Planned?
    ensures Reached(tasks, Advance(tasks, s, Thread(i)))
  {
    QuietStep(tasks, s, i);
    var t := Advance(tasks, s, Thread(i));
    forall k | 0 <= k < |tasks| && t.engine.pcs[k].Planned?
      ensures PlanOk(tasks, k, t.engine.pcs[k].plan, t.engine.pcs, Lifecycles(t))
    {
      assert PlanOk(tasks, k, s.engine.pcs[k].plan, s.engine.pcs, Lifecycles(s));
    }
  }

  lemma ListedIds(s: Both, open: seq<Lifecycle>)
    requires s.engine.store.Mem? && Named(Lifecycles(s)) && IsOpenListing(s.engine.store, open)
    ensures forall i, j :: 0 <= i < j < |open| ==> open[i].id != open[j].id
    ensures forall n :: 0 <= n < |open| ==>
              open[n].id in Lifecycles(s) && Lifecycles(s)[open[n].id] == open[n] && open[n].closure == Open
  {
    var ids :| ListsOpen(s.engine.store, open, ids);
    forall n | 0 <= n < |open|
      ensures ids[n] in Lifecycles(s) && Lifecycles(s)[ids[n]] == open[n] && open[n].id == ids[n] && open[n].closure == Open
    {
      assert ids[n] in OpenIds(s.engine.store) && Get(s.engine.store, ids[n]) == Some(open[n]);
    }
  }

  lemma ListingKeeps(tasks: seq<Task>, s: Both, open: seq<Lifecycle>, now: nat)
    requires Reached(tasks, s)
    ensures Reached(tasks, Advance(tasks, s, List(open, now)))
  {
    if s.scanner.Idle? && IsOpenListing(s.engine.store, open) {
      ListedIds(s, open);
    }
  }

  lemma WriteBackStep(tasks: seq<Task>, s: Both)
    requires Reached(tasks, s)
    ensures var t := Advance(tasks, s, WriteBack);
            && t.engine.store.Mem? && t.engine.pcs == s.engine.pcs && t.engine.holder == s.engine.holder
            && (s.scanner.Idle? ==> t == s)
            && (s.scanner.Sweeping? ==>
                  var (open, next, now) := (s.scanner.open, s.scanner.next, s.scanner.now);
                  if next < |open| then
                    && t.scanner == Sweeping(open, next + 1, now)
                    && Lifecycles(t) == (if Stale(open[next], now) then Lifecycles(s)[open[next].id := TimedOut(open[next], now)]
                                     else Lifecycles(s))
                  else t.scanner == Idle && Lifecycles(t) == Lifecycles(s))
  {
  }

  lemma WriteBackKeeps(tasks: seq<Task>, s: Both)
    requires Reached(tasks, s)
    ensures Reached(tasks, Advance(tasks, s, WriteBack))
  {
    WriteBackStep(tasks, s);
  }

  lemma AdvanceKeeps(tasks: seq<Task>, s: Both, p: Pick)
    requires Reached(tasks, s)
    ensures Reached(tasks, Advance(tasks, s, p))
  {
    match p
    case List(open, now) => ListingKeeps(tasks, s, open, now);
    case WriteBack => WriteBackKeeps(tasks, s);
    case Thread(i) =>
      if i < |tasks| && s.engine.pcs[i].Correlated? {
        LoadingKeeps(tasks, s, i);
      } else if i < |tasks| && s.engine.pcs[i].Planned? {
        UpsertingKeeps(tasks, s, i);
      } else {
        QuietKeeps(tasks, s, i);
      }
  }

  lemma {:induction false} AfterKeeps(tasks: seq<Task>, s: Both, picks: seq<Pick>)
    requires Reached(tasks, s)
    ensures Reached(tasks, After(tasks, s, picks))
    decreases |picks|
  {
    if picks != [] {
      AdvanceKeeps(tasks, s, picks[0]);
      AfterKeeps(tasks, Advance(tasks, s, picks[0]), picks[1..]);
    }
  }

  // ---------------------------------------------------------------- one event of one lifecycle

  ghost predicate Has(s: Both, id: string, x: string) {
    id in Lifecycles(s) && x in Lifecycles(s)[id].eventIds
  }

  /** Task `j` has loaded lifecycle `id` and is about to write it. */
  predicate PlannedOn(s: Both, j: nat, id: string) {
    j < |s.engine.pcs| && s.engine.pcs[j].Planned? && s.engine.pcs[j].plan.Write? && s.engine.pcs[j].plan.lc.id == id
  }

  /** The sweep under way still has a stale snapshot of the lifecycle to write back. */
  predicate Ahead(s: Both, id: string) {
    s.scanner.Sweeping? &&
    exists n :: s.scanner.next <= n < |s.scanner.open| && s.scanner.open[n].id == id
                && Stale(s.scanner.open[n], s.scanner.now)
  }

  /** The scanner writes back a stale snapshot of the lifecycle. */
  predicate WritesBack(s: Both, p: Pick, id: string) {
    && p.WriteBack? && s.scanner.Sweeping? && s.scanner.next < |s.scanner.open|
    && s.scanner.open[s.scanner.next].id == id && Stale(s.scanner.open[s.scanner.next], s.scanner.now)
  }

  /** Task `b` has written; its event is `x`, and lifecycle `id` exists. */
  ghost predicate Watched(tasks: seq<Task>, s: Both, b: nat, id: string, x: string) {
    && Reached(tasks, s) && b < |tasks| && !Unwritten(s.engine.pcs[b]) && x == tasks[b].e.eventId
    && id in Lifecycles(s)
  }

  /** All who are about to write the lifecycle have the event. */
  ghost predicate WritersHave(s: Both, id: string, x: string) {
    forall j: nat :: PlannedOn(s, j, id) ==> x in s.engine.pcs[j].plan.lc.eventIds
  }

  ghost predicate WritersLack(s: Both, id: string, x: string) {
    forall j: nat :: PlannedOn(s, j, id) ==> x !in s.engine.pcs[j].plan.lc.eventIds
  }

  ghost predicate SnapshotsLack(s: Both, id: string, x: string) {
    s.scanner.Sweeping? ==>
      forall n :: s.scanner.next <= n < |s.scanner.open| && s.scanner.open[n].id == id ==>
        x !in s.scanner.open[n].eventIds
  }

  ghost predicate SnapshotsHave(s: Both, id: string, x: string) {
    s.scanner.Sweeping? ==>
      forall n :: s.scanner.next <= n < |s.scanner.open| ==>
        (s.scanner.open[n].id == id && Stale(s.scanner.open[n], s.scanner.now) ==> x in s.scanner.open[n].eventIds)
  }

  /** Held, and nothing under way can lose it. */
  ghost predicate Safe(s: Both, id: string, x: string) {
    Has(s, id, x) && WritersHave(s, id, x) && SnapshotsHave(s, id, x)
  }

  /** Held, but the sweep under way will write back a snapshot without it. */
  ghost predicate Endangered(s: Both, id: string, x: string) {
    Has(s, id, x) && WritersHave(s, id, x) && Ahead(s, id) && SnapshotsLack(s, id, x)
  }

  /** Missing, and nothing under way has it. */
  ghost predicate Lost(s: Both, id: string, x: string) {
    !Has(s, id, x) && WritersLack(s, id, x) && SnapshotsLack(s, id, x)
  }

  /** Missing, but task `j` loaded the lifecycle before and will write it with the event. */
  ghost predicate Pending(s: Both, j: nat, id: string, x: string) {
    && !Has(s, id, x) && id in Lifecycles(s) && Lifecycles(s)[id].closure != Open
    && PlannedOn(s, j, id) && x in s.engine.pcs[j].plan.lc.eventIds
    && (s.scanner.Sweeping? ==>
          forall n :: s.scanner.next <= n < |s.scanner.open| ==> s.scanner.open[n].id != id)
  }

  // ---------------------------------------------------------------- how each situation goes on

  /** What a task loads: the lifecycle as it stands, with its own event behind or not. */
  lemma LoadedEvents(tasks: seq<Task>, s: Both, i: nat, b: nat, id: string, x: string)
    requires Watched(tasks, s, b, id, x) && i < |tasks| && s.engine.pcs[i].Correlated?
    ensures var t := Advance(tasks, s, Thread(i));
            PlannedOn(t, i, id) ==> (x in t.engine.pcs[i].plan.lc.eventIds <==> Has(s, id, x))
  {
    PlannedFromStore(tasks, s, i);
    var corr := s.engine.pcs[i].corr;
    var loaded := Loaded(s.engine.store, corr);
    assert Unwritten(s.engine.pcs[i]) && i != b;
    assert tasks[i].e.eventId != x;
    if corr.Match? && loaded.Some? {
      assert loaded.value == Lifecycles(s)[corr.lifecycleId];
    }
  }

  /** One task moves: only it may have become, or ceased to be, about to write. */
  lemma ThreadWriters(tasks: seq<Task>, s: Both, i: nat, id: string)
    requires Reached(tasks, s)
    ensures var t := Advance(tasks, s, Thread(i));
            && (forall j: nat :: j != i ==> (PlannedOn(t, j, id) <==> PlannedOn(s, j, id)))
            && (forall j: nat :: j != i && PlannedOn(t, j, id) ==> t.engine.pcs[j] == s.engine.pcs[j])
            && (PlannedOn(t, i, id) ==> s.engine.pcs[i].Correlated?)
            && t.scanner == s.scanner
  {
    if i < |tasks| && s.engine.pcs[i].Correlated? {
      PlannedFromStore(tasks, s, i);
    } else if i < |tasks| && s.engine.pcs[i].Planned? {
      UpsertingStep(tasks, s, i);
    } else {
      QuietStep(tasks, s, i);
      assert i < |tasks| ==> !Advance(tasks, s, Thread(i)).engine.pcs[i].Planned?;
    }
  }

  /** What one task's move makes of the lifecycle. */
  lemma ThreadStored(tasks: seq<Task>, s: Both, i: nat, id: string)
    requires Reached(tasks, s) && id in Lifecycles(s)
    ensures var t := Advance(tasks, s, Thread(i));
            && id in Lifecycles(t)
            && Lifecycles(t)[id] == if PlannedOn(s, i, id) then s.engine.pcs[i].plan.lc else Lifecycles(s)[id]
  {
    if i < |tasks| && s.engine.pcs[i].Correlated? {
      PlannedFromStore(tasks, s, i);
    } else if i < |tasks| && s.engine.pcs[i].Planned? {
      UpsertingStep(tasks, s, i);
    } else {
      QuietStep(tasks, s, i);
    }
  }

  lemma ThreadKeepsHeld(tasks: seq<Task>, s: Both, i: nat, b: nat, id: string, x: string)
    requires Watched(tasks, s, b, id, x) && Has(s, id, x) && WritersHave(s, id, x)
    ensures var t := Advance(tasks, s, Thread(i)); Has(t, id, x) && WritersHave(t, id, x) && t.scanner == s.scanner
  {
    ThreadStored(tasks, s, i, id);
    ThreadWriters(tasks, s, i, id);
    if PlannedOn(Advance(tasks, s, Thread(i)), i, id) {
      LoadedEvents(tasks, s, i, b, id, x);
    }
  }

  lemma ThreadKeepsLost(tasks: seq<Task>, s: Both, i: nat, b: nat, id: string, x: string)
    requires Watched(tasks, s, b, id, x) && Lost(s, id, x)
    ensures Lost(Advance(tasks, s, Thread(i)), id, x)
  {
    ThreadStored(tasks, s, i, id);
    ThreadWriters(tasks, s, i, id);
    if PlannedOn(Advance(tasks, s, Thread(i)), i, id) {
      LoadedEvents(tasks, s, i, b, id, x);
    }
  }

  lemma SafeStays(tasks: seq<Task>, s: Both, p: Pick, b: nat, id: string, x: string)
    requires Watched(tasks, s, b, id, x) && Safe(s, id, x)
    ensures Safe(Advance(tasks, s, p), id, x)
  {
    match p
    case Thread(i) => ThreadKeepsHeld(tasks, s, i, b, id, x);
    case WriteBack => WriteBackStep(tasks, s);
    case List(open, now) =>
      if s.scanner.Idle? && IsOpenListing(s.engine.store, open) {
        ListedIds(s, open);
      }
  }

  lemma LostStays(tasks: seq<Task>, s: Both, p: Pick, b: nat, id: string, x: string)
    requires Watched(tasks, s, b, id, x) && Lost(s, id, x)
    ensures Lost(Advance(tasks, s, p), id, x)
  {
    match p
    case Thread(i) => ThreadKeepsLost(tasks, s, i, b, id, x);
    case WriteBack => WriteBackStep(tasks, s);
    case List(open, now) =>
      if s.scanner.Idle? && IsOpenListing(s.engine.store, open) {
        ListedIds(s, open);
      }
  }

  lemma EndangeredStays(tasks: seq<Task>, s: Both, p: Pick, b: nat, id: string, x: string)
    requires Watched(tasks, s, b, id, x) && Endangered(s, id, x) && !WritesBack(s, p, id)
    ensures Endangered(Advance(tasks, s, p), id, x)
  {
    match p
    case Thread(i) => ThreadKeepsHeld(tasks, s, i, b, id, x);
    case WriteBack => WriteBackStep(tasks, s);
    case List(_, _) =>
  }

  /** The write-back itself: the event is gone, for good unless somebody had loaded it. */
  lemma EndangeredFalls(tasks: seq<Task>, s: Both, p: Pick, b: nat, id: string, x: string)
    requires Watched(tasks, s, b, id, x) && Endangered(s, id, x) && WritesBack(s, p, id)
    ensures var t := Advance(tasks, s, p);
            && !Ahead(t, id)
            && (forall j: nat :: PlannedOn(s, j, id) ==> Pending(t, j, id, x))
            && ((forall j: nat :: !PlannedOn(s, j, id)) ==> Lost(t, id, x))
  {
    WriteBackStep(tasks, s);
    var t := Advance(tasks, s, p);
    assert forall j: nat :: PlannedOn(t, j, id) <==> PlannedOn(s, j, id);
  }

  /** At most one task is about to write. */
  lemma OneWriter(tasks: seq<Task>, s: Both, i: nat, j: nat, id: string)
    requires Reached(tasks, s) && PlannedOn(s, i, id) && PlannedOn(s, j, id)
    ensures i == j && s.engine.holder == Some(i)
  {
  }

  lemma PendingStays(tasks: seq<Task>, s: Both, p: Pick, j: nat, b: nat, id: string, x: string)
    requires Watched(tasks, s, b, id, x) && Pending(s, j, id, x) && p != Thread(j)
    ensures Pending(Advance(tasks, s, p), j, id, x)
  {
    match p
    case Thread(i) =>
      ThreadStored(tasks, s, i, id);
      ThreadWriters(tasks, s, i, id);
      if PlannedOn(s, i, id) {
        OneWriter(tasks, s, i, j, id);
      }
    case WriteBack => WriteBackStep(tasks, s);
    case List(open, now) =>
      if s.scanner.Idle? && IsOpenListing(s.engine.store, open) {
        ListedIds(s, open);
      }
  }

  lemma PendingRecovers(tasks: seq<Task>, s: Both, j: nat, b: nat, id: string, x: string)
    requires Watched(tasks, s, b, id, x) && Pending(s, j, id, x)
    ensures Safe(Advance(tasks, s, Thread(j)), id, x)
  {
    ThreadStored(tasks, s, j, id);
    ThreadWriters(tasks, s, j, id);
    forall k: nat | PlannedOn(Advance(tasks, s, Thread(j)), k, id)
      ensures k == j
    {
      if k != j {
        OneWriter(tasks, s, k, j, id);
      }
    }
  }

  lemma WatchedStays(tasks: seq<Task>, s: Both, p: Pick, b: nat, id: string, x: string)
    requires Watched(tasks, s, b, id, x)
    ensures Watched(tasks, Advance(tasks, s, p), b, id, x)
  {
    AdvanceKeeps(tasks, s, p);
    match p
    case Thread(i) =>
      ThreadStored(tasks, s, i, id);
      WrittenStaysWritten(tasks, s, i, b);
    case WriteBack => WriteBackStep(tasks, s);
    case List(_, _) =>
  }

  lemma WrittenStaysWritten(tasks: seq<Task>, s: Both, i: nat, b: nat)
    requires Reached(tasks, s) && b < |tasks| && !Unwritten(s.engine.pcs[b])
    ensures !Unwritten(Advance(tasks, s, Thread(i)).engine.pcs[b])
  {
  }

  // ---------------------------------------------------------------- exactly when the event is missing

  ghost function StateAt(tasks: seq<Task>, s: Both, picks: seq<Pick>, q: nat): (r: Both)
    requires |s.engine.pcs| == |tasks| && q <= |picks|
    ensures |r.engine.pcs| == |tasks|
  {
    After(tasks, s, picks[..q])
  }

  lemma StateShifts(tasks: seq<Task>, s: Both, picks: seq<Pick>, q: nat)
    requires |s.engine.pcs| == |tasks| && 0 < q <= |picks|
    ensures StateAt(tasks, s, picks, q) == StateAt(tasks, Advance(tasks, s, picks[0]), picks[1..], q - 1)
  {
    assert picks[..q][1..] == picks[1..][..q - 1];
  }

  /** The sweep has been under way through pick `q`. */
  ghost predicate SameSweep(tasks: seq<Task>, s: Both, picks: seq<Pick>, q: nat)
    requires |s.engine.pcs| == |tasks| && q <= |picks|
  {
    forall r :: 0 <= r <= q ==> StateAt(tasks, s, picks, r).scanner.Sweeping?
  }

  /** Some task that was about to write the lifecycle in state `t` does so from pick `q` on. */
  ghost predicate WrittenLater(t: Both, picks: seq<Pick>, q: nat, id: string) {
    exists r, j: nat :: q <= r < |picks| && picks[r] == Thread(j) && PlannedOn(t, j, id)
  }

  /** At pick `q` the sweep that has been under way all along writes back its stale snapshot of the
      lifecycle, and no task that had by then loaded the lifecycle writes it afterwards. */
  ghost predicate LosesAt(tasks: seq<Task>, s: Both, picks: seq<Pick>, id: string, q: nat)
    requires |s.engine.pcs| == |tasks|
  {
    && q < |picks|
    && SameSweep(tasks, s, picks, q)
    && WritesBack(StateAt(tasks, s, picks, q), picks[q], id)
    && !WrittenLater(StateAt(tasks, s, picks, q), picks, q + 1, id)
  }

  lemma SameSweepShifts(tasks: seq<Task>, s: Both, picks: seq<Pick>, q: nat)
    requires |s.engine.pcs| == |tasks| && 0 < q <= |picks| && s.scanner.Sweeping?
    ensures SameSweep(tasks, s, picks, q) <==> SameSweep(tasks, Advance(tasks, s, picks[0]), picks[1..], q - 1)
  {
    var t, rest := Advance(tasks, s, picks[0]), picks[1..];
    forall r | 0 < r <= q
      ensures StateAt(tasks, s, picks, r) == StateAt(tasks, t, rest, r - 1)
    {
      StateShifts(tasks, s, picks, r);
    }
    assert StateAt(tasks, s, picks, 0) == s;
    if SameSweep(tasks, s, picks, q) {
      forall r | 0 <= r <= q - 1
        ensures StateAt(tasks, t, rest, r).scanner.Sweeping?
      {
        assert StateAt(tasks, s, picks, r + 1) == StateAt(tasks, t, rest, r);
      }
    }
  }

  lemma WrittenLaterShifts(t: Both, picks: seq<Pick>, q: nat, id: string)
    requires 0 < q && picks != []
    ensures WrittenLater(t, picks, q, id) <==> WrittenLater(t, picks[1..], q - 1, id)
  {
    if WrittenLater(t, picks, q, id) {
      var r, j: nat :| q <= r < |picks| && picks[r] == Thread(j) && PlannedOn(t, j, id);
      assert picks[1..][r - 1] == Thread(j);
    }
    if WrittenLater(t, picks[1..], q - 1, id) {
      var r, j: nat :| q - 1 <= r < |picks[1..]| && picks[1..][r] == Thread(j) && PlannedOn(t, j, id);
      assert picks[r + 1] == Thread(j);
    }
  }

  lemma LosesShifts(tasks: seq<Task>, s: Both, picks: seq<Pick>, id: string, q: nat)
    requires |s.engine.pcs| == |tasks| && 0 < q && picks != [] && s.scanner.Sweeping?
    ensures LosesAt(tasks, s, picks, id, q) <==> LosesAt(tasks, Advance(tasks, s, picks[0]), picks[1..], id, q - 1)
  {
    if q < |picks| {
      StateShifts(tasks, s, picks, q);
      SameSweepShifts(tasks, s, picks, q);
      WrittenLaterShifts(StateAt(tasks, s, picks, q), picks, q + 1, id);
    }
  }

  lemma AheadOnlyShrinks(tasks: seq<Task>, s: Both, p: Pick, id: string)
    requires Reached(tasks, s) && s.scanner.Sweeping? && !Ahead(s, id)
    ensures !Ahead(Advance(tasks, s, p), id)
  {
    match p
    case Thread(i) => ThreadWriters(tasks, s, i, id);
    case WriteBack => WriteBackStep(tasks, s);
    case List(_, _) =>
  }

  /** A sweep that has no stale snapshot of the lifecycle left never writes one back. */
  lemma {:induction false} NothingAhead(tasks: seq<Task>, s: Both, picks: seq<Pick>, id: string, q: nat)
    requires Reached(tasks, s) && !Ahead(s, id)
    ensures !LosesAt(tasks, s, picks, id, q)
    decreases |picks|
  {
    if LosesAt(tasks, s, picks, id, q) {
      assert StateAt(tasks, s, picks, 0) == s;
      if q > 0 {
        LosesShifts(tasks, s, picks, id, q);
        AheadOnlyShrinks(tasks, s, picks[0], id);
        AdvanceKeeps(tasks, s, picks[0]);
        NothingAhead(tasks, Advance(tasks, s, picks[0]), picks[1..], id, q - 1);
      }
    }
  }

  lemma {:induction false} SafeToTheEnd(tasks: seq<Task>, s: Both, picks: seq<Pick>, b: nat, id: string, x: string)
    requires Watched(tasks, s, b, id, x) && Safe(s, id, x)
    ensures Has(After(tasks, s, picks), id, x)
    decreases |picks|
  {
    if picks != [] {
      SafeStays(tasks, s, picks[0], b, id, x);
      WatchedStays(tasks, s, picks[0], b, id, x);
      SafeToTheEnd(tasks, Advance(tasks, s, picks[0]), picks[1..], b, id, x);
    }
  }

  lemma {:induction false} LostToTheEnd(tasks: seq<Task>, s: Both, picks: seq<Pick>, b: nat, id: string, x: string)
    requires Watched(tasks, s, b, id, x) && Lost(s, id, x)
    ensures !Has(After(tasks, s, picks), id, x)
    decreases |picks|
  {
    if picks != [] {
      LostStays(tasks, s, picks[0], b, id, x);
      WatchedStays(tasks, s, picks[0], b, id, x);
      LostToTheEnd(tasks, Advance(tasks, s, picks[0]), picks[1..], b, id, x);
    }
  }

  /** Pending on task `j`: back at the end exactly if `j` moves again. */
  lemma {:induction false} PendingToTheEnd(tasks: seq<Task>, s: Both, picks: seq<Pick>, j: nat, b: nat, id: string, x: string)
    requires Watched(tasks, s, b, id, x) && Pending(s, j, id, x)
    ensures Has(After(tasks, s, picks), id, x) <==> Thread(j) in picks
    decreases |picks|
  {
    if picks != [] {
      var t := Advance(tasks, s, picks[0]);
      WatchedStays(tasks, s, picks[0], b, id, x);
      if picks[0] == Thread(j) {
        PendingRecovers(tasks, s, j, b, id, x);
        SafeToTheEnd(tasks, t, picks[1..], b, id, x);
      } else {
        PendingStays(tasks, s, picks[0], j, b, id, x);
        PendingToTheEnd(tasks, t, picks[1..], j, b, id, x);
        assert picks == [picks[0]] + picks[1..];
      }
    }
  }

  lemma LaterIsTheWriter(tasks: seq<Task>, s: Both, picks: seq<Pick>, j: nat, id: string)
    requires Reached(tasks, s) && PlannedOn(s, j, id)
    ensures WrittenLater(s, picks, 0, id) <==> Thread(j) in picks
  {
    if WrittenLater(s, picks, 0, id) {
      var r, k: nat :| 0 <= r < |picks| && picks[r] == Thread(k) && PlannedOn(s, k, id);
      OneWriter(tasks, s, j, k, id);
    }
  }

  lemma FallenIff(tasks: seq<Task>, s: Both, picks: seq<Pick>, b: nat, id: string, x: string)
    requires Watched(tasks, s, b, id, x) && Endangered(s, id, x) && picks != [] && WritesBack(s, picks[0], id)
    ensures !Has(After(tasks, s, picks), id, x) <==> !WrittenLater(s, picks, 1, id)
  {
    var t, rest := Advance(tasks, s, picks[0]), picks[1..];
    EndangeredFalls(tasks, s, picks[0], b, id, x);
    WatchedStays(tasks, s, picks[0], b, id, x);
    WrittenLaterShifts(s, picks, 1, id);
    if j: nat :| PlannedOn(s, j, id) {
      PendingToTheEnd(tasks, t, rest, j, b, id, x);
      LaterIsTheWriter(tasks, s, rest, j, id);
    } else {
      LostToTheEnd(tasks, t, rest, b, id, x);
    }
  }

  lemma {:induction false} EndangeredIff(tasks: seq<Task>, s: Both, picks: seq<Pick>, b: nat, id: string, x: string)
    requires Watched(tasks, s, b, id, x) && Endangered(s, id, x)
    ensures !Has(After(tasks, s, picks), id, x) <==> exists q: nat :: LosesAt(tasks, s, picks, id, q)
    decreases |picks|
  {
    if picks != [] {
      LosesNowOrLater(tasks, s, picks, id);
      var t, rest := Advance(tasks, s, picks[0]), picks[1..];
      WatchedStays(tasks, s, picks[0], b, id, x);
      if WritesBack(s, picks[0], id) {
        FallenIff(tasks, s, picks, b, id, x);
        EndangeredFalls(tasks, s, picks[0], b, id, x);
        forall q: nat
          ensures !LosesAt(tasks, t, rest, id, q)
        {
          NothingAhead(tasks, t, rest, id, q);
        }
      } else {
        EndangeredStays(tasks, s, picks[0], b, id, x);
        EndangeredIff(tasks, t, rest, b, id, x);
      }
    }
  }

  lemma LosesNowOrLater(tasks: seq<Task>, s: Both, picks: seq<Pick>, id: string)
    requires |s.engine.pcs| == |tasks| && picks != [] && s.scanner.Sweeping?
    ensures (exists q: nat :: LosesAt(tasks, s, picks, id, q)) <==>
              || (WritesBack(s, picks[0], id) && !WrittenLater(s, picks, 1, id))
              || exists q: nat :: LosesAt(tasks, Advance(tasks, s, picks[0]), picks[1..], id, q)
  {
    var t, rest := Advance(tasks, s, picks[0]), picks[1..];
    assert StateAt(tasks, s, picks, 0) == s;
    assert LosesAt(tasks, s, picks, id, 0) <==> WritesBack(s, picks[0], id) && !WrittenLater(s, picks, 1, id);
    if q: nat :| LosesAt(tasks, s, picks, id, q) {
      if q > 0 {
        LosesShifts(tasks, s, picks, id, q);
      }
    }
    if q: nat :| LosesAt(tasks, t, rest, id, q) {
      LosesShifts(tasks, s, picks, id, q + 1);
    }
  }

  /** Right after a task has written its event. */
  lemma JustWritten(tasks: seq<Task>, s: Both, b: nat)
    requires Reached(tasks, s) && b < |tasks| && s.engine.pcs[b].Planned?
    requires s.engine.pcs[b].plan.Write? && s.engine.pcs[b].plan.bindTo.Some?
    ensures var t, id, x := Advance(tasks, s, Thread(b)), s.engine.pcs[b].plan.lc.id, tasks[b].e.eventId;
            && Watched(tasks, t, b, id, x) && Has(t, id, x) && WritersHave(t, id, x)
            && (t.scanner.Sweeping? ==> forall n :: 0 <= n < |t.scanner.open| ==> x !in t.scanner.open[n].eventIds)
  {
    var id := s.engine.pcs[b].plan.lc.id;
    UpsertingStep(tasks, s, b);
    AdvanceKeeps(tasks, s, Thread(b));
    ThreadWriters(tasks, s, b, id);
    assert PlanOk(tasks, b, s.engine.pcs[b].plan, s.engine.pcs, Lifecycles(s));
    forall j: nat | PlannedOn(s, j, id)
      ensures j == b
    {
      OneWriter(tasks, s, j, b, id);
    }
  }

  lemma MissingAfter(tasks: seq<Task>, s: Both, b: nat, picks: seq<Pick>)
    requires Reached(tasks, s) && b < |tasks| && s.engine.pcs[b].Planned?
    requires s.engine.pcs[b].plan.Write? && s.engine.pcs[b].plan.bindTo.Some?
    ensures var t, id := Advance(tasks, s, Thread(b)), s.engine.pcs[b].plan.lc.id;
            !Has(After(tasks, t, picks), id, tasks[b].e.eventId) <==> exists q: nat :: LosesAt(tasks, t, picks, id, q)
  {
    var t, id, x := Advance(tasks, s, Thread(b)), s.engine.pcs[b].plan.lc.id, tasks[b].e.eventId;
    JustWritten(tasks, s, b);
    if Ahead(t, id) {
      EndangeredIff(tasks, t, picks, b, id, x);
    } else {
      SafeToTheEnd(tasks, t, picks, b, id, x);
      forall q: nat
        ensures !LosesAt(tasks, t, picks, id, q)
      {
        NothingAhead(tasks, t, picks, id, q);
      }
    }
  }

  ghost function Begin(m: MemState, tasks: seq<Task>): (s: Both)
    ensures |s.engine.pcs| == |tasks|
  {
    Both(Initial(Mem(m), tasks), Idle)
  }

  lemma BeginIsReached(m: MemState, seen: set<string>, tasks: seq<Task>)
    requires MemInv(m) && IdsFrom(m, seen) && Fresh(tasks, seen)
    ensures Reached(tasks, Begin(m, tasks))
  {
    forall j | 0 <= j < |tasks|
      ensures NewId(tasks[j].e) !in m.lifecycles && UnknownIn(m.lifecycles, tasks[j].e.eventId)
    {
      NewIdUnused(m, seen, tasks[j].e);
    }
  }

  /** In every interleaving of applies and a sweeping scanner: after a task wrote its event into a
      lifecycle, the event is missing from it at the end if and only if the sweep that was under way
      at that moment later writes back a stale snapshot of the lifecycle, and no task that had loaded
      the lifecycle by then writes it after that. */
  lemma EventMissingIff(m: MemState, seen: set<string>, tasks: seq<Task>, before: seq<Pick>, b: nat, picks: seq<Pick>)
    requires MemInv(m) && IdsFrom(m, seen) && Fresh(tasks, seen) && b < |tasks|
    requires var pc := After(tasks, Begin(m, tasks), before).engine.pcs[b];
             pc.Planned? && pc.plan.Write? && pc.plan.bindTo.Some?
    ensures var s := After(tasks, Begin(m, tasks), before);
            var t, id := Advance(tasks, s, Thread(b)), s.engine.pcs[b].plan.lc.id;
            !Has(After(tasks, t, picks), id, tasks[b].e.eventId) <==> exists q: nat :: LosesAt(tasks, t, picks, id, q)
  {
    BeginIsReached(m, seen, tasks);
    AfterKeeps(tasks, Begin(m, tasks), before);
    MissingAfter(tasks, After(tasks, Begin(m, tasks), before), b, picks);
  }

  // ---------------------------------------------------------------- exactly when a closed lifecycle is reopened

  /** One step: a closed lifecycle is open afterwards. */
  ghost predicate Reopens(tasks: seq<Task>, s: Both, p: Pick, id: string)
    requires |s.engine.pcs| == |tasks|
  {
    && id in Lifecycles(s) && Lifecycles(s)[id].closure != Open
    && id in Lifecycles(Advance(tasks, s, p)) && Lifecycles(Advance(tasks, s, p))[id].closure == Open
  }

  lemma ReopensByWrite(tasks: seq<Task>, s: Both, p: Pick, id: string)
    requires Reached(tasks, s)
    ensures Reopens(tasks, s, p, id) <==>
            && id in Lifecycles(s) && Lifecycles(s)[id].closure != Open
            && p.Thread? && PlannedOn(s, p.i, id) && s.engine.pcs[p.i].plan.lc.closure == Open
  {
    if id in Lifecycles(s) {
      match p
      case Thread(i) => ThreadStored(tasks, s, i, id);
      case WriteBack => WriteBackStep(tasks, s);
      case List(_, _) =>
    }
  }

  /** Task `i` is about to load lifecycle `id`, which is open, and its event leaves it open. */
  ghost predicate LoadsOpen(tasks: seq<Task>, s: Both, i: nat, id: string) {
    && i < |tasks| == |s.engine.pcs| && s.engine.pcs[i].Correlated?
    && s.engine.pcs[i].corr.Match? && s.engine.pcs[i].corr.lifecycleId == id
    && id in Lifecycles(s) && Lifecycles(s)[id].closure == Open
    && var lc := Lifecycles(s)[id];
       NextState(lc.lifecycleType, tasks[i].e.eventType, (lc.state, lc.closure)).1 == Open
  }

  /** The task did so at pick `l` and has not moved since. */
  ghost predicate LoadedAt(tasks: seq<Task>, s: Both, picks: seq<Pick>, i: nat, id: string, l: nat)
    requires |s.engine.pcs| == |tasks|
  {
    && l < |picks| && picks[l] == Thread(i) && LoadsOpen(tasks, StateAt(tasks, s, picks, l), i, id)
    && forall r :: l < r < |picks| ==> picks[r] != Thread(i)
  }

  /** After pick `l` the scanner wrote back a stale snapshot of the lifecycle. */
  ghost predicate WroteBackSince(tasks: seq<Task>, s: Both, picks: seq<Pick>, id: string, l: nat)
    requires |s.engine.pcs| == |tasks|
  {
    exists q :: l < q < |picks| && WritesBack(StateAt(tasks, s, picks, q), picks[q], id)
  }

  lemma StateOfLonger(tasks: seq<Task>, s: Both, picks: seq<Pick>, p: Pick)
    requires |s.engine.pcs| == |tasks|
    ensures forall q :: 0 <= q <= |picks| ==> StateAt(tasks, s, picks + [p], q) == StateAt(tasks, s, picks, q)
    ensures StateAt(tasks, s, picks, |picks|) == After(tasks, s, picks)
  {
    assert forall q :: 0 <= q <= |picks| ==> (picks + [p])[..q] == picks[..q];
    assert picks[..|picks|] == picks;
  }

  lemma LoadedNext(tasks: seq<Task>, s: Both, picks: seq<Pick>, p: Pick, i: nat, id: string, l: nat)
    requires |s.engine.pcs| == |tasks|
    ensures LoadedAt(tasks, s, picks + [p], i, id, l) <==>
              if l == |picks| then p == Thread(i) && LoadsOpen(tasks, After(tasks, s, picks), i, id)
              else LoadedAt(tasks, s, picks, i, id, l) && p != Thread(i)
  {
    StateOfLonger(tasks, s, picks, p);
    var more := picks + [p];
    assert more[|picks|] == p && forall r :: 0 <= r < |picks| ==> more[r] == picks[r];
  }

  lemma WroteBackNext(tasks: seq<Task>, s: Both, picks: seq<Pick>, p: Pick, id: string, l: nat)
    requires |s.engine.pcs| == |tasks| && l <= |picks|
    ensures WroteBackSince(tasks, s, picks + [p], id, l) <==>
              l < |picks| && (WroteBackSince(tasks, s, picks, id, l) || WritesBack(After(tasks, s, picks), p, id))
  {
    StateOfLonger(tasks, s, picks, p);
    var more := picks + [p];
    assert more[|picks|] == p && forall r :: 0 <= r < |picks| ==> more[r] == picks[r];
    if q :| l < q < |picks| && WritesBack(StateAt(tasks, s, picks, q), picks[q], id) {
      assert WritesBack(StateAt(tasks, s, more, q), more[q], id);
    }
    if l < |picks| && WritesBack(After(tasks, s, picks), p, id) {
      assert WritesBack(StateAt(tasks, s, more, |picks|), more[|picks|], id);
    }
  }

  /** A task that loaded the lifecycle open, and will write it open. */
  ghost predicate WillWriteOpen(s: Both, i: nat, id: string) {
    PlannedOn(s, i, id) && s.engine.pcs[i].plan.lc.closure == Open && id in Lifecycles(s)
  }

  lemma LoadingOpens(tasks: seq<Task>, s: Both, i: nat, id: string)
    requires Reached(tasks, s) && i < |tasks|
    ensures var t := Advance(tasks, s, Thread(i));
            && (WillWriteOpen(t, i, id) <==> LoadsOpen(tasks, s, i, id))
            && (LoadsOpen(tasks, s, i, id) ==> id in Lifecycles(t) && Lifecycles(t)[id].closure == Open)
  {
    ThreadWriters(tasks, s, i, id);
    if s.engine.pcs[i].Correlated? {
      PlannedFromStore(tasks, s, i);
      var corr := s.engine.pcs[i].corr;
      assert NewId(tasks[i].e) !in Lifecycles(s);
      if corr.Match? && corr.lifecycleId in Lifecycles(s) {
        assert Lifecycles(s)[corr.lifecycleId].id == corr.lifecycleId;
      }
    }
  }

  /** While a task is about to write the lifecycle, nobody else but the scanner does. */
  lemma OnlyScannerWrites(tasks: seq<Task>, s: Both, p: Pick, i: nat, id: string)
    requires Reached(tasks, s) && i < |tasks| && p != Thread(i)
    ensures var t := Advance(tasks, s, p);
            && (WillWriteOpen(t, i, id) <==> WillWriteOpen(s, i, id))
            && (WillWriteOpen(s, i, id) ==>
                  (Lifecycles(t)[id].closure == Open <==> Lifecycles(s)[id].closure == Open && !WritesBack(s, p, id)))
  {
    match p
    case Thread(j) =>
      ThreadWriters(tasks, s, j, id);
      if PlannedOn(s, i, id) {
        OtherThreadIsStuck(tasks, s, i, j, id);
      }
    case WriteBack => WriteBackStep(tasks, s);
    case List(_, _) =>
  }

  lemma OtherThreadIsStuck(tasks: seq<Task>, s: Both, i: nat, j: nat, id: string)
    requires Reached(tasks, s) && PlannedOn(s, i, id) && j != i
    ensures Lifecycles(Advance(tasks, s, Thread(j))) == Lifecycles(s)
  {
    if j < |tasks| {
      assert Resting(s.engine.pcs[j]);
    }
  }

  /** What has happened to a task that will write the lifecycle open: it loaded it open, and since then
      the lifecycle was closed exactly if the scanner wrote a stale snapshot back. */
  lemma {:induction false} LoadedOpen(tasks: seq<Task>, s: Both, picks: seq<Pick>, i: nat, id: string)
    requires Reached(tasks, s) && i < |tasks| && !s.engine.pcs[i].Planned?
    ensures var t := After(tasks, s, picks);
            && (WillWriteOpen(t, i, id) <==> exists l: nat :: LoadedAt(tasks, s, picks, i, id, l))
            && forall l: nat :: LoadedAt(tasks, s, picks, i, id, l) ==>
                 id in Lifecycles(t) && (Lifecycles(t)[id].closure != Open <==> WroteBackSince(tasks, s, picks, id, l))
    decreases |picks|
  {
    if picks != [] {
      var front, p := picks[..|picks| - 1], picks[|picks| - 1];
      assert picks == front + [p];
      LoadedOpen(tasks, s, front, i, id);
      LoadedOpenNext(tasks, s, front, p, i, id);
    }
  }

  lemma {:induction false} LoadedOpenNext(tasks: seq<Task>, s: Both, picks: seq<Pick>, p: Pick, i: nat, id: string)
    requires Reached(tasks, s) && i < |tasks|
    requires var t := After(tasks, s, picks);
             && (WillWriteOpen(t, i, id) <==> exists l: nat :: LoadedAt(tasks, s, picks, i, id, l))
             && forall l: nat :: LoadedAt(tasks, s, picks, i, id, l) ==>
                  id in Lifecycles(t) && (Lifecycles(t)[id].closure != Open <==> WroteBackSince(tasks, s, picks, id, l))
    ensures var t := After(tasks, s, picks + [p]);
            && (WillWriteOpen(t, i, id) <==> exists l: nat :: LoadedAt(tasks, s, picks + [p], i, id, l))
            && forall l: nat :: LoadedAt(tasks, s, picks + [p], i, id, l) ==>
                 id in Lifecycles(t) && (Lifecycles(t)[id].closure != Open <==> WroteBackSince(tasks, s, picks + [p], id, l))
  {
    var before, t := After(tasks, s, picks), After(tasks, s, picks + [p]);
    AfterKeeps(tasks, s, picks);
    AfterConcat(tasks, s, picks, [p]);
    assert t == Advance(tasks, before, p) by {
      assert [p][1..] == [];
    }
    forall l: nat
      ensures LoadedAt(tasks, s, picks + [p], i, id, l) <==>
                if l == |picks| then p == Thread(i) && LoadsOpen(tasks, before, i, id)
                else LoadedAt(tasks, s, picks, i, id, l) && p != Thread(i)
      ensures l <= |picks| ==> (WroteBackSince(tasks, s, picks + [p], id, l) <==>
                l < |picks| && (WroteBackSince(tasks, s, picks, id, l) || WritesBack(before, p, id)))
    {
      LoadedNext(tasks, s, picks, p, i, id, l);
      if l <= |picks| {
        WroteBackNext(tasks, s, picks, p, id, l);
      }
    }
    if p == Thread(i) {
      LoadingOpens(tasks, before, i, id);
      assert LoadsOpen(tasks, before, i, id) ==> LoadedAt(tasks, s, picks + [p], i, id, |picks|);
    } else {
      OnlyScannerWrites(tasks, before, p, i, id);
      if l: nat :| LoadedAt(tasks, s, picks, i, id, l) {
        assert LoadedAt(tasks, s, picks + [p], i, id, l);
      }
    }
  }

  /** The task loaded the lifecycle open with an event that leaves it open, the sweep wrote back a stale
      snapshot of it after that, and the task has not moved since. */
  ghost predicate OvertakenBySweep(tasks: seq<Task>, s: Both, picks: seq<Pick>, i: nat, id: string)
    requires |s.engine.pcs| == |tasks|
  {
    exists l: nat :: LoadedAt(tasks, s, picks, i, id, l) && WroteBackSince(tasks, s, picks, id, l)
  }

  /** In every interleaving of applies and a sweeping scanner: the next step reopens a closed lifecycle
      if and only if it is the write of a task that loaded the lifecycle open, with an event that leaves
      it open, before the sweep wrote back a stale snapshot of it. */
  lemma ReopenedIff(m: MemState, seen: set<string>, tasks: seq<Task>, picks: seq<Pick>, p: Pick, id: string)
    requires MemInv(m) && IdsFrom(m, seen) && Fresh(tasks, seen)
    ensures Reopens(tasks, After(tasks, Begin(m, tasks), picks), p, id) <==>
              p.Thread? && p.i < |tasks| && OvertakenBySweep(tasks, Begin(m, tasks), picks, p.i, id)
  {
    var s := Begin(m, tasks);
    BeginIsReached(m, seen, tasks);
    AfterKeeps(tasks, s, picks);
    ReopensByWrite(tasks, After(tasks, s, picks), p, id);
    if p.Thread? && p.i < |tasks| {
      LoadedOpen(tasks, s, picks, p.i, id);
    }
  }

  // ---------------------------------------------------------------- the losing schedule is reached

  function Times(i: nat, n: nat): seq<Pick> {
    if n == 0 then [] else [Thread(i)] + Times(i, n - 1)
  }

  ghost function Moved(tasks: seq<Task>, s: System, i: nat, n: nat): (r: System)
    requires |s.pcs| == |tasks|
    ensures |r.pcs| == |tasks|
    decreases n
  {
    if n == 0 then s else Moved(tasks, StepTask(tasks, s, i), i, n - 1)
  }

  lemma {:induction false} OnlyThreads(tasks: seq<Task>, s: Both, i: nat, n: nat)
    requires |s.engine.pcs| == |tasks|
    ensures After(tasks, s, Times(i, n)) == s.(engine := Moved(tasks, s.engine, i, n))
    decreases n
  {
    if n > 0 {
      assert Times(i, n)[1..] == Times(i, n - 1);
      OnlyThreads(tasks, Advance(tasks, s, Thread(i)), i, n - 1);
    }
  }

  lemma {:induction false} AfterConcat(tasks: seq<Task>, s: Both, a: seq<Pick>, b: seq<Pick>)
    requires |s.engine.pcs| == |tasks|
    ensures After(tasks, s, a + b) == After(tasks, After(tasks, s, a), b)
    decreases |a|
  {
    if a == [] {
      assert a + b == b;
    } else {
      assert (a + b)[1..] == a[1..] + b;
      AfterConcat(tasks, Advance(tasks, s, a[0]), a[1..], b);
    }
  }

  /** Three moves take a task from waiting to about to write. */
  lemma ThreeMoves(tasks: seq<Task>, s: System, i: nat)
    requires |s.pcs| == |tasks| && i < |tasks| && s.holder.None? && s.pcs[i].Waiting?
    ensures Moved(tasks, s, i, 3)
         == System(s.store, Some(i), s.pcs[i := Planned(PlanOf(s.store, tasks[i].e, tasks[i].now))])
  {
    var s1 := StepTask(tasks, s, i);
    var s2 := StepTask(tasks, s1, i);
    assert Moved(tasks, s, i, 3) == StepTask(tasks, s2, i);
  }

  /** Three more finish it. */
  lemma ThreeMore(tasks: seq<Task>, s: System, i: nat, plan: Plan)
    requires |s.pcs| == |tasks| && i < |tasks| && s.holder == Some(i) && s.pcs[i] == Planned(plan)
    ensures Moved(tasks, s, i, 3)
         == System(Bound(Upserted(s.store, plan), plan, tasks[i].e), None, s.pcs[i := Done(plan.outcome)])
  {
    var s1 := StepTask(tasks, s, i);
    var s2 := StepTask(tasks, s1, i);
    assert Moved(tasks, s, i, 3) == StepTask(tasks, s2, i);
  }

  lemma ListedAlone(m: MemState, lc: Lifecycle)
    requires m.lifecycles == map[lc.id := lc] && lc.closure == Open
    ensures IsOpenListing(Mem(m), [lc])
  {
    assert ListsOpen(Mem(m), [lc], [lc.id]);
  }

  /** One task founds a lifecycle; the scanner lists it, stale; a second task loads it, ... */
  function LosingPrefix(lc: Lifecycle, swept: nat): seq<Pick> {
    Times(0, 3) + (Times(0, 3) + ([List([lc], swept)] + Times(1, 3)))
  }

  lemma {:induction false} PrefixLeadsTo(tasks: seq<Task>, m0: MemState, m1: MemState, lc: Lifecycle, swept: nat)
    requires |tasks| == 2
    requires ApplyStep(Mem(m0), tasks[0].e, tasks[0].now) == Mem(m1)
    requires m1.lifecycles == map[lc.id := lc] && lc.closure == Open
    ensures var s := After(tasks, Begin(m0, tasks), LosingPrefix(lc, swept));
            && s.engine.store == Mem(m1) && s.engine.holder == Some(1) && s.scanner == Sweeping([lc], 0, swept)
            && s.engine.pcs[1] == Planned(PlanOf(Mem(m1), tasks[1].e, tasks[1].now))
  {
    var s0 := Begin(m0, tasks);
    var plan := PlanOf(Mem(m0), tasks[0].e, tasks[0].now);
    AfterConcat(tasks, s0, Times(0, 3), Times(0, 3) + ([List([lc], swept)] + Times(1, 3)));
    OnlyThreads(tasks, s0, 0, 3);
    ThreeMoves(tasks, s0.engine, 0);
    var s1 := After(tasks, s0, Times(0, 3));
    AfterConcat(tasks, s1, Times(0, 3), [List([lc], swept)] + Times(1, 3));
    OnlyThreads(tasks, s1, 0, 3);
    ThreeMore(tasks, s1.engine, 0, plan);
    var s2 := After(tasks, s1, Times(0, 3));
    ListThenLoad(tasks, s2, m1, lc, swept);
  }

  lemma ListThenLoad(tasks: seq<Task>, s: Both, m: MemState, lc: Lifecycle, swept: nat)
    requires |s.engine.pcs| == |tasks| == 2 && s.engine.holder.None? && s.engine.pcs[1].Waiting? && s.scanner.Idle?
    requires s.engine.store == Mem(m) && m.lifecycles == map[lc.id := lc] && lc.closure == Open
    ensures var t := After(tasks, s, [List([lc], swept)] + Times(1, 3));
            && t.engine.store == Mem(m) && t.engine.holder == Some(1) && t.scanner == Sweeping([lc], 0, swept)
            && t.engine.pcs[1] == Planned(PlanOf(Mem(m), tasks[1].e, tasks[1].now))
  {
    ListedAlone(m, lc);
    var listed := Advance(tasks, s, List([lc], swept));
    assert ([List([lc], swept)] + Times(1, 3))[1..] == Times(1, 3);
    OnlyThreads(tasks, listed, 1, 3);
    ThreeMoves(tasks, listed.engine, 1);
  }

  lemma WriteBackLoses(tasks: seq<Task>, t: Both, lc: Lifecycle, swept: nat)
    requires |t.engine.pcs| == |tasks| && t.scanner == Sweeping([lc], 0, swept) && Stale(lc, swept)
    ensures LosesAt(tasks, t, [WriteBack], lc.id, 0)
  {
    assert StateAt(tasks, t, [WriteBack], 0) == t;
  }

  lemma {:induction false} LossFollows(tasks: seq<Task>, m0: MemState, m1: MemState, lc: Lifecycle, swept: nat)
    requires |tasks| == 2
    requires ApplyStep(Mem(m0), tasks[0].e, tasks[0].now) == Mem(m1)
    requires m1.lifecycles == map[lc.id := lc] && lc.closure == Open && Stale(lc, swept)
    ensures var s := After(tasks, Begin(m0, tasks), LosingPrefix(lc, swept));
            && s.engine.pcs[1] == Planned(PlanOf(Mem(m1), tasks[1].e, tasks[1].now))
            && LosesAt(tasks, Advance(tasks, s, Thread(1)), [WriteBack], lc.id, 0)
  {
    PrefixLeadsTo(tasks, m0, m1, lc, swept);
    var s := After(tasks, Begin(m0, tasks), LosingPrefix(lc, swept));
    WriteBackLoses(tasks, Advance(tasks, s, Thread(1)), lc, swept);
  }

  lemma {:induction false} SecondPlan(m: MemState, e: Event, id: string, tier: InferenceTier, now: nat)
    requires Correlate(Mem(m), e) == Match(id, tier)
    requires id in m.lifecycles && m.lifecycles[id].id == id && m.lifecycles[id].closure == Open
    ensures var plan := PlanOf(Mem(m), e, now); plan.Write? && plan.bindTo.Some? && plan.lc.id == id
  {
  }

  lemma {:induction false} FirstStore(m0: MemState, m1: MemState, a: string, r: string, lc: Lifecycle, founded: nat)
    requires m0 == MemState(map[], map[], map[], map[])
    requires lc == Founded(Payment, Some(r), None, Creating(a, r, None), founded)
    requires m1 == Applied(m0, Creating(a, r, None), founded)
    ensures ApplyStep(Mem(m0), Creating(a, r, None), founded) == Mem(m1)
    ensures m1.lifecycles == map[lc.id := lc] && lc.closure == Open
    ensures m1.byResource == map[r := lc.id] && m1.byBusinessKey == map[]
    ensures lc.lastEventAtMs == founded && lc.stalenessMs == StalenessFor(Payment)
  {
    CreatingFounds(m0, a, r, None, founded);
    AppliedIs(m0, Creating(a, r, None), founded);
  }

  lemma {:induction false} EmptyStart(m0: MemState, first: Task, second: Task)
    requires m0 == MemState(map[], map[], map[], map[]) && first.e.eventId != second.e.eventId
    ensures MemInv(m0) && IdsFrom(m0, {}) && Fresh([first, second], {})
  {
  }

  /** ... and writes; the write-back follows. The theorem's condition is met, from an empty store. */
  lemma {:induction false} LossIsReached(m0: MemState, a: string, b: string, r: string, x: string,
                                         founded: nat, applied: nat, swept: nat)
    requires m0 == MemState(map[], map[], map[], map[]) && a != b
    requires founded + StalenessFor(Payment) <= swept
    ensures var tasks := [Task(Creating(a, r, None), founded), Task(Moving(b, r, x), applied)];
            var lc := Founded(Payment, Some(r), None, Creating(a, r, None), founded);
            var s := After(tasks, Begin(m0, tasks), LosingPrefix(lc, swept));
            && MemInv(m0) && IdsFrom(m0, {}) && Fresh(tasks, {})
            && s.engine.pcs[1].Planned? && s.engine.pcs[1].plan.Write? && s.engine.pcs[1].plan.bindTo.Some?
            && s.engine.pcs[1].plan.lc.id == lc.id
            && LosesAt(tasks, Advance(tasks, s, Thread(1)), [WriteBack], lc.id, 0)
  {
    var first, second := Task(Creating(a, r, None), founded), Task(Moving(b, r, x), applied);
    var lc := Founded(Payment, Some(r), None, Creating(a, r, None), founded);
    var m1 := Applied(m0, Creating(a, r, None), founded);
    FirstStore(m0, m1, a, r, lc, founded);
    LossFollows([first, second], m0, m1, lc, swept);
    MovingMatches(m1, b, r, x, lc.id);
    SecondPlan(m1, Moving(b, r, x), lc.id, ResourceId, applied);
    EmptyStart(m0, first, second);
  }

  /** The same schedule reopens the lifecycle, when the second task writes after the write-back. */
  lemma {:induction false} ReopeningIsReached(m0: MemState, a: string, b: string, r: string, x: string,
                                              founded: nat, applied: nat, swept: nat)
    requires m0 == MemState(map[], map[], map[], map[]) && a != b
    requires founded + StalenessFor(Payment) <= swept
    ensures var tasks := [Task(Creating(a, r, None), founded), Task(Moving(b, r, x), applied)];
            var lc := Founded(Payment, Some(r), None, Creating(a, r, None), founded);
            Reopens(tasks, After(tasks, Begin(m0, tasks), LosingPrefix(lc, swept) + [WriteBack]), Thread(1), lc.id)
  {
    var first, second := Task(Creating(a, r, None), founded), Task(Moving(b, r, x), applied);
    var lc := Founded(Payment, Some(r), None, Creating(a, r, None), founded);
    var m1 := Applied(m0, Creating(a, r, None), founded);
    FirstStore(m0, m1, a, r, lc, founded);
    MovingMatches(m1, b, r, x, lc.id);
    OpenPlan(m1, second.e, lc, ResourceId, applied);
    EmptyIsReached(m0, first, second);
    ReopeningFollows([first, second], m0, m1, lc, swept);
  }

  lemma {:induction false} EmptyIsReached(m0: MemState, first: Task, second: Task)
    requires m0 == MemState(map[], map[], map[], map[]) && first.e.eventId != second.e.eventId
    ensures Reached([first, second], Begin(m0, [first, second]))
  {
    EmptyStart(m0, first, second);
    BeginIsReached(m0, {}, [first, second]);
  }

  lemma {:induction false} OpenPlan(m: MemState, e: Event, lc: Lifecycle, tier: InferenceTier, now: nat)
    requires Correlate(Mem(m), e) == Match(lc.id, tier) && m.lifecycles == map[lc.id := lc] && lc.closure == Open
    requires lc.lifecycleType == Payment && e.eventType == "payment.process"
    ensures var plan := PlanOf(Mem(m), e, now); plan.Write? && plan.lc.id == lc.id && plan.lc.closure == Open
  {
  }

  lemma {:induction false} ReopeningFollows(tasks: seq<Task>, m0: MemState, m1: MemState, lc: Lifecycle, swept: nat)
    requires |tasks| == 2 && Reached(tasks, Begin(m0, tasks))
    requires ApplyStep(Mem(m0), tasks[0].e, tasks[0].now) == Mem(m1)
    requires m1.lifecycles == map[lc.id := lc] && lc.closure == Open && Stale(lc, swept)
    requires var plan := PlanOf(Mem(m1), tasks[1].e, tasks[1].now); plan.Write? && plan.lc.id == lc.id && plan.lc.closure == Open
    ensures Reopens(tasks, After(tasks, Begin(m0, tasks), LosingPrefix(lc, swept) + [WriteBack]), Thread(1), lc.id)
  {
    var s := Begin(m0, tasks);
    var t := After(tasks, s, LosingPrefix(lc, swept));
    PrefixLeadsTo(tasks, m0, m1, lc, swept);
    AfterKeeps(tasks, s, LosingPrefix(lc, swept));
    AfterConcat(tasks, s, LosingPrefix(lc, swept), [WriteBack]);
    assert After(tasks, t, [WriteBack]) == Advance(tasks, t, WriteBack) by {
      assert [WriteBack][1..] == [];
    }
    WriteBackStep(tasks, t);
    AdvanceKeeps(tasks, t, WriteBack);
    ReopensByWrite(tasks, Advance(tasks, t, WriteBack), Thread(1), lc.id);
  }

  lemma AppliedIs(m: MemState, e: Event, now: nat)
    ensures ApplyStep(Mem(m), e, now) == Mem(Applied(m, e, now))
  {
  }
}
