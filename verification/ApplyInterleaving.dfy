/** Concurrent `apply` calls as small steps: take the lock, correlate, load, upsert, bind, release.
    A schedule picks which task moves next; a task that waits for the lock does not move. */
module ApplyInterleaving {
  import opened Common
  import opened LifecycleTypes
  import opened LifecycleStores
  import opened LifecycleEngine

  datatype Task = Task(e: Event, now: nat)

  datatype Pc =
    | Waiting
    | Locked
    | Correlated(corr: Corr)
    | Planned(plan: Plan)
    | Stored(plan: Plan)
    | Recorded(outcome: Outcome)
    | Done(result: Outcome)

  datatype System = System(store: Store, holder: Option<nat>, pcs: seq<Pc>)

  function Initial(store: Store, tasks: seq<Task>): System {
    System(store, None, seq(|tasks|, _ => Waiting))
  }

  // ---------------------------------------------------------------- the machine

  /** One step of the lock's holder. */
  ghost function Move(task: Task, store: Store, pc: Pc): (Store, Pc) {
    match pc
    case Locked => (store, Correlated(Correlate(store, task.e)))
    case Correlated(corr) => (store, Planned(Decide(corr, Loaded(store, corr), task.e, task.now)))
    case Planned(plan) => (Upserted(store, plan), Stored(plan))
    case Stored(plan) => (Bound(store, plan, task.e), Recorded(plan.outcome))
    case Recorded(outcome) => (store, Done(outcome))
    case resting => (store, resting)
  }

  predicate Resting(pc: Pc) {
    pc.Waiting? || pc.Done?
  }

  ghost function StepTask(tasks: seq<Task>, s: System, i: nat): (r: System)
    requires |s.pcs| == |tasks|
    ensures |r.pcs| == |tasks|
  {
    if i >= |tasks| then s
    else if s.pcs[i].Waiting? then
      if s.holder.None? then s.(holder := Some(i), pcs := s.pcs[i := Locked]) else s
    else
      var (store, pc) := Move(tasks[i], s.store, s.pcs[i]);
      System(store, if s.pcs[i].Recorded? then None else s.holder, s.pcs[i := pc])
  }

  ghost function Run(tasks: seq<Task>, s: System, schedule: seq<nat>): (r: System)
    requires |s.pcs| == |tasks|
    ensures |r.pcs| == |tasks|
    decreases |schedule|
  {
    if schedule == [] then s else Run(tasks, StepTask(tasks, s, schedule[0]), schedule[1..])
  }

  // ---------------------------------------------------------------- one after the other

  /** The store after whole applies, each run alone. */
  ghost function Sequential(store: Store, done: seq<Task>): Store {
    if done == [] then store
    else
      var last := done[|done| - 1];
      ApplyStep(Sequential(store, done[..|done| - 1]), last.e, last.now)
  }

  /** What the `k`-th of them sees and answers. */
  ghost function OutcomeAt(store: Store, done: seq<Task>, k: nat): Outcome
    requires k < |done|
  {
    PlanOf(Sequential(store, done[..k]), done[k].e, done[k].now).outcome
  }

  predicate ValidOrder(tasks: seq<Task>, order: seq<nat>) {
    && (forall k :: 0 <= k < |order| ==> order[k] < |tasks|)
    && (forall j, k :: 0 <= j < k < |order| ==> order[j] != order[k])
  }

  /** The tasks an order of indexes names. */
  function Picked(tasks: seq<Task>, order: seq<nat>): (r: seq<Task>)
    requires ValidOrder(tasks, order)
    ensures |r| == |order| && forall k :: 0 <= k < |order| ==> r[k] == tasks[order[k]]
  {
    seq(|order|, k requires 0 <= k < |order| => tasks[order[k]])
  }

  // ---------------------------------------------------------------- the invariant

  /** How far the lock holder got, and what the store looks like there. */
  ghost predicate HolderAt(base: Store, task: Task, store: Store, pc: Pc) {
    var plan := PlanOf(base, task.e, task.now);
    match pc
    case Waiting => false
    case Locked => store == base
    case Correlated(corr) => store == base && corr == Correlate(base, task.e)
    case Planned(p) => store == base && p == plan
    case Stored(p) => store == Upserted(base, plan) && p == plan
    case Recorded(outcome) => store == ApplyStep(base, task.e, task.now) && outcome == plan.outcome
    case Done(_) => false
  }

  /** One move of the lock holder takes it one stage on through its apply. */
  lemma HolderMoves(base: Store, task: Task, store: Store, pc: Pc)
    requires HolderAt(base, task, store, pc)
    ensures var (store', pc') := Move(task, store, pc);
            if pc.Recorded? then
              store' == ApplyStep(base, task.e, task.now)
              && pc' == Done(PlanOf(base, task.e, task.now).outcome)
            else HolderAt(base, task, store', pc')
  {
  }

  ghost predicate Answers(start: Store, done: seq<Task>, order: seq<nat>, pcs: seq<Pc>) {
    && |done| == |order|
    && forall k :: 0 <= k < |order| && order[k] < |pcs| ==>
         (pcs[order[k]].Done? ==> pcs[order[k]].result == OutcomeAt(start, done, k))
  }

  /** The order names those that have taken the lock. */
  ghost predicate Started(tasks: seq<Task>, pcs: seq<Pc>, order: seq<nat>) {
    && |pcs| == |tasks| && ValidOrder(tasks, order)
    && forall i :: 0 <= i < |tasks| ==> (i in order <==> pcs[i] != Waiting)
  }

  predicate RestingBut(pcs: seq<Pc>, holder: Option<nat>) {
    forall i :: 0 <= i < |pcs| && holder != Some(i) ==> Resting(pcs[i])
  }

  /** With the lock free, the store is that of the order so far; otherwise its holder is the last of
      the order, somewhere within its own apply. */
  ghost predicate LockHolds(start: Store, done: seq<Task>, order: seq<nat>, s: System) {
    match s.holder
    case None => s.store == Sequential(start, done)
    case Some(h) =>
      && done != [] && |done| == |order| && order[|order| - 1] == h < |s.pcs|
      && HolderAt(Sequential(start, done[..|done| - 1]), done[|done| - 1], s.store, s.pcs[h])
  }

  ghost predicate Inv(start: Store, tasks: seq<Task>, s: System, order: seq<nat>) {
    && Started(tasks, s.pcs, order)
    && RestingBut(s.pcs, s.holder)
    && (var done := Picked(tasks, order);
        && Answers(start, done, order, s.pcs)
        && LockHolds(start, done, order, s))
  }

  lemma AnswersWithOneMore(start: Store, done: seq<Task>, order: seq<nat>, pcs: seq<Pc>, task: Task, i: nat)
    requires Answers(start, done, order, pcs) && i !in order && i < |pcs| && pcs[i].Waiting?
    ensures Answers(start, done + [task], order + [i], pcs[i := Locked])
  {
    var more := done + [task];
    forall k | 0 <= k < |order| && order[k] < |pcs| && pcs[order[k]].Done?
      ensures pcs[order[k]].result == OutcomeAt(start, more, k)
    {
      assert more[..k] == done[..k];
    }
  }

  lemma StartedWithOneMore(tasks: seq<Task>, pcs: seq<Pc>, order: seq<nat>, i: nat)
    requires Started(tasks, pcs, order) && i < |tasks| && pcs[i].Waiting?
    ensures Started(tasks, pcs[i := Locked], order + [i])
    ensures Picked(tasks, order + [i]) == Picked(tasks, order) + [tasks[i]]
  {
    assert i !in order;
    assert forall j: nat :: j in order + [i] <==> j in order || j == i;
  }

  /** Taking the lock fixes one's place in the order. */
  lemma AcquireKeeps(start: Store, tasks: seq<Task>, s: System, order: seq<nat>, i: nat)
    requires Inv(start, tasks, s, order) && i < |tasks| && s.pcs[i].Waiting? && s.holder.None?
    ensures Inv(start, tasks, StepTask(tasks, s, i), order + [i])
  {
    var done := Picked(tasks, order);
    StartedWithOneMore(tasks, s.pcs, order, i);
    AnswersWithOneMore(start, done, order, s.pcs, tasks[i], i);
    assert (done + [tasks[i]])[..|done|] == done;
  }

  lemma AnswersAfterMove(start: Store, done: seq<Task>, order: seq<nat>, pcs: seq<Pc>, i: nat, pc: Pc)
    requires Answers(start, done, order, pcs) && order != [] && order[|order| - 1] == i && i < |pcs|
    requires forall j, k :: 0 <= j < k < |order| ==> order[j] != order[k]
    requires pc.Done? ==> pc.result == OutcomeAt(start, done, |order| - 1)
    ensures Answers(start, done, order, pcs[i := pc])
  {
  }

  lemma StartedAfterMove(tasks: seq<Task>, pcs: seq<Pc>, order: seq<nat>, i: nat, pc: Pc)
    requires Started(tasks, pcs, order) && i < |tasks| && pcs[i] != Waiting && pc != Waiting
    ensures Started(tasks, pcs[i := pc], order)
  {
  }

  lemma HolderKeepsLock(start: Store, done: seq<Task>, order: seq<nat>, tasks: seq<Task>, s: System, i: nat)
    requires |s.pcs| == |tasks| && i < |tasks| && s.holder == Some(i) && LockHolds(start, done, order, s)
    requires done != [] && done[|done| - 1] == tasks[i]
    ensures LockHolds(start, done, order, StepTask(tasks, s, i))
    ensures var pc := StepTask(tasks, s, i).pcs[i];
            pc != Waiting && (pc.Done? ==> pc.result == OutcomeAt(start, done, |done| - 1))
  {
    HolderMoves(Sequential(start, done[..|done| - 1]), tasks[i], s.store, s.pcs[i]);
  }

  lemma MoveKeeps(start: Store, tasks: seq<Task>, s: System, order: seq<nat>, i: nat)
    requires Inv(start, tasks, s, order) && i < |tasks| && !Resting(s.pcs[i])
    ensures Inv(start, tasks, StepTask(tasks, s, i), order)
  {
    assert s.holder == Some(i);
    var done, after := Picked(tasks, order), StepTask(tasks, s, i);
    HolderKeepsLock(start, done, order, tasks, s, i);
    assert after.pcs == s.pcs[i := after.pcs[i]];
    StartedAfterMove(tasks, s.pcs, order, i, after.pcs[i]);
    AnswersAfterMove(start, done, order, s.pcs, i, after.pcs[i]);
  }

  lemma StuckStaysPut(tasks: seq<Task>, s: System, i: nat)
    requires |s.pcs| == |tasks| && i < |tasks|
    requires s.pcs[i].Done? || (s.pcs[i].Waiting? && s.holder.Some?)
    ensures StepTask(tasks, s, i) == s
  {
    assert s.pcs[i := s.pcs[i]] == s.pcs;
  }

  lemma StepKeeps(start: Store, tasks: seq<Task>, s: System, order: seq<nat>, i: nat) returns (longer: seq<nat>)
    requires Inv(start, tasks, s, order)
    ensures Inv(start, tasks, StepTask(tasks, s, i), longer)
  {
    longer := order;
    if i < |tasks| {
      if s.pcs[i].Waiting? && s.holder.None? {
        AcquireKeeps(start, tasks, s, order, i);
        longer := order + [i];
      } else if Resting(s.pcs[i]) {
        StuckStaysPut(tasks, s, i);
      } else {
        MoveKeeps(start, tasks, s, order, i);
      }
    }
  }

  lemma {:induction false} RunKeeps(start: Store, tasks: seq<Task>, s: System, order: seq<nat>, schedule: seq<nat>)
    returns (finalOrder: seq<nat>)
    requires Inv(start, tasks, s, order)
    ensures Inv(start, tasks, Run(tasks, s, schedule), finalOrder)
    decreases |schedule|
  {
    if schedule == [] {
      finalOrder := order;
    } else {
      var longer := StepKeeps(start, tasks, s, order, schedule[0]);
      finalOrder := RunKeeps(start, tasks, StepTask(tasks, s, schedule[0]), longer, schedule[1..]);
    }
  }

  /** `order` runs every task once, and explains the final store and every answer. */
  ghost predicate Explains(start: Store, tasks: seq<Task>, end: System, order: seq<nat>) {
    && |end.pcs| == |tasks| && ValidOrder(tasks, order)
    && (forall i :: 0 <= i < |tasks| ==> i in order)
    && end.store == Sequential(start, Picked(tasks, order))
    && (forall k :: 0 <= k < |order| ==>
          end.pcs[order[k]] == Done(OutcomeAt(start, Picked(tasks, order), k)))
  }

  predicate AllDone(s: System) {
    forall i :: 0 <= i < |s.pcs| ==> s.pcs[i].Done?
  }

  lemma FinishedIsExplained(start: Store, tasks: seq<Task>, end: System, order: seq<nat>)
    requires Inv(start, tasks, end, order) && AllDone(end)
    ensures Explains(start, tasks, end, order)
  {
    FinishedIsFree(start, Picked(tasks, order), order, end);
    forall k | 0 <= k < |order|
      ensures end.pcs[order[k]] == Done(OutcomeAt(start, Picked(tasks, order), k))
    {
      assert end.pcs[order[k]].Done?;
    }
  }

  lemma FinishedIsFree(start: Store, done: seq<Task>, order: seq<nat>, end: System)
    requires LockHolds(start, done, order, end) && AllDone(end)
    ensures end.store == Sequential(start, done)
  {
  }

  /** Every interleaving that lets all tasks finish ends in the store, and gives the answers, of
      some sequential order of the same applies. */
  lemma InterleavingsAreSequential(start: Store, tasks: seq<Task>, schedule: seq<nat>)
    requires AllDone(Run(tasks, Initial(start, tasks), schedule))
    ensures exists order :: Explains(start, tasks, Run(tasks, Initial(start, tasks), schedule), order)
  {
    var end := Run(tasks, Initial(start, tasks), schedule);
    var order := RunKeeps(start, tasks, Initial(start, tasks), [], schedule);
    FinishedIsExplained(start, tasks, end, order);
  }

  // ---------------------------------------------------------------- the locked section

  /** Within the section, nobody else moves: whatever the schedule picks, the holder either still
      stands somewhere in its own apply, or has left behind exactly the whole of it. */
  lemma {:induction false} SectionIsOneApply(tasks: seq<Task>, base: Store, s: System, i: nat, schedule: seq<nat>)
    returns (k: nat)
    requires |s.pcs| == |tasks| && i < |tasks| && s.holder == Some(i) && RestingBut(s.pcs, s.holder)
    requires HolderAt(base, tasks[i], s.store, s.pcs[i])
    ensures SectionEnds(tasks, base, s, i, schedule, k)
    decreases |schedule|
  {
    k := 0;
    if schedule != [] {
      var next := StepTask(tasks, s, schedule[0]);
      if schedule[0] != i {
        assert next == s by {
          if schedule[0] < |tasks| {
            StuckStaysPut(tasks, s, schedule[0]);
          }
        }
      } else {
        HolderMoves(base, tasks[i], s.store, s.pcs[i]);
      }
      if next.holder == Some(i) {
        k := SectionIsOneApply(tasks, base, next, i, schedule[1..]);
      }
      k := k + 1;
      RunAfterFirst(tasks, s, schedule, k);
    }
  }

  /** After `k` steps of the schedule the section of `i` has just ended with the whole apply, or the
      schedule has, with `i` still inside. */
  ghost predicate SectionEnds(tasks: seq<Task>, base: Store, s: System, i: nat, schedule: seq<nat>, k: nat)
    requires |s.pcs| == |tasks| && i < |tasks|
  {
    k <= |schedule| &&
    var t := Run(tasks, s, schedule[..k]);
    if t.holder == Some(i) then
      k == |schedule| && HolderAt(base, tasks[i], t.store, t.pcs[i])
    else
      && t.holder == None
      && t.store == ApplyStep(base, tasks[i].e, tasks[i].now)
      && t.pcs == s.pcs[i := Done(PlanOf(base, tasks[i].e, tasks[i].now).outcome)]
  }

  lemma RunAfterFirst(tasks: seq<Task>, s: System, schedule: seq<nat>, k: nat)
    requires |s.pcs| == |tasks| && 0 < k <= |schedule|
    ensures Run(tasks, s, schedule[..k]) == Run(tasks, StepTask(tasks, s, schedule[0]), schedule[1..][..k - 1])
  {
    assert schedule[..k][1..] == schedule[1..][..k - 1];
  }

  /** From acquiring the lock to releasing it, the section runs one whole apply on the store it was
      acquired over, and no other task moves. */
  lemma LockedSectionIsOneApply(tasks: seq<Task>, s: System, i: nat, schedule: seq<nat>) returns (k: nat)
    requires |s.pcs| == |tasks| && i < |tasks| && s.holder.None? && RestingBut(s.pcs, None) && s.pcs[i].Waiting?
    ensures SectionEnds(tasks, s.store, StepTask(tasks, s, i), i, schedule, k)
  {
    k := SectionIsOneApply(tasks, s.store, StepTask(tasks, s, i), i, schedule);
  }

  // ---------------------------------------------------------------- every run can finish

  function Left(pc: Pc): nat {
    match pc
    case Waiting => 6
    case Locked => 5
    case Correlated(_) => 4
    case Planned(_) => 3
    case Stored(_) => 2
    case Recorded(_) => 1
    case Done(_) => 0
  }

  function AllLeft(pcs: seq<Pc>): nat {
    if pcs == [] then 0 else AllLeft(pcs[..|pcs| - 1]) + Left(pcs[|pcs| - 1])
  }

  lemma {:induction false} LeftAfterMove(pcs: seq<Pc>, i: nat, pc: Pc)
    requires i < |pcs|
    ensures AllLeft(pcs[i := pc]) == AllLeft(pcs) - Left(pcs[i]) + Left(pc)
    decreases |pcs|
  {
    var n := |pcs| - 1;
    if i == n {
      assert pcs[i := pc][..n] == pcs[..n];
    } else {
      LeftAfterMove(pcs[..n], i, pc);
      assert pcs[i := pc][..n] == pcs[..n][i := pc];
    }
  }

  /** A task that may move has less left to do afterwards. */
  lemma MoveHasLessLeft(tasks: seq<Task>, s: System, i: nat)
    requires |s.pcs| == |tasks| && i < |tasks|
    requires if s.pcs[i].Waiting? then s.holder.None? else !s.pcs[i].Done?
    ensures AllLeft(StepTask(tasks, s, i).pcs) < AllLeft(s.pcs)
  {
    var after := StepTask(tasks, s, i);
    LeftAfterMove(s.pcs, i, after.pcs[i]);
    assert after.pcs == s.pcs[i := after.pcs[i]];
  }

  /** Somebody may move until all are done: the lock's holder, or anyone while it is free. */
  lemma SomebodyMoves(start: Store, tasks: seq<Task>, s: System, order: seq<nat>) returns (i: nat)
    requires Inv(start, tasks, s, order) && !AllDone(s)
    ensures i < |tasks| && if s.pcs[i].Waiting? then s.holder.None? else !s.pcs[i].Done?
  {
    if s.holder.Some? {
      i := s.holder.value;
      HolderIsActive(start, Picked(tasks, order), order, s);
    } else {
      i :| i < |s.pcs| && !s.pcs[i].Done?;
      assert Resting(s.pcs[i]);
    }
  }

  lemma HolderIsActive(start: Store, done: seq<Task>, order: seq<nat>, s: System)
    requires LockHolds(start, done, order, s) && s.holder.Some?
    ensures s.holder.value < |s.pcs| && !Resting(s.pcs[s.holder.value])
  {
  }

  /** Every reachable state has a continuation in which all tasks finish. */
  lemma {:induction false} CanFinish(start: Store, tasks: seq<Task>, s: System, order: seq<nat>)
    returns (schedule: seq<nat>)
    requires Inv(start, tasks, s, order)
    ensures AllDone(Run(tasks, s, schedule))
    decreases AllLeft(s.pcs)
  {
    schedule := [];
    if !AllDone(s) {
      var i := SomebodyMoves(start, tasks, s, order);
      MoveHasLessLeft(tasks, s, i);
      var longer := StepKeeps(start, tasks, s, order, i);
      var rest := CanFinish(start, tasks, StepTask(tasks, s, i), longer);
      schedule := [i] + rest;
      assert schedule[1..] == rest;
    }
  }

  lemma {:induction false} RunConcat(tasks: seq<Task>, s: System, a: seq<nat>, b: seq<nat>)
    requires |s.pcs| == |tasks|
    ensures Run(tasks, s, a + b) == Run(tasks, Run(tasks, s, a), b)
    decreases |a|
  {
    if a == [] {
      assert a + b == b;
    } else {
      assert (a + b)[1..] == a[1..] + b;
      RunConcat(tasks, StepTask(tasks, s, a[0]), a[1..], b);
    }
  }

  /** Every schedule extends to one that lets all tasks finish. */
  lemma EveryScheduleCanFinish(start: Store, tasks: seq<Task>, schedule: seq<nat>)
    ensures exists rest :: AllDone(Run(tasks, Initial(start, tasks), schedule + rest))
  {
    var order := RunKeeps(start, tasks, Initial(start, tasks), [], schedule);
    var rest := CanFinish(start, tasks, Run(tasks, Initial(start, tasks), schedule), order);
    RunConcat(tasks, Initial(start, tasks), schedule, rest);
  }

  // ---------------------------------------------------------------- no event is lost

  /** Event ids new to the store and different from each other. */
  ghost predicate Fresh(done: seq<Task>, seen: set<string>) {
    && (forall k :: 0 <= k < |done| ==> done[k].e.eventId !in seen)
    && (forall i, j :: 0 <= i < j < |done| ==> done[i].e.eventId != done[j].e.eventId)
  }

  function IdsOf(done: seq<Task>): set<string> {
    set t | t in done :: t.e.eventId
  }

  lemma FreshFront(done: seq<Task>, seen: set<string>)
    requires Fresh(done, seen) && done != []
    ensures var front, last := done[..|done| - 1], done[|done| - 1];
            && Fresh(front, seen)
            && last.e.eventId !in seen + IdsOf(front)
            && seen + IdsOf(done) == seen + IdsOf(front) + {last.e.eventId}
  {
    var front, last := done[..|done| - 1], done[|done| - 1];
    assert done == front + [last];
  }

  /** Each event is admissible when its turn comes. */
  ghost predicate AdmissibleInTurn(m: MemState, done: seq<Task>) {
    forall k :: 0 <= k < |done| ==>
      var before := Sequential(Mem(m), done[..k]);
      before.Mem? && Admissible(before.m, done[k].e)
  }

  lemma AdmissibleFront(m: MemState, done: seq<Task>)
    requires AdmissibleInTurn(m, done) && done != []
    ensures var front := done[..|done| - 1];
            && AdmissibleInTurn(m, front)
            && Sequential(Mem(m), front).Mem? && Admissible(Sequential(Mem(m), front).m, done[|done| - 1].e)
  {
    var front := done[..|done| - 1];
    forall k | 0 <= k < |front|
      ensures front[..k] == done[..k]
    {
    }
  }

  lemma {:induction false} SequentialKeepsIndexes(m: MemState, done: seq<Task>)
    requires MemInv(m) && AdmissibleInTurn(m, done)
    ensures var after := Sequential(Mem(m), done); after.Mem? && MemInv(after.m)
    decreases |done|
  {
    if done != [] {
      var front, last := done[..|done| - 1], done[|done| - 1];
      AdmissibleFront(m, done);
      SequentialKeepsIndexes(m, front);
      ApplyKeepsIndexes(Sequential(Mem(m), front).m, last.e, last.now);
    }
  }

  lemma {:induction false} SequentialIdsFrom(m: MemState, seen: set<string>, done: seq<Task>)
    requires MemInv(m) && IdsFrom(m, seen) && Fresh(done, seen)
    ensures var after := Sequential(Mem(m), done);
            after.Mem? && MemInv(after.m) && IdsFrom(after.m, seen + IdsOf(done))
    decreases |done|
  {
    if done == [] {
      assert seen + IdsOf(done) == seen;
    } else {
      var front, last := done[..|done| - 1], done[|done| - 1];
      FreshFront(done, seen);
      SequentialIdsFrom(m, seen, front);
      ApplyKeepsIdsFrom(Sequential(Mem(m), front).m, seen + IdsOf(front), last.e, last.now);
    }
  }

  /** Fresh events are admissible in any order. */
  lemma FreshInTurn(m: MemState, seen: set<string>, done: seq<Task>)
    requires MemInv(m) && IdsFrom(m, seen) && Fresh(done, seen)
    ensures AdmissibleInTurn(m, done)
    ensures Sequential(Mem(m), done).Mem? && MemInv(Sequential(Mem(m), done).m)
  {
    SequentialIdsFrom(m, seen, done);
    forall k | 0 <= k < |done|
      ensures var before := Sequential(Mem(m), done[..k]); before.Mem? && Admissible(before.m, done[k].e)
    {
      FreshTurn(m, seen, done, k);
    }
  }

  lemma FreshTurn(m: MemState, seen: set<string>, done: seq<Task>, k: nat)
    requires MemInv(m) && IdsFrom(m, seen) && Fresh(done, seen) && k < |done|
    ensures var before := Sequential(Mem(m), done[..k]); before.Mem? && Admissible(before.m, done[k].e)
  {
    var front := done[..k];
    assert Fresh(front, seen);
    SequentialIdsFrom(m, seen, front);
    assert done[k].e.eventId !in IdsOf(front);
    FreshIsAdmissible(Sequential(Mem(m), front).m, seen + IdsOf(front), done[k].e);
  }

  ghost predicate Holds(m: MemState, id: string, eventId: string) {
    id in m.lifecycles && eventId in m.lifecycles[id].eventIds
  }

  lemma ApplyKeepsEvents(m: MemState, e: Event, now: nat, id: string, eventId: string)
    requires MemInv(m) && Admissible(m, e) && Holds(m, id, eventId)
    ensures var after := ApplyStep(Mem(m), e, now); after.Mem? && Holds(after.m, id, eventId)
  {
    ApplyDropsIff(m, e, now, id, eventId);
  }

  predicate Binds(outcome: Outcome) {
    outcome.Created? || outcome.Updated?
  }

  lemma BoundEventIsHeld(m: MemState, e: Event, now: nat)
    requires MemInv(m) && Admissible(m, e)
    requires Binds(PlanOf(Mem(m), e, now).outcome)
    ensures var after := ApplyStep(Mem(m), e, now);
            after.Mem? && Holds(after.m, PlanOf(Mem(m), e, now).outcome.lifecycleId, e.eventId)
  {
    ApplyKeepsIndexes(m, e, now);
    BoundPlanHoldsEvent(m, e, now);
  }

  lemma BoundPlanHoldsEvent(m: MemState, e: Event, now: nat)
    requires MemInv(m) && Binds(PlanOf(Mem(m), e, now).outcome)
    ensures var plan := PlanOf(Mem(m), e, now);
            plan.Write? && plan.lc.id == plan.outcome.lifecycleId && e.eventId in plan.lc.eventIds
  {
    MatchResolves(m, e);
    var corr := Correlate(Mem(m), e);
    if corr.Match? {
      assert m.lifecycles[corr.lifecycleId].id == corr.lifecycleId;
    }
  }

  /** One after the other: the event of every apply that answered Created or Updated is in that
      lifecycle's list at the end, whatever ran after it. */
  lemma {:induction false} SequentialLosesNoEvent(m: MemState, done: seq<Task>, k: nat)
    requires MemInv(m) && AdmissibleInTurn(m, done) && k < |done|
    requires Binds(OutcomeAt(Mem(m), done, k))
    ensures var end := Sequential(Mem(m), done);
            end.Mem? && Holds(end.m, OutcomeAt(Mem(m), done, k).lifecycleId, done[k].e.eventId)
    decreases |done|
  {
    var front, last := done[..|done| - 1], done[|done| - 1];
    AdmissibleFront(m, done);
    SequentialKeepsIndexes(m, front);
    var before := Sequential(Mem(m), front).m;
    if k == |done| - 1 {
      BoundEventIsHeld(before, last.e, last.now);
    } else {
      OutcomeOfFront(Mem(m), done, k);
      var outcome := OutcomeAt(Mem(m), front, k);
      SequentialLosesNoEvent(m, front, k);
      ApplyKeepsEvents(before, last.e, last.now, outcome.lifecycleId, done[k].e.eventId);
    }
  }

  lemma PickedIsFresh(tasks: seq<Task>, order: seq<nat>, seen: set<string>)
    requires ValidOrder(tasks, order) && Fresh(tasks, seen)
    ensures Fresh(Picked(tasks, order), seen)
  {
    var done := Picked(tasks, order);
    forall i, j | 0 <= i < j < |done|
      ensures done[i].e.eventId != done[j].e.eventId
    {
      assert order[i] != order[j];
      var a, b := order[i], order[j];
      assert if a < b then tasks[a].e.eventId != tasks[b].e.eventId else tasks[b].e.eventId != tasks[a].e.eventId;
    }
  }

  /** In every interleaving that finishes, the event of every task that answered Created or Updated
      is in that lifecycle's list at the end. */
  lemma NoEventLost(m: MemState, seen: set<string>, tasks: seq<Task>, schedule: seq<nat>, i: nat)
    requires MemInv(m) && IdsFrom(m, seen) && Fresh(tasks, seen) && i < |tasks|
    requires AllDone(Run(tasks, Initial(Mem(m), tasks), schedule))
    ensures var end := Run(tasks, Initial(Mem(m), tasks), schedule);
            && end.store.Mem? && MemInv(end.store.m)
            && (Binds(end.pcs[i].result) ==>
                  Holds(end.store.m, end.pcs[i].result.lifecycleId, tasks[i].e.eventId))
  {
    InterleavingsAreSequential(Mem(m), tasks, schedule);
    var end := Run(tasks, Initial(Mem(m), tasks), schedule);
    var order :| Explains(Mem(m), tasks, end, order);
    var done := Picked(tasks, order);
    PickedIsFresh(tasks, order, seen);
    FreshInTurn(m, seen, done);
    assert i in order;
    var k :| 0 <= k < |order| && order[k] == i;
    assert end.pcs[order[k]] == Done(OutcomeAt(Mem(m), done, k));
    if Binds(end.pcs[i].result) {
      SequentialLosesNoEvent(m, done, k);
    }
  }

  lemma OutcomeOfFront(store: Store, done: seq<Task>, k: nat)
    requires k < |done| - 1
    ensures OutcomeAt(store, done[..|done| - 1], k) == OutcomeAt(store, done, k)
  {
    assert done[..|done| - 1][..k] == done[..k];
  }
}
