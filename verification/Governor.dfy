/** The resource governor: pressure level with hysteresis and a latched dead-man's switch. Step
    functions, what whole histories of calls determine, the anti-flapping bound, and the object. */
module Governor {
  import opened Common

  datatype PressureLevel = L0Normal | L1Reduce | L2Defer | L3Essential | L4SafeMode

  function Rank(l: PressureLevel): (r: nat)
    ensures r <= 4
  {
    match l
    case L0Normal => 0
    case L1Reduce => 1
    case L2Defer => 2
    case L3Essential => 3
    case L4SafeMode => 4
  }

  function Worse(a: PressureLevel, b: PressureLevel): PressureLevel {
    if Rank(a) >= Rank(b) then a else b
  }

  datatype HostMetrics = HostMetrics(cpuHeadroomPct: real, memoryFreePct: real, diskFreePct: real, takenAt: nat)

  datatype BudgetObservation = BudgetObservation(p99LatencyUs: nat, takenAt: nat)

  datatype DeadmanReason = BudgetBreach | SelfCheckFailure | NoShimConfirmation

  datatype DeadmanSignal = Fine | Tripped(since: nat, reason: DeadmanReason)

  datatype Config = Config(
    cpuHeadroomL1Pct: real, cpuHeadroomL2Pct: real,
    memoryFreeL1Pct: real, memoryFreeL2Pct: real,
    diskFreeL1Pct: real, diskFreeL2Pct: real,
    p99LatencyBudgetUs: nat, p99LatencyL2Us: nat, p99LatencyL3Us: nat,
    goodNewsWindow: nat,
    sustainedBreachWindow: nat,
    shimHeartbeatTimeout: nat)

  datatype State = State(
    host: Option<HostMetrics>,
    budget: Option<BudgetObservation>,
    lastHeartbeat: Option<nat>,
    breachSince: Option<nat>,
    atCurrentSince: nat,
    current: PressureLevel,
    deadman: DeadmanSignal)

  function Initial(t0: nat): State {
    State(None, None, None, None, t0, L0Normal, Fine)
  }

  datatype Call =
    | ReportHost(m: HostMetrics)
    | ReportBudget(o: BudgetObservation)
    | ShimHeartbeat(at: nat)
    | Tick(at: nat)

  function Now(call: Call): nat {
    match call
    case ReportHost(m) => m.takenAt
    case ReportBudget(o) => o.takenAt
    case ShimHeartbeat(at) => at
    case Tick(at) => at
  }

  // ---------------------------------------------------------------- one call

  function Bucket3(observed: real, l1: real, l2: real): PressureLevel {
    if observed < l2 then L2Defer else if observed < l1 then L1Reduce else L0Normal
  }

  function LatencyBucket(observedUs: nat, budget: nat, l2: nat, l3: nat): PressureLevel {
    if observedUs >= l3 then L3Essential
    else if observedUs >= l2 then L2Defer
    else if observedUs > budget then L1Reduce
    else L0Normal
  }

  function IntrinsicLevel(cfg: Config, host: Option<HostMetrics>, budget: Option<BudgetObservation>): PressureLevel {
    var fromHost :=
      match host
      case None => L0Normal
      case Some(h) =>
        Worse(Bucket3(h.cpuHeadroomPct, cfg.cpuHeadroomL1Pct, cfg.cpuHeadroomL2Pct),
              Worse(Bucket3(h.memoryFreePct, cfg.memoryFreeL1Pct, cfg.memoryFreeL2Pct),
                    Bucket3(h.diskFreePct, cfg.diskFreeL1Pct, cfg.diskFreeL2Pct)));
    match budget
    case None => fromHost
    case Some(b) =>
      Worse(fromHost, LatencyBucket(b.p99LatencyUs, cfg.p99LatencyBudgetUs, cfg.p99LatencyL2Us, cfg.p99LatencyL3Us))
  }

  /** Some metric of the host is below its threshold of the first, or of the second, level. */
  predicate HostBelow(cfg: Config, host: Option<HostMetrics>, second: bool) {
    host.Some? &&
    var h := host.value;
    || h.cpuHeadroomPct < (if second then cfg.cpuHeadroomL2Pct else cfg.cpuHeadroomL1Pct)
    || h.memoryFreePct < (if second then cfg.memoryFreeL2Pct else cfg.memoryFreeL1Pct)
    || h.diskFreePct < (if second then cfg.diskFreeL2Pct else cfg.diskFreeL1Pct)
  }

  predicate LatencyAtLeast(budget: Option<BudgetObservation>, us: nat) {
    budget.Some? && budget.value.p99LatencyUs >= us
  }

  /** Which inputs demand which level, in whatever order the thresholds are configured: in
      particular inverted headroom thresholds do not bring the level to L0. */
  lemma IntrinsicMeaning(cfg: Config, host: Option<HostMetrics>, budget: Option<BudgetObservation>)
    ensures var rank := Rank(IntrinsicLevel(cfg, host, budget));
            && (rank >= 3 <==> LatencyAtLeast(budget, cfg.p99LatencyL3Us))
            && (rank >= 2 <==> LatencyAtLeast(budget, cfg.p99LatencyL3Us)
                               || LatencyAtLeast(budget, cfg.p99LatencyL2Us)
                               || HostBelow(cfg, host, true))
            && (rank >= 1 <==> rank >= 2
                               || LatencyAtLeast(budget, cfg.p99LatencyBudgetUs + 1)
                               || HostBelow(cfg, host, false))
            && rank <= 3
  {
    if host.Some? {
      var h := host.value;
      BucketMeaning(h.cpuHeadroomPct, cfg.cpuHeadroomL1Pct, cfg.cpuHeadroomL2Pct);
      BucketMeaning(h.memoryFreePct, cfg.memoryFreeL1Pct, cfg.memoryFreeL2Pct);
      BucketMeaning(h.diskFreePct, cfg.diskFreeL1Pct, cfg.diskFreeL2Pct);
    }
  }

  lemma BucketMeaning(observed: real, l1: real, l2: real)
    ensures var rank := Rank(Bucket3(observed, l1, l2));
            (rank >= 2 <==> observed < l2) && (rank >= 1 <==> observed < l1 || observed < l2) && rank <= 2
  {
  }

  predicate OverBudget(cfg: Config, o: BudgetObservation) {
    o.p99LatencyUs > cfg.p99LatencyBudgetUs
  }

  function BreachAfter(cfg: Config, budget: Option<BudgetObservation>, breachSince: Option<nat>): Option<nat> {
    match budget
    case None => breachSince
    case Some(b) =>
      if !OverBudget(cfg, b) then None
      else if breachSince.Some? then breachSince
      else Some(b.takenAt)
  }

  /** A condition that trips the switch now: the breach first, then the missing heartbeat. */
  function Cause(cfg: Config, s: State, now: nat): DeadmanSignal {
    if s.budget.Some? && OverBudget(cfg, s.budget.value) && s.breachSince.Some?
       && SaturatingSub(now, s.breachSince.value) >= cfg.sustainedBreachWindow
    then Tripped(s.breachSince.value, BudgetBreach)
    else if s.lastHeartbeat.Some? && SaturatingSub(now, s.lastHeartbeat.value) >= cfg.shimHeartbeatTimeout
    then Tripped(s.lastHeartbeat.value, NoShimConfirmation)
    else Fine
  }

  /** A tripped switch recovers at intrinsic L0 once the good-news window has passed since its
      `since`. */
  predicate Recovers(cfg: Config, s: State, now: nat, since: nat) {
    IntrinsicLevel(cfg, s.host, s.budget) == L0Normal && SaturatingSub(now, since) >= cfg.goodNewsWindow
  }

  function DeadmanAfter(cfg: Config, s: State, now: nat): DeadmanSignal {
    var cause := Cause(cfg, s, now);
    if cause.Tripped? then cause
    else if s.deadman.Tripped? && Recovers(cfg, s, now, s.deadman.since) then Fine
    else s.deadman
  }

  function Target(cfg: Config, s: State): PressureLevel {
    if s.deadman.Tripped? then L4SafeMode else IntrinsicLevel(cfg, s.host, s.budget)
  }

  function Hysteresis(cfg: Config, s: State, target: PressureLevel, now: nat): PressureLevel {
    if Rank(target) >= Rank(s.current) then target
    else if SaturatingSub(now, s.atCurrentSince) >= cfg.goodNewsWindow then target
    else s.current
  }

  function Received(s: State, call: Call): State {
    match call
    case ReportHost(m) => s.(host := Some(m))
    case ReportBudget(o) => s.(budget := Some(o))
    case ShimHeartbeat(at) => s.(lastHeartbeat := Some(at))
    case Tick(_) => s
  }

  /** The inputs and the switch after a call, before the level is set. */
  function Evaluated(cfg: Config, s: State, call: Call): State {
    var r := Received(s, call);
    var b := r.(breachSince := BreachAfter(cfg, r.budget, r.breachSince));
    b.(deadman := DeadmanAfter(cfg, b, Now(call)))
  }

  function Levelled(cfg: Config, s: State, now: nat): State {
    var level := Hysteresis(cfg, s, Target(cfg, s), now);
    if level != s.current then s.(current := level, atCurrentSince := now) else s
  }

  function Step(cfg: Config, s: State, call: Call): State {
    Levelled(cfg, Evaluated(cfg, s, call), Now(call))
  }

  function Run(cfg: Config, t0: nat, h: seq<Call>): State {
    if h == [] then Initial(t0) else Step(cfg, Run(cfg, t0, h[..|h| - 1]), h[|h| - 1])
  }

  /** The level equals what is demanded, or is above it and was set less than a window ago. */
  lemma LevelMeetsDemand(cfg: Config, s: State, call: Call)
    ensures var after := Step(cfg, s, call);
            || after.current == Target(cfg, after)
            || (&& Rank(after.current) > Rank(Target(cfg, after))
                && after.atCurrentSince == s.atCurrentSince
                && SaturatingSub(Now(call), after.atCurrentSince) < cfg.goodNewsWindow)
  {
  }

  // ---------------------------------------------------------------- dead-man's switch over histories

  function BudgetReports(h: seq<Call>): seq<BudgetObservation> {
    if h == [] then []
    else BudgetReports(h[..|h| - 1]) + if h[|h| - 1].ReportBudget? then [h[|h| - 1].o] else []
  }

  /** The current unbroken run of over-budget reports starts at position `k`. */
  predicate OverRunFrom(cfg: Config, reports: seq<BudgetObservation>, k: nat) {
    && k <= |reports|
    && (forall j :: k <= j < |reports| ==> reports[j].p99LatencyUs > cfg.p99LatencyBudgetUs)
    && (k > 0 ==> reports[k - 1].p99LatencyUs <= cfg.p99LatencyBudgetUs)
  }

  /** The budget and the breach the governor remembers, given all reports so far and the start of
      their current over-budget run. */
  predicate BreachKnown(cfg: Config, reports: seq<BudgetObservation>, k: nat, s: State) {
    && OverRunFrom(cfg, reports, k)
    && s.breachSince == (if k == |reports| then None else Some(reports[k].takenAt))
    && s.budget == (if reports == [] then None else Some(reports[|reports| - 1]))
  }

  /** Setting the level leaves inputs and switch alone. */
  lemma StepInputs(cfg: Config, s: State, call: Call)
    ensures var after, r := Step(cfg, s, call), Received(s, call);
            && after.host == r.host && after.budget == r.budget && after.lastHeartbeat == r.lastHeartbeat
            && after.breachSince == BreachAfter(cfg, r.budget, s.breachSince)
            && after.deadman == Evaluated(cfg, s, call).deadman
  {
  }

  lemma BreachNext(cfg: Config, reports: seq<BudgetObservation>, k: nat, s: State, call: Call) returns (k': nat)
    requires BreachKnown(cfg, reports, k, s)
    ensures BreachKnown(cfg, if call.ReportBudget? then reports + [call.o] else reports, k', Step(cfg, s, call))
  {
    StepInputs(cfg, s, call);
    k' := if call.ReportBudget? && !OverBudget(cfg, call.o) then |reports| + 1 else k;
  }

  /** `breach_since` is the timestamp of the first report of the current unbroken run of
      over-budget reports, and absent when the latest report is within budget. */
  lemma {:induction false} BreachSinceExact(cfg: Config, t0: nat, h: seq<Call>) returns (k: nat)
    ensures BreachKnown(cfg, BudgetReports(h), k, Run(cfg, t0, h))
    decreases |h|
  {
    if h == [] {
      k := 0;
    } else {
      var front, last := h[..|h| - 1], h[|h| - 1];
      k := BreachSinceExact(cfg, t0, front);
      k := BreachNext(cfg, BudgetReports(front), k, Run(cfg, t0, front), last);
      assert BudgetReports(front) + [] == BudgetReports(front);
    }
  }

  // What the calls so far say, without the governor.

  function LastHost(h: seq<Call>): Option<HostMetrics> {
    if h == [] then None
    else if h[|h| - 1].ReportHost? then Some(h[|h| - 1].m)
    else LastHost(h[..|h| - 1])
  }

  function LastHeartbeat(h: seq<Call>): Option<nat> {
    if h == [] then None
    else if h[|h| - 1].ShimHeartbeat? then Some(h[|h| - 1].at)
    else LastHeartbeat(h[..|h| - 1])
  }

  function LastReport(reports: seq<BudgetObservation>): Option<BudgetObservation> {
    if reports == [] then None else Some(reports[|reports| - 1])
  }

  /** Where the current unbroken run of over-budget reports starts: behind the last report within
      budget. */
  function OverRunStart(cfg: Config, reports: seq<BudgetObservation>): (k: nat)
    ensures OverRunFrom(cfg, reports, k)
  {
    if reports == [] || !OverBudget(cfg, reports[|reports| - 1]) then |reports|
    else OverRunStart(cfg, reports[..|reports| - 1])
  }

  lemma OverRunUnique(cfg: Config, reports: seq<BudgetObservation>, j: nat, k: nat)
    requires OverRunFrom(cfg, reports, j) && OverRunFrom(cfg, reports, k)
    ensures j == k
  {
  }

  lemma {:induction false} InputsAreHistory(cfg: Config, t0: nat, h: seq<Call>)
    ensures Run(cfg, t0, h).host == LastHost(h) && Run(cfg, t0, h).lastHeartbeat == LastHeartbeat(h)
    decreases |h|
  {
    if h != [] {
      InputsAreHistory(cfg, t0, h[..|h| - 1]);
      StepInputs(cfg, Run(cfg, t0, h[..|h| - 1]), h[|h| - 1]);
    }
  }

  /** The reason that the last of these calls gives to trip the switch, if it does: the over-budget
      run has lasted, or else the last heartbeat is too long ago. */
  function CauseOf(cfg: Config, h: seq<Call>, now: nat): DeadmanSignal {
    var reports := BudgetReports(h);
    var k := OverRunStart(cfg, reports);
    if k < |reports| && SaturatingSub(now, reports[k].takenAt) >= cfg.sustainedBreachWindow then
      Tripped(reports[k].takenAt, BudgetBreach)
    else
      match LastHeartbeat(h)
      case Some(beat) =>
        if SaturatingSub(now, beat) >= cfg.shimHeartbeatTimeout then Tripped(beat, NoShimConfirmation) else Fine
      case None => Fine
  }

  /** The last report of each kind is harmless, and the good-news window has passed since `since`. */
  predicate RecoveredSince(cfg: Config, h: seq<Call>, now: nat, since: nat) {
    && IntrinsicLevel(cfg, LastHost(h), LastReport(BudgetReports(h))) == L0Normal
    && SaturatingSub(now, since) >= cfg.goodNewsWindow
  }

  lemma CauseIsHistory(cfg: Config, t0: nat, h: seq<Call>, now: nat)
    ensures Cause(cfg, Run(cfg, t0, h), now) == CauseOf(cfg, h, now)
    ensures forall since :: Recovers(cfg, Run(cfg, t0, h), now, since) <==> RecoveredSince(cfg, h, now, since)
  {
    InputsAreHistory(cfg, t0, h);
    var k := BreachSinceExact(cfg, t0, h);
    OverRunUnique(cfg, BudgetReports(h), k, OverRunStart(cfg, BudgetReports(h)));
  }

  /** The signal call `i` gives a reason for, if it does. */
  function CauseAt(cfg: Config, h: seq<Call>, i: nat): DeadmanSignal
    requires i < |h|
  {
    CauseOf(cfg, h[..i + 1], Now(h[i]))
  }

  predicate RecoversAt(cfg: Config, h: seq<Call>, i: nat, since: nat)
    requires i < |h|
  {
    RecoveredSince(cfg, h[..i + 1], Now(h[i]), since)
  }

  /** Call `m` tripped the switch and no later call gave a new reason or let it recover. */
  ghost predicate TrippedBy(cfg: Config, h: seq<Call>, m: nat) {
    && m < |h|
    && CauseAt(cfg, h, m).Tripped?
    && forall k :: m < k < |h| ==>
         CauseAt(cfg, h, k) == Fine && !RecoversAt(cfg, h, k, CauseAt(cfg, h, m).since)
  }

  lemma DeadmanNext(cfg: Config, s: State, call: Call)
    ensures var after := Step(cfg, s, call);
            var cause := Cause(cfg, after, Now(call));
            after.deadman ==
              (if cause.Tripped? then cause
               else if s.deadman.Tripped? && Recovers(cfg, after, Now(call), s.deadman.since) then Fine
               else s.deadman)
  {
  }

  lemma LastCall(cfg: Config, t0: nat, h: seq<Call>)
    requires h != []
    ensures var n := |h| - 1;
            var before, after := Run(cfg, t0, h[..n]), Run(cfg, t0, h);
            after.deadman ==
                 (if CauseAt(cfg, h, n).Tripped? then CauseAt(cfg, h, n)
                  else if before.deadman.Tripped? && RecoversAt(cfg, h, n, before.deadman.since) then Fine
                  else before.deadman)
  {
    var n := |h| - 1;
    assert h[..n + 1] == h;
    CauseIsHistory(cfg, t0, h, Now(h[n]));
    DeadmanNext(cfg, Run(cfg, t0, h[..n]), h[n]);
  }

  lemma TrippedByFront(cfg: Config, h: seq<Call>, m: nat)
    requires h != [] && m < |h| - 1
    ensures var front := h[..|h| - 1]; var n := |h| - 1;
            TrippedBy(cfg, h, m) <==>
              && TrippedBy(cfg, front, m)
              && CauseAt(cfg, h, n) == Fine
              && !RecoversAt(cfg, h, n, CauseAt(cfg, front, m).since)
  {
    var front, n := h[..|h| - 1], |h| - 1;
    forall k | 0 <= k < n
      ensures CauseAt(cfg, front, k) == CauseAt(cfg, h, k)
      ensures forall since :: RecoversAt(cfg, front, k, since) <==> RecoversAt(cfg, h, k, since)
    {
      assert front[..k + 1] == h[..k + 1];
    }
    if TrippedBy(cfg, h, m) {
      assert CauseAt(cfg, h, n) == Fine;
    }
  }

  lemma {:induction false} ShowsItsSignal(cfg: Config, t0: nat, h: seq<Call>, m: nat)
    requires TrippedBy(cfg, h, m)
    ensures Run(cfg, t0, h).deadman == CauseAt(cfg, h, m)
    decreases |h|
  {
    LastCall(cfg, t0, h);
    if m < |h| - 1 {
      var front := h[..|h| - 1];
      TrippedByFront(cfg, h, m);
      ShowsItsSignal(cfg, t0, front, m);
      assert front[..m + 1] == h[..m + 1];
    }
  }

  lemma {:induction false} SomeCallTripped(cfg: Config, t0: nat, h: seq<Call>) returns (m: nat)
    requires Run(cfg, t0, h).deadman.Tripped?
    ensures TrippedBy(cfg, h, m)
    decreases |h|
  {
    var front := h[..|h| - 1];
    LastCall(cfg, t0, h);
    if CauseAt(cfg, h, |h| - 1).Tripped? {
      m := |h| - 1;
    } else {
      m := SomeCallTripped(cfg, t0, front);
      ShowsItsSignal(cfg, t0, front, m);
      TrippedByFront(cfg, h, m);
    }
  }

  /** Dead-man exactness, in terms of the calls alone: the switch is tripped after a run exactly when
      at some call the over-budget run or the heartbeat gap had reached its timeout, and no later call
      gave a new reason or let it recover; and it then shows that call's signal. */
  lemma DeadmanExact(cfg: Config, t0: nat, h: seq<Call>)
    ensures Run(cfg, t0, h).deadman.Tripped? <==> exists m :: TrippedBy(cfg, h, m)
    ensures forall m :: TrippedBy(cfg, h, m) ==> Run(cfg, t0, h).deadman == CauseAt(cfg, h, m)
  {
    if Run(cfg, t0, h).deadman.Tripped? {
      var m := SomeCallTripped(cfg, t0, h);
    }
    forall m | TrippedBy(cfg, h, m)
      ensures Run(cfg, t0, h).deadman == CauseAt(cfg, h, m)
    {
      ShowsItsSignal(cfg, t0, h, m);
    }
  }

  // ---------------------------------------------------------------- anti-flapping

  /** Calls come in time order, none before the governor was made. */
  predicate Monotone(t0: nat, h: seq<Call>) {
    && (forall i :: 0 <= i < |h| ==> t0 <= Now(h[i]))
    && (forall i, j :: 0 <= i < j < |h| ==> Now(h[i]) <= Now(h[j]))
  }

  function LevelAfter(cfg: Config, t0: nat, h: seq<Call>): PressureLevel {
    Run(cfg, t0, h).current
  }

  /** When the level was last changed, or the governor made. */
  function SetAt(cfg: Config, t0: nat, h: seq<Call>): nat {
    if h == [] then t0
    else if LevelAfter(cfg, t0, h) != LevelAfter(cfg, t0, h[..|h| - 1]) then Now(h[|h| - 1])
    else SetAt(cfg, t0, h[..|h| - 1])
  }

  lemma {:induction false} SetAtIsKept(cfg: Config, t0: nat, h: seq<Call>)
    ensures Run(cfg, t0, h).atCurrentSince == SetAt(cfg, t0, h)
    decreases |h|
  {
    if h != [] {
      SetAtIsKept(cfg, t0, h[..|h| - 1]);
      LevelMoves(cfg, Run(cfg, t0, h[..|h| - 1]), h[|h| - 1]);
    }
  }

  lemma {:induction false} StepDemands(cfg: Config, s: State, call: Call)
    ensures var after := Step(cfg, s, call);
            && (after.deadman.Tripped? ==> after.current == L4SafeMode)
            && (!after.deadman.Tripped? ==>
                  var wanted := IntrinsicLevel(cfg, after.host, after.budget);
                  || after.current == wanted
                  || (Rank(after.current) > Rank(wanted) && Now(call) < after.atCurrentSince + cfg.goodNewsWindow))
  {
    LevelMeetsDemand(cfg, s, call);
  }

  /** For every history: while the dead-man's switch is tripped the level is safe mode. */
  lemma {:induction false} TrippedIsSafeMode(cfg: Config, t0: nat, h: seq<Call>)
    ensures Run(cfg, t0, h).deadman.Tripped? ==> LevelAfter(cfg, t0, h) == L4SafeMode
    ensures (exists m :: TrippedBy(cfg, h, m)) ==> LevelAfter(cfg, t0, h) == L4SafeMode
  {
    DeadmanExact(cfg, t0, h);
    if h != [] {
      StepDemands(cfg, Run(cfg, t0, h[..|h| - 1]), h[|h| - 1]);
    }
  }

  /** For every history: while it is not tripped the level is what the latest inputs demand, or above
      that and changed less than a window ago. */
  lemma {:induction false} UntrippedIsDemand(cfg: Config, t0: nat, h: seq<Call>)
    requires h != [] && !Run(cfg, t0, h).deadman.Tripped?
    ensures var wanted := IntrinsicLevel(cfg, LastHost(h), LastReport(BudgetReports(h)));
            || LevelAfter(cfg, t0, h) == wanted
            || (&& Rank(LevelAfter(cfg, t0, h)) > Rank(wanted)
                && Now(h[|h| - 1]) < SetAt(cfg, t0, h) + cfg.goodNewsWindow)
  {
    StepDemands(cfg, Run(cfg, t0, h[..|h| - 1]), h[|h| - 1]);
    InputsAreHistory(cfg, t0, h);
    var k := BreachSinceExact(cfg, t0, h);
    SetAtIsKept(cfg, t0, h);
  }

  /** How often the level changed, and how often it went down. */
  function Changes(cfg: Config, t0: nat, h: seq<Call>): nat {
    if h == [] then 0
    else
      var front := h[..|h| - 1];
      Changes(cfg, t0, front) + if LevelAfter(cfg, t0, h) != LevelAfter(cfg, t0, front) then 1 else 0
  }

  function Drops(cfg: Config, t0: nat, h: seq<Call>): nat {
    if h == [] then 0
    else
      var front := h[..|h| - 1];
      Drops(cfg, t0, front)
      + if Rank(LevelAfter(cfg, t0, h)) < Rank(LevelAfter(cfg, t0, front)) then 1 else 0
  }

  function EndTime(t0: nat, h: seq<Call>): nat {
    if h == [] then t0 else Now(h[|h| - 1])
  }

  lemma MonotoneFront(t0: nat, h: seq<Call>)
    requires Monotone(t0, h) && h != []
    ensures Monotone(t0, h[..|h| - 1]) && EndTime(t0, h[..|h| - 1]) <= EndTime(t0, h)
  {
  }

  /** A level is only ever left downwards after a full window. */
  lemma LevelMoves(cfg: Config, s: State, call: Call)
    ensures var after := Step(cfg, s, call);
            && (after.current == s.current ==> after.atCurrentSince == s.atCurrentSince)
            && (after.current != s.current ==> after.atCurrentSince == Now(call))
            && (Rank(after.current) < Rank(s.current) ==>
                  SaturatingSub(Now(call), s.atCurrentSince) >= cfg.goodNewsWindow)
  {
  }

  /** `n` windows one after the other. */
  function Windows(n: nat, w: nat): nat {
    if n == 0 then 0 else Windows(n - 1, w) + w
  }

  lemma {:induction false} WindowsIsProduct(n: nat, w: nat)
    ensures Windows(n, w) == n * w
    decreases n
  {
    if n > 0 {
      WindowsIsProduct(n - 1, w);
      assert n * w == (n - 1) * w + w;
    }
  }

  /** Every drop waits a full window after the change before it, and every rise is paid for by the
      drops and the height gained. */
  predicate Paced(cfg: Config, t0: nat, s: State, changes: nat, drops: nat, end: nat) {
    && t0 + Windows(drops, cfg.goodNewsWindow) <= s.atCurrentSince <= end
    && changes <= 5 * drops + Rank(s.current)
  }

  lemma PacedNext(cfg: Config, t0: nat, s: State, changes: nat, drops: nat, end: nat, call: Call)
    requires Paced(cfg, t0, s, changes, drops, end) && end <= Now(call)
    ensures var after := Step(cfg, s, call);
            Paced(cfg, t0, after,
                  changes + (if after.current != s.current then 1 else 0),
                  drops + (if Rank(after.current) < Rank(s.current) then 1 else 0), Now(call))
  {
    LevelMoves(cfg, s, call);
  }

  lemma CountersNext(cfg: Config, t0: nat, h: seq<Call>)
    requires h != []
    ensures var front := h[..|h| - 1];
            var before, after := LevelAfter(cfg, t0, front), LevelAfter(cfg, t0, h);
            && Run(cfg, t0, h) == Step(cfg, Run(cfg, t0, front), h[|h| - 1])
            && Changes(cfg, t0, h) == Changes(cfg, t0, front) + (if after != before then 1 else 0)
            && Drops(cfg, t0, h) == Drops(cfg, t0, front) + (if Rank(after) < Rank(before) then 1 else 0)
  {
  }

  lemma {:induction false} DropsArePaced(cfg: Config, t0: nat, h: seq<Call>)
    requires Monotone(t0, h)
    ensures Paced(cfg, t0, Run(cfg, t0, h), Changes(cfg, t0, h), Drops(cfg, t0, h), EndTime(t0, h))
    decreases |h|
  {
    if h != [] {
      var front, last := h[..|h| - 1], h[|h| - 1];
      MonotoneFront(t0, h);
      DropsArePaced(cfg, t0, front);
      PacedOneMore(cfg, t0, front, last);
      assert front + [last] == h;
    }
  }

  lemma {:induction false} PacedOneMore(cfg: Config, t0: nat, h: seq<Call>, call: Call)
    requires Paced(cfg, t0, Run(cfg, t0, h), Changes(cfg, t0, h), Drops(cfg, t0, h), EndTime(t0, h))
    requires EndTime(t0, h) <= Now(call)
    ensures var more := h + [call];
            Paced(cfg, t0, Run(cfg, t0, more), Changes(cfg, t0, more), Drops(cfg, t0, more), EndTime(t0, more))
  {
    var more := h + [call];
    CountersAfter(cfg, t0, h, call);
    PacedFrom(cfg, t0, Run(cfg, t0, h), Run(cfg, t0, more), call, Changes(cfg, t0, h), Changes(cfg, t0, more),
              Drops(cfg, t0, h), Drops(cfg, t0, more), EndTime(t0, h), EndTime(t0, more));
  }

  lemma PacedFrom(cfg: Config, t0: nat, s: State, after: State, call: Call, changes: nat, changes': nat,
                  drops: nat, drops': nat, end: nat, end': nat)
    requires Paced(cfg, t0, s, changes, drops, end) && end <= end' == Now(call)
    requires after == Step(cfg, s, call)
    requires changes' == changes + (if after.current != s.current then 1 else 0)
    requires drops' == drops + (if Rank(after.current) < Rank(s.current) then 1 else 0)
    ensures Paced(cfg, t0, after, changes', drops', end')
  {
    PacedNext(cfg, t0, s, changes, drops, end, call);
  }

  lemma {:induction false} CountersAfter(cfg: Config, t0: nat, h: seq<Call>, call: Call)
    ensures var more := h + [call];
            var before, after := Run(cfg, t0, h), Run(cfg, t0, more);
            && after == Step(cfg, before, call) && EndTime(t0, more) == Now(call)
            && Changes(cfg, t0, more) == Changes(cfg, t0, h) + (if after.current != before.current then 1 else 0)
            && Drops(cfg, t0, more) == Drops(cfg, t0, h) + (if Rank(after.current) < Rank(before.current) then 1 else 0)
  {
    CountersNext(cfg, t0, h + [call]);
    assert (h + [call])[..|h|] == h;
  }

  lemma QuotientBounds(d: nat, w: nat, t: nat)
    requires w > 0 && d * w <= t
    ensures d <= t / w
  {
    assert t < (t / w + 1) * w;
    if d >= t / w + 1 {
      MultiplyMonotone(t / w + 1, d, w);
      assert false;
    }
  }

  lemma MultiplyMonotone(a: nat, b: nat, w: nat)
    requires a <= b
    ensures a * w <= b * w
  {
  }

  /** Anti-flapping: a run of duration T changes the level at most 5 * floor(T / W) + 4 times. */
  lemma {:induction false} AntiFlapping(cfg: Config, t0: nat, h: seq<Call>)
    requires Monotone(t0, h) && cfg.goodNewsWindow > 0
    ensures EndTime(t0, h) >= t0
    ensures Changes(cfg, t0, h) <= 5 * ((EndTime(t0, h) - t0) / cfg.goodNewsWindow) + 4
  {
    DropsArePaced(cfg, t0, h);
    PacedBounds(cfg, t0, Run(cfg, t0, h), Changes(cfg, t0, h), Drops(cfg, t0, h), EndTime(t0, h));
  }

  lemma PacedBounds(cfg: Config, t0: nat, s: State, changes: nat, drops: nat, end: nat)
    requires Paced(cfg, t0, s, changes, drops, end) && cfg.goodNewsWindow > 0
    ensures end >= t0
    ensures changes <= 5 * ((end - t0) / cfg.goodNewsWindow) + 4
  {
    var w := cfg.goodNewsWindow;
    WindowsIsProduct(drops, w);
    QuotientBounds(drops, w, end - t0);
  }

  /** A level once published is not left downwards for a full window; L4 in particular stays. */
  lemma {:induction false} PublishedLevelLasts(cfg: Config, t0: nat, h: seq<Call>, i: nat)
    requires Monotone(t0, h) && i < |h|
    requires LevelAfter(cfg, t0, h[..i + 1]) != LevelAfter(cfg, t0, h[..i])
    requires Now(h[|h| - 1]) < Now(h[i]) + cfg.goodNewsWindow
    ensures Rank(LevelAfter(cfg, t0, h)) >= Rank(LevelAfter(cfg, t0, h[..i + 1]))
    ensures LevelAfter(cfg, t0, h[..i + 1]) == L4SafeMode ==> LevelAfter(cfg, t0, h) == L4SafeMode
    ensures Run(cfg, t0, h).atCurrentSince >= Now(h[i])
    decreases |h|
  {
    var front, last := h[..|h| - 1], h[|h| - 1];
    LevelMoves(cfg, Run(cfg, t0, front), last);
    if i == |h| - 1 {
      assert h[..i + 1] == h && h[..i] == front;
    } else {
      MonotoneFront(t0, h);
      assert front[..i + 1] == h[..i + 1] && front[..i] == h[..i];
      assert Now(front[|front| - 1]) <= Now(last);
      PublishedLevelLasts(cfg, t0, front, i);
    }
  }

  // ---------------------------------------------------------------- the object

  class GovernorObject {
    const config: Config
    var host: Option<HostMetrics>
    var budget: Option<BudgetObservation>
    var lastHeartbeat: Option<nat>
    var breachSince: Option<nat>
    var atCurrentSince: nat
    var current: PressureLevel
    var deadman: DeadmanSignal
    /** What subscribers see. */
    var publishedLevel: PressureLevel
    var publishedDeadman: DeadmanSignal

    ghost function Value(): State
      reads this
    {
      State(host, budget, lastHeartbeat, breachSince, atCurrentSince, current, deadman)
    }

    ghost predicate Valid()
      reads this
    {
      publishedLevel == current && publishedDeadman == deadman
    }

    constructor (config: Config, t0: nat)
      ensures this.config == config && Valid() && Value() == Initial(t0)
    {
      this.config := config;
      host, budget, lastHeartbeat, breachSince := None, None, None, None;
      atCurrentSince := t0;
      current, deadman := L0Normal, Fine;
      publishedLevel, publishedDeadman := L0Normal, Fine;
    }

    method OnHost(m: HostMetrics)
      requires Valid()
      modifies this
      ensures Valid() && Value() == Step(config, old(Value()), ReportHost(m))
    {
      host := Some(m);
      Recompute(m.takenAt);
    }

    method OnBudget(o: BudgetObservation)
      requires Valid()
      modifies this
      ensures Valid() && Value() == Step(config, old(Value()), ReportBudget(o))
    {
      budget := Some(o);
      Recompute(o.takenAt);
    }

    method OnHeartbeat(now: nat)
      requires Valid()
      modifies this
      ensures Valid() && Value() == Step(config, old(Value()), ShimHeartbeat(now))
    {
      lastHeartbeat := Some(now);
      Recompute(now);
    }

    method OnTick(now: nat)
      requires Valid()
      modifies this
      ensures Valid() && Value() == Step(config, old(Value()), Tick(now))
    {
      Recompute(now);
    }

    method Recompute(now: nat)
      requires Valid()
      modifies this
      ensures Valid() && Value() == Step(config, old(Value()), Tick(now))
    {
      var intrinsic := IntrinsicLevel(config, host, budget);
      var signal := EvaluateDeadman(now, intrinsic);
      if signal != deadman {
        deadman := signal;
        publishedDeadman := signal;
      }
      var target := if signal.Tripped? then L4SafeMode else intrinsic;
      var level := current;
      if Rank(target) >= Rank(current) || SaturatingSub(now, atCurrentSince) >= config.goodNewsWindow {
        level := target;
      }
      if level != current {
        current := level;
        atCurrentSince := now;
        publishedLevel := level;
      }
    }

    method EvaluateDeadman(now: nat, intrinsic: PressureLevel) returns (signal: DeadmanSignal)
      requires intrinsic == IntrinsicLevel(config, host, budget)
      modifies this`breachSince
      ensures breachSince == BreachAfter(config, budget, old(breachSince))
      ensures signal == DeadmanAfter(config, Value(), now)
    {
      if budget.Some? {
        var b := budget.value;
        if b.p99LatencyUs > config.p99LatencyBudgetUs {
          if breachSince.None? {
            breachSince := Some(b.takenAt);
          }
          var start := breachSince.value;
          if SaturatingSub(now, start) >= config.sustainedBreachWindow {
            return Tripped(start, BudgetBreach);
          }
        } else {
          breachSince := None;
        }
      }
      if lastHeartbeat.Some? && SaturatingSub(now, lastHeartbeat.value) >= config.shimHeartbeatTimeout {
        return Tripped(lastHeartbeat.value, NoShimConfirmation);
      }
      if deadman.Tripped? {
        var recovered := intrinsic == L0Normal && SaturatingSub(now, deadman.since) >= config.goodNewsWindow;
        return if recovered then Fine else deadman;
      }
      signal := Fine;
    }
  }
}
