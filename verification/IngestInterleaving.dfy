/** Ingest tasks, dropped frames and coverage-gap emitters interleaved at every shared access: the
    lock-free drop counters, and evidence-then-audit ordering across connections. */
module IngestInterleaving {
  import opened Common

  datatype Summary = Summary(frames: nat, bytes: nat, windowStartedAtMs: nat)

  /** What the two logs hold: an event's canonical bytes, or a coverage-gap body. */
  datatype Entry = Event(payload: Bytes) | CoverageGap(summary: Summary)

  datatype Task =
    | Drop(frameBytes: nat)
    | EmitGap
    | Ingest(payload: Bytes)

  datatype Pc =
    | Start
    | StoreSince
    | AddBytes
    | TookFrames(frames: nat)
    | TookBytes(frames: nat, bytes: nat)
    | Took(summary: Summary)
    | Logged(entry: Entry)
    | Finished

  /** Shared state; `addedFrames`, `addedBytes`, `summaries` and the wrap counts are the
      observer's record. */
  datatype System = System(
    frames: nat,
    bytes: nat,
    sinceMs: nat,
    evidence: seq<Entry>,
    audit: seq<Entry>,
    pcs: seq<Pc>,
    addedFrames: nat,
    addedBytes: nat,
    frameWraps: nat,
    byteWraps: nat,
    summaries: seq<Summary>)

  function Initial(tasks: seq<Task>): System {
    System(0, 0, 0, [], [], seq(|tasks|, _ => Start), 0, 0, 0, 0, [])
  }

  /** Which task moves, whether the log or audit call it makes succeeds, and the wall clock. */
  datatype Pick = Pick(task: nat, ok: bool, now: nat)

  // ---------------------------------------------------------------- the machine

  function Wraps(counter: nat, n: nat): nat {
    (counter + n) / U64_MODULUS
  }

  /** `fetch_add` on a 64-bit atomic. */
  function Wrapped(counter: nat, n: nat): nat {
    (counter + n) % U64_MODULUS
  }

  function At(s: System, i: nat, pc: Pc): System
    requires i < |s.pcs|
  {
    s.(pcs := s.pcs[i := pc])
  }

  /** `DropCounters::record`: the frame first, then the start of the window, then the bytes. */
  function DropMove(s: System, i: nat, frameBytes: nat, now: nat): (r: System)
    requires i < |s.pcs|
    ensures |r.pcs| == |s.pcs|
  {
    match s.pcs[i]
    case Start =>
      At(s.(frames := Wrapped(s.frames, 1), frameWraps := s.frameWraps + Wraps(s.frames, 1),
            addedFrames := s.addedFrames + 1),
         i, if s.frames == 0 then StoreSince else AddBytes)
    case StoreSince => At(s.(sinceMs := now), i, AddBytes)
    case AddBytes =>
      At(s.(bytes := Wrapped(s.bytes, frameBytes), byteWraps := s.byteWraps + Wraps(s.bytes, frameBytes),
            addedBytes := s.addedBytes + frameBytes),
         i, Finished)
    case _ => s
  }

  /** `DropCounters::take`, then the summary into the evidence log and the audit chain; a failed
      evidence append does not stop the commitment. */
  function GapMove(s: System, i: nat, ok: bool): (r: System)
    requires i < |s.pcs|
    ensures |r.pcs| == |s.pcs|
  {
    match s.pcs[i]
    case Start =>
      if s.frames == 0 then At(s, i, Finished) else At(s.(frames := 0), i, TookFrames(s.frames))
    case TookFrames(f) => At(s.(bytes := 0), i, TookBytes(f, s.bytes))
    case TookBytes(f, b) =>
      var summary := Summary(f, b, s.sinceMs);
      At(s.(sinceMs := 0, summaries := s.summaries + [summary]), i, Took(summary))
    case Took(summary) =>
      var entry := CoverageGap(summary);
      At(if ok then s.(evidence := s.evidence + [entry]) else s, i, Logged(entry))
    case Logged(entry) => At(if ok then s.(audit := s.audit + [entry]) else s, i, Finished)
    case _ => s
  }

  /** Evidence first; the commitment only after the append succeeded. */
  function IngestMove(s: System, i: nat, payload: Bytes, ok: bool): (r: System)
    requires i < |s.pcs|
    ensures |r.pcs| == |s.pcs|
  {
    match s.pcs[i]
    case Start =>
      if ok then At(s.(evidence := s.evidence + [Event(payload)]), i, Logged(Event(payload)))
      else At(s, i, Finished)
    case Logged(entry) => At(if ok then s.(audit := s.audit + [entry]) else s, i, Finished)
    case _ => s
  }

  function Step(tasks: seq<Task>, s: System, p: Pick): (r: System)
    requires |s.pcs| == |tasks|
    ensures |r.pcs| == |tasks|
  {
    if p.task >= |tasks| then s
    else
      match tasks[p.task]
      case Drop(n) => DropMove(s, p.task, n, p.now)
      case EmitGap => GapMove(s, p.task, p.ok)
      case Ingest(payload) => IngestMove(s, p.task, payload, p.ok)
  }

  function Run(tasks: seq<Task>, s: System, picks: seq<Pick>): (r: System)
    requires |s.pcs| == |tasks|
    ensures |r.pcs| == |tasks|
    decreases |picks|
  {
    if picks == [] then s else Run(tasks, Step(tasks, s, picks[0]), picks[1..])
  }

  // ---------------------------------------------------------------- sums over tasks

  function Sum(pcs: seq<Pc>, f: Pc -> nat): nat {
    if pcs == [] then 0 else Sum(pcs[..|pcs| - 1], f) + f(pcs[|pcs| - 1])
  }

  lemma {:induction false} SumAfterMove(pcs: seq<Pc>, f: Pc -> nat, i: nat, pc: Pc)
    requires i < |pcs|
    ensures Sum(pcs[i := pc], f) == Sum(pcs, f) - f(pcs[i]) + f(pc)
    ensures Sum(pcs, f) >= f(pcs[i])
    decreases |pcs|
  {
    var n := |pcs| - 1;
    if i == n {
      assert pcs[i := pc][..n] == pcs[..n];
    } else {
      SumAfterMove(pcs[..n], f, i, pc);
      assert pcs[i := pc][..n] == pcs[..n][i := pc];
    }
  }

  lemma {:induction false} SumOfStarts(n: nat, f: Pc -> nat)
    requires f(Start) == 0
    ensures Sum(seq(n, _ => Start), f) == 0
  {
    if n > 0 {
      SumOfStarts(n - 1, f);
      assert seq(n, _ => Start)[..n - 1] == seq(n - 1, _ => Start);
    }
  }

  function TotalFrames(summaries: seq<Summary>): nat {
    if summaries == [] then 0
    else TotalFrames(summaries[..|summaries| - 1]) + summaries[|summaries| - 1].frames
  }

  function TotalBytes(summaries: seq<Summary>): nat {
    if summaries == [] then 0
    else TotalBytes(summaries[..|summaries| - 1]) + summaries[|summaries| - 1].bytes
  }

  lemma TotalsNext(summaries: seq<Summary>, x: Summary)
    ensures TotalFrames(summaries + [x]) == TotalFrames(summaries) + x.frames
    ensures TotalBytes(summaries + [x]) == TotalBytes(summaries) + x.bytes
  {
    assert (summaries + [x])[..|summaries|] == summaries;
  }

  // ---------------------------------------------------------------- conservation

  /** Frames and bytes a taker holds between its swaps and its summary. */
  const HELD_FRAMES: Pc -> nat :=
    (pc: Pc) => if pc.TookFrames? then pc.frames else if pc.TookBytes? then pc.frames else 0

  const HELD_BYTES: Pc -> nat := (pc: Pc) => if pc.TookBytes? then pc.bytes else 0

  /** Nothing added is lost or made up: it is in the counter, in some taker's hands, or in a
      summary, up to whole wraps of the 64-bit counters. */
  ghost predicate Conserved(s: System) {
    && s.frames < U64_MODULUS && s.bytes < U64_MODULUS
    && s.addedFrames == s.frames + Sum(s.pcs, HELD_FRAMES) + TotalFrames(s.summaries) + U64_MODULUS * s.frameWraps
    && s.addedBytes == s.bytes + Sum(s.pcs, HELD_BYTES) + TotalBytes(s.summaries) + U64_MODULUS * s.byteWraps
  }

  /** Where a task's type allows it to be. */
  predicate PcFits(task: Task, pc: Pc) {
    match task
    case Drop(_) => pc in {Start, StoreSince, AddBytes, Finished}
    case EmitGap => !pc.StoreSince? && !pc.AddBytes? && (pc.Logged? ==> pc.entry.CoverageGap?)
    case Ingest(payload) => pc in {Start, Logged(Event(payload)), Finished}
  }

  ghost predicate PcsFit(tasks: seq<Task>, s: System) {
    |s.pcs| == |tasks| && forall i :: 0 <= i < |tasks| ==> PcFits(tasks[i], s.pcs[i])
  }

  lemma WrapsSplit(counter: nat, n: nat)
    ensures counter + n == Wrapped(counter, n) + U64_MODULUS * Wraps(counter, n)
    ensures Wrapped(counter, n) < U64_MODULUS
  {
  }

  lemma MoveChangesSums(s: System, i: nat, pc: Pc)
    requires i < |s.pcs|
    ensures Sum(s.pcs[i := pc], HELD_FRAMES) == Sum(s.pcs, HELD_FRAMES) - HELD_FRAMES(s.pcs[i]) + HELD_FRAMES(pc)
    ensures Sum(s.pcs[i := pc], HELD_BYTES) == Sum(s.pcs, HELD_BYTES) - HELD_BYTES(s.pcs[i]) + HELD_BYTES(pc)
  {
    SumAfterMove(s.pcs, HELD_FRAMES, i, pc);
    SumAfterMove(s.pcs, HELD_BYTES, i, pc);
  }

  lemma DropConserves(s: System, i: nat, n: nat, now: nat)
    requires Conserved(s) && i < |s.pcs| && PcFits(Drop(n), s.pcs[i])
    ensures Conserved(DropMove(s, i, n, now)) && PcFits(Drop(n), DropMove(s, i, n, now).pcs[i])
  {
    var after := DropMove(s, i, n, now);
    MoveChangesSums(s, i, after.pcs[i]);
    WrapsSplit(s.frames, 1);
    WrapsSplit(s.bytes, n);
    assert s.pcs[i := s.pcs[i]] == s.pcs;
  }

  lemma GapTakes(s: System, i: nat, ok: bool)
    requires Conserved(s) && i < |s.pcs| && (s.pcs[i].Start? || s.pcs[i].TookFrames?)
    ensures Conserved(GapMove(s, i, ok)) && PcFits(EmitGap, GapMove(s, i, ok).pcs[i])
  {
    var after := GapMove(s, i, ok);
    MoveChangesSums(s, i, after.pcs[i]);
    assert after.pcs == s.pcs[i := after.pcs[i]];
  }

  lemma GapSums(s: System, i: nat, ok: bool)
    requires Conserved(s) && i < |s.pcs| && s.pcs[i].TookBytes?
    ensures Conserved(GapMove(s, i, ok)) && PcFits(EmitGap, GapMove(s, i, ok).pcs[i])
  {
    var after := GapMove(s, i, ok);
    MoveChangesSums(s, i, after.pcs[i]);
    TotalsNext(s.summaries, after.pcs[i].summary);
  }

  lemma GapWrites(s: System, i: nat, ok: bool)
    requires Conserved(s) && i < |s.pcs| && PcFits(EmitGap, s.pcs[i])
    requires s.pcs[i].Took? || s.pcs[i].Logged? || s.pcs[i].Finished?
    ensures Conserved(GapMove(s, i, ok)) && PcFits(EmitGap, GapMove(s, i, ok).pcs[i])
  {
    var after := GapMove(s, i, ok);
    MoveChangesSums(s, i, after.pcs[i]);
    assert after.pcs == s.pcs[i := after.pcs[i]];
  }

  lemma GapConserves(s: System, i: nat, ok: bool)
    requires Conserved(s) && i < |s.pcs| && PcFits(EmitGap, s.pcs[i])
    ensures Conserved(GapMove(s, i, ok)) && PcFits(EmitGap, GapMove(s, i, ok).pcs[i])
  {
    if s.pcs[i].Start? || s.pcs[i].TookFrames? {
      GapTakes(s, i, ok);
    } else if s.pcs[i].TookBytes? {
      GapSums(s, i, ok);
    } else {
      GapWrites(s, i, ok);
    }
  }

  lemma IngestConserves(s: System, i: nat, payload: Bytes, ok: bool)
    requires Conserved(s) && i < |s.pcs| && PcFits(Ingest(payload), s.pcs[i])
    ensures Conserved(IngestMove(s, i, payload, ok)) && PcFits(Ingest(payload), IngestMove(s, i, payload, ok).pcs[i])
  {
    var after := IngestMove(s, i, payload, ok);
    MoveChangesSums(s, i, after.pcs[i]);
    assert s.pcs[i := s.pcs[i]] == s.pcs;
  }

  // ---------------------------------------------------------------- evidence before audit

  /** Tasks that appended `payload` and have not committed it yet. */
  function Pending(payload: Bytes): Pc -> nat {
    (pc: Pc) => if pc == Logged(Event(payload)) then 1 else 0
  }

  ghost predicate EvidenceFirstFor(s: System, payload: Bytes) {
    multiset(s.audit)[Event(payload)] + Sum(s.pcs, Pending(payload)) <= multiset(s.evidence)[Event(payload)]
  }

  /** Every event commitment is covered by an evidence append of its own. */
  ghost predicate EvidenceFirst(s: System) {
    forall payload :: EvidenceFirstFor(s, payload)
  }

  lemma CountNext(log: seq<Entry>, e: Entry, x: Entry)
    ensures multiset(log + [e])[x] == multiset(log)[x] + if x == e then 1 else 0
  {
    assert multiset(log + [e]) == multiset(log) + multiset{e};
  }

  /** A move that appends to at most one log, and is pending exactly after it appended evidence. */
  lemma MoveKeepsEvidenceFirst(s: System, t: System, i: nat, pc: Pc, payload: Bytes)
    requires i < |s.pcs| && t.pcs == s.pcs[i := pc] && EvidenceFirstFor(s, payload)
    requires var x, f := Event(payload), Pending(payload);
             multiset(t.audit)[x] + f(pc) + multiset(s.evidence)[x]
               <= multiset(t.evidence)[x] + multiset(s.audit)[x] + f(s.pcs[i])
    ensures EvidenceFirstFor(t, payload)
  {
    SumAfterMove(s.pcs, Pending(payload), i, pc);
  }

  lemma DropKeepsEvidenceFirst(s: System, i: nat, n: nat, now: nat, payload: Bytes)
    requires i < |s.pcs| && PcFits(Drop(n), s.pcs[i]) && EvidenceFirstFor(s, payload)
    ensures EvidenceFirstFor(DropMove(s, i, n, now), payload)
  {
    var t := DropMove(s, i, n, now);
    assert t.pcs == s.pcs[i := t.pcs[i]];
    MoveKeepsEvidenceFirst(s, t, i, t.pcs[i], payload);
  }

  lemma GapKeepsEvidenceFirst(s: System, i: nat, ok: bool, payload: Bytes)
    requires i < |s.pcs| && PcFits(EmitGap, s.pcs[i]) && EvidenceFirstFor(s, payload)
    ensures EvidenceFirstFor(GapMove(s, i, ok), payload)
  {
    var t := GapMove(s, i, ok);
    assert t.pcs == s.pcs[i := t.pcs[i]];
    if s.pcs[i].Took? {
      CountNext(s.evidence, CoverageGap(s.pcs[i].summary), Event(payload));
    } else if s.pcs[i].Logged? {
      CountNext(s.audit, s.pcs[i].entry, Event(payload));
    }
    MoveKeepsEvidenceFirst(s, t, i, t.pcs[i], payload);
  }

  lemma IngestKeepsEvidenceFirst(s: System, i: nat, own: Bytes, ok: bool, payload: Bytes)
    requires i < |s.pcs| && PcFits(Ingest(own), s.pcs[i]) && EvidenceFirstFor(s, payload)
    ensures EvidenceFirstFor(IngestMove(s, i, own, ok), payload)
  {
    var t := IngestMove(s, i, own, ok);
    assert t.pcs == s.pcs[i := t.pcs[i]];
    CountNext(s.evidence, Event(own), Event(payload));
    CountNext(s.audit, Event(own), Event(payload));
    MoveKeepsEvidenceFirst(s, t, i, t.pcs[i], payload);
  }

  lemma StepKeepsEvidenceFirst(tasks: seq<Task>, s: System, p: Pick, payload: Bytes)
    requires PcsFit(tasks, s) && EvidenceFirstFor(s, payload)
    ensures EvidenceFirstFor(Step(tasks, s, p), payload)
  {
    if p.task < |tasks| {
      match tasks[p.task] {
        case Drop(n) => DropKeepsEvidenceFirst(s, p.task, n, p.now, payload);
        case EmitGap => GapKeepsEvidenceFirst(s, p.task, p.ok, payload);
        case Ingest(own) => IngestKeepsEvidenceFirst(s, p.task, own, p.ok, payload);
      }
    }
  }

  // ---------------------------------------------------------------- every interleaving

  ghost predicate Inv(tasks: seq<Task>, s: System) {
    PcsFit(tasks, s) && Conserved(s) && EvidenceFirst(s)
  }

  /** One step leaves every other task where it was. */
  lemma OnlyOneMoves(tasks: seq<Task>, s: System, p: Pick)
    requires |s.pcs| == |tasks|
    ensures forall k :: 0 <= k < |tasks| && k != p.task ==> Step(tasks, s, p).pcs[k] == s.pcs[k]
  {
  }

  lemma StepConserves(tasks: seq<Task>, s: System, p: Pick)
    requires PcsFit(tasks, s) && Conserved(s)
    ensures Conserved(Step(tasks, s, p))
    ensures p.task < |tasks| ==> PcFits(tasks[p.task], Step(tasks, s, p).pcs[p.task])
  {
    if p.task < |tasks| {
      match tasks[p.task] {
        case Drop(n) => DropConserves(s, p.task, n, p.now);
        case EmitGap => GapConserves(s, p.task, p.ok);
        case Ingest(payload) => IngestConserves(s, p.task, payload, p.ok);
      }
    }
  }

  lemma StepKeeps(tasks: seq<Task>, s: System, p: Pick)
    requires Inv(tasks, s)
    ensures Inv(tasks, Step(tasks, s, p))
  {
    StepConserves(tasks, s, p);
    OnlyOneMoves(tasks, s, p);
    var t := Step(tasks, s, p);
    assert PcsFit(tasks, t) by {
      forall k | 0 <= k < |tasks|
        ensures PcFits(tasks[k], t.pcs[k])
      {
      }
    }
    forall payload
      ensures EvidenceFirstFor(t, payload)
    {
      StepKeepsEvidenceFirst(tasks, s, p, payload);
    }
  }

  lemma {:induction false} RunKeeps(tasks: seq<Task>, s: System, picks: seq<Pick>)
    requires Inv(tasks, s)
    ensures Inv(tasks, Run(tasks, s, picks))
    decreases |picks|
  {
    if picks != [] {
      StepKeeps(tasks, s, picks[0]);
      RunKeeps(tasks, Step(tasks, s, picks[0]), picks[1..]);
    }
  }

  lemma InitialHolds(tasks: seq<Task>)
    ensures Inv(tasks, Initial(tasks))
  {
    SumOfStarts(|tasks|, HELD_FRAMES);
    SumOfStarts(|tasks|, HELD_BYTES);
    forall payload
      ensures EvidenceFirstFor(Initial(tasks), payload)
    {
      SumOfStarts(|tasks|, Pending(payload));
    }
  }

  /** In every interleaving, frames and bytes are each conserved; exactly so while less than 2^64
      of them was ever added. */
  lemma DropsConserved(tasks: seq<Task>, picks: seq<Pick>)
    ensures var s := Run(tasks, Initial(tasks), picks);
            && Conserved(s)
            && (s.addedFrames < U64_MODULUS ==>
                  s.addedFrames == s.frames + Sum(s.pcs, HELD_FRAMES) + TotalFrames(s.summaries))
            && (s.addedBytes < U64_MODULUS ==>
                  s.addedBytes == s.bytes + Sum(s.pcs, HELD_BYTES) + TotalBytes(s.summaries))
  {
    InitialHolds(tasks);
    RunKeeps(tasks, Initial(tasks), picks);
  }

  // ---------------------------------------------------------------- what a last take reports

  lemma {:induction false} SumOfIdle(pcs: seq<Pc>, f: Pc -> nat)
    requires forall k :: 0 <= k < |pcs| ==> f(pcs[k]) == 0
    ensures Sum(pcs, f) == 0
    decreases |pcs|
  {
    if pcs != [] {
      SumOfIdle(pcs[..|pcs| - 1], f);
    }
  }

  /** Every task but emitter `i` is done, and `i` has not begun. */
  ghost predicate OnlyEmitterLeft(tasks: seq<Task>, s: System, i: nat) {
    && |s.pcs| == |tasks| && i < |tasks| && tasks[i] == EmitGap && s.pcs[i] == Start
    && forall k :: 0 <= k < |tasks| && k != i ==> s.pcs[k] == Finished
  }

  /** Emitter `i` from its first move to its last, with nobody in between. */
  function EmitAlone(s: System, i: nat): (t: System)
    requires i < |s.pcs|
    ensures |t.pcs| == |s.pcs|
  {
    var s1 := GapMove(s, i, true);
    var s2 := GapMove(s1, i, true);
    var s3 := GapMove(s2, i, true);
    var s4 := GapMove(s3, i, true);
    GapMove(s4, i, true)
  }

  lemma EmitAloneResult(s: System, i: nat)
    requires i < |s.pcs| && s.pcs[i] == Start
    ensures var t := EmitAlone(s, i);
            && t.pcs == s.pcs[i := Finished]
            && t.frames == 0
            && t.bytes == (if s.frames == 0 then s.bytes else 0)
            && t.summaries == s.summaries + if s.frames == 0 then [] else [Summary(s.frames, s.bytes, s.sinceMs)]
  {
    if s.frames != 0 {
      var s1 := GapMove(s, i, true);
      var s2 := GapMove(s1, i, true);
      var s3 := GapMove(s2, i, true);
      assert s1.pcs[i] == TookFrames(s.frames);
      assert s2.pcs[i] == TookBytes(s.frames, s.bytes);
      assert s3.pcs[i] == Took(Summary(s.frames, s.bytes, s.sinceMs));
      assert GapMove(s3, i, true).pcs[i].Logged?;
      assert EmitAlone(s, i).pcs == s.pcs[i := Finished];
    } else {
      assert GapMove(s, i, true).pcs[i] == Finished;
    }
  }

  lemma EmitAloneConserves(s: System, i: nat)
    requires Conserved(s) && i < |s.pcs| && s.pcs[i] == Start
    ensures Conserved(EmitAlone(s, i))
  {
    var s1 := GapMove(s, i, true);
    var s2 := GapMove(s1, i, true);
    var s3 := GapMove(s2, i, true);
    GapConserves(s, i, true);
    GapConserves(s1, i, true);
    GapConserves(s2, i, true);
    GapConserves(s3, i, true);
    GapConserves(GapMove(s3, i, true), i, true);
  }

  /** When all else is done, a last emitter leaves no frame unreported; it leaves no byte unreported
      exactly when it finds a frame, or there is no byte to find. */
  lemma LastTakeReportsAll(tasks: seq<Task>, picks: seq<Pick>, i: nat)
    requires OnlyEmitterLeft(tasks, Run(tasks, Initial(tasks), picks), i)
    ensures var s := Run(tasks, Initial(tasks), picks);
            var t := EmitAlone(s, i);
            && t.addedFrames == TotalFrames(t.summaries) + U64_MODULUS * t.frameWraps
            && (t.addedBytes == TotalBytes(t.summaries) + U64_MODULUS * t.byteWraps
                <==> s.frames != 0 || s.bytes == 0)
  {
    InitialHolds(tasks);
    RunKeeps(tasks, Initial(tasks), picks);
    var s := Run(tasks, Initial(tasks), picks);
    EmitAloneConserves(s, i);
    EmitAloneResult(s, i);
    var t := EmitAlone(s, i);
    SumOfIdle(t.pcs, HELD_FRAMES);
    SumOfIdle(t.pcs, HELD_BYTES);
  }

  lemma {:induction false} RunThen(tasks: seq<Task>, s: System, picks: seq<Pick>, p: Pick)
    requires |s.pcs| == |tasks|
    ensures Run(tasks, s, picks + [p]) == Step(tasks, Run(tasks, s, picks), p)
    decreases |picks|
  {
    if picks == [] {
      assert [p][1..] == [];
    } else {
      assert (picks + [p])[1..] == picks[1..] + [p];
      RunThen(tasks, Step(tasks, s, picks[0]), picks[1..], p);
    }
  }

  function StrandingTasks(size: nat): seq<Task> {
    [Drop(size), EmitGap, EmitGap]
  }

  /** The drop's first move, then a whole emitter, then the rest of the drop. */
  function StrandingPicks(now: nat): seq<Pick> {
    var d, g := Pick(0, true, now), Pick(1, true, now);
    [d, g, g, g, g, g, d, d]
  }

  function Stranding(size: nat, now: nat, n: nat): (s: System)
    requires n <= 8
    ensures |s.pcs| == 3
  {
    Run(StrandingTasks(size), Initial(StrandingTasks(size)), StrandingPicks(now)[..n])
  }

  lemma StrandingNext(size: nat, now: nat, n: nat)
    requires n < 8
    ensures Stranding(size, now, n + 1)
            == Step(StrandingTasks(size), Stranding(size, now, n), StrandingPicks(now)[n])
  {
    var tasks, picks := StrandingTasks(size), StrandingPicks(now);
    assert picks[..n + 1] == picks[..n] + [picks[n]];
    RunThen(tasks, Initial(tasks), picks[..n], picks[n]);
  }

  lemma DropCountsItsFrame(size: nat, now: nat)
    ensures var s := Stranding(size, now, 1);
            && s.frames == 1 && s.bytes == 0 && s.sinceMs == 0 && s.summaries == []
            && s.pcs == [StoreSince, Start, Start]
  {
    var s := Stranding(size, now, 0);
    assert s == Initial(StrandingTasks(size)) && s.pcs == [Start, Start, Start];
    StrandingNext(size, now, 0);
  }

  lemma EmitterTakesFrameOnly(size: nat, now: nat)
    ensures var s := Stranding(size, now, 4);
            && s.frames == 0 && s.bytes == 0 && s.summaries == [Summary(1, 0, 0)]
            && s.pcs == [StoreSince, Took(Summary(1, 0, 0)), Start]
  {
    DropCountsItsFrame(size, now);
    StrandingNext(size, now, 1);
    StrandingNext(size, now, 2);
    StrandingNext(size, now, 3);
  }

  lemma DropFinishesLater(size: nat, now: nat)
    requires size < U64_MODULUS
    ensures var s := Stranding(size, now, 8);
            && s.frames == 0 && s.bytes == size && s.summaries == [Summary(1, 0, 0)]
            && s.pcs == [Finished, Finished, Start]
  {
    EmitterTakesFrameOnly(size, now);
    StrandingNext(size, now, 4);
    StrandingNext(size, now, 5);
    StrandingNext(size, now, 6);
    StrandingNext(size, now, 7);
  }

  /** The other case happens: an emitter runs between a drop's frame and its bytes, and the next
      finds no frame, so no summary ever reports the bytes. */
  lemma BytesMayBeStranded(size: nat, now: nat)
    requires size < U64_MODULUS
    ensures var tasks := StrandingTasks(size);
            var s := Run(tasks, Initial(tasks), StrandingPicks(now));
            && OnlyEmitterLeft(tasks, s, 2)
            && s.frames == 0 && s.bytes == size
            && TotalBytes(EmitAlone(s, 2).summaries) == 0
  {
    assert StrandingPicks(now)[..8] == StrandingPicks(now);
    DropFinishesLater(size, now);
    var s := Stranding(size, now, 8);
    EmitAloneResult(s, 2);
    TotalsNext([], Summary(1, 0, 0));
    assert [] + [Summary(1, 0, 0)] == s.summaries;
  }

  function EventPayloads(log: seq<Entry>): (r: seq<Bytes>)
  {
    if log == [] then []
    else
      EventPayloads(log[..|log| - 1]) + if log[|log| - 1].Event? then [log[|log| - 1].payload] else []
  }

  lemma {:induction false} PayloadCount(log: seq<Entry>, payload: Bytes)
    ensures multiset(EventPayloads(log))[payload] == multiset(log)[Event(payload)]
    decreases |log|
  {
    if log != [] {
      var front, last := log[..|log| - 1], log[|log| - 1];
      assert log == front + [last];
      PayloadCount(front, payload);
      CountNext(front, last, Event(payload));
      if last.Event? {
        assert multiset(EventPayloads(log)) == multiset(EventPayloads(front)) + multiset{last.payload};
      }
    }
  }

  function Commitments(hash: Bytes -> Bytes, payloads: seq<Bytes>): seq<Bytes> {
    if payloads == [] then [] else Commitments(hash, payloads[..|payloads| - 1]) + [hash(payloads[|payloads| - 1])]
  }

  lemma CommitmentsNext(hash: Bytes -> Bytes, xs: seq<Bytes>, x: Bytes)
    ensures multiset(Commitments(hash, xs + [x])) == multiset(Commitments(hash, xs)) + multiset{hash(x)}
  {
    assert (xs + [x])[..|xs|] == xs;
    assert Commitments(hash, xs + [x]) == Commitments(hash, xs) + [hash(x)];
  }

  lemma {:induction false} CommitmentsWithout(hash: Bytes -> Bytes, xs: seq<Bytes>, x: Bytes, ys: seq<Bytes>)
    ensures multiset(Commitments(hash, xs + [x] + ys)) == multiset(Commitments(hash, xs + ys)) + multiset{hash(x)}
    decreases |ys|
  {
    if ys == [] {
      assert xs + [x] + ys == xs + [x] && xs + ys == xs;
      CommitmentsNext(hash, xs, x);
    } else {
      var front, last := ys[..|ys| - 1], ys[|ys| - 1];
      assert xs + [x] + ys == xs + [x] + front + [last] && xs + ys == xs + front + [last];
      CommitmentsWithout(hash, xs, x, front);
      CommitmentsNext(hash, xs + [x] + front, last);
      CommitmentsNext(hash, xs + front, last);
    }
  }

  lemma SplitAt(b: seq<Bytes>, x: Bytes) returns (before: seq<Bytes>, behind: seq<Bytes>)
    requires x in multiset(b)
    ensures b == before + [x] + behind
    ensures multiset(b) == multiset(before + behind) + multiset{x}
  {
    assert x in b;
    var i :| 0 <= i < |b| && b[i] == x;
    before, behind := b[..i], b[i + 1..];
    assert b == before + [x] + behind;
  }

  lemma CancelOne(m: multiset<Bytes>, n: multiset<Bytes>, x: Bytes)
    requires m + multiset{x} <= n + multiset{x}
    ensures m <= n
  {
    forall y
      ensures m[y] <= n[y]
    {
      assert (m + multiset{x})[y] <= (n + multiset{x})[y];
    }
  }

  lemma {:induction false} ContainedCommitments(hash: Bytes -> Bytes, a: seq<Bytes>, b: seq<Bytes>)
    requires multiset(a) <= multiset(b)
    ensures multiset(Commitments(hash, a)) <= multiset(Commitments(hash, b))
    decreases |a|
  {
    if a != [] {
      var front, last := a[..|a| - 1], a[|a| - 1];
      assert a == front + [last];
      assert multiset(a) == multiset(front) + multiset{last};
      var before, behind := SplitAt(b, last);
      CancelOne(multiset(front), multiset(before + behind), last);
      ContainedCommitments(hash, front, before + behind);
      CommitmentsWithout(hash, before, last, behind);
      CommitmentsNext(hash, front, last);
    }
  }

  /** In every interleaving, the multiset of event commitments in the audit chain is contained in
      the multiset of commitments of the events in the evidence log. */
  lemma EveryCommitmentHasEvidence(tasks: seq<Task>, picks: seq<Pick>, hash: Bytes -> Bytes)
    ensures var s := Run(tasks, Initial(tasks), picks);
            && multiset(EventPayloads(s.audit)) <= multiset(EventPayloads(s.evidence))
            && multiset(Commitments(hash, EventPayloads(s.audit)))
                 <= multiset(Commitments(hash, EventPayloads(s.evidence)))
  {
    InitialHolds(tasks);
    RunKeeps(tasks, Initial(tasks), picks);
    var s := Run(tasks, Initial(tasks), picks);
    forall payload
      ensures multiset(EventPayloads(s.audit))[payload] <= multiset(EventPayloads(s.evidence))[payload]
    {
      assert EvidenceFirstFor(s, payload);
      PayloadCount(s.audit, payload);
      PayloadCount(s.evidence, payload);
    }
    ContainedCommitments(hash, EventPayloads(s.audit), EventPayloads(s.evidence));
  }
}
