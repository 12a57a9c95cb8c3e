/** Who owes which log what: every event and coverage gap is in the evidence log and in the audit
    chain, still on its way there, or its call failed. */
module IngestAccounts {
  import opened Common
  import opened IngestInterleaving

  // ---------------------------------------------------------------- tallies over tasks

  function Tally(tasks: seq<Task>, pcs: seq<Pc>, f: (Task, Pc) -> nat): nat
    requires |tasks| == |pcs|
    decreases |pcs|
  {
    if pcs == [] then 0
    else
      var n := |pcs| - 1;
      Tally(tasks[..n], pcs[..n], f) + f(tasks[n], pcs[n])
  }

  lemma {:induction false} TallyAfterMove(tasks: seq<Task>, pcs: seq<Pc>, f: (Task, Pc) -> nat, i: nat, pc: Pc)
    requires |tasks| == |pcs| && i < |pcs|
    ensures Tally(tasks, pcs[i := pc], f) == Tally(tasks, pcs, f) - f(tasks[i], pcs[i]) + f(tasks[i], pc)
    decreases |pcs|
  {
    var n := |pcs| - 1;
    if i == n {
      assert pcs[i := pc][..n] == pcs[..n];
    } else {
      TallyAfterMove(tasks[..n], pcs[..n], f, i, pc);
      assert pcs[i := pc][..n] == pcs[..n][i := pc];
    }
  }

  lemma {:induction false} TallyOfIdle(tasks: seq<Task>, pcs: seq<Pc>, f: (Task, Pc) -> nat)
    requires |tasks| == |pcs|
    requires forall k :: 0 <= k < |pcs| ==> f(tasks[k], pcs[k]) == 0
    ensures Tally(tasks, pcs, f) == 0
    decreases |pcs|
  {
    if pcs != [] {
      var n := |pcs| - 1;
      TallyOfIdle(tasks[..n], pcs[..n], f);
    }
  }

  // ---------------------------------------------------------------- what is on its way

  /** The entry `x` is what this task's next call appends to the evidence log. */
  predicate Appends(task: Task, pc: Pc, x: Entry) {
    match x
    case Event(payload) => task == Ingest(payload) && pc == Start
    case CoverageGap(summary) => task == EmitGap && pc == Took(summary)
  }

  /** The entry `x` is what this task's next call commits to the audit chain. */
  predicate Commits(pc: Pc, x: Entry) {
    pc == Logged(x)
  }

  function Appending(x: Entry): (Task, Pc) -> nat {
    (task: Task, pc: Pc) => if Appends(task, pc, x) then 1 else 0
  }

  function Committing(x: Entry): (Task, Pc) -> nat {
    (task: Task, pc: Pc) => if Commits(pc, x) then 1 else 0
  }

  function FailsAppend(tasks: seq<Task>, s: System, p: Pick, x: Entry): nat
    requires |s.pcs| == |tasks|
  {
    if !p.ok && p.task < |tasks| && Appends(tasks[p.task], s.pcs[p.task], x) then 1 else 0
  }

  function FailsCommit(tasks: seq<Task>, s: System, p: Pick, x: Entry): nat
    requires |s.pcs| == |tasks|
  {
    if !p.ok && p.task < |tasks| && Commits(s.pcs[p.task], x) then 1 else 0
  }

  /** The failed evidence appends of `x` in the run of `picks`. */
  function FailedAppends(tasks: seq<Task>, picks: seq<Pick>, x: Entry): nat
    decreases |picks|
  {
    if picks == [] then 0
    else
      var before, p := Run(tasks, Initial(tasks), picks[..|picks| - 1]), picks[|picks| - 1];
      FailedAppends(tasks, picks[..|picks| - 1], x)
      + FailsAppend(tasks, before, p, x)
  }

  /** The failed audit calls for `x` in the run of `picks`. */
  function FailedCommits(tasks: seq<Task>, picks: seq<Pick>, x: Entry): nat
    decreases |picks|
  {
    if picks == [] then 0
    else
      var before, p := Run(tasks, Initial(tasks), picks[..|picks| - 1]), picks[|picks| - 1];
      FailedCommits(tasks, picks[..|picks| - 1], x)
      + FailsCommit(tasks, before, p, x)
  }

  /** The payloads the ingest tasks were given. */
  function IngestPayloads(tasks: seq<Task>): seq<Bytes> {
    if tasks == [] then []
    else
      IngestPayloads(tasks[..|tasks| - 1])
      + if tasks[|tasks| - 1].Ingest? then [tasks[|tasks| - 1].payload] else []
  }

  /** How often `x` is to be logged: once for each ingest of its payload, or each take of its summary. */
  function Owed(tasks: seq<Task>, s: System, x: Entry): nat {
    match x
    case Event(payload) => multiset(IngestPayloads(tasks))[payload]
    case CoverageGap(summary) => multiset(s.summaries)[summary]
  }

  /** The entries of `x` handed on to the audit chain: an event only once it is in evidence, a
      coverage gap even when it is not. */
  function HandedOn(s: System, x: Entry, failedAppends: nat): nat {
    multiset(s.evidence)[x] + if x.CoverageGap? then failedAppends else 0
  }

  ghost predicate Balanced(tasks: seq<Task>, s: System, x: Entry, failedAppends: nat, failedCommits: nat)
    requires |s.pcs| == |tasks|
  {
    && Owed(tasks, s, x) == multiset(s.evidence)[x] + failedAppends + Tally(tasks, s.pcs, Appending(x))
    && HandedOn(s, x, failedAppends) == multiset(s.audit)[x] + failedCommits + Tally(tasks, s.pcs, Committing(x))
  }

  // ---------------------------------------------------------------- one step

  lemma MoveTallies(tasks: seq<Task>, s: System, i: nat, pc: Pc, x: Entry)
    requires |s.pcs| == |tasks| && i < |tasks|
    ensures var a, c, t := Appending(x), Committing(x), s.pcs[i := pc];
            && Tally(tasks, t, a) == Tally(tasks, s.pcs, a) - a(tasks[i], s.pcs[i]) + a(tasks[i], pc)
            && Tally(tasks, t, c) == Tally(tasks, s.pcs, c) - c(tasks[i], s.pcs[i]) + c(tasks[i], pc)
  {
    TallyAfterMove(tasks, s.pcs, Appending(x), i, pc);
    TallyAfterMove(tasks, s.pcs, Committing(x), i, pc);
  }

  lemma SummaryNext(xs: seq<Summary>, y: Summary, x: Summary)
    ensures multiset(xs + [y])[x] == multiset(xs)[x] + if x == y then 1 else 0
  {
    assert multiset(xs + [y]) == multiset(xs) + multiset{y};
  }

  /** A move that touches no log, to and from a place where no call is about to be made. */
  lemma {:induction false} QuietMove(tasks: seq<Task>, s: System, t: System, i: nat, x: Entry, a: nat, c: nat)
    requires |s.pcs| == |tasks| && i < |tasks| && Balanced(tasks, s, x, a, c)
    requires |t.pcs| == |tasks| && t.pcs == s.pcs[i := t.pcs[i]]
    requires t.evidence == s.evidence && t.audit == s.audit && t.summaries == s.summaries
    requires !Commits(s.pcs[i], x) && !Commits(t.pcs[i], x)
    requires !Appends(tasks[i], s.pcs[i], x) && !Appends(tasks[i], t.pcs[i], x)
    ensures Balanced(tasks, t, x, a, c)
  {
    MoveTallies(tasks, s, i, t.pcs[i], x);
  }

  lemma {:induction false} DropBalances(tasks: seq<Task>, s: System, p: Pick, x: Entry, a: nat, c: nat)
    requires PcsFit(tasks, s) && p.task < |tasks| && tasks[p.task].Drop? && Balanced(tasks, s, x, a, c)
    ensures Balanced(tasks, Step(tasks, s, p), x, a, c)
    ensures FailsAppend(tasks, s, p, x) == FailsCommit(tasks, s, p, x) == 0
  {
    assert PcFits(tasks[p.task], s.pcs[p.task]);
    QuietMove(tasks, s, Step(tasks, s, p), p.task, x, a, c);
  }

  lemma IngestAppends(tasks: seq<Task>, s: System, p: Pick, x: Entry, a: nat, c: nat)
    requires PcsFit(tasks, s) && p.task < |tasks| && tasks[p.task].Ingest? && Balanced(tasks, s, x, a, c)
    requires s.pcs[p.task] == Start
    ensures Balanced(tasks, Step(tasks, s, p), x, a + FailsAppend(tasks, s, p, x), c)
    ensures FailsCommit(tasks, s, p, x) == 0
  {
    var i, t := p.task, Step(tasks, s, p);
    assert t.pcs == s.pcs[i := t.pcs[i]];
    MoveTallies(tasks, s, i, t.pcs[i], x);
    CountNext(s.evidence, Event(tasks[i].payload), x);
  }

  lemma {:induction false} IngestCommits(tasks: seq<Task>, s: System, p: Pick, x: Entry, a: nat, c: nat)
    requires PcsFit(tasks, s) && p.task < |tasks| && tasks[p.task].Ingest? && Balanced(tasks, s, x, a, c)
    requires s.pcs[p.task] == Logged(Event(tasks[p.task].payload))
    ensures Balanced(tasks, Step(tasks, s, p), x, a, c + FailsCommit(tasks, s, p, x))
    ensures FailsAppend(tasks, s, p, x) == 0
  {
    var i, t := p.task, Step(tasks, s, p);
    assert t.pcs == s.pcs[i := Finished];
    MoveTallies(tasks, s, i, Finished, x);
    CountNext(s.audit, Event(tasks[i].payload), x);
  }

  lemma IngestIdles(tasks: seq<Task>, s: System, p: Pick, x: Entry)
    requires PcsFit(tasks, s) && p.task < |tasks| && tasks[p.task].Ingest? && s.pcs[p.task] == Finished
    ensures Step(tasks, s, p) == s
    ensures FailsAppend(tasks, s, p, x) == FailsCommit(tasks, s, p, x) == 0
  {
  }

  lemma {:induction false} TakeBalances(tasks: seq<Task>, s: System, p: Pick, x: Entry, a: nat, c: nat)
    requires PcsFit(tasks, s) && p.task < |tasks| && tasks[p.task] == EmitGap && Balanced(tasks, s, x, a, c)
    requires !s.pcs[p.task].TookBytes? && !s.pcs[p.task].Took? && !s.pcs[p.task].Logged?
    ensures Balanced(tasks, Step(tasks, s, p), x, a, c)
    ensures FailsAppend(tasks, s, p, x) == FailsCommit(tasks, s, p, x) == 0
  {
    QuietMove(tasks, s, Step(tasks, s, p), p.task, x, a, c);
  }

  lemma {:induction false} SummaryBalances(tasks: seq<Task>, s: System, p: Pick, x: Entry, a: nat, c: nat)
    requires PcsFit(tasks, s) && p.task < |tasks| && tasks[p.task] == EmitGap && Balanced(tasks, s, x, a, c)
    requires s.pcs[p.task].TookBytes?
    ensures Balanced(tasks, Step(tasks, s, p), x, a, c)
    ensures FailsAppend(tasks, s, p, x) == FailsCommit(tasks, s, p, x) == 0
  {
    var i, t := p.task, Step(tasks, s, p);
    assert t.pcs == s.pcs[i := t.pcs[i]];
    MoveTallies(tasks, s, i, t.pcs[i], x);
    if x.CoverageGap? {
      SummaryNext(s.summaries, t.pcs[i].summary, x.summary);
    }
  }

  lemma GapAppends(tasks: seq<Task>, s: System, p: Pick, x: Entry, a: nat, c: nat)
    requires PcsFit(tasks, s) && p.task < |tasks| && tasks[p.task] == EmitGap && Balanced(tasks, s, x, a, c)
    requires s.pcs[p.task].Took?
    ensures Balanced(tasks, Step(tasks, s, p), x, a + FailsAppend(tasks, s, p, x), c)
    ensures FailsCommit(tasks, s, p, x) == 0
  {
    var i, t := p.task, Step(tasks, s, p);
    assert t.pcs == s.pcs[i := t.pcs[i]];
    MoveTallies(tasks, s, i, t.pcs[i], x);
    CountNext(s.evidence, CoverageGap(s.pcs[i].summary), x);
  }

  lemma GapCommits(tasks: seq<Task>, s: System, p: Pick, x: Entry, a: nat, c: nat)
    requires PcsFit(tasks, s) && p.task < |tasks| && tasks[p.task] == EmitGap && Balanced(tasks, s, x, a, c)
    requires s.pcs[p.task].Logged?
    ensures Balanced(tasks, Step(tasks, s, p), x, a, c + FailsCommit(tasks, s, p, x))
    ensures FailsAppend(tasks, s, p, x) == 0
  {
    var i, t := p.task, Step(tasks, s, p);
    assert t.pcs == s.pcs[i := t.pcs[i]];
    MoveTallies(tasks, s, i, t.pcs[i], x);
    CountNext(s.audit, s.pcs[i].entry, x);
  }

  lemma StepBalances(tasks: seq<Task>, s: System, p: Pick, x: Entry, a: nat, c: nat)
    requires PcsFit(tasks, s) && Balanced(tasks, s, x, a, c)
    ensures Balanced(tasks, Step(tasks, s, p), x, a + FailsAppend(tasks, s, p, x), c + FailsCommit(tasks, s, p, x))
  {
    if p.task < |tasks| {
      if tasks[p.task].Drop? {
        DropBalances(tasks, s, p, x, a, c);
      } else if tasks[p.task].Ingest? {
        if s.pcs[p.task] == Start {
          IngestAppends(tasks, s, p, x, a, c);
        } else if s.pcs[p.task].Logged? {
          assert PcFits(tasks[p.task], s.pcs[p.task]);
          IngestCommits(tasks, s, p, x, a, c);
        } else {
          assert PcFits(tasks[p.task], s.pcs[p.task]);
          IngestIdles(tasks, s, p, x);
        }
      } else if s.pcs[p.task].TookBytes? {
        SummaryBalances(tasks, s, p, x, a, c);
      } else if s.pcs[p.task].Took? {
        GapAppends(tasks, s, p, x, a, c);
      } else if s.pcs[p.task].Logged? {
        GapCommits(tasks, s, p, x, a, c);
      } else {
        TakeBalances(tasks, s, p, x, a, c);
      }
    }
  }

  // ---------------------------------------------------------------- every interleaving

  lemma {:induction false} PayloadsAreStarts(tasks: seq<Task>, pcs: seq<Pc>, payload: Bytes)
    requires |tasks| == |pcs| && forall k :: 0 <= k < |pcs| ==> pcs[k] == Start
    ensures Tally(tasks, pcs, Appending(Event(payload))) == multiset(IngestPayloads(tasks))[payload]
    decreases |tasks|
  {
    if tasks != [] {
      var n := |tasks| - 1;
      var front := IngestPayloads(tasks[..n]);
      PayloadsAreStarts(tasks[..n], pcs[..n], payload);
      if tasks[n].Ingest? {
        assert multiset(front + [tasks[n].payload]) == multiset(front) + multiset{tasks[n].payload};
      }
    }
  }

  lemma InitialBalances(tasks: seq<Task>, x: Entry)
    ensures Balanced(tasks, Initial(tasks), x, 0, 0)
  {
    var pcs := Initial(tasks).pcs;
    TallyOfIdle(tasks, pcs, Committing(x));
    match x {
      case Event(payload) => PayloadsAreStarts(tasks, pcs, payload);
      case CoverageGap(_) => TallyOfIdle(tasks, pcs, Appending(x));
    }
  }

  /** In every interleaving and for every entry: each ingest, and each summary taken, is in the
      evidence log, about to be appended, or its append failed; and each event in evidence, and each
      summary whose append was made or failed, is in the audit chain, about to be committed, or its
      audit call failed. */
  lemma {:induction false} EveryEntryAccountedFor(tasks: seq<Task>, picks: seq<Pick>, x: Entry)
    ensures Balanced(tasks, Run(tasks, Initial(tasks), picks), x,
                     FailedAppends(tasks, picks, x), FailedCommits(tasks, picks, x))
    decreases |picks|
  {
    if picks == [] {
      InitialBalances(tasks, x);
    } else {
      var front, p := picks[..|picks| - 1], picks[|picks| - 1];
      var s := Run(tasks, Initial(tasks), front);
      assert picks == front + [p];
      RunThen(tasks, Initial(tasks), front, p);
      InitialHolds(tasks);
      RunKeeps(tasks, Initial(tasks), front);
      EveryEntryAccountedFor(tasks, front, x);
      StepBalances(tasks, s, p, x, FailedAppends(tasks, front, x), FailedCommits(tasks, front, x));
    }
  }

  // ---------------------------------------------------------------- when nothing fails

  function GapSummaries(log: seq<Entry>): seq<Summary> {
    if log == [] then []
    else
      GapSummaries(log[..|log| - 1]) + if log[|log| - 1].CoverageGap? then [log[|log| - 1].summary] else []
  }

  lemma {:induction false} SummaryCount(log: seq<Entry>, summary: Summary)
    ensures multiset(GapSummaries(log))[summary] == multiset(log)[CoverageGap(summary)]
    decreases |log|
  {
    if log != [] {
      var front, last := log[..|log| - 1], log[|log| - 1];
      assert log == front + [last];
      SummaryCount(front, summary);
      CountNext(front, last, CoverageGap(summary));
      if last.CoverageGap? {
        SummaryNext(GapSummaries(front), last.summary, summary);
      }
    }
  }

  lemma {:induction false} NoneFails(tasks: seq<Task>, picks: seq<Pick>, x: Entry)
    requires forall k :: 0 <= k < |picks| ==> picks[k].ok
    ensures FailedAppends(tasks, picks, x) == FailedCommits(tasks, picks, x) == 0
    decreases |picks|
  {
    if picks != [] {
      NoneFails(tasks, picks[..|picks| - 1], x);
    }
  }

  ghost predicate AllFinished(s: System) {
    forall k :: 0 <= k < |s.pcs| ==> s.pcs[k] == Finished
  }

  lemma FinishedIsSettled(tasks: seq<Task>, picks: seq<Pick>, x: Entry)
    requires forall k :: 0 <= k < |picks| ==> picks[k].ok
    requires AllFinished(Run(tasks, Initial(tasks), picks))
    ensures var s := Run(tasks, Initial(tasks), picks);
            Owed(tasks, s, x) == multiset(s.evidence)[x] == multiset(s.audit)[x]
  {
    var s := Run(tasks, Initial(tasks), picks);
    NoneFails(tasks, picks, x);
    EveryEntryAccountedFor(tasks, picks, x);
    TallyOfIdle(tasks, s.pcs, Appending(x));
    TallyOfIdle(tasks, s.pcs, Committing(x));
  }

  lemma {:induction false} EventSettled(tasks: seq<Task>, picks: seq<Pick>, payload: Bytes)
    requires forall k :: 0 <= k < |picks| ==> picks[k].ok
    requires AllFinished(Run(tasks, Initial(tasks), picks))
    ensures var s := Run(tasks, Initial(tasks), picks);
            multiset(EventPayloads(s.audit))[payload] == multiset(EventPayloads(s.evidence))[payload]
            == multiset(IngestPayloads(tasks))[payload]
  {
    var s := Run(tasks, Initial(tasks), picks);
    FinishedIsSettled(tasks, picks, Event(payload));
    PayloadCount(s.audit, payload);
    PayloadCount(s.evidence, payload);
  }

  lemma {:induction false} GapSettled(tasks: seq<Task>, picks: seq<Pick>, summary: Summary)
    requires forall k :: 0 <= k < |picks| ==> picks[k].ok
    requires AllFinished(Run(tasks, Initial(tasks), picks))
    ensures var s := Run(tasks, Initial(tasks), picks);
            multiset(GapSummaries(s.audit))[summary] == multiset(GapSummaries(s.evidence))[summary]
            == multiset(s.summaries)[summary]
  {
    var s := Run(tasks, Initial(tasks), picks);
    FinishedIsSettled(tasks, picks, CoverageGap(summary));
    SummaryCount(s.audit, summary);
    SummaryCount(s.evidence, summary);
  }

  lemma SameCounts<T>(a: multiset<T>, b: multiset<T>, c: multiset<T>)
    requires forall x :: a[x] == b[x] == c[x]
    ensures a == b == c
  {
  }

  /** When every call succeeds and all tasks have finished, both logs hold exactly the ingested
      events and the summaries taken, each as often as it occurred. */
  lemma {:induction false} BothLogsHoldAll(tasks: seq<Task>, picks: seq<Pick>)
    requires forall k :: 0 <= k < |picks| ==> picks[k].ok
    requires AllFinished(Run(tasks, Initial(tasks), picks))
    ensures var s := Run(tasks, Initial(tasks), picks);
            && multiset(EventPayloads(s.audit)) == multiset(EventPayloads(s.evidence))
                 == multiset(IngestPayloads(tasks))
            && multiset(GapSummaries(s.audit)) == multiset(GapSummaries(s.evidence)) == multiset(s.summaries)
  {
    var s := Run(tasks, Initial(tasks), picks);
    var audited, logged := multiset(EventPayloads(s.audit)), multiset(EventPayloads(s.evidence));
    var given := multiset(IngestPayloads(tasks));
    forall payload
      ensures audited[payload] == logged[payload] == given[payload]
    {
      EventSettled(tasks, picks, payload);
    }
    SameCounts(audited, logged, given);
    var auditedGaps, loggedGaps := multiset(GapSummaries(s.audit)), multiset(GapSummaries(s.evidence));
    var taken := multiset(s.summaries);
    forall summary
      ensures auditedGaps[summary] == loggedGaps[summary] == taken[summary]
    {
      GapSettled(tasks, picks, summary);
    }
    SameCounts(auditedGaps, loggedGaps, taken);
  }

  // ---------------------------------------------------------------- what the drops add

  const DROPPED_FRAMES: (Task, Pc) -> nat := (task: Task, pc: Pc) => if task.Drop? && pc != Start then 1 else 0

  const DROPPED_BYTES: (Task, Pc) -> nat :=
    (task: Task, pc: Pc) => if task.Drop? && pc == Finished then task.frameBytes else 0

  ghost predicate AddedByDrops(tasks: seq<Task>, s: System)
    requires |s.pcs| == |tasks|
  {
    && s.addedFrames == Tally(tasks, s.pcs, DROPPED_FRAMES)
    && s.addedBytes == Tally(tasks, s.pcs, DROPPED_BYTES)
  }

  lemma StepAddsDrops(tasks: seq<Task>, s: System, p: Pick)
    requires PcsFit(tasks, s) && AddedByDrops(tasks, s)
    ensures AddedByDrops(tasks, Step(tasks, s, p))
  {
    if p.task < |tasks| {
      var i, t := p.task, Step(tasks, s, p);
      assert PcFits(tasks[i], s.pcs[i]);
      assert t.pcs == s.pcs[i := t.pcs[i]];
      TallyAfterMove(tasks, s.pcs, DROPPED_FRAMES, i, t.pcs[i]);
      TallyAfterMove(tasks, s.pcs, DROPPED_BYTES, i, t.pcs[i]);
    }
  }

  /** In every interleaving, what has been added is one frame for each drop that has begun and the
      size of each drop that has finished. */
  lemma {:induction false} DropsAreAdded(tasks: seq<Task>, picks: seq<Pick>)
    ensures AddedByDrops(tasks, Run(tasks, Initial(tasks), picks))
    decreases |picks|
  {
    if picks == [] {
      var pcs := Initial(tasks).pcs;
      TallyOfIdle(tasks, pcs, DROPPED_FRAMES);
      TallyOfIdle(tasks, pcs, DROPPED_BYTES);
    } else {
      var front, p := picks[..|picks| - 1], picks[|picks| - 1];
      assert picks == front + [p];
      RunThen(tasks, Initial(tasks), front, p);
      InitialHolds(tasks);
      RunKeeps(tasks, Initial(tasks), front);
      DropsAreAdded(tasks, front);
      StepAddsDrops(tasks, Run(tasks, Initial(tasks), front), p);
    }
  }

  // ---------------------------------------------------------------- the window of a summary

  /** A drop from its first move to its last, with nobody in between. */
  function DropAlone(s: System, i: nat, frameBytes: nat, now: nat): (t: System)
    requires i < |s.pcs|
    ensures |t.pcs| == |s.pcs|
  {
    var s1 := DropMove(s, i, frameBytes, now);
    var s2 := DropMove(s1, i, frameBytes, now);
    DropMove(s2, i, frameBytes, now)
  }

  datatype Dropped = Dropped(size: nat, atMs: nat)

  function Sizes(drops: seq<Dropped>): nat {
    if drops == [] then 0 else Sizes(drops[..|drops| - 1]) + drops[|drops| - 1].size
  }

  /** The counters after those drops, one after the other; task `k` makes drop `k`. */
  function DropInTurn(tasks: seq<Task>, drops: seq<Dropped>): (s: System)
    requires |drops| <= |tasks|
    ensures |s.pcs| == |tasks|
    decreases |drops|
  {
    if drops == [] then Initial(tasks)
    else
      var n := |drops| - 1;
      DropAlone(DropInTurn(tasks, drops[..n]), n, drops[n].size, drops[n].atMs)
  }

  lemma DropAloneResult(s: System, i: nat, size: nat, now: nat)
    requires i < |s.pcs| && s.pcs[i] == Start
    requires s.frames + 1 < U64_MODULUS && s.bytes + size < U64_MODULUS
    ensures var t := DropAlone(s, i, size, now);
            && t.frames == s.frames + 1 && t.bytes == s.bytes + size && t.summaries == s.summaries
            && t.sinceMs == (if s.frames == 0 then now else s.sinceMs)
            && t.pcs == s.pcs[i := Finished]
  {
    var s1 := DropMove(s, i, size, now);
    var s2 := DropMove(s1, i, size, now);
    if s.frames == 0 {
      assert s1.pcs[i] == StoreSince && s2.pcs[i] == AddBytes;
    } else {
      assert s1.pcs[i] == AddBytes && s2.pcs[i] == Finished;
    }
  }

  lemma {:induction false} DropInTurnResult(tasks: seq<Task>, drops: seq<Dropped>)
    requires |drops| <= |tasks|
    requires |drops| < U64_MODULUS && Sizes(drops) < U64_MODULUS
    ensures var s := DropInTurn(tasks, drops);
            && s.frames == |drops| && s.bytes == Sizes(drops) && s.summaries == []
            && (drops != [] ==> s.sinceMs == drops[0].atMs)
            && forall k :: |drops| <= k < |tasks| ==> s.pcs[k] == Start
    decreases |drops|
  {
    if drops != [] {
      var n := |drops| - 1;
      DropInTurnResult(tasks, drops[..n]);
      DropAloneResult(DropInTurn(tasks, drops[..n]), n, drops[n].size, drops[n].atMs);
    }
  }

  /** A take behind those drops reports how many there were, their size, and the first one's time. */
  lemma TakeReportsWindow(tasks: seq<Task>, drops: seq<Dropped>)
    requires drops != [] && |drops| < |tasks|
    requires |drops| < U64_MODULUS && Sizes(drops) < U64_MODULUS
    ensures EmitAlone(DropInTurn(tasks, drops), |drops|).summaries
            == [Summary(|drops|, Sizes(drops), drops[0].atMs)]
  {
    DropInTurnResult(tasks, drops);
    EmitAloneResult(DropInTurn(tasks, drops), |drops|);
  }
}
