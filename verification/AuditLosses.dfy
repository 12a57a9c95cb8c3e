/** The audit writer over every run, whatever happens to its writes: writes that fail while the process
    lives on included. Exactly which runs leave a store that verifies, and which leave one unbroken
    chain. */
module AuditLosses {
  import opened Common
  import opened AuditChain
  import opened AuditPersistence
  import opened AuditWriter

  // ---------------------------------------------------------------- what every run keeps

  ghost predicate AllAccepted(c: Crypto, files: SegmentFiles) {
    forall id <- files :: files[id].records != [] && Accepted(c, files[id])
  }

  /** The writer stands right behind the newest segment on disk. */
  ghost predicate Synced(w: Writer, files: SegmentFiles) {
    var k := NextId(files.Keys);
    w.nextSegmentId == k && w.tip == ResumeTip(files, k) && w.nextSeq == ResumeSeq(files, k)
  }

  /** What survives every fate of a write: stored segments are accepted on their own, and the writer's
      run hangs on its tip, past all stored ids. */
  ghost predicate Loose(c: Crypto, world: World) {
    && AllAccepted(c, world.files)
    && (world.Up? ==>
          && RunHolds(c, world.w.inner, world.w.tip, world.w.nextSeq)
          && |world.w.inner.records| < world.w.maxRecords
          && NextId(world.files.Keys) <= world.w.nextSegmentId
          && (NextId(world.files.Keys) == world.w.nextSegmentId ==> Synced(world.w, world.files)))
  }

  /** The writer after the records of a call, before it may rotate. */
  function Longer(setup: Setup, w: Writer, op: Op): Writer {
    if op.Observe? then
      w.(inner := Extend(setup.c, w.inner, NewRecord(setup, op.kind, op.payload, op.timestampUs)))
    else w
  }

  /** The call rotates. */
  predicate Rotates(setup: Setup, world: World, op: Op) {
    && world.Up?
    && match op
       case Observe(_, _, _, _) => |Longer(setup, world.w, op).inner.records| >= world.w.maxRecords
       case Flush(_) => world.w.inner.records != []
       case _ => false
  }

  /** The call puts a new segment on disk. */
  predicate Puts(setup: Setup, world: World, op: Op) {
    Rotates(setup, world, op) && (op.fate.Completes? || op.fate.DiesAfterRename?)
  }

  function PutSegment(setup: Setup, world: World, op: Op): Segment
    requires world.Up?
  {
    SignedSegment(Longer(setup, world.w, op).inner, world.w.nextSegmentId, setup.signer)
  }

  lemma StepFiles(setup: Setup, world: World, op: Op)
    ensures Step(setup, world, op).files ==
        if Puts(setup, world, op) then world.files[world.w.nextSegmentId := PutSegment(setup, world, op)] else world.files
  {
  }

  lemma LongerHolds(setup: Setup, world: World, op: Op)
    requires Loose(setup.c, world) && world.Up?
    ensures RunHolds(setup.c, Longer(setup, world.w, op).inner, world.w.tip, world.w.nextSeq)
    ensures Rotates(setup, world, op) ==> Longer(setup, world.w, op).inner.records != []
  {
    if op.Observe? {
      var record := NewRecord(setup, op.kind, op.payload, op.timestampUs);
      ExtendHolds(setup.c, world.w.inner, world.w.tip, world.w.nextSeq, record);
    }
  }

  /** The new segment is accepted, and starts where the writer stood. */
  lemma PutIsAccepted(setup: Setup, world: World, op: Op)
    requires Genuine(setup.c, setup.signer) && Loose(setup.c, world) && Puts(setup, world, op)
    ensures var s := PutSegment(setup, world, op);
            && s.records != [] && Accepted(setup.c, s)
            && s.records[0].prevHash == world.w.tip && s.records[0].record.seqNo == world.w.nextSeq
  {
    LongerHolds(setup, world, op);
    SignedSegmentAccepted(setup.c, Longer(setup, world.w, op).inner, world.w.tip, world.w.nextSeq,
                          world.w.nextSegmentId, setup.signer);
  }

  lemma NextIdAfter(files: SegmentFiles, id: nat, s: Segment)
    requires NextId(files.Keys) <= id
    ensures id !in files && NextId(files[id := s].Keys) == id + 1
  {
    NextIdUnique(files[id := s].Keys, id + 1, NextId(files[id := s].Keys));
  }

  /** Rotating moves the writer behind the segment it hands out, written or not. */
  lemma RotatedStands(setup: Setup, world: World, op: Op)
    requires Genuine(setup.c, setup.signer) && Loose(setup.c, world) && Rotates(setup, world, op)
    ensures var w := Rotated(Longer(setup, world.w, op)); var s := PutSegment(setup, world, op);
            && w.nextSegmentId == world.w.nextSegmentId + 1
            && RunHolds(setup.c, w.inner, w.tip, w.nextSeq)
            && Synced(w, world.files[world.w.nextSegmentId := s])
  {
    LongerHolds(setup, world, op);
    NextIdAfter(world.files, world.w.nextSegmentId, PutSegment(setup, world, op));
  }

  /** Every call keeps that much, whatever becomes of its write. */
  lemma AnyStepKeeps(setup: Setup, world: World, op: Op)
    requires Genuine(setup.c, setup.signer) && Loose(setup.c, world)
    ensures Loose(setup.c, Step(setup, world, op))
  {
    StepFiles(setup, world, op);
    if world.Up? {
      LongerHolds(setup, world, op);
    }
    if Puts(setup, world, op) {
      PutIsAccepted(setup, world, op);
    }
    if Rotates(setup, world, op) {
      RotatedStands(setup, world, op);
      NextIdAfter(world.files, world.w.nextSegmentId, PutSegment(setup, world, op));
    }
  }

  // ---------------------------------------------------------------- what one call can lose

  lemma {:induction false} PersistedPastEnd(files: SegmentFiles, n: nat)
    requires NextId(files.Keys) <= n
    ensures Persisted(files, n) == Persisted(files, NextId(files.Keys))
    decreases n
  {
    if NextId(files.Keys) < n {
      PersistedPastEnd(files, n - 1);
    }
  }

  lemma {:induction false} PersistedBelowPut(files: SegmentFiles, id: nat, s: Segment, n: nat)
    requires n <= id
    ensures Persisted(files[id := s], n) == Persisted(files, n)
    decreases n
  {
    if n > 0 {
      PersistedBelowPut(files, id, s, n - 1);
    }
  }

  lemma {:induction false} PersistedWithPut(files: SegmentFiles, id: nat, s: Segment)
    requires NextId(files.Keys) <= id
    ensures NextId(files[id := s].Keys) == id + 1
    ensures Persisted(files[id := s], id + 1) == Persisted(files, NextId(files.Keys)) + s.records
  {
    NextIdAfter(files, id, s);
    PersistedBelowPut(files, id, s, id);
    PersistedPastEnd(files, id);
  }

  /** The log of a writer past all stored ids: what is stored, then its open run. */
  lemma {:induction false} LogIsStoredThenOpen(c: Crypto, world: World)
    requires Loose(c, world)
    ensures LogOf(world) == Persisted(world.files, NextId(world.files.Keys)) + if world.Up? then world.w.inner.records else []
  {
    if world.Up? {
      PersistedPastEnd(world.files, world.w.nextSegmentId);
    }
  }

  lemma {:induction false} PutEmpties(setup: Setup, world: World, op: Op)
    requires Puts(setup, world, op)
    ensures var after := Step(setup, world, op); after.Up? ==> after.w.inner.records == []
  {
  }

  lemma {:induction false} PutLog(setup: Setup, world: World, op: Op)
    requires Genuine(setup.c, setup.signer) && Loose(setup.c, world) && Puts(setup, world, op)
    ensures LogOf(Step(setup, world, op))
         == Persisted(world.files, NextId(world.files.Keys)) + Longer(setup, world.w, op).inner.records
  {
    StepFiles(setup, world, op);
    AnyStepKeeps(setup, world, op);
    PutEmpties(setup, world, op);
    LogWithPut(setup.c, Step(setup, world, op), world.files, world.w.nextSegmentId, PutSegment(setup, world, op));
  }

  lemma {:induction false} LogWithPut(c: Crypto, after: World, files: SegmentFiles, id: nat, s: Segment)
    requires Loose(c, after) && NextId(files.Keys) <= id && after.files == files[id := s]
    requires after.Up? ==> after.w.inner.records == []
    ensures LogOf(after) == Persisted(files, NextId(files.Keys)) + s.records
  {
    LogIsStoredThenOpen(c, after);
    PersistedWithPut(files, id, s);
  }

  lemma {:induction false} AttemptedLog(setup: Setup, world: World, op: Op)
    requires Loose(setup.c, world) && world.Up?
    ensures Attempted(setup, world, op)
         == Persisted(world.files, NextId(world.files.Keys)) + Longer(setup, world.w, op).inner.records
  {
    LogIsStoredThenOpen(setup.c, world);
  }

  /** Every call, whatever becomes of its write: it loses no record but newest ones, at most a segment's
      worth, and none at all unless the process ends or a failed write is survived. */
  lemma {:induction false} AnyStepLosesAtMost(setup: Setup, world: World, op: Op)
    requires Genuine(setup.c, setup.signer) && Loose(setup.c, world)
    ensures var after := Step(setup, world, op);
            && LogOf(after) <= Attempted(setup, world, op)
            && (!Crashes(world, after) && !LosesSegment(world, op) ==> LogOf(after) == Attempted(setup, world, op))
            && (world.Up? ==> |Attempted(setup, world, op)| - |LogOf(after)| <= world.w.maxRecords)
  {
    var after := Step(setup, world, op);
    AnyStepKeeps(setup, world, op);
    StepFiles(setup, world, op);
    LogIsStoredThenOpen(setup.c, world);
    LogIsStoredThenOpen(setup.c, after);
    if world.Up? {
      AttemptedLog(setup, world, op);
      if Puts(setup, world, op) {
        PutLog(setup, world, op);
      }
    }
  }

  // ---------------------------------------------------------------- one more segment

  lemma {:induction false} PreviousByIds(files: SegmentFiles, more: SegmentFiles, id: nat)
    requires forall j: nat :: j < id ==> (j in files <==> j in more)
    ensures Previous(files, id) == Previous(more, id)
    decreases id
  {
    if id > 0 && id - 1 !in files {
      PreviousByIds(files, more, id - 1);
    }
  }

  lemma {:induction false} PreviousOfOlder(files: SegmentFiles, id: nat, s: Segment, j: nat)
    requires NextId(files.Keys) <= id && j in files
    ensures Previous(files[id := s], j) == Previous(files, j)
  {
    PreviousByIds(files, files[id := s], j);
  }

  lemma {:induction false} PreviousOfNewest(files: SegmentFiles, id: nat, s: Segment)
    requires NextId(files.Keys) <= id
    ensures Previous(files[id := s], id) == if files == map[] then None else Some(NextId(files.Keys) - 1)
  {
    var newest := NextId(files.Keys) - 1;
    if files != map[] {
      assert newest in files[id := s] && newest < id;
    }
  }

  /** The writer's tip is that of the newest stored segment, or nothing is stored. */
  ghost predicate LinksToNewest(tip: Digest, files: SegmentFiles) {
    files == map[] || tip == Tip(files[NextId(files.Keys) - 1])
  }

  ghost predicate OthersSound(c: Crypto, files: SegmentFiles, id: nat) {
    forall j <- files :: j != id ==> SegmentSound(c, files, j)
  }

  lemma {:induction false} OlderAsBefore(c: Crypto, files: SegmentFiles, id: nat, s: Segment, j: nat)
    requires NextId(files.Keys) <= id && j in files
    ensures SegmentSound(c, files[id := s], j) <==> SegmentSound(c, files, j)
  {
    PreviousOfOlder(files, id, s, j);
    assert files[id := s][j] == files[j];
  }

  lemma {:induction false} OthersAsBefore(c: Crypto, files: SegmentFiles, id: nat, s: Segment)
    requires NextId(files.Keys) <= id
    ensures OthersSound(c, files[id := s], id) <==> StoreSound(c, files)
  {
    forall j | j in files
      ensures SegmentSound(c, files[id := s], j) <==> SegmentSound(c, files, j)
    {
      OlderAsBefore(c, files, id, s, j);
    }
    assert id !in files;
    assert forall j :: j in files[id := s] && j != id <==> j in files;
  }

  lemma {:induction false} NewestContinues(files: SegmentFiles, id: nat, s: Segment)
    requires NextId(files.Keys) <= id && s.records != []
    ensures Continues(files[id := s], id) <==> LinksToNewest(s.records[0].prevHash, files)
  {
    PreviousOfNewest(files, id, s);
  }

  lemma {:induction false} NewestDecides(c: Crypto, more: SegmentFiles, id: nat)
    requires id in more && more[id].records != [] && Accepted(c, more[id])
    ensures StoreSound(c, more) <==> OthersSound(c, more, id) && Continues(more, id)
  {
    assert StoreSound(c, more) ==> SegmentSound(c, more, id);
  }

  /** A segment put behind all others: the store is sound afterwards if and only if it was before, and
      the segment links to the newest one. */
  lemma {:induction false} SoundWithNewest(c: Crypto, files: SegmentFiles, id: nat, s: Segment)
    requires NextId(files.Keys) <= id && s.records != [] && Accepted(c, s)
    ensures StoreSound(c, files[id := s]) <==> StoreSound(c, files) && LinksToNewest(s.records[0].prevHash, files)
  {
    OthersAsBefore(c, files, id, s);
    NewestContinues(files, id, s);
    NewestDecides(c, files[id := s], id);
  }

  /** One call: the store verifies afterwards if and only if it did before, and the call puts no
      segment on disk or the writer stood at the newest segment's tip. */
  lemma {:induction false} StepSoundIff(setup: Setup, world: World, op: Op)
    requires Genuine(setup.c, setup.signer) && Loose(setup.c, world)
    ensures StoreSound(setup.c, Step(setup, world, op).files) <==>
              StoreSound(setup.c, world.files) && (Puts(setup, world, op) ==> LinksToNewest(world.w.tip, world.files))
  {
    StepFiles(setup, world, op);
    if Puts(setup, world, op) {
      PutIsAccepted(setup, world, op);
      SoundWithNewest(setup.c, world.files, world.w.nextSegmentId, PutSegment(setup, world, op));
    }
  }

  // ---------------------------------------------------------------- which runs verify

  /** Whenever a call is about to put a segment on disk, the writer stands at the newest segment's tip,
      or there is none. */
  ghost predicate AlwaysLinked(setup: Setup, world: World, ops: seq<Op>)
    decreases |ops|
  {
    ops == [] ||
    (&& (Puts(setup, world, ops[0]) ==> LinksToNewest(world.w.tip, world.files))
     && AlwaysLinked(setup, Step(setup, world, ops[0]), ops[1..]))
  }

  /** Over every run, whatever becomes of its writes: `verify_all` accepts the store at the end if and
      only if it accepted it at the start, and every segment was put on disk by a writer that stood at
      the newest stored tip, or into an empty store. */
  lemma {:induction false} RunVerifiesIff(setup: Setup, start: World, ops: seq<Op>)
    requires Genuine(setup.c, setup.signer) && Loose(setup.c, start)
    ensures Loose(setup.c, RunAll(setup, start, ops))
    ensures StoreSound(setup.c, RunAll(setup, start, ops).files)
            <==> StoreSound(setup.c, start.files) && AlwaysLinked(setup, start, ops)
    decreases |ops|
  {
    if ops != [] {
      AnyStepKeeps(setup, start, ops[0]);
      StepSoundIff(setup, start, ops[0]);
      RunVerifiesIff(setup, Step(setup, start, ops[0]), ops[1..]);
    }
  }

  lemma EmptyStoreIsLoose(c: Crypto)
    ensures Loose(c, Down(map[])) && StoreSound(c, map[]) && DiskHolds(c, map[], NextId({}))
  {
    NextIdUnique({}, 0, NextId({}));
  }

  // ---------------------------------------------------------------- which runs leave one unbroken chain

  /** Whenever a call is about to put a segment on disk, it gets the id right behind the newest. */
  ghost predicate NoHole(setup: Setup, world: World, ops: seq<Op>)
    decreases |ops|
  {
    ops == [] ||
    (&& (Puts(setup, world, ops[0]) ==> world.w.nextSegmentId == NextId(world.files.Keys))
     && NoHole(setup, Step(setup, world, ops[0]), ops[1..]))
  }

  ghost predicate HasHole(files: SegmentFiles) {
    exists id: nat :: id < NextId(files.Keys) && id !in files
  }

  lemma {:induction false} HoleStays(setup: Setup, world: World, op: Op)
    requires Loose(setup.c, world)
    ensures HasHole(world.files) ==> HasHole(Step(setup, world, op).files)
    ensures Puts(setup, world, op) && world.w.nextSegmentId != NextId(world.files.Keys) ==>
              HasHole(Step(setup, world, op).files)
  {
    StepFiles(setup, world, op);
    if Puts(setup, world, op) {
      var files, k := world.files, NextId(world.files.Keys);
      var more := Step(setup, world, op).files;
      NextIdAfter(files, world.w.nextSegmentId, PutSegment(setup, world, op));
      if k < world.w.nextSegmentId {
        assert k !in more && k < NextId(more.Keys);
      }
      if id: nat :| id < k && id !in files {
        assert id < NextId(more.Keys) && id !in more;
      }
    }
  }

  lemma {:induction false} UnholedStepHolds(setup: Setup, world: World, op: Op)
    requires Genuine(setup.c, setup.signer) && Loose(setup.c, world)
    requires DiskHolds(setup.c, world.files, NextId(world.files.Keys))
    requires Puts(setup, world, op) ==> world.w.nextSegmentId == NextId(world.files.Keys)
    ensures var files := Step(setup, world, op).files; DiskHolds(setup.c, files, NextId(files.Keys))
  {
    StepFiles(setup, world, op);
    if Puts(setup, world, op) {
      var c, k := setup.c, NextId(world.files.Keys);
      var inner, s := Longer(setup, world.w, op).inner, PutSegment(setup, world, op);
      ResumePoint(c, world.files, k);
      LongerHolds(setup, world, op);
      PutIsAccepted(setup, world, op);
      NextIdAfter(world.files, k, s);
      assert GoodAt(c, inner.records, world.w.tip, world.w.nextSeq, |inner.records| - 1);
      DiskGrows(c, world.files, k, s);
    }
  }

  lemma {:induction false} HoleStaysToTheEnd(setup: Setup, start: World, ops: seq<Op>)
    requires Genuine(setup.c, setup.signer) && Loose(setup.c, start) && HasHole(start.files)
    ensures HasHole(RunAll(setup, start, ops).files)
    decreases |ops|
  {
    if ops != [] {
      AnyStepKeeps(setup, start, ops[0]);
      HoleStays(setup, start, ops[0]);
      HoleStaysToTheEnd(setup, Step(setup, start, ops[0]), ops[1..]);
    }
  }

  /** From an unbroken chain on disk, the end has one if no segment was put past a hole, and a hole in
      its ids otherwise. */
  lemma {:induction false} RunHoldsOrHasHole(setup: Setup, start: World, ops: seq<Op>)
    requires Genuine(setup.c, setup.signer) && Loose(setup.c, start)
    requires DiskHolds(setup.c, start.files, NextId(start.files.Keys))
    ensures var files := RunAll(setup, start, ops).files;
            if NoHole(setup, start, ops) then DiskHolds(setup.c, files, NextId(files.Keys)) else HasHole(files)
    decreases |ops|
  {
    if ops != [] {
      var next := Step(setup, start, ops[0]);
      AnyStepKeeps(setup, start, ops[0]);
      if Puts(setup, start, ops[0]) && start.w.nextSegmentId != NextId(start.files.Keys) {
        HoleStays(setup, start, ops[0]);
        HoleStaysToTheEnd(setup, next, ops[1..]);
      } else {
        UnholedStepHolds(setup, start, ops[0]);
        RunHoldsOrHasHole(setup, next, ops[1..]);
      }
    }
  }

  lemma {:induction false} AtLeastItsIndex(ids: seq<nat>, i: nat)
    requires SortedBy(BY_VALUE, ids) && i < |ids|
    ensures i <= ids[i]
  {
    if i > 0 {
      AtLeastItsIndex(ids, i - 1);
      assert BY_VALUE(ids[i - 1]) < BY_VALUE(ids[i]);
    }
  }

  lemma {:induction false} LeavesRoomBehind(ids: seq<nat>, i: nat, k: nat)
    requires SortedBy(BY_VALUE, ids) && i < |ids| && ids[|ids| - 1] < k
    ensures ids[i] + (|ids| - i) <= k
    decreases |ids| - i
  {
    if i < |ids| - 1 {
      LeavesRoomBehind(ids, i + 1, k);
      assert BY_VALUE(ids[i]) < BY_VALUE(ids[i + 1]);
    }
  }

  /** A listing of ids below the next one is shorter than that if one is missing. */
  lemma {:induction false} HoleIsMissed(files: SegmentFiles, ids: seq<nat>)
    requires IsListing(files, ids) && HasHole(files)
    ensures |ids| < NextId(files.Keys)
  {
    var k := NextId(files.Keys);
    var hole: nat :| hole < k && hole !in files;
    if hole < |ids| {
      assert ids[|ids| - 1] in ids && ids[hole] in ids;
      AtLeastItsIndex(ids, hole);
      LeavesRoomBehind(ids, hole, k);
    }
  }

  /** The invariant of runs that lose nothing is a special case, ... */
  lemma {:induction false} InvIsLoose(setup: Setup, world: World)
    requires Inv(setup.c, world)
    ensures Loose(setup.c, world) && DiskHolds(setup.c, world.files, NextId(world.files.Keys))
  {
    var c, files := setup.c, world.files;
    var k := if world.Up? then world.w.nextSegmentId else NextId(files.Keys);
    DiskHasNextId(c, files, k);
    DiskIsSound(c, files, k);
    ResumePoint(c, files, k);
    forall id | id in files
      ensures files[id].records != [] && Accepted(c, files[id])
    {
      assert SegmentInPlace(c, files, id) && SegmentSound(c, files, id);
    }
  }

  /** ... and such runs leave no hole. */
  lemma {:induction false} NoneLostNoHole(setup: Setup, start: World, ops: seq<Op>)
    requires Genuine(setup.c, setup.signer) && Inv(setup.c, start) && NoneLost(setup, start, ops)
    ensures NoHole(setup, start, ops)
    decreases |ops|
  {
    if start.Up? {
      DiskHasNextId(setup.c, start.files, start.w.nextSegmentId);
    }
    if ops != [] {
      StepKeeps(setup, start, ops[0]);
      NoneLostNoHole(setup, Step(setup, start, ops[0]), ops[1..]);
    }
  }

  /** Over every run from an unbroken chain on disk: at the end `verify_all` accepts one unbroken chain
      from genesis, numbered from 0, with exact counts, if and only if every segment was put on disk
      right behind the newest. */
  lemma {:induction false} EveryRunVerifiesIff(setup: Setup, start: World, ops: seq<Op>, ids: seq<nat>)
    requires Genuine(setup.c, setup.signer) && Loose(setup.c, start)
    requires DiskHolds(setup.c, start.files, NextId(start.files.Keys))
    requires IsListing(RunAll(setup, start, ops).files, ids)
    ensures DiskVerified(setup.c, RunAll(setup, start, ops).files, ids) <==> NoHole(setup, start, ops)
  {
    var files := RunAll(setup, start, ops).files;
    RunHoldsOrHasHole(setup, start, ops);
    if NoHole(setup, start, ops) {
      DiskVerifies(setup.c, files, ids);
    } else {
      HoleIsMissed(files, ids);
    }
  }

  // ---------------------------------------------------------------- one lost segment

  /** Calls that neither rotate nor end the process. */
  ghost predicate Quiet(setup: Setup, world: World, ops: seq<Op>)
    decreases |ops|
  {
    ops == [] ||
    (&& world.Up? && !ops[0].Kill? && !Rotates(setup, world, ops[0])
     && Quiet(setup, Step(setup, world, ops[0]), ops[1..]))
  }

  lemma {:induction false} QuietKeepsTip(setup: Setup, world: World, ops: seq<Op>)
    requires world.Up? && Quiet(setup, world, ops)
    ensures var end := RunAll(setup, world, ops); end.Up? && end.files == world.files && end.w.tip == world.w.tip
    decreases |ops|
  {
    if ops != [] {
      QuietKeepsTip(setup, Step(setup, world, ops[0]), ops[1..]);
    }
  }

  /** A segment is lost, others may have been before; the process lives on until it next puts one on
      disk. The store verifies then if and only if it did before, and nothing is stored or the lost
      segment ended in the newest stored tip. */
  lemma {:induction false} LostSegmentBreaksIff(setup: Setup, world: World, op: Op, quiet: seq<Op>, put: Op)
    requires Genuine(setup.c, setup.signer) && Loose(setup.c, world) && LosesSegment(world, op)
    requires Quiet(setup, Step(setup, world, op), quiet)
    requires Puts(setup, RunAll(setup, Step(setup, world, op), quiet), put)
    ensures var end := Step(setup, RunAll(setup, Step(setup, world, op), quiet), put);
            StoreSound(setup.c, end.files) <==>
              StoreSound(setup.c, world.files) && LinksToNewest(Tip(PutSegment(setup, world, op)), world.files)
  {
    var after := Step(setup, world, op);
    AnyStepKeeps(setup, world, op);
    LosingStep(setup, world, op);
    QuietKeepsTip(setup, after, quiet);
    RunVerifiesIff(setup, after, quiet);
    StepSoundIff(setup, RunAll(setup, after, quiet), put);
  }

  /** What a lost segment leaves: the disk as it was, and the writer at the lost segment's tip. */
  lemma {:induction false} LosingStep(setup: Setup, world: World, op: Op)
    requires Genuine(setup.c, setup.signer) && Loose(setup.c, world) && LosesSegment(world, op)
    ensures var after := Step(setup, world, op);
            && after.Up? && after.files == world.files && after.w.inner.records == []
            && after.w.nextSegmentId == world.w.nextSegmentId + 1
            && after.w.tip == Tip(PutSegment(setup, world, op))
  {
    RotatedStands(setup, world, op);
  }

  /** A restart takes up the newest stored tip, whatever was lost before. */
  lemma {:induction false} RestartLinks(files: SegmentFiles, limit: Option<nat>)
    ensures LinksToNewest(OpenStep(files, limit).tip, files)
    ensures OpenStep(files, limit).nextSegmentId == NextId(files.Keys)
  {
  }

  // ---------------------------------------------------------------- runs that lose segments

  /** A writer with segments of one record, between two of them. */
  ghost predicate OneByOne(world: World) {
    world.Up? && world.w.maxRecords == 1 && world.w.inner == FreshRun(world.w.tip, world.w.nextSeq)
  }

  function HashNext(setup: Setup, w: Writer, payload: Bytes): Digest {
    setup.c.recordHash(w.tip, NewRecord(setup, [], payload, 0).(seqNo := w.nextSeq))
  }

  lemma {:induction false} OneRecord(setup: Setup, world: World, payload: Bytes, fate: WriteFate)
    requires OneByOne(world) && (fate.Completes? || fate.Fails?)
    ensures var op := Observe([], payload, 0, fate);
            var after := Step(setup, world, op);
            && OneByOne(after)
            && after.w.tip == HashNext(setup, world.w, payload) == Tip(PutSegment(setup, world, op))
            && after.w.nextSeq == world.w.nextSeq + 1 && after.w.nextSegmentId == world.w.nextSegmentId + 1
            && (Puts(setup, world, op) <==> fate.Completes?)
            && (LosesSegment(world, op) <==> fate.Fails?)
            && after.files == if fate.Completes? then world.files[world.w.nextSegmentId := PutSegment(setup, world, op)]
                              else world.files
  {
  }

  lemma {:induction false} OpenedEmpty(setup: Setup, start: World)
    requires start == Down(map[])
    ensures var w := Step(setup, start, Open(Some(1)));
            OneByOne(w) && w.files == map[] && w.w.tip == GENESIS && w.w.nextSeq == 0 && w.w.nextSegmentId == 0
  {
    NextIdUnique({}, 0, NextId({}));
  }

  /** From a writer in front of an empty store: one segment written, one lost, one written. The store
      verifies if and only if the two records before the last have one hash. */
  lemma {:induction false} WrittenLostWritten(setup: Setup, world: World, a: Bytes, b: Bytes, d: Bytes)
    requires Genuine(setup.c, setup.signer) && Loose(setup.c, world) && OneByOne(world)
    requires world.files == map[] && world.w.nextSegmentId == 0
    ensures var w1 := Step(setup, world, Observe([], a, 0, Completes));
            var w2 := Step(setup, w1, Observe([], b, 0, Fails));
            var w3 := Step(setup, w2, Observe([], d, 0, Completes));
            && w1.Up? && LosesSegment(w1, Observe([], b, 0, Fails))
            && (StoreSound(setup.c, w3.files) <==> HashNext(setup, w1.w, b) == HashNext(setup, world.w, a))
  {
    var opA, opB, opD := Observe([], a, 0, Completes), Observe([], b, 0, Fails), Observe([], d, 0, Completes);
    var w1 := Step(setup, world, opA);
    var w2 := Step(setup, w1, opB);
    OneRecord(setup, world, a, Completes);
    OneRecord(setup, w1, b, Fails);
    OneRecord(setup, w2, d, Completes);
    AnyStepKeeps(setup, world, opA);
    AnyStepKeeps(setup, w1, opB);
    StepSoundIff(setup, world, opA);
    StepSoundIff(setup, w1, opB);
    StepSoundIff(setup, w2, opD);
    NextIdUnique(w2.files.Keys, 1, NextId(w2.files.Keys));
  }

  /** The first two lost, the third written: it goes unnoticed. */
  lemma {:induction false} LostLostWritten(setup: Setup, world: World, a: Bytes, b: Bytes, d: Bytes)
    requires Genuine(setup.c, setup.signer) && Loose(setup.c, world) && OneByOne(world) && world.files == map[]
    ensures var w1 := Step(setup, world, Observe([], a, 0, Fails));
            var w2 := Step(setup, w1, Observe([], b, 0, Fails));
            var w3 := Step(setup, w2, Observe([], d, 0, Completes));
            && LosesSegment(world, Observe([], a, 0, Fails)) && LosesSegment(w1, Observe([], b, 0, Fails))
            && w3.files.Keys == {world.w.nextSegmentId + 2} && StoreSound(setup.c, w3.files)
  {
    var opA, opB, opD := Observe([], a, 0, Fails), Observe([], b, 0, Fails), Observe([], d, 0, Completes);
    var w1 := Step(setup, world, opA);
    var w2 := Step(setup, w1, opB);
    OneRecord(setup, world, a, Fails);
    OneRecord(setup, w1, b, Fails);
    OneRecord(setup, w2, d, Completes);
    AnyStepKeeps(setup, world, opA);
    AnyStepKeeps(setup, w1, opB);
    StepSoundIff(setup, w2, opD);
  }

  lemma {:induction false} RunFour(setup: Setup, start: World, a: Op, b: Op, c: Op, d: Op)
    ensures RunAll(setup, start, [a, b, c, d])
         == Step(setup, Step(setup, Step(setup, Step(setup, start, a), b), c), d)
  {
    var wa := Step(setup, start, a);
    var wb := Step(setup, wa, b);
    RunFirst(setup, start, a, [b, c, d]);
    RunFirst(setup, wa, b, [c, d]);
    RunFirst(setup, wb, c, [d]);
    RunFirst(setup, Step(setup, wb, c), d, []);
    assert [a] + [b, c, d] == [a, b, c, d] && [b] + [c, d] == [b, c, d] && [c] + [d] == [c, d] && [d] + [] == [d];
  }

  lemma {:induction false} RunFirst(setup: Setup, start: World, op: Op, rest: seq<Op>)
    ensures RunAll(setup, start, [op] + rest) == RunAll(setup, Step(setup, start, op), rest)
  {
    assert ([op] + rest)[1..] == rest;
  }

  /** Losses before anything is stored go unnoticed, however many: a run with two of them. */
  lemma {:induction false} EarlyLossesUnnoticed(setup: Setup, start: World, a: Bytes, b: Bytes, d: Bytes)
    requires Genuine(setup.c, setup.signer) && start == Down(map[])
    ensures var ops := [Open(Some(1)), Observe([], a, 0, Fails), Observe([], b, 0, Fails), Observe([], d, 0, Completes)];
            var end := RunAll(setup, start, ops);
            end.files.Keys == {2} && StoreSound(setup.c, end.files)
  {
    EmptyStoreIsLoose(setup.c);
    OpenedEmpty(setup, start);
    AnyStepKeeps(setup, start, Open(Some(1)));
    LostLostWritten(setup, Step(setup, start, Open(Some(1))), a, b, d);
    RunFour(setup, start, Open(Some(1)), Observe([], a, 0, Fails), Observe([], b, 0, Fails),
            Observe([], d, 0, Completes));
  }

  const ONES: Digest :=
    [1, 1, 1, 1, 1, 1, 1, 1, 1, 1, 1, 1, 1, 1, 1, 1, 1, 1, 1, 1, 1, 1, 1, 1, 1, 1, 1, 1, 1, 1, 1, 1]

  /** A hash that tells the first record from the others, and a scheme that takes any signature. */
  function SomeSetup(): Setup {
    Setup(Crypto((_, r: AuditRecord) => if r.seqNo == 0 then GENESIS else ONES, _ => GENESIS, (_, _, _) => true),
          Signer([], _ => []), [])
  }

  /** A run from the empty store that ends with a store `verify_all` rejects, though nothing but the
      writer touched it. */
  lemma {:induction false} LossIsRejected(start: World, a: Bytes, b: Bytes, d: Bytes)
    requires start == Down(map[])
    ensures var ops := [Open(Some(1)), Observe([], a, 0, Completes), Observe([], b, 0, Fails), Observe([], d, 0, Completes)];
            Genuine(SomeSetup().c, SomeSetup().signer) && !StoreSound(SomeSetup().c, RunAll(SomeSetup(), start, ops).files)
  {
    var setup := SomeSetup();
    var resumed := Step(setup, start, Open(Some(1)));
    EmptyStoreIsLoose(setup.c);
    OpenedEmpty(setup, start);
    AnyStepKeeps(setup, start, Open(Some(1)));
    WrittenLostWritten(setup, resumed, a, b, d);
    OneRecord(setup, resumed, a, Completes);
    HashesDiffer(setup, resumed.w, Step(setup, resumed, Observe([], a, 0, Completes)).w, a, b);
    RunFour(setup, start, Open(Some(1)), Observe([], a, 0, Completes), Observe([], b, 0, Fails),
            Observe([], d, 0, Completes));
  }

  lemma {:induction false} HashesDiffer(setup: Setup, w: Writer, w1: Writer, a: Bytes, b: Bytes)
    requires setup == SomeSetup() && w.nextSeq == 0 && w1.nextSeq == 1
    ensures HashNext(setup, w1, b) != HashNext(setup, w, a)
  {
    assert ONES[0] != GENESIS[0];
  }
}
