/** The audit chain writer over the segment store: appending, rotation, flushing, crashing at any
    write and reopening. Value model and runs first, then the class. */
module AuditWriter {
  import opened Common
  import opened AuditChain
  import opened AuditPersistence

  const DEFAULT_MAX_RECORDS: nat := 1000

  datatype Writer = Writer(inner: Run, tip: Digest, nextSeq: nat, nextSegmentId: nat, maxRecords: nat)

  /** The process with its store, or the store alone after the process ended. */
  datatype World =
    | Up(w: Writer, files: SegmentFiles)
    | Down(files: SegmentFiles)

  /** What stays the same over all sessions. */
  datatype Setup = Setup(c: Crypto, signer: Signer, tenantId: Bytes)

  datatype Op =
    | Open(limit: Option<nat>)
    | Observe(kind: Bytes, payload: Bytes, timestampUs: int, fate: WriteFate)
    | Flush(fate: WriteFate)
    | Kill

  // ---------------------------------------------------------------- one call

  function NewRecord(setup: Setup, kind: Bytes, payload: Bytes, timestampUs: int): AuditRecord {
    AuditRecord(0, timestampUs, setup.tenantId, kind, setup.c.commitment(payload), false)
  }

  function Rotated(w: Writer): Writer
    requires w.inner.records != []
  {
    var last := w.inner.records[|w.inner.records| - 1];
    var tip, nextSeq := last.recordHash, last.record.seqNo + 1;
    w.(inner := FreshRun(tip, nextSeq), tip := tip, nextSeq := nextSeq, nextSegmentId := w.nextSegmentId + 1)
  }

  function CloseStep(setup: Setup, w: Writer, files: SegmentFiles, fate: WriteFate): World {
    if w.inner.records == [] then Up(w, files)
    else
      var segment := SignedSegment(w.inner, w.nextSegmentId, setup.signer);
      match fate
      case Completes => Up(Rotated(w), files[w.nextSegmentId := segment])
      case Fails => Up(Rotated(w), files)
      case DiesBeforeRename => Down(files)
      case DiesAfterRename => Down(files[w.nextSegmentId := segment])
  }

  function ObserveStep(setup: Setup, w: Writer, files: SegmentFiles, record: AuditRecord, fate: WriteFate): World {
    var longer := w.(inner := Extend(setup.c, w.inner, record));
    if |longer.inner.records| >= longer.maxRecords then CloseStep(setup, longer, files, fate)
    else Up(longer, files)
  }

  function MaxRecords(limit: Option<nat>): nat {
    match limit
    case None => DEFAULT_MAX_RECORDS
    case Some(n) => Max(n, 1)
  }

  /** The digest the chain on disk ends in, and the number its next record gets. */
  function ResumeTip(files: SegmentFiles, next: nat): Digest
    requires next == 0 || next - 1 in files
  {
    if next == 0 then GENESIS else Tip(files[next - 1])
  }

  function ResumeSeq(files: SegmentFiles, next: nat): nat
    requires next == 0 || next - 1 in files
  {
    if next == 0 || files[next - 1].records == [] then 0
    else
      var records := files[next - 1].records;
      records[|records| - 1].record.seqNo + 1
  }

  ghost function OpenStep(files: SegmentFiles, limit: Option<nat>): Writer {
    var next := NextId(files.Keys);
    var tip, seqNo := ResumeTip(files, next), ResumeSeq(files, next);
    Writer(FreshRun(tip, seqNo), tip, seqNo, next, MaxRecords(limit))
  }

  ghost function Step(setup: Setup, world: World, op: Op): World {
    match (world, op)
    case (Down(files), Open(limit)) => Up(OpenStep(files, limit), files)
    case (Up(w, files), Observe(kind, payload, timestampUs, fate)) =>
      ObserveStep(setup, w, files, NewRecord(setup, kind, payload, timestampUs), fate)
    case (Up(w, files), Flush(fate)) => CloseStep(setup, w, files, fate)
    case (Up(w, files), Kill) => Down(files)
    case _ => world
  }

  // ---------------------------------------------------------------- the chain on disk

  /** The records of segments `0..k`, in order. */
  function Persisted(files: SegmentFiles, k: nat): seq<ChainedRecord> {
    if k == 0 then []
    else Persisted(files, k - 1) + if k - 1 in files then files[k - 1].records else []
  }

  function CountBelow(files: SegmentFiles, k: nat): nat {
    |Persisted(files, k)|
  }

  function TipBelow(files: SegmentFiles, k: nat): Digest {
    if k == 0 || k - 1 !in files then GENESIS else Tip(files[k - 1])
  }

  ghost predicate SegmentInPlace(c: Crypto, files: SegmentFiles, i: nat) {
    && i in files
    && files[i].records != []
    && Chained(c, files[i].records, TipBelow(files, i), CountBelow(files, i), |files[i].records|)
    && c.verifies(files[i].signerPubkey, Tip(files[i]), files[i].tipSignature)
  }

  /** Exactly the segments `0..k`, each continuing the one before, from genesis and number 0. */
  ghost predicate DiskHolds(c: Crypto, files: SegmentFiles, k: nat) {
    && (forall i <- files :: i < k)
    && (forall i :: 0 <= i < k ==> SegmentInPlace(c, files, i))
  }

  ghost predicate WriterHolds(c: Crypto, w: Writer, files: SegmentFiles) {
    && DiskHolds(c, files, w.nextSegmentId)
    && w.tip == TipBelow(files, w.nextSegmentId)
    && w.nextSeq == CountBelow(files, w.nextSegmentId)
    && RunHolds(c, w.inner, w.tip, w.nextSeq)
    && |w.inner.records| < w.maxRecords
  }

  ghost predicate Inv(c: Crypto, world: World) {
    match world
    case Up(w, files) => WriterHolds(c, w, files)
    case Down(files) => DiskHolds(c, files, NextId(files.Keys))
  }

  lemma DiskHasNextId(c: Crypto, files: SegmentFiles, k: nat)
    requires DiskHolds(c, files, k)
    ensures NextId(files.Keys) == k
  {
    assert k > 0 ==> SegmentInPlace(c, files, k - 1);
    NextIdUnique(files.Keys, k, NextId(files.Keys));
  }

  lemma {:induction false} PersistedAgree(files: SegmentFiles, more: SegmentFiles, k: nat)
    requires forall i :: 0 <= i < k ==> i in files && i in more && files[i] == more[i]
    ensures Persisted(files, k) == Persisted(more, k) && TipBelow(files, k) == TipBelow(more, k)
  {
    if k > 0 {
      PersistedAgree(files, more, k - 1);
    }
  }

  /** Adding the next segment of the chain. */
  lemma DiskGrows(c: Crypto, files: SegmentFiles, k: nat, segment: Segment)
    requires DiskHolds(c, files, k) && segment.records != []
    requires Chained(c, segment.records, TipBelow(files, k), CountBelow(files, k), |segment.records|)
    requires c.verifies(segment.signerPubkey, Tip(segment), segment.tipSignature)
    ensures DiskHolds(c, files[k := segment], k + 1)
    ensures Persisted(files[k := segment], k + 1) == Persisted(files, k) + segment.records
  {
    var more := files[k := segment];
    forall i | 0 <= i <= k
      ensures Persisted(files, i) == Persisted(more, i) && TipBelow(files, i) == TipBelow(more, i)
    {
      forall j | 0 <= j < i
        ensures j in files && j in more && files[j] == more[j]
      {
        assert SegmentInPlace(c, files, j);
      }
      PersistedAgree(files, more, i);
    }
    forall i | 0 <= i < k + 1
      ensures SegmentInPlace(c, more, i)
    {
      assert i < k ==> SegmentInPlace(c, files, i);
    }
  }

  /** The number and link a run has to start with follow from the last segment on disk. */
  lemma ResumePoint(c: Crypto, files: SegmentFiles, k: nat)
    requires DiskHolds(c, files, k)
    ensures k == 0 || k - 1 in files
    ensures ResumeTip(files, k) == TipBelow(files, k) && ResumeSeq(files, k) == CountBelow(files, k)
  {
    if k > 0 {
      assert SegmentInPlace(c, files, k - 1);
      var records := files[k - 1].records;
      assert GoodAt(c, records, TipBelow(files, k - 1), CountBelow(files, k - 1), |records| - 1);
    }
  }

  // ---------------------------------------------------------------- every call keeps the chain

  /** Everything the chain holds: on disk, then in the open run. */
  ghost function LogOf(world: World): seq<ChainedRecord> {
    match world
    case Up(w, files) => Persisted(files, w.nextSegmentId) + w.inner.records
    case Down(files) => Persisted(files, NextId(files.Keys))
  }

  /** The call rotates into a segment whose write fails, and the process lives on. */
  predicate LosesSegment(world: World, op: Op) {
    && world.Up?
    && match op
       case Observe(_, _, _, fate) => fate.Fails? && |world.w.inner.records| + 1 >= world.w.maxRecords
       case Flush(fate) => fate.Fails? && world.w.inner.records != []
       case _ => false
  }

  lemma CloseKeeps(setup: Setup, w: Writer, files: SegmentFiles, fate: WriteFate)
    requires fate.Fails? ==> w.inner.records == []
    requires Genuine(setup.c, setup.signer)
    requires WriterHolds(setup.c, w.(maxRecords := |w.inner.records| + 1), files) && 0 < w.maxRecords
    requires w.inner.records == [] || |w.inner.records| <= w.maxRecords
    ensures Inv(setup.c, CloseStep(setup, w, files, fate))
    ensures LogOf(CloseStep(setup, w, files, fate)) ==
        Persisted(files, w.nextSegmentId) + (if fate.DiesBeforeRename? then [] else w.inner.records)
  {
    var k := w.nextSegmentId;
    DiskHasNextId(setup.c, files, k);
    if w.inner.records != [] {
      var n := |w.inner.records|;
      var segment := SignedSegment(w.inner, k, setup.signer);
      DiskGrows(setup.c, files, k, segment);
      DiskHasNextId(setup.c, files[k := segment], k + 1);
      assert GoodAt(setup.c, w.inner.records, w.tip, w.nextSeq, n - 1);
    }
  }

  /** The log this call tries to reach. */
  ghost function Attempted(setup: Setup, world: World, op: Op): seq<ChainedRecord> {
    if world.Up? && op.Observe? then
      LogOf(world) + [NextLink(setup.c, world.w.inner, NewRecord(setup, op.kind, op.payload, op.timestampUs))]
    else LogOf(world)
  }

  predicate Crashes(world: World, after: World) {
    world.Up? && after.Down?
  }

  /** One call keeps the chain; the log changes by exactly the observed record, and only a crash
      loses records: the newest ones, at most `maxRecords` of them. */
  lemma StepKeeps(setup: Setup, world: World, op: Op)
    requires Genuine(setup.c, setup.signer) && Inv(setup.c, world) && !LosesSegment(world, op)
    ensures var after := Step(setup, world, op);
            && Inv(setup.c, after)
            && LogOf(after) <= Attempted(setup, world, op)
            && (!Crashes(world, after) ==> LogOf(after) == Attempted(setup, world, op))
            && (world.Up? ==> |Attempted(setup, world, op)| - |LogOf(after)| <= world.w.maxRecords)
  {
    var c := setup.c;
    match (world, op)
    case (Down(files), Open(limit)) =>
      ResumePoint(c, files, NextId(files.Keys));
    case (Up(w, files), Observe(kind, payload, timestampUs, fate)) =>
      var record := NewRecord(setup, kind, payload, timestampUs);
      ExtendHolds(c, w.inner, w.tip, w.nextSeq, record);
      var longer := w.(inner := Extend(c, w.inner, record));
      if |longer.inner.records| >= longer.maxRecords {
        CloseKeeps(setup, longer, files, fate);
      }
    case (Up(w, files), Flush(fate)) =>
      CloseKeeps(setup, w, files, fate);
    case (Up(w, files), Kill) =>
      DiskHasNextId(c, files, w.nextSegmentId);
    case _ =>
  }

  /** No call of the run loses a segment that way. */
  ghost predicate NoneLost(setup: Setup, world: World, ops: seq<Op>)
    decreases |ops|
  {
    ops == [] || (!LosesSegment(world, ops[0]) && NoneLost(setup, Step(setup, world, ops[0]), ops[1..]))
  }

  ghost function RunAll(setup: Setup, world: World, ops: seq<Op>): World
    decreases |ops|
  {
    if ops == [] then world else RunAll(setup, Step(setup, world, ops[0]), ops[1..])
  }

  lemma {:induction false} RunKeeps(setup: Setup, world: World, ops: seq<Op>)
    requires Genuine(setup.c, setup.signer) && Inv(setup.c, world) && NoneLost(setup, world, ops)
    ensures Inv(setup.c, RunAll(setup, world, ops))
    decreases |ops|
  {
    if ops != [] {
      StepKeeps(setup, world, ops[0]);
      RunKeeps(setup, Step(setup, world, ops[0]), ops[1..]);
    }
  }

  // ---------------------------------------------------------------- what every run guarantees

  lemma {:induction false} ChainedConcat(c: Crypto, a: seq<ChainedRecord>, b: seq<ChainedRecord>,
                                         anchor: Digest, start: nat)
    requires Chained(c, a, anchor, start, |a|)
    requires Chained(c, b, LinkTo(a, anchor, |a|), start + |a|, |b|)
    ensures Chained(c, a + b, anchor, start, |a + b|)
    ensures LinkTo(a + b, anchor, |a + b|) == if b == [] then LinkTo(a, anchor, |a|) else b[|b| - 1].recordHash
  {
    forall i | 0 <= i < |a + b|
      ensures GoodAt(c, a + b, anchor, start, i)
    {
      if i < |a| {
        assert GoodAt(c, a, anchor, start, i);
      } else {
        assert GoodAt(c, b, LinkTo(a, anchor, |a|), start + |a|, i - |a|);
      }
    }
  }

  /** The records on disk are one chain from genesis, numbered from 0 without gap. */
  lemma {:induction false} PersistedIsOneChain(c: Crypto, files: SegmentFiles, k: nat)
    requires forall i :: 0 <= i < k ==> SegmentInPlace(c, files, i)
    ensures var all := Persisted(files, k);
            && Chained(c, all, GENESIS, 0, |all|)
            && LinkTo(all, GENESIS, |all|) == TipBelow(files, k)
  {
    if k > 0 {
      PersistedIsOneChain(c, files, k - 1);
      assert SegmentInPlace(c, files, k - 1);
      OneMoreSegment(c, files, k - 1);
    }
  }

  lemma OneMoreSegment(c: Crypto, files: SegmentFiles, k: nat)
    requires SegmentInPlace(c, files, k)
    requires Chained(c, Persisted(files, k), GENESIS, 0, CountBelow(files, k))
    requires LinkTo(Persisted(files, k), GENESIS, CountBelow(files, k)) == TipBelow(files, k)
    ensures var all := Persisted(files, k + 1);
            && Chained(c, all, GENESIS, 0, |all|)
            && LinkTo(all, GENESIS, |all|) == TipBelow(files, k + 1)
  {
    var before, own := Persisted(files, k), files[k].records;
    assert Persisted(files, k + 1) == before + own;
    ChainedConcat(c, before, own, GENESIS, 0);
    assert (before + own)[|before + own| - 1] == own[|own| - 1];
  }

  lemma DiskIsSound(c: Crypto, files: SegmentFiles, k: nat)
    requires DiskHolds(c, files, k)
    ensures StoreSound(c, files)
  {
    forall id | id in files
      ensures SegmentSound(c, files, id)
    {
      assert SegmentInPlace(c, files, id);
      assert GoodAt(c, files[id].records, TipBelow(files, id), CountBelow(files, id), 0);
      if id > 0 {
        assert SegmentInPlace(c, files, id - 1);
        assert Previous(files, id) == Some(id - 1);
      }
    }
  }

  /** A sorted listing of `0..k` lists each id at its own position. */
  lemma {:induction false} ListedAtItself(files: SegmentFiles, ids: seq<nat>, k: nat, i: nat)
    requires IsListing(files, ids) && (forall id :: id in files <==> 0 <= id < k)
    requires i < |ids|
    ensures ids[i] == i && i < k
  {
    assert ids[i] in ids && ids[i] in files;
    if i > 0 {
      ListedAtItself(files, ids, k, i - 1);
    }
    ListingPrevious(files, ids, i);
    assert ids[i] > 0 ==> ids[i] - 1 in files;
  }

  lemma {:induction false} ListingCounts(files: SegmentFiles, ids: seq<nat>, k: nat, i: nat)
    requires IsListing(files, ids) && (forall id :: id in files <==> 0 <= id < k)
    requires i <= |ids|
    ensures RecordsIn(files, ids[..i]) == CountBelow(files, i)
  {
    if i > 0 {
      ListingCounts(files, ids, k, i - 1);
      ListedAtItself(files, ids, k, i - 1);
      assert ids[..i][..i - 1] == ids[..i - 1];
    }
  }

  lemma ListingLength(files: SegmentFiles, ids: seq<nat>, k: nat)
    requires IsListing(files, ids) && (forall id :: id in files <==> 0 <= id < k)
    ensures |ids| == k && RecordsIn(files, ids) == CountBelow(files, k)
  {
    if |ids| > 0 {
      ListedAtItself(files, ids, k, |ids| - 1);
    }
    if k > 0 {
      assert k - 1 in files && k - 1 in ids;
      var j :| 0 <= j < |ids| && ids[j] == k - 1;
      ListedAtItself(files, ids, k, j);
    }
    ListingCounts(files, ids, k, |ids|);
    assert ids[..|ids|] == ids;
  }

  lemma NumberedFromZero(c: Crypto, files: SegmentFiles, k: nat)
    requires DiskHolds(c, files, k)
    ensures var all := Persisted(files, k);
            && Chained(c, all, GENESIS, 0, |all|)
            && (forall i :: 0 <= i < |all| ==> all[i].record.seqNo == i)
  {
    PersistedIsOneChain(c, files, k);
    var all := Persisted(files, k);
    forall i | 0 <= i < |all|
      ensures all[i].record.seqNo == i
    {
      assert GoodAt(c, all, GENESIS, 0, i);
    }
  }

  /** `verify_all` accepts the store and reports exactly the segments and records on disk, which
      are one chain from genesis numbered from 0. */
  ghost predicate DiskVerified(c: Crypto, files: SegmentFiles, ids: seq<nat>) {
    var k := NextId(files.Keys);
    var all := Persisted(files, k);
    && StoreSound(c, files)
    && IsListing(files, ids) && |ids| == k && RecordsIn(files, ids) == |all|
    && Chained(c, all, GENESIS, 0, |all|)
    && (forall i :: 0 <= i < |all| ==> all[i].record.seqNo == i)
  }

  lemma DiskVerifies(c: Crypto, files: SegmentFiles, ids: seq<nat>)
    requires DiskHolds(c, files, NextId(files.Keys)) && IsListing(files, ids)
    ensures DiskVerified(c, files, ids)
  {
    var k := NextId(files.Keys);
    DiskIsSound(c, files, k);
    NumberedFromZero(c, files, k);
    forall id: nat
      ensures id in files <==> 0 <= id < k
    {
      assert id < k ==> SegmentInPlace(c, files, id);
    }
    ListingLength(files, ids, k);
  }

  // ---------------------------------------------------------------- what one call commits to

  /** The digest the next record of a log has to carry: of the last record, or 32 zero bytes. */
  predicate EndsIn(log: seq<ChainedRecord>, d: Digest) {
    if log == [] then forall i :: 0 <= i < 32 ==> d[i] == 0 else d == log[|log| - 1].recordHash
  }

  /** The record that commits to `payload` behind that log. */
  predicate CommitsTo(setup: Setup, log: seq<ChainedRecord>, cr: ChainedRecord,
                      kind: Bytes, payload: Bytes, timestampUs: int)
  {
    && EndsIn(log, cr.prevHash)
    && cr.record.seqNo == |log|
    && cr.record.timestampUs == timestampUs
    && cr.record.tenantId == setup.tenantId
    && cr.record.kind == kind
    && cr.record.payloadCommitment == setup.c.commitment(payload)
    && !cr.record.redacted
    && cr.recordHash == setup.c.recordHash(cr.prevHash, cr.record)
  }

  lemma EndsInBoth(a: seq<ChainedRecord>, b: seq<ChainedRecord>, d: Digest)
    requires if b == [] then EndsIn(a, d) else d == b[|b| - 1].recordHash
    ensures EndsIn(a + b, d)
  {
    assert b == [] ==> a + b == a;
  }

  lemma LinkIsEnd(log: seq<ChainedRecord>)
    ensures EndsIn(log, LinkTo(log, GENESIS, |log|))
  {
  }

  lemma {:induction false} CursorBehindLog(c: Crypto, w: Writer, files: SegmentFiles)
    requires WriterHolds(c, w, files)
    ensures EndsIn(LogOf(Up(w, files)), w.inner.tip)
    ensures w.inner.nextSeq == |LogOf(Up(w, files))|
  {
    var all := Persisted(files, w.nextSegmentId);
    PersistedIsOneChain(c, files, w.nextSegmentId);
    LinkIsEnd(all);
    EndsInBoth(all, w.inner.records, w.inner.tip);
  }

  /** An observation the process survives without losing a segment puts one record behind the log, for
      this payload, and closes the segment exactly when it is full. */
  lemma ObservedIsLogged(setup: Setup, world: World, kind: Bytes, payload: Bytes, timestampUs: int, fate: WriteFate)
    requires Genuine(setup.c, setup.signer) && Inv(setup.c, world) && world.Up?
    requires !LosesSegment(world, Observe(kind, payload, timestampUs, fate))
    requires Step(setup, world, Observe(kind, payload, timestampUs, fate)).Up?
    ensures var after := Step(setup, world, Observe(kind, payload, timestampUs, fate));
            var log, pending := LogOf(world), |world.w.inner.records| + 1;
            && |LogOf(after)| == |log| + 1 && LogOf(after)[..|log|] == log
            && CommitsTo(setup, log, LogOf(after)[|log|], kind, payload, timestampUs)
            && |after.w.inner.records| == (if pending >= world.w.maxRecords then 0 else pending)
  {
    StepKeeps(setup, world, Observe(kind, payload, timestampUs, fate));
    CursorBehindLog(setup.c, world.w, world.files);
  }

  /** A reopened writer has nothing pending and closes segments at the given limit, at least 1, or
      else at 1000 records. */
  lemma OpeningSetsLimit(setup: Setup, files: SegmentFiles, limit: Option<nat>)
    ensures var after := Step(setup, Down(files), Open(limit));
            && after.Up? && after.files == files && after.w.inner.records == []
            && (limit.None? ==> after.w.maxRecords == 1000)
            && (limit.Some? && limit.value > 0 ==> after.w.maxRecords == limit.value)
            && (limit == Some(0) ==> after.w.maxRecords == 1)
  {
    var next := NextId(files.Keys);
    assert next == 0 || next - 1 in files;
  }

  lemma EmptyStoreHolds(c: Crypto)
    ensures Inv(c, Down(map[])) && LogOf(Down(map[])) == []
  {
    NextIdUnique({}, 0, NextId({}));
  }

  // ---------------------------------------------------------------- the object

  class AuditChainWriter {
    const setup: Setup
    const store: SegmentStore
    var inner: ChainWriter
    var tip: Digest
    var nextSeq: nat
    var nextSegmentId: nat
    var maxRecords: nat

    ghost function Value(): Writer
      reads this, inner
    {
      Writer(inner.Value(), tip, nextSeq, nextSegmentId, maxRecords)
    }

    /** Resumes the chain from the last persisted segment. */
    constructor Open(setup: Setup, store: SegmentStore, limit: Option<nat>)
      ensures this.setup == setup && this.store == store && fresh(inner)
      ensures Value() == OpenStep(store.files, limit)
    {
      var ids := store.ListIds();
      var resumeTip, resumeSeq, id := GENESIS, 0, 0;
      ghost var next := NextId(store.files.Keys);
      if |ids| > 0 {
        var lastId := ids[|ids| - 1];
        LastOfListing(store.files, ids);
        var last := store.files[lastId];
        resumeTip := Tip(last);
        resumeSeq := if last.records == [] then 0 else last.records[|last.records| - 1].record.seqNo + 1;
        id := lastId + 1;
      } else {
        assert forall k :: k in store.files ==> k in ids;
        NextIdUnique(store.files.Keys, 0, next);
      }
      var run := new ChainWriter.FromTip(resumeTip, resumeSeq);
      this.setup := setup;
      this.store := store;
      inner := run;
      tip := resumeTip;
      nextSeq := resumeSeq;
      nextSegmentId := id;
      maxRecords := MaxRecords(limit);
    }

    /** The store the process would leave behind now, and the process itself while it lives. */
    ghost function WorldAfter(alive: bool): World
      reads this, inner, store
    {
      if alive then Up(Value(), store.files) else Down(store.files)
    }

    method CloseSegment(fate: WriteFate) returns (alive: bool)
      modifies this, inner, store
      ensures inner == old(inner) || fresh(inner)
      ensures WorldAfter(alive) == CloseStep(setup, old(Value()), old(store.files), fate)
    {
      if inner.records == [] {
        return true;
      }
      ghost var was := Value();
      var segment := inner.CloseSegment(nextSegmentId, setup.signer);
      var last := segment.records[|segment.records| - 1];
      tip := last.recordHash;
      nextSeq := last.record.seqNo + 1;
      inner := new ChainWriter.FromTip(tip, nextSeq);
      nextSegmentId := nextSegmentId + 1;
      assert Value() == Rotated(was);
      store.Write(segment, fate);
      alive := fate.Completes? || fate.Fails?;
    }

    method Observe(kind: Bytes, payload: Bytes, timestampUs: int, fate: WriteFate) returns (alive: bool)
      modifies this, inner, store
      ensures inner == old(inner) || fresh(inner)
      ensures WorldAfter(alive) ==
          ObserveStep(setup, old(Value()), old(store.files), NewRecord(setup, kind, payload, timestampUs), fate)
    {
      var record := AuditRecord(0, timestampUs, setup.tenantId, kind, setup.c.commitment(payload), false);
      var _ := inner.Append(setup.c, record);
      alive := true;
      if |inner.records| >= maxRecords {
        alive := CloseSegment(fate);
      }
    }

    method Flush(fate: WriteFate) returns (alive: bool)
      modifies this, inner, store
      ensures inner == old(inner) || fresh(inner)
      ensures WorldAfter(alive) == CloseStep(setup, old(Value()), old(store.files), fate)
    {
      alive := CloseSegment(fate);
    }
  }

  lemma LastOfListing(files: SegmentFiles, ids: seq<nat>)
    requires IsListing(files, ids) && ids != []
    ensures ids[|ids| - 1] in files && NextId(files.Keys) == ids[|ids| - 1] + 1
  {
    var n := |ids| - 1;
    assert ids[n] in ids;
    forall k | k in files
      ensures k < ids[n] + 1
    {
      var j :| 0 <= j < |ids| && ids[j] == k;
      assert j < n ==> BY_VALUE(ids[j]) < BY_VALUE(ids[n]);
    }
    NextIdUnique(files.Keys, ids[n] + 1, NextId(files.Keys));
  }
}
