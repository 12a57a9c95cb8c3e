/** The segmented evidence log over an explicit directory of files. This module is the value
    model: what one call does to the directory and to the writer's counters, and what every run
    of calls, clean closes, crashes and reopens keeps. `SegmentLog.dfy` holds the class. */
module EvidenceLog {
  import opened Common
  import opened Framing

  datatype FileState = Closed | Active | Quarantined

  datatype SegmentFile = SegmentFile(state: FileState, bytes: Bytes)

  /** The directory: one file per segment id, in one of three states. */
  type Files = map<nat, SegmentFile>

  datatype Config = Config(maxSegmentBytes: nat, maxRecordBytes: nat, quotaLimit: nat)

  datatype ActiveSegment = ActiveSegment(id: nat, writtenBytes: nat, recordCount: nat)

  datatype Receipt = Receipt(segmentId: nat, recordIndex: nat, offset: nat, bytesWritten: nat)

  datatype StorageError =
    | RecordTooLarge(size: nat, max: nat)
    | QuotaExceeded(total: nat, record: nat, limit: nat)

  /** An open log: the directory and the writer's own counters. */
  datatype Log = Log(
    files: Files,
    active: Option<ActiveSegment>,
    totalBytes: nat,
    nextSegmentId: nat,
    quarantinedAtOpen: nat)

  // ---------------------------------------------------------------- sizes and ids

  /** Bytes in all files with an id below `n`. */
  function SizeBelow(files: Files, n: nat): nat {
    if n == 0 then 0
    else SizeBelow(files, n - 1) + if n - 1 in files then |files[n - 1].bytes| else 0
  }

  function SizeOf(files: Files, id: nat): nat {
    if id in files then |files[id].bytes| else 0
  }

  predicate IdsBelow(files: Files, n: nat) {
    forall id <- files :: id < n
  }

  /** Files that differ in one id differ in total by that file's change of size. */
  lemma {:induction false} SizeAfterChange(before: Files, after: Files, id: nat, n: nat)
    requires forall k: nat :: k != id ==> SizeOf(before, k) == SizeOf(after, k)
    requires id < n
    ensures SizeBelow(after, n) == SizeBelow(before, n) - SizeOf(before, id) + SizeOf(after, id)
    ensures SizeBelow(before, n) >= SizeOf(before, id)
  {
    assert SizeOf(before, n - 1) == SizeOf(after, n - 1) || n - 1 == id;
    if n - 1 == id {
      SizeUnchanged(before, after, n - 1);
    } else {
      SizeAfterChange(before, after, id, n - 1);
    }
  }

  lemma {:induction false} SizeUnchanged(before: Files, after: Files, n: nat)
    requires forall k: nat :: k < n ==> SizeOf(before, k) == SizeOf(after, k)
    ensures SizeBelow(before, n) == SizeBelow(after, n)
  {
    if n > 0 {
      SizeUnchanged(before, after, n - 1);
      assert SizeOf(before, n - 1) == SizeOf(after, n - 1);
    }
  }

  lemma {:induction false} SizeStopsAtLastId(files: Files, n: nat, m: nat)
    requires IdsBelow(files, n) && n <= m
    ensures SizeBelow(files, m) == SizeBelow(files, n)
  {
    if n < m {
      SizeStopsAtLastId(files, n, m - 1);
    }
  }

  /** Lowest-id closed segment in `from..n`. */
  function FirstClosed(files: Files, from: nat, n: nat): (r: Option<nat>)
    ensures r.Some? ==> from <= r.value < n && r.value in files && files[r.value].state == Closed
    ensures r.Some? ==> forall k :: from <= k < r.value && k in files ==> files[k].state != Closed
    ensures r.None? ==> forall k :: from <= k < n && k in files ==> files[k].state != Closed
    decreases n - from
  {
    if from >= n then None
    else if from in files && files[from].state == Closed then Some(from)
    else FirstClosed(files, from + 1, n)
  }

  // ---------------------------------------------------------------- quota

  datatype Fits = Yes | No(overBy: nat)

  /** `Quota::check`, with the 64-bit overflow of the sum counted as not fitting. */
  function Check(limit: nat, total: nat, size: nat): Fits {
    if total + size > U64_MAX then No(U64_MAX)
    else if total + size <= limit then Yes
    else No(total + size - limit)
  }

  // ---------------------------------------------------------------- one call

  predicate ActivePresent(log: Log) {
    log.active.Some? ==>
      var id := log.active.value.id;
      id in log.files && log.files[id].state == Active
  }

  /** The directory after the active segment, if any, was renamed to closed. */
  function Sealed(log: Log): Files
    requires ActivePresent(log)
  {
    if log.active.None? then log.files
    else
      var id := log.active.value.id;
      log.files[id := log.files[id].(state := Closed)]
  }

  function RotateStep(log: Log): (r: Log)
    requires ActivePresent(log)
  {
    log.(files := Sealed(log)[log.nextSegmentId := SegmentFile(Active, [])],
         active := Some(ActiveSegment(log.nextSegmentId, 0, 0)),
         nextSegmentId := log.nextSegmentId + 1)
  }

  predicate MustRotate(cfg: Config, log: Log, size: nat) {
    log.active.None? || log.active.value.writtenBytes + size > cfg.maxSegmentBytes
  }

  function WriteRecord(log: Log, data: Bytes): Log
    requires ActivePresent(log) && log.active.Some?
  {
    var a := log.active.value;
    var file := log.files[a.id];
    log.(files := log.files[a.id := file.(bytes := file.bytes + Frame(data))],
         active := Some(ActiveSegment(a.id, a.writtenBytes + |Frame(data)|, a.recordCount + 1)),
         totalBytes := log.totalBytes + |Frame(data)|)
  }

  /** The log `append` writes into: rotated first when the record would overflow the segment. */
  function ReadyLog(cfg: Config, log: Log, data: Bytes): (r: Log)
    requires ActivePresent(log)
    ensures r.active.Some? && ActivePresent(r)
  {
    if MustRotate(cfg, log, HEADER_BYTES + |data|) then RotateStep(log) else log
  }

  function ReceiptFor(a: ActiveSegment, data: Bytes): Receipt {
    Receipt(a.id, a.recordCount, a.writtenBytes, HEADER_BYTES + |data|)
  }

  function AppendStep(cfg: Config, log: Log, data: Bytes): (r: (Log, Result<Receipt, StorageError>))
    requires ActivePresent(log)
  {
    var size := HEADER_BYTES + |data|;
    if |data| > cfg.maxRecordBytes then (log, Err(RecordTooLarge(|data|, cfg.maxRecordBytes)))
    else if Check(cfg.quotaLimit, log.totalBytes, size).No? then
      (log, Err(QuotaExceeded(log.totalBytes, size, cfg.quotaLimit)))
    else
      var ready := ReadyLog(cfg, log, data);
      (WriteRecord(ready, data), Ok(ReceiptFor(ready.active.value, data)))
  }

  function EvictStep(log: Log): (Log, Option<nat>) {
    match FirstClosed(log.files, 0, log.nextSegmentId)
    case None => (log, None)
    case Some(id) =>
      (log.(files := log.files - {id},
            totalBytes := SaturatingSub(log.totalBytes, |log.files[id].bytes|)), Some(id))
  }

  /** A clean shutdown: seal the active segment; the fresh empty one `rotate` opens is removed. */
  function CloseStep(log: Log): Files
    requires ActivePresent(log)
  {
    Sealed(log)
  }

  /** Recovery renames every leftover active file to quarantined, never truncating it. */
  function Recovered(files: Files): Files {
    map id | id in files ::
      if files[id].state == Active then files[id].(state := Quarantined) else files[id]
  }

  /** The files a crash left active. */
  function Leftover(files: Files): Files {
    map id | id in files && files[id].state == Active :: files[id]
  }

  ghost function OpenStep(files: Files): Log {
    var recovered := Recovered(files);
    var next := NextId(recovered.Keys);
    Log(recovered, None, SizeBelow(recovered, next), next, SizeBelow(Leftover(files), next))
  }

  /** A crash leaves any prefix of the active file on disk. */
  function CrashStep(log: Log, keep: nat): Files
    requires ActivePresent(log)
  {
    if log.active.None? then log.files
    else
      var id := log.active.value.id;
      var bytes := log.files[id].bytes;
      log.files[id := log.files[id].(bytes := bytes[..Min(keep, |bytes|)])]
  }

  // ---------------------------------------------------------------- runs

  datatype Issued = Issued(receipt: Receipt, data: Bytes)

  /** What the clients remember: the records appended to every segment still on disk, every
      receipt whose segment was not evicted, and the receipts of the current session. */
  datatype History = History(content: map<nat, seq<Bytes>>, live: seq<Issued>, session: seq<Receipt>)

  datatype World =
    | Running(log: Log, hist: History)
    | Stopped(disk: Files, hist: History)

  datatype Op =
    | Append(data: Bytes)
    | Rotate
    | Evict
    | Close
    | Open
    | Crash(keep: nat)

  function WithoutSegment(live: seq<Issued>, id: nat): (r: seq<Issued>)
    ensures forall e :: e in r <==> e in live && e.receipt.segmentId != id
  {
    if live == [] then []
    else if live[0].receipt.segmentId == id then WithoutSegment(live[1..], id)
    else [live[0]] + WithoutSegment(live[1..], id)
  }

  function RecordRotation(before: Log, hist: History): History {
    hist.(content := hist.content[before.nextSegmentId := []])
  }

  function Appended(hist: History, receipt: Receipt, data: Bytes): History
    requires receipt.segmentId in hist.content
  {
    var id := receipt.segmentId;
    History(hist.content[id := hist.content[id] + [data]],
            hist.live + [Issued(receipt, data)],
            hist.session + [receipt])
  }

  function ReadyHistory(cfg: Config, log: Log, hist: History, data: Bytes): History {
    if MustRotate(cfg, log, HEADER_BYTES + |data|) then RecordRotation(log, hist) else hist
  }

  function Forgotten(hist: History, id: nat): History {
    hist.(content := hist.content - {id}, live := WithoutSegment(hist.live, id))
  }

  ghost function Step(cfg: Config, w: World, op: Op): World
    requires Inv(cfg, w)
  {
    match (w, op)
    case (Running(log, hist), Append(data)) =>
      var (after, r) := AppendStep(cfg, log, data);
      if r.Ok? then Running(after, Appended(ReadyHistory(cfg, log, hist, data), r.value, data)) else w
    case (Running(log, hist), Rotate) => Running(RotateStep(log), RecordRotation(log, hist))
    case (Running(log, hist), Evict) =>
      var (after, r) := EvictStep(log);
      if r.None? then w
      else Running(after, Forgotten(hist, r.value))
    case (Running(log, hist), Close) => Stopped(CloseStep(log), hist.(session := []))
    case (Running(log, hist), Crash(keep)) => Stopped(CrashStep(log, keep), hist.(session := []))
    case (Stopped(disk, hist), Open) => Running(OpenStep(disk), hist)
    case _ => w
  }

  // ---------------------------------------------------------------- the invariant

  function FilesOf(w: World): Files {
    if w.Running? then w.log.files else w.disk
  }

  /** A file holds the records appended to it: all of them when closed, a byte prefix otherwise. */
  ghost predicate FileHolds(cfg: Config, file: SegmentFile, records: seq<Bytes>) {
    && Framable(records)
    && file.bytes <= Encode(records)
    && (file.state == Closed ==> file.bytes == Encode(records))
    && (|Encode(records)| <= cfg.maxSegmentBytes || |records| == 1)
  }

  ghost predicate IssuedHolds(content: map<nat, seq<Bytes>>, e: Issued) {
    var r := e.receipt;
    && r.segmentId in content
    && r.recordIndex < |content[r.segmentId]|
    && content[r.segmentId][r.recordIndex] == e.data
    && r.offset == |Encode(content[r.segmentId][..r.recordIndex])|
    && r.bytesWritten == |Frame(e.data)|
  }

  predicate Before(a: Receipt, b: Receipt) {
    || a.segmentId < b.segmentId
    || (a.segmentId == b.segmentId && a.recordIndex < b.recordIndex && a.offset < b.offset)
  }

  /** The receipt the next append into the active segment would get. */
  function Frontier(a: ActiveSegment): Receipt {
    Receipt(a.id, a.recordCount, a.writtenBytes, 0)
  }

  ghost predicate ActiveHolds(log: Log, content: map<nat, seq<Bytes>>)
    requires log.active.Some?
  {
    var a := log.active.value;
    && a.id in log.files && a.id in content
    && log.files[a.id].state == Active
    && log.files[a.id].bytes == Encode(content[a.id])
    && a.writtenBytes == |Encode(content[a.id])|
    && a.recordCount == |content[a.id]|
  }

  ghost predicate Counters(log: Log, hist: History) {
    && IdsBelow(log.files, log.nextSegmentId)
    && log.totalBytes == SizeBelow(log.files, log.nextSegmentId)
    && (forall id <- log.files :: log.files[id].state == Active ==> log.active.Some? && log.active.value.id == id)
    && (log.active.None? ==> hist.session == [])
    && (forall i, j :: 0 <= i < j < |hist.session| ==> Before(hist.session[i], hist.session[j]))
    && (forall r <- hist.session :: log.active.Some? && Before(r, Frontier(log.active.value)))
  }

  ghost predicate FilesHold(cfg: Config, files: Files, content: map<nat, seq<Bytes>>) {
    files.Keys == content.Keys && forall id <- files :: FileHolds(cfg, files[id], content[id])
  }

  ghost predicate LiveHolds(hist: History) {
    forall e <- hist.live :: IssuedHolds(hist.content, e)
  }

  ghost predicate Inv(cfg: Config, w: World) {
    && cfg.maxRecordBytes < U32_MODULUS
    && FilesHold(cfg, FilesOf(w), w.hist.content)
    && LiveHolds(w.hist)
    && (w.Running? ==> Counters(w.log, w.hist) && (w.log.active.Some? ==> ActiveHolds(w.log, w.hist.content)))
    && (w.Stopped? ==> w.hist.session == [])
  }

  // ---------------------------------------------------------------- every call keeps it

  lemma IssuedAfterGrowth(content: map<nat, seq<Bytes>>, id: nat, more: seq<Bytes>, e: Issued)
    requires IssuedHolds(content, e)
    requires id in content ==> content[id] <= more
    ensures IssuedHolds(content[id := more], e)
  {
    var r := e.receipt;
    if r.segmentId == id {
      assert more[..r.recordIndex] == content[id][..r.recordIndex];
    }
  }

  lemma SealKeepsFiles(cfg: Config, log: Log, hist: History)
    requires Inv(cfg, Running(log, hist))
    ensures Sealed(log).Keys == log.files.Keys
    ensures forall id <- Sealed(log) :: FileHolds(cfg, Sealed(log)[id], hist.content[id])
    ensures forall id <- Sealed(log) :: Sealed(log)[id].state != Active
    ensures forall n :: SizeBelow(Sealed(log), n) == SizeBelow(log.files, n)
  {
    forall n: nat
      ensures SizeBelow(Sealed(log), n) == SizeBelow(log.files, n)
    {
      SizeUnchanged(Sealed(log), log.files, n);
    }
  }

  lemma RotateKeepsCounters(cfg: Config, log: Log, hist: History)
    requires Inv(cfg, Running(log, hist))
    ensures Counters(RotateStep(log), RecordRotation(log, hist))
  {
    SealKeepsFiles(cfg, log, hist);
    var after := RotateStep(log);
    SizeUnchanged(after.files, Sealed(log), log.nextSegmentId);
    forall r <- hist.session
      ensures Before(r, Frontier(after.active.value))
    {
      assert Before(r, Frontier(log.active.value));
    }
  }

  lemma RotateKeeps(cfg: Config, log: Log, hist: History)
    requires Inv(cfg, Running(log, hist))
    ensures Inv(cfg, Running(RotateStep(log), RecordRotation(log, hist)))
  {
    SealKeepsFiles(cfg, log, hist);
    RotateKeepsCounters(cfg, log, hist);
    var h := RecordRotation(log, hist);
    assert Encode(h.content[log.nextSegmentId]) == [];
    forall e <- h.live
      ensures IssuedHolds(h.content, e)
    {
      IssuedAfterGrowth(hist.content, log.nextSegmentId, [], e);
    }
  }

  lemma EncodeOneMore(records: seq<Bytes>, data: Bytes)
    ensures Encode(records + [data]) == Encode(records) + Frame(data)
  {
    EncodeAppend(records, [data]);
    assert Encode([data]) == Frame(data) + Encode([]);
  }

  lemma WriteKeepsFiles(cfg: Config, log: Log, hist: History, data: Bytes)
    requires Inv(cfg, Running(log, hist)) && log.active.Some?
    requires |data| <= cfg.maxRecordBytes
    requires var a := log.active.value;
             a.writtenBytes + |Frame(data)| <= cfg.maxSegmentBytes || hist.content[a.id] == []
    ensures var after, h := WriteRecord(log, data), Appended(hist, ReceiptFor(log.active.value, data), data);
            FilesHold(cfg, after.files, h.content) && ActiveHolds(after, h.content)
  {
    var a := log.active.value;
    var after, h := WriteRecord(log, data), Appended(hist, ReceiptFor(a, data), data);
    EncodeOneMore(hist.content[a.id], data);
    forall id <- after.files
      ensures FileHolds(cfg, after.files[id], h.content[id])
    {
      assert FileHolds(cfg, log.files[id], hist.content[id]);
    }
  }

  lemma WriteKeepsLive(cfg: Config, log: Log, hist: History, data: Bytes)
    requires Inv(cfg, Running(log, hist)) && log.active.Some?
    ensures LiveHolds(Appended(hist, ReceiptFor(log.active.value, data), data))
  {
    var a := log.active.value;
    var h := Appended(hist, ReceiptFor(a, data), data);
    forall e <- h.live
      ensures IssuedHolds(h.content, e)
    {
      if e in hist.live {
        IssuedAfterGrowth(hist.content, a.id, h.content[a.id], e);
      } else {
        assert h.content[a.id][..|hist.content[a.id]|] == hist.content[a.id];
      }
    }
  }

  lemma WriteKeepsCounters(cfg: Config, log: Log, hist: History, data: Bytes)
    requires Inv(cfg, Running(log, hist)) && log.active.Some?
    ensures Counters(WriteRecord(log, data), Appended(hist, ReceiptFor(log.active.value, data), data))
  {
    var a := log.active.value;
    var after, h := WriteRecord(log, data), Appended(hist, ReceiptFor(a, data), data);
    SizeAfterChange(log.files, after.files, a.id, log.nextSegmentId);
    forall r <- h.session
      ensures Before(r, Frontier(after.active.value))
    {
      assert r in hist.session ==> Before(r, Frontier(a));
    }
    forall i, j | 0 <= i < j < |h.session|
      ensures Before(h.session[i], h.session[j])
    {
      assert h.session[i] == hist.session[i];
      assert Before(hist.session[i], Frontier(a));
    }
  }

  lemma WriteKeeps(cfg: Config, log: Log, hist: History, data: Bytes)
    requires Inv(cfg, Running(log, hist)) && log.active.Some?
    requires |data| <= cfg.maxRecordBytes
    requires var a := log.active.value;
             a.writtenBytes + |Frame(data)| <= cfg.maxSegmentBytes || hist.content[a.id] == []
    ensures Inv(cfg, Running(WriteRecord(log, data), Appended(hist, ReceiptFor(log.active.value, data), data)))
  {
    WriteKeepsFiles(cfg, log, hist, data);
    WriteKeepsLive(cfg, log, hist, data);
    WriteKeepsCounters(cfg, log, hist, data);
  }

  lemma ReadyKeeps(cfg: Config, log: Log, hist: History, data: Bytes)
    requires Inv(cfg, Running(log, hist))
    ensures Inv(cfg, Running(ReadyLog(cfg, log, data), ReadyHistory(cfg, log, hist, data)))
    ensures var ready, h := ReadyLog(cfg, log, data), ReadyHistory(cfg, log, hist, data);
            var a := ready.active.value;
            a.writtenBytes + |Frame(data)| <= cfg.maxSegmentBytes || h.content[a.id] == []
  {
    RotateKeeps(cfg, log, hist);
  }

  lemma AppendKeeps(cfg: Config, log: Log, hist: History, data: Bytes)
    requires Inv(cfg, Running(log, hist))
    ensures Inv(cfg, Step(cfg, Running(log, hist), Append(data)))
  {
    if AppendStep(cfg, log, data).1.Ok? {
      ReadyKeeps(cfg, log, hist, data);
      WriteKeeps(cfg, ReadyLog(cfg, log, data), ReadyHistory(cfg, log, hist, data), data);
    }
  }

  lemma EvictKeepsCounters(cfg: Config, log: Log, hist: History)
    requires Inv(cfg, Running(log, hist)) && EvictStep(log).1.Some?
    ensures var (after, r) := EvictStep(log);
            && Counters(after, Forgotten(hist, r.value))
            && after.totalBytes == log.totalBytes - |log.files[r.value].bytes|
  {
    var (after, r) := EvictStep(log);
    SizeAfterChange(log.files, after.files, r.value, log.nextSegmentId);
  }

  lemma EvictKeeps(cfg: Config, log: Log, hist: History)
    requires Inv(cfg, Running(log, hist)) && EvictStep(log).1.Some?
    ensures var (after, r) := EvictStep(log); Inv(cfg, Running(after, Forgotten(hist, r.value)))
  {
    EvictKeepsCounters(cfg, log, hist);
    var (after, r) := EvictStep(log);
    assert after.files.Keys == log.files.Keys - {r.value};
    assert Forgotten(hist, r.value).content.Keys == hist.content.Keys - {r.value};
  }

  lemma CrashKeeps(cfg: Config, log: Log, hist: History, keep: nat)
    requires Inv(cfg, Running(log, hist))
    ensures Inv(cfg, Step(cfg, Running(log, hist), Crash(keep)))
  {
  }

  lemma OpenKeeps(cfg: Config, disk: Files, hist: History)
    requires Inv(cfg, Stopped(disk, hist))
    ensures Inv(cfg, Running(OpenStep(disk), hist))
  {
  }

  lemma StepKeeps(cfg: Config, w: World, op: Op)
    requires Inv(cfg, w)
    ensures Inv(cfg, Step(cfg, w, op))
  {
    match (w, op)
    case (Running(log, hist), Append(data)) => AppendKeeps(cfg, log, hist, data);
    case (Running(log, hist), Rotate) => RotateKeeps(cfg, log, hist);
    case (Running(log, hist), Evict) =>
      if EvictStep(log).1.Some? {
        EvictKeeps(cfg, log, hist);
      }
    case (Running(log, hist), Close) => SealKeepsFiles(cfg, log, hist);
    case (Running(log, hist), Crash(keep)) => CrashKeeps(cfg, log, hist, keep);
    case (Stopped(disk, hist), Open) => OpenKeeps(cfg, disk, hist);
    case _ =>
  }

  /** Any sequence of calls, clean closes, crashes and reopens. */
  ghost function Run(cfg: Config, w: World, ops: seq<Op>): (after: World)
    requires Inv(cfg, w)
    ensures Inv(cfg, after)
    decreases |ops|
  {
    if ops == [] then w
    else
      StepKeeps(cfg, w, ops[0]);
      Run(cfg, Step(cfg, w, ops[0]), ops[1..])
  }

  /** An empty directory that nobody opened yet. */
  lemma EmptyDirectoryHolds(cfg: Config)
    requires cfg.maxRecordBytes < U32_MODULUS
    ensures Inv(cfg, Stopped(map[], History(map[], [], [])))
    ensures DirectorySize(map[]) == 0
  {
    NextIdUnique({}, 0, NextId({}));
  }

  // ---------------------------------------------------------------- what the runs guarantee

  /** The bytes a receipt points at are still there and still decode to the record. */
  ghost predicate ReadsBack(bytes: Bytes, e: Issued) {
    var r := e.receipt;
    && r.offset + r.bytesWritten <= |bytes|
    && bytes[r.offset..r.offset + r.bytesWritten] == Frame(e.data)
    && (var p := Parse(bytes[r.offset..]); p.records != [] && p.records[0] == e.data)
  }

  lemma ReceiptSpan(records: seq<Bytes>, e: Issued)
    requires IssuedHolds(map[e.receipt.segmentId := records], e)
    ensures var r := e.receipt;
            && r.offset + r.bytesWritten <= |Encode(records)|
            && Encode(records)[r.offset..r.offset + r.bytesWritten] == Frame(e.data)
  {
    Stump(records, e.receipt.recordIndex, e.receipt.offset + e.receipt.bytesWritten);
  }

  lemma FrameInPlaceParses(data: Bytes, bytes: Bytes, start: nat)
    requires |data| < U32_MODULUS
    requires start + |Frame(data)| <= |bytes| && bytes[start..start + |Frame(data)|] == Frame(data)
    ensures var p := Parse(bytes[start..]); p.records != [] && p.records[0] == data
  {
    var behind := bytes[start + |Frame(data)|..];
    assert bytes[start..] == Frame(data) + behind;
    ParseOneFrame(data, behind, bytes[start..]);
  }

  lemma PrefixReadsBack(records: seq<Bytes>, bytes: Bytes, e: Issued)
    requires Framable(records) && bytes <= Encode(records)
    requires IssuedHolds(map[e.receipt.segmentId := records], e)
    requires e.receipt.offset + e.receipt.bytesWritten <= |bytes|
    ensures ReadsBack(bytes, e)
  {
    var start, end := e.receipt.offset, e.receipt.offset + e.receipt.bytesWritten;
    ReceiptSpan(records, e);
    assert bytes[start..end] == Encode(records)[start..end];
    FrameInPlaceParses(e.data, bytes, start);
  }

  /** Append receipts stay true over every run: the record of every receipt whose segment was
      not evicted is still on disk at its offset; only the unsynced end of a segment that was
      active when the process died can be missing. */
  lemma ReceiptsStayTrue(cfg: Config, start: World, ops: seq<Op>, e: Issued)
    requires Inv(cfg, start)
    requires e in Run(cfg, start, ops).hist.live
    ensures var end := Run(cfg, start, ops);
            var files := FilesOf(end);
            && e.receipt.segmentId in files
            && (var file := files[e.receipt.segmentId];
                && (file.state == Closed || (file.state == Active && end.Running?) ==> ReadsBack(file.bytes, e))
                && (e.receipt.offset + e.receipt.bytesWritten <= |file.bytes| ==> ReadsBack(file.bytes, e)))
  {
    var end := Run(cfg, start, ops);
    var id := e.receipt.segmentId;
    assert IssuedHolds(end.hist.content, e);
    var records, file := end.hist.content[id], FilesOf(end)[id];
    assert FileHolds(cfg, file, records);
    assert IssuedHolds(map[id := records], e);
    ReceiptSpan(records, e);
    if e.receipt.offset + e.receipt.bytesWritten <= |file.bytes| {
      PrefixReadsBack(records, file.bytes, e);
    }
  }

  /** Closed segments parse to exactly the records appended to them, in order, and every segment
      fits the size bound or holds a single record. */
  lemma ClosedSegmentsExact(cfg: Config, start: World, ops: seq<Op>, id: nat)
    requires Inv(cfg, start)
    requires id in FilesOf(Run(cfg, start, ops))
    ensures var end := Run(cfg, start, ops);
            var file := FilesOf(end)[id];
            && id in end.hist.content
            && (file.state == Closed ==> Parse(file.bytes) == Parsed(end.hist.content[id], []))
            && (file.state != Closed ==> Parse(file.bytes).records <= end.hist.content[id])
            && (|file.bytes| <= cfg.maxSegmentBytes || |end.hist.content[id]| == 1)
  {
    var end := Run(cfg, start, ops);
    FileParses(cfg, FilesOf(end)[id], end.hist.content[id]);
  }

  lemma FileParses(cfg: Config, file: SegmentFile, records: seq<Bytes>)
    requires FileHolds(cfg, file, records)
    ensures file.state == Closed ==> Parse(file.bytes) == Parsed(records, [])
    ensures file.state != Closed ==> Parse(file.bytes).records <= records
    ensures |file.bytes| <= cfg.maxSegmentBytes || |records| == 1
  {
    ParsePrefix(records, |file.bytes|);
    assert file.bytes == Encode(records)[..|file.bytes|];
    CompleteWithinBrackets(records, |file.bytes|);
    if file.state == Closed {
      WholeSegmentComplete(records);
      assert records[..|records|] == records && file.bytes == Encode(records);
    }
  }

  lemma {:induction false} WholeSegmentComplete(records: seq<Bytes>)
    ensures CompleteWithin(records, |Encode(records)|) == |records|
    decreases |records|
  {
    if records != [] {
      WholeSegmentComplete(records[1..]);
    }
  }

  /** A receipt is forgotten only by the eviction of its segment. */
  lemma OnlyEvictionForgets(cfg: Config, w: World, op: Op, e: Issued)
    requires Inv(cfg, w) && e in w.hist.live
    ensures e in Step(cfg, w, op).hist.live
        <==> !(w.Running? && op.Evict? && EvictStep(w.log).1 == Some(e.receipt.segmentId))
  {
  }

  /** Receipts of one session strictly increase, whatever was evicted in between. */
  lemma ReceiptsIncrease(cfg: Config, start: World, ops: seq<Op>, i: nat, j: nat)
    requires Inv(cfg, start)
    requires i < j < |Run(cfg, start, ops).hist.session|
    ensures var s := Run(cfg, start, ops).hist.session; Before(s[i], s[j])
  {
  }

  /** Reopening any directory continues above every file present, and right above the highest. */
  lemma ReopenedAboveAllFiles(disk: Files)
    ensures var next := OpenStep(disk).nextSegmentId;
            && (forall id <- disk :: id < next)
            && (next > 0 ==> next - 1 in disk)
  {
    assert Recovered(disk).Keys == disk.Keys;
  }

  // ---------------------------------------------------------------- what becomes of a file

  /** The call finishes the active segment `id`: a rotation, a clean close, or an accepted record that
      does not fit any more. */
  ghost predicate Finishes(cfg: Config, w: World, op: Op, id: nat)
    requires w.Running? ==> ActivePresent(w.log)
  {
    && w.Running? && id in w.log.files
    && match op
       case Rotate => true
       case Close => true
       case Append(data) =>
         && AppendStep(cfg, w.log, data).1.Ok?
         && |w.log.files[id].bytes| + HEADER_BYTES + |data| > cfg.maxSegmentBytes
       case _ => false
  }

  /** Every file, at every call: a closed or quarantined one stays what it is, byte for byte; the active
      one is closed by what finishes it, quarantined by a reopen after a crash, and stays active
      otherwise; in the first two cases its bytes stay. */
  lemma StatesMove(cfg: Config, w: World, op: Op, id: nat)
    requires Inv(cfg, w) && id in FilesOf(w) && id in FilesOf(Step(cfg, w, op))
    ensures var was, now := FilesOf(w)[id], FilesOf(Step(cfg, w, op))[id];
            && (was.state != Active ==> now == was)
            && (was.state == Active && Finishes(cfg, w, op, id) ==> now == SegmentFile(Closed, was.bytes))
            && (was.state == Active && w.Stopped? && op.Open? ==> now == SegmentFile(Quarantined, was.bytes))
            && (was.state == Active && !Finishes(cfg, w, op, id) && !(w.Stopped? && op.Open?) ==> now.state == Active)
  {
  }

  /** Only eviction removes a file, and only a closed one; new files are active. */
  lemma FilesComeAndGo(cfg: Config, w: World, op: Op, id: nat)
    requires Inv(cfg, w)
    ensures var before, after := FilesOf(w), FilesOf(Step(cfg, w, op));
            && (id in before && id !in after ==> op.Evict? && before[id].state == Closed)
            && (id !in before && id in after ==> w.Running? && id == w.log.nextSegmentId && after[id].state == Active)
  {
  }

  predicate CrashFree(ops: seq<Op>) {
    forall i :: 0 <= i < |ops| ==> !ops[i].Crash?
  }

  /** Nothing was quarantined, and nothing is left active while the log is not open. */
  ghost predicate Tidy(w: World) {
    forall id <- FilesOf(w) :: FilesOf(w)[id].state != Quarantined && (w.Stopped? ==> FilesOf(w)[id].state == Closed)
  }

  lemma StepStaysTidy(cfg: Config, w: World, op: Op)
    requires Inv(cfg, w) && Tidy(w) && !op.Crash?
    ensures Tidy(Step(cfg, w, op))
  {
    var after := Step(cfg, w, op);
    forall id | id in FilesOf(after)
      ensures FilesOf(after)[id].state != Quarantined && (after.Stopped? ==> FilesOf(after)[id].state == Closed)
    {
      FilesComeAndGo(cfg, w, op, id);
      if id in FilesOf(w) {
        StatesMove(cfg, w, op, id);
      }
    }
  }

  /** A file is quarantined only after a crash: in a run without one, from a tidy directory, none is. */
  lemma {:induction false} QuarantineNeedsCrash(cfg: Config, start: World, ops: seq<Op>)
    requires Inv(cfg, start) && Tidy(start) && CrashFree(ops)
    ensures Tidy(Run(cfg, start, ops))
    decreases |ops|
  {
    if ops != [] {
      StepKeeps(cfg, start, ops[0]);
      StepStaysTidy(cfg, start, ops[0]);
      assert CrashFree(ops[1..]);
      QuarantineNeedsCrash(cfg, Step(cfg, start, ops[0]), ops[1..]);
    }
  }

  predicate HasState(files: Files, id: nat, state: FileState) {
    id in files && files[id].state == state
  }

  /** Some call of the run opens the log over segment `id` still active, as a crash left it. */
  ghost predicate FoundLeft(cfg: Config, w: World, ops: seq<Op>, id: nat)
    requires Inv(cfg, w)
    decreases |ops|
  {
    ops != [] &&
      (|| (w.Stopped? && ops[0].Open? && HasState(FilesOf(w), id, Active))
       || (StepKeeps(cfg, w, ops[0]); FoundLeft(cfg, Step(cfg, w, ops[0]), ops[1..], id)))
  }

  lemma QuarantinedNext(cfg: Config, w: World, op: Op, id: nat)
    requires Inv(cfg, w)
    ensures HasState(FilesOf(Step(cfg, w, op)), id, Quarantined) <==>
              || HasState(FilesOf(w), id, Quarantined)
              || (w.Stopped? && op.Open? && HasState(FilesOf(w), id, Active))
  {
    FilesComeAndGo(cfg, w, op, id);
    if id in FilesOf(w) && id in FilesOf(Step(cfg, w, op)) {
      StatesMove(cfg, w, op, id);
    }
  }

  /** After every run, a segment is quarantined if and only if it was at the start or was found active
      by a reopen; nothing else quarantines one, and none is ever released. */
  lemma {:induction false} QuarantinedIff(cfg: Config, start: World, ops: seq<Op>, id: nat)
    requires Inv(cfg, start)
    ensures HasState(FilesOf(Run(cfg, start, ops)), id, Quarantined) <==>
              HasState(FilesOf(start), id, Quarantined) || FoundLeft(cfg, start, ops, id)
    decreases |ops|
  {
    if ops != [] {
      StepKeeps(cfg, start, ops[0]);
      QuarantinedNext(cfg, start, ops[0], id);
      QuarantinedIff(cfg, Step(cfg, start, ops[0]), ops[1..], id);
    }
  }

  predicate Evicts(w: World, op: Op, id: nat) {
    w.Running? && op.Evict? && EvictStep(w.log).1 == Some(id)
  }

  ghost predicate NeverEvicts(cfg: Config, w: World, ops: seq<Op>, id: nat)
    requires Inv(cfg, w)
    decreases |ops|
  {
    ops == [] ||
      (!Evicts(w, ops[0], id) && (StepKeeps(cfg, w, ops[0]); NeverEvicts(cfg, Step(cfg, w, ops[0]), ops[1..], id)))
  }

  /** A closed segment stays closed with the same bytes, or is evicted. */
  lemma ClosedNext(cfg: Config, w: World, op: Op, id: nat)
    requires Inv(cfg, w) && HasState(FilesOf(w), id, Closed)
    ensures var after := FilesOf(Step(cfg, w, op));
            if Evicts(w, op, id) then id !in after else id in after && after[id] == FilesOf(w)[id]
  {
    if id in FilesOf(Step(cfg, w, op)) {
      StatesMove(cfg, w, op, id);
    }
  }

  /** Over every run, crashes and reopens included, a closed segment that is not evicted is there at the
      end, closed and with the same bytes. */
  lemma {:induction false} ClosedStaysClosed(cfg: Config, start: World, ops: seq<Op>, id: nat)
    requires Inv(cfg, start) && HasState(FilesOf(start), id, Closed) && NeverEvicts(cfg, start, ops, id)
    ensures var end := FilesOf(Run(cfg, start, ops)); id in end && end[id] == FilesOf(start)[id]
    decreases |ops|
  {
    if ops != [] {
      StepKeeps(cfg, start, ops[0]);
      ClosedNext(cfg, start, ops[0], id);
      ClosedStaysClosed(cfg, Step(cfg, start, ops[0]), ops[1..], id);
    }
  }

  // ---------------------------------------------------------------- quota

  /** All bytes in the directory: closed, active and quarantined files together. */
  ghost function DirectorySize(files: Files): nat {
    SizeBelow(files, NextId(files.Keys))
  }

  lemma DirectorySizeUpTo(files: Files, n: nat)
    requires IdsBelow(files, n)
    ensures SizeBelow(files, n) == DirectorySize(files)
  {
    assert NextId(files.Keys) <= n;
    SizeStopsAtLastId(files, NextId(files.Keys), n);
  }

  /** While the log is open its counter is the size of the directory. */
  lemma CounterIsSize(cfg: Config, log: Log, hist: History)
    requires Inv(cfg, Running(log, hist))
    ensures log.totalBytes == DirectorySize(log.files)
  {
    DirectorySizeUpTo(log.files, log.nextSegmentId);
  }

  lemma StoppingNeverGrows(cfg: Config, log: Log, hist: History, keep: nat)
    requires Inv(cfg, Running(log, hist))
    ensures DirectorySize(CloseStep(log)) == log.totalBytes
    ensures DirectorySize(CrashStep(log, keep)) <= log.totalBytes
  {
    SealKeepsFiles(cfg, log, hist);
    DirectorySizeUpTo(CloseStep(log), log.nextSegmentId);
    DirectorySizeUpTo(CrashStep(log, keep), log.nextSegmentId);
    if log.active.Some? {
      SizeAfterChange(log.files, CrashStep(log, keep), log.active.value.id, log.nextSegmentId);
    }
  }

  lemma OpeningKeepsSize(disk: Files)
    ensures DirectorySize(OpenStep(disk).files) == DirectorySize(disk)
  {
    var n := NextId(disk.Keys);
    SizeUnchanged(disk, Recovered(disk), n);
    DirectorySizeUpTo(Recovered(disk), n);
  }

  /** Opening counts the whole directory, and apart from that the files a crash left active. */
  lemma OpeningCounts(disk: Files)
    ensures OpenStep(disk).totalBytes == DirectorySize(disk)
    ensures OpenStep(disk).quarantinedAtOpen
         == DirectorySize(map id | id in disk && disk[id].state == Active :: disk[id])
  {
    OpeningKeepsSize(disk);
    assert Recovered(disk).Keys == disk.Keys;
    assert Leftover(disk) == map id | id in disk && disk[id].state == Active :: disk[id];
    DirectorySizeUpTo(Leftover(disk), NextId(disk.Keys));
  }

  lemma AppendWithinQuota(cfg: Config, log: Log, data: Bytes)
    requires ActivePresent(log) && log.totalBytes <= cfg.quotaLimit
    ensures AppendStep(cfg, log, data).0.totalBytes <= cfg.quotaLimit
  {
  }

  /** Append refuses exactly what is too large or would pass the quota, measured on the directory,
      and then changes nothing; otherwise the directory grows by one frame. */
  lemma AppendAcceptsIff(cfg: Config, log: Log, hist: History, data: Bytes)
    requires Inv(cfg, Running(log, hist))
    ensures var (after, r) := AppendStep(cfg, log, data);
            var size := HEADER_BYTES + |data|;
            && (r.Ok? <==> |data| <= cfg.maxRecordBytes
                           && DirectorySize(log.files) + size <= Min(cfg.quotaLimit, U64_MAX))
            && (r.Ok? ==> DirectorySize(after.files) == DirectorySize(log.files) + size)
            && (r.Err? ==>
                  (&& after == log
                   && r.error == if |data| > cfg.maxRecordBytes then RecordTooLarge(|data|, cfg.maxRecordBytes)
                                 else QuotaExceeded(DirectorySize(log.files), size, cfg.quotaLimit)))
  {
    CounterIsSize(cfg, log, hist);
    AppendKeeps(cfg, log, hist, data);
    var after := Step(cfg, Running(log, hist), Append(data));
    CounterIsSize(cfg, after.log, after.hist);
    assert |Frame(data)| == HEADER_BYTES + |data|;
  }

  /** An accepted record goes right behind the active segment's bytes if it still fits there, and
      else opens a new segment; no other file's bytes change. */
  lemma AppendGoesWhere(cfg: Config, log: Log, hist: History, data: Bytes)
    requires Inv(cfg, Running(log, hist)) && AppendStep(cfg, log, data).1.Ok?
    ensures var (after, r) := AppendStep(cfg, log, data);
            var at := r.value.segmentId;
            var stays := log.active.Some?
              && |log.files[log.active.value.id].bytes| + HEADER_BYTES + |data| <= cfg.maxSegmentBytes;
            && at == (if stays then log.active.value.id else log.nextSegmentId)
            && (stays <==> at in log.files)
            && at in after.files
            && after.files[at].bytes == (if stays then log.files[at].bytes else []) + Frame(data)
            && r.value.offset == (if stays then |log.files[at].bytes| else 0)
            && forall id <- log.files :: id != at ==>
                 id in after.files && after.files[id].bytes == log.files[id].bytes
  {
    if log.active.Some? {
      assert ActiveHolds(log, hist.content);
    }
    assert log.nextSegmentId !in log.files;
  }

  lemma RunningStepKeepsQuota(cfg: Config, log: Log, hist: History, op: Op)
    requires Inv(cfg, Running(log, hist)) && log.totalBytes <= cfg.quotaLimit
    ensures var after := Step(cfg, Running(log, hist), op);
            after.Running? ==> after.log.totalBytes <= cfg.quotaLimit
  {
    match op
    case Append(data) => AppendWithinQuota(cfg, log, data);
    case Evict =>
      if EvictStep(log).1.Some? {
        EvictKeepsCounters(cfg, log, hist);
      }
    case _ =>
  }

  lemma StepKeepsQuota(cfg: Config, w: World, op: Op)
    requires Inv(cfg, w)
    requires DirectorySize(FilesOf(w)) <= cfg.quotaLimit
    ensures DirectorySize(FilesOf(Step(cfg, w, op))) <= cfg.quotaLimit
  {
    var after := Step(cfg, w, op);
    StepKeeps(cfg, w, op);
    match w
    case Running(log, hist) =>
      CounterIsSize(cfg, log, hist);
      if after.Running? {
        CounterIsSize(cfg, after.log, after.hist);
        RunningStepKeepsQuota(cfg, log, hist, op);
      } else {
        StoppingNeverGrows(cfg, log, hist, if op.Crash? then op.keep else 0);
      }
    case Stopped(disk, hist) =>
      OpeningKeepsSize(disk);
  }

  /** The counter always is the true size, and no run started within the quota passes it. */
  lemma {:induction false} QuotaNeverPassed(cfg: Config, start: World, ops: seq<Op>)
    requires Inv(cfg, start) && DirectorySize(FilesOf(start)) <= cfg.quotaLimit
    ensures var end := Run(cfg, start, ops);
            && DirectorySize(FilesOf(end)) <= cfg.quotaLimit
            && (end.Running? ==> end.log.totalBytes == DirectorySize(end.log.files))
    decreases |ops|
  {
    if ops == [] {
      if start.Running? {
        DirectorySizeUpTo(start.log.files, start.log.nextSegmentId);
      }
    } else {
      StepKeeps(cfg, start, ops[0]);
      StepKeepsQuota(cfg, start, ops[0]);
      QuotaNeverPassed(cfg, Step(cfg, start, ops[0]), ops[1..]);
    }
  }
}
