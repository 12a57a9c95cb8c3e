/** The evidence log as the daemon holds it: an object with counters over a shared directory,
    every method proved against the value model of `EvidenceLog`. */
module SegmentLogObject {
  import opened Common
  import opened Framing
  import opened EvidenceLog

  /** The directory on disk; it outlives the log objects opened on it. */
  class Directory {
    var files: Files

    constructor ()
      ensures files == map[]
    {
      files := map[];
    }
  }

  datatype SegmentInfo = SegmentInfo(id: nat, sizeBytes: nat, recordCount: nat, state: FileState)

  const BY_ID: SegmentInfo -> nat := (info: SegmentInfo) => info.id

  /** First pass of `open`: every leftover active file becomes a quarantined one. */
  method QuarantineLeftovers(dir: Directory) returns (quarantined: nat)
    modifies dir
    ensures dir.files == Recovered(old(dir.files))
    ensures quarantined == SizeBelow(Leftover(old(dir.files)), NextId(Recovered(old(dir.files)).Keys))
  {
    ghost var before := dir.files;
    ghost var n := NextId(Recovered(before).Keys);
    assert before.Keys == Recovered(before).Keys;
    ghost var seen: Files := map[];
    NothingWeighsNothing(n);
    var todo := dir.files.Keys;
    quarantined := 0;
    while todo != {}
      invariant todo <= before.Keys == dir.files.Keys
      invariant forall id <- before :: dir.files[id] == if id in todo then before[id] else Recovered(before)[id]
      invariant seen == map id | id in Leftover(before) && id !in todo :: before[id]
      invariant quarantined == SizeBelow(seen, n)
      decreases todo
    {
      var id :| id in todo;
      todo := todo - {id};
      if dir.files[id].state == Active {
        quarantined := quarantined + |dir.files[id].bytes|;
        dir.files := dir.files[id := dir.files[id].(state := Quarantined)];
        SizeAfterChange(seen, seen[id := before[id]], id, n);
        seen := seen[id := before[id]];
      }
    }
    assert seen == Leftover(before);
    assert dir.files == Recovered(before);
  }

  /** Second pass of `open`: total size and the id after the highest one present. */
  method Scan(dir: Directory) returns (total: nat, next: nat)
    ensures next == NextId(dir.files.Keys) && total == SizeBelow(dir.files, next)
  {
    ghost var n := NextId(dir.files.Keys);
    ghost var seen: Files := map[];
    NothingWeighsNothing(n);
    var todo := dir.files.Keys;
    total, next := 0, 0;
    while todo != {}
      invariant todo <= dir.files.Keys
      invariant seen == map id | id in dir.files && id !in todo :: dir.files[id]
      invariant total == SizeBelow(seen, n)
      invariant IsNextId(seen.Keys, next)
      decreases todo
    {
      var id :| id in todo;
      todo := todo - {id};
      total := total + |dir.files[id].bytes|;
      next := if id < next then next else id + 1;
      SizeAfterChange(seen, seen[id := dir.files[id]], id, n);
      seen := seen[id := dir.files[id]];
    }
    assert seen == dir.files;
    NextIdUnique(dir.files.Keys, next, n);
  }

  ghost predicate HasEntry(listing: seq<SegmentInfo>, id: nat) {
    exists e :: e in listing && e.id == id
  }

  /** An entry of the listing tells its file's state, size and number of records; of the files that are
      not closed only the writer's own is counted. */
  ghost predicate Describes(e: SegmentInfo, files: Files, active: Option<ActiveSegment>) {
    && e.id in files
    && e.state == files[e.id].state
    && e.sizeBytes == |files[e.id].bytes|
    && (e.state == Closed ==> e.recordCount == |Parse(files[e.id].bytes).records|)
    && (e.state != Closed ==>
          e.recordCount == if active.Some? && active.value.id == e.id then active.value.recordCount else 0)
  }

  class SegmentLog {
    const cfg: Config
    const dir: Directory
    var active: Option<ActiveSegment>
    var totalBytes: nat
    var nextSegmentId: nat
    var quarantinedAtOpen: nat

    ghost function Value(): Log
      reads this, dir
    {
      Log(dir.files, active, totalBytes, nextSegmentId, quarantinedAtOpen)
    }

    ghost predicate Valid()
      reads this, dir
    {
      ActivePresent(Value()) && IdsBelow(dir.files, nextSegmentId)
    }

    constructor Open(cfg: Config, dir: Directory)
      modifies dir
      ensures this.cfg == cfg && this.dir == dir
      ensures Valid() && Value() == OpenStep(old(dir.files))
    {
      var quarantined := QuarantineLeftovers(dir);
      var total, next := Scan(dir);
      this.cfg := cfg;
      this.dir := dir;
      active := None;
      totalBytes := total;
      nextSegmentId := next;
      quarantinedAtOpen := quarantined;
    }

    method Rotate()
      requires Valid()
      modifies this, dir
      ensures Valid() && Value() == RotateStep(old(Value()))
    {
      if active.Some? {
        var id := active.value.id;
        dir.files := dir.files[id := dir.files[id].(state := Closed)];
      }
      var id := nextSegmentId;
      nextSegmentId := nextSegmentId + 1;
      dir.files := dir.files[id := SegmentFile(Active, [])];
      active := Some(ActiveSegment(id, 0, 0));
    }

    method Append(data: Bytes) returns (r: Result<Receipt, StorageError>)
      requires Valid()
      modifies this, dir
      ensures Valid() && (Value(), r) == AppendStep(cfg, old(Value()), data)
    {
      if |data| > cfg.maxRecordBytes {
        return Err(RecordTooLarge(|data|, cfg.maxRecordBytes));
      }
      var size := HEADER_BYTES + |data|;
      if Check(cfg.quotaLimit, totalBytes, size).No? {
        return Err(QuotaExceeded(totalBytes, size, cfg.quotaLimit));
      }
      if active.None? || active.value.writtenBytes + size > cfg.maxSegmentBytes {
        Rotate();
      }
      ghost var ready := ReadyLog(cfg, old(Value()), data);
      assert Value() == ready;
      var a := active.value;
      var file := dir.files[a.id];
      var headed := file.(bytes := file.bytes + U32Bytes(AsU32(|data|)));
      dir.files := dir.files[a.id := headed];
      dir.files := dir.files[a.id := headed.(bytes := headed.bytes + data)];
      assert headed.bytes + data == file.bytes + Frame(data);
      assert dir.files == WriteRecord(ready, data).files;
      active := Some(ActiveSegment(a.id, a.writtenBytes + size, a.recordCount + 1));
      totalBytes := totalBytes + size;
      r := Ok(Receipt(a.id, a.recordCount, a.writtenBytes, size));
    }

    /** Ends the session: only the directory is of interest afterwards. */
    method Close()
      requires Valid()
      modifies this, dir
      ensures dir.files == CloseStep(old(Value()))
    {
      if active.Some? {
        Rotate();
        var a := active.value;
        active := None;
        if a.writtenBytes == 0 {
          dir.files := dir.files - {a.id};
        }
      }
    }

    /** All segments, ascending by id, closed ones with their parsed record count. */
    method Segments() returns (out: seq<SegmentInfo>)
      requires Valid()
      ensures SortedBy(BY_ID, out)
      ensures forall id :: id in dir.files <==> HasEntry(out, id)
      ensures forall e <- out :: Describes(e, dir.files, active)
    {
      out := [];
      var todo := dir.files.Keys;
      while todo != {}
        invariant todo <= dir.files.Keys
        invariant SortedBy(BY_ID, out)
        invariant forall e <- out :: e.id !in todo
        invariant forall id <- dir.files :: id !in todo ==> HasEntry(out, id)
        invariant forall e <- out :: Describes(e, dir.files, active)
        decreases todo
      {
        var id :| id in todo;
        todo := todo - {id};
        var file := dir.files[id];
        var count := 0;
        if file.state == Closed {
          count := CountRecordsBestEffort(file.bytes);
        } else if active.Some? && active.value.id == id {
          count := active.value.recordCount;
        }
        ghost var was := out;
        var info := SegmentInfo(id, |file.bytes|, count, file.state);
        InsertKeepsSorted(BY_ID, out, info);
        out := InsertBy(BY_ID, out, info);
        forall k | k in dir.files && k !in todo
          ensures HasEntry(out, k)
        {
          if k != id {
            assert HasEntry(was, k);
            var e :| e in was && e.id == k;
            assert e in out;
          } else {
            assert info in out;
          }
        }
      }
    }

    method EvictOldestClosed() returns (r: Option<nat>)
      requires Valid()
      modifies this, dir
      ensures Valid() && (Value(), r) == EvictStep(old(Value()))
    {
      var segs := Segments();
      var i := 0;
      while i < |segs| && segs[i].state != Closed
        invariant 0 <= i <= |segs|
        invariant forall k :: 0 <= k < i ==> segs[k].state != Closed
      {
        i := i + 1;
      }
      ghost var oldest := FirstClosed(dir.files, 0, nextSegmentId);
      if i == |segs| {
        assert oldest == None;
        return None;
      }
      var target := segs[i];
      OldestIsFirst(segs, i, oldest);
      dir.files := dir.files - {target.id};
      totalBytes := SaturatingSub(totalBytes, target.sizeBytes);
      r := Some(target.id);
    }

    /** The first closed entry of the sorted listing is the lowest closed id. */
    lemma OldestIsFirst(segs: seq<SegmentInfo>, i: nat, oldest: Option<nat>)
      requires Valid() && SortedBy(BY_ID, segs) && i < |segs| && segs[i].state == Closed
      requires forall k :: 0 <= k < i ==> segs[k].state != Closed
      requires forall id :: id in dir.files <==> exists e :: e in segs && e.id == id
      requires forall e <- segs :: e.id in dir.files && e.state == dir.files[e.id].state
      requires oldest == FirstClosed(dir.files, 0, nextSegmentId)
      ensures oldest == Some(segs[i].id)
    {
      assert segs[i] in segs;
      assert oldest.Some?;
      var e :| e in segs && e.id == oldest.value;
      var k :| 0 <= k < |segs| && segs[k] == e;
    }
  }

  lemma {:induction false} NothingWeighsNothing(n: nat)
    ensures SizeBelow(map[], n) == 0
  {
    if n > 0 {
      NothingWeighsNothing(n - 1);
    }
  }
}
