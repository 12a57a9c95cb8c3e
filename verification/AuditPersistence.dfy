/** The audit segment store: one file per segment id, written beside and renamed into place, and
    the offline check that walks every segment in id order. */
module AuditPersistence {
  import opened Common
  import opened AuditChain

  type SegmentFiles = map<nat, Segment>

  datatype VerifyReport = VerifyReport(segmentsVerified: nat, recordsVerified: nat)

  /** How far a write got: it finished, or the process died before or after the rename. */
  datatype WriteFate = Completes | Fails | DiesBeforeRename | DiesAfterRename

  // ---------------------------------------------------------------- what verify_all accepts

  /** The segment id on disk right below `id`. */
  function Previous(files: SegmentFiles, id: nat): (r: Option<nat>)
    ensures r.Some? ==> r.value in files && r.value < id && forall k <- files :: k < id ==> k <= r.value
    ensures r.None? ==> forall k <- files :: id <= k
  {
    if id == 0 then None
    else if id - 1 in files then Some(id - 1)
    else Previous(files, id - 1)
  }

  function PreviousTip(files: SegmentFiles, id: nat): Option<Digest> {
    match Previous(files, id)
    case None => None
    case Some(before) => Some(Tip(files[before]))
  }

  /** Segment `id` anchors at the tip of the segment before it, if there is one. */
  predicate Continues(files: SegmentFiles, id: nat)
    requires id in files && files[id].records != []
  {
    var before := Previous(files, id);
    before.Some? ==> files[id].records[0].prevHash == Tip(files[before.value])
  }

  /** Segment `id` verifies on its own and continues the segment before it. */
  ghost predicate SegmentSound(c: Crypto, files: SegmentFiles, id: nat)
    requires id in files
  {
    Accepted(c, files[id]) && Continues(files, id)
  }

  ghost predicate StoreSound(c: Crypto, files: SegmentFiles) {
    forall id <- files :: SegmentSound(c, files, id)
  }

  /** Why segment `id` is unsound: its own verdict, or else the broken link to the one before. */
  ghost predicate UnsoundBecause(c: Crypto, files: SegmentFiles, id: nat, e: VerifyError)
    requires id in files
  {
    if Accepted(c, files[id]) then e == ChainBroken(0) && !Continues(files, id)
    else SegmentVerdictHolds(c, files[id], Invalid(e))
  }

  /** The error belongs to the first unsound segment in id order. */
  ghost predicate FirstUnsound(c: Crypto, files: SegmentFiles, id: nat, e: VerifyError) {
    && id in files
    && (forall k <- files :: k < id ==> SegmentSound(c, files, k))
    && UnsoundBecause(c, files, id, e)
  }

  function RecordsIn(files: SegmentFiles, ids: seq<nat>): nat
    requires forall id <- ids :: id in files
  {
    if ids == [] then 0
    else RecordsIn(files, ids[..|ids| - 1]) + |files[ids[|ids| - 1]].records|
  }

  const BY_VALUE: nat -> nat := (n: nat) => n

  ghost predicate IsListing(files: SegmentFiles, ids: seq<nat>) {
    SortedBy(BY_VALUE, ids) && forall id :: id in ids <==> id in files
  }

  ghost function TipBefore(files: SegmentFiles, ids: seq<nat>, i: nat): Option<Digest>
    requires IsListing(files, ids) && i <= |ids|
  {
    if i == 0 then None
    else
      assert ids[i - 1] in ids;
      Some(Tip(files[ids[i - 1]]))
  }

  ghost predicate SoundUpTo(c: Crypto, files: SegmentFiles, ids: seq<nat>, i: nat)
    requires i <= |ids|
  {
    forall k :: 0 <= k < i ==> ids[k] in files && SegmentSound(c, files, ids[k])
  }

  class SegmentStore {
    var files: SegmentFiles
    /** Leftovers of interrupted writes; never listed, never read. */
    var temporaries: SegmentFiles

    constructor ()
      ensures files == map[] && temporaries == map[]
    {
      files := map[];
      temporaries := map[];
    }

    method Write(segment: Segment, fate: WriteFate)
      modifies this
      ensures files == if fate.DiesBeforeRename? || fate.Fails? then old(files)
                       else old(files)[segment.segmentId := segment]
      ensures fate.Completes? ==> segment.segmentId !in temporaries
    {
      var id := segment.segmentId;
      temporaries := temporaries[id := segment];
      if fate.DiesBeforeRename? || fate.Fails? {
        return;
      }
      files := files[id := temporaries[id]];
      temporaries := temporaries - {id};
    }

    method ListIds() returns (ids: seq<nat>)
      ensures IsListing(files, ids)
    {
      ids := [];
      var todo := files.Keys;
      while todo != {}
        invariant todo <= files.Keys
        invariant SortedBy(BY_VALUE, ids)
        invariant forall id :: id in ids <==> id in files && id !in todo
        decreases todo
      {
        var id :| id in todo;
        todo := todo - {id};
        InsertKeepsSorted(BY_VALUE, ids, id);
        ids := InsertBy(BY_VALUE, ids, id);
      }
    }

    /** One turn of the walk: the segment on its own, then against the tip before it. */
    method CheckSegment(c: Crypto, id: nat, previousTip: Option<Digest>) returns (e: Option<VerifyError>)
      requires id in files
      requires previousTip == PreviousTip(files, id)
      ensures e.None? <==> SegmentSound(c, files, id)
      ensures e.Some? ==> UnsoundBecause(c, files, id, e.value)
    {
      var segment := files[id];
      var verdict := VerifySegment(c, segment);
      if verdict.Invalid? {
        InvalidNotAccepted(c, segment, verdict.error);
        return Some(verdict.error);
      }
      if previousTip.Some? {
        if segment.records[0].prevHash != previousTip.value {
          return Some(ChainBroken(0));
        }
        var again := VerifyChain(c, segment.records, previousTip.value, segment.records[0].record.seqNo);
        VerdictUnique(c, segment.records, previousTip.value, segment.records[0].record.seqNo,
                      again, Ok(Tip(segment)));
      }
      e := None;
    }

    method VerifyAll(c: Crypto) returns (r: Result<VerifyReport, VerifyError>, ghost ids: seq<nat>, ghost at: nat)
      ensures IsListing(files, ids)
      ensures r.Ok? <==> StoreSound(c, files)
      ensures r.Ok? ==> r.value == VerifyReport(|ids|, RecordsIn(files, ids))
      ensures r.Err? ==> FirstUnsound(c, files, at, r.error)
    {
      var listed := ListIds();
      ids := listed;
      at := 0;
      var segmentsVerified, recordsVerified := 0, 0;
      var previousTip: Option<Digest> := None;
      for i := 0 to |listed|
        invariant previousTip == TipBefore(files, listed, i)
        invariant SoundUpTo(c, files, listed, i)
        invariant segmentsVerified == i && recordsVerified == RecordsIn(files, listed[..i])
      {
        var id := listed[i];
        at := id;
        ListedTipBefore(files, listed, i);
        var e := CheckSegment(c, id, previousTip);
        if e.Some? {
          FirstUnsoundListed(c, files, listed, i, e.value);
          return Err(e.value), ids, at;
        }
        previousTip := Some(Tip(files[id]));
        assert listed[..i + 1][..i] == listed[..i];
        segmentsVerified := segmentsVerified + 1;
        recordsVerified := recordsVerified + |files[id].records|;
      }
      assert listed[..|listed|] == listed;
      AllListedSound(c, files, listed);
      r := Ok(VerifyReport(segmentsVerified, recordsVerified));
    }
  }

  lemma FirstUnsoundListed(c: Crypto, files: SegmentFiles, ids: seq<nat>, i: nat, e: VerifyError)
    requires IsListing(files, ids) && i < |ids|
    requires SoundUpTo(c, files, ids, i)
    requires UnsoundBecause(c, files, ids[i], e)
    ensures FirstUnsound(c, files, ids[i], e) && !StoreSound(c, files)
  {
    ListingPrevious(files, ids, i);
  }

  /** The tip the walk carries is the tip of the segment right below. */
  lemma ListedTipBefore(files: SegmentFiles, ids: seq<nat>, i: nat)
    requires IsListing(files, ids) && i < |ids|
    ensures ids[i] in ids && ids[i] in files
    ensures TipBefore(files, ids, i) == PreviousTip(files, ids[i])
  {
    ListingPrevious(files, ids, i);
  }

  lemma AllListedSound(c: Crypto, files: SegmentFiles, ids: seq<nat>)
    requires IsListing(files, ids) && SoundUpTo(c, files, ids, |ids|)
    ensures StoreSound(c, files)
  {
  }

  /** In a sorted listing, the entry before position `i` is the id right below. */
  lemma ListingPrevious(files: SegmentFiles, ids: seq<nat>, i: nat)
    requires IsListing(files, ids) && i < |ids|
    ensures Previous(files, ids[i]) == if i == 0 then None else Some(ids[i - 1])
    ensures forall k <- files :: k < ids[i] ==> exists j :: 0 <= j < i && ids[j] == k
  {
    forall k | k in files
      ensures k < ids[i] ==> exists j :: 0 <= j < i && ids[j] == k
      ensures i > 0 && k < ids[i] ==> k <= ids[i - 1]
    {
      var j :| 0 <= j < |ids| && ids[j] == k;
      assert i <= j ==> BY_VALUE(ids[i]) <= BY_VALUE(ids[j]);
      assert j < i - 1 ==> BY_VALUE(ids[j]) < BY_VALUE(ids[i - 1]);
    }
    if i > 0 {
      assert BY_VALUE(ids[i - 1]) < BY_VALUE(ids[i]);
      assert ids[i - 1] in ids;
    }
  }

  // ---------------------------------------------------------------- what verify_all cannot see

  /** Nothing fixes the ends of the chain: dropping the oldest or the newest segment of a sound
      store leaves a sound store. */
  lemma EndsMayBeCut(c: Crypto, files: SegmentFiles, id: nat)
    requires StoreSound(c, files) && id in files
    requires (forall k <- files :: id <= k) || (forall k <- files :: k <= id)
    ensures StoreSound(c, files - {id})
  {
    var rest := files - {id};
    forall k | k in rest
      ensures SegmentSound(c, rest, k)
    {
      assert SegmentSound(c, files, k);
      PreviousWithout(files, id, k);
    }
  }

  lemma PreviousWithout(files: SegmentFiles, id: nat, k: nat)
    requires id in files && k in files && k != id
    ensures Previous(files - {id}, k)
         == if Previous(files, k) == Some(id) then Previous(files, id) else Previous(files, k)
  {
    var rest := files - {id};
    assert forall j <- files :: j == id || j in rest;
  }

  /** Dropping a segment between two others goes unnoticed exactly when it had left the tip as it
      found it. */
  lemma MiddleCutNoticed(c: Crypto, files: SegmentFiles, before: nat, id: nat, after: nat)
    requires StoreSound(c, files) && id in files && after in files
    requires Previous(files, id) == Some(before) && Previous(files, after) == Some(id)
    ensures StoreSound(c, files - {id}) <==> Tip(files[before]) == Tip(files[id])
  {
    var rest := files - {id};
    assert SegmentSound(c, files, after);
    PreviousWithout(files, id, after);
    if Tip(files[before]) == Tip(files[id]) {
      forall k | k in rest
        ensures SegmentSound(c, rest, k)
      {
        assert SegmentSound(c, files, k);
        PreviousWithout(files, id, k);
      }
    } else {
      assert after in rest && !Continues(rest, after);
    }
  }
}
