/** The audit hash chain: canonical encoding, chaining, verification, and what verification
    proves about tampering. Hash and signature scheme are parameters; every tamper result reads
    "equal, or these two given records collide". */
module AuditChain {
  import opened Common

  type Digest = d: Bytes | |d| == 32
    witness [0, 0, 0, 0, 0, 0, 0, 0, 0, 0, 0, 0, 0, 0, 0, 0, 0, 0, 0, 0, 0, 0, 0, 0, 0, 0, 0, 0, 0, 0, 0, 0]

  const GENESIS: Digest :=
    [0, 0, 0, 0, 0, 0, 0, 0, 0, 0, 0, 0, 0, 0, 0, 0, 0, 0, 0, 0, 0, 0, 0, 0, 0, 0, 0, 0, 0, 0, 0, 0]

  /** `recordHash` hashes a record behind its predecessor's hash and `commitment` hashes a payload,
      as `HashedBytes` below derives them from BLAKE3;
      `verifies(publicKey, message, signature)` stands for Ed25519 (section 5.1 of RFC 8032). */
  datatype Crypto = Crypto(
    recordHash: (Digest, AuditRecord) -> Digest,
    commitment: Bytes -> Digest,
    verifies: (Bytes, Digest, Bytes) -> bool)

  datatype Signer = Signer(publicKey: Bytes, sign: Digest -> Bytes)

  /** What a signature scheme promises of its own signatures. */
  ghost predicate Genuine(c: Crypto, signer: Signer) {
    forall m: Digest :: c.verifies(signer.publicKey, m, signer.sign(m))
  }

  datatype AuditRecord = AuditRecord(
    seqNo: nat,
    timestampUs: int,
    tenantId: Bytes,
    kind: Bytes,
    payloadCommitment: Digest,
    redacted: bool)

  datatype ChainedRecord = ChainedRecord(record: AuditRecord, prevHash: Digest, recordHash: Digest)

  datatype Segment = Segment(
    segmentId: nat,
    records: seq<ChainedRecord>,
    tipSignature: Bytes,
    signerPubkey: Bytes)

  datatype VerifyError =
    | SeqBroken(index: nat, expected: nat, got: nat)
    | ChainBroken(index: nat)
    | RecordHashMismatch(index: nat)
    | BadSignature
    | EmptySegment

  /** The answer of `verify_segment`. */
  datatype Verdict = Valid | Invalid(error: VerifyError)

  // ---------------------------------------------------------------- canonical bytes

  /** `i64::to_be_bytes`: two's complement. */
  function I64Bytes(t: int): (r: Bytes)
    ensures |r| == 8
  {
    U64Bytes(t % U64_MODULUS)
  }

  /** A string behind its 32-bit length. */
  function Counted(s: Bytes): Bytes {
    U32Bytes(AsU32(|s|)) + s
  }

  function CommitmentPart(r: AuditRecord): Bytes {
    r.payloadCommitment + [if r.redacted then 1 else 0]
  }

  function StringsPart(r: AuditRecord): Bytes {
    Counted(r.tenantId) + (Counted(r.kind) + CommitmentPart(r))
  }

  /** Sequence number, timestamp, tenant, kind, commitment and redaction flag, in this order. */
  function CanonicalBytes(r: AuditRecord): Bytes {
    U64Bytes(r.seqNo % U64_MODULUS) + (I64Bytes(r.timestampUs) + StringsPart(r))
  }

  /** The machine ranges of the fields, and strings whose length fits the 32-bit counter. */
  predicate InRange(r: AuditRecord) {
    && r.seqNo < U64_MODULUS
    && -0x8000_0000_0000_0000 <= r.timestampUs < 0x8000_0000_0000_0000
    && |r.tenantId| < U32_MODULUS
    && |r.kind| < U32_MODULUS
  }

  lemma CountedParts(front: Bytes, n: Bytes, s: Bytes, behind: Bytes)
    requires |n| == 4
    ensures var b, i := front + (n + s) + behind, |front|;
            |b| >= i + 4 + |s| && b[i..i + 4] == n && b[i + 4..i + 4 + |s|] == s
  {
  }

  lemma {:induction false} CountedHolds(front: Bytes, s: Bytes, behind: Bytes)
    requires |s| < 0x1_0000_0000
    ensures var b, i := front + Counted(s) + behind, |front|;
            |b| >= i + 4 + |s| && Number(b[i..i + 4]) == |s| && b[i + 4..i + 4 + |s|] == s
  {
    U32IsNumber(|s|);
    CountedParts(front, U32Bytes(|s|), s, behind);
  }

  lemma TwoInFront(x: Bytes, y: Bytes, behind: Bytes)
    requires |x| == |y| == 8
    ensures var b := x + (y + behind); b[..8] == x && b[8..16] == y && b[16..] == behind
  {
  }

  /** Tenant and kind, each behind its length in four bytes, the commitment, and one byte for the flag. */
  predicate StringsLaidOut(b: Bytes, r: AuditRecord) {
    var k := 4 + |r.tenantId|;
    var c := k + 4 + |r.kind|;
    && |b| == c + 33
    && Number(b[..4]) == |r.tenantId| && b[4..k] == r.tenantId
    && Number(b[k..k + 4]) == |r.kind| && b[k + 4..c] == r.kind
    && b[c..c + 32] == r.payloadCommitment && b[c + 32] == if r.redacted then 1 else 0
  }

  lemma {:induction false} StringsLayout(r: AuditRecord)
    requires |r.tenantId| < 0x1_0000_0000 && |r.kind| < 0x1_0000_0000
    ensures StringsLaidOut(StringsPart(r), r)
  {
    var tenant, kind, end := Counted(r.tenantId), Counted(r.kind), CommitmentPart(r);
    assert StringsPart(r) == [] + tenant + (kind + end) == tenant + kind + end;
    CountedHolds([], r.tenantId, kind + end);
    CountedHolds(tenant, r.kind, end);
  }

  lemma {:induction false} SeqNoReads(x: Bytes, n: nat)
    requires n < 0x1_0000_0000_0000_0000 && x == U64Bytes(n % U64_MODULUS)
    ensures Number(x) == n
  {
    U64IsNumber(n % U64_MODULUS);
  }

  lemma {:induction false} TimestampReads(x: Bytes, t: int)
    requires -0x8000_0000_0000_0000 <= t < 0x8000_0000_0000_0000 && x == I64Bytes(t)
    ensures Number(x) == if t >= 0 then t else 0x1_0000_0000_0000_0000 + t
  {
    U64IsNumber(t % U64_MODULUS);
  }

  /** Sequence number and timestamp in eight bytes each, most significant first and the timestamp in
      two's complement; then the rest of the record. */
  predicate LaidOut(b: Bytes, r: AuditRecord) {
    var t := r.timestampUs;
    && |b| >= 16
    && Number(b[..8]) == r.seqNo
    && Number(b[8..16]) == (if t >= 0 then t else 0x1_0000_0000_0000_0000 + t)
    && StringsLaidOut(b[16..], r)
  }

  lemma {:induction false} PartsLaidOut(b: Bytes, r: AuditRecord, x: Bytes, y: Bytes, z: Bytes)
    requires |b| >= 16 && b[..8] == x && b[8..16] == y && b[16..] == z
    requires Number(x) == r.seqNo && StringsLaidOut(z, r)
    requires Number(y) == if r.timestampUs >= 0 then r.timestampUs else 0x1_0000_0000_0000_0000 + r.timestampUs
    ensures LaidOut(b, r)
  {
  }

  /** The canonical bytes are the record's fields, position by position. */
  lemma {:induction false} CanonicalLayout(r: AuditRecord)
    requires r.seqNo < 0x1_0000_0000_0000_0000
    requires -0x8000_0000_0000_0000 <= r.timestampUs < 0x8000_0000_0000_0000
    requires |r.tenantId| < 0x1_0000_0000 && |r.kind| < 0x1_0000_0000
    ensures LaidOut(CanonicalBytes(r), r)
  {
    var x, y, z := U64Bytes(r.seqNo % U64_MODULUS), I64Bytes(r.timestampUs), StringsPart(r);
    SeqNoReads(x, r.seqNo);
    TimestampReads(y, r.timestampUs);
    StringsLayout(r);
    TwoInFront(x, y, z);
    PartsLaidOut(x + (y + z), r, x, y, z);
  }

  lemma PeelFixed(a: Bytes, x: Bytes, b: Bytes, y: Bytes)
    requires |a| == |b| && a + x == b + y
    ensures a == b && x == y
  {
    assert a == (a + x)[..|a|] && b == (b + y)[..|b|];
    assert x == (a + x)[|a|..] && y == (b + y)[|b|..];
  }

  lemma CountedApart(a: Bytes, x: Bytes)
    requires |a| < U32_MODULUS
    ensures Counted(a) + x == U32Bytes(|a|) + (a + x)
  {
  }

  lemma PeelCounted(a: Bytes, x: Bytes, b: Bytes, y: Bytes)
    requires |a| < U32_MODULUS && |b| < U32_MODULUS
    requires Counted(a) + x == Counted(b) + y
    ensures a == b && x == y
  {
    CountedApart(a, x);
    CountedApart(b, y);
    PeelFixed(U32Bytes(|a|), a + x, U32Bytes(|b|), b + y);
    assert |a| == |b| by {
      U32RoundTrip(|a|);
      U32RoundTrip(|b|);
    }
    PeelFixed(a, x, b, y);
  }

  lemma PeelTwo(h: Bytes, t: Bytes, x: Bytes, h': Bytes, t': Bytes, y: Bytes)
    requires |h| == |h'| && |t| == |t'| && h + (t + x) == h' + (t' + y)
    ensures h == h' && t == t' && x == y
  {
    PeelFixed(h, t + x, h', t' + y);
    PeelFixed(t, x, t', y);
  }

  /** The two leading integers of the canonical form stand apart from the strings behind them. */
  lemma PeelIntegers(a: AuditRecord, b: AuditRecord)
    requires CanonicalBytes(a) == CanonicalBytes(b)
    ensures U64Bytes(a.seqNo % U64_MODULUS) == U64Bytes(b.seqNo % U64_MODULUS)
    ensures I64Bytes(a.timestampUs) == I64Bytes(b.timestampUs)
    ensures StringsPart(a) == StringsPart(b)
  {
    PeelTwo(U64Bytes(a.seqNo % U64_MODULUS), I64Bytes(a.timestampUs), StringsPart(a),
            U64Bytes(b.seqNo % U64_MODULUS), I64Bytes(b.timestampUs), StringsPart(b));
  }

  lemma IntegersInjective(a: AuditRecord, b: AuditRecord)
    requires InRange(a) && InRange(b)
    requires U64Bytes(a.seqNo % U64_MODULUS) == U64Bytes(b.seqNo % U64_MODULUS)
    requires I64Bytes(a.timestampUs) == I64Bytes(b.timestampUs)
    ensures a.seqNo == b.seqNo && a.timestampUs == b.timestampUs
  {
    assert a.seqNo == b.seqNo by {
      U64BytesInjective(a.seqNo % U64_MODULUS, b.seqNo % U64_MODULUS);
    }
    U64BytesInjective(a.timestampUs % U64_MODULUS, b.timestampUs % U64_MODULUS);
    ResidueOfI64(a.timestampUs, b.timestampUs);
  }

  lemma ResidueOfI64(t: int, u: int)
    requires -0x8000_0000_0000_0000 <= t < 0x8000_0000_0000_0000
    requires -0x8000_0000_0000_0000 <= u < 0x8000_0000_0000_0000
    requires t % U64_MODULUS == u % U64_MODULUS
    ensures t == u
  {
  }

  lemma PeelCommitment(a: AuditRecord, b: AuditRecord)
    requires CommitmentPart(a) == CommitmentPart(b)
    ensures a.payloadCommitment == b.payloadCommitment && a.redacted == b.redacted
  {
    var fa: Bytes, fb: Bytes := [if a.redacted then 1 else 0], [if b.redacted then 1 else 0];
    PeelFixed(a.payloadCommitment, fa, b.payloadCommitment, fb);
    assert fa[0] == fb[0];
  }

  lemma PeelStrings(a: AuditRecord, b: AuditRecord)
    requires InRange(a) && InRange(b) && StringsPart(a) == StringsPart(b)
    ensures a.tenantId == b.tenantId && a.kind == b.kind && CommitmentPart(a) == CommitmentPart(b)
  {
    PeelCounted(a.tenantId, Counted(a.kind) + CommitmentPart(a), b.tenantId, Counted(b.kind) + CommitmentPart(b));
    PeelCounted(a.kind, CommitmentPart(a), b.kind, CommitmentPart(b));
  }

  /** Equal canonical bytes, equal records. */
  lemma CanonicalInjective(a: AuditRecord, b: AuditRecord)
    requires InRange(a) && InRange(b)
    requires CanonicalBytes(a) == CanonicalBytes(b)
    ensures a == b
  {
    PeelIntegers(a, b);
    IntegersInjective(a, b);
    PeelStrings(a, b);
    PeelCommitment(a, b);
  }

  // ---------------------------------------------------------------- hashing

  function Preimage(prevHash: Digest, r: AuditRecord): Bytes {
    prevHash + CanonicalBytes(r)
  }

  /** `record_hash`: a byte-string hash over the previous hash and the canonical bytes. */
  function HashedBytes(hash: Bytes -> Digest, verifies: (Bytes, Digest, Bytes) -> bool): Crypto {
    Crypto((prevHash, r) => hash(Preimage(prevHash, r)), hash, verifies)
  }

  /** Two different links of the chain have one digest. */
  predicate Collide(c: Crypto, a: ChainedRecord, b: ChainedRecord) {
    && (a.prevHash != b.prevHash || a.record != b.record)
    && c.recordHash(a.prevHash, a.record) == c.recordHash(b.prevHash, b.record)
  }

  /** Such links are a collision of the byte-string hash: two different inputs, one output. */
  lemma CollisionIsInTheHash(hash: Bytes -> Digest, verifies: (Bytes, Digest, Bytes) -> bool,
                             a: ChainedRecord, b: ChainedRecord)
    requires InRange(a.record) && InRange(b.record)
    ensures var x, y := a.prevHash + CanonicalBytes(a.record), b.prevHash + CanonicalBytes(b.record);
            Collide(HashedBytes(hash, verifies), a, b) <==> x != y && hash(x) == hash(y)
  {
    if Preimage(a.prevHash, a.record) == Preimage(b.prevHash, b.record) {
      PeelFixed(a.prevHash, CanonicalBytes(a.record), b.prevHash, CanonicalBytes(b.record));
      CanonicalInjective(a.record, b.record);
    }
  }

  // ---------------------------------------------------------------- verification

  /** The digest record `i` has to link to. */
  function LinkTo(records: seq<ChainedRecord>, anchor: Digest, i: nat): Digest
    requires i <= |records|
  {
    if i == 0 then anchor else records[i - 1].recordHash
  }

  predicate SeqOk(records: seq<ChainedRecord>, start: nat, i: nat)
    requires i < |records|
  {
    records[i].record.seqNo == start + i
  }

  predicate LinkOk(records: seq<ChainedRecord>, anchor: Digest, i: nat)
    requires i < |records|
  {
    records[i].prevHash == LinkTo(records, anchor, i)
  }

  predicate HashOk(c: Crypto, records: seq<ChainedRecord>, i: nat)
    requires i < |records|
  {
    c.recordHash(records[i].prevHash, records[i].record) == records[i].recordHash
  }

  predicate GoodAt(c: Crypto, records: seq<ChainedRecord>, anchor: Digest, start: nat, i: nat)
    requires i < |records|
  {
    SeqOk(records, start, i) && LinkOk(records, anchor, i) && HashOk(c, records, i)
  }

  /** The first `n` records chain from `anchor` and number from `start`. */
  ghost predicate Chained(c: Crypto, records: seq<ChainedRecord>, anchor: Digest, start: nat, n: nat)
    requires n <= |records|
  {
    forall i :: 0 <= i < n ==> GoodAt(c, records, anchor, start, i)
  }

  /** What a verdict claims: acceptance of the whole run with its tip, or the kind of break found
      at the least failing index, sequence number checked before link before hash. */
  ghost predicate VerdictHolds(c: Crypto, records: seq<ChainedRecord>, anchor: Digest, start: nat,
                               r: Result<Digest, VerifyError>) {
    match r
    case Ok(tip) =>
      records != [] && Chained(c, records, anchor, start, |records|) && tip == records[|records| - 1].recordHash
    case Err(SeqBroken(i, expected, got)) =>
      && i < |records| && Chained(c, records, anchor, start, i)
      && !SeqOk(records, start, i) && expected == start + i && got == records[i].record.seqNo
    case Err(ChainBroken(i)) =>
      && i < |records| && Chained(c, records, anchor, start, i)
      && SeqOk(records, start, i) && !LinkOk(records, anchor, i)
    case Err(RecordHashMismatch(i)) =>
      && i < |records| && Chained(c, records, anchor, start, i)
      && SeqOk(records, start, i) && LinkOk(records, anchor, i) && !HashOk(c, records, i)
    case Err(EmptySegment) => records == []
    case Err(BadSignature) => false
  }

  /** The claims are exclusive: a run has one verdict. */
  lemma VerdictUnique(c: Crypto, records: seq<ChainedRecord>, anchor: Digest, start: nat,
                      r: Result<Digest, VerifyError>, s: Result<Digest, VerifyError>)
    requires VerdictHolds(c, records, anchor, start, r) && VerdictHolds(c, records, anchor, start, s)
    ensures r == s
  {
    var i := if r.Err? && !r.error.EmptySegment? then r.error.index else |records|;
    var j := if s.Err? && !s.error.EmptySegment? then s.error.index else |records|;
    assert i < j ==> GoodAt(c, records, anchor, start, i);
    assert j < i ==> GoodAt(c, records, anchor, start, j);
  }

  method VerifyChain(c: Crypto, records: seq<ChainedRecord>, anchor: Digest, start: nat)
    returns (r: Result<Digest, VerifyError>)
    ensures VerdictHolds(c, records, anchor, start, r)
  {
    if records == [] {
      return Err(EmptySegment);
    }
    var prevHash, expected := anchor, start;
    for index := 0 to |records|
      invariant prevHash == LinkTo(records, anchor, index)
      invariant expected == start + index
      invariant Chained(c, records, anchor, start, index)
    {
      var cr := records[index];
      if cr.record.seqNo != expected {
        return Err(SeqBroken(index, expected, cr.record.seqNo));
      }
      if cr.prevHash != prevHash {
        return Err(ChainBroken(index));
      }
      var recomputed := c.recordHash(cr.prevHash, cr.record);
      if recomputed != cr.recordHash {
        return Err(RecordHashMismatch(index));
      }
      prevHash := cr.recordHash;
      expected := expected + 1;
    }
    r := Ok(prevHash);
  }

  function Tip(s: Segment): Digest {
    if s.records == [] then GENESIS else s.records[|s.records| - 1].recordHash
  }

  /** A segment verified in isolation: it anchors itself at what its first record claims. */
  ghost predicate SegmentVerdictHolds(c: Crypto, s: Segment, r: Verdict) {
    if s.records == [] then r == Invalid(EmptySegment)
    else
      var anchor, start := s.records[0].prevHash, s.records[0].record.seqNo;
      match r
      case Valid =>
        Chained(c, s.records, anchor, start, |s.records|) && c.verifies(s.signerPubkey, Tip(s), s.tipSignature)
      case Invalid(BadSignature) =>
        Chained(c, s.records, anchor, start, |s.records|) && !c.verifies(s.signerPubkey, Tip(s), s.tipSignature)
      case Invalid(e) => VerdictHolds(c, s.records, anchor, start, Err(e))
  }

  lemma SegmentVerdictUnique(c: Crypto, s: Segment, r: Verdict, t: Verdict)
    requires SegmentVerdictHolds(c, s, r) && SegmentVerdictHolds(c, s, t)
    ensures r == t
  {
    if s.records != [] {
      var anchor, start := s.records[0].prevHash, s.records[0].record.seqNo;
      var n := |s.records|;
      var u := if r.Invalid? && !r.error.BadSignature? then Err(r.error) else Ok(Tip(s));
      var v := if t.Invalid? && !t.error.BadSignature? then Err(t.error) else Ok(Tip(s));
      VerdictUnique(c, s.records, anchor, start, u, v);
    }
  }

  ghost predicate Accepted(c: Crypto, s: Segment) {
    SegmentVerdictHolds(c, s, Valid)
  }

  lemma InvalidNotAccepted(c: Crypto, s: Segment, e: VerifyError)
    requires SegmentVerdictHolds(c, s, Invalid(e))
    ensures !Accepted(c, s)
  {
    if Accepted(c, s) {
      SegmentVerdictUnique(c, s, Valid, Invalid(e));
    }
  }

  method VerifySegment(c: Crypto, s: Segment) returns (r: Verdict)
    ensures SegmentVerdictHolds(c, s, r)
    ensures r == Invalid(EmptySegment) <==> s.records == []
    ensures r.Valid? ==> c.verifies(s.signerPubkey, s.records[|s.records| - 1].recordHash, s.tipSignature)
  {
    if s.records == [] {
      return Invalid(EmptySegment);
    }
    var chain := VerifyChain(c, s.records, s.records[0].prevHash, s.records[0].record.seqNo);
    match chain
    case Err(e) => r := Invalid(e);
    case Ok(tip) => r := if c.verifies(s.signerPubkey, tip, s.tipSignature) then Valid else Invalid(BadSignature);
  }

  // ---------------------------------------------------------------- the tip commits to history

  /** Some record of the one run and some record of the other collide. */
  ghost predicate RunsCollide(c: Crypto, a: seq<ChainedRecord>, b: seq<ChainedRecord>) {
    exists i, j :: 0 <= i < |a| && 0 <= j < |b| && Collide(c, a[i], b[j])
  }

  predicate IsSuffix(a: seq<ChainedRecord>, b: seq<ChainedRecord>) {
    |a| <= |b| && a == b[|b| - |a|..]
  }

  /** Dropping the last record of a chained run leaves a chained run. */
  lemma ChainedFront(c: Crypto, records: seq<ChainedRecord>, anchor: Digest, start: nat)
    requires records != [] && Chained(c, records, anchor, start, |records|)
    ensures var front := records[..|records| - 1]; Chained(c, front, anchor, start, |front|)
    ensures var n := |records| - 1;
            && records[n].prevHash == LinkTo(records[..n], anchor, n)
            && records[n].recordHash == c.recordHash(records[n].prevHash, records[n].record)
  {
    var front := records[..|records| - 1];
    assert GoodAt(c, records, anchor, start, |records| - 1);
    forall i | 0 <= i < |front|
      ensures GoodAt(c, front, anchor, start, i)
    {
      assert GoodAt(c, records, anchor, start, i);
    }
  }

  /** Two chained runs that end in the same digest: the shorter is a suffix of the longer. */
  lemma {:induction false} SameTipSuffix(c: Crypto, a: seq<ChainedRecord>, anchorA: Digest, startA: nat,
                                         b: seq<ChainedRecord>, anchorB: Digest, startB: nat)
    requires Chained(c, a, anchorA, startA, |a|) && Chained(c, b, anchorB, startB, |b|)
    requires LinkTo(a, anchorA, |a|) == LinkTo(b, anchorB, |b|)
    requires |a| <= |b| && !RunsCollide(c, a, b)
    ensures IsSuffix(a, b)
    ensures anchorA == LinkTo(b, anchorB, |b| - |a|)
    decreases |a|
  {
    if a == [] {
      assert b[|b|..] == [];
    } else {
      var n, m := |a| - 1, |b| - 1;
      ChainedFront(c, a, anchorA, startA);
      ChainedFront(c, b, anchorB, startB);
      assert a[n] == b[m] by {
        assert !Collide(c, a[n], b[m]);
      }
      var fa, fb := a[..n], b[..m];
      FrontsDoNotCollide(c, a, b);
      SameTipSuffix(c, fa, anchorA, startA, fb, anchorB, startB);
      GrowSuffix(a, b);
    }
  }

  lemma FrontsDoNotCollide(c: Crypto, a: seq<ChainedRecord>, b: seq<ChainedRecord>)
    requires a != [] && b != [] && !RunsCollide(c, a, b)
    ensures !RunsCollide(c, a[..|a| - 1], b[..|b| - 1])
  {
    var fa, fb := a[..|a| - 1], b[..|b| - 1];
    forall i, j | 0 <= i < |fa| && 0 <= j < |fb|
      ensures !Collide(c, fa[i], fb[j])
    {
      assert !Collide(c, a[i], b[j]);
    }
  }

  lemma GrowSuffix(a: seq<ChainedRecord>, b: seq<ChainedRecord>)
    requires 0 < |a| <= |b| && a[|a| - 1] == b[|b| - 1]
    requires IsSuffix(a[..|a| - 1], b[..|b| - 1])
    ensures IsSuffix(a, b)
  {
    var fa, fb := a[..|a| - 1], b[..|b| - 1];
    var last := [a[|a| - 1]];
    assert a == fa + last && b == fb + last;
    assert b[|b| - |a|..] == fb[|fb| - |fa|..] + last;
  }

  /** The tip commits to the history. Of two accepted runs with one tip, one is a suffix of the
      other, and they are equal with equal anchors when they start at the same number, unless a
      record of the one collides with a record of the other. */
  lemma TipCommits(c: Crypto, a: seq<ChainedRecord>, anchorA: Digest, startA: nat,
                   b: seq<ChainedRecord>, anchorB: Digest, startB: nat, tip: Digest)
    requires VerdictHolds(c, a, anchorA, startA, Ok(tip)) && VerdictHolds(c, b, anchorB, startB, Ok(tip))
    ensures IsSuffix(a, b) || IsSuffix(b, a) || RunsCollide(c, a, b)
    ensures startA == startB ==> (a == b && anchorA == anchorB) || RunsCollide(c, a, b)
  {
    assert GoodAt(c, a, anchorA, startA, |a| - 1) && GoodAt(c, b, anchorB, startB, |b| - 1);
    if |a| <= |b| && !RunsCollide(c, a, b) {
      SameTipSuffix(c, a, anchorA, startA, b, anchorB, startB);
      assert a[|a| - 1] == b[|b| - 1];
    } else if |b| <= |a| && !RunsCollide(c, b, a) {
      SameTipSuffix(c, b, anchorB, startB, a, anchorA, startA);
      assert a[|a| - 1] == b[|b| - 1];
    }
  }

  predicate AllInRange(records: seq<ChainedRecord>) {
    forall cr <- records :: InRange(cr.record)
  }

  /** Two different hash inputs with one output, among the inputs of these two runs. */
  ghost predicate BytesCollide(hash: Bytes -> Digest, a: seq<ChainedRecord>, b: seq<ChainedRecord>) {
    exists i, j :: 0 <= i < |a| && 0 <= j < |b|
      && Preimage(a[i].prevHash, a[i].record) != Preimage(b[j].prevHash, b[j].record)
      && hash(Preimage(a[i].prevHash, a[i].record)) == hash(Preimage(b[j].prevHash, b[j].record))
  }

  /** The same, said of the byte-string hash: one history is a suffix of the other, and they are equal
      with equal anchors when they start at the same number, or the given records themselves contain
      two different hash inputs with one output. */
  lemma TipCommitsOrHashBroken(hash: Bytes -> Digest, verifies: (Bytes, Digest, Bytes) -> bool,
                               a: seq<ChainedRecord>, anchorA: Digest, startA: nat,
                               b: seq<ChainedRecord>, anchorB: Digest, startB: nat, tip: Digest)
    requires VerdictHolds(HashedBytes(hash, verifies), a, anchorA, startA, Ok(tip))
    requires VerdictHolds(HashedBytes(hash, verifies), b, anchorB, startB, Ok(tip))
    requires AllInRange(a) && AllInRange(b)
    ensures IsSuffix(a, b) || IsSuffix(b, a) || BytesCollide(hash, a, b)
    ensures startA == startB ==> (a == b && anchorA == anchorB) || BytesCollide(hash, a, b)
  {
    var c := HashedBytes(hash, verifies);
    TipCommits(c, a, anchorA, startA, b, anchorB, startB, tip);
    if RunsCollide(c, a, b) {
      var i, j :| 0 <= i < |a| && 0 <= j < |b| && Collide(c, a[i], b[j]);
      CollisionIsInTheHash(hash, verifies, a[i], b[j]);
    }
  }

  // ---------------------------------------------------------------- break localisation

  /** Replacing the record at one position of an accepted segment is reported at that position or
      the next, or the tip signature fails, unless the replacement collides with the original or
      the one signature also verifies over a second tip. */
  lemma BreakLocalised(c: Crypto, s: Segment, i: nat, x: ChainedRecord, r: Verdict)
    requires Accepted(c, s) && i < |s.records| && x != s.records[i]
    requires SegmentVerdictHolds(c, s.(records := s.records[i := x]), r)
    ensures var t := s.(records := s.records[i := x]);
            || (r.Invalid? && (r.error.SeqBroken? || r.error.ChainBroken? || r.error.RecordHashMismatch?)
                && i <= r.error.index <= i + 1)
            || r == Invalid(BadSignature)
            || Collide(c, s.records[i], x)
            || (r.Valid? && Tip(t) != Tip(s)
                && c.verifies(s.signerPubkey, Tip(s), s.tipSignature)
                && c.verifies(s.signerPubkey, Tip(t), s.tipSignature))
  {
    var was, now := s.records, s.records[i := x];
    var anchor, start := was[0].prevHash, was[0].record.seqNo;
    var anchor', start' := now[0].prevHash, now[0].record.seqNo;
    forall k | 0 <= k < i
      ensures GoodAt(c, now, anchor', start', k)
    {
      assert GoodAt(c, was, anchor, start, k);
    }
    assert GoodAt(c, was, anchor, start, i);
    if i + 1 < |was| {
      assert GoodAt(c, was, anchor, start, i + 1);
      assert !Collide(c, was[i], x) && GoodAt(c, now, anchor', start', i) ==>
          !GoodAt(c, now, anchor', start', i + 1);
    }
    if r.Invalid? && !r.error.BadSignature? {
      var j := r.error.index;
      assert !GoodAt(c, now, anchor', start', j);
      assert i < j ==> GoodAt(c, now, anchor', start', i);
      assert i + 1 < j ==> GoodAt(c, now, anchor', start', i + 1);
    } else {
      assert GoodAt(c, now, anchor', start', i);
      assert i + 1 < |now| ==> GoodAt(c, now, anchor', start', i + 1);
    }
  }

  // ---------------------------------------------------------------- redaction

  function Redacted(cr: ChainedRecord): ChainedRecord {
    cr.(record := cr.record.(redacted := true))
  }

  /** `mark_redacted` on an unredacted record of an accepted segment makes verification fail at
      exactly that record, with a hash mismatch, unless the flipped record collides with the
      original; on a record already redacted it changes nothing. */
  lemma RedactionBreaksExactly(c: Crypto, s: Segment, i: nat, r: Verdict)
    requires Accepted(c, s) && i < |s.records|
    requires SegmentVerdictHolds(c, s.(records := s.records[i := Redacted(s.records[i])]), r)
    ensures !s.records[i].record.redacted ==>
        r == Invalid(RecordHashMismatch(i)) || Collide(c, s.records[i], Redacted(s.records[i]))
    ensures s.records[i].record.redacted ==> r == Valid
  {
    var x := Redacted(s.records[i]);
    var was, now := s.records, s.records[i := x];
    var anchor, start := was[0].prevHash, was[0].record.seqNo;
    assert now[0].prevHash == anchor && now[0].record.seqNo == start;
    forall k | 0 <= k < |was|
      ensures k < i ==> GoodAt(c, now, anchor, start, k)
      ensures SeqOk(now, start, k) && LinkOk(now, anchor, k)
    {
      assert GoodAt(c, was, anchor, start, k);
    }
    assert GoodAt(c, was, anchor, start, i);
    if !was[i].record.redacted {
      if !HashOk(c, now, i) {
        SegmentVerdictUnique(c, s.(records := now), r, Invalid(RecordHashMismatch(i)));
      }
    } else {
      assert now == was;
      assert s.(records := now) == s;
      SegmentVerdictUnique(c, s, r, Valid);
    }
  }

  /** Records edited in place: redaction touches the flag of one record, neither its hashes nor its
      commitment. */
  class MutableSegment {
    var records: seq<ChainedRecord>

    constructor (records: seq<ChainedRecord>)
      ensures this.records == records
    {
      this.records := records;
    }

    method MarkRedacted(i: nat)
      requires i < |records|
      modifies this
      ensures |records| == |old(records)| && forall k :: 0 <= k < |records| && k != i ==> records[k] == old(records[k])
      ensures records[i].record.redacted
      ensures records[i].recordHash == old(records[i].recordHash) && records[i].prevHash == old(records[i].prevHash)
      ensures records[i].record.(redacted := false) == old(records[i].record).(redacted := false)
      ensures records == old(records) <==> old(records[i].record.redacted)
    {
      records := records[i := records[i].(record := records[i].record.(redacted := true))];
    }
  }

  // ---------------------------------------------------------------- the chain writer

  /** The open run of a chain: its records, the digest and number the next one gets. */
  datatype Run = Run(records: seq<ChainedRecord>, tip: Digest, nextSeq: nat)

  function FreshRun(tip: Digest, nextSeq: nat): Run {
    Run([], tip, nextSeq)
  }

  function NextLink(c: Crypto, run: Run, record: AuditRecord): ChainedRecord {
    var numbered := record.(seqNo := run.nextSeq);
    ChainedRecord(numbered, run.tip, c.recordHash(run.tip, numbered))
  }

  function Extend(c: Crypto, run: Run, record: AuditRecord): Run {
    var link := NextLink(c, run, record);
    Run(run.records + [link], link.recordHash, run.nextSeq + 1)
  }

  /** A run chains from where it was started and its cursor stands behind its last record. */
  ghost predicate RunHolds(c: Crypto, run: Run, anchor: Digest, start: nat) {
    && Chained(c, run.records, anchor, start, |run.records|)
    && run.tip == LinkTo(run.records, anchor, |run.records|)
    && run.nextSeq == start + |run.records|
  }

  lemma ExtendHolds(c: Crypto, run: Run, anchor: Digest, start: nat, record: AuditRecord)
    requires RunHolds(c, run, anchor, start)
    ensures RunHolds(c, Extend(c, run, record), anchor, start)
  {
    var longer := Extend(c, run, record);
    forall i | 0 <= i < |longer.records|
      ensures GoodAt(c, longer.records, anchor, start, i)
    {
      assert i < |run.records| ==> GoodAt(c, run.records, anchor, start, i);
    }
  }

  function SignedSegment(run: Run, id: nat, signer: Signer): Segment {
    Segment(id, run.records, signer.sign(run.tip), signer.publicKey)
  }

  /** Whatever a writer chained and signed, the verifier accepts. */
  lemma SignedSegmentAccepted(c: Crypto, run: Run, anchor: Digest, start: nat, id: nat, signer: Signer)
    requires RunHolds(c, run, anchor, start) && run.records != [] && Genuine(c, signer)
    ensures Accepted(c, SignedSegment(run, id, signer))
    ensures run.records[0].prevHash == anchor && run.records[0].record.seqNo == start
  {
    assert GoodAt(c, run.records, anchor, start, 0);
  }

  class ChainWriter {
    var records: seq<ChainedRecord>
    var tipHash: Digest
    var nextSeq: nat

    ghost function Value(): Run
      reads this
    {
      Run(records, tipHash, nextSeq)
    }

    constructor FromTip(tip: Digest, nextSeq: nat)
      ensures Value() == FreshRun(tip, nextSeq)
    {
      records := [];
      tipHash := tip;
      this.nextSeq := nextSeq;
    }

    method Append(c: Crypto, record: AuditRecord) returns (position: nat)
      modifies this
      ensures Value() == Extend(c, old(Value()), record)
      ensures position == |old(records)|
    {
      var numbered := record.(seqNo := nextSeq);
      var prevHash := tipHash;
      var thisHash := c.recordHash(prevHash, numbered);
      records := records + [ChainedRecord(numbered, prevHash, thisHash)];
      tipHash := thisHash;
      nextSeq := nextSeq + 1;
      position := |records| - 1;
    }

    /** Takes the run out as a signed segment; the cursor stays where it is. */
    method CloseSegment(id: nat, signer: Signer) returns (segment: Segment)
      modifies this
      ensures segment == SignedSegment(old(Value()), id, signer)
      ensures Value() == FreshRun(old(tipHash), old(nextSeq))
    {
      var signature := signer.sign(tipHash);
      segment := Segment(id, records, signature, signer.publicKey);
      records := [];
    }
  }
}
