/** Record framing of the evidence log: `[len:u32-BE][data]`, concatenated. The readers are the
    byte-stream loops of `SegmentLog::read_segment_records` and `count_records_best_effort`. */
module Framing {
  import opened Common

  const HEADER_BYTES: nat := 4

  /** One record as `append` writes it; the length is cut to 32 bits. */
  function Frame(data: Bytes): (r: Bytes)
    ensures |r| == HEADER_BYTES + |data|
  {
    U32Bytes(AsU32(|data|)) + data
  }

  /** A segment file holding exactly `records`. */
  function Encode(records: seq<Bytes>): Bytes {
    if records == [] then [] else Frame(records[0]) + Encode(records[1..])
  }

  /** The length field can hold the length of every record. */
  predicate Framable(records: seq<Bytes>) {
    forall r <- records :: |r| < U32_MODULUS
  }

  // ---------------------------------------------------------------- what a byte string contains

  /** The complete records at the front of a byte string, and what is left behind the last. */
  datatype Parsed = Parsed(records: seq<Bytes>, tail: Bytes)

  predicate StartsWithFrame(bytes: Bytes) {
    HEADER_BYTES <= |bytes| && HEADER_BYTES + U32FromBytes(bytes[..HEADER_BYTES]) <= |bytes|
  }

  function FirstFrameEnd(bytes: Bytes): (n: nat)
    requires StartsWithFrame(bytes)
    ensures HEADER_BYTES <= n <= |bytes|
  {
    HEADER_BYTES + U32FromBytes(bytes[..HEADER_BYTES])
  }

  function Parse(bytes: Bytes): (p: Parsed)
    ensures |p.tail| <= |bytes|
    decreases |bytes|
  {
    if StartsWithFrame(bytes) then
      var n := FirstFrameEnd(bytes);
      var rest := Parse(bytes[n..]);
      Parsed([bytes[HEADER_BYTES..n]] + rest.records, rest.tail)
    else Parsed([], bytes)
  }

  lemma FrameReadsBack(data: Bytes, rest: Bytes, bytes: Bytes)
    requires |data| < U32_MODULUS && bytes == Frame(data) + rest
    ensures StartsWithFrame(bytes) && FirstFrameEnd(bytes) == |Frame(data)|
    ensures bytes[HEADER_BYTES..|Frame(data)|] == data
    ensures bytes[|Frame(data)|..] == rest
  {
    U32RoundTrip(|data|);
    assert bytes[..HEADER_BYTES] == U32Bytes(|data|);
  }

  lemma ParseOneFrame(data: Bytes, rest: Bytes, bytes: Bytes)
    requires |data| < U32_MODULUS && bytes == Frame(data) + rest
    ensures Parse(bytes) == Parsed([data] + Parse(rest).records, Parse(rest).tail)
  {
    FrameReadsBack(data, rest, bytes);
  }

  lemma ParseCons(first: Bytes, others: seq<Bytes>, behind: Bytes, rest: Bytes, bytes: Bytes)
    requires |first| < U32_MODULUS && bytes == Frame(first) + behind
    requires Parse(behind) == Parsed(others + Parse(rest).records, Parse(rest).tail)
    ensures Parse(bytes) == Parsed([first] + others + Parse(rest).records, Parse(rest).tail)
  {
    ParseOneFrame(first, behind, bytes);
  }

  lemma EncodeFront(records: seq<Bytes>, rest: Bytes)
    requires records != []
    ensures Encode(records) + rest == Frame(records[0]) + (Encode(records[1..]) + rest)
  {
  }

  /** Parsing a segment gives its records back, and leaves alone what follows them. */
  lemma {:induction false} EncodeThenParse(records: seq<Bytes>, rest: Bytes, bytes: Bytes)
    requires Framable(records) && bytes == Encode(records) + rest
    ensures Parse(bytes) == Parsed(records + Parse(rest).records, Parse(rest).tail)
    decreases |records|
  {
    if records == [] {
      assert bytes == rest;
    } else {
      var behind := Encode(records[1..]) + rest;
      assert bytes == Frame(records[0]) + behind by { EncodeFront(records, rest); }
      EncodeThenParse(records[1..], rest, behind);
      ParseCons(records[0], records[1..], behind, rest, bytes);
      assert records == [records[0]] + records[1..];
    }
  }

  lemma {:induction false} EncodeAppend(records: seq<Bytes>, more: seq<Bytes>)
    ensures Encode(records + more) == Encode(records) + Encode(more)
    decreases |records|
  {
    if records == [] {
      assert records + more == more;
    } else {
      EncodeAppend(records[1..], more);
      assert (records + more)[1..] == records[1..] + more;
    }
  }

  /** A record survives framing exactly when its length fits the 32-bit header. */
  lemma FrameFaithfulIff(data: Bytes)
    ensures Parse(Frame(data)) == Parsed([data], []) <==> |data| < U32_MODULUS
  {
    var bytes := Frame(data);
    if |data| < U32_MODULUS {
      ParseOneFrame(data, [], bytes);
    } else {
      U32RoundTrip(AsU32(|data|));
      assert bytes[..HEADER_BYTES] == U32Bytes(AsU32(|data|));
      assert |Parse(bytes).records[0]| == AsU32(|data|);
    }
  }

  // ---------------------------------------------------------------- torn files

  /** How many records of a segment lie completely within its first `cut` bytes. */
  function CompleteWithin(records: seq<Bytes>, cut: nat): (n: nat)
    ensures n <= |records|
  {
    if records == [] || cut < |Frame(records[0])| then 0
    else 1 + CompleteWithin(records[1..], cut - |Frame(records[0])|)
  }

  /** `CompleteWithin` is the index of the record the cut falls into. */
  lemma {:induction false} CompleteWithinBrackets(records: seq<Bytes>, cut: nat)
    requires cut <= |Encode(records)|
    ensures var n := CompleteWithin(records, cut);
            && |Encode(records[..n])| <= cut
            && (if n == |records| then cut == |Encode(records)|
                else cut < |Encode(records[..n])| + |Frame(records[n])|)
    decreases |records|
  {
    if records != [] && cut >= |Frame(records[0])| {
      var rest := cut - |Frame(records[0])|;
      CompleteWithinBrackets(records[1..], rest);
      var n := CompleteWithin(records, cut);
      assert records[..n] == [records[0]] + records[1..][..n - 1];
      assert records[..n][1..] == records[1..][..n - 1];
    }
  }

  /** The bytes of a segment from record `n` up to a cut inside, or at the end of, that record. */
  lemma Stump(records: seq<Bytes>, n: nat, cut: nat)
    requires n < |records|
    requires |Encode(records[..n])| <= cut <= |Encode(records[..n])| + |Frame(records[n])|
    ensures cut <= |Encode(records)|
    ensures Encode(records)[|Encode(records[..n])|..cut]
         == Frame(records[n])[..cut - |Encode(records[..n])|]
  {
    var front, back := Encode(records[..n]), Encode(records[n + 1..]);
    assert Encode(records) == front + (Frame(records[n]) + back) by {
      EncodeAppend(records[..n], records[n..]);
      assert records[..n] + records[n..] == records;
      assert records[n..][1..] == records[n + 1..];
    }
  }

  /** The first `n` records are a prefix of the segment. */
  lemma EncodePrefix(records: seq<Bytes>, n: nat)
    requires n <= |records|
    ensures Encode(records[..n]) <= Encode(records)
  {
    EncodeAppend(records[..n], records[n..]);
    assert records[..n] + records[n..] == records;
  }

  /** A proper prefix of one frame contains no record. */
  lemma TornFrameHasNoRecord(data: Bytes, cut: nat)
    requires |data| < U32_MODULUS && cut < |Frame(data)|
    ensures !StartsWithFrame(Frame(data)[..cut])
  {
    if HEADER_BYTES <= cut {
      U32RoundTrip(|data|);
      assert Frame(data)[..cut][..HEADER_BYTES] == U32Bytes(|data|);
    }
  }

  lemma TornIsUnparsed(records: seq<Bytes>, n: nat, cut: nat)
    requires Framable(records) && n <= |records| && |Encode(records[..n])| <= cut <= |Encode(records)|
    requires if n == |records| then cut == |Encode(records)|
             else cut < |Encode(records[..n])| + |Frame(records[n])|
    ensures var torn := Encode(records)[|Encode(records[..n])|..cut];
            Parse(torn) == Parsed([], torn)
  {
    if n < |records| {
      Stump(records, n, cut);
      TornFrameHasNoRecord(records[n], cut - |Encode(records[..n])|);
    } else {
      assert records[..n] == records;
    }
  }

  /** Parsing any byte prefix of a segment finds exactly the complete records, and stops at the
      byte where the torn record starts. */
  lemma ParsePrefix(records: seq<Bytes>, cut: nat)
    requires Framable(records) && cut <= |Encode(records)|
    ensures var n := CompleteWithin(records, cut);
            && |Encode(records[..n])| <= cut
            && Parse(Encode(records)[..cut]) == Parsed(records[..n], Encode(records)[|Encode(records[..n])|..cut])
  {
    CompleteWithinBrackets(records, cut);
    var n := CompleteWithin(records, cut);
    var start := |Encode(records[..n])|;
    var torn := Encode(records)[start..cut];
    assert Encode(records)[..cut] == Encode(records[..n]) + torn by { EncodePrefix(records, n); }
    TornIsUnparsed(records, n, cut);
    EncodeThenParse(records[..n], torn, Encode(records)[..cut]);
  }

  datatype ReadError = SegmentCorrupt(offset: nat)

  /** A frame, byte by byte: four bytes that hold the length, most significant first, then the record. */
  lemma FrameLayout(data: Bytes)
    ensures |Frame(data)| == 4 + |data| && Frame(data)[4..] == data
    ensures |data| < 0x1_0000_0000 ==> Number(Frame(data)[..4]) == |data|
  {
    assert Frame(data)[..4] == U32Bytes(AsU32(|data|));
    U32IsNumber(AsU32(|data|));
  }

  /** The records read up to `offset`, and those behind it, are the segment's. */
  ghost predicate ReadUpTo(bytes: Bytes, offset: nat, read: seq<Bytes>) {
    offset <= |bytes| &&
    var rest := Parse(bytes[offset..]);
    Parse(bytes) == Parsed(read + rest.records, rest.tail)
  }

  lemma FrameAt(bytes: Bytes, offset: nat)
    requires offset + HEADER_BYTES <= |bytes|
    ensures var len := U32FromBytes(bytes[offset..offset + HEADER_BYTES]);
            && (StartsWithFrame(bytes[offset..]) <==> offset + HEADER_BYTES + len <= |bytes|)
            && (StartsWithFrame(bytes[offset..]) ==> FirstFrameEnd(bytes[offset..]) == HEADER_BYTES + len)
  {
    assert bytes[offset..offset + HEADER_BYTES] == bytes[offset..][..HEADER_BYTES];
  }

  lemma ReadNext(bytes: Bytes, offset: nat, next: nat, read: seq<Bytes>)
    requires ReadUpTo(bytes, offset, read) && StartsWithFrame(bytes[offset..])
    requires next == offset + FirstFrameEnd(bytes[offset..])
    ensures ReadUpTo(bytes, next, read + [bytes[offset + HEADER_BYTES..next]])
  {
    var left := bytes[offset..];
    assert bytes[offset + HEADER_BYTES..next] == left[HEADER_BYTES..FirstFrameEnd(left)];
    assert bytes[next..] == left[FirstFrameEnd(left)..];
  }

  lemma ReadToEnd(bytes: Bytes, offset: nat, read: seq<Bytes>)
    requires ReadUpTo(bytes, offset, read) && !StartsWithFrame(bytes[offset..])
    ensures Parse(bytes) == Parsed(read, bytes[offset..])
  {
  }

  /** `read_segment_records`: end of file inside a header ends the segment quietly, end of file
      inside a body is corruption at the offset of the torn record. */
  method ReadSegmentRecords(bytes: Bytes) returns (r: Result<seq<Bytes>, ReadError>)
    ensures r.Ok? <==> |Parse(bytes).tail| < HEADER_BYTES
    ensures r.Ok? ==> r.value == Parse(bytes).records
    ensures r.Err? ==> r.error == SegmentCorrupt(|bytes| - |Parse(bytes).tail|)
  {
    var out: seq<Bytes> := [];
    var offset := 0;
    assert bytes[0..] == bytes;
    while true
      invariant ReadUpTo(bytes, offset, out)
      decreases |bytes| - offset
    {
      if |bytes| - offset < HEADER_BYTES {
        ReadToEnd(bytes, offset, out);
        return Ok(out);
      }
      FrameAt(bytes, offset);
      var len := U32FromBytes(bytes[offset..offset + HEADER_BYTES]);
      if |bytes| - offset - HEADER_BYTES < len {
        ReadToEnd(bytes, offset, out);
        return Err(SegmentCorrupt(offset));
      }
      var next := offset + HEADER_BYTES + len;
      var buf := bytes[offset + HEADER_BYTES..next];
      ReadNext(bytes, offset, next, out);
      out := out + [buf];
      offset := next;
    }
  }

  /** `count_records_best_effort`: counts the complete records, whatever follows them. */
  method CountRecordsBestEffort(bytes: Bytes) returns (count: nat)
    ensures count == |Parse(bytes).records|
  {
    count := 0;
    var offset := 0;
    ghost var read: seq<Bytes> := [];
    assert bytes[0..] == bytes;
    while true
      invariant ReadUpTo(bytes, offset, read) && count == |read|
      decreases |bytes| - offset
    {
      if |bytes| - offset < HEADER_BYTES {
        break;
      }
      FrameAt(bytes, offset);
      var len := U32FromBytes(bytes[offset..offset + HEADER_BYTES]);
      if |bytes| - offset - HEADER_BYTES < len {
        break;
      }
      var next := offset + HEADER_BYTES + len;
      ReadNext(bytes, offset, next, read);
      read := read + [bytes[offset + HEADER_BYTES..next]];
      count := count + 1;
      offset := next;
    }
    ReadToEnd(bytes, offset, read);
  }

  /** What the two readers report about a segment file cut at any byte. */
  method ReadTornSegment(records: seq<Bytes>, cut: nat)
    returns (r: Result<seq<Bytes>, ReadError>, count: nat)
    requires Framable(records) && cut <= |Encode(records)|
    ensures var n := CompleteWithin(records, cut);
            var start := |Encode(records[..n])|;
            && start <= cut
            && (n < |records| ==> cut < start + |Frame(records[n])|)
            && count == n
            && r == if cut < start + HEADER_BYTES then Ok(records[..n]) else Err(SegmentCorrupt(start))
  {
    ParsePrefix(records, cut);
    CompleteWithinBrackets(records, cut);
    r := ReadSegmentRecords(Encode(records)[..cut]);
    count := CountRecordsBestEffort(Encode(records)[..cut]);
  }
}
