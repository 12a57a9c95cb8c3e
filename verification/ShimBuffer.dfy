/** The shim's in-memory buffer: drop-oldest under a frame bound and a byte bound at once
    (shim/src/Shim/Buffer.php). */
module ShimBuffering {
  import opened Common

  // ---------------------------------------------------------------- what the buffer should hold

  function SizeOf(frames: seq<Bytes>): nat {
    if frames == [] then 0 else |frames[0]| + SizeOf(frames[1..])
  }

  lemma {:induction false} SizeOfConcat(a: seq<Bytes>, b: seq<Bytes>)
    ensures SizeOf(a + b) == SizeOf(a) + SizeOf(b)
    decreases |a|
  {
    if a == [] {
      assert a + b == b;
    } else {
      assert (a + b)[1..] == a[1..] + b;
      SizeOfConcat(a[1..], b);
    }
  }

  /** The bounds are PHP integers and may be zero or negative. */
  predicate Fits(frames: seq<Bytes>, maxFrames: int, maxBytes: int) {
    |frames| <= maxFrames && SizeOf(frames) <= maxBytes
  }

  /** The longest suffix that fits, or nothing. */
  function LongestFit(frames: seq<Bytes>, maxFrames: int, maxBytes: int): seq<Bytes> {
    if frames == [] || Fits(frames, maxFrames, maxBytes) then frames
    else LongestFit(frames[1..], maxFrames, maxBytes)
  }

  predicate IsSuffix(s: seq<Bytes>, of: seq<Bytes>) {
    |s| <= |of| && s == of[|of| - |s|..]
  }

  /** `LongestFit` by its properties: a suffix that fits unless it is empty, and no longer suffix
      fits. */
  lemma {:induction false} LongestFitMeaning(frames: seq<Bytes>, maxFrames: int, maxBytes: int)
    ensures var r := LongestFit(frames, maxFrames, maxBytes);
            && IsSuffix(r, frames)
            && (r == [] || Fits(r, maxFrames, maxBytes))
            && forall k :: 0 <= k < |frames| - |r| ==> !Fits(frames[k..], maxFrames, maxBytes)
    decreases |frames|
  {
    if frames != [] && !Fits(frames, maxFrames, maxBytes) {
      LongestFitMeaning(frames[1..], maxFrames, maxBytes);
      var r := LongestFit(frames[1..], maxFrames, maxBytes);
      forall k | 0 <= k < |frames| - |r|
        ensures !Fits(frames[k..], maxFrames, maxBytes)
      {
        if k == 0 {
          assert frames[0..] == frames;
        } else {
          assert frames[k..] == frames[1..][k - 1..];
        }
      }
    }
  }

  /** Those properties leave one answer. */
  lemma LongestFitUnique(frames: seq<Bytes>, r: seq<Bytes>, maxFrames: int, maxBytes: int)
    requires IsSuffix(r, frames)
    requires r == [] || Fits(r, maxFrames, maxBytes)
    requires forall k :: 0 <= k < |frames| - |r| ==> !Fits(frames[k..], maxFrames, maxBytes)
    ensures r == LongestFit(frames, maxFrames, maxBytes)
  {
    LongestFitMeaning(frames, maxFrames, maxBytes);
    var l := LongestFit(frames, maxFrames, maxBytes);
    assert l == frames[|frames| - |l|..] && r == frames[|frames| - |r|..];
  }

  /** What was forgotten does not matter: holding the longest fit and pushing is as good as holding
      everything and pushing. */
  lemma {:induction false} FitThenPush(frames: seq<Bytes>, x: Bytes, maxFrames: int, maxBytes: int)
    ensures LongestFit(LongestFit(frames, maxFrames, maxBytes) + [x], maxFrames, maxBytes)
            == LongestFit(frames + [x], maxFrames, maxBytes)
    decreases |frames|
  {
    if frames != [] && !Fits(frames, maxFrames, maxBytes) {
      FitThenPush(frames[1..], x, maxFrames, maxBytes);
      SizeOfConcat(frames, [x]);
      assert (frames + [x])[1..] == frames[1..] + [x];
    }
  }

  /** Nothing that ends in an oversize frame fits, so the buffer is empty right after one. */
  lemma OversizeEmpties(frames: seq<Bytes>, x: Bytes, maxFrames: int, maxBytes: int)
    ensures LongestFit(frames + [x], maxFrames, maxBytes) == [] <==> maxFrames < 1 || |x| > maxBytes
  {
    LongestFitMeaning(frames + [x], maxFrames, maxBytes);
    var all := frames + [x];
    var r := LongestFit(all, maxFrames, maxBytes);
    assert all[|frames|..] == [x];
    assert SizeOf([x]) == |x| by {
      assert [x][1..] == [];
    }
    if r != [] {
      var k := |all| - |r|;
      assert r == all[k..] && r == frames[k..] + [x];
      SizeOfConcat(frames[k..], [x]);
    }
  }

  /** Dropping the oldest frame of what does not fit with `x` changes neither the answer nor the sizes'
      account. */
  lemma DropOldest(frames: seq<Bytes>, x: Bytes, maxFrames: int, maxBytes: int)
    requires frames != [] && !Fits(frames + [x], maxFrames, maxBytes)
    ensures LongestFit(frames + [x], maxFrames, maxBytes) == LongestFit(frames[1..] + [x], maxFrames, maxBytes)
    ensures SizeOf(frames[1..]) == SizeOf(frames) - |frames[0]|
  {
    assert (frames + [x])[1..] == frames[1..] + [x];
  }

  /** The loop's test, from the running totals. */
  lemma TestIsFits(frames: seq<Bytes>, x: Bytes, maxFrames: int, maxBytes: int)
    ensures Fits(frames + [x], maxFrames, maxBytes) <==> |frames| < maxFrames && SizeOf(frames) + |x| <= maxBytes
    ensures SizeOf(frames + [x]) == SizeOf(frames) + |x|
  {
    SizeOfConcat(frames, [x]);
    assert [x][1..] == [];
  }

  // ---------------------------------------------------------------- the buffer

  class Buffer {
    var frames: seq<Bytes>
    var totalBytes: int
    var dropped: nat
    const maxFrames: int
    const maxBytes: int

    /** Every frame pushed since the last drain, and the counts over the buffer's whole life. */
    ghost var sinceDrain: seq<Bytes>
    ghost var pushed: nat
    ghost var drained: nat
    ghost var reported: nat

    /** The buffer is the longest fit of the pushes since the last drain, and every pushed frame is
        drained, dropped or held. */
    ghost predicate Valid()
      reads this
    {
      && frames == LongestFit(sinceDrain, maxFrames, maxBytes)
      && totalBytes == SizeOf(frames)
      && pushed == drained + reported + dropped + |frames|
    }

    constructor (maxFrames: int, maxBytes: int)
      ensures Valid()
      ensures this.maxFrames == maxFrames && this.maxBytes == maxBytes
      ensures frames == [] && sinceDrain == [] && pushed == 0 && drained == 0 && reported == 0 && dropped == 0
    {
      frames, totalBytes, dropped := [], 0, 0;
      this.maxFrames, this.maxBytes := maxFrames, maxBytes;
      sinceDrain, pushed, drained, reported := [], 0, 0, 0;
    }

    method Push(frame: Bytes)
      requires Valid()
      modifies this
      ensures Valid()
      ensures sinceDrain == old(sinceDrain) + [frame] && pushed == old(pushed) + 1
      ensures frames == LongestFit(old(frames) + [frame], maxFrames, maxBytes)
      ensures dropped == old(dropped) + |old(frames)| + 1 - |frames|
      ensures drained == old(drained) && reported == old(reported)
    {
      FitThenPush(sinceDrain, frame, maxFrames, maxBytes);
      ghost var goal := LongestFit(frames + [frame], maxFrames, maxBytes);
      while |frames| >= maxFrames || totalBytes + |frame| > maxBytes
        invariant goal == LongestFit(frames + [frame], maxFrames, maxBytes)
        invariant totalBytes == SizeOf(frames)
        invariant |frames| + dropped == |old(frames)| + old(dropped)
        invariant unchanged(this`sinceDrain, this`pushed, this`drained, this`reported)
        decreases |frames|
      {
        TestIsFits(frames, frame, maxFrames, maxBytes);
        if frames == [] {
          dropped := dropped + 1;
          sinceDrain, pushed := sinceDrain + [frame], pushed + 1;
          return;
        }
        DropOldest(frames, frame, maxFrames, maxBytes);
        var oldest := frames[0];
        frames := frames[1..];
        totalBytes := totalBytes - |oldest|;
        dropped := dropped + 1;
      }
      TestIsFits(frames, frame, maxFrames, maxBytes);
      frames := frames + [frame];
      totalBytes := totalBytes + |frame|;
      sinceDrain, pushed := sinceDrain + [frame], pushed + 1;
    }

    method Drain() returns (out: seq<Bytes>)
      requires Valid()
      modifies this
      ensures Valid()
      ensures out == LongestFit(old(sinceDrain), maxFrames, maxBytes) == old(frames)
      ensures frames == [] && totalBytes == 0 && sinceDrain == [] && drained == old(drained) + |out|
      ensures dropped == old(dropped) && pushed == old(pushed) && reported == old(reported)
    {
      out := frames;
      frames := [];
      totalBytes := 0;
      sinceDrain, drained := [], drained + |out|;
    }

    method ResetDroppedCounter() returns (n: nat)
      requires Valid()
      modifies this
      ensures Valid()
      ensures n == old(dropped) && dropped == 0 && reported == old(reported) + n
      ensures frames == old(frames) && totalBytes == old(totalBytes) && sinceDrain == old(sinceDrain)
      ensures pushed == old(pushed) && drained == old(drained)
    {
      n := dropped;
      dropped := 0;
      reported := reported + n;
    }

    method Count() returns (n: nat)
      requires Valid()
      ensures n == |frames| && (n > 0 ==> n <= maxFrames)
    {
      LongestFitMeaning(sinceDrain, maxFrames, maxBytes);
      n := |frames|;
    }

    method HeldBytes() returns (n: int)
      requires Valid()
      ensures n == SizeOf(frames) && (frames != [] ==> n <= maxBytes)
    {
      LongestFitMeaning(sinceDrain, maxFrames, maxBytes);
      n := totalBytes;
    }
  }
}
