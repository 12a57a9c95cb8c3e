/** Small vocabulary shared by every component: options, results, bytes, fixed-width
    integers, big-endian encoding and the lexicographic order on strings. */
module Common {

  datatype Option<+T> = None | Some(value: T)

  datatype Result<+T, +E> = Ok(value: T) | Err(error: E)

  type Byte = b: int | 0 <= b < 256

  type Bytes = seq<Byte>

  const U32_MODULUS: nat := 0x1_0000_0000
  const U64_MODULUS: nat := 0x1_0000_0000_0000_0000
  const U64_MAX: nat := U64_MODULUS - 1

  /** Rust's `n as u32` on a non-negative value: the low 32 bits. */
  function AsU32(n: nat): nat {
    n % U32_MODULUS
  }

  /** It is `n` itself if it fits, and else differs from it by whole multiples of 2^32. */
  lemma LowBits(n: nat)
    ensures n < 0x1_0000_0000 ==> AsU32(n) == n
    ensures AsU32(n) < 0x1_0000_0000 && n == AsU32(n) + 0x1_0000_0000 * (n / 0x1_0000_0000)
  {
  }

  /** Rust's `a.saturating_sub(b)` on unsigned operands. */
  function SaturatingSub(a: nat, b: nat): nat {
    if a >= b then a - b else 0
  }

  function Max(a: nat, b: nat): nat {
    if a >= b then a else b
  }

  function Min(a: nat, b: nat): nat {
    if a <= b then a else b
  }

  // ---------------------------------------------------------------- big-endian integers

  /** `u32::to_be_bytes`. */
  function U32Bytes(n: nat): (r: Bytes)
    requires n < U32_MODULUS
    ensures |r| == 4
  {
    var hi: nat, lo: nat := n / 0x1_0000, n % 0x1_0000;
    assert hi < 0x1_0000;
    [hi / 256, hi % 256, lo / 256, lo % 256]
  }

  /** `u32::from_be_bytes`. */
  function U32FromBytes(s: Bytes): (n: nat)
    requires |s| == 4
    ensures n < U32_MODULUS
  {
    var b0: nat, b1: nat, b2: nat, b3: nat := s[0], s[1], s[2], s[3];
    (b0 * 256 + b1) * 0x1_0000 + (b2 * 256 + b3)
  }

  lemma U32RoundTrip(n: nat)
    requires n < U32_MODULUS
    ensures U32FromBytes(U32Bytes(n)) == n
  {
  }

  /** `u64::to_be_bytes`. */
  function U64Bytes(n: nat): (r: Bytes)
    requires n < U64_MODULUS
    ensures |r| == 8
  {
    U32Bytes(n / U32_MODULUS) + U32Bytes(n % U32_MODULUS)
  }

  lemma U64BytesInjective(n: nat, m: nat)
    requires n < U64_MODULUS && m < U64_MODULUS
    requires U64Bytes(n) == U64Bytes(m)
    ensures n == m
  {
    U32RoundTrip(n / U32_MODULUS);
    U32RoundTrip(m / U32_MODULUS);
    U32RoundTrip(n % U32_MODULUS);
    U32RoundTrip(m % U32_MODULUS);
    assert U64Bytes(n)[..4] == U32Bytes(n / U32_MODULUS) && U64Bytes(n)[4..] == U32Bytes(n % U32_MODULUS);
    assert U64Bytes(m)[..4] == U32Bytes(m / U32_MODULUS) && U64Bytes(m)[4..] == U32Bytes(m % U32_MODULUS);
  }

  /** The number that bytes stand for, most significant first. */
  function Number(bytes: Bytes): nat {
    if bytes == [] then 0 else Number(bytes[..|bytes| - 1]) * 256 + bytes[|bytes| - 1] as nat
  }

  lemma NumberNext(bytes: Bytes, b: Byte)
    ensures Number(bytes + [b]) == Number(bytes) * 256 + b as nat
  {
    assert (bytes + [b])[..|bytes|] == bytes;
  }

  lemma {:induction false} NumberOfFour(b: Bytes, b0: nat, b1: nat, b2: nat, b3: nat)
    requires |b| == 4 && b[0] as nat == b0 && b[1] as nat == b1 && b[2] as nat == b2 && b[3] as nat == b3
    ensures Number(b) == b0 * 0x100_0000 + b1 * 0x1_0000 + b2 * 0x100 + b3
  {
    NumberNext([], b[0]);
    NumberNext(b[..1], b[1]);
    NumberNext(b[..2], b[2]);
    NumberNext(b[..3], b[3]);
    assert b[..1] == [] + [b[0]] && b[..2] == b[..1] + [b[1]] && b[..3] == b[..2] + [b[2]] && b == b[..3] + [b[3]];
  }

  lemma {:induction false} FourDigits(n: nat, hi: nat, lo: nat)
    requires hi == n / 0x1_0000 && lo == n % 0x1_0000
    ensures n == (hi / 256) * 0x100_0000 + (hi % 256) * 0x1_0000 + (lo / 256) * 0x100 + lo % 256
  {
  }

  lemma {:induction false} U32IsNumber(n: nat)
    requires n < U32_MODULUS
    ensures Number(U32Bytes(n)) == n
  {
    var hi, lo := n / 0x1_0000, n % 0x1_0000;
    NumberOfFour(U32Bytes(n), hi / 256, hi % 256, lo / 256, lo % 256);
    FourDigits(n, hi, lo);
  }

  lemma {:induction false} NumberConcat(a: Bytes, b: Bytes)
    requires |b| == 4
    ensures Number(a + b) == Number(a) * 0x1_0000_0000 + Number(b)
  {
    var a1, b1 := a + b[..1], b[..1];
    var a2, b2 := a + b[..2], b[..2];
    var a3, b3 := a + b[..3], b[..3];
    assert a1 == a + [b[0]] && a2 == a1 + [b[1]] && a3 == a2 + [b[2]] && a + b == a3 + [b[3]];
    assert b1 == [] + [b[0]] && b2 == b1 + [b[1]] && b3 == b2 + [b[2]] && b == b3 + [b[3]];
    NumberNext(a, b[0]);
    NumberNext(a1, b[1]);
    NumberNext(a2, b[2]);
    NumberNext(a3, b[3]);
    NumberNext([], b[0]);
    NumberNext(b1, b[1]);
    NumberNext(b2, b[2]);
    NumberNext(b3, b[3]);
  }

  lemma {:induction false} U64IsNumber(n: nat)
    requires n < U64_MODULUS
    ensures Number(U64Bytes(n)) == n
  {
    U32IsNumber(n / U32_MODULUS);
    U32IsNumber(n % U32_MODULUS);
    NumberConcat(U32Bytes(n / U32_MODULUS), U32Bytes(n % U32_MODULUS));
  }

  // ---------------------------------------------------------------- lexicographic order

  /** Strict lexicographic order; a proper prefix comes first. */
  predicate LexLess(a: string, b: string) {
    b != [] && (a == [] || a[0] < b[0] || (a[0] == b[0] && LexLess(a[1..], b[1..])))
  }

  /** That is: one is a proper prefix of the other, or the first difference decides. */
  lemma {:induction false} LexLessMeans(a: string, b: string)
    ensures LexLess(a, b) <==>
              exists k: nat :: k <= |a| && k < |b| && a[..k] == b[..k] && (k == |a| || a[k] < b[k])
    decreases |a|
  {
    if b != [] && a != [] && a[0] == b[0] {
      LexLessMeans(a[1..], b[1..]);
      if k: nat :| k <= |a| && k < |b| && a[..k] == b[..k] && (k == |a| || a[k] < b[k]) {
        assert k > 0;
        assert a[1..][..k - 1] == a[..k][1..] && b[1..][..k - 1] == b[..k][1..];
        assert k == |a| || a[1..][k - 1] < b[1..][k - 1];
      }
      if k: nat :| k <= |a[1..]| && k < |b[1..]| && a[1..][..k] == b[1..][..k] && (k == |a[1..]| || a[1..][k] < b[1..][k]) {
        assert a[..k + 1] == [a[0]] + a[1..][..k] && b[..k + 1] == [b[0]] + b[1..][..k];
        assert k + 1 == |a| || a[k + 1] < b[k + 1];
      }
    } else if b != [] && (a == [] || a[0] < b[0]) {
      assert a[..0] == b[..0];
    }
  }

  lemma {:induction false} LexTotal(a: string, b: string)
    ensures LexLess(a, b) || a == b || LexLess(b, a)
    ensures !(LexLess(a, b) && LexLess(b, a))
    ensures LexLess(a, b) ==> a != b
    decreases |a|
  {
    if a != [] && b != [] {
      LexTotal(a[1..], b[1..]);
      if a[0] == b[0] && a[1..] == b[1..] {
        assert a == [a[0]] + a[1..];
        assert b == [b[0]] + b[1..];
      }
    }
  }

  lemma {:induction false} LexTransitive(a: string, b: string, c: string)
    requires LexLess(a, b) && LexLess(b, c)
    ensures LexLess(a, c)
    decreases |a|
  {
    if a != [] && a[0] == b[0] == c[0] {
      LexTransitive(a[1..], b[1..], c[1..]);
    }
  }

  // ---------------------------------------------------------------- sorting by a numeric key

  predicate SortedBy<T>(key: T -> nat, xs: seq<T>) {
    forall i, j :: 0 <= i < j < |xs| ==> key(xs[i]) < key(xs[j])
  }

  function InsertBy<T(!new)>(key: T -> nat, xs: seq<T>, x: T): (r: seq<T>)
    ensures |r| == |xs| + 1
    ensures forall e :: e in r <==> e == x || e in xs
  {
    if xs == [] || key(x) < key(xs[0]) then [x] + xs
    else [xs[0]] + InsertBy(key, xs[1..], x)
  }

  lemma {:induction false} InsertKeepsSorted<T(!new)>(key: T -> nat, xs: seq<T>, x: T)
    requires SortedBy(key, xs) && forall e <- xs :: key(e) != key(x)
    ensures SortedBy(key, InsertBy(key, xs, x))
    decreases |xs|
  {
    if xs != [] && key(x) >= key(xs[0]) {
      var rest := InsertBy(key, xs[1..], x);
      InsertKeepsSorted(key, xs[1..], x);
      assert forall e <- rest :: key(xs[0]) < key(e) by {
        assert forall e <- xs[1..] :: exists k :: 1 <= k < |xs| && xs[k] == e;
      }
    }
  }

  // ---------------------------------------------------------------- numbering

  /** One above every id present, or 0 when there is none. */
  ghost predicate IsNextId(ids: set<nat>, n: nat) {
    (forall id <- ids :: id < n) && (n == 0 || n - 1 in ids)
  }

  lemma {:induction false} NextIdExists(ids: set<nat>)
    ensures exists n: nat :: IsNextId(ids, n)
    decreases |ids|
  {
    if ids == {} {
      assert IsNextId(ids, 0);
    } else {
      var id :| id in ids;
      var rest := ids - {id};
      NextIdExists(rest);
      var n: nat :| IsNextId(rest, n);
      var m := if id < n then n else id + 1;
      assert forall k <- ids :: k == id || k in rest;
      assert IsNextId(ids, m);
    }
  }

  lemma NextIdUnique(ids: set<nat>, n: nat, m: nat)
    requires IsNextId(ids, n) && IsNextId(ids, m)
    ensures n == m
  {
  }

  ghost function NextId(ids: set<nat>): (n: nat)
    ensures IsNextId(ids, n)
  {
    NextIdExists(ids);
    var n: nat :| IsNextId(ids, n);
    n
  }
}
