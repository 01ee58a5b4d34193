/**
 Byte-string keys as an ordered key-value store sees them: lexicographic order,
 the big-endian event keys and the NUL-separated pending keys of
 stores/bbolt/store.go, and exactly when their order and prefixes mean what the
 store takes them to mean.
 */
module ByteKeys {

  type Byte = x: int | 0 <= x < 256
  type Bytes = seq<Byte>

  const TWO63: int := 0x8000_0000_0000_0000
  const TWO64: int := 0x1_0000_0000_0000_0000

  predicate Less(a: Bytes, b: Bytes) {
    b != [] && (a == [] || a[0] < b[0] || (a[0] == b[0] && Less(a[1..], b[1..])))
  }

  lemma {:induction false} LessTotal(a: Bytes, b: Bytes)
    ensures a == b || Less(a, b) || Less(b, a)
    ensures !(Less(a, b) && Less(b, a)) && !(a == b && Less(a, b))
  {
    if a != [] && b != [] && a[0] == b[0] {
      LessTotal(a[1..], b[1..]);
      assert a == [a[0]] + a[1..] && b == [b[0]] + b[1..];
    }
  }

  lemma {:induction false} LessTransitive(a: Bytes, b: Bytes, c: Bytes)
    requires Less(a, b) && Less(b, c)
    ensures Less(a, c)
  {
    if a != [] && a[0] == b[0] == c[0] {
      LessTransitive(a[1..], b[1..], c[1..]);
    }
  }

  /** Equal-length heads decide first, then the tails. */
  lemma {:induction false} LessConcat(a: Bytes, b: Bytes, c: Bytes, d: Bytes)
    requires |a| == |b|
    ensures Less(a + c, b + d) <==> Less(a, b) || (a == b && Less(c, d))
  {
    if a == [] {
      assert a + c == c && b + d == d;
    } else {
      LessConcat(a[1..], b[1..], c, d);
      assert (a + c)[1..] == a[1..] + c && (b + d)[1..] == b[1..] + d;
      assert a == [a[0]] + a[1..] && b == [b[0]] + b[1..];
    }
  }

  // ----- Big-endian numbers -----

  function Pow256(w: nat): nat {
    if w == 0 then 1 else 256 * Pow256(w - 1)
  }

  lemma Pow256Of8()
    ensures Pow256(8) == TWO64
  {
    assert Pow256(2) == 0x1_0000;
    assert Pow256(4) == 256 * 256 * Pow256(2);
    assert Pow256(6) == 256 * 256 * Pow256(4);
    assert Pow256(8) == 256 * 256 * Pow256(6);
  }

  /** The byte of x that counts 256^i. */
  function Digit(x: nat, i: nat): Byte
    decreases i
  {
    if i == 0 then x % 256 else Digit(x / 256, i - 1)
  }

  function BigEndian(x: nat, w: nat): (b: Bytes)
    ensures |b| == w
  {
    seq(w, i requires 0 <= i < w => Digit(x, w - 1 - i))
  }

  lemma BigEndianStep(x: nat, w: nat)
    requires w > 0
    ensures BigEndian(x, w) == BigEndian(x / 256, w - 1) + [x % 256]
  {
    var whole, parts := BigEndian(x, w), BigEndian(x / 256, w - 1) + [x % 256];
    forall i | 0 <= i < w
      ensures whole[i] == parts[i]
    {
      assert i < w - 1 ==> Digit(x, w - 1 - i) == Digit(x / 256, w - 2 - i);
    }
  }

  function FromBigEndian(b: Bytes): nat {
    if b == [] then 0 else 256 * FromBigEndian(b[..|b| - 1]) + b[|b| - 1]
  }

  lemma {:induction false} BigEndianRoundTrip(x: nat, w: nat)
    requires x < Pow256(w)
    ensures FromBigEndian(BigEndian(x, w)) == x
  {
    if w > 0 {
      BigEndianRoundTrip(x / 256, w - 1);
      BigEndianStep(x, w);
      assert BigEndian(x, w)[..w - 1] == BigEndian(x / 256, w - 1);
    }
  }

  /** The byte order of big-endian numbers is their numeric order. */
  lemma {:induction false} BigEndianOrder(x: nat, y: nat, w: nat)
    requires x < Pow256(w) && y < Pow256(w)
    ensures Less(BigEndian(x, w), BigEndian(y, w)) <==> x < y
  {
    if w > 0 {
      BigEndianOrder(x / 256, y / 256, w - 1);
      BigEndianStep(x, w);
      BigEndianStep(y, w);
      LessConcat(BigEndian(x / 256, w - 1), BigEndian(y / 256, w - 1), [x % 256], [y % 256]);
      if BigEndian(x / 256, w - 1) == BigEndian(y / 256, w - 1) {
        BigEndianRoundTrip(x / 256, w - 1);
        BigEndianRoundTrip(y / 256, w - 1);
      }
    }
  }

  // ----- Event keys -----

  /** Go's uint64 conversion of an int64. */
  function ToUnsigned(t: int): nat {
    t % TWO64
  }

  lemma UnsignedOf(t: int)
    requires IsInt64(t)
    ensures ToUnsigned(t) == if t < 0 then t + TWO64 else t
  {
  }

  function ToSigned(u: nat): int {
    if u < TWO63 then u else u - TWO64
  }

  predicate IsInt64(t: int) {
    -TWO63 <= t < TWO63
  }

  /** Two unsigned words of w bytes, one after the other. */
  function TwoWords(hi: nat, lo: nat, w: nat): (k: Bytes)
    ensures |k| == 2 * w
  {
    BigEndian(hi, w) + BigEndian(lo, w)
  }

  lemma TwoWordsOrder(h1: nat, l1: nat, h2: nat, l2: nat, w: nat)
    requires h1 < Pow256(w) && l1 < Pow256(w) && h2 < Pow256(w) && l2 < Pow256(w)
    ensures Less(TwoWords(h1, l1, w), TwoWords(h2, l2, w)) <==> ReplayBefore(h1, l1, h2, l2)
  {
    var a, b := BigEndian(h1, w), BigEndian(h2, w);
    LessConcat(a, b, BigEndian(l1, w), BigEndian(l2, w));
    BigEndianOrder(h1, h2, w);
    BigEndianOrder(l1, l2, w);
    BigEndianRoundTrip(h1, w);
    BigEndianRoundTrip(h2, w);
  }

  lemma TwoWordsRoundTrip(hi: nat, lo: nat, w: nat)
    requires hi < Pow256(w) && lo < Pow256(w)
    ensures FromBigEndian(TwoWords(hi, lo, w)[..w]) == hi && FromBigEndian(TwoWords(hi, lo, w)[w..]) == lo
  {
    assert TwoWords(hi, lo, w)[..w] == BigEndian(hi, w) && TwoWords(hi, lo, w)[w..] == BigEndian(lo, w);
    BigEndianRoundTrip(hi, w);
    BigEndianRoundTrip(lo, w);
  }

  function EventKey(ts: int, seqNo: nat): (k: Bytes)
    ensures |k| == 16
  {
    TwoWords(ToUnsigned(ts), seqNo % TWO64, 8)
  }

  function KeyTime(k: Bytes): int
    requires |k| == 16
  {
    ToSigned(FromBigEndian(k[..8]))
  }

  function KeySeq(k: Bytes): nat
    requires |k| == 16
  {
    FromBigEndian(k[8..])
  }

  /** splitEventKey undoes eventKey on every 64-bit timestamp and sequence number. */
  lemma EventKeyRoundTrip(ts: int, seqNo: nat)
    requires IsInt64(ts) && seqNo < TWO64
    ensures KeyTime(EventKey(ts, seqNo)) == ts && KeySeq(EventKey(ts, seqNo)) == seqNo
  {
    Pow256Of8();
    TwoWordsRoundTrip(ToUnsigned(ts), seqNo, 8);
  }

  predicate ReplayBefore(t1: int, s1: nat, t2: int, s2: nat) {
    t1 < t2 || (t1 == t2 && s1 < s2)
  }

  /** What the byte order of event keys really is: the unsigned reading of the timestamp, then the sequence number. */
  lemma EventKeyOrder(t1: int, s1: nat, t2: int, s2: nat)
    requires IsInt64(t1) && IsInt64(t2) && s1 < TWO64 && s2 < TWO64
    ensures Less(EventKey(t1, s1), EventKey(t2, s2)) <==> ReplayBefore(ToUnsigned(t1), s1, ToUnsigned(t2), s2)
  {
    EightBytesOrder(ToUnsigned(t1), s1, ToUnsigned(t2), s2);
  }

  lemma EightBytesOrder(h1: nat, l1: nat, h2: nat, l2: nat)
    requires h1 < TWO64 && l1 < TWO64 && h2 < TWO64 && l2 < TWO64
    ensures Less(TwoWords(h1, l1, 8), TwoWords(h2, l2, 8)) <==> ReplayBefore(h1, l1, h2, l2)
  {
    Pow256Of8();
    TwoWordsOrder(h1, l1, h2, l2, 8);
  }

  /**
   Key order is replay order exactly between timestamps on the same side of the
   Unix epoch. Across it the order is always the wrong way round.
   */
  lemma KeyOrderIsReplayOrderIff(t1: int, s1: nat, t2: int, s2: nat)
    requires IsInt64(t1) && IsInt64(t2) && s1 < TWO64 && s2 < TWO64
    ensures (Less(EventKey(t1, s1), EventKey(t2, s2)) <==> ReplayBefore(t1, s1, t2, s2)) <==> (t1 < 0 <==> t2 < 0)
  {
    EventKeyOrder(t1, s1, t2, s2);
    UnsignedOf(t1);
    UnsignedOf(t2);
  }

  // ----- Pending keys -----

  function PendingKey(task: Bytes, event: Bytes): Bytes {
    task + [0] + event
  }

  predicate HasPrefix(k: Bytes, p: Bytes) {
    |p| <= |k| && k[..|p|] == p
  }

  predicate NulFree(b: Bytes) {
    forall i | 0 <= i < |b| :: b[i] != 0
  }

  /** Neither task id is the other followed by a NUL. */
  predicate Unconfusable(t: Bytes, u: Bytes) {
    !HasPrefix(u, t + [0]) && !(HasPrefix(t, u + [0]) && |t| <= |u| + 16)
  }

  /** The only ways a pending key of one task can start like those of another. */
  lemma PrefixMeans(t: Bytes, u: Bytes, event: Bytes)
    requires HasPrefix(PendingKey(u, event), t + [0])
    ensures t == u || HasPrefix(u, t + [0]) || (HasPrefix(t, u + [0]) && |t| <= |u| + |event|)
  {
    var k, p := PendingKey(u, event), t + [0];
    assert k[..|p|] == p;
    if |t| < |u| {
      assert u[..|p|] == k[..|p|];
    } else if |t| == |u| {
      assert k[..|p|][..|t|] == u && p[..|t|] == t;
    } else {
      assert k[..|p|][..|u| + 1] == u + [0] && p[..|u| + 1] == t[..|u| + 1];
    }
  }

  lemma NulFreePrefix(t: Bytes, u: Bytes)
    requires NulFree(u)
    ensures !HasPrefix(u, t + [0])
  {
    var p: Bytes := t + [0];
    assert p[|t|] == 0;
    assert |p| <= |u| ==> u[..|p|][|t|] != 0;
  }

  /** For NUL-free task ids a prefix scan for one task meets exactly that task's keys. */
  lemma PrefixScanExact(t: Bytes, u: Bytes, event: Bytes)
    requires NulFree(t) && NulFree(u)
    ensures HasPrefix(PendingKey(u, event), t + [0]) <==> t == u
  {
    NulFreePrefix(t, u);
    NulFreePrefix(u, t);
    if HasPrefix(PendingKey(u, event), t + [0]) {
      PrefixMeans(t, u, event);
    }
    assert PendingKey(u, event)[..|u| + 1] == u + [0];
  }

  lemma NulFreeApart(t: Bytes, u: Bytes)
    requires NulFree(t) && NulFree(u)
    ensures Unconfusable(t, u)
  {
    NulFreePrefix(t, u);
    NulFreePrefix(u, t);
  }

  /** And for arbitrary ids, over all sixteen-byte event keys, exactly when neither can be confused with the other. */
  lemma PrefixScanExactIff(t: Bytes, u: Bytes)
    requires t != u
    ensures (forall event: Bytes | |event| == 16 :: !HasPrefix(PendingKey(u, event), t + [0])) <==> Unconfusable(t, u)
  {
    var p := t + [0];
    if HasPrefix(u, p) {
      var event: Bytes := seq(16, _ => 0);
      assert PendingKey(u, event)[..|p|] == u[..|p|];
    } else if HasPrefix(t, u + [0]) && |t| <= |u| + 16 {
      var rest := t[|u| + 1..] + [0];
      var event: Bytes := rest + seq(16 - |rest|, _ => 0);
      assert PendingKey(u, event)[..|p|] == p;
    } else {
      forall event: Bytes | |event| == 16 && HasPrefix(PendingKey(u, event), p)
        ensures false
      {
        PrefixMeans(t, u, event);
      }
    }
  }
}
