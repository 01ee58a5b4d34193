/**
 A bucket of an ordered key-value store, as far as stores/bbolt/store.go uses one:
 entries in strictly increasing byte order of their keys, put, get, delete, walk
 in order, and a cursor that seeks a prefix.
 */
module Bucket {
  import opened Prelude
  import opened ByteKeys

  datatype Entry<+V> = Entry(key: Bytes, val: V)

  ghost predicate SortedKeys<V>(b: seq<Entry<V>>) {
    forall i, j | 0 <= i < j < |b| :: Less(b[i].key, b[j].key)
  }

  function Put<V>(b: seq<Entry<V>>, k: Bytes, v: V): seq<Entry<V>> {
    if b == [] then [Entry(k, v)]
    else
      var init, last := b[..|b| - 1], b[|b| - 1];
      if Less(k, last.key) then Put(init, k, v) + [last]
      else if k == last.key then init + [Entry(k, v)]
      else b + [Entry(k, v)]
  }

  function Get<V>(b: seq<Entry<V>>, k: Bytes): Option<V> {
    if b == [] then None
    else if b[|b| - 1].key == k then Some(b[|b| - 1].val)
    else Get(b[..|b| - 1], k)
  }

  function Delete<V>(b: seq<Entry<V>>, k: Bytes): seq<Entry<V>> {
    if b == [] then []
    else
      var init, last := b[..|b| - 1], b[|b| - 1];
      if last.key == k then Delete(init, k) else Delete(init, k) + [last]
  }

  /** Keys are unique in a sorted bucket. */
  lemma KeyAt<V>(b: seq<Entry<V>>, i: nat, j: nat)
    requires SortedKeys(b) && i < |b| && j < |b| && b[i].key == b[j].key
    ensures i == j
  {
    LessTotal(b[i].key, b[j].key);
  }

  lemma {:induction false} GetAt<V>(b: seq<Entry<V>>, i: nat)
    requires SortedKeys(b) && i < |b|
    ensures Get(b, b[i].key) == Some(b[i].val)
  {
    var n := |b| - 1;
    if b[n].key == b[i].key {
      KeyAt(b, i, n);
    } else {
      GetAt(b[..n], i);
    }
  }

  lemma {:induction false} GetFinds<V>(b: seq<Entry<V>>, k: Bytes) returns (i: nat)
    requires Get(b, k).Some?
    ensures i < |b| && b[i].key == k && Get(b, k) == Some(b[i].val)
  {
    i := |b| - 1;
    if b[i].key != k {
      i := GetFinds(b[..i], k);
    }
  }

  /** Putting an existing key replaces its value in place. */
  lemma {:induction false} PutExisting<V>(b: seq<Entry<V>>, i: nat, v: V)
    requires SortedKeys(b) && i < |b|
    ensures Put(b, b[i].key, v) == b[i := Entry(b[i].key, v)]
  {
    var n := |b| - 1;
    LessTotal(b[i].key, b[n].key);
    if i < n {
      PutExisting(b[..n], i, v);
      assert b[..n][i := Entry(b[i].key, v)] + [b[n]] == b[i := Entry(b[i].key, v)];
    }
  }

  lemma {:induction false} DeleteKeepsOthers<V>(b: seq<Entry<V>>, k: Bytes, e: Entry<V>)
    ensures e in Delete(b, k) <==> e in b && e.key != k
  {
    if b != [] {
      DeleteKeepsOthers(b[..|b| - 1], k, e);
      assert b == b[..|b| - 1] + [b[|b| - 1]];
    }
  }

  lemma {:induction false} DeletedFrom<V>(b: seq<Entry<V>>, k: Bytes, i: nat) returns (j: nat)
    requires i < |Delete(b, k)|
    ensures j < |b| && Delete(b, k)[i] == b[j]
  {
    var init := b[..|b| - 1];
    if i < |Delete(init, k)| {
      j := DeletedFrom(init, k, i);
    } else {
      j := |b| - 1;
    }
  }

  lemma {:induction false} DeleteSorted<V>(b: seq<Entry<V>>, k: Bytes)
    requires SortedKeys(b)
    ensures SortedKeys(Delete(b, k))
  {
    if b != [] {
      var init, last := b[..|b| - 1], b[|b| - 1];
      DeleteSorted(init, k);
      var d := Delete(init, k);
      forall i | 0 <= i < |d|
        ensures Less(d[i].key, last.key)
      {
        var j := DeletedFrom(init, k, i);
      }
    }
  }

  lemma {:induction false} GetDeleted<V>(b: seq<Entry<V>>, k: Bytes, other: Bytes)
    requires k != other
    ensures Get(Delete(b, k), other) == Get(b, other)
  {
    if b != [] {
      var init, last := b[..|b| - 1], b[|b| - 1];
      GetDeleted(init, k, other);
      var d := Delete(init, k);
      assert (d + [last])[..|d|] == d;
    }
  }

  // ----- Prefix scans -----

  /** The keys of a bucket that start with p, in order. */
  function KeysWith<V>(b: seq<Entry<V>>, p: Bytes): seq<Bytes> {
    if b == [] then []
    else
      var rest := KeysWith(b[..|b| - 1], p);
      if HasPrefix(b[|b| - 1].key, p) then rest + [b[|b| - 1].key] else rest
  }

  ghost predicate HasKey<V>(b: seq<Entry<V>>, k: Bytes) {
    exists i :: 0 <= i < |b| && b[i].key == k
  }

  lemma {:induction false} KeysWithEffect<V>(b: seq<Entry<V>>, p: Bytes)
    requires SortedKeys(b)
    ensures NoDup(KeysWith(b, p))
    ensures forall k :: k in KeysWith(b, p) <==> HasPrefix(k, p) && HasKey(b, k)
  {
    if b != [] {
      var n := |b| - 1;
      var init, rest := b[..n], KeysWith(b[..n], p);
      KeysWithEffect(init, p);
      assert b[n].key !in rest by {
        if b[n].key in rest {
          var i :| 0 <= i < |init| && init[i].key == b[n].key;
          KeyAt(b, i, n);
        }
      }
      NoDupConcat(rest, [b[n].key]);
      forall k
        ensures HasKey(b, k) <==> HasKey(init, k) || k == b[n].key
      {
        if i :| 0 <= i < |b| && b[i].key == k {
          assert i < n ==> init[i].key == k;
        }
        if i :| 0 <= i < |init| && init[i].key == k {
          assert b[i].key == k;
        }
      }
    }
  }

  lemma {:induction false} PrefixNotLess(k: Bytes, p: Bytes)
    requires HasPrefix(k, p)
    ensures !Less(k, p)
  {
    if p != [] {
      assert k[0] == k[..|p|][0] == p[0];
      assert k[1..][..|p| - 1] == k[..|p|][1..] == p[1..];
      PrefixNotLess(k[1..], p[1..]);
    }
  }

  /** Past the keys with a prefix there are no more of them. */
  lemma {:induction false} PastPrefix(a: Bytes, b: Bytes, p: Bytes)
    requires Less(a, b) && !Less(a, p) && HasPrefix(b, p)
    ensures HasPrefix(a, p)
  {
    if p != [] {
      assert b[0] == b[..|p|][0] == p[0];
      assert b[1..][..|p| - 1] == b[..|p|][1..] == p[1..];
      PastPrefix(a[1..], b[1..], p[1..]);
      assert a[..|p|] == [a[0]] + a[1..][..|p| - 1];
    }
  }

  lemma {:induction false} NoneBefore<V>(b: seq<Entry<V>>, p: Bytes)
    requires forall i | 0 <= i < |b| :: Less(b[i].key, p)
    ensures KeysWith(b, p) == []
  {
    if b != [] {
      NoneBefore(b[..|b| - 1], p);
      assert !HasPrefix(b[|b| - 1].key, p) by {
        if HasPrefix(b[|b| - 1].key, p) {
          PrefixNotLess(b[|b| - 1].key, p);
        }
      }
    }
  }

  lemma {:induction false} NoneAfter<V>(b: seq<Entry<V>>, p: Bytes, j: nat)
    requires j <= |b| && forall i | j <= i < |b| :: !HasPrefix(b[i].key, p)
    ensures KeysWith(b, p) == KeysWith(b[..j], p)
    decreases |b|
  {
    if j < |b| {
      NoneAfter(b[..|b| - 1], p, j);
      assert b[..|b| - 1][..j] == b[..j];
    } else {
      assert b[..j] == b;
    }
  }

  /** The cursor loop: seek the prefix, then take keys as long as they have it. */
  method ScanPrefix<V>(b: seq<Entry<V>>, p: Bytes) returns (keys: seq<Bytes>)
    requires SortedKeys(b)
    ensures keys == KeysWith(b, p)
  {
    var i := 0;
    while i < |b| && Less(b[i].key, p)
      invariant 0 <= i <= |b| && forall k | 0 <= k < i :: Less(b[k].key, p)
    {
      i := i + 1;
    }
    NoneBefore(b[..i], p);
    ghost var start := i;
    keys := [];
    while i < |b| && HasPrefix(b[i].key, p)
      invariant start <= i <= |b|
      invariant keys == KeysWith(b[..i], p)
    {
      assert b[..i + 1][..i] == b[..i];
      keys := keys + [b[i].key];
      i := i + 1;
    }
    forall k | i <= k < |b|
      ensures !HasPrefix(b[k].key, p)
    {
      if k > i && HasPrefix(b[k].key, p) {
        SeekBound(b, p, start, i);
        PastPrefix(b[i].key, b[k].key, p);
      }
    }
    NoneAfter(b, p, i);
  }

  lemma SeekBound<V>(b: seq<Entry<V>>, p: Bytes, start: nat, i: nat)
    requires SortedKeys(b) && start <= i < |b| && !Less(b[start].key, p)
    ensures !Less(b[i].key, p)
  {
    if start < i && Less(b[i].key, p) {
      LessTransitive(b[start].key, b[i].key, p);
    }
  }
}
