/**
 The pending index of the bbolt store: a status flip is a prefix scan of the index,
 and as long as the index points to exactly the pending values it settles exactly
 the pending values of its task.
 */
module PendingIndex {
  import opened Prelude
  import opened ByteKeys
  import opened Bucket
  import opened StateStore
  import Mem = InMemoryStore
  import Bolt = BboltStore

  // ----- Settling records through the pending index -----

  ghost predicate Resolves(f: Bolt.Flipped, pk: Bytes) {
    Get(f.pending, pk).Some? && Get(f.values, Get(f.pending, pk).value).Some?
  }

  ghost function Targets(pending: seq<Entry<Bytes>>, pks: seq<Bytes>): set<Bytes> {
    set pk | pk in pks && Get(pending, pk).Some? :: Get(pending, pk).value
  }

  function Restatus(e: Entry<ValueBody>, hit: bool, status: Status): Entry<ValueBody> {
    if hit then Entry(e.key, e.val.(status := status)) else e
  }

  ghost predicate FlipDone(f: Bolt.Flipped, done: Bolt.Flipped, pks: seq<Bytes>, status: Status) {
    && |done.values| == |f.values|
    && (forall k | 0 <= k < |f.values| :: done.values[k] == Restatus(f.values[k], f.values[k].key in Targets(f.pending, pks), status))
    && (forall e :: e in done.pending <==> e in f.pending && e.key !in pks)
  }

  /** One index entry: its target gets the status, the entry goes, every other entry still resolves. */
  lemma FlipOne(f: Bolt.Flipped, pk: Bytes, status: Status) returns (i: nat, f': Bolt.Flipped)
    requires SortedKeys(f.values) && Resolves(f, pk)
    ensures i < |f.values| && f.values[i].key == Get(f.pending, pk).value
    ensures f' == Bolt.Flipped(f.values[i := Restatus(f.values[i], true, status)], Delete(f.pending, pk))
    ensures forall pks | pks != [] && pks[0] == pk :: Bolt.FlipEach(f, pks, status) == Bolt.FlipEach(f', pks[1..], status)
  {
    var key := Get(f.pending, pk).value;
    i := GetFinds(f.values, key);
    PutExisting(f.values, i, f.values[i].val.(status := status));
    f' := Bolt.Flipped(f.values[i := Restatus(f.values[i], true, status)], Delete(f.pending, pk));
  }

  lemma {:induction false} FlipEachEffect(f: Bolt.Flipped, pks: seq<Bytes>, status: Status)
    requires SortedKeys(f.values) && NoDup(pks) && forall i | 0 <= i < |pks| :: Resolves(f, pks[i])
    ensures Bolt.FlipEach(f, pks, status).Ok? && FlipDone(f, Bolt.FlipEach(f, pks, status).value, pks, status)
    decreases |pks|
  {
    if pks != [] {
      var pk, rest := pks[0], pks[1..];
      var i, f' := FlipOne(f, pk, status);
      assert pks == [pk] + rest;
      NoDupConcat([pk], rest);
      forall j | 0 <= j < |rest|
        ensures Resolves(f', rest[j]) && Get(f'.pending, rest[j]) == Get(f.pending, rest[j])
      {
        assert pks[j + 1] == rest[j] && rest[j] in rest;
        StillResolves(f, f', pk, rest[j], i);
      }
      FlipEachEffect(f', rest, status);
      TargetsSplit(f, f', pks, f.values[i].key);
      FlipBoth(f, f', Bolt.FlipEach(f', rest, status).value, pks, i, status);
    }
  }

  lemma StillResolves(f: Bolt.Flipped, f': Bolt.Flipped, pk: Bytes, other: Bytes, i: nat)
    requires SortedKeys(f.values) && Resolves(f, other) && other != pk && i < |f.values|
    requires |f'.values| == |f.values| && (forall k | 0 <= k < |f.values| :: f'.values[k].key == f.values[k].key)
    requires f'.pending == Delete(f.pending, pk)
    ensures Resolves(f', other) && Get(f'.pending, other) == Get(f.pending, other)
  {
    GetDeleted(f.pending, pk, other);
    var x := GetFinds(f.values, Get(f.pending, other).value);
    SameKeys(f.values, f'.values, x);
  }

  lemma TargetsSplit(f: Bolt.Flipped, f': Bolt.Flipped, pks: seq<Bytes>, first: Bytes)
    requires pks != [] && Get(f.pending, pks[0]) == Some(first)
    requires forall j | 0 <= j < |pks| - 1 :: Get(f'.pending, pks[1..][j]) == Get(f.pending, pks[1..][j])
    ensures Targets(f.pending, pks) == Targets(f'.pending, pks[1..]) + {first}
  {
    assert pks == [pks[0]] + pks[1..];
    forall pk | pk in pks[1..] ensures Get(f'.pending, pk) == Get(f.pending, pk) {
      var j :| 0 <= j < |pks| - 1 && pks[1..][j] == pk;
    }
  }

  lemma SameKeys(a: seq<Entry<ValueBody>>, b: seq<Entry<ValueBody>>, x: nat)
    requires |a| == |b| && SortedKeys(a) && (forall k | 0 <= k < |a| :: a[k].key == b[k].key) && x < |a|
    ensures Get(b, a[x].key).Some?
  {
    assert SortedKeys(b);
    GetAt(b, x);
  }

  /** Composing the first entry's effect with the rest's. */
  lemma FlipBoth(f: Bolt.Flipped, f': Bolt.Flipped, done: Bolt.Flipped, pks: seq<Bytes>, i: nat, status: Status)
    requires pks != [] && i < |f.values| && SortedKeys(f.values)
    requires f' == Bolt.Flipped(f.values[i := Restatus(f.values[i], true, status)], Delete(f.pending, pks[0]))
    requires FlipDone(f', done, pks[1..], status)
    requires Targets(f.pending, pks) == Targets(f'.pending, pks[1..]) + {f.values[i].key}
    ensures FlipDone(f, done, pks, status)
  {
    forall k | 0 <= k < |f.values|
      ensures done.values[k] == Restatus(f.values[k], f.values[k].key in Targets(f.pending, pks), status)
    {
      if f.values[k].key == f.values[i].key {
        KeyAt(f.values, k, i);
      }
    }
    forall e
      ensures e in done.pending <==> e in f.pending && e.key !in pks
    {
      DeleteKeepsOthers(f.pending, pks[0], e);
      assert e.key in pks <==> e.key == pks[0] || e.key in pks[1..];
    }
  }

  // ----- The index invariant -----

  ghost predicate Points(rb: Bolt.RunBucket, k: nat, e: Entry<Bytes>) {
    && k < |rb.values| && rb.values[k].val.status == Pending
    && e == Entry(PendingKey(rb.values[k].val.task.bytes, rb.values[k].key), rb.values[k].key)
  }

  /** The pending bucket indexes exactly the pending values. */
  ghost predicate Indexed(rb: Bolt.RunBucket) {
    forall e :: e in rb.pending <==> exists k: nat :: Points(rb, k, e)
  }

  /** No stored value's task can be confused with the given one in a prefix scan. */
  ghost predicate ClearFor(rb: Bolt.RunBucket, task: Name) {
    forall k | 0 <= k < |rb.values| ::
      && |rb.values[k].key| == 16
      && (rb.values[k].val.task == task || Unconfusable(task.bytes, rb.values[k].val.task.bytes))
  }

  lemma ScanExact(rb: Bolt.RunBucket, task: Name, k: nat)
    requires ClearFor(rb, task) && k < |rb.values|
    ensures HasPrefix(PendingKey(rb.values[k].val.task.bytes, rb.values[k].key), Bolt.FlipPrefix(task))
       <==> rb.values[k].val.task == task
  {
    var t, u, event := task.bytes, rb.values[k].val.task.bytes, rb.values[k].key;
    if HasPrefix(PendingKey(u, event), t + [0]) {
      PrefixMeans(t, u, event);
    }
    assert PendingKey(u, event)[..|u| + 1] == u + [0];
  }

  lemma PendingEntry(rb: Bolt.RunBucket, pk: Bytes) returns (k: nat)
    requires Bolt.Ordered(rb) && Indexed(rb) && HasKey(rb.pending, pk)
    ensures k < |rb.values| && Points(rb, k, Entry(pk, rb.values[k].key)) && Get(rb.pending, pk) == Some(rb.values[k].key)
  {
    var i :| 0 <= i < |rb.pending| && rb.pending[i].key == pk;
    GetAt(rb.pending, i);
    assert rb.pending[i] in rb.pending;
    k :| Points(rb, k, rb.pending[i]);
  }

  /** What a prefix scan finds resolves, and belongs to the flipped task. */
  lemma ScanResolves(rb: Bolt.RunBucket, task: Name, pk: Bytes) returns (k: nat)
    requires Bolt.Ordered(rb) && Indexed(rb) && ClearFor(rb, task)
    requires pk in KeysWith(rb.pending, Bolt.FlipPrefix(task))
    ensures Resolves(Bolt.Flipped(rb.values, rb.pending), pk)
    ensures k < |rb.values| && Points(rb, k, Entry(pk, rb.values[k].key)) && Get(rb.pending, pk) == Some(rb.values[k].key)
    ensures rb.values[k].val.task == task
  {
    KeysWithEffect(rb.pending, Bolt.FlipPrefix(task));
    k := PendingEntry(rb, pk);
    GetAt(rb.values, k);
    ScanExact(rb, task, k);
  }

  /** A value's key is among the targets of a flip exactly when it is pending and of that task. */
  lemma TargetIff(rb: Bolt.RunBucket, task: Name, k: nat)
    requires Bolt.Ordered(rb) && Indexed(rb) && ClearFor(rb, task) && k < |rb.values|
    ensures rb.values[k].key in Targets(rb.pending, KeysWith(rb.pending, Bolt.FlipPrefix(task)))
       <==> rb.values[k].val.status == Pending && rb.values[k].val.task == task
  {
    var p := Bolt.FlipPrefix(task);
    var pks := KeysWith(rb.pending, p);
    KeysWithEffect(rb.pending, p);
    if rb.values[k].key in Targets(rb.pending, pks) {
      var pk :| pk in pks && Get(rb.pending, pk).Some? && Get(rb.pending, pk).value == rb.values[k].key;
      var j := ScanResolves(rb, task, pk);
      KeyAt(rb.values, j, k);
    }
    if rb.values[k].val.status == Pending && rb.values[k].val.task == task {
      var e := Entry(PendingKey(task.bytes, rb.values[k].key), rb.values[k].key);
      assert Points(rb, k, e);
      assert e in rb.pending;
      var i :| 0 <= i < |rb.pending| && rb.pending[i] == e;
      GetAt(rb.pending, i);
      ScanExact(rb, task, k);
      assert e.key in pks;
    }
  }

  /** A status flip through the index settles exactly the pending values of its task. */
  lemma FlipSettles(rb: Bolt.RunBucket, f: StatusFlip)
    requires Bolt.Ordered(rb) && Indexed(rb) && ClearFor(rb, f.task)
    ensures var r := Bolt.FlipTask(rb, f);
      && r.Ok? && |r.value.values| == |rb.values|
      && (forall k | 0 <= k < |rb.values| :: r.value.values[k] == Entry(rb.values[k].key, Mem.FlipBody(rb.values[k].val, f)))
      && (forall e :: e in r.value.pending <==> e in rb.pending && e.key !in KeysWith(rb.pending, Bolt.FlipPrefix(f.task)))
      && r.value == rb.(values := r.value.values, pending := r.value.pending)
  {
    var pks, g := KeysWith(rb.pending, Bolt.FlipPrefix(f.task)), Bolt.Flipped(rb.values, rb.pending);
    KeysWithEffect(rb.pending, Bolt.FlipPrefix(f.task));
    forall i | 0 <= i < |pks|
      ensures Resolves(g, pks[i])
    {
      assert pks[i] in pks;
      var k := ScanResolves(rb, f.task, pks[i]);
    }
    FlipEachEffect(g, pks, f.newStatus);
    forall k | 0 <= k < |rb.values|
      ensures Restatus(rb.values[k], rb.values[k].key in Targets(rb.pending, pks), f.newStatus)
           == Entry(rb.values[k].key, Mem.FlipBody(rb.values[k].val, f))
    {
      TargetIff(rb, f.task, k);
    }
  }

  // ----- Writing keeps the index -----

  lemma {:induction false} PutMembers<V>(b: seq<Entry<V>>, k: Bytes, v: V, e: Entry<V>)
    requires forall i | 0 <= i < |b| :: b[i].key != k
    ensures e in Put(b, k, v) <==> e in b || e == Entry(k, v)
  {
    if b != [] {
      PutMembers(b[..|b| - 1], k, v, e);
      assert b == b[..|b| - 1] + [b[|b| - 1]];
    }
  }

  lemma PendingKeysDiffer(t: Bytes, a: Bytes, u: Bytes, b: Bytes)
    requires |a| == |b| && a != b
    ensures PendingKey(t, a) != PendingKey(u, b)
  {
    var x, y := PendingKey(t, a), PendingKey(u, b);
    assert x[|x| - |a|..] == a && y[|y| - |b|..] == b;
  }

  /** The pending key of a new event is new. */
  lemma FreshPendingKey(rb: Bolt.RunBucket, task: Bytes, key: Bytes, i: nat)
    requires Indexed(rb) && i < |rb.pending|
    requires forall k | 0 <= k < |rb.values| :: rb.values[k].key != key && |rb.values[k].key| == |key|
    ensures rb.pending[i].key != PendingKey(task, key)
  {
    assert rb.pending[i] in rb.pending;
    var k: nat :| Points(rb, k, rb.pending[i]);
    PendingKeysDiffer(rb.values[k].val.task.bytes, rb.values[k].key, task, key);
  }

  lemma ValueIndexed(rb: Bolt.RunBucket, w: ValueWrite, p: nat)
    requires Indexed(rb) && p <= |rb.values|
    requires var key := EventKey(w.ts, rb.valueSeq + 1);
      && (forall k | 0 <= k < |rb.values| :: rb.values[k].key != key && |rb.values[k].key| == |key|)
      && Bolt.PutValue(rb, w).values == rb.values[..p] + [Entry(key, Bolt.StoredValue(w))] + rb.values[p..]
    ensures Indexed(Bolt.PutValue(rb, w))
  {
    var rb', key := Bolt.PutValue(rb, w), EventKey(w.ts, rb.valueSeq + 1);
    var pk := PendingKey(w.task.bytes, key);
    forall i | 0 <= i < |rb.pending|
      ensures rb.pending[i].key != pk
    {
      FreshPendingKey(rb, w.task.bytes, key, i);
    }
    IndexGrows(rb, rb', p, w, key);
  }

  lemma IndexGrows(rb: Bolt.RunBucket, rb': Bolt.RunBucket, p: nat, w: ValueWrite, key: Bytes)
    requires Indexed(rb) && p <= |rb.values|
    requires forall i | 0 <= i < |rb.pending| :: rb.pending[i].key != PendingKey(w.task.bytes, key)
    requires rb'.values == rb.values[..p] + [Entry(key, Bolt.StoredValue(w))] + rb.values[p..]
    requires rb'.pending == Put(rb.pending, PendingKey(w.task.bytes, key), key)
    ensures Indexed(rb')
  {
    forall e
      ensures e in rb'.pending <==> exists k: nat :: Points(rb', k, e)
    {
      PutMembers(rb.pending, PendingKey(w.task.bytes, key), key, e);
      PointsShift(rb, rb', p, w, key, e);
    }
  }

  lemma PointsShift(rb: Bolt.RunBucket, rb': Bolt.RunBucket, p: nat, w: ValueWrite, key: Bytes, e: Entry<Bytes>)
    requires p <= |rb.values| && rb'.values == rb.values[..p] + [Entry(key, Bolt.StoredValue(w))] + rb.values[p..]
    ensures (exists k: nat :: Points(rb', k, e)) <==>
      (exists k: nat :: Points(rb, k, e)) || e == Entry(PendingKey(w.task.bytes, key), key)
  {
    if k: nat :| Points(rb', k, e) {
      if k != p {
        assert Points(rb, if k < p then k else k - 1, e);
      }
    }
    if k: nat :| Points(rb, k, e) {
      assert Points(rb', if k < p then k else k + 1, e);
    }
    if e == Entry(PendingKey(w.task.bytes, key), key) {
      assert Points(rb', p, e);
    }
  }

  lemma SameIndex(a: Bolt.RunBucket, b: Bolt.RunBucket)
    requires Indexed(a) && a.values == b.values && a.pending == b.pending
    ensures Indexed(b)
  {
    assert forall e, k: nat :: Points(a, k, e) <==> Points(b, k, e);
  }

  lemma FlipIndexed(rb: Bolt.RunBucket, rb': Bolt.RunBucket, f: StatusFlip)
    requires Bolt.Ordered(rb) && Indexed(rb) && ClearFor(rb, f.task) && f.newStatus != Pending
    requires |rb'.values| == |rb.values|
    requires forall k | 0 <= k < |rb.values| :: rb'.values[k] == Entry(rb.values[k].key, Mem.FlipBody(rb.values[k].val, f))
    requires forall e :: e in rb'.pending <==> e in rb.pending && e.key !in KeysWith(rb.pending, Bolt.FlipPrefix(f.task))
    ensures Indexed(rb')
  {
    forall e
      ensures e in rb'.pending <==> exists k: nat :: Points(rb', k, e)
    {
      if k: nat :| Points(rb, k, e) {
        ScanFinds(rb, f.task, k, e);
        assert rb.values[k].val.task != f.task ==> Points(rb', k, e);
      }
      if k: nat :| Points(rb', k, e) {
        assert Points(rb, k, e);
        ScanFinds(rb, f.task, k, e);
      }
    }
  }

  /** The scan for a task finds an index entry exactly when it points to a value of that task. */
  lemma ScanFinds(rb: Bolt.RunBucket, task: Name, k: nat, e: Entry<Bytes>)
    requires Bolt.Ordered(rb) && Indexed(rb) && ClearFor(rb, task) && Points(rb, k, e)
    ensures e in rb.pending
    ensures e.key in KeysWith(rb.pending, Bolt.FlipPrefix(task)) <==> rb.values[k].val.task == task
  {
    assert e in rb.pending;
    var i :| 0 <= i < |rb.pending| && rb.pending[i] == e;
    KeysWithEffect(rb.pending, Bolt.FlipPrefix(task));
    assert HasKey(rb.pending, e.key);
    ScanExact(rb, task, k);
  }

  /**
   What the ids have to do with it: after a single write of another task, a flip
   leaves the value alone exactly when the value's pending key does not start like
   the flipped task's.
   */
  lemma ForeignFlipIff(w: ValueWrite, f: StatusFlip)
    requires f.newStatus != Pending
    ensures var rb := Bolt.PutValue(Bolt.NEW_BUCKET, w);
      && Bolt.FlipTask(rb, f).Ok?
      && (Bolt.FlipTask(rb, f).value.values == rb.values
          <==> !HasPrefix(PendingKey(w.task.bytes, EventKey(w.ts, 1)), Bolt.FlipPrefix(f.task)))
  {
    var rb, key := Bolt.PutValue(Bolt.NEW_BUCKET, w), EventKey(w.ts, 1);
    var pk, prefix := PendingKey(w.task.bytes, key), Bolt.FlipPrefix(f.task);
    assert rb.values == [Entry(key, Bolt.StoredValue(w))] && rb.pending == [Entry(pk, key)];
    KeysWithEffect(rb.pending, prefix);
    var pks, g := KeysWith(rb.pending, prefix), Bolt.Flipped(rb.values, rb.pending);
    if HasPrefix(pk, prefix) {
      assert rb.pending[0] in rb.pending && HasKey(rb.pending, pk);
      assert pk in pks;
      assert forall i | 0 <= i < |pks| :: pks[i] in pks;
      GetAt(rb.pending, 0);
      GetAt(rb.values, 0);
      FlipEachEffect(g, pks, f.newStatus);
      assert key in Targets(rb.pending, pks);
    } else {
      HeadIn(pks);
    }
  }

  lemma HeadIn<T>(s: seq<T>)
    ensures s == [] || s[0] in s
  {
  }
}
