/**
 The bbolt state store (stores/bbolt/store.go), the fast form of a backend: value
 and history records under keys whose byte order is meant to be replay order, and
 a pending index so that a status flip is one prefix scan.
 */
module BboltStore {
  import opened Prelude
  import opened ByteKeys
  import opened Bucket
  import opened StateStore
  import Mem = InMemoryStore

  datatype RunBucket = RunBucket(
    meta: Option<RunMetadata>,
    values: seq<Entry<ValueBody>>,
    history: seq<Entry<HistoryBody>>,
    pending: seq<Entry<Bytes>>,
    valueSeq: nat,
    historySeq: nat)

  type Store = map<Name, RunBucket>

  const NEW_BUCKET := RunBucket(None, [], [], [], 0, 0)

  function BucketOf(s: Store, run: Name): RunBucket {
    if run in s then s[run] else NEW_BUCKET
  }

  // ----- Operations -----

  /** Where nothing was supplied, null is stored. */
  function OrNull(j: Json): Json {
    if j == EMPTY_JSON then NULL_JSON else j
  }

  function StoredValue(w: ValueWrite): ValueBody {
    ValueBody(w.task, w.execution, w.field, OrNull(w.value), Pending)
  }

  function PutValue(rb: RunBucket, w: ValueWrite): RunBucket {
    var n := rb.valueSeq + 1;
    var key := EventKey(w.ts, n);
    rb.(valueSeq := n,
        values := Put(rb.values, key, StoredValue(w)),
        pending := Put(rb.pending, PendingKey(w.task.bytes, key), key))
  }

  datatype Flipped = Flipped(values: seq<Entry<ValueBody>>, pending: seq<Entry<Bytes>>)

  /** Settle the records behind the given pending keys one by one; a dangling index entry is an error. */
  function FlipEach(f: Flipped, pks: seq<Bytes>, status: Status): Outcome<Flipped>
    decreases |pks|
  {
    if pks == [] then Ok(f)
    else
      match Get(f.pending, pks[0])
      case None => Fail
      case Some(eventKey) =>
        match Get(f.values, eventKey)
        case None => Fail
        case Some(b) =>
          FlipEach(Flipped(Put(f.values, eventKey, b.(status := status)), Delete(f.pending, pks[0])), pks[1..], status)
  }

  function FlipPrefix(task: Name): Bytes {
    task.bytes + [0]
  }

  function FlipTask(rb: RunBucket, f: StatusFlip): Outcome<RunBucket> {
    match FlipEach(Flipped(rb.values, rb.pending), KeysWith(rb.pending, FlipPrefix(f.task)), f.newStatus)
    case Fail => Fail
    case Ok(done) => Ok(rb.(values := done.values, pending := done.pending))
  }

  function StoredEntry(h: HistoryEntry): HistoryBody {
    HistoryBody(h.kind, h.node, h.execution, OrNull(h.payload))
  }

  function PutHistory(rb: RunBucket, h: HistoryEntry): RunBucket {
    var n := rb.historySeq + 1;
    rb.(historySeq := n, history := Put(rb.history, EventKey(h.ts, n), StoredEntry(h)))
  }

  function ApplyToBucket(rb: RunBucket, op: WriteOp): Outcome<RunBucket>
    requires ValidOp(op)
  {
    if op.kind == OP_VALUE_WRITE then Ok(PutValue(rb, op.write.value))
    else if op.kind == OP_STATUS_FLIP then FlipTask(rb, op.flip.value)
    else Ok(PutHistory(rb, op.entry.value))
  }

  function ApplyAll(s: Store, ops: seq<WriteOp>): Outcome<Store>
    requires Mem.ValidBatch(ops)
    decreases |ops|
  {
    if ops == [] then Ok(s)
    else
      match ApplyToBucket(BucketOf(s, ops[0].run), ops[0])
      case Fail => Fail
      case Ok(rb) => ApplyAll(s[ops[0].run := rb], ops[1..])
  }

  /** One transaction: an invalid batch is refused, a failing one is rolled back. */
  function Batched(s: Store, ops: seq<WriteOp>): Store {
    if !Mem.ValidBatch(ops) then s
    else match ApplyAll(s, ops) case Fail => s case Ok(s') => s'
  }

  function Saved(s: Store, meta: RunMetadata): Store {
    if meta.run == EMPTY_NAME then s else s[meta.run := BucketOf(s, meta.run).(meta := Some(meta))]
  }

  /** A store after any sequence of saves and batches. */
  function RunSteps(s: Store, steps: seq<Step>): Store
    decreases |steps|
  {
    if steps == [] then s
    else RunSteps(if steps[0].Save? then Saved(s, steps[0].meta) else Batched(s, steps[0].ops), steps[1..])
  }

  // ----- Reads -----

  function MetaOf(rb: RunBucket, run: Name): RunMetadata {
    if rb.meta.Some? then rb.meta.value else RunMetadata(run, [])
  }

  /** Event keys are sixteen bytes; anything else does not decode. */
  function Decode<T>(e: Entry<T>): Record<T> {
    if |e.key| == 16 then Record(KeyTime(e.key), KeySeq(e.key), e.val) else Record(0, 0, e.val)
  }

  /** Walk a bucket in key order. */
  function Walk<T>(b: seq<Entry<T>>): seq<Record<T>> {
    seq(|b|, i requires 0 <= i < |b| => Decode(b[i]))
  }

  function CurrentOf(s: Store, run: Name): Option<Mem.CurrentVersion> {
    if run in s then Some(Mem.CurrentVersion(MetaOf(s[run], run), Mem.Fold(Walk(s[run].values)))) else None
  }

  function HistoryOf(s: Store, run: Name): Option<Mem.FullHistory> {
    if run in s then Some(Mem.FullHistory(MetaOf(s[run], run), Walk(s[run].values), Walk(s[run].history))) else None
  }

  /** The buckets the store keeps are in key order. */
  ghost predicate Ordered(rb: RunBucket) {
    SortedKeys(rb.values) && SortedKeys(rb.history) && SortedKeys(rb.pending)
  }

  lemma {:induction false} PutSorted<V>(b: seq<Entry<V>>, k: Bytes, v: V)
    requires SortedKeys(b)
    ensures SortedKeys(Put(b, k, v))
  {
    if b != [] {
      var n := |b| - 1;
      LessTotal(k, b[n].key);
      if Less(k, b[n].key) {
        PutSorted(b[..n], k, v);
        var p := Put(b[..n], k, v);
        forall i | 0 <= i < |p|
          ensures Less(p[i].key, b[n].key)
        {
          PutKeys(b[..n], k, v, i);
        }
      } else if k != b[n].key {
        forall i | 0 <= i < n
          ensures Less(b[i].key, k)
        {
          LessTransitive(b[i].key, b[n].key, k);
        }
      }
    }
  }

  lemma {:induction false} PutKeys<V>(b: seq<Entry<V>>, k: Bytes, v: V, i: nat)
    requires i < |Put(b, k, v)|
    ensures Put(b, k, v)[i] == Entry(k, v) || exists j :: 0 <= j < |b| && b[j] == Put(b, k, v)[i]
  {
    if b != [] {
      var n := |b| - 1;
      var init := b[..n];
      if Less(k, b[n].key) {
        var p := Put(init, k, v);
        if i < |p| {
          PutKeys(init, k, v, i);
          if p[i] != Entry(k, v) {
            var j :| 0 <= j < |init| && init[j] == p[i];
            assert b[j] == Put(b, k, v)[i];
          }
        } else {
          assert b[n] == Put(b, k, v)[i];
        }
      } else if i < n {
        assert b[i] == Put(b, k, v)[i];
      } else if k != b[n].key && i == n {
        assert b[n] == Put(b, k, v)[i];
      }
    }
  }

  lemma {:induction false} FlipOrdered(f: Flipped, pks: seq<Bytes>, status: Status)
    requires SortedKeys(f.values) && SortedKeys(f.pending)
    ensures match FlipEach(f, pks, status)
      case Fail => true
      case Ok(done) => SortedKeys(done.values) && SortedKeys(done.pending)
    decreases |pks|
  {
    if pks != [] && Get(f.pending, pks[0]).Some? {
      var eventKey := Get(f.pending, pks[0]).value;
      if Get(f.values, eventKey).Some? {
        var b := Get(f.values, eventKey).value.(status := status);
        PutSorted(f.values, eventKey, b);
        DeleteSorted(f.pending, pks[0]);
        FlipOrdered(Flipped(Put(f.values, eventKey, b), Delete(f.pending, pks[0])), pks[1..], status);
      }
    }
  }

  lemma ApplyOrdered(rb: RunBucket, op: WriteOp)
    requires Ordered(rb) && ValidOp(op)
    ensures ApplyToBucket(rb, op).Ok? ==> Ordered(ApplyToBucket(rb, op).value)
  {
    if op.kind == OP_VALUE_WRITE {
      var w, key := op.write.value, EventKey(op.write.value.ts, rb.valueSeq + 1);
      PutSorted(rb.values, key, StoredValue(w));
      PutSorted(rb.pending, PendingKey(w.task.bytes, key), key);
    } else if op.kind == OP_STATUS_FLIP {
      FlipOrdered(Flipped(rb.values, rb.pending), KeysWith(rb.pending, FlipPrefix(op.flip.value.task)), op.flip.value.newStatus);
    } else {
      var h := op.entry.value;
      PutSorted(rb.history, EventKey(h.ts, rb.historySeq + 1), StoredEntry(h));
    }
  }

  // ----- The store object -----

  /** applyStatusFlip: scan the pending index for the task, then settle what it points to. */
  method ApplyStatusFlip(rb: RunBucket, f: StatusFlip) returns (r: Outcome<RunBucket>)
    requires Ordered(rb)
    ensures r == FlipTask(rb, f)
  {
    var pks := ScanPrefix(rb.pending, FlipPrefix(f.task));
    var values, pending := rb.values, rb.pending;
    for i := 0 to |pks|
      invariant FlipEach(Flipped(values, pending), pks[i..], f.newStatus) == FlipEach(Flipped(rb.values, rb.pending), pks, f.newStatus)
    {
      assert pks[i..][1..] == pks[i + 1..];
      var eventKey := Get(pending, pks[i]);
      if eventKey.None? {
        return Fail;
      }
      var raw := Get(values, eventKey.value);
      if raw.None? {
        return Fail;
      }
      values := Put(values, eventKey.value, raw.value.(status := f.newStatus));
      pending := Delete(pending, pks[i]);
    }
    return Ok(rb.(values := values, pending := pending));
  }

  method ApplyOp(rb: RunBucket, op: WriteOp) returns (r: Outcome<RunBucket>)
    requires Ordered(rb) && ValidOp(op)
    ensures r == ApplyToBucket(rb, op)
  {
    if op.kind == OP_VALUE_WRITE {
      return Ok(PutValue(rb, op.write.value));
    } else if op.kind == OP_STATUS_FLIP {
      r := ApplyStatusFlip(rb, op.flip.value);
    } else {
      return Ok(PutHistory(rb, op.entry.value));
    }
  }

  ghost predicate AllOrdered(s: Store) {
    forall run | run in s :: Ordered(s[run])
  }

  /** The body of the write transaction: operation by operation, stopping at the first error. */
  method Transact(s: Store, ops: seq<WriteOp>) returns (r: Outcome<Store>)
    requires AllOrdered(s) && Mem.ValidBatch(ops)
    ensures r == ApplyAll(s, ops)
    ensures r.Ok? ==> AllOrdered(r.value)
  {
    var tx := s;
    for i := 0 to |ops|
      invariant AllOrdered(tx)
      invariant ApplyAll(tx, ops[i..]) == ApplyAll(s, ops)
    {
      assert ops[i..][0] == ops[i] && ops[i..][1..] == ops[i + 1..];
      var rb := BucketOf(tx, ops[i].run);
      ApplyOrdered(rb, ops[i]);
      var applied := ApplyOp(rb, ops[i]);
      if applied.Fail? {
        return Fail;
      }
      tx := tx[ops[i].run := applied.value];
    }
    return Ok(tx);
  }

  /** The ForEach of a bucket: every entry in key order, its key split into timestamp and sequence number. */
  method WalkBucket<T>(b: seq<Entry<T>>) returns (recs: seq<Record<T>>)
    ensures recs == Walk(b)
  {
    recs := [];
    for i := 0 to |b|
      invariant recs == Walk(b)[..i]
    {
      assert Walk(b)[..i + 1] == Walk(b)[..i] + [Decode(b[i])];
      recs := recs + [Decode(b[i])];
    }
    assert Walk(b)[..|b|] == Walk(b);
  }

  class BboltStateStore {
    var runs: Store

    ghost predicate Valid()
      reads this
    {
      AllOrdered(runs)
    }

    constructor ()
      ensures runs == map[] && Valid()
    {
      runs := map[];
    }

    method Save(meta: RunMetadata) returns (ok: bool)
      requires Valid()
      modifies this
      ensures ok == (meta.run != EMPTY_NAME)
      ensures runs == Saved(old(runs), meta) && Valid()
    {
      if meta.run == EMPTY_NAME {
        return false;
      }
      var rb := if meta.run in runs then runs[meta.run] else NEW_BUCKET;
      runs := runs[meta.run := rb.(meta := Some(meta))];
      return true;
    }

    /** WriteBatch: validated first, then one transaction that commits or leaves no trace. */
    method WriteBatch(ops: seq<WriteOp>) returns (ok: bool)
      requires Valid()
      modifies this
      ensures ok == (Mem.ValidBatch(ops) && ApplyAll(old(runs), ops).Ok?)
      ensures ok ==> forall i | 0 <= i < |ops| :: ProblemOf(ops[i]).None?
      ensures runs == Batched(old(runs), ops) && Valid()
    {
      for i := 0 to |ops|
        invariant Mem.ValidBatch(ops[..i])
      {
        if ProblemOf(ops[i]).Some? {
          return false;
        }
        assert ops[..i + 1] == ops[..i] + [ops[i]];
      }
      assert ops[..|ops|] == ops;
      var tx := Transact(runs, ops);
      if tx.Fail? {
        return false;
      }
      runs := tx.value;
      return true;
    }

    method Current(run: Name) returns (cv: Option<Mem.CurrentVersion>)
      ensures cv == CurrentOf(runs, run)
    {
      if run !in runs {
        return None;
      }
      var b := runs[run].values;
      var version: Mem.Version := map[];
      for i := 0 to |b|
        invariant version == Mem.Fold(Walk(b)[..i])
      {
        assert Walk(b)[..i + 1][..i] == Walk(b)[..i];
        if b[i].val.status == Committed {
          version := version[SlotOf(b[i].val) := b[i].val.value];
        }
      }
      assert Walk(b)[..|b|] == Walk(b);
      return Some(Mem.CurrentVersion(MetaOf(runs[run], run), version));
    }

    method FullHistory(run: Name) returns (fh: Option<Mem.FullHistory>)
      ensures fh == HistoryOf(runs, run)
    {
      if run !in runs {
        return None;
      }
      var values := WalkBucket(runs[run].values);
      var history := WalkBucket(runs[run].history);
      return Some(Mem.FullHistory(MetaOf(runs[run], run), values, history));
    }
  }
}
