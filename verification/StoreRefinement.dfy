/**
 The bbolt store against the in-memory store. After any sequence of saves and
 batches bbolt serves the same records in the order of its keys, which is replay
 order with the timestamps read as unsigned numbers; absent values and payloads
 come back as null and records are renumbered. The two stores therefore serve the
 same history of a run exactly when each of its two buckets stays on one side of
 the Unix epoch, and the same current version exactly when each slot's latest
 values on the two sides agree. No two task ids of a run can be confused in a
 prefix scan, and timestamps and sequence numbers fit 64 bits throughout.
 */
module StoreRefinement {
  import opened Prelude
  import opened ByteKeys
  import opened Bucket
  import opened StateStore
  import opened PendingIndex
  import Mem = InMemoryStore
  import Bolt = BboltStore

  // ----- Mapping records -----

  function MapBodies<T, U>(s: seq<Record<T>>, f: T -> U): seq<Record<U>> {
    seq(|s|, i requires 0 <= i < |s| => Record(s[i].ts, s[i].arrival, f(s[i].body)))
  }

  /** The timestamps as the keys read them. */
  function Unsigned<T>(s: seq<Record<T>>): seq<Record<T>> {
    seq(|s|, i requires 0 <= i < |s| => s[i].(ts := ToUnsigned(s[i].ts)))
  }

  function Signed<T>(s: seq<Record<T>>): seq<Record<T>> {
    seq(|s|, i requires 0 <= i < |s| => s[i].(ts := if s[i].ts >= 0 then ToSigned(s[i].ts) else s[i].ts))
  }

  lemma {:induction false} InsertMapped<T, U>(s: seq<Record<T>>, r: Record<T>, f: T -> U)
    ensures Insert(MapBodies(s, f), Record(r.ts, r.arrival, f(r.body))) == MapBodies(Insert(s, r), f)
  {
    if s != [] {
      var n := |s| - 1;
      InsertMapped(s[..n], r, f);
      assert MapBodies(s, f)[..n] == MapBodies(s[..n], f);
    }
  }

  /** Replay order does not look at the bodies. */
  lemma {:induction false} ReplayMapped<T, U>(s: seq<Record<T>>, f: T -> U)
    ensures Replay(MapBodies(s, f)) == MapBodies(Replay(s), f)
  {
    if s != [] {
      var n := |s| - 1;
      ReplayMapped(s[..n], f);
      assert MapBodies(s, f)[..n] == MapBodies(s[..n], f);
      InsertMapped(Replay(s[..n]), s[n], f);
    }
  }

  // ----- A bucket that mirrors a replay -----

  function RawKey(u: nat, n: nat): (k: Bytes)
    ensures |k| == 16
  {
    TwoWords(u, n, 8)
  }

  lemma RawParts(u: nat, n: nat)
    requires u < TWO64 && n < TWO64
    ensures KeyTime(RawKey(u, n)) == ToSigned(u) && KeySeq(RawKey(u, n)) == n
  {
    Pow256Of8();
    TwoWordsRoundTrip(u, n, 8);
  }

  lemma EventIsRaw(ts: int, n: nat)
    requires n < TWO64
    ensures EventKey(ts, n) == RawKey(ToUnsigned(ts), n)
  {
  }

  /** The entry holds the record, whose timestamp is unsigned, under its key. */
  ghost predicate Matches<T>(e: Entry<T>, r: Record<T>, n: nat) {
    0 <= r.ts < TWO64 && |e.key| == 16 && KeySeq(e.key) <= n && e.key == RawKey(r.ts, KeySeq(e.key)) && e.val == r.body
  }

  ghost predicate Mirrors<T>(b: seq<Entry<T>>, s: seq<Record<T>>, n: nat) {
    |b| == |s| && forall k | 0 <= k < |b| :: Matches(b[k], s[k], n)
  }

  /** A new key that compares with the others as its record does goes to the same place. */
  lemma {:induction false} PutFollowsInsert<T>(b: seq<Entry<T>>, s: seq<Record<T>>, key: Bytes, r: Record<T>) returns (p: nat)
    requires |b| == |s|
    requires forall k | 0 <= k < |b| :: key != b[k].key && (Less(key, b[k].key) <==> Precedes(r, s[k]))
    ensures p <= |b|
    ensures Put(b, key, r.body) == b[..p] + [Entry(key, r.body)] + b[p..]
    ensures Insert(s, r) == s[..p] + [r] + s[p..]
  {
    var n := |s| - 1;
    if s == [] || !Precedes(r, s[n]) {
      p := |s|;
      assert b[..p] == b && b[p..] == [] && s[..p] == s && s[p..] == [];
    } else {
      p := PutFollowsInsert(b[..n], s[..n], key, r);
      assert b[p..] == b[..n][p..] + [b[n]] && s[p..] == s[..n][p..] + [s[n]];
      assert b[..n][..p] == b[..p] && s[..n][..p] == s[..p];
    }
  }

  lemma NewKeyOrder<T>(e: Entry<T>, prior: Record<T>, r: Record<T>, n: nat)
    requires Matches(e, prior, n) && n + 1 < TWO64 && 0 <= r.ts < TWO64 && prior.arrival < r.arrival
    ensures RawKey(r.ts, n + 1) != e.key
    ensures Less(RawKey(r.ts, n + 1), e.key) <==> Precedes(r, prior)
  {
    RawParts(r.ts, n + 1);
    EightBytesOrder(r.ts, n + 1, prior.ts, KeySeq(e.key));
  }

  /** Where a record newer than all others goes, in the bucket and in the replay alike. */
  lemma PutPlace<T>(b: seq<Entry<T>>, s: seq<Record<T>>, r: Record<T>, n: nat, key: Bytes) returns (p: nat)
    requires Mirrors(b, s, n) && n + 1 < TWO64 && 0 <= r.ts < TWO64 && key == RawKey(r.ts, n + 1)
    requires forall k | 0 <= k < |s| :: s[k].arrival < r.arrival
    ensures p <= |b|
    ensures Put(b, key, r.body) == b[..p] + [Entry(key, r.body)] + b[p..]
    ensures Insert(s, r) == s[..p] + [r] + s[p..]
    ensures forall k | 0 <= k < |b| :: b[k].key != key && |b[k].key| == |key|
  {
    forall k | 0 <= k < |b|
      ensures key != b[k].key && (Less(key, b[k].key) <==> Precedes(r, s[k])) && |b[k].key| == |key|
    {
      NewKeyOrder(b[k], s[k], r, n);
    }
    p := PutFollowsInsert(b, s, key, r);
  }

  lemma StaysMirrored<T>(b: seq<Entry<T>>, s: seq<Record<T>>, e: Entry<T>, r: Record<T>, n: nat, p: nat)
    requires Mirrors(b, s, n) && p <= |b| && Matches(e, r, n + 1)
    ensures Mirrors(b[..p] + [e] + b[p..], s[..p] + [r] + s[p..], n + 1)
  {
    var b', s' := b[..p] + [e] + b[p..], s[..p] + [r] + s[p..];
    forall k | 0 <= k < |b'|
      ensures Matches(b'[k], s'[k], n + 1)
    {
      if k != p {
        var j := if k < p then k else k - 1;
        assert b'[k] == b[j] && s'[k] == s[j];
        assert Matches(b[j], s[j], n);
      }
    }
  }

  /** A record newer than all others goes to the same place in the bucket as in the replay. */
  lemma PutMirrors<T>(b: seq<Entry<T>>, s: seq<Record<T>>, r: Record<T>, n: nat)
    requires Mirrors(b, s, n) && n + 1 < TWO64 && 0 <= r.ts < TWO64
    requires forall k | 0 <= k < |s| :: s[k].arrival < r.arrival
    ensures Mirrors(Put(b, RawKey(r.ts, n + 1), r.body), Insert(s, r), n + 1)
  {
    var p := PutPlace(b, s, r, n, RawKey(r.ts, n + 1));
    RawParts(r.ts, n + 1);
    StaysMirrored(b, s, Entry(RawKey(r.ts, n + 1), r.body), r, n, p);
  }

  // ----- The refinement relation for one run -----

  /** What bbolt reads back for a value and for a history entry. */
  function NullValue(b: ValueBody): ValueBody {
    b.(value := Bolt.OrNull(b.value))
  }

  function NullPayload(b: HistoryBody): HistoryBody {
    b.(payload := Bolt.OrNull(b.payload))
  }

  /** The records of a run as the bbolt buckets hold them. */
  function ValueView(m: Mem.Run): seq<Record<ValueBody>> {
    Unsigned(MapBodies(m.values, NullValue))
  }

  function HistoryView(m: Mem.Run): seq<Record<HistoryBody>> {
    Unsigned(MapBodies(m.history, NullPayload))
  }

  ghost predicate Counted<T>(s: seq<Record<T>>, count: nat) {
    forall k | 0 <= k < |s| :: s[k].arrival <= count
  }

  /** A bucket with its own counter mirrors the records of a log with a shared one. */
  ghost predicate Tracks<T>(b: seq<Entry<T>>, n: nat, s: seq<Record<T>>, count: nat) {
    Mirrors(b, Replay(s), n) && n <= count && Counted(s, count)
  }

  ghost predicate TimesFit<T>(s: seq<Record<T>>) {
    forall k | 0 <= k < |s| :: IsInt64(s[k].ts)
  }

  /** Which tasks a run may write: run, then task. */
  type Tasks = (Name, Name) -> bool

  ghost predicate TasksIn(rb: Bolt.RunBucket, run: Name, tasks: Tasks) {
    forall k | 0 <= k < |rb.values| :: tasks(run, rb.values[k].val.task)
  }

  ghost predicate Rel(m: Mem.Run, rb: Bolt.RunBucket, run: Name, tasks: Tasks) {
    && TimesFit(m.values) && TimesFit(m.history)
    && Tracks(rb.values, rb.valueSeq, ValueView(m), m.count)
    && Tracks(rb.history, rb.historySeq, HistoryView(m), m.count)
    && Bolt.Ordered(rb) && Indexed(rb) && TasksIn(rb, run, tasks)
    && Bolt.MetaOf(rb, run) == m.meta
  }

  lemma {:induction false} InsertCounted<T>(s: seq<Record<T>>, r: Record<T>, count: nat)
    requires Counted(s, count) && r.arrival <= count
    ensures Counted(Insert(s, r), count)
  {
    if s != [] {
      InsertCounted(s[..|s| - 1], r, count);
    }
  }

  lemma {:induction false} ReplayCounted<T>(s: seq<Record<T>>, count: nat)
    requires Counted(s, count)
    ensures Counted(Replay(s), count)
  {
    if s != [] {
      ReplayCounted(s[..|s| - 1], count);
      InsertCounted(Replay(s[..|s| - 1]), s[|s| - 1], count);
    }
  }

  /** The operations the key layout is made for: no other task the run may write can be confused with a flipped one. */
  ghost predicate Suits(op: WriteOp, tasks: Tasks) {
    && ValidOp(op)
    && (op.kind == OP_VALUE_WRITE ==> IsInt64(op.write.value.ts) && tasks(op.run, op.write.value.task))
    && (op.kind == OP_STATUS_FLIP ==> ClearOf(op.flip.value.task, op.run, tasks))
    && (op.kind == OP_HISTORY_ENTRY ==> IsInt64(op.entry.value.ts))
  }

  ghost predicate ClearOf(task: Name, run: Name, tasks: Tasks) {
    forall other | tasks(run, other) && other != task :: Unconfusable(task.bytes, other.bytes)
  }

  lemma NewRunRel(run: Name, tasks: Tasks)
    ensures Rel(Mem.NewRun(run), Bolt.NEW_BUCKET, run, tasks)
  {
    assert ValueView(Mem.NewRun(run)) == [] && HistoryView(Mem.NewRun(run)) == [];
  }

  /** Appending a record to the log and putting it under the next key keeps the two in step. */
  lemma TrackOne<T>(b: seq<Entry<T>>, n: nat, s: seq<Record<T>>, count: nat, r: Record<T>, b': seq<Entry<T>>, s': seq<Record<T>>)
    requires Tracks(b, n, s, count) && 0 <= r.ts < TWO64 && r.arrival == count + 1 && count + 1 < TWO64
    requires b' == Put(b, RawKey(r.ts, n + 1), r.body) && s' == s + [r]
    ensures Tracks(b', n + 1, s', count + 1)
  {
    ReplayCounted(s, count);
    assert s'[..|s|] == s;
    PutMirrors(b, Replay(s), r, n);
  }

  lemma TrackLater<T>(b: seq<Entry<T>>, n: nat, s: seq<Record<T>>, count: nat)
    requires Tracks(b, n, s, count)
    ensures Tracks(b, n, s, count + 1)
  {
  }

  lemma OneMoreMapped<T, U>(s: seq<Record<T>>, r: Record<T>, f: T -> U)
    ensures Unsigned(MapBodies(s + [r], f)) == Unsigned(MapBodies(s, f)) + [Record(ToUnsigned(r.ts), r.arrival, f(r.body))]
  {
  }

  /** Writing a value keeps the relation. */
  lemma ValueStep(m: Mem.Run, rb: Bolt.RunBucket, op: WriteOp, tasks: Tasks)
    requires Rel(m, rb, op.run, tasks) && Suits(op, tasks) && op.kind == OP_VALUE_WRITE && m.count + 1 < TWO64
    ensures Rel(Mem.ApplyToRun(m, op), Bolt.PutValue(rb, op.write.value), op.run, tasks)
  {
    var w, m' := op.write.value, Mem.ApplyToRun(m, op);
    ValueTracked(m, rb, op, tasks);
    assert HistoryView(m') == HistoryView(m);
    TrackLater(rb.history, rb.historySeq, HistoryView(m), m.count);
    Bolt.ApplyOrdered(rb, op);
    ValueIndexStep(m, rb, op.run, w, tasks);
  }

  lemma ValueTracked(m: Mem.Run, rb: Bolt.RunBucket, op: WriteOp, tasks: Tasks)
    requires Tracks(rb.values, rb.valueSeq, ValueView(m), m.count) && m.count + 1 < TWO64
    requires Suits(op, tasks) && op.kind == OP_VALUE_WRITE
    ensures var m', rb' := Mem.ApplyToRun(m, op), Bolt.PutValue(rb, op.write.value);
      Tracks(rb'.values, rb'.valueSeq, ValueView(m'), m'.count)
  {
    var w := op.write.value;
    ValueAfter(m, rb, op);
    TrackOne(rb.values, rb.valueSeq, ValueView(m), m.count, Record(ToUnsigned(w.ts), m.count + 1, Bolt.StoredValue(w)),
             Bolt.PutValue(rb, w).values, ValueView(Mem.ApplyToRun(m, op)));
  }

  lemma ValueAfter(m: Mem.Run, rb: Bolt.RunBucket, op: WriteOp)
    requires ValidOp(op) && op.kind == OP_VALUE_WRITE && rb.valueSeq + 1 < TWO64
    ensures var w, m', rb' := op.write.value, Mem.ApplyToRun(m, op), Bolt.PutValue(rb, op.write.value);
      && m'.count == m.count + 1 && rb'.valueSeq == rb.valueSeq + 1
      && rb'.values == Put(rb.values, RawKey(ToUnsigned(w.ts), rb.valueSeq + 1), Bolt.StoredValue(w))
      && ValueView(m') == ValueView(m) + [Record(ToUnsigned(w.ts), m.count + 1, Bolt.StoredValue(w))]
  {
    var w := op.write.value;
    EventIsRaw(w.ts, rb.valueSeq + 1);
    OneMoreMapped(m.values, Record(w.ts, m.count + 1, Mem.WrittenBody(w)), NullValue);
    assert NullValue(Mem.WrittenBody(w)) == Bolt.StoredValue(w);
  }

  lemma ValueIndexStep(m: Mem.Run, rb: Bolt.RunBucket, run: Name, w: ValueWrite, tasks: Tasks)
    requires Tracks(rb.values, rb.valueSeq, ValueView(m), m.count) && m.count + 1 < TWO64
    requires Indexed(rb) && TasksIn(rb, run, tasks) && tasks(run, w.task)
    ensures Indexed(Bolt.PutValue(rb, w)) && TasksIn(Bolt.PutValue(rb, w), run, tasks)
  {
    EventIsRaw(w.ts, rb.valueSeq + 1);
    ReplayCounted(ValueView(m), m.count);
    var key := EventKey(w.ts, rb.valueSeq + 1);
    IndexAfter(rb, run, w, tasks, key, Replay(ValueView(m)), Record(ToUnsigned(w.ts), m.count + 1, Bolt.StoredValue(w)));
  }

  lemma IndexAfter(rb: Bolt.RunBucket, run: Name, w: ValueWrite, tasks: Tasks, key: Bytes, s: seq<Record<ValueBody>>, r: Record<ValueBody>)
    requires Indexed(rb) && TasksIn(rb, run, tasks) && tasks(run, w.task)
    requires Mirrors(rb.values, s, rb.valueSeq) && rb.valueSeq + 1 < TWO64 && 0 <= r.ts < TWO64
    requires r.body == Bolt.StoredValue(w) && forall k | 0 <= k < |s| :: s[k].arrival < r.arrival
    requires key == RawKey(r.ts, rb.valueSeq + 1) && key == EventKey(w.ts, rb.valueSeq + 1)
    ensures Indexed(Bolt.PutValue(rb, w)) && TasksIn(Bolt.PutValue(rb, w), run, tasks)
  {
    var p := PutPlace(rb.values, s, r, rb.valueSeq, key);
    ValueIndexed(rb, w, p);
    TasksAfter(rb, run, w, tasks, key, p);
  }

  lemma TasksAfter(rb: Bolt.RunBucket, run: Name, w: ValueWrite, tasks: Tasks, key: Bytes, p: nat)
    requires TasksIn(rb, run, tasks) && tasks(run, w.task) && p <= |rb.values|
    requires Bolt.PutValue(rb, w).values == rb.values[..p] + [Entry(key, Bolt.StoredValue(w))] + rb.values[p..]
    ensures TasksIn(Bolt.PutValue(rb, w), run, tasks)
  {
    var values := Bolt.PutValue(rb, w).values;
    forall k | 0 <= k < |values| ensures tasks(run, values[k].val.task) {
      if k != p {
        assert values[k] == rb.values[if k < p then k else k - 1];
      }
    }
  }

  /** Writing a history entry keeps the relation. */
  lemma HistoryStep(m: Mem.Run, rb: Bolt.RunBucket, op: WriteOp, tasks: Tasks)
    requires Rel(m, rb, op.run, tasks) && Suits(op, tasks) && op.kind == OP_HISTORY_ENTRY && m.count + 1 < TWO64
    ensures Rel(Mem.ApplyToRun(m, op), Bolt.PutHistory(rb, op.entry.value), op.run, tasks)
  {
    var m', rb' := Mem.ApplyToRun(m, op), Bolt.PutHistory(rb, op.entry.value);
    HistoryTracked(m, rb, op, tasks);
    assert ValueView(m') == ValueView(m);
    TrackLater(rb.values, rb.valueSeq, ValueView(m), m.count);
    Bolt.ApplyOrdered(rb, op);
    SameIndex(rb, rb');
  }

  lemma HistoryTracked(m: Mem.Run, rb: Bolt.RunBucket, op: WriteOp, tasks: Tasks)
    requires Tracks(rb.history, rb.historySeq, HistoryView(m), m.count)
    requires Suits(op, tasks) && op.kind == OP_HISTORY_ENTRY && m.count + 1 < TWO64
    ensures var m', rb' := Mem.ApplyToRun(m, op), Bolt.PutHistory(rb, op.entry.value);
      Tracks(rb'.history, rb'.historySeq, HistoryView(m'), m'.count)
  {
    var h := op.entry.value;
    HistoryAfter(m, rb, op);
    TrackOne(rb.history, rb.historySeq, HistoryView(m), m.count, Record(ToUnsigned(h.ts), m.count + 1, Bolt.StoredEntry(h)),
             Bolt.PutHistory(rb, h).history, HistoryView(Mem.ApplyToRun(m, op)));
  }

  lemma HistoryAfter(m: Mem.Run, rb: Bolt.RunBucket, op: WriteOp)
    requires ValidOp(op) && op.kind == OP_HISTORY_ENTRY && rb.historySeq + 1 < TWO64
    ensures var h, m', rb' := op.entry.value, Mem.ApplyToRun(m, op), Bolt.PutHistory(rb, op.entry.value);
      && m'.count == m.count + 1 && rb'.historySeq == rb.historySeq + 1
      && rb'.history == Put(rb.history, RawKey(ToUnsigned(h.ts), rb.historySeq + 1), Bolt.StoredEntry(h))
      && HistoryView(m') == HistoryView(m) + [Record(ToUnsigned(h.ts), m.count + 1, Bolt.StoredEntry(h))]
  {
    var h := op.entry.value;
    EventIsRaw(h.ts, rb.historySeq + 1);
    OneMoreMapped(m.history, Record(h.ts, m.count + 1, Mem.EntryBody(h)), NullPayload);
    assert NullPayload(Mem.EntryBody(h)) == Bolt.StoredEntry(h);
  }

  /** Settling a task keeps the relation. */
  lemma FlipStep(m: Mem.Run, rb: Bolt.RunBucket, op: WriteOp, tasks: Tasks)
    requires Rel(m, rb, op.run, tasks) && Suits(op, tasks) && op.kind == OP_STATUS_FLIP
    ensures Bolt.FlipTask(rb, op.flip.value).Ok?
    ensures Rel(Mem.ApplyToRun(m, op), Bolt.FlipTask(rb, op.flip.value).value, op.run, tasks)
  {
    var f, m' := op.flip.value, Mem.ApplyToRun(m, op);
    StoredClear(m, rb, op.run, f.task, tasks);
    FlipSettles(rb, f);
    Bolt.ApplyOrdered(rb, op);
    var rb' := Bolt.FlipTask(rb, f).value;
    FlipTracked(m, rb, rb', f);
    assert HistoryView(m') == HistoryView(m);
    FlipIndexed(rb, rb', f);
  }

  lemma StoredClear(m: Mem.Run, rb: Bolt.RunBucket, run: Name, task: Name, tasks: Tasks)
    requires Rel(m, rb, run, tasks) && ClearOf(task, run, tasks)
    ensures ClearFor(rb, task)
  {
    forall k | 0 <= k < |rb.values| ensures |rb.values[k].key| == 16 {
      assert Matches(rb.values[k], Replay(ValueView(m))[k], rb.valueSeq);
    }
  }

  lemma FlipTracked(m: Mem.Run, rb: Bolt.RunBucket, rb': Bolt.RunBucket, f: StatusFlip)
    requires Tracks(rb.values, rb.valueSeq, ValueView(m), m.count) && |rb'.values| == |rb.values|
    requires forall k | 0 <= k < |rb.values| :: rb'.values[k] == Entry(rb.values[k].key, Mem.FlipBody(rb.values[k].val, f))
    ensures Tracks(rb'.values, rb.valueSeq, ValueView(m.(values := Mem.FlipAll(m.values, f))), m.count)
  {
    var flip := (b: ValueBody) => Mem.FlipBody(b, f);
    var was, now := ValueView(m), ValueView(m.(values := Mem.FlipAll(m.values, f)));
    forall i | 0 <= i < |now|
      ensures now[i] == MapBodies(was, flip)[i]
    {
      assert NullValue(Mem.FlipBody(m.values[i].body, f)) == Mem.FlipBody(NullValue(m.values[i].body), f);
    }
    assert now == MapBodies(was, flip);
    assert Counted(now, m.count) by {
      assert forall k | 0 <= k < |now| :: now[k].arrival == was[k].arrival;
    }
    ReplayMapped(ValueView(m), flip);
    FlipMirrored(rb, rb', Replay(ValueView(m)), f);
  }

  lemma FlipMirrored(rb: Bolt.RunBucket, rb': Bolt.RunBucket, s: seq<Record<ValueBody>>, f: StatusFlip)
    requires Mirrors(rb.values, s, rb.valueSeq) && |rb'.values| == |rb.values|
    requires forall k | 0 <= k < |rb.values| :: rb'.values[k] == Entry(rb.values[k].key, Mem.FlipBody(rb.values[k].val, f))
    ensures Mirrors(rb'.values, MapBodies(s, (b: ValueBody) => Mem.FlipBody(b, f)), rb.valueSeq)
  {
    forall k | 0 <= k < |rb.values|
      ensures Matches(rb'.values[k], MapBodies(s, (b: ValueBody) => Mem.FlipBody(b, f))[k], rb.valueSeq)
    {
      assert Matches(rb.values[k], s[k], rb.valueSeq);
    }
  }

  // ----- Whole histories of a store -----

  /** Malformed batches may occur too: both stores refuse them whole. */
  ghost predicate SuitsStep(step: Step, tasks: Tasks) {
    step.Batch? && Mem.ValidBatch(step.ops) ==> forall i | 0 <= i < |step.ops| :: Suits(step.ops[i], tasks)
  }

  function OpCount(steps: seq<Step>): nat {
    if steps == [] then 0 else (if steps[0].Batch? then |steps[0].ops| else 0) + OpCount(steps[1..])
  }

  ghost predicate Refines(m: Mem.Store, b: Bolt.Store, tasks: Tasks, count: nat) {
    && m.Keys == b.Keys
    && forall run | run in m :: Rel(m[run], b[run], run, tasks) && m[run].count <= count
  }

  lemma RunRel(m: Mem.Store, b: Bolt.Store, tasks: Tasks, count: nat, run: Name)
    requires Refines(m, b, tasks, count)
    ensures Rel(Mem.RunOf(m, run), Bolt.BucketOf(b, run), run, tasks) && Mem.RunOf(m, run).count <= count
  {
    NewRunRel(run, tasks);
  }

  lemma UpdateRefines(m: Mem.Store, b: Bolt.Store, tasks: Tasks, count: nat, run: Name, mr: Mem.Run, rb: Bolt.RunBucket, more: nat)
    requires Refines(m, b, tasks, count) && Rel(mr, rb, run, tasks) && mr.count <= count + more
    ensures Refines(m[run := mr], b[run := rb], tasks, count + more)
  {
  }

  lemma OpRefines(m: Mem.Store, b: Bolt.Store, tasks: Tasks, count: nat, op: WriteOp)
    requires Refines(m, b, tasks, count) && Suits(op, tasks) && count + 1 < TWO64
    ensures var r := Bolt.ApplyToBucket(Bolt.BucketOf(b, op.run), op);
      r.Ok? && Refines(Mem.Apply(m, op), b[op.run := r.value], tasks, count + 1)
  {
    var mr, rb := Mem.RunOf(m, op.run), Bolt.BucketOf(b, op.run);
    RunRel(m, b, tasks, count, op.run);
    if op.kind == OP_VALUE_WRITE {
      ValueStep(mr, rb, op, tasks);
    } else if op.kind == OP_STATUS_FLIP {
      FlipStep(mr, rb, op, tasks);
    } else {
      HistoryStep(mr, rb, op, tasks);
    }
    UpdateRefines(m, b, tasks, count, op.run, Mem.ApplyToRun(mr, op), Bolt.ApplyToBucket(rb, op).value, 1);
  }

  lemma {:induction false} BatchRefines(m: Mem.Store, b: Bolt.Store, tasks: Tasks, count: nat, ops: seq<WriteOp>)
    requires Mem.ValidBatch(ops) && (forall i | 0 <= i < |ops| :: Suits(ops[i], tasks))
    requires Refines(m, b, tasks, count) && count + |ops| < TWO64
    ensures Bolt.ApplyAll(b, ops).Ok? && Refines(Mem.ApplyAll(m, ops), Bolt.ApplyAll(b, ops).value, tasks, count + |ops|)
    decreases |ops|
  {
    if ops != [] {
      OpRefines(m, b, tasks, count, ops[0]);
      var b' := b[ops[0].run := Bolt.ApplyToBucket(Bolt.BucketOf(b, ops[0].run), ops[0]).value];
      BatchRefines(Mem.Apply(m, ops[0]), b', tasks, count + 1, ops[1..]);
    }
  }

  lemma SaveRefines(m: Mem.Store, b: Bolt.Store, tasks: Tasks, count: nat, meta: RunMetadata)
    requires Refines(m, b, tasks, count)
    ensures Refines(Mem.Saved(m, meta), Bolt.Saved(b, meta), tasks, count)
  {
    RunRel(m, b, tasks, count, meta.run);
    var mr, rb := Mem.RunOf(m, meta.run), Bolt.BucketOf(b, meta.run);
    SameIndex(rb, rb.(meta := Some(meta)));
    UpdateRefines(m, b, tasks, count, meta.run, mr.(meta := meta), rb.(meta := Some(meta)), 0);
  }

  lemma {:induction false} StepsRefine(m: Mem.Store, b: Bolt.Store, tasks: Tasks, count: nat, steps: seq<Step>)
    requires Refines(m, b, tasks, count) && count + OpCount(steps) < TWO64
    requires forall i | 0 <= i < |steps| :: SuitsStep(steps[i], tasks)
    ensures Refines(Mem.RunSteps(m, steps), Bolt.RunSteps(b, steps), tasks, count + OpCount(steps))
    decreases |steps|
  {
    if steps != [] {
      match steps[0] {
        case Save(meta) =>
          SaveRefines(m, b, tasks, count, meta);
          StepsRefine(Mem.Saved(m, meta), Bolt.Saved(b, meta), tasks, count, steps[1..]);
        case Batch(ops) =>
          assert SuitsStep(steps[0], tasks);
          if Mem.ValidBatch(ops) {
            BatchRefines(m, b, tasks, count, ops);
          }
          StepsRefine(Mem.Batched(m, ops), Bolt.Batched(b, ops), tasks, count + |ops|, steps[1..]);
      }
    }
  }

  // ----- Key order and replay order -----

  /** The records in the order of their keys: replay order of the unsigned timestamps. */
  function KeyOrder<T>(s: seq<Record<T>>): seq<Record<T>> {
    Signed(Replay(Unsigned(s)))
  }

  /** All timestamps lie before the Unix epoch, or none does. */
  ghost predicate OneSide<T>(s: seq<Record<T>>) {
    forall i, j | 0 <= i < |s| && 0 <= j < |s| :: s[i].ts < 0 <==> s[j].ts < 0
  }

  /** Equal up to the arrival number. */
  ghost predicate SameRecords<T>(a: seq<Record<T>>, b: seq<Record<T>>) {
    |a| == |b| && forall k | 0 <= k < |a| :: a[k].ts == b[k].ts && a[k].body == b[k].body
  }

  lemma SideOrder(t1: int, a1: nat, t2: int, a2: nat)
    requires IsInt64(t1) && IsInt64(t2) && (t1 < 0 <==> t2 < 0)
    ensures ReplayBefore(ToUnsigned(t1), a1, ToUnsigned(t2), a2) <==> ReplayBefore(t1, a1, t2, a2)
  {
    UnsignedOf(t1);
    UnsignedOf(t2);
  }

  lemma {:induction false} InsertUnsigned<T>(s: seq<Record<T>>, r: Record<T>)
    requires TimesFit(s + [r]) && OneSide(s + [r])
    ensures Insert(Unsigned(s), r.(ts := ToUnsigned(r.ts))) == Unsigned(Insert(s, r))
  {
    if s != [] {
      var n := |s| - 1;
      var t, u := s + [r], s[..n] + [r];
      assert t[n] == s[n] && t[n + 1] == r;
      SideOrder(r.ts, r.arrival, s[n].ts, s[n].arrival);
      forall k | 0 <= k < |u| ensures u[k] == t[if k < n then k else n + 1] {
      }
      InsertUnsigned(s[..n], r);
      assert Unsigned(s)[..n] == Unsigned(s[..n]);
    }
  }

  lemma SidesOf<T>(s: seq<Record<T>>, t: seq<Record<T>>)
    requires TimesFit(s) && OneSide(s) && multiset(t) <= multiset(s)
    ensures TimesFit(t) && OneSide(t)
  {
    forall k | 0 <= k < |t| ensures t[k] in s {
      assert t[k] in multiset(t);
    }
  }

  lemma {:induction false} ReplayUnsigned<T>(s: seq<Record<T>>)
    requires TimesFit(s) && OneSide(s)
    ensures Replay(Unsigned(s)) == Unsigned(Replay(s))
  {
    if s != [] {
      var n := |s| - 1;
      assert s == s[..n] + [s[n]];
      SidesOf(s, s[..n]);
      ReplayUnsigned(s[..n]);
      assert Unsigned(s)[..n] == Unsigned(s[..n]);
      ReplaySorts(s[..n]);
      SidesOf(s, Replay(s[..n]) + [s[n]]);
      InsertUnsigned(Replay(s[..n]), s[n]);
    }
  }

  lemma SignedUnsigned<T>(s: seq<Record<T>>)
    requires TimesFit(s)
    ensures Signed(Unsigned(s)) == s
  {
    forall k | 0 <= k < |s| ensures Signed(Unsigned(s))[k] == s[k] {
      UnsignedOf(s[k].ts);
    }
  }

  lemma OneSideOrders<T>(s: seq<Record<T>>)
    requires TimesFit(s) && OneSide(s)
    ensures KeyOrder(s) == Replay(s)
  {
    ReplayUnsigned(s);
    ReplaySorts(s);
    SidesOf(s, Replay(s));
    SignedUnsigned(Replay(s));
  }

  /** The first record of a replay is no later than any other. */
  lemma FirstOfReplay<T>(s: seq<Record<T>>, i: nat)
    requires i < |s|
    ensures |Replay(s)| == |s| && Replay(s)[0].ts <= s[i].ts
  {
    ReplaySorts(s);
    assert s[i] in multiset(Replay(s));
    var k :| 0 <= k < |Replay(s)| && Replay(s)[k] == s[i];
  }

  /** Across the epoch key order starts with a record from after it, replay order with one from before. */
  lemma AcrossDiffers<T>(s: seq<Record<T>>)
    requires TimesFit(s) && !OneSide(s)
    ensures s != [] && |KeyOrder(s)| == |s| == |Replay(s)| && Replay(s)[0].ts < 0 <= KeyOrder(s)[0].ts
  {
    var i, j :| 0 <= i < |s| && 0 <= j < |s| && s[i].ts < 0 <= s[j].ts;
    FirstOfReplay(s, i);
    FirstOfReplay(Unsigned(s), j);
    UnsignedOf(s[j].ts);
    FirstUnsigned(s);
  }

  lemma FirstUnsigned<T>(s: seq<Record<T>>)
    requires s != []
    ensures |Replay(Unsigned(s))| == |s| && 0 <= Replay(Unsigned(s))[0].ts
  {
    ReplaySorts(Unsigned(s));
    assert Replay(Unsigned(s))[0] in multiset(Unsigned(s));
  }

  /** Key order serves the replay exactly when the timestamps stay on one side of the epoch. */
  lemma KeyOrderIsReplayIff<T>(s: seq<Record<T>>)
    requires TimesFit(s)
    ensures SameRecords(Replay(s), KeyOrder(s)) <==> OneSide(s)
  {
    if OneSide(s) {
      OneSideOrders(s);
    } else {
      AcrossDiffers(s);
    }
  }

  // ----- What the two stores read back -----

  lemma WalkIs<T>(b: seq<Entry<T>>, s: seq<Record<T>>, n: nat)
    requires Mirrors(b, s, n) && n < TWO64
    ensures SameRecords(Signed(s), Bolt.Walk(b))
  {
    forall k | 0 <= k < |b|
      ensures Signed(s)[k].ts == Bolt.Walk(b)[k].ts && Signed(s)[k].body == Bolt.Walk(b)[k].body
    {
      assert Matches(b[k], s[k], n);
      RawParts(s[k].ts, KeySeq(b[k].key));
    }
  }

  lemma {:induction false} FoldSame(a: seq<Record<ValueBody>>, b: seq<Record<ValueBody>>)
    requires SameRecords(a, b)
    ensures Mem.Fold(a) == Mem.Fold(b)
  {
    if a != [] {
      FoldSame(a[..|a| - 1], b[..|b| - 1]);
    }
  }

  function NullVersion(v: Mem.Version): Mem.Version {
    map slot | slot in v :: Bolt.OrNull(v[slot])
  }

  /** A run of both stores: the same metadata, and the same records in key order, absent ones as null. */
  ghost predicate Serves(m: Mem.Run, rb: Bolt.RunBucket, run: Name) {
    && TimesFit(m.values) && TimesFit(m.history)
    && Bolt.MetaOf(rb, run) == m.meta
    && SameRecords(KeyOrder(MapBodies(m.values, NullValue)), Bolt.Walk(rb.values))
    && SameRecords(KeyOrder(MapBodies(m.history, NullPayload)), Bolt.Walk(rb.history))
  }

  /** Some valid batch of the sequence writes a value of the task to the run. */
  ghost predicate Writes(steps: seq<Step>, run: Name, task: Name) {
    exists i, j ::
      && 0 <= i < |steps| && steps[i].Batch? && Mem.ValidBatch(steps[i].ops)
      && 0 <= j < |steps[i].ops| && WritesTask(steps[i].ops[j], run, task)
  }

  predicate WritesTask(op: WriteOp, run: Name, task: Name) {
    op.kind == OP_VALUE_WRITE && op.write.Some? && op.run == run && op.write.value.task == task
  }

  /**
   What the key layout asks of a sequence: 64-bit timestamps and counters, and in
   each run no written task that can be confused with another, flipped one.
   */
  ghost predicate Suited(steps: seq<Step>) {
    OpCount(steps) < TWO64 && forall i | 0 <= i < |steps| :: SuitsStep(steps[i], (run, task) => Writes(steps, run, task))
  }

  /** NUL-free task ids are enough. */
  lemma NulFreeSuited(steps: seq<Step>)
    requires OpCount(steps) < TWO64
    requires forall i, j | 0 <= i < |steps| && steps[i].Batch? && Mem.ValidBatch(steps[i].ops) && 0 <= j < |steps[i].ops| ::
      PlainOp(steps[i].ops[j])
    ensures Suited(steps)
  {
    forall i | 0 <= i < |steps| ensures SuitsStep(steps[i], (run, task) => Writes(steps, run, task)) {
      if steps[i].Batch? && Mem.ValidBatch(steps[i].ops) {
        forall j | 0 <= j < |steps[i].ops| ensures Suits(steps[i].ops[j], (run, task) => Writes(steps, run, task)) {
          PlainSuits(steps, i, j);
        }
      }
    }
  }

  /** A 64-bit timestamp and a NUL-free task id, as far as the operation has them. */
  predicate PlainOp(op: WriteOp) {
    && (op.kind == OP_VALUE_WRITE && op.write.Some? ==> IsInt64(op.write.value.ts) && NulFree(op.write.value.task.bytes))
    && (op.kind == OP_STATUS_FLIP && op.flip.Some? ==> NulFree(op.flip.value.task.bytes))
    && (op.kind == OP_HISTORY_ENTRY && op.entry.Some? ==> IsInt64(op.entry.value.ts))
  }

  lemma PlainSuits(steps: seq<Step>, i: nat, j: nat)
    requires i < |steps| && steps[i].Batch? && Mem.ValidBatch(steps[i].ops) && j < |steps[i].ops|
    requires forall a, b | 0 <= a < |steps| && steps[a].Batch? && Mem.ValidBatch(steps[a].ops) && 0 <= b < |steps[a].ops| ::
      PlainOp(steps[a].ops[b])
    ensures Suits(steps[i].ops[j], (run, task) => Writes(steps, run, task))
  {
    var op := steps[i].ops[j];
    assert PlainOp(op) && ValidOp(op);
    if op.kind == OP_VALUE_WRITE {
      assert WritesTask(op, op.run, op.write.value.task);
    } else if op.kind == OP_STATUS_FLIP {
      forall other | Writes(steps, op.run, other) ensures Unconfusable(op.flip.value.task.bytes, other.bytes) {
        var a, b :| 0 <= a < |steps| && steps[a].Batch? && Mem.ValidBatch(steps[a].ops)
                 && 0 <= b < |steps[a].ops| && WritesTask(steps[a].ops[b], op.run, other);
        assert PlainOp(steps[a].ops[b]);
        NulFreeApart(op.flip.value.task.bytes, other.bytes);
      }
    }
  }

  /** What bbolt serves after any sequence of saves and batches, whatever the timestamps. */
  lemma BboltServes(steps: seq<Step>, run: Name)
    requires Suited(steps)
    ensures var m, b := Mem.RunSteps(map[], steps), Bolt.RunSteps(map[], steps);
      (run in m <==> run in b) && (run in m ==> Serves(m[run], b[run], run))
  {
    var tasks: Tasks := (run, task) => Writes(steps, run, task);
    StepsRefine(map[], map[], tasks, 0, steps);
    var m, b := Mem.RunSteps(map[], steps), Bolt.RunSteps(map[], steps);
    if run in m {
      assert Rel(m[run], b[run], run, tasks);
      WalkIs(b[run].values, Replay(ValueView(m[run])), b[run].valueSeq);
      WalkIs(b[run].history, Replay(HistoryView(m[run])), b[run].historySeq);
    }
  }

  /** The same replay-ordered history, up to renumbering and absent texts read as null. */
  ghost predicate SameHistory(a: Option<Mem.FullHistory>, b: Option<Mem.FullHistory>) {
    && (a.Some? <==> b.Some?)
    && (a.Some? ==>
          && a.value.meta == b.value.meta
          && SameRecords(MapBodies(a.value.values, NullValue), b.value.values)
          && SameRecords(MapBodies(a.value.history, NullPayload), b.value.history))
  }

  function NullCurrent(cv: Option<Mem.CurrentVersion>): Option<Mem.CurrentVersion> {
    if cv.Some? then Some(cv.value.(values := NullVersion(cv.value.values))) else None
  }

  lemma MappedSide<T, U>(s: seq<Record<T>>, f: T -> U)
    ensures TimesFit(MapBodies(s, f)) <==> TimesFit(s)
    ensures OneSide(MapBodies(s, f)) <==> OneSide(s)
  {
    var t := MapBodies(s, f);
    assert forall k | 0 <= k < |s| :: t[k].ts == s[k].ts;
  }

  /** A walk in key order is the mapped replay exactly when the log stays on one side of the epoch. */
  lemma WalkIsReplayIff<T, U>(s: seq<Record<T>>, f: T -> U, walk: seq<Record<U>>)
    requires TimesFit(s) && SameRecords(KeyOrder(MapBodies(s, f)), walk)
    ensures SameRecords(MapBodies(Replay(s), f), walk) <==> OneSide(s)
  {
    MappedSide(s, f);
    ReplayMapped(s, f);
    KeyOrderIsReplayIff(MapBodies(s, f));
  }

  // ----- What the current version shows across the epoch -----

  /** The greatest committed record of a slot among those before the epoch, or among those not before it. */
  ghost predicate LatestOn(values: Mem.Values, r: Record<ValueBody>, slot: Slot, before: bool) {
    && r in values && Mem.Shows(r, slot) && (r.ts < 0 <==> before)
    && forall o | o in values && Mem.Shows(o, slot) && (o.ts < 0 <==> before) :: o == r || Precedes(o, r)
  }

  /** If the slot has committed values on both sides, the latest ones of the two sides read the same. */
  ghost predicate SidesAgreeOn(values: Mem.Values, slot: Slot) {
    forall a, b | LatestOn(values, a, slot, true) && LatestOn(values, b, slot, false) ::
      Bolt.OrNull(a.body.value) == Bolt.OrNull(b.body.value)
  }

  ghost predicate SidesAgree(values: Mem.Values) {
    forall slot :: SidesAgreeOn(values, slot)
  }

  lemma OneSideAgrees(values: Mem.Values)
    requires OneSide(values)
    ensures SidesAgree(values)
  {
    forall slot, a, b | LatestOn(values, a, slot, true) && LatestOn(values, b, slot, false) ensures false {
    }
  }

  lemma LatestUnique(values: Mem.Values, a: Record<ValueBody>, b: Record<ValueBody>, slot: Slot, before: bool)
    requires LatestOn(values, a, slot, before) && LatestOn(values, b, slot, before)
    ensures a == b
  {
  }

  /** How bbolt's bucket holds a record. */
  function AsHeld(r: Record<ValueBody>): Record<ValueBody> {
    Record(ToUnsigned(r.ts), r.arrival, NullValue(r.body))
  }

  lemma HeldMembers(m: Mem.Run)
    ensures forall r | r in m.values :: AsHeld(r) in ValueView(m)
    ensures forall h | h in ValueView(m) :: exists r :: r in m.values && AsHeld(r) == h
  {
    forall r | r in m.values ensures AsHeld(r) in ValueView(m) {
      var i :| 0 <= i < |m.values| && m.values[i] == r;
      assert ValueView(m)[i] == AsHeld(r);
    }
    forall h | h in ValueView(m) ensures exists r :: r in m.values && AsHeld(r) == h {
      var i :| 0 <= i < |m.values| && ValueView(m)[i] == h;
      assert m.values[i] in m.values && AsHeld(m.values[i]) == h;
    }
  }

  lemma FitsOf(values: Mem.Values, r: Record<ValueBody>)
    requires TimesFit(values) && r in values
    ensures IsInt64(r.ts)
  {
    var i :| 0 <= i < |values| && values[i] == r;
  }

  /** The record the in-memory store shows is the latest on its side, and from before the epoch only if there is none after. */
  lemma MemShows(m: Mem.Run, slot: Slot, r: Record<ValueBody>)
    requires Mem.LatestFor(m.values, r, slot)
    ensures LatestOn(m.values, r, slot, r.ts < 0)
    ensures r.ts < 0 ==> forall o | o in m.values && Mem.Shows(o, slot) :: o.ts < 0
  {
  }

  /** The record bbolt shows is the latest on its side, and from after the epoch only if there is none before. */
  lemma BoltShows(m: Mem.Run, slot: Slot, r: Record<ValueBody>)
    requires Mem.Numbered(m) && TimesFit(m.values) && r in m.values
    requires Mem.LatestFor(ValueView(m), AsHeld(r), slot)
    ensures LatestOn(m.values, r, slot, r.ts < 0)
    ensures r.ts >= 0 ==> forall o | o in m.values && Mem.Shows(o, slot) :: o.ts >= 0
  {
    FitsOf(m.values, r);
    UnsignedOf(r.ts);
    HeldMembers(m);
    forall o | o in m.values && Mem.Shows(o, slot)
      ensures (o.ts < 0 <==> r.ts < 0) ==> o == r || Precedes(o, r)
      ensures r.ts >= 0 ==> o.ts >= 0
    {
      FitsOf(m.values, o);
      UnsignedOf(o.ts);
      assert Mem.Shows(AsHeld(o), slot);
      Mem.SameNumberSameRecord(m, o, r);
      if o.ts < 0 <==> r.ts < 0 {
        SideOrder(o.ts, o.arrival, r.ts, r.arrival);
      }
    }
  }

  lemma HeldNumbered(m: Mem.Run)
    requires Mem.Numbered(m)
    ensures Mem.Numbered(m.(values := ValueView(m)))
  {
    assert forall i | 0 <= i < |m.values| :: ValueView(m)[i].arrival == m.values[i].arrival;
  }

  lemma FoldSigned(s: Mem.Values)
    ensures Mem.Fold(Signed(s)) == Mem.Fold(s)
  {
    FoldSameBodies(Signed(s), s);
  }

  lemma {:induction false} FoldSameBodies(a: Mem.Values, b: Mem.Values)
    requires |a| == |b| && forall k | 0 <= k < |a| :: a[k].body == b[k].body
    ensures Mem.Fold(a) == Mem.Fold(b)
  {
    if a != [] {
      FoldSameBodies(a[..|a| - 1], b[..|b| - 1]);
    }
  }

  /** What bbolt folds, in terms of the run's log. */
  lemma WalkFolds(m: Mem.Run, rb: Bolt.RunBucket, run: Name)
    requires Serves(m, rb, run)
    ensures Mem.Fold(Bolt.Walk(rb.values)) == Mem.Fold(Replay(ValueView(m)))
  {
    FoldSame(KeyOrder(MapBodies(m.values, NullValue)), Bolt.Walk(rb.values));
    FoldSigned(Replay(ValueView(m)));
  }

  /** One slot: in both versions or in neither, and with the same reading exactly when its two sides agree. */
  lemma SlotAgreesIff(m: Mem.Run, slot: Slot)
    requires Mem.Numbered(m) && TimesFit(m.values)
    ensures var mem, bolt := Mem.Fold(Replay(m.values)), Mem.Fold(Replay(ValueView(m)));
      && (slot in mem <==> slot in bolt)
      && (slot !in mem ==> SidesAgreeOn(m.values, slot))
      && (slot in mem && slot in bolt ==> (bolt[slot] == Bolt.OrNull(mem[slot]) <==> SidesAgreeOn(m.values, slot)))
  {
    var held := m.(values := ValueView(m));
    HeldNumbered(m);
    Mem.FoldIsLatest(m, slot);
    Mem.FoldIsLatest(held, slot);
    HeldMembers(m);
    var mem, bolt := Mem.Fold(Replay(m.values)), Mem.Fold(Replay(ValueView(m)));
    assert slot in mem <==> slot in bolt by {
      forall r | r in m.values ensures Mem.Shows(AsHeld(r), slot) <==> Mem.Shows(r, slot) {
      }
    }
    if slot in mem {
      var b :| Mem.LatestFor(m.values, b, slot) && mem[slot] == b.body.value;
      var h :| Mem.LatestFor(ValueView(m), h, slot) && bolt[slot] == h.body.value;
      var a :| a in m.values && AsHeld(a) == h;
      ShownAgreeIff(m, slot, a, b);
    }
  }

  lemma ShownAgreeIff(m: Mem.Run, slot: Slot, a: Record<ValueBody>, b: Record<ValueBody>)
    requires Mem.Numbered(m) && TimesFit(m.values) && a in m.values
    requires Mem.LatestFor(ValueView(m), AsHeld(a), slot) && Mem.LatestFor(m.values, b, slot)
    ensures Bolt.OrNull(a.body.value) == Bolt.OrNull(b.body.value) <==> SidesAgreeOn(m.values, slot)
  {
    BoltShows(m, slot, a);
    MemShows(m, slot, b);
    if a.ts < 0 <= b.ts {
      forall x, y | LatestOn(m.values, x, slot, true) && LatestOn(m.values, y, slot, false) ensures x == a && y == b {
        LatestUnique(m.values, x, a, slot, true);
        LatestUnique(m.values, y, b, slot, false);
      }
    } else {
      LatestUnique(m.values, a, b, slot, a.ts < 0);
    }
  }

  lemma ServedCurrentIff(m: Mem.Run, rb: Bolt.RunBucket, run: Name)
    requires Serves(m, rb, run) && Mem.Numbered(m)
    ensures Mem.Fold(Bolt.Walk(rb.values)) == NullVersion(Mem.Fold(Replay(m.values))) <==> SidesAgree(m.values)
  {
    WalkFolds(m, rb, run);
    var mem, bolt := Mem.Fold(Replay(m.values)), Mem.Fold(Replay(ValueView(m)));
    forall slot
      ensures slot in mem <==> slot in bolt
      ensures slot !in mem ==> SidesAgreeOn(m.values, slot)
      ensures slot in mem ==> (bolt[slot] == NullVersion(mem)[slot] <==> SidesAgreeOn(m.values, slot))
    {
      SlotAgreesIff(m, slot);
    }
    assert bolt.Keys == NullVersion(mem).Keys;
    if bolt == NullVersion(mem) {
      forall slot ensures SidesAgreeOn(m.values, slot) {
        assert slot in mem ==> bolt[slot] == NullVersion(mem)[slot];
      }
    }
  }

  /**
   The refinement theorem. After any sequence of saves and batches, and for every
   run, known or not: the two stores serve the same history exactly when the run's
   values stay on one side of the epoch and so do its history entries; and the same
   current version exactly when every slot with committed values on both sides has
   the same latest value on them.
   */
  lemma BboltRefinesInMemory(steps: seq<Step>, run: Name)
    requires Suited(steps)
    ensures var m, b := Mem.RunSteps(map[], steps), Bolt.RunSteps(map[], steps);
      var r := Mem.RunOf(m, run);
      && (SameHistory(Mem.HistoryOf(m, run), Bolt.HistoryOf(b, run)) <==> OneSide(r.values) && OneSide(r.history))
      && (Bolt.CurrentOf(b, run) == NullCurrent(Mem.CurrentOf(m, run)) <==> SidesAgree(r.values))
  {
    BboltServes(steps, run);
    var m, b := Mem.RunSteps(map[], steps), Bolt.RunSteps(map[], steps);
    if run in m {
      WalkIsReplayIff(m[run].values, NullValue, Bolt.Walk(b[run].values));
      WalkIsReplayIff(m[run].history, NullPayload, Bolt.Walk(b[run].history));
      Mem.ReachedNumbered(steps, run);
      ServedCurrentIff(m[run], b[run], run);
    } else {
      OneSideAgrees(Mem.RunOf(m, run).values);
    }
  }

  /** Without the reading as null: the current versions are the same exactly when, besides, no current value is absent. */
  lemma SameCurrentIff(steps: seq<Step>, run: Name)
    requires Suited(steps)
    ensures var m, b := Mem.RunSteps(map[], steps), Bolt.RunSteps(map[], steps);
      Bolt.CurrentOf(b, run) == Mem.CurrentOf(m, run)
      <==> SidesAgree(Mem.RunOf(m, run).values) && NoneAbsent(Mem.CurrentOf(m, run))
  {
    BboltRefinesInMemory(steps, run);
    BboltServes(steps, run);
    var m, b := Mem.RunSteps(map[], steps), Bolt.RunSteps(map[], steps);
    if run in m {
      ServesNoAbsent(m[run], b[run], run);
      PlainCurrentIff(Mem.CurrentOf(m, run).value, Bolt.CurrentOf(b, run).value);
    }
  }

  lemma PlainCurrentIff(mem: Mem.CurrentVersion, bolt: Mem.CurrentVersion)
    requires NoneAbsent(Some(bolt))
    ensures bolt == mem <==> Some(bolt) == NullCurrent(Some(mem)) && NoneAbsent(Some(mem))
  {
    SameAsNullIff(mem);
  }

  /** bbolt never serves an absent value. */
  lemma ServesNoAbsent(m: Mem.Run, rb: Bolt.RunBucket, run: Name)
    requires Serves(m, rb, run)
    ensures forall slot | slot in Mem.Fold(Bolt.Walk(rb.values)) :: Mem.Fold(Bolt.Walk(rb.values))[slot] != EMPTY_JSON
  {
    WalkFolds(m, rb, run);
    var s := Replay(ValueView(m));
    Mem.ReplayMembers(ValueView(m));
    HeldMembers(m);
    forall k | 0 <= k < |s| ensures s[k].body.value != EMPTY_JSON {
      assert s[k] in ValueView(m);
      var r :| r in m.values && AsHeld(r) == s[k];
      NeverEmpty(r.body.value);
    }
    NeverAbsent(s);
  }

  lemma NeverEmpty(j: Json)
    ensures Bolt.OrNull(j) != EMPTY_JSON
  {
    assert EMPTY_JSON.text != NULL_JSON.text;
  }

  ghost predicate NoneAbsent(cv: Option<Mem.CurrentVersion>) {
    cv.Some? ==> forall slot | slot in cv.value.values :: cv.value.values[slot] != EMPTY_JSON
  }

  lemma {:induction false} NeverAbsent(s: Mem.Values)
    requires forall k | 0 <= k < |s| :: s[k].body.value != EMPTY_JSON
    ensures forall slot | slot in Mem.Fold(s) :: Mem.Fold(s)[slot] != EMPTY_JSON
  {
    if s != [] {
      NeverAbsent(s[..|s| - 1]);
    }
  }

  lemma SameAsNullIff(cv: Mem.CurrentVersion)
    ensures NullCurrent(Some(cv)) == Some(cv) <==> NoneAbsent(Some(cv))
  {
    var v := cv.values;
    if NoneAbsent(Some(cv)) {
      assert NullVersion(v) == v;
    } else {
      var slot :| slot in v && v[slot] == EMPTY_JSON;
      assert NullVersion(v)[slot] == NULL_JSON;
      assert EMPTY_JSON.text != NULL_JSON.text;
    }
  }

  // ----- Across the epoch the layout breaks -----

  function WriteValue(run: Name, w: ValueWrite): WriteOp {
    WriteOp(run, OP_VALUE_WRITE, Some(w), None, None)
  }

  function CommitTask(run: Name, task: Name): WriteOp {
    WriteOp(run, OP_STATUS_FLIP, None, Some(StatusFlip(task, Committed)), None)
  }

  lemma TwoPuts(w1: ValueWrite, w2: ValueWrite)
    requires IsInt64(w1.ts) && IsInt64(w2.ts) && w1.ts < 0 <= w2.ts
    ensures var rb := Bolt.PutValue(Bolt.PutValue(Bolt.NEW_BUCKET, w1), w2);
      && rb.values == [Entry(EventKey(w2.ts, 2), Bolt.StoredValue(w2)), Entry(EventKey(w1.ts, 1), Bolt.StoredValue(w1))]
      && Indexed(rb)
  {
    var rb1 := Bolt.PutValue(Bolt.NEW_BUCKET, w1);
    assert Indexed(Bolt.NEW_BUCKET);
    ValueIndexed(Bolt.NEW_BUCKET, w1, 0);
    assert rb1.values == [Entry(EventKey(w1.ts, 1), Bolt.StoredValue(w1))];
    KeyOrderIsReplayOrderIff(w2.ts, 2, w1.ts, 1);
    EventKeyOrder(w2.ts, 2, w1.ts, 1);
    UnsignedOf(w1.ts);
    UnsignedOf(w2.ts);
    LessTotal(EventKey(w2.ts, 2), EventKey(w1.ts, 1));
    var e2 := Entry(EventKey(w2.ts, 2), Bolt.StoredValue(w2));
    assert rb1.values[..0] == [] && Put([], e2.key, e2.val) == [e2];
    assert Put(rb1.values, e2.key, e2.val) == [e2] + rb1.values;
    assert rb1.values[..0] + [e2] + rb1.values[0..] == [e2] + rb1.values;
    ValueIndexed(rb1, w2, 0);
  }

  /**
   A value written before 1970 and a later one written after it, both committed:
   the in-memory store shows the later value, bbolt the earlier one. Whatever the
   two timestamps and values are.
   */
  lemma EpochReversesReplay(run: Name, w1: ValueWrite, w2: ValueWrite)
    requires ValidOp(WriteValue(run, w1)) && ValidOp(WriteValue(run, w2)) && ValidOp(CommitTask(run, w1.task))
    requires IsInt64(w1.ts) && IsInt64(w2.ts) && w1.ts < 0 <= w2.ts
    requires w1.task == w2.task && w1.field == w2.field
    ensures var op1, op2, op3 := WriteValue(run, w1), WriteValue(run, w2), CommitTask(run, w1.task);
      var slot := Slot(w1.task, w1.field);
      var m := Mem.ApplyToRun(Mem.ApplyToRun(Mem.ApplyToRun(Mem.NewRun(run), op1), op2), op3);
      var r := Bolt.FlipTask(Bolt.PutValue(Bolt.PutValue(Bolt.NEW_BUCKET, w1), w2), op3.flip.value);
      && slot in Mem.Fold(Replay(m.values)) && Mem.Fold(Replay(m.values))[slot] == w2.value
      && r.Ok? && slot in Mem.Fold(Bolt.Walk(r.value.values)) && Mem.Fold(Bolt.Walk(r.value.values))[slot] == Bolt.OrNull(w1.value)
  {
    var op1, op2, op3 := WriteValue(run, w1), WriteValue(run, w2), CommitTask(run, w1.task);
    var m2 := Mem.ApplyToRun(Mem.ApplyToRun(Mem.NewRun(run), op1), op2);
    var m := Mem.ApplyToRun(m2, op3);
    var r1 := Record(w1.ts, 1, Mem.WrittenBody(w1).(status := Committed));
    var r2 := Record(w2.ts, 2, Mem.WrittenBody(w2).(status := Committed));
    assert m.values == [r1, r2];
    TwoRecords(r1, r2);
    var rb := Bolt.PutValue(Bolt.PutValue(Bolt.NEW_BUCKET, w1), w2);
    TwoPuts(w1, w2);
    Bolt.ApplyOrdered(Bolt.NEW_BUCKET, op1);
    Bolt.ApplyOrdered(Bolt.PutValue(Bolt.NEW_BUCKET, w1), op2);
    FlipSettles(rb, op3.flip.value);
    var walk := Bolt.Walk(Bolt.FlipTask(rb, op3.flip.value).value.values);
    assert |walk| == 2 && walk[1].body == NullValue(r1.body);
    Mem.FoldKeepsLast(walk, Slot(w1.task, w1.field), 1);
  }

  lemma TwoRecords(r1: Record<ValueBody>, r2: Record<ValueBody>)
    requires Precedes(r1, r2) && r2.body.status == Committed
    ensures Replay([r1, r2]) == [r1, r2]
    ensures var slot := SlotOf(r2.body);
      slot in Mem.Fold([r1, r2]) && Mem.Fold([r1, r2])[slot] == r2.body.value
  {
    assert [r1, r2][..1] == [r1] && [r1][..0] == [];
    assert Replay([r1]) == [r1];
    Mem.FoldKeepsLast([r1, r2], SlotOf(r2.body), 1);
  }
}
