/**
 The in-memory state store (core/in_memory_state_store.go), the plain form of a
 backend: an append-only log per run whose pending records a status flip scans
 for and settles.
 */
module InMemoryStore {
  import opened Prelude
  import opened ByteKeys
  import opened StateStore

  type Values = seq<Record<ValueBody>>
  type History = seq<Record<HistoryBody>>

  datatype Run = Run(meta: RunMetadata, values: Values, history: History, count: nat)

  type Store = map<Name, Run>

  function NewRun(run: Name): Run {
    Run(RunMetadata(run, []), [], [], 0)
  }

  function RunOf(s: Store, run: Name): Run {
    if run in s then s[run] else NewRun(run)
  }

  // ----- Operations -----

  function FlipBody(b: ValueBody, f: StatusFlip): ValueBody {
    if b.task == f.task && b.status == Pending then b.(status := f.newStatus) else b
  }

  function FlipAll(values: Values, f: StatusFlip): Values {
    seq(|values|, i requires 0 <= i < |values| => values[i].(body := FlipBody(values[i].body, f)))
  }

  function WrittenBody(w: ValueWrite): ValueBody {
    ValueBody(w.task, w.execution, w.field, w.value, Pending)
  }

  function EntryBody(h: HistoryEntry): HistoryBody {
    HistoryBody(h.kind, h.node, h.execution, h.payload)
  }

  function ApplyToRun(r: Run, op: WriteOp): Run
    requires ValidOp(op)
  {
    if op.kind == OP_VALUE_WRITE then
      var w := op.write.value;
      r.(count := r.count + 1, values := r.values + [Record(w.ts, r.count + 1, WrittenBody(w))])
    else if op.kind == OP_STATUS_FLIP then
      r.(values := FlipAll(r.values, op.flip.value))
    else
      var h := op.entry.value;
      r.(count := r.count + 1, history := r.history + [Record(h.ts, r.count + 1, EntryBody(h))])
  }

  function Apply(s: Store, op: WriteOp): Store
    requires ValidOp(op)
  {
    s[op.run := ApplyToRun(RunOf(s, op.run), op)]
  }

  predicate ValidBatch(ops: seq<WriteOp>) {
    forall i | 0 <= i < |ops| :: ValidOp(ops[i])
  }

  function ApplyAll(s: Store, ops: seq<WriteOp>): Store
    requires ValidBatch(ops)
    decreases |ops|
  {
    if ops == [] then s else ApplyAll(Apply(s, ops[0]), ops[1..])
  }

  /** A batch with a malformed operation changes nothing. */
  function Batched(s: Store, ops: seq<WriteOp>): Store {
    if ValidBatch(ops) then ApplyAll(s, ops) else s
  }

  function Saved(s: Store, meta: RunMetadata): Store {
    if meta.run == EMPTY_NAME then s else s[meta.run := RunOf(s, meta.run).(meta := meta)]
  }

  /** A store after any sequence of saves and batches. */
  function RunSteps(s: Store, steps: seq<Step>): Store
    decreases |steps|
  {
    if steps == [] then s
    else RunSteps(if steps[0].Save? then Saved(s, steps[0].meta) else Batched(s, steps[0].ops), steps[1..])
  }

  // ----- Reads -----

  type Version = map<Slot, Json>

  /** Later committed records overwrite earlier ones. */
  function Fold(recs: Values): Version {
    if recs == [] then map[]
    else
      var rest, b := Fold(recs[..|recs| - 1]), recs[|recs| - 1].body;
      if b.status == Committed then rest[SlotOf(b) := b.value] else rest
  }

  datatype CurrentVersion = CurrentVersion(meta: RunMetadata, values: Version)
  datatype FullHistory = FullHistory(meta: RunMetadata, values: Values, history: History)

  function CurrentOf(s: Store, run: Name): Option<CurrentVersion> {
    if run in s then Some(CurrentVersion(s[run].meta, Fold(Replay(s[run].values)))) else None
  }

  function HistoryOf(s: Store, run: Name): Option<FullHistory> {
    if run in s then Some(FullHistory(s[run].meta, Replay(s[run].values), Replay(s[run].history))) else None
  }

  // ----- The store object -----

  method Sorted<T(0)>(recs: seq<Record<T>>) returns (out: seq<Record<T>>)
    ensures out == Replay(recs)
  {
    var a := new Record<T>[|recs|](i requires 0 <= i < |recs| => recs[i]);
    assert a[..] == recs;
    SortRecords(a);
    out := a[..];
  }

  class InMemoryStateStore {
    var runs: Store

    constructor ()
      ensures runs == map[]
    {
      runs := map[];
    }

    method Save(meta: RunMetadata) returns (ok: bool)
      modifies this
      ensures ok == (meta.run != EMPTY_NAME)
      ensures runs == Saved(old(runs), meta)
    {
      if meta.run == EMPTY_NAME {
        return false;
      }
      var r := if meta.run in runs then runs[meta.run] else NewRun(meta.run);
      runs := runs[meta.run := r.(meta := meta)];
      return true;
    }

    /** WriteBatch: all operations or none. */
    method WriteBatch(ops: seq<WriteOp>) returns (ok: bool)
      modifies this
      ensures ok == ValidBatch(ops)
      ensures ok <==> forall i | 0 <= i < |ops| :: ProblemOf(ops[i]).None?
      ensures runs == Batched(old(runs), ops)
    {
      for i := 0 to |ops|
        invariant ValidBatch(ops[..i]) && runs == old(runs)
      {
        if ProblemOf(ops[i]).Some? {
          return false;
        }
        assert ops[..i + 1] == ops[..i] + [ops[i]];
      }
      assert ops[..|ops|] == ops;
      for i := 0 to |ops|
        invariant ApplyAll(runs, ops[i..]) == ApplyAll(old(runs), ops)
      {
        assert ops[i..][1..] == ops[i + 1..];
        ApplyOp(ops[i]);
      }
      return true;
    }

    method ApplyOp(op: WriteOp)
      requires ValidOp(op)
      modifies this
      ensures runs == Apply(old(runs), op)
    {
      var r := if op.run in runs then runs[op.run] else NewRun(op.run);
      if op.kind == OP_VALUE_WRITE {
        var w := op.write.value;
        r := r.(count := r.count + 1);
        r := r.(values := r.values + [Record(w.ts, r.count, WrittenBody(w))]);
      } else if op.kind == OP_STATUS_FLIP {
        var flipped := FlipScan(r.values, op.flip.value);
        r := r.(values := flipped);
      } else {
        var h := op.entry.value;
        r := r.(count := r.count + 1);
        r := r.(history := r.history + [Record(h.ts, r.count, EntryBody(h))]);
      }
      runs := runs[op.run := r];
    }

    method Current(run: Name) returns (cv: Option<CurrentVersion>)
      ensures cv == CurrentOf(runs, run)
    {
      if run !in runs {
        return None;
      }
      var recs := Sorted(runs[run].values);
      var version: Version := map[];
      for i := 0 to |recs|
        invariant version == Fold(recs[..i])
      {
        assert recs[..i + 1][..i] == recs[..i];
        if recs[i].body.status == Committed {
          version := version[SlotOf(recs[i].body) := recs[i].body.value];
        }
      }
      assert recs[..|recs|] == recs;
      return Some(CurrentVersion(runs[run].meta, version));
    }

    method History(run: Name) returns (fh: Option<FullHistory>)
      ensures fh == HistoryOf(runs, run)
    {
      if run !in runs {
        return None;
      }
      var values := Sorted(runs[run].values);
      var history := Sorted(runs[run].history);
      return Some(FullHistory(runs[run].meta, values, history));
    }
  }

  /** The scan of a status flip, record by record. */
  method FlipScan(values0: Values, f: StatusFlip) returns (values: Values)
    ensures values == FlipAll(values0, f)
  {
    values := values0;
    for i := 0 to |values|
      invariant |values| == |values0|
      invariant forall k | 0 <= k < |values| :: values[k] == if k < i then FlipAll(values0, f)[k] else values0[k]
    {
      if values[i].body.task == f.task && values[i].body.status == Pending {
        values := values[i := values[i].(body := values[i].body.(status := f.newStatus))];
      }
    }
  }

  // ----- A value's status is decided by the first later flip -----

  predicate FlipsTask(op: WriteOp, run: Name, task: Name)
    requires ValidOp(op)
  {
    op.run == run && op.kind == OP_STATUS_FLIP && op.flip.value.task == task
  }

  /** The status the first flip of (run, task) in the stream gives; pending if there is none. */
  function FirstFlip(ops: seq<WriteOp>, run: Name, task: Name): Status
    requires ValidBatch(ops)
  {
    if ops == [] then Pending
    else if FlipsTask(ops[0], run, task) then ops[0].flip.value.newStatus
    else FirstFlip(ops[1..], run, task)
  }

  function Settle(b: ValueBody, ops: seq<WriteOp>, run: Name): ValueBody
    requires ValidBatch(ops)
  {
    if b.status == Pending then b.(status := FirstFlip(ops, run, b.task)) else b
  }

  /** The values a stream leaves in a run: each write of the run, in order, settled by what follows it. */
  function Written(ops: seq<WriteOp>, run: Name): seq<ValueBody>
    requires ValidBatch(ops)
  {
    if ops == [] then []
    else
      var rest := Written(ops[1..], run);
      if ops[0].run == run && ops[0].kind == OP_VALUE_WRITE
      then [Settle(WrittenBody(ops[0].write.value), ops[1..], run)] + rest
      else rest
  }

  function Bodies<T>(recs: seq<Record<T>>): seq<T> {
    seq(|recs|, i requires 0 <= i < |recs| => recs[i].body)
  }

  function SettleAll(bs: seq<ValueBody>, ops: seq<WriteOp>, run: Name): seq<ValueBody>
    requires ValidBatch(ops)
  {
    seq(|bs|, i requires 0 <= i < |bs| => Settle(bs[i], ops, run))
  }

  /**
   What is stored for a run after any stream of valid operations: the values it
   had, each pending one settled by the first flip of its task in the stream and
   the others untouched, and then the stream's own writes, settled the same way
   by what comes after them.
   */
  lemma {:induction false} StoredValues(s: Store, ops: seq<WriteOp>, run: Name)
    requires ValidBatch(ops)
    ensures Bodies(RunOf(ApplyAll(s, ops), run).values)
         == SettleAll(Bodies(RunOf(s, run).values), ops, run) + Written(ops, run)
    decreases |ops|
  {
    var before := Bodies(RunOf(s, run).values);
    if ops == [] {
      assert SettleAll(before, ops, run) == before;
    } else {
      var op, rest := ops[0], ops[1..];
      var mid := Bodies(RunOf(Apply(s, op), run).values);
      StoredValues(Apply(s, op), rest, run);
      if op.run == run && op.kind == OP_VALUE_WRITE {
        assert mid == before + [WrittenBody(op.write.value)];
        assert SettleAll(mid, rest, run) == SettleAll(before, ops, run) + [Settle(WrittenBody(op.write.value), rest, run)];
      } else {
        assert |mid| == |before|;
        assert SettleAll(mid, rest, run) == SettleAll(before, ops, run);
      }
    }
  }

  /** In particular a settled value never changes again. */
  lemma SettledForEver(s: Store, ops: seq<WriteOp>, run: Name, i: nat)
    requires ValidBatch(ops) && i < |RunOf(s, run).values| && RunOf(s, run).values[i].body.status != Pending
    ensures i < |RunOf(ApplyAll(s, ops), run).values|
    ensures RunOf(ApplyAll(s, ops), run).values[i].body == RunOf(s, run).values[i].body
  {
    StoredValues(s, ops, run);
    var after := Bodies(RunOf(ApplyAll(s, ops), run).values);
    assert after[i] == SettleAll(Bodies(RunOf(s, run).values), ops, run)[i];
  }

  // ----- Batches and interleavings -----

  /** Where a stream is cut into batches does not matter. */
  lemma {:induction false} SplitBatch(s: Store, a: seq<WriteOp>, b: seq<WriteOp>)
    requires ValidBatch(a) && ValidBatch(b)
    ensures ValidBatch(a + b) && ApplyAll(s, a + b) == ApplyAll(ApplyAll(s, a), b)
    decreases |a|
  {
    if a == [] {
      assert a + b == b;
    } else {
      SplitBatch(Apply(s, a[0]), a[1..], b);
      assert (a + b)[1..] == a[1..] + b;
    }
  }

  function OpsOf(ops: seq<WriteOp>, run: Name): (r: seq<WriteOp>)
    ensures ValidBatch(ops) ==> ValidBatch(r)
  {
    if ops == [] then [] else (if ops[0].run == run then [ops[0]] else []) + OpsOf(ops[1..], run)
  }

  function ApplyAllToRun(r: Run, ops: seq<WriteOp>): Run
    requires ValidBatch(ops)
    decreases |ops|
  {
    if ops == [] then r else ApplyAllToRun(ApplyToRun(r, ops[0]), ops[1..])
  }

  /** A run only sees its own operations. */
  lemma {:induction false} OnlyOwnOps(s: Store, ops: seq<WriteOp>, run: Name)
    requires ValidBatch(ops)
    ensures RunOf(ApplyAll(s, ops), run) == ApplyAllToRun(RunOf(s, run), OpsOf(ops, run))
    ensures run in ApplyAll(s, ops) <==> run in s || OpsOf(ops, run) != []
    decreases |ops|
  {
    if ops != [] {
      OnlyOwnOps(Apply(s, ops[0]), ops[1..], run);
      assert ([ops[0]] + OpsOf(ops[1..], run))[1..] == OpsOf(ops[1..], run);
      assert [] + OpsOf(ops[1..], run) == OpsOf(ops[1..], run);
    }
  }

  /** Two streams that give every run the same operations in the same order leave the same store, however they interleave the runs. */
  lemma InterleavingIrrelevant(s: Store, a: seq<WriteOp>, b: seq<WriteOp>)
    requires ValidBatch(a) && ValidBatch(b) && forall run :: OpsOf(a, run) == OpsOf(b, run)
    ensures ApplyAll(s, a) == ApplyAll(s, b)
  {
    forall run
      ensures run in ApplyAll(s, a) <==> run in ApplyAll(s, b)
      ensures RunOf(ApplyAll(s, a), run) == RunOf(ApplyAll(s, b), run)
    {
      OnlyOwnOps(s, a, run);
      OnlyOwnOps(s, b, run);
    }
    assert ApplyAll(s, a).Keys == ApplyAll(s, b).Keys;
    forall run | run in ApplyAll(s, a)
      ensures ApplyAll(s, a)[run] == ApplyAll(s, b)[run]
    {
      assert RunOf(ApplyAll(s, a), run) == RunOf(ApplyAll(s, b), run);
    }
  }

  // ----- The current version is the latest committed value per slot -----

  /** Arrival numbers increase along the log and stay within the run's counter. */
  ghost predicate Numbered(r: Run) {
    && (forall i, j | 0 <= i < j < |r.values| :: r.values[i].arrival < r.values[j].arrival)
    && (forall i | 0 <= i < |r.values| :: r.values[i].arrival <= r.count)
  }

  lemma {:induction false} StoreNumbered(s: Store, ops: seq<WriteOp>, run: Name)
    requires ValidBatch(ops) && Numbered(RunOf(s, run))
    ensures Numbered(RunOf(ApplyAll(s, ops), run))
    decreases |ops|
  {
    if ops != [] {
      StoreNumbered(Apply(s, ops[0]), ops[1..], run);
    }
  }

  predicate Shows(r: Record<ValueBody>, slot: Slot) {
    r.body.status == Committed && SlotOf(r.body) == slot
  }

  ghost predicate Shown(recs: Values, slot: Slot) {
    exists i :: 0 <= i < |recs| && Shows(recs[i], slot)
  }

  lemma {:induction false} FoldDomain(recs: Values, slot: Slot)
    ensures slot in Fold(recs) <==> Shown(recs, slot)
  {
    if recs != [] {
      var n := |recs| - 1;
      FoldDomain(recs[..n], slot);
      if Shown(recs[..n], slot) {
        var i :| 0 <= i < n && Shows(recs[..n][i], slot);
        assert Shows(recs[i], slot);
      }
    }
  }

  /** The fold keeps the last committed value of each slot. */
  lemma {:induction false} FoldKeepsLast(recs: Values, slot: Slot, k: nat)
    requires k < |recs| && Shows(recs[k], slot) && forall j | k < j < |recs| :: !Shows(recs[j], slot)
    ensures slot in Fold(recs) && Fold(recs)[slot] == recs[k].body.value
    decreases |recs|
  {
    if k < |recs| - 1 {
      FoldKeepsLast(recs[..|recs| - 1], slot, k);
    }
  }

  ghost predicate LatestFor(values: Values, r: Record<ValueBody>, slot: Slot) {
    r in values && Shows(r, slot) && forall o | o in values && Shows(o, slot) :: o == r || Precedes(o, r)
  }

  /** A slot is in the fold exactly when a committed value was written to it, and then with the greatest one's value. */
  lemma FoldIsLatest(r: Run, slot: Slot)
    requires Numbered(r)
    ensures var version := Fold(Replay(r.values));
      && (slot in version <==> exists rec :: rec in r.values && Shows(rec, slot))
      && (slot in version ==> exists rec :: LatestFor(r.values, rec, slot) && version[slot] == rec.body.value)
  {
    var s := Replay(r.values);
    FoldDomain(s, slot);
    ReplayMembers(r.values);
    if Shown(s, slot) {
      var k := LastShowing(s, slot);
      FoldKeepsLast(s, slot, k);
      assert s[k] in r.values;
      LastIsLatest(r, k, slot);
    }
  }

  /** Every store that saves and batches reach numbers its records. */
  lemma {:induction false} StepsNumbered(s: Store, steps: seq<Step>)
    requires forall run :: Numbered(RunOf(s, run))
    ensures forall run :: Numbered(RunOf(RunSteps(s, steps), run))
    decreases |steps|
  {
    if steps != [] {
      match steps[0] {
        case Save(meta) =>
          forall run ensures Numbered(RunOf(Saved(s, meta), run)) {
            assert Numbered(RunOf(s, run));
          }
          StepsNumbered(Saved(s, meta), steps[1..]);
        case Batch(ops) =>
          forall run ensures Numbered(RunOf(Batched(s, ops), run)) {
            if ValidBatch(ops) {
              StoreNumbered(s, ops, run);
            }
          }
          StepsNumbered(Batched(s, ops), steps[1..]);
      }
    }
  }

  lemma ReachedNumbered(steps: seq<Step>, run: Name)
    ensures Numbered(RunOf(RunSteps(map[], steps), run))
  {
    assert forall name :: Numbered(RunOf(map[], name));
    StepsNumbered(map[], steps);
  }

  /**
   After any sequence of saves and batches the current version of a run holds a
   slot exactly when some committed value was written to it, and then it holds the
   value of the greatest committed record by (timestamp, arrival).
   */
  lemma CurrentIsLatest(steps: seq<Step>, run: Name, slot: Slot)
    requires run in RunSteps(map[], steps)
    ensures var s := RunSteps(map[], steps);
      var values, version := s[run].values, CurrentOf(s, run).value.values;
      && (slot in version <==> exists rec :: rec in values && Shows(rec, slot))
      && (slot in version ==> exists rec :: LatestFor(values, rec, slot) && version[slot] == rec.body.value)
  {
    ReachedNumbered(steps, run);
    FoldIsLatest(RunSteps(map[], steps)[run], slot);
  }

  lemma ReplayMembers(values: Values)
    ensures forall rec :: rec in values <==> rec in Replay(values)
  {
    ReplaySorts(values);
    assert forall rec :: rec in values <==> rec in multiset(values);
  }

  /** In replay order, the last record showing a slot is the greatest one. */
  lemma LastIsLatest(r: Run, k: nat, slot: Slot)
    requires Numbered(r) && k < |Replay(r.values)|
    requires var s := Replay(r.values); Shows(s[k], slot) && forall j | k < j < |s| :: !Shows(s[j], slot)
    ensures LatestFor(r.values, Replay(r.values)[k], slot)
  {
    var s := Replay(r.values);
    ReplaySorts(r.values);
    ReplayMembers(r.values);
    assert s[k] in s;
    forall o | o in r.values && Shows(o, slot)
      ensures o == s[k] || Precedes(o, s[k])
    {
      var j :| 0 <= j < |s| && s[j] == o;
      assert j < k ==> !Precedes(s[k], s[j]);
      SameNumberSameRecord(r, o, s[k]);
    }
  }

  lemma SameNumberSameRecord(r: Run, a: Record<ValueBody>, b: Record<ValueBody>)
    requires Numbered(r) && a in r.values && b in r.values
    ensures a.arrival == b.arrival ==> a == b
  {
    var i :| 0 <= i < |r.values| && r.values[i] == a;
    var j :| 0 <= j < |r.values| && r.values[j] == b;
  }

  lemma {:induction false} LastShowing(recs: Values, slot: Slot) returns (k: nat)
    requires Shown(recs, slot)
    ensures k < |recs| && Shows(recs[k], slot) && forall j | k < j < |recs| :: !Shows(recs[j], slot)
  {
    var n := |recs| - 1;
    if Shows(recs[n], slot) {
      k := n;
    } else {
      var i :| 0 <= i < |recs| && Shows(recs[i], slot);
      assert Shows(recs[..n][i], slot);
      k := LastShowing(recs[..n], slot);
    }
  }
}
