/**
 What a client of a state store sees of its own writes, whatever happened before:
 which operations are taken, what the history and the current version show after
 them, and what they leave as it was. For the in-memory store and for bbolt.
 */
module StoreEffects {
  import opened Prelude
  import opened ByteKeys
  import opened StateStore
  import opened StoreRefinement
  import Mem = InMemoryStore
  import Bolt = BboltStore

  // ----- What is taken and what is refused -----

  function WriteOf(run: Name, w: ValueWrite): WriteOp {
    WriteOp(run, 0, Some(w), None, None)
  }

  function FlipOf(run: Name, task: Name, status: Status): WriteOp {
    WriteOp(run, 1, None, Some(StatusFlip(task, status)), None)
  }

  function EntryOf(run: Name, h: HistoryEntry): WriteOp {
    WriteOp(run, 2, None, None, Some(h))
  }

  /** The run, task, execution and field are named and the timestamp is not Go's zero time. */
  predicate Complete(run: Name, w: ValueWrite) {
    && |run.bytes| > 0 && |w.task.bytes| > 0 && |w.execution.bytes| > 0 && |w.field.bytes| > 0
    && w.ts != -62_135_596_800_000_000_000
  }

  /** Writes, flips and history entries are taken exactly when they are complete. */
  lemma TakenWhenComplete(run: Name, w: ValueWrite, task: Name, status: Status, h: HistoryEntry)
    ensures ProblemOf(WriteOf(run, w)).None? <==> Complete(run, w)
    ensures ProblemOf(FlipOf(run, task, status)).None?
       <==> |run.bytes| > 0 && |task.bytes| > 0 && (status == Committed || status == Aborted)
    ensures ProblemOf(EntryOf(run, h)).None?
       <==> |run.bytes| > 0 && |h.kind.bytes| > 0 && h.ts != -62_135_596_800_000_000_000
  {
    assert forall n: Name :: n == EMPTY_NAME <==> |n.bytes| == 0;
  }

  /** An operation whose kind is unknown or whose payload is missing is never taken. */
  lemma RefusedWithout(op: WriteOp)
    ensures op.kind < 0 || op.kind > 2 ==> ProblemOf(op).Some?
    ensures op.kind == 0 && op.write.None? ==> ProblemOf(op).Some?
    ensures op.kind == 1 && op.flip.None? ==> ProblemOf(op).Some?
    ensures op.kind == 2 && op.entry.None? ==> ProblemOf(op).Some?
  {
  }

  /** One operation that is not taken, and neither store changes for the whole batch. */
  lemma RefusedWhole(m: Mem.Store, b: Bolt.Store, ops: seq<WriteOp>, i: nat)
    requires i < |ops| && ProblemOf(ops[i]).Some?
    ensures Mem.Batched(m, ops) == m && Bolt.Batched(b, ops) == b
  {
    assert !ValidOp(ops[i]);
  }

  // ----- Appending a step -----

  lemma {:induction false} MemAppend(s: Mem.Store, steps: seq<Step>, step: Step)
    ensures Mem.RunSteps(s, steps + [step]) == Mem.RunSteps(Mem.RunSteps(s, steps), [step])
    decreases |steps|
  {
    if steps == [] {
      assert [] + [step] == [step];
    } else {
      assert (steps + [step])[1..] == steps[1..] + [step];
      MemAppend(if steps[0].Save? then Mem.Saved(s, steps[0].meta) else Mem.Batched(s, steps[0].ops), steps[1..], step);
    }
  }

  lemma MemBatch(steps: seq<Step>, ops: seq<WriteOp>)
    requires Mem.ValidBatch(ops)
    ensures Mem.RunSteps(map[], steps + [Batch(ops)]) == Mem.ApplyAll(Mem.RunSteps(map[], steps), ops)
  {
    MemAppend(map[], steps, Batch(ops));
    var s := Mem.RunSteps(map[], steps);
    assert [Batch(ops)][1..] == [];
    assert Mem.RunSteps(s, [Batch(ops)]) == Mem.RunSteps(Mem.Batched(s, ops), []);
  }

  // ----- Logs with the same committed records show the same version -----

  /** The same committed records of a slot. */
  ghost predicate SameFor(a: Mem.Values, b: Mem.Values, slot: Slot) {
    forall r | Mem.Shows(r, slot) :: r in a <==> r in b
  }

  ghost predicate ShowsSame(a: Mem.Version, b: Mem.Version, slot: Slot) {
    (slot in a <==> slot in b) && (slot in a ==> a[slot] == b[slot])
  }

  lemma SameSlot(a: Mem.Run, b: Mem.Run, slot: Slot)
    requires Mem.Numbered(a) && Mem.Numbered(b) && SameFor(a.values, b.values, slot)
    ensures ShowsSame(Mem.Fold(Replay(a.values)), Mem.Fold(Replay(b.values)), slot)
  {
    Mem.FoldIsLatest(a, slot);
    Mem.FoldIsLatest(b, slot);
    var va, vb := Mem.Fold(Replay(a.values)), Mem.Fold(Replay(b.values));
    if slot in va {
      var r :| Mem.LatestFor(a.values, r, slot) && va[slot] == r.body.value;
      assert r in b.values && Mem.Shows(r, slot);
      var t :| Mem.LatestFor(b.values, t, slot) && vb[slot] == t.body.value;
      assert t in a.values;
    }
    if slot in vb {
      var t :| Mem.LatestFor(b.values, t, slot) && vb[slot] == t.body.value;
      assert t in a.values && Mem.Shows(t, slot);
    }
  }

  lemma SameVersion(a: Mem.Run, b: Mem.Run)
    requires Mem.Numbered(a) && Mem.Numbered(b) && forall slot :: SameFor(a.values, b.values, slot)
    ensures Mem.Fold(Replay(a.values)) == Mem.Fold(Replay(b.values))
  {
    var va, vb := Mem.Fold(Replay(a.values)), Mem.Fold(Replay(b.values));
    forall slot ensures ShowsSame(va, vb, slot) {
      SameSlot(a, b, slot);
    }
    assert forall slot :: ShowsSame(va, vb, slot) ==> (slot in va <==> slot in vb);
    assert va.Keys == vb.Keys;
    assert forall slot | slot in va :: ShowsSame(va, vb, slot) ==> va[slot] == vb[slot];
  }

  // ----- A write and what becomes of it -----

  /** The records of a run after a write and a flip of its task. */
  lemma WrittenAndFlipped(s: Mem.Store, run: Name, w: ValueWrite, status: Status)
    requires Complete(run, w) && (status == Committed || status == Aborted)
    ensures var ops := [WriteOf(run, w), FlipOf(run, w.task, status)];
      && Mem.ValidBatch(ops)
      && var m, m' := Mem.RunOf(s, run), Mem.RunOf(Mem.ApplyAll(s, ops), run);
      && Mem.ApplyAll(s, ops).Keys == s.Keys + {run}
      && m'.meta == m.meta && m'.history == m.history
      && m'.values == Mem.FlipAll(m.values, StatusFlip(w.task, status))
           + [Record(w.ts, m.count + 1, ValueBody(w.task, w.execution, w.field, w.value, status))]
  {
    TakenWhenComplete(run, w, w.task, status, HistoryEntry(EMPTY_NAME, None, EMPTY_NAME, EMPTY_JSON, 0));
    var write, flip := WriteOf(run, w), FlipOf(run, w.task, status);
    assert [write, flip][1..] == [flip] && [flip][1..] == [];
    var s1 := Mem.Apply(s, write);
    assert Mem.ApplyAll(s, [write, flip]) == Mem.ApplyAll(s1, [flip]) == Mem.Apply(s1, flip);
    var m, f := Mem.RunOf(s, run), StatusFlip(w.task, status);
    var r := Record(w.ts, m.count + 1, ValueBody(w.task, w.execution, w.field, w.value, Pending));
    assert Mem.RunOf(s1, run).values == m.values + [r];
    assert Mem.FlipAll(m.values + [r], f) == Mem.FlipAll(m.values, f) + [r.(body := r.body.(status := status))];
  }

  /** A flip leaves what is committed in a slot, unless it commits the slot's own task. */
  lemma FlipKeepsShown(values: Mem.Values, f: StatusFlip, r: Record<ValueBody>, slot: Slot)
    requires r.body.task == f.task && r.body.status == f.newStatus != Pending
    requires f.newStatus != Committed || slot.task != f.task
    ensures SameFor(values, Mem.FlipAll(values, f) + [r], slot)
  {
    var after := Mem.FlipAll(values, f);
    forall c | Mem.Shows(c, slot)
      ensures c in values <==> c in after + [r]
    {
      if c in values {
        var i :| 0 <= i < |values| && values[i] == c;
        assert after[i] == c;
        assert (after + [r])[i] == c;
      }
      if c in after + [r] {
        var i :| 0 <= i < |after| && after[i] == c;
        assert values[i] == c;
      }
    }
  }

  /** What a run's version shows; nothing for an unknown run. */
  function MemVersion(s: Mem.Store, run: Name): Mem.Version {
    if run in s then Mem.CurrentOf(s, run).value.values else map[]
  }

  lemma VersionIs(s: Mem.Store, run: Name)
    ensures MemVersion(s, run) == Mem.Fold(Replay(Mem.RunOf(s, run).values))
  {
    assert Replay(Mem.NewRun(run).values) == [];
  }

  function Settled(w: ValueWrite, n: nat, status: Status): Record<ValueBody> {
    Record(w.ts, n, ValueBody(w.task, w.execution, w.field, w.value, status))
  }

  /** The two logs of the run, before and after. */
  lemma LogsAround(steps: seq<Step>, run: Name, w: ValueWrite, status: Status) returns (m: Mem.Run, m': Mem.Run)
    requires Complete(run, w) && (status == Committed || status == Aborted)
    ensures var ops := [WriteOf(run, w), FlipOf(run, w.task, status)];
      var s, s' := Mem.RunSteps(map[], steps), Mem.RunSteps(map[], steps + [Batch(ops)]);
      && Mem.ValidBatch(ops) && run in s'
      && m == Mem.RunOf(s, run) && m' == s'[run] && Mem.Numbered(m) && Mem.Numbered(m')
      && m'.values == Mem.FlipAll(m.values, StatusFlip(w.task, status)) + [Settled(w, m.count + 1, status)]
      && m'.history == m.history && m'.meta == m.meta
  {
    var ops := [WriteOf(run, w), FlipOf(run, w.task, status)];
    var s := Mem.RunSteps(map[], steps);
    WrittenAndFlipped(s, run, w, status);
    MemBatch(steps, ops);
    Mem.ReachedNumbered(steps, run);
    Mem.ReachedNumbered(steps + [Batch(ops)], run);
    m, m' := Mem.RunOf(s, run), Mem.RunOf(Mem.ApplyAll(s, ops), run);
  }

  lemma LastServed(values: Mem.Values, r: Record<ValueBody>)
    ensures r in Replay(values + [r])
  {
    Mem.ReplayMembers(values + [r]);
    assert (values + [r])[|values|] == r;
  }

  /**
   A write followed by the abort of its task, in one batch: taken; the history
   shows the record as aborted; the current version is what it was.
   */
  lemma AbortedWrite(steps: seq<Step>, run: Name, w: ValueWrite)
    requires Complete(run, w)
    ensures var ops := [WriteOf(run, w), FlipOf(run, w.task, Aborted)];
      var s, s' := Mem.RunSteps(map[], steps), Mem.RunSteps(map[], steps + [Batch(ops)]);
      && Mem.ValidBatch(ops) && run in s'
      && (exists n :: Settled(w, n, Aborted) in Mem.HistoryOf(s', run).value.values)
      && MemVersion(s', run) == MemVersion(s, run)
  {
    var m, m' := LogsAround(steps, run, w, Aborted);
    var r := Settled(w, m.count + 1, Aborted);
    LastServed(Mem.FlipAll(m.values, StatusFlip(w.task, Aborted)), r);
    forall slot ensures SameFor(m.values, m'.values, slot) {
      FlipKeepsShown(m.values, StatusFlip(w.task, Aborted), r, slot);
    }
    SameVersion(m, m');
    VersionIs(Mem.RunSteps(map[], steps), run);
  }

  /** No record of the field is later. */
  ghost predicate NoneLater(values: Mem.Values, task: Name, field: Name, ts: int) {
    forall r | r in values && r.body.task == task && r.body.field == field :: r.ts <= ts
  }

  /** The version after a commit: the written value in its field if it is the newest there, and other tasks' fields as before. */
  ghost predicate Lands(before: Mem.Version, after: Mem.Version, w: ValueWrite, newest: bool) {
    && (newest ==> Slot(w.task, w.field) in after && after[Slot(w.task, w.field)] == w.value)
    && forall slot: Slot | slot.task != w.task :: ShowsSame(before, after, slot)
  }

  lemma CommitLands(m: Mem.Run, m': Mem.Run, w: ValueWrite)
    requires Mem.Numbered(m) && Mem.Numbered(m')
    requires m'.values == Mem.FlipAll(m.values, StatusFlip(w.task, Committed)) + [Settled(w, m.count + 1, Committed)]
    ensures Lands(Mem.Fold(Replay(m.values)), Mem.Fold(Replay(m'.values)), w, NoneLater(Replay(m.values), w.task, w.field, w.ts))
  {
    var f, r := StatusFlip(w.task, Committed), Settled(w, m.count + 1, Committed);
    Mem.ReplayMembers(m.values);
    if NoneLater(Replay(m.values), w.task, w.field, w.ts) {
      NewestShows(m, m', f, r);
    }
    forall slot: Slot | slot.task != w.task ensures ShowsSame(Mem.Fold(Replay(m.values)), Mem.Fold(Replay(m'.values)), slot) {
      FlipKeepsShown(m.values, f, r, slot);
      SameSlot(m, m', slot);
    }
  }

  /** What a run's history serves; nothing for an unknown run. */
  function MemValues(s: Mem.Store, run: Name): Mem.Values {
    if run in s then Mem.HistoryOf(s, run).value.values else []
  }

  /**
   A write followed by the commit of its task: taken; the history shows the record
   as committed; the current version shows its value in its field unless a later
   record of the field is there, and keeps what it shows of other tasks.
   */
  lemma CommittedWrite(steps: seq<Step>, run: Name, w: ValueWrite)
    requires Complete(run, w)
    ensures var ops := [WriteOf(run, w), FlipOf(run, w.task, Committed)];
      var s, s' := Mem.RunSteps(map[], steps), Mem.RunSteps(map[], steps + [Batch(ops)]);
      && Mem.ValidBatch(ops) && run in s'
      && (exists n :: Settled(w, n, Committed) in Mem.HistoryOf(s', run).value.values)
      && Lands(MemVersion(s, run), MemVersion(s', run), w, NoneLater(MemValues(s, run), w.task, w.field, w.ts))
  {
    var m, m' := LogsAround(steps, run, w, Committed);
    LastServed(Mem.FlipAll(m.values, StatusFlip(w.task, Committed)), Settled(w, m.count + 1, Committed));
    VersionIs(Mem.RunSteps(map[], steps), run);
    CommitLands(m, m', w);
  }

  lemma NewestShows(m: Mem.Run, m': Mem.Run, f: StatusFlip, r: Record<ValueBody>)
    requires Mem.Numbered(m) && Mem.Numbered(m') && r.arrival > m.count && r.body.status == Committed
    requires m'.values == Mem.FlipAll(m.values, f) + [r] && NoneLater(m.values, r.body.task, r.body.field, r.ts)
    ensures var slot, v := Slot(r.body.task, r.body.field), Mem.Fold(Replay(m'.values)); slot in v && v[slot] == r.body.value
  {
    var slot := Slot(r.body.task, r.body.field);
    var flipped := Mem.FlipAll(m.values, f);
    assert m'.values[|m'.values| - 1] == r;
    forall o | o in m'.values && Mem.Shows(o, slot) ensures o == r || Precedes(o, r) {
      if o != r {
        var i :| 0 <= i < |flipped| && flipped[i] == o;
        assert m.values[i] in m.values;
      }
    }
    assert Mem.LatestFor(m'.values, r, slot);
    Mem.FoldIsLatest(m', slot);
    var o :| Mem.LatestFor(m'.values, o, slot) && Mem.Fold(Replay(m'.values))[slot] == o.body.value;
  }

  // ----- Entries, metadata and order -----

  /** A history entry is taken into the history with everything it says, and touches nothing else. */
  lemma EntryRecorded(steps: seq<Step>, run: Name, h: HistoryEntry)
    requires |run.bytes| > 0 && |h.kind.bytes| > 0 && h.ts != -62_135_596_800_000_000_000
    ensures var ops := [EntryOf(run, h)];
      var s, s' := Mem.RunSteps(map[], steps), Mem.RunSteps(map[], steps + [Batch(ops)]);
      var r := Record(h.ts, Mem.RunOf(s, run).count + 1, HistoryBody(h.kind, h.node, h.execution, h.payload));
      && Mem.ValidBatch(ops) && run in s'
      && multiset(Mem.HistoryOf(s', run).value.history) == multiset(Mem.RunOf(s, run).history) + multiset{r}
      && MemValues(s', run) == MemValues(s, run) && MemVersion(s', run) == MemVersion(s, run)
  {
    var ops := [EntryOf(run, h)];
    TakenWhenComplete(run, ValueWrite(EMPTY_NAME, EMPTY_NAME, EMPTY_NAME, EMPTY_JSON, 0), EMPTY_NAME, Pending, h);
    MemBatch(steps, ops);
    var s := Mem.RunSteps(map[], steps);
    assert ops[1..] == [];
    assert Mem.ApplyAll(s, ops) == Mem.Apply(s, EntryOf(run, h));
    VersionIs(s, run);
    assert Replay(Mem.NewRun(run).values) == [];
    ReplaySorts(Mem.Apply(s, EntryOf(run, h))[run].history);
  }

  /** Saved metadata is what both reads of the run show; nothing else of any run changes. */
  lemma SavedShown(steps: seq<Step>, meta: RunMetadata, run: Name)
    requires |meta.run.bytes| > 0
    ensures var s, s' := Mem.RunSteps(map[], steps), Mem.RunSteps(map[], steps + [Save(meta)]);
      && meta.run in s' && Mem.CurrentOf(s', meta.run).value.meta == meta == Mem.HistoryOf(s', meta.run).value.meta
      && MemValues(s', run) == MemValues(s, run) && MemVersion(s', run) == MemVersion(s, run)
      && Mem.RunOf(s', run).history == Mem.RunOf(s, run).history
      && (run != meta.run ==> Mem.CurrentOf(s', run) == Mem.CurrentOf(s, run))
  {
    MemAppend(map[], steps, Save(meta));
    var s := Mem.RunSteps(map[], steps);
    assert [Save(meta)][1..] == [];
    assert Mem.RunSteps(s, [Save(meta)]) == Mem.RunSteps(Mem.Saved(s, meta), []);
    VersionIs(s, run);
    VersionIs(Mem.Saved(s, meta), run);
    assert Replay(Mem.NewRun(run).values) == [];
  }

  /** The history is served by timestamp, and equal timestamps in the order of writing. */
  lemma ServedInOrder(steps: seq<Step>, run: Name, i: nat, j: nat)
    requires var values := MemValues(Mem.RunSteps(map[], steps), run); i < j < |values|
    ensures var values := MemValues(Mem.RunSteps(map[], steps), run);
      values[i].ts < values[j].ts || (values[i].ts == values[j].ts && values[i].arrival <= values[j].arrival)
  {
    ReplaySorts(Mem.RunSteps(map[], steps)[run].values);
  }

  // ----- The same, of bbolt -----

  /** bbolt stores the text null where nothing was supplied. */
  function NullIfAbsent(j: Json): Json {
    if |j.text| == 0 then Json([110, 117, 108, 108]) else j
  }

  function BoltVersion(b: Bolt.Store, run: Name): Mem.Version {
    if run in b then Bolt.CurrentOf(b, run).value.values else map[]
  }

  function BoltValues(b: Bolt.Store, run: Name): Mem.Values {
    if run in b then Bolt.HistoryOf(b, run).value.values else []
  }

  lemma {:induction false} OpCountPrefix(steps: seq<Step>, step: Step)
    ensures OpCount(steps) <= OpCount(steps + [step])
  {
    if steps != [] {
      assert (steps + [step])[1..] == steps[1..] + [step];
      OpCountPrefix(steps[1..], step);
    }
  }

  /** Before the last step of a suited sequence, too, bbolt serves what the in-memory store does. */
  lemma ServesBefore(steps: seq<Step>, step: Step, run: Name)
    requires Suited(steps + [step])
    ensures var m, b := Mem.RunSteps(map[], steps), Bolt.RunSteps(map[], steps);
      (run in m <==> run in b) && (run in m ==> Serves(m[run], b[run], run))
  {
    var all := steps + [step];
    var tasks: Tasks := (run, task) => Writes(all, run, task);
    OpCountPrefix(steps, step);
    assert forall i | 0 <= i < |steps| :: steps[i] == all[i];
    StepsRefine(map[], map[], tasks, 0, steps);
    var m, b := Mem.RunSteps(map[], steps), Bolt.RunSteps(map[], steps);
    if run in m {
      assert Rel(m[run], b[run], run, tasks);
      WalkIs(b[run].values, Replay(ValueView(m[run])), b[run].valueSeq);
      WalkIs(b[run].history, Replay(HistoryView(m[run])), b[run].historySeq);
    }
  }

  function Held(m: Mem.Run): Mem.Run {
    m.(values := ValueView(m))
  }

  /** What bbolt shows of a run is the fold of its records as held. */
  lemma BoltVersionIs(m: Mem.Store, b: Bolt.Store, run: Name)
    requires (run in m <==> run in b) && (run in m ==> Serves(m[run], b[run], run))
    ensures BoltVersion(b, run) == Mem.Fold(Replay(ValueView(Mem.RunOf(m, run))))
  {
    if run in m {
      WalkFolds(m[run], b[run], run);
    } else {
      assert ValueView(Mem.NewRun(run)) == [];
    }
  }

  lemma HeldMore(m: Mem.Run, m': Mem.Run, w: ValueWrite, status: Status)
    requires m'.values == Mem.FlipAll(m.values, StatusFlip(w.task, status)) + [Settled(w, m.count + 1, status)]
    ensures var held := w.(ts := ToUnsigned(w.ts), value := Bolt.OrNull(w.value));
      ValueView(m') == Mem.FlipAll(ValueView(m), StatusFlip(w.task, status)) + [Settled(held, m.count + 1, status)]
  {
    var held := w.(ts := ToUnsigned(w.ts), value := Bolt.OrNull(w.value));
    var flipped := Mem.FlipAll(ValueView(m), StatusFlip(w.task, status));
    forall k | 0 <= k < |m.values| ensures ValueView(m')[k] == flipped[k] {
      assert ValueView(m)[k] == AsHeld(m.values[k]) && ValueView(m')[k] == AsHeld(m'.values[k]);
      assert m'.values[k] == Mem.FlipAll(m.values, StatusFlip(w.task, status))[k];
    }
    assert ValueView(m')[|m.values|] == AsHeld(m'.values[|m.values|]);
  }

  /** Every record of the log is in the walk, with its timestamp and its value or null. */
  lemma InWalk(m: Mem.Run, rb: Bolt.RunBucket, run: Name, r: Record<ValueBody>) returns (n: nat)
    requires Serves(m, rb, run) && r in m.values
    ensures Record(r.ts, n, r.body.(value := NullIfAbsent(r.body.value))) in Bolt.Walk(rb.values)
  {
    HeldMembers(m);
    Mem.ReplayMembers(ValueView(m));
    var held := Replay(ValueView(m));
    var k :| 0 <= k < |held| && held[k] == AsHeld(r);
    FitsOf(m.values, r);
    UnsignedOf(r.ts);
    var walk := Bolt.Walk(rb.values);
    assert Signed(held)[k].ts == r.ts && Signed(held)[k].body == held[k].body;
    assert KeyOrder(MapBodies(m.values, NullValue)) == Signed(held);
    n := walk[k].arrival;
    assert walk[k] == Record(r.ts, n, NullValue(r.body));
  }

  /** A write followed by the abort of its task: taken by bbolt too, shown as aborted, and the version stays. */
  lemma AbortedInBolt(steps: seq<Step>, run: Name, w: ValueWrite)
    requires Complete(run, w)
    requires Suited(steps + [Batch([WriteOf(run, w), FlipOf(run, w.task, Aborted)])])
    ensures var ops := [WriteOf(run, w), FlipOf(run, w.task, Aborted)];
      var b, b' := Bolt.RunSteps(map[], steps), Bolt.RunSteps(map[], steps + [Batch(ops)]);
      && (exists n :: Settled(w.(value := NullIfAbsent(w.value)), n, Aborted) in BoltValues(b', run))
      && BoltVersion(b', run) == BoltVersion(b, run)
  {
    var batch := Batch([WriteOf(run, w), FlipOf(run, w.task, Aborted)]);
    var m, m' := LogsAround(steps, run, w, Aborted);
    var b' := Bolt.RunSteps(map[], steps + [batch]);
    ServesBefore(steps, batch, run);
    BboltServes(steps + [batch], run);
    AbortHeld(m, m', w);
    BoltVersionIs(Mem.RunSteps(map[], steps), Bolt.RunSteps(map[], steps), run);
    BoltVersionIs(Mem.RunSteps(map[], steps + [batch]), b', run);
    assert m'.values[|m'.values| - 1] == Settled(w, m.count + 1, Aborted);
    var n := InWalk(m', b'[run], run, Settled(w, m.count + 1, Aborted));
    assert Settled(w.(value := NullIfAbsent(w.value)), n, Aborted) in BoltValues(b', run);
  }

  lemma AbortHeld(m: Mem.Run, m': Mem.Run, w: ValueWrite)
    requires Mem.Numbered(m) && Mem.Numbered(m')
    requires m'.values == Mem.FlipAll(m.values, StatusFlip(w.task, Aborted)) + [Settled(w, m.count + 1, Aborted)]
    ensures Mem.Fold(Replay(ValueView(m'))) == Mem.Fold(Replay(ValueView(m)))
  {
    HeldMore(m, m', w, Aborted);
    HeldNumbered(m);
    HeldNumbered(m');
    var held := w.(ts := ToUnsigned(w.ts), value := Bolt.OrNull(w.value));
    forall slot ensures SameFor(Held(m).values, Held(m').values, slot) {
      FlipKeepsShown(ValueView(m), StatusFlip(w.task, Aborted), Settled(held, m.count + 1, Aborted), slot);
    }
    SameVersion(Held(m), Held(m'));
  }

  /** No record of the field comes later in key order: negative timestamps come after the others. */
  ghost predicate NoneLaterByKey(values: Mem.Values, task: Name, field: Name, ts: int) {
    forall r | r in values && r.body.task == task && r.body.field == field ::
      (r.ts >= 0 && ts < 0) || ((r.ts < 0 <==> ts < 0) && r.ts <= ts)
  }

  lemma NoneLaterHeld(m: Mem.Run, rb: Bolt.RunBucket, run: Name, w: ValueWrite)
    requires Serves(m, rb, run) && IsInt64(w.ts) && NoneLaterByKey(Bolt.Walk(rb.values), w.task, w.field, w.ts)
    ensures NoneLater(Replay(ValueView(m)), w.task, w.field, ToUnsigned(w.ts))
  {
    var held := Replay(ValueView(m));
    UnsignedOf(w.ts);
    Mem.ReplayMembers(ValueView(m));
    HeldMembers(m);
    forall h | h in held && h.body.task == w.task && h.body.field == w.field ensures h.ts <= ToUnsigned(w.ts) {
      var r :| r in m.values && AsHeld(r) == h;
      var n := InWalk(m, rb, run, r);
      FitsOf(m.values, r);
      UnsignedOf(r.ts);
    }
  }

  /** A write followed by the commit of its task: shown as committed, and in the version unless a later key of the field is there. */
  lemma CommittedInBolt(steps: seq<Step>, run: Name, w: ValueWrite)
    requires Complete(run, w) && IsInt64(w.ts)
    requires Suited(steps + [Batch([WriteOf(run, w), FlipOf(run, w.task, Committed)])])
    ensures var ops := [WriteOf(run, w), FlipOf(run, w.task, Committed)];
      var b, b' := Bolt.RunSteps(map[], steps), Bolt.RunSteps(map[], steps + [Batch(ops)]);
      var served := w.(value := NullIfAbsent(w.value));
      && (exists n :: Settled(served, n, Committed) in BoltValues(b', run))
      && (NoneLaterByKey(BoltValues(b, run), w.task, w.field, w.ts) ==> Lands(BoltVersion(b, run), BoltVersion(b', run), served, true))
  {
    var batch := Batch([WriteOf(run, w), FlipOf(run, w.task, Committed)]);
    var m, m' := LogsAround(steps, run, w, Committed);
    var b, b' := Bolt.RunSteps(map[], steps), Bolt.RunSteps(map[], steps + [batch]);
    ServesBefore(steps, batch, run);
    BboltServes(steps + [batch], run);
    BoltVersionIs(Mem.RunSteps(map[], steps), b, run);
    BoltVersionIs(Mem.RunSteps(map[], steps + [batch]), b', run);
    assert m'.values[|m'.values| - 1] == Settled(w, m.count + 1, Committed);
    var n := InWalk(m', b'[run], run, Settled(w, m.count + 1, Committed));
    assert Settled(w.(value := NullIfAbsent(w.value)), n, Committed) in BoltValues(b', run);
    if NoneLaterByKey(BoltValues(b, run), w.task, w.field, w.ts) {
      NewestHeld(Mem.RunSteps(map[], steps), b, run, w);
      CommitHeld(m, m', w);
    }
  }

  lemma NewestHeld(s: Mem.Store, b: Bolt.Store, run: Name, w: ValueWrite)
    requires (run in s <==> run in b) && (run in s ==> Serves(s[run], b[run], run))
    requires IsInt64(w.ts) && NoneLaterByKey(BoltValues(b, run), w.task, w.field, w.ts)
    ensures NoneLater(Replay(ValueView(Mem.RunOf(s, run))), w.task, w.field, ToUnsigned(w.ts))
  {
    if run in b {
      NoneLaterHeld(s[run], b[run], run, w);
    } else {
      assert ValueView(Mem.RunOf(s, run)) == [];
    }
  }

  lemma CommitHeld(m: Mem.Run, m': Mem.Run, w: ValueWrite)
    requires Mem.Numbered(m) && Mem.Numbered(m')
    requires m'.values == Mem.FlipAll(m.values, StatusFlip(w.task, Committed)) + [Settled(w, m.count + 1, Committed)]
    requires NoneLater(Replay(ValueView(m)), w.task, w.field, ToUnsigned(w.ts))
    ensures Lands(Mem.Fold(Replay(ValueView(m))), Mem.Fold(Replay(ValueView(m'))), w.(value := NullIfAbsent(w.value)), true)
  {
    HeldMore(m, m', w, Committed);
    HeldNumbered(m);
    HeldNumbered(m');
    CommitLands(Held(m), Held(m'), w.(ts := ToUnsigned(w.ts), value := Bolt.OrNull(w.value)));
  }
}
