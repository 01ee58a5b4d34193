/**
 The write contract every state-store backend implements (core/state_store.go):
 the write operations with their validation, the records served back, and replay
 order.
 */
module StateStore {
  import opened Prelude
  import opened ByteKeys

  /** A Go string, as the bytes it is. */
  datatype Name = Name(bytes: Bytes)

  /** A JSON text; encoding and decoding are the identity here. Empty only for a nil slice: nothing was supplied. */
  datatype Json = Json(text: Bytes)

  const EMPTY_NAME := Name([])
  const EMPTY_JSON := Json([])

  /** The text bbolt stores where nothing was supplied: null. */
  const NULL_JSON := Json([110, 117, 108, 108])

  /** Time as nanoseconds from the Unix epoch; this is Go's zero time. */
  const ZERO_TIME: int := -62_135_596_800_000_000_000

  datatype Status = Pending | Committed | Aborted | Other(code: int)

  datatype ValueWrite = ValueWrite(task: Name, execution: Name, field: Name, value: Json, ts: int)
  datatype StatusFlip = StatusFlip(task: Name, newStatus: Status)
  datatype HistoryEntry = HistoryEntry(kind: Name, node: Option<Name>, execution: Name, payload: Json, ts: int)

  const OP_VALUE_WRITE := 0
  const OP_STATUS_FLIP := 1
  const OP_HISTORY_ENTRY := 2

  datatype WriteOp = WriteOp(
    run: Name,
    kind: int,
    write: Option<ValueWrite>,
    flip: Option<StatusFlip>,
    entry: Option<HistoryEntry>)

  /** The well-formed operations: what each kind must supply. */
  predicate ValidOp(op: WriteOp) {
    && op.run != EMPTY_NAME
    && (op.kind == OP_VALUE_WRITE || op.kind == OP_STATUS_FLIP || op.kind == OP_HISTORY_ENTRY)
    && (op.kind == OP_VALUE_WRITE ==>
          && op.write.Some?
          && op.write.value.task != EMPTY_NAME && op.write.value.field != EMPTY_NAME && op.write.value.execution != EMPTY_NAME
          && op.write.value.ts != ZERO_TIME)
    && (op.kind == OP_STATUS_FLIP ==>
          && op.flip.Some?
          && op.flip.value.task != EMPTY_NAME
          && (op.flip.value.newStatus == Committed || op.flip.value.newStatus == Aborted))
    && (op.kind == OP_HISTORY_ENTRY ==>
          op.entry.Some? && op.entry.value.kind != EMPTY_NAME && op.entry.value.ts != ZERO_TIME)
  }

  /** Why ValidateWriteOp refuses an operation. */
  datatype OpProblem = EmptyRun | UnknownKind | NoPayload | NameMissing | ZeroTimestamp | BadStatus

  function WriteProblem(w: ValueWrite): Option<OpProblem> {
    if w.task == EMPTY_NAME || w.field == EMPTY_NAME || w.execution == EMPTY_NAME then Some(NameMissing)
    else if w.ts == ZERO_TIME then Some(ZeroTimestamp)
    else None
  }

  function FlipProblem(f: StatusFlip): Option<OpProblem> {
    if f.task == EMPTY_NAME then Some(NameMissing)
    else if f.newStatus != Committed && f.newStatus != Aborted then Some(BadStatus)
    else None
  }

  function EntryProblem(h: HistoryEntry): Option<OpProblem> {
    if h.kind == EMPTY_NAME then Some(NameMissing)
    else if h.ts == ZERO_TIME then Some(ZeroTimestamp)
    else None
  }

  /** ValidateWriteOp, check by check: no problem is found exactly with a well-formed operation. */
  function ProblemOf(op: WriteOp): (p: Option<OpProblem>)
    ensures p.None? <==> ValidOp(op)
  {
    if op.run == EMPTY_NAME then Some(EmptyRun)
    else if op.kind == OP_VALUE_WRITE then (if op.write.None? then Some(NoPayload) else WriteProblem(op.write.value))
    else if op.kind == OP_STATUS_FLIP then (if op.flip.None? then Some(NoPayload) else FlipProblem(op.flip.value))
    else if op.kind == OP_HISTORY_ENTRY then (if op.entry.None? then Some(NoPayload) else EntryProblem(op.entry.value))
    else Some(UnknownKind)
  }

  /** What a client does to a store: save a run's metadata, or write a batch. */
  datatype Step = Save(meta: RunMetadata) | Batch(ops: seq<WriteOp>)

  // ----- Records -----

  /** A stored record: timestamp, backend-assigned arrival number, and the rest. */
  datatype Record<+T> = Record(ts: int, arrival: nat, body: T)

  datatype ValueBody = ValueBody(task: Name, execution: Name, field: Name, value: Json, status: Status)
  datatype HistoryBody = HistoryBody(kind: Name, node: Option<Name>, execution: Name, payload: Json)

  datatype RunMetadata = RunMetadata(run: Name, info: Bytes)

  /** Where a committed value shows: a field of a task. */
  datatype Slot = Slot(task: Name, field: Name)

  function SlotOf(b: ValueBody): Slot {
    Slot(b.task, b.field)
  }

  // ----- Replay order -----

  /** The comparison both Sort functions use. */
  predicate Precedes<T>(a: Record<T>, b: Record<T>) {
    ReplayBefore(a.ts, a.arrival, b.ts, b.arrival)
  }

  /** Insert a record after everything it does not precede. */
  function Insert<T>(s: seq<Record<T>>, r: Record<T>): seq<Record<T>> {
    if s == [] then [r]
    else if Precedes(r, s[|s| - 1]) then Insert(s[..|s| - 1], r) + [s[|s| - 1]]
    else s + [r]
  }

  /** The records in replay order: what a stable sort by (timestamp, arrival) yields. */
  function Replay<T>(s: seq<Record<T>>): seq<Record<T>> {
    if s == [] then [] else Insert(Replay(s[..|s| - 1]), s[|s| - 1])
  }

  ghost predicate InReplayOrder<T>(s: seq<Record<T>>) {
    forall i, j | 0 <= i < j < |s| :: !Precedes(s[j], s[i])
  }

  lemma {:induction false} InsertOrders<T>(s: seq<Record<T>>, r: Record<T>)
    requires InReplayOrder(s)
    ensures InReplayOrder(Insert(s, r))
    ensures multiset(Insert(s, r)) == multiset(s) + multiset{r}
  {
    if s != [] {
      var init, last := s[..|s| - 1], s[|s| - 1];
      assert s == init + [last];
      if Precedes(r, last) {
        InsertOrders(init, r);
        var t := Insert(init, r);
        forall i | 0 <= i < |t|
          ensures !Precedes(last, t[i])
        {
          assert t[i] in multiset(t);
          assert t[i] == r || t[i] in init;
        }
      }
    }
  }

  /** Replaying sorts: the same records, in replay order. */
  lemma {:induction false} ReplaySorts<T>(s: seq<Record<T>>)
    ensures InReplayOrder(Replay(s))
    ensures multiset(Replay(s)) == multiset(s)
    ensures |Replay(s)| == |s|
  {
    if s != [] {
      var init := s[..|s| - 1];
      ReplaySorts(init);
      InsertOrders(Replay(init), s[|s| - 1]);
      assert s == init + [s[|s| - 1]];
      assert |multiset(Replay(s))| == |multiset(s)|;
    }
  }

  /** Where an insertion ends up. */
  lemma {:induction false} InsertAt<T>(s: seq<Record<T>>, r: Record<T>, k: nat)
    requires k <= |s| && (k > 0 ==> !Precedes(r, s[k - 1]))
    requires forall i | k <= i < |s| :: Precedes(r, s[i])
    ensures Insert(s, r) == s[..k] + [r] + s[k..]
  {
    if k < |s| {
      var init := s[..|s| - 1];
      InsertAt(init, r, k);
      assert s[k..] == init[k..] + [s[|s| - 1]] && s[..k] == init[..k];
    } else {
      assert s[..k] == s && s[k..] == [];
    }
  }

  /** The inner loop of an insertion sort: sink a[n] into the sorted prefix. */
  method SinkLast<T>(a: array<Record<T>>, n: nat)
    requires n < a.Length
    modifies a
    ensures a[..n + 1] == Insert(old(a[..n]), old(a[n]))
    ensures forall i | n < i < a.Length :: a[i] == old(a[i])
  {
    var r, k := a[n], n;
    ghost var s := a[..n];
    while k > 0 && Precedes(r, a[k - 1])
      invariant 0 <= k <= n
      invariant forall i | 0 <= i < k :: a[i] == s[i]
      invariant forall i | k <= i < n :: a[i + 1] == s[i] && Precedes(r, s[i])
      invariant forall i | n < i < a.Length :: a[i] == old(a[i])
    {
      a[k] := a[k - 1];
      k := k - 1;
    }
    a[k] := r;
    InsertAt(s, r, k);
    assert a[..n + 1] == s[..k] + [r] + s[k..];
  }

  /** SortValueRecords and SortHistoryRecords: the slice is put into replay order in place. */
  method SortRecords<T>(a: array<Record<T>>)
    modifies a
    ensures a[..] == Replay(old(a[..]))
  {
    ghost var s := a[..];
    for n := 0 to a.Length
      invariant a[..n] == Replay(s[..n])
      invariant forall i | n <= i < a.Length :: a[i] == s[i]
    {
      assert s[..n + 1][..n] == s[..n];
      SinkLast(a, n);
    }
    assert s[..a.Length] == s;
  }
}
