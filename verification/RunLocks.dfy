/**
 The locking protocol of the SQL Server store (lockRuns and writeBatchOnce in
 stores/mssql/store.go): a batch takes an exclusive lock on every run it touches,
 each once and in sorted order, then writes, and holds everything until it
 commits or rolls back.
 */
module RunLocks {
  import opened Prelude
  import opened ByteKeys

  type Lock = Bytes

  ghost predicate StrictlySorted(s: seq<Lock>) {
    forall i, j | 0 <= i < j < |s| :: Less(s[i], s[j])
  }

  // ----- Which locks a batch takes -----

  function InsertLock(s: seq<Lock>, l: Lock): seq<Lock> {
    if s == [] then [l] else if Less(l, s[0]) then [l] + s else [s[0]] + InsertLock(s[1..], l)
  }

  lemma {:induction false} InsertLockSorts(s: seq<Lock>, l: Lock)
    requires StrictlySorted(s) && l !in s
    ensures StrictlySorted(InsertLock(s, l)) && Elems(InsertLock(s, l)) == Elems(s) + {l}
  {
    if s != [] {
      LessTotal(l, s[0]);
      if Less(l, s[0]) {
        forall j | 0 < j < |s|
          ensures Less(l, s[j])
        {
          LessTransitive(l, s[0], s[j]);
        }
      } else {
        InsertLockSorts(s[1..], l);
        var t := InsertLock(s[1..], l);
        assert s == [s[0]] + s[1..];
        forall j | 0 <= j < |t|
          ensures Less(s[0], t[j])
        {
          assert t[j] in Elems(s[1..]) + {l};
        }
        assert Elems([s[0]] + t) == {s[0]} + Elems(t);
      }
    }
  }

  /** lockRuns: the runs of the batch, empty ids skipped, duplicates removed, in sorted order. */
  method LocksFor(runs: seq<Bytes>) returns (locks: seq<Lock>)
    ensures StrictlySorted(locks)
    ensures Elems(locks) == Elems(runs) - {[]}
  {
    var seen: set<Bytes>, distinct: seq<Bytes> := {}, [];
    for i := 0 to |runs|
      invariant NoDup(distinct) && Elems(distinct) == seen == Elems(runs[..i]) - {[]}
    {
      ElemsGrow(runs, i);
      if runs[i] != [] && runs[i] !in seen {
        assert runs[i] !in Elems(distinct);
        NoDupConcat(distinct, [runs[i]]);
        seen := seen + {runs[i]};
        distinct := distinct + [runs[i]];
      }
    }
    assert runs[..|runs|] == runs;
    locks := [];
    for i := 0 to |distinct|
      invariant StrictlySorted(locks) && Elems(locks) == Elems(distinct[..i])
    {
      ElemsGrow(distinct, i);
      assert distinct[i] !in Elems(distinct[..i]);
      InsertLockSorts(locks, distinct[i]);
      locks := InsertLock(locks, distinct[i]);
    }
    assert distinct[..|distinct|] == distinct;
  }

  // ----- Concurrent batches -----

  /** A batch in progress: the locks it needs, how many it has, how many writes are left, and whether it is over. */
  datatype Batch = Batch(locks: seq<Lock>, held: nat, writes: nat, over: bool)

  type System = seq<Batch>

  ghost predicate Holds(b: Batch, l: Lock) {
    !b.over && b.held <= |b.locks| && l in b.locks[..b.held]
  }

  ghost predicate Free(s: System, l: Lock) {
    forall i | 0 <= i < |s| :: !Holds(s[i], l)
  }

  /** The next thing batch i does, if nothing blocks it. */
  datatype Move = Acquire | Write | Commit | RollBack

  ghost predicate Enabled(s: System, i: nat, move: Move) {
    i < |s| && !s[i].over &&
    match move
    case Acquire => s[i].held < |s[i].locks| && Free(s, s[i].locks[s[i].held])
    case Write => s[i].held == |s[i].locks| && s[i].writes > 0
    case Commit => s[i].held == |s[i].locks| && s[i].writes == 0
    case RollBack => true
  }

  function Next(s: System, i: nat, move: Move): System
    requires i < |s|
  {
    match move
    case Acquire => s[i := s[i].(held := s[i].held + 1)]
    case Write => s[i := s[i].(writes := if s[i].writes > 0 then s[i].writes - 1 else 0)]
    case Commit => s[i := s[i].(over := true)]
    case RollBack => s[i := s[i].(over := true)]
  }

  ghost predicate Exclusive(s: System) {
    forall i, j, l | 0 <= i < j < |s| && Holds(s[i], l) :: !Holds(s[j], l)
  }

  ghost predicate Sound(s: System) {
    && Exclusive(s)
    && forall i | 0 <= i < |s| :: s[i].held <= |s[i].locks| && StrictlySorted(s[i].locks)
  }

  lemma AcquireHolds(b: Batch, l: Lock)
    requires b.held < |b.locks| && !b.over
    ensures Holds(b.(held := b.held + 1), l) <==> Holds(b, l) || l == b.locks[b.held]
  {
    assert b.locks[..b.held + 1] == b.locks[..b.held] + [b.locks[b.held]];
  }

  /** Locks stay exclusive: the writers of a run are serialised. */
  lemma MoveSound(s: System, i: nat, move: Move)
    requires Sound(s) && Enabled(s, i, move)
    ensures Sound(Next(s, i, move))
  {
    var s' := Next(s, i, move);
    forall a, b, l | 0 <= a < b < |s'| && Holds(s'[a], l)
      ensures !Holds(s'[b], l)
    {
      if move == Acquire {
        AcquireHolds(s[i], l);
      }
      assert Holds(s[a], l) ==> !Holds(s[b], l);
    }
  }

  /** Two batches that are both writing touch no common run. */
  lemma WritersDisjoint(s: System, i: nat, j: nat, l: Lock)
    requires Sound(s) && i < |s| && j < |s| && i != j
    requires !s[i].over && !s[j].over && s[i].held == |s[i].locks| && s[j].held == |s[j].locks|
    ensures !(l in s[i].locks && l in s[j].locks)
  {
    assert s[i].locks[..s[i].held] == s[i].locks && s[j].locks[..s[j].held] == s[j].locks;
    assert l in s[i].locks <==> Holds(s[i], l);
    assert l in s[j].locks <==> Holds(s[j], l);
  }

  /** Whoever writes holds every lock it needs, and nobody else holds any of them. */
  lemma WriterHoldsAll(s: System, i: nat, j: nat, l: Lock)
    requires Sound(s) && Enabled(s, i, Write) && j < |s| && j != i && l in s[i].locks
    ensures Holds(s[i], l) && !Holds(s[j], l)
  {
    assert s[i].locks[..s[i].held] == s[i].locks;
    assert i < j || j < i;
  }

  /** A lock taken is kept until the batch is over, whatever the others do, and then let go. */
  lemma HeldUntilOver(s: System, i: nat, j: nat, move: Move, l: Lock)
    requires Sound(s) && Enabled(s, j, move) && i < |s| && Holds(s[i], l)
    ensures Holds(Next(s, j, move)[i], l) <==> !(j == i && (move == Commit || move == RollBack))
  {
    if j == i && move == Acquire {
      AcquireHolds(s[i], l);
    }
  }

  /** The locks are taken one at a time, in the order of the list. */
  lemma TakenInListOrder(s: System, i: nat)
    requires Sound(s) && Enabled(s, i, Acquire)
    ensures forall l :: Holds(Next(s, i, Acquire)[i], l) <==> Holds(s[i], l) || l == s[i].locks[s[i].held]
  {
    forall l ensures Holds(Next(s, i, Acquire)[i], l) <==> Holds(s[i], l) || l == s[i].locks[s[i].held] {
      AcquireHolds(s[i], l);
    }
  }

  // ----- No deadlock -----

  ghost predicate Waiting(b: Batch) {
    !b.over && b.held < |b.locks|
  }

  /** Among the waiting batches there is one that waits for a greatest lock. */
  lemma {:induction false} GreatestWait(s: System, n: nat) returns (m: nat)
    requires n <= |s| && exists i :: 0 <= i < n && Waiting(s[i])
    ensures m < n && Waiting(s[m])
    ensures forall i | 0 <= i < n && Waiting(s[i]) :: !Less(s[m].locks[s[m].held], s[i].locks[s[i].held])
  {
    if exists i :: 0 <= i < n - 1 && Waiting(s[i]) {
      m := GreatestWait(s, n - 1);
      if Waiting(s[n - 1]) {
        var a, b := s[m].locks[s[m].held], s[n - 1].locks[s[n - 1].held];
        if Less(a, b) {
          forall i | 0 <= i < n && Waiting(s[i])
            ensures !Less(b, s[i].locks[s[i].held])
          {
            var c := s[i].locks[s[i].held];
            if Less(b, c) {
              LessTransitive(a, b, c);
            }
            LessTotal(b, b);
          }
          m := n - 1;
        }
      }
    } else {
      m := n - 1;
      LessTotal(s[m].locks[s[m].held], s[m].locks[s[m].held]);
    }
  }

  ghost predicate CanProceed(s: System, i: nat) {
    Enabled(s, i, Acquire) || Enabled(s, i, Write) || Enabled(s, i, Commit)
  }

  /** As long as some batch is unfinished, some batch can go on: no timeout or deadlock victim is needed. */
  lemma NeverStuck(s: System, i: nat) returns (j: nat)
    requires Sound(s) && i < |s| && !s[i].over
    ensures CanProceed(s, j)
  {
    if exists k: nat :: k < |s| && !s[k].over && s[k].held == |s[k].locks| {
      j :| 0 <= j < |s| && !s[j].over && s[j].held == |s[j].locks|;
    } else {
      assert Waiting(s[i]);
      j := GreatestWait(s, |s|);
      var l := s[j].locks[s[j].held];
      forall k | 0 <= k < |s|
        ensures !Holds(s[k], l)
      {
        HolderWantsMore(s, k, l);
      }
    }
  }

  /** A batch that holds a lock and still waits, waits for a greater one. */
  lemma HolderWantsMore(s: System, k: nat, l: Lock)
    requires Sound(s) && k < |s|
    ensures Holds(s[k], l) && Waiting(s[k]) ==> Less(l, s[k].locks[s[k].held])
  {
    if Holds(s[k], l) && Waiting(s[k]) {
      var x :| 0 <= x < s[k].held && s[k].locks[..s[k].held][x] == l;
      assert s[k].locks[x] == l;
    }
  }

  function Remaining(b: Batch): nat {
    if b.over then 0 else (if b.held <= |b.locks| then |b.locks| - b.held else 0) + b.writes + 1
  }

  function TotalRemaining(s: System): nat {
    if s == [] then 0 else Remaining(s[0]) + TotalRemaining(s[1..])
  }

  lemma {:induction false} TotalUpdate(s: System, i: nat, b: Batch)
    requires i < |s|
    ensures TotalRemaining(s[i := b]) == TotalRemaining(s) - Remaining(s[i]) + Remaining(b)
  {
    if i == 0 {
      assert s[i := b][1..] == s[1..];
    } else {
      TotalUpdate(s[1..], i - 1, b);
      assert s[i := b][1..] == s[1..][i - 1 := b];
    }
  }

  /** Every move uses up some of the remaining work. */
  lemma MoveProgress(s: System, i: nat, move: Move)
    requires Sound(s) && Enabled(s, i, move)
    ensures TotalRemaining(Next(s, i, move)) < TotalRemaining(s)
  {
    TotalUpdate(s, i, Next(s, i, move)[i]);
  }

  ghost predicate IsRun(s: System, moves: seq<(nat, Move)>)
    decreases |moves|
  {
    moves == [] || (Enabled(s, moves[0].0, moves[0].1) && IsRun(Next(s, moves[0].0, moves[0].1), moves[1..]))
  }

  ghost function After(s: System, moves: seq<(nat, Move)>): System
    requires IsRun(s, moves)
    decreases |moves|
  {
    if moves == [] then s else After(Next(s, moves[0].0, moves[0].1), moves[1..])
  }

  /** Batches that have just computed their locks and hold none are a sound system to start from. */
  lemma StartSound(s: System)
    requires forall i | 0 <= i < |s| :: StrictlySorted(s[i].locks) && s[i].held == 0
    ensures Sound(s)
  {
  }

  /** Under every interleaving, with any rollbacks, the batches finish: a run is no longer than the work, and stops only when all are over. */
  lemma {:induction false} EveryRunFinishes(s: System, moves: seq<(nat, Move)>)
    requires Sound(s) && IsRun(s, moves)
    ensures |moves| + TotalRemaining(After(s, moves)) <= TotalRemaining(s)
    ensures Sound(After(s, moves))
    ensures (forall j :: !CanProceed(After(s, moves), j)) ==> forall i | 0 <= i < |After(s, moves)| :: After(s, moves)[i].over
    decreases |moves|
  {
    if moves == [] {
      forall i | 0 <= i < |s| && !s[i].over
        ensures exists j :: CanProceed(s, j)
      {
        var j := NeverStuck(s, i);
      }
    } else {
      var i, move := moves[0].0, moves[0].1;
      MoveSound(s, i, move);
      MoveProgress(s, i, move);
      EveryRunFinishes(Next(s, i, move), moves[1..]);
    }
  }

  /** The sorting is what does it: two batches that take the same two locks in opposite orders can block each other for ever. */
  lemma UnsortedCanDeadlock(x: Lock, y: Lock)
    requires x != y
    ensures var s := [Batch([x, y], 1, 0, false), Batch([y, x], 1, 0, false)];
      Exclusive(s) && forall j :: !CanProceed(s, j)
  {
    var a, b := Batch([x, y], 1, 0, false), Batch([y, x], 1, 0, false);
    assert a.locks[..1] == [x] && b.locks[..1] == [y];
    assert Holds(a, x) && Holds(b, y);
    var s := [a, b];
    assert s[0] == a && s[1] == b;
    assert !Free(s, y) && !Free(s, x);
  }
}
