/**
 The job queue of the in-memory broker (core/in_memory_message_broker.go): per-key
 pending queues, the set of delivered-but-unsettled jobs, and a per-instance
 index over that set. Jobs are Go pointers; here a job is the number under which
 it was enqueued.
 */
module BrokerJobs {
  import opened Prelude

  datatype ProcessKey = ProcessKey(namespace: string, processId: string, version: string)
  datatype InstanceId = InstanceId(name: string)

  datatype JobKind = StartJob | RespondJob | CancelJob | TerminateJob | ResumeJob
  datatype Job = Job(kind: JobKind, key: ProcessKey, inst: InstanceId)

  type JobId = nat

  /**
   `queues`, `inFlight` and `byInst` are the broker's maps; `settled` is the flag
   on the job. `all` (every job ever enqueued) and `removed` (those a cancel took
   out of a queue) are history.
   */
  datatype Jobs = Jobs(
    all: seq<Job>,
    queues: map<ProcessKey, seq<JobId>>,
    inFlight: set<JobId>,
    byInst: map<InstanceId, seq<JobId>>,
    settled: set<JobId>,
    removed: set<JobId>)

  const NO_JOBS := Jobs([], map[], {}, map[], {}, {})

  function Queue(s: Jobs, k: ProcessKey): seq<JobId> {
    if k in s.queues then s.queues[k] else []
  }

  function Held(s: Jobs, i: InstanceId): seq<JobId> {
    if i in s.byInst then s.byInst[i] else []
  }

  // ----- The operations -----

  function Enqueue(s: Jobs, job: Job): Jobs {
    s.(all := s.all + [job], queues := s.queues[job.key := Queue(s, job.key) + [|s.all|]])
  }

  /** Deliver the head of one queue: it becomes in flight and is indexed under its instance. */
  function Deliver(s: Jobs, k: ProcessKey): Jobs
    requires Queue(s, k) != [] && Queue(s, k)[0] < |s.all|
  {
    var j := Queue(s, k)[0];
    var i := s.all[j].inst;
    s.(queues := s.queues[k := Queue(s, k)[1..]],
       settled := s.settled - {j},
       inFlight := s.inFlight + {j},
       byInst := s.byInst[i := Held(s, i) + [j]])
  }

  /** The first of the keys that has a pending job. */
  function Ready(s: Jobs, keys: seq<ProcessKey>): Option<ProcessKey> {
    if keys == [] then None
    else if Queue(s, keys[0]) != [] then Some(keys[0])
    else Ready(s, keys[1..])
  }

  function Without(q: seq<JobId>, j: JobId): seq<JobId> {
    if q == [] then [] else if q[0] == j then q[1..] else [q[0]] + Without(q[1..], j)
  }

  /** Take a job out of the in-flight set and its index, leaving no empty index entry. */
  function Release(s: Jobs, j: JobId): Jobs
    requires j < |s.all|
  {
    var i := s.all[j].inst;
    var rest := Without(Held(s, i), j);
    s.(inFlight := s.inFlight - {j},
       byInst := if rest == [] then s.byInst - {i} else s.byInst[i := rest])
  }

  /** A redelivery: an unsettled in-flight job goes back to the front of its queue. */
  function Requeue(s: Jobs, j: JobId): Jobs {
    if j >= |s.all| || j in s.settled || j !in s.inFlight then s
    else
      var r, k := Release(s, j), s.all[j].key;
      r.(queues := r.queues[k := [j] + Queue(r, k)])
  }

  function Settle(s: Jobs, i: InstanceId): Jobs {
    s.(settled := s.settled + Elems(Held(s, i)), inFlight := s.inFlight - Elems(Held(s, i)), byInst := s.byInst - {i})
  }

  predicate IsStartOf(s: Jobs, j: JobId, i: InstanceId) {
    j < |s.all| && s.all[j].kind == StartJob && s.all[j].inst == i
  }

  /** The queued start job of an instance, if it is still waiting. */
  function QueuedStart(s: Jobs, q: seq<JobId>, i: InstanceId): Option<JobId> {
    if q == [] then None else if IsStartOf(s, q[0], i) then Some(q[0]) else QueuedStart(s, q[1..], i)
  }

  function Withdraw(s: Jobs, k: ProcessKey, j: JobId): Jobs {
    s.(queues := s.queues[k := Without(Queue(s, k), j)], removed := s.removed + {j})
  }

  // ----- Where every job is -----

  function Count(b: bool): nat {
    if b then 1 else 0
  }

  ghost predicate InOnePlace(s: Jobs, j: JobId)
    requires j < |s.all|
  {
    Count(j in Queue(s, s.all[j].key)) + Count(j in s.inFlight) + Count(j in s.settled) + Count(j in s.removed) == 1
  }

  /** A queue holds each of its jobs once, and only jobs routed to its key. */
  ghost predicate QueueOk(s: Jobs, k: ProcessKey) {
    NoDup(Queue(s, k)) && forall j | j in Queue(s, k) :: j < |s.all| && s.all[j].key == k
  }

  /** The index lists exactly the in-flight jobs of each instance, each once, and has no empty entries. */
  ghost predicate IndexOk(s: Jobs) {
    && (forall i | i in s.byInst :: s.byInst[i] != [])
    && forall i :: Indexes(s, i)
  }

  ghost predicate Indexes(s: Jobs, i: InstanceId) {
    && NoDup(Held(s, i))
    && forall j :: j in Held(s, i) <==> j in s.inFlight && j < |s.all| && s.all[j].inst == i
  }

  ghost predicate Known(s: Jobs) {
    forall j | j in s.inFlight || j in s.settled || j in s.removed :: j < |s.all|
  }

  /** Each job ever enqueued is in exactly one of four places, and the maps are consistent about which. */
  ghost predicate Placed(s: Jobs) {
    && Known(s)
    && (forall j | 0 <= j < |s.all| :: InOnePlace(s, j))
    && (forall k :: QueueOk(s, k))
    && IndexOk(s)
  }

  lemma {:induction false} WithoutEffect(q: seq<JobId>, j: JobId)
    requires NoDup(q)
    ensures NoDup(Without(q, j))
    ensures forall x :: x in Without(q, j) <==> x in q && x != j
  {
    if q != [] && q[0] != j {
      WithoutEffect(q[1..], j);
      NoDupConcat([q[0]], q[1..]);
      assert [q[0]] + q[1..] == q;
      NoDupConcat([q[0]], Without(q[1..], j));
    } else if q != [] {
      NoDupConcat([q[0]], q[1..]);
      assert [q[0]] + q[1..] == q;
    }
  }

  lemma EnqueuePlaced(s: Jobs, job: Job)
    requires Placed(s)
    ensures Placed(Enqueue(s, job))
  {
    var s' := Enqueue(s, job);
    assert QueueOk(s, job.key);
    NoDupConcat(Queue(s, job.key), [|s.all|]);
    forall j | 0 <= j < |s'.all|
      ensures InOnePlace(s', j)
    {
      assert j < |s.all| ==> InOnePlace(s, j);
    }
    forall k
      ensures QueueOk(s', k)
    {
      assert QueueOk(s, k);
    }
    forall i
      ensures Indexes(s', i)
    {
      assert Indexes(s, i);
    }
  }

  lemma HeadWaits(s: Jobs, k: ProcessKey)
    requires Placed(s) && Queue(s, k) != []
    ensures var j := Queue(s, k)[0];
      j < |s.all| && s.all[j].key == k && j !in s.inFlight && j !in s.settled && j !in s.removed && j !in Queue(s, k)[1..]
  {
    var q := Queue(s, k);
    assert QueueOk(s, k) && q[0] in q;
    assert InOnePlace(s, q[0]);
    assert [q[0]] + q[1..] == q;
    NoDupConcat([q[0]], q[1..]);
  }

  lemma DeliverPlaced(s: Jobs, k: ProcessKey)
    requires Placed(s) && Queue(s, k) != [] && Queue(s, k)[0] < |s.all|
    ensures Placed(Deliver(s, k)) && Deliver(s, k).settled == s.settled
  {
    var q := Queue(s, k);
    var j := q[0];
    var s', own := Deliver(s, k), s.all[j].inst;
    HeadWaits(s, k);
    assert Indexes(s, own);
    NoDupConcat(Held(s, own), [j]);
    forall x | 0 <= x < |s'.all|
      ensures InOnePlace(s', x)
    {
      assert InOnePlace(s, x);
      assert x in q <==> x == j || x in q[1..];
    }
    forall x
      ensures QueueOk(s', x)
    {
      assert QueueOk(s, x);
    }
    forall i
      ensures Indexes(s', i)
    {
      assert Indexes(s, i);
    }
  }

  lemma ReleaseIndex(s: Jobs, j: JobId)
    requires Placed(s) && j in s.inFlight
    ensures j < |s.all| && IndexOk(Release(s, j))
  {
    var s', own := Release(s, j), s.all[j].inst;
    assert Indexes(s, own);
    WithoutEffect(Held(s, own), j);
    forall i
      ensures Indexes(s', i)
    {
      assert Indexes(s, i);
    }
  }

  lemma RequeuePlaced(s: Jobs, j: JobId)
    requires Placed(s)
    ensures Placed(Requeue(s, j))
  {
    if j < |s.all| && j !in s.settled && j in s.inFlight {
      var s', own := Requeue(s, j), s.all[j].key;
      ReleaseIndex(s, j);
      assert InOnePlace(s, j) && QueueOk(s, own);
      NoDupConcat([j], Queue(s, own));
      forall x | 0 <= x < |s'.all|
        ensures InOnePlace(s', x)
      {
        assert InOnePlace(s, x);
      }
      forall k
        ensures QueueOk(s', k)
      {
        assert QueueOk(s, k);
      }
      forall i
        ensures Indexes(s', i)
      {
        assert Indexes(Release(s, j), i);
      }
    }
  }

  lemma SettlePlaced(s: Jobs, own: InstanceId)
    requires Placed(s)
    ensures Placed(Settle(s, own))
  {
    var s' := Settle(s, own);
    assert Indexes(s, own);
    forall j | 0 <= j < |s'.all|
      ensures InOnePlace(s', j)
    {
      assert InOnePlace(s, j);
    }
    forall k
      ensures QueueOk(s', k)
    {
      assert QueueOk(s, k);
    }
    forall i
      ensures Indexes(s', i)
    {
      assert Indexes(s, i);
    }
  }

  lemma {:induction false} QueuedStartFound(s: Jobs, q: seq<JobId>, i: InstanceId)
    ensures match QueuedStart(s, q, i)
      case Some(j) => j in q && IsStartOf(s, j, i)
      case None => forall j | j in q :: !IsStartOf(s, j, i)
  {
    if q != [] {
      QueuedStartFound(s, q[1..], i);
    }
  }

  lemma WithdrawPlaced(s: Jobs, own: ProcessKey, j: JobId)
    requires Placed(s) && j in Queue(s, own)
    ensures Placed(Withdraw(s, own, j))
  {
    var s' := Withdraw(s, own, j);
    assert QueueOk(s, own);
    assert InOnePlace(s, j);
    WithoutEffect(Queue(s, own), j);
    forall x | 0 <= x < |s'.all|
      ensures InOnePlace(s', x)
    {
      assert InOnePlace(s, x);
    }
    forall k
      ensures QueueOk(s', k)
    {
      assert QueueOk(s, k);
    }
    forall i
      ensures Indexes(s', i)
    {
      assert Indexes(s, i);
    }
  }
}
