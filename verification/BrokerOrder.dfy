/**
 The order in which waiting jobs are taken: what each step of the broker does to
 the queues, first come first taken per key, and a redelivered job next of all.
 */
module BrokerOrder {
  import opened Prelude
  import opened BrokerJobs
  import opened BrokerTopics
  import opened Broker

  // ----- What a step does to the queues -----

  /** Only the queue of k may differ. */
  ghost predicate OnlyQueue(a: Jobs, b: Jobs, k: ProcessKey) {
    forall other | other != k :: Queue(b, other) == Queue(a, other)
  }

  ghost predicate SameQueues(a: Jobs, b: Jobs) {
    b.all == a.all && forall k :: Queue(b, k) == Queue(a, k)
  }

  /** A new job joins the back of its queue. */
  ghost predicate Appended(a: Jobs, b: Jobs) {
    && |b.all| == |a.all| + 1 && b.all[..|a.all|] == a.all
    && var k := b.all[|a.all|].key; Queue(b, k) == Queue(a, k) + [|a.all|] && OnlyQueue(a, b, k)
  }

  /** The job at the front of a queue leaves it. */
  ghost predicate Took(a: Jobs, b: Jobs, j: JobId) {
    && b.all == a.all && j < |a.all|
    && var k := a.all[j].key; Queue(a, k) == [j] + Queue(b, k) && OnlyQueue(a, b, k)
  }

  /** A job is withdrawn from a queue for good. */
  ghost predicate Withdrew(a: Jobs, b: Jobs, k: ProcessKey, j: JobId) {
    && b.all == a.all && j in Queue(a, k) && j in b.removed
    && Queue(b, k) == Without(Queue(a, k), j) && OnlyQueue(a, b, k)
  }

  /** A job that was in flight is put in front of its queue. */
  ghost predicate Returned(a: Jobs, b: Jobs, j: JobId) {
    && b.all == a.all && j < |a.all| && j in a.inFlight
    && var k := a.all[j].key; Queue(b, k) == [j] + Queue(a, k) && OnlyQueue(a, b, k)
  }

  /** Every step does one of these, and only fetches take and only redeliveries put back. */
  ghost predicate QueueStep(s: State, step: Step) {
    var a, b := s.jobs, Next(s, step).jobs;
    match step
    case Fetch(keys) =>
      if Delivered(s, step).Some? then Took(a, b, Delivered(s, step).value) else SameQueues(a, b)
    case Redeliver(j) => SameQueues(a, b) || Returned(a, b, j)
    case Cancel(_, key, _, _, _) => SameQueues(a, b) || Appended(a, b) || exists j :: Withdrew(a, b, key, j)
    case _ => SameQueues(a, b) || Appended(a, b)
  }

  lemma FetchQueues(s: State, keys: seq<ProcessKey>)
    requires Inv(s)
    ensures QueueStep(s, Fetch(keys))
  {
    FetchPlaced(s, keys);
    ReadyKey(s.jobs, keys);
    if FetchOne(s, keys).1.Some? {
      var k := Ready(s.jobs, keys).value;
      HeadWaits(s.jobs, k);
      assert Queue(s.jobs, k) == [Queue(s.jobs, k)[0]] + Queue(s.jobs, k)[1..];
    }
  }

  /** A fetch takes the job at the front of the first of its keys that has one, and nothing if none has. */
  lemma FetchTakesFront(s: State, keys: seq<ProcessKey>)
    requires Inv(s) && !s.closed
    ensures match Delivered(s, Fetch(keys))
      case None => forall k | k in keys :: Queue(s.jobs, k) == []
      case Some(j) =>
        && j < |s.jobs.all| && j in Next(s, Fetch(keys)).jobs.inFlight
        && Queue(s.jobs, s.jobs.all[j].key) != [] && Queue(s.jobs, s.jobs.all[j].key)[0] == j
        && exists n :: FirstWithJob(s.jobs, keys, n, s.jobs.all[j].key)
  {
    ReadyKey(s.jobs, keys);
    if Ready(s.jobs, keys).Some? {
      HeadWaits(s.jobs, Ready(s.jobs, keys).value);
    }
  }

  lemma CancelQueues(s: State, step: Step)
    requires Inv(s) && step.Cancel?
    ensures QueueStep(s, step)
  {
    QueuedStartFound(s.jobs, Queue(s.jobs, step.key), step.id);
    var found := QueuedStart(s.jobs, Queue(s.jobs, step.key), step.id);
    if !s.closed && step.reg.Some? && found.Some? {
      assert Withdrew(s.jobs, Next(s, step).jobs, step.key, found.value);
    }
  }

  lemma ReportQueues(s: State, step: Step)
    requires step.RunningReported? || step.SuspendedReported? || step.EndReported? || step.Posted?
    ensures QueueStep(s, step)
  {
    assert SameQueues(s.jobs, Next(s, step).jobs);
  }

  lemma ProducerQueues(s: State, step: Step)
    requires step.Submit? || step.Terminate? || step.Respond? || step.ResumeDue?
    ensures QueueStep(s, step)
  {
  }

  lemma StepQueues(s: State, step: Step)
    requires Inv(s)
    ensures QueueStep(s, step)
  {
    if step.RunningReported? || step.SuspendedReported? || step.EndReported? || step.Posted? {
      ReportQueues(s, step);
    } else if step.Submit? || step.Terminate? || step.Respond? || step.ResumeDue? {
      ProducerQueues(s, step);
    } else if step.Fetch? {
      FetchQueues(s, step.keys);
    } else if step.Cancel? {
      CancelQueues(s, step);
    }
  }

  // ----- Ahead in a queue -----

  ghost predicate Before(q: seq<JobId>, a: JobId, b: JobId) {
    exists i, j :: 0 <= i < j < |q| && q[i] == a && q[j] == b
  }

  lemma BeforeIn(q: seq<JobId>, a: JobId, b: JobId, i: int, j: int)
    requires 0 <= i < j < |q| && q[i] == a && q[j] == b
    ensures Before(q, a, b)
  {
  }

  lemma BeforeJoined(p: seq<JobId>, q: seq<JobId>, r: seq<JobId>, a: JobId, b: JobId)
    requires Before(q, a, b)
    ensures Before(p + q + r, a, b)
  {
    var i, j :| 0 <= i < j < |q| && q[i] == a && q[j] == b;
    BeforeIn(p + q + r, a, b, |p| + i, |p| + j);
  }

  /** Taking the front job: it is not the later one, and unless it is the earlier one both stay in order. */
  lemma BeforeTail(x: JobId, q: seq<JobId>, a: JobId, b: JobId)
    requires NoDup([x] + q) && Before([x] + q, a, b)
    ensures x != b && (x == a || Before(q, a, b))
  {
    var s := [x] + q;
    var i, j :| 0 <= i < j < |s| && s[i] == a && s[j] == b;
    assert s[0] == x;
    if x != a {
      BeforeIn(q, a, b, i - 1, j - 1);
    }
  }

  lemma {:induction false} BeforeWithout(q: seq<JobId>, a: JobId, b: JobId, x: JobId)
    requires NoDup(q) && Before(q, a, b) && x != a && x != b
    ensures Before(Without(q, x), a, b)
  {
    assert q == [q[0]] + q[1..];
    BeforeTail(q[0], q[1..], a, b);
    if q[0] == a {
      assert b in q[1..];
      assert NoDup(q[1..]);
      WithoutEffect(q[1..], x);
      var rest := Without(q[1..], x);
      var j :| 0 <= j < |rest| && rest[j] == b;
      BeforeIn([a] + rest, a, b, 0, j + 1);
    } else {
      assert NoDup(q[1..]);
      if q[0] != x {
        BeforeWithout(q[1..], a, b, x);
        BeforeJoined([q[0]], Without(q[1..], x), [], a, b);
        assert [q[0]] + Without(q[1..], x) + [] == Without(q, x);
      }
    }
  }

  // ----- First come, first taken -----

  /** Both wait in the queue of k, a in front of b. */
  ghost predicate Ahead(s: Jobs, k: ProcessKey, a: JobId, b: JobId) {
    Before(Queue(s, k), a, b)
  }

  /** While a waits in front of b, b is not taken; they stay so until a is taken or one of them is withdrawn. */
  lemma StepAhead(s: State, step: Step, k: ProcessKey, a: JobId, b: JobId)
    requires Inv(s) && Ahead(s.jobs, k, a, b)
    ensures Delivered(s, step) != Some(b)
    ensures Ahead(Next(s, step).jobs, k, a, b) || Delivered(s, step) == Some(a)
         || a in Next(s, step).jobs.removed || b in Next(s, step).jobs.removed
  {
    StepQueues(s, step);
    var j0, j1 := s.jobs, Next(s, step).jobs;
    var q := Queue(j0, k);
    assert QueueOk(j0, k);
    InQueue(s, k, a, b);
    if step.Fetch? && Delivered(s, step).Some? {
      var j := Delivered(s, step).value;
      if j0.all[j].key == k {
        BeforeTail(j, Queue(j1, k), a, b);
      } else {
        assert j != b && Queue(j1, k) == q;
      }
    } else if step.Redeliver? && Returned(j0, j1, step.job) {
      if j0.all[step.job].key == k {
        BeforeJoined([step.job], q, [], a, b);
        assert [step.job] + q + [] == Queue(j1, k);
      }
    } else if step.Cancel? && exists j :: Withdrew(j0, j1, step.key, j) {
      var j :| Withdrew(j0, j1, step.key, j);
      if step.key == k && j != a && j != b {
        BeforeWithout(q, a, b, j);
      }
    } else if Appended(j0, j1) {
      BeforeJoined([], q, [|j0.all|], a, b);
      assert [] + q + [|j0.all|] == q + [|j0.all|];
    }
  }

  lemma InQueue(s: State, k: ProcessKey, a: JobId, b: JobId)
    requires Inv(s) && Ahead(s.jobs, k, a, b)
    ensures a != b && a in Queue(s.jobs, k) && b in Queue(s.jobs, k) && b < |s.jobs.all| && s.jobs.all[b].key == k
  {
    assert QueueOk(s.jobs, k);
  }

  ghost predicate Taken(s: State, steps: seq<Step>, j: JobId) {
    exists d :: d in Deliveries(s, steps) && d.0 == j
  }

  /** Whatever happens in between, when the later one is taken the earlier one was taken before it, or withdrawn. */
  lemma {:induction false} TakenInOrder(s: State, steps: seq<Step>, last: Step, k: ProcessKey, a: JobId, b: JobId)
    requires Inv(s) && Ahead(s.jobs, k, a, b) && Delivered(Run(s, steps), last) == Some(b)
    ensures Taken(s, steps, a) || a in Run(s, steps).jobs.removed
    decreases |steps|
  {
    if steps == [] {
      StepAhead(s, last, k, a, b);
      assert false;
    }
    var s1 := Next(s, steps[0]);
    StepAhead(s, steps[0], k, a, b);
    StepInv(s, steps[0]);
    RunKeeps(s1, steps[1..]);
    if Delivered(s, steps[0]) == Some(a) {
      assert (a, steps[0].keys) in Deliveries(s, steps);
    } else if b in s1.jobs.removed {
      NotTakenOnceOut(s1, steps[1..], last, b);
    } else if a !in s1.jobs.removed {
      TakenInOrder(s1, steps[1..], last, k, a, b);
      if Taken(s1, steps[1..], a) {
        var d :| d in Deliveries(s1, steps[1..]) && d.0 == a;
        assert d in Deliveries(s, steps);
      }
    }
  }

  /** A withdrawn job is not the one taken. */
  lemma NotTakenOnceOut(s: State, steps: seq<Step>, last: Step, j: JobId)
    requires Inv(s) && j in s.jobs.removed
    ensures Delivered(Run(s, steps), last) != Some(j)
  {
    RunKeeps(s, steps);
    RunInv(s, steps);
    if last.Fetch? {
      FetchPlaced(Run(s, steps), last.keys);
    }
  }

  /** The jobs waiting with b that were enqueued before it wait in front of it. */
  ghost predicate InTurn(s: Jobs, b: JobId) {
    forall k, a | a < b && a in Queue(s, k) && b in Queue(s, k) :: Before(Queue(s, k), a, b)
  }

  lemma StepInTurn(s: State, step: Step, b: JobId)
    requires Inv(s) && InTurn(s.jobs, b) && step != Redeliver(b)
    ensures InTurn(Next(s, step).jobs, b)
  {
    StepInv(s, step);
    StepQueues(s, step);
    var j0, j1 := s.jobs, Next(s, step).jobs;
    forall k, a | a < b && a in Queue(j1, k) && b in Queue(j1, k)
      ensures Before(Queue(j1, k), a, b)
    {
      assert QueueOk(j0, k) && QueueOk(j1, k);
      if b in Queue(j0, k) && a in Queue(j0, k) {
        StaysBefore(s, step, k, a, b);
      } else {
        NewlyWaiting(s, step, k, a, b);
      }
    }
  }

  lemma StaysBefore(s: State, step: Step, k: ProcessKey, a: JobId, b: JobId)
    requires Inv(s) && Inv(Next(s, step)) && Ahead(s.jobs, k, a, b)
    requires a in Queue(Next(s, step).jobs, k) && b in Queue(Next(s, step).jobs, k)
    ensures Ahead(Next(s, step).jobs, k, a, b)
  {
    var j1 := Next(s, step).jobs;
    StepAhead(s, step, k, a, b);
    InQueue(s, k, a, b);
    assert QueueOk(j1, k) && InOnePlace(j1, a) && InOnePlace(j1, b);
    TakenLeaves(s, step, k, a);
  }

  lemma TakenLeaves(s: State, step: Step, k: ProcessKey, a: JobId)
    requires Inv(s) && a in Queue(s.jobs, k)
    ensures Delivered(s, step) == Some(a) ==> a !in Queue(Next(s, step).jobs, k)
  {
    StepQueues(s, step);
    assert QueueOk(s.jobs, k);
    NoDupConcat([a], Queue(Next(s, step).jobs, k));
    assert a in [a];
  }

  /** One of the two has just joined: the later one at the back, or the earlier one at the front. */
  lemma NewlyWaiting(s: State, step: Step, k: ProcessKey, a: JobId, b: JobId)
    requires Inv(s) && Inv(Next(s, step)) && a < b && step != Redeliver(b)
    requires a in Queue(Next(s, step).jobs, k) && b in Queue(Next(s, step).jobs, k)
    requires !(a in Queue(s.jobs, k) && b in Queue(s.jobs, k))
    ensures Ahead(Next(s, step).jobs, k, a, b)
  {
    StepQueues(s, step);
    var j0, j1 := s.jobs, Next(s, step).jobs;
    assert QueueOk(j0, k) && QueueOk(j1, k);
    var q := Queue(j1, k);
    if Appended(j0, j1) && j1.all[|j0.all|].key == k {
      var i :| 0 <= i < |q| && q[i] == a;
      BeforeIn(q, a, b, i, |q| - 1);
    } else if step.Redeliver? && Returned(j0, j1, step.job) && j0.all[step.job].key == k {
      var j :| 0 <= j < |q| && q[j] == b;
      BeforeIn(q, a, b, 0, j);
    } else if step.Cancel? && exists j :: Withdrew(j0, j1, step.key, j) {
      var j :| Withdrew(j0, j1, step.key, j);
      assert QueueOk(j0, step.key);
      WithoutEffect(Queue(j0, step.key), j);
      assert false;
    } else {
      assert false;
    }
  }

  lemma {:induction false} RunInTurn(s: State, steps: seq<Step>, b: JobId)
    requires Inv(s) && InTurn(s.jobs, b) && Redeliver(b) !in steps
    ensures InTurn(Run(s, steps).jobs, b)
    decreases |steps|
  {
    if steps != [] {
      StepInTurn(s, steps[0], b);
      StepInv(s, steps[0]);
      RunInTurn(Next(s, steps[0]), steps[1..], b);
    }
  }

  /**
   First come, first taken, over whole runs: of two jobs waiting together under one
   key, the one enqueued first is taken first, or withdrawn, unless the later one
   had been redelivered.
   */
  lemma FirstComeFirstTaken(steps: seq<Step>, k: ProcessKey, a: JobId, b: JobId, more: seq<Step>, last: Step)
    requires var s := Run(INITIAL, steps); a < b && a in Queue(s.jobs, k) && b in Queue(s.jobs, k)
    requires Redeliver(b) !in steps
    requires Delivered(Run(Run(INITIAL, steps), more), last) == Some(b)
    ensures Taken(Run(INITIAL, steps), more, a) || a in Run(Run(INITIAL, steps), more).jobs.removed
  {
    ReachableInv(steps);
    RunInTurn(INITIAL, steps, b);
    TakenInOrder(Run(INITIAL, steps), more, last, k, a, b);
  }

  // ----- Redelivery -----

  /**
   A redelivered job is the next one of its key: the fetch that asks for the key
   takes it, and all queues are then as they were before the redelivery.
   */
  lemma RedeliveredIsNext(s: State, j: JobId)
    requires Inv(s) && !s.closed && j in s.jobs.inFlight
    ensures j < |s.jobs.all| && j !in s.jobs.settled
    ensures var k := s.jobs.all[j].key;
      var s1 := Next(s, Redeliver(j));
      var s2 := Next(s1, Fetch([k]));
      && j !in s1.jobs.inFlight
      && Delivered(s1, Fetch([k])) == Some(j) && j in s2.jobs.inFlight
      && forall other :: Queue(s2.jobs, other) == Queue(s.jobs, other)
  {
    assert InOnePlace(s.jobs, j);
    var k := s.jobs.all[j].key;
    var s1 := Next(s, Redeliver(j));
    StepInv(s, Redeliver(j));
    assert Queue(s1.jobs, k) == [j] + Queue(s.jobs, k);
    assert Ready(s1.jobs, [k]) == Some(k);
    assert Queue(s1.jobs, k)[1..] == Queue(s.jobs, k);
  }

  /** And it is in front of everything else that waits under its key. */
  lemma RedeliveredLeads(s: State, j: JobId, other: JobId)
    requires Inv(s) && !s.closed && j in s.jobs.inFlight && j < |s.jobs.all| && other in Queue(s.jobs, s.jobs.all[j].key)
    ensures Ahead(Next(s, Redeliver(j)).jobs, s.jobs.all[j].key, j, other)
  {
    assert InOnePlace(s.jobs, j);
    var q := Queue(s.jobs, s.jobs.all[j].key);
    var i :| 0 <= i < |q| && q[i] == other;
    BeforeIn([j] + q, j, other, 0, i + 1);
  }
}
