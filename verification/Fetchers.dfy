/**
 The fetchers of the in-memory broker (FetchJobs in
 core/in_memory_message_broker.go). A fetcher takes a job under the broker's lock,
 lets go of the lock, and only then hands the job to its worker, or gives it back,
 or stops. Other steps can come in between, so what holds of a job when it is taken
 need not hold when it is handed over; this module says exactly when it does.
 */
module Fetchers {
  import opened Prelude
  import opened Subscriber
  import opened BrokerJobs
  import opened BrokerTopics
  import opened Broker

  /**
   A job in a fetcher's hand. `taken` and `since` are history: the broker when the
   job was taken, and the broker's steps from the take on.
   */
  datatype Carried = Carried(job: JobId, keys: seq<ProcessKey>, taken: State, since: seq<Broker.Step>)

  datatype System = System(broker: State, hands: map<nat, Carried>)

  const START := System(INITIAL, map[])

  datatype Move =
    | Other(step: Broker.Step)
    | Take(fetcher: nat, keys: seq<ProcessKey>)
    | HandOver(fetcher: nat)
    | GiveBack(fetcher: nat)
    | Stop(fetcher: nat)

  function Aged(hands: map<nat, Carried>, step: Broker.Step): map<nat, Carried> {
    map f | f in hands :: hands[f].(since := hands[f].since + [step])
  }

  function AfterStep(s: System, step: Broker.Step): System {
    System(Broker.Next(s.broker, step), Aged(s.hands, step))
  }

  function NextMove(s: System, move: Move): System {
    match move
    case Other(step) => AfterStep(s, step)
    case Take(f, keys) =>
      if f in s.hands then s
      else
        var s', job := AfterStep(s, Fetch(keys)), FetchOne(s.broker, keys).1;
        if job.None? then s' else s'.(hands := s'.hands[f := Carried(job.value, keys, s.broker, [Fetch(keys)])])
    case HandOver(f) => s.(hands := s.hands - {f})
    case GiveBack(f) =>
      if f in s.hands then AfterStep(s.(hands := s.hands - {f}), Redeliver(s.hands[f].job)) else s
    case Stop(f) => s.(hands := s.hands - {f})
  }

  function RunMoves(s: System, moves: seq<Move>): System
    decreases |moves|
  {
    if moves == [] then s else RunMoves(NextMove(s, moves[0]), moves[1..])
  }

  // ----- What a hand holds -----

  /** The job came from a take in a state that keeps the broker's invariant, and the broker has gone on from there. */
  ghost predicate HandOk(broker: State, c: Carried) {
    && Inv(c.taken) && FetchOne(c.taken, c.keys).1 == Some(c.job)
    && c.since != [] && c.since[0] == Fetch(c.keys)
    && Broker.Run(c.taken, c.since) == broker
  }

  ghost predicate SystemOk(s: System) {
    Inv(s.broker) && forall f | f in s.hands :: HandOk(s.broker, s.hands[f])
  }

  lemma {:induction false} RunMore(s: State, steps: seq<Broker.Step>, step: Broker.Step)
    ensures Broker.Run(s, steps + [step]) == Broker.Next(Broker.Run(s, steps), step)
    decreases |steps|
  {
    if steps == [] {
      assert [step][1..] == [];
      assert steps + [step] == [step];
    } else {
      RunMore(Broker.Next(s, steps[0]), steps[1..], step);
      assert (steps + [step])[1..] == steps[1..] + [step];
    }
  }

  lemma AfterStepOk(s: System, step: Broker.Step)
    requires SystemOk(s)
    ensures SystemOk(AfterStep(s, step))
  {
    StepInv(s.broker, step);
    forall f | f in s.hands ensures HandOk(AfterStep(s, step).broker, AfterStep(s, step).hands[f]) {
      RunMore(s.hands[f].taken, s.hands[f].since, step);
    }
  }

  lemma TakenOk(broker: State, keys: seq<ProcessKey>)
    requires Inv(broker) && FetchOne(broker, keys).1.Some?
    ensures HandOk(Broker.Next(broker, Fetch(keys)), Carried(FetchOne(broker, keys).1.value, keys, broker, [Fetch(keys)]))
  {
    RunMore(broker, [], Fetch(keys));
    assert [] + [Fetch(keys)] == [Fetch(keys)];
  }

  lemma MoveOk(s: System, move: Move)
    requires SystemOk(s)
    ensures SystemOk(NextMove(s, move))
  {
    match move
    case Other(step) => AfterStepOk(s, step);
    case Take(f, keys) =>
      if f !in s.hands {
        AfterStepOk(s, Fetch(keys));
        if FetchOne(s.broker, keys).1.Some? {
          TakenOk(s.broker, keys);
        }
      }
    case HandOver(_) =>
    case GiveBack(f) =>
      if f in s.hands {
        var without := s.(hands := s.hands - {f});
        assert SystemOk(without);
        AfterStepOk(without, Redeliver(s.hands[f].job));
      }
    case Stop(_) =>
  }

  lemma {:induction false} MovesOk(s: System, moves: seq<Move>)
    requires SystemOk(s)
    ensures SystemOk(RunMoves(s, moves))
    decreases |moves|
  {
    if moves != [] {
      MoveOk(s, moves[0]);
      MovesOk(NextMove(s, moves[0]), moves[1..]);
    }
  }

  // ----- What puts a job out -----

  /** The instance whose in-flight jobs the step settles, if it settles any. */
  function Settles(s: State, step: Broker.Step): Option<InstanceId> {
    match step
    case SuspendedReported(id, _, _) => if ReportError(s, id).None? then Some(id) else None
    case EndReported(id, _, _, _) => if ReportError(s, id).None? then Some(id) else None
    case Cancel(reg, key, id, _, _) =>
      if !s.closed && reg.Some? && QueuedStart(s.jobs, Queue(s.jobs, key), id).Some? then Some(id) else None
    case _ => None
  }

  /** The queued start job the step withdraws, if it withdraws one. */
  function Withdraws(s: State, step: Broker.Step): Option<JobId> {
    if step.Cancel? && !s.closed && step.reg.Some? then QueuedStart(s.jobs, Queue(s.jobs, step.key), step.id) else None
  }

  /** The step settles the job, which is in flight for an instance that is reported suspended or ended, or withdraws it. */
  predicate Ends(s: State, step: Broker.Step, j: JobId) {
    (Settles(s, step).Some? && j in Held(s.jobs, Settles(s, step).value)) || Withdraws(s, step) == Some(j)
  }

  lemma CancelEndsIff(s: State, step: Broker.Step, j: JobId)
    requires step.Cancel?
    ensures Out(Broker.Next(s, step), j) <==> Out(s, j) || Ends(s, step, j)
  {
  }

  lemma ReportEndsIff(s: State, step: Broker.Step, j: JobId)
    requires step.SuspendedReported? || step.EndReported?
    ensures Out(Broker.Next(s, step), j) <==> Out(s, j) || Ends(s, step, j)
  {
  }

  /** The remaining steps leave settled and withdrawn jobs alone. */
  lemma OthersEndNothing(s: State, step: Broker.Step)
    requires !step.SuspendedReported? && !step.EndReported? && !step.Cancel? && !step.Fetch?
    ensures Broker.Next(s, step).jobs.settled == s.jobs.settled && Broker.Next(s, step).jobs.removed == s.jobs.removed
  {
  }

  lemma StepEndsIff(s: State, step: Broker.Step, j: JobId)
    requires Inv(s)
    ensures Out(Broker.Next(s, step), j) <==> Out(s, j) || Ends(s, step, j)
  {
    if step.Fetch? {
      FetchPlaced(s, step.keys);
    } else if step.Cancel? {
      CancelEndsIff(s, step, j);
    } else if step.SuspendedReported? || step.EndReported? {
      ReportEndsIff(s, step, j);
    } else {
      OthersEndNothing(s, step);
    }
  }

  lemma {:induction false} RunEndsIff(s: State, steps: seq<Broker.Step>, j: JobId)
    requires Inv(s)
    ensures Out(Broker.Run(s, steps), j) <==> Out(s, j) || exists k :: EndsAtStep(s, steps, k, j)
    decreases |steps|
  {
    if steps != [] {
      var n := |steps| - 1;
      var init := steps[..n];
      assert steps == init + [steps[n]];
      RunEndsIff(s, init, j);
      RunInv(s, init);
      RunMore(s, init, steps[n]);
      StepEndsIff(Broker.Run(s, init), steps[n], j);
      EarlierEnds(s, steps, j);
    }
  }

  ghost predicate EndsAtStep(s: State, steps: seq<Broker.Step>, k: int, j: JobId) {
    0 <= k < |steps| && Ends(Broker.Run(s, steps[..k]), steps[k], j)
  }

  lemma EarlierEnds(s: State, steps: seq<Broker.Step>, j: JobId)
    requires steps != []
    ensures var n := |steps| - 1;
      (exists k :: EndsAtStep(s, steps, k, j)) <==> (exists k :: EndsAtStep(s, steps[..n], k, j)) || Ends(Broker.Run(s, steps[..n]), steps[n], j)
  {
    var n := |steps| - 1;
    forall k | 0 <= k < n ensures EndsAtStep(s, steps, k, j) <==> EndsAtStep(s, steps[..n], k, j) {
      assert steps[..n][..k] == steps[..k];
    }
    assert EndsAtStep(s, steps, n, j) <==> Ends(Broker.Run(s, steps[..n]), steps[n], j);
  }

  /**
   The hand-over theorem. Whatever a fetcher is about to hand over, at any point of
   any run: when it was taken it was waiting in the queue of a key the fetcher asked
   for, neither settled nor withdrawn; and it is settled or withdrawn now exactly
   when one of the steps since then settled its instance's in-flight jobs or
   withdrew it.
   */
  lemma HandedOver(moves: seq<Move>, f: nat)
    requires f in RunMoves(START, moves).hands
    ensures var s := RunMoves(START, moves);
      var c := s.hands[f];
      && c.job < |c.taken.jobs.all| && c.taken.jobs.all[c.job].key in c.keys
      && c.job in Queue(c.taken.jobs, c.taken.jobs.all[c.job].key) && !Out(c.taken, c.job)
      && (Out(s.broker, c.job) <==> exists k :: EndsAtStep(c.taken, c.since, k, c.job))
  {
    ReachableInv([]);
    MovesOk(START, moves);
    var c := RunMoves(START, moves).hands[f];
    FetchPlaced(c.taken, c.keys);
    RunEndsIff(c.taken, c.since, c.job);
  }

  lemma TakenInFlight(s: State, keys: seq<ProcessKey>, j: JobId)
    requires Inv(s) && FetchOne(s, keys).1 == Some(j)
    ensures var jobs := Broker.Next(s, Fetch(keys)).jobs;
      j < |s.jobs.all| && jobs.all == s.jobs.all && j in Held(jobs, s.jobs.all[j].inst)
    ensures !s.closed && Broker.Next(s, Fetch(keys)).closed == s.closed
  {
    ReadyKey(s.jobs, keys);
    FetchPlaced(s, keys);
    var jobs := Broker.Next(s, Fetch(keys)).jobs;
    assert Indexes(jobs, s.jobs.all[j].inst);
  }

  /** Settled between take and hand-over: an end reported for the instance leaves the job in the hand, settled. */
  lemma SettledInHand(moves: seq<Move>, f: nat, keys: seq<ProcessKey>, j: JobId, i: InstanceId, end: Ending)
    requires var s := RunMoves(START, moves);
      && f !in s.hands && FetchOne(s.broker, keys).1 == Some(j)
      && j < |s.broker.jobs.all| && s.broker.jobs.all[j].inst == i && i.name != ""
    ensures var s := NextMove(NextMove(RunMoves(START, moves), Take(f, keys)), Other(EndReported(i, end, map[], map[])));
      f in s.hands && s.hands[f].job == j && j in s.broker.jobs.settled
  {
    ReachableInv([]);
    MovesOk(START, moves);
    var s := RunMoves(START, moves);
    TakenInFlight(s.broker, keys, j);
    EndSettles(Broker.Next(s.broker, Fetch(keys)), i, end, j);
  }

  lemma EndSettles(s: State, i: InstanceId, end: Ending, j: JobId)
    requires !s.closed && i.name != "" && j in Held(s.jobs, i)
    ensures j in Broker.Next(s, EndReported(i, end, map[], map[])).jobs.settled
  {
  }
}
