/**
 The in-memory broker as a step machine (core/in_memory_message_broker.go). Every
 verb, timer callback and sweep tick runs under one mutex, so a run is any
 sequence of the steps below; clocks, timers and consumers decide when. What a
 step depends on but does not own (the live registration found for a key, the
 outcome of contract validation and of the envelope round trip, which records
 have outlived their retention) is a parameter of the step.
 */
module Broker {
  import opened Prelude
  import opened Subscriber
  import opened BrokerJobs
  import opened BrokerTopics

  datatype State = State(closed: bool, jobs: Jobs, topics: Topics, timers: set<InstanceId>)

  const INITIAL := State(false, NO_JOBS, NO_TOPICS, {})

  datatype Registration = Registration(startIds: set<string>, allowCancel: bool, allowTerminate: bool)

  datatype BrokerError =
    BrokerClosed | UnknownProcess | UnknownStartId | InvalidInput | CancelNotAllowed | TerminateNotAllowed | WireError

  datatype Reply = Accepted | Refused(error: BrokerError)

  datatype Reaction = Reaction(state: State, reply: Reply)

  function Refuse(s: State, e: BrokerError): Reaction {
    Reaction(s, Refused(e))
  }

  /** Queue a job unless its envelope cannot be encoded. */
  function EnqueueJob(s: State, job: Job, wireOk: bool): Reaction {
    if wireOk then Reaction(s.(jobs := Enqueue(s.jobs, job)), Accepted) else Refuse(s, WireError)
  }

  // ----- Producer verbs -----

  function SubmitStart(s: State, reg: Option<Registration>, key: ProcessKey, startId: string, inputOk: bool, id: InstanceId, wireOk: bool): Reaction {
    if s.closed then Refuse(s, BrokerClosed)
    else if reg.None? then Refuse(s, UnknownProcess)
    else if startId !in reg.value.startIds then Refuse(s, UnknownStartId)
    else if !inputOk then Refuse(s, InvalidInput)
    else
      var added := s.topics.insts[id := NewRecord(key)];
      if !wireOk then Refuse(s.(topics := s.topics.(insts := added - {id})), WireError)
      else
        var t := Publish(s.topics.(insts := added), id, Lifecycle(Pending), map[]);
        Reaction(s.(jobs := Enqueue(s.jobs, Job(StartJob, key, id)), topics := t), Accepted)
  }

  /** Settle what is in flight, stop the timer, publish the end. */
  function FinishInstance(s: State, id: InstanceId, end: Ending, before: Reads, between: Reads): State {
    s.(jobs := Settle(s.jobs, id), timers := s.timers - {id}, topics := Finish(s.topics, id, end, before, between))
  }

  function CancelInstance(s: State, reg: Option<Registration>, key: ProcessKey, id: InstanceId, wireOk: bool, taken: Reads): Reaction {
    if s.closed then Refuse(s, BrokerClosed)
    else if reg.None? then Refuse(s, UnknownProcess)
    else
      match QueuedStart(s.jobs, Queue(s.jobs, key), id)
      case Some(j) =>
        Reaction(FinishInstance(s.(jobs := Withdraw(s.jobs, key, j)), id, Cancels, taken, map[]), Accepted)
      case None =>
        if !reg.value.allowCancel then Refuse(s, CancelNotAllowed)
        else EnqueueJob(s, Job(CancelJob, key, id), wireOk)
  }

  function TerminateInstance(s: State, reg: Option<Registration>, key: ProcessKey, id: InstanceId, wireOk: bool): Reaction {
    if s.closed then Refuse(s, BrokerClosed)
    else if reg.None? then Refuse(s, UnknownProcess)
    else if !reg.value.allowTerminate then Refuse(s, TerminateNotAllowed)
    else EnqueueJob(s, Job(TerminateJob, key, id), wireOk)
  }

  /** A response for an unknown or finished instance surfaces as an error on its topic. */
  function RespondToInput(s: State, id: InstanceId, wireOk: bool, taken: Reads): Reaction {
    if s.closed then Refuse(s, BrokerClosed)
    else if id !in s.topics.insts || s.topics.insts[id].finished then
      var code := if id in s.topics.insts then "ALREADY_FINISHED" else "INSTANCE_NOT_FOUND";
      Reaction(s.(topics := Publish(s.topics, id, Error(code), taken)), Accepted)
    else EnqueueJob(s, Job(RespondJob, s.topics.insts[id].key, id), wireOk)
  }

  // ----- Worker verbs -----

  function FetchOne(s: State, keys: seq<ProcessKey>): (State, Option<JobId>) {
    match Ready(s.jobs, keys)
    case None => (s, None)
    case Some(k) =>
      if s.closed || Queue(s.jobs, k) == [] || Queue(s.jobs, k)[0] >= |s.jobs.all| then (s, None)
      else (s.(jobs := Deliver(s.jobs, k)), Some(Queue(s.jobs, k)[0]))
  }

  function Redelivered(s: State, j: JobId): State {
    if s.closed then s else s.(jobs := Requeue(s.jobs, j))
  }

  /** The checks shared by every report and post. */
  function ReportError(s: State, id: InstanceId): Option<BrokerError> {
    if id.name == "" then Some(UnknownProcess) else if s.closed then Some(BrokerClosed) else None
  }

  function Report(s: State, id: InstanceId, e: Event, taken: Reads): Reaction {
    if ReportError(s, id).Some? then Refuse(s, ReportError(s, id).value)
    else Reaction(s.(topics := Publish(s.topics, id, e, taken)), Accepted)
  }

  function ReportSuspension(s: State, id: InstanceId, resumes: bool, taken: Reads): Reaction {
    var r := Report(s, id, Lifecycle(Suspended), taken);
    if r.reply.Refused? then r
    else
      r.(state := r.state.(jobs := Settle(s.jobs, id), timers := if resumes then s.timers + {id} else s.timers))
  }

  function ReportEnd(s: State, id: InstanceId, end: Ending, before: Reads, between: Reads): Reaction {
    if ReportError(s, id).Some? then Refuse(s, ReportError(s, id).value)
    else Reaction(FinishInstance(s, id, end, before, between), Accepted)
  }

  /** A resume timer fires: the instance gets a resume job if it is still known and unfinished. */
  function ResumeInstance(s: State, id: InstanceId, wireOk: bool): State {
    var s' := s.(timers := s.timers - {id});
    if s.closed || id !in s.topics.insts || s.topics.insts[id].finished || !wireOk then s'
    else s'.(jobs := Enqueue(s.jobs, Job(ResumeJob, s.topics.insts[id].key, id)))
  }

  function CloseBroker(s: State): State {
    if s.closed then s else s.(closed := true, timers := {}, topics := ShutDown(s.topics))
  }

  // ----- Runs -----

  datatype Note = ErrorNote(code: string) | RequestNote(request: string) | NodeNote(node: string) {
    function ToEvent(): Event {
      match this
      case ErrorNote(c) => Error(c)
      case RequestNote(r) => InputRequest(r)
      case NodeNote(n) => NodeCompleted(n)
    }
  }

  datatype Step =
    | Submit(reg: Option<Registration>, key: ProcessKey, startId: string, inputOk: bool, id: InstanceId, wireOk: bool)
    | Cancel(reg: Option<Registration>, key: ProcessKey, id: InstanceId, wireOk: bool, taken: Reads)
    | Terminate(reg: Option<Registration>, key: ProcessKey, id: InstanceId, wireOk: bool)
    | Respond(id: InstanceId, wireOk: bool, taken: Reads)
    | SubscribeTo(id: InstanceId, size: int)
    | Leave(id: InstanceId, sub: SubId)
    | Read(id: InstanceId, sub: SubId, count: nat)
    | Fetch(keys: seq<ProcessKey>)
    | Redeliver(job: JobId)
    | RunningReported(id: InstanceId, taken: Reads)
    | SuspendedReported(id: InstanceId, resumes: bool, taken: Reads)
    | EndReported(id: InstanceId, end: Ending, taken: Reads, between: Reads)
    | Posted(id: InstanceId, note: Note, taken: Reads)
    | ResumeDue(id: InstanceId, wireOk: bool)
    | SweepTick(expired: set<InstanceId>)
    | Shutdown

  function Next(s: State, step: Step): State {
    match step
    case Submit(reg, key, startId, inputOk, id, wireOk) => SubmitStart(s, reg, key, startId, inputOk, id, wireOk).state
    case Cancel(reg, key, id, wireOk, taken) => CancelInstance(s, reg, key, id, wireOk, taken).state
    case Terminate(reg, key, id, wireOk) => TerminateInstance(s, reg, key, id, wireOk).state
    case Respond(id, wireOk, taken) => RespondToInput(s, id, wireOk, taken).state
    case SubscribeTo(id, size) => if s.closed then s else s.(topics := Subscribe(s.topics, id, size))
    case Leave(id, sub) => s.(topics := Unsubscribe(s.topics, id, sub))
    case Read(id, sub, n) => s.(topics := ReadSome(s.topics, id, sub, n))
    case Fetch(keys) => FetchOne(s, keys).0
    case Redeliver(j) => Redelivered(s, j)
    case RunningReported(id, taken) => Report(s, id, Lifecycle(Running), taken).state
    case SuspendedReported(id, resumes, taken) => ReportSuspension(s, id, resumes, taken).state
    case EndReported(id, end, taken, between) => ReportEnd(s, id, end, taken, between).state
    case Posted(id, note, taken) => Report(s, id, note.ToEvent(), taken).state
    case ResumeDue(id, wireOk) => ResumeInstance(s, id, wireOk)
    case SweepTick(expired) => s.(topics := Sweep(s.topics, expired))
    case Shutdown => CloseBroker(s)
  }

  function Run(s: State, steps: seq<Step>): State
    decreases |steps|
  {
    if steps == [] then s else Run(Next(s, steps[0]), steps[1..])
  }

  /** The job a step takes from the queues for a fetcher, if it takes one. */
  function Delivered(s: State, step: Step): Option<JobId> {
    if step.Fetch? then FetchOne(s, step.keys).1 else None
  }

  /** Every take of a run, with the keys the fetcher asked for. */
  function Deliveries(s: State, steps: seq<Step>): seq<(JobId, seq<ProcessKey>)>
    decreases |steps|
  {
    if steps == [] then []
    else
      var d := Delivered(s, steps[0]);
      (if d.Some? then [(d.value, steps[0].keys)] else []) + Deliveries(Next(s, steps[0]), steps[1..])
  }

  // ----- The invariant of every reachable state -----

  ghost predicate Inv(s: State) {
    Placed(s.jobs) && TopicsOk(s.topics)
  }

  lemma FetchPlaced(s: State, keys: seq<ProcessKey>)
    requires Placed(s.jobs)
    ensures Placed(FetchOne(s, keys).0.jobs) && FetchOne(s, keys).0.topics == s.topics
    ensures FetchOne(s, keys).0.jobs.settled == s.jobs.settled
    ensures match FetchOne(s, keys).1
      case None => FetchOne(s, keys).0 == s
      case Some(j) =>
        && j < |s.jobs.all| && s.jobs.all[j].key in keys && j in Queue(s.jobs, s.jobs.all[j].key)
        && j !in s.jobs.settled && j !in s.jobs.removed && j !in s.jobs.inFlight
  {
    ReadyKey(s.jobs, keys);
    match Ready(s.jobs, keys)
    case None =>
    case Some(k) =>
      HeadWaits(s.jobs, k);
      DeliverPlaced(s.jobs, k);
  }

  /** The chosen key was asked for, has a job, and is the first such key. */
  lemma {:induction false} ReadyKey(s: Jobs, keys: seq<ProcessKey>)
    ensures match Ready(s, keys)
      case None => forall k | k in keys :: Queue(s, k) == []
      case Some(k) => Queue(s, k) != [] && exists n :: FirstWithJob(s, keys, n, k)
  {
    if keys != [] {
      ReadyKey(s, keys[1..]);
      if Queue(s, keys[0]) != [] {
        assert FirstWithJob(s, keys, 0, keys[0]);
      } else if Ready(s, keys[1..]).Some? {
        var k := Ready(s, keys[1..]).value;
        var n :| FirstWithJob(s, keys[1..], n, k);
        assert FirstWithJob(s, keys, n + 1, k) by {
          forall m | 0 <= m < n + 1 ensures Queue(s, keys[m]) == [] {
            if m > 0 {
              assert keys[1..][m - 1] == keys[m];
            }
          }
        }
      }
    }
  }

  /** The key at position n of the request is k, and no key before it has a job. */
  ghost predicate FirstWithJob(s: Jobs, keys: seq<ProcessKey>, n: int, k: ProcessKey) {
    0 <= n < |keys| && keys[n] == k && forall m | 0 <= m < n :: Queue(s, keys[m]) == []
  }

  lemma FinishPlaced(s: State, id: InstanceId, end: Ending, before: Reads, between: Reads)
    requires Inv(s)
    ensures Inv(FinishInstance(s, id, end, before, between))
  {
    SettlePlaced(s.jobs, id);
    FinishOk(s.topics, id, end, before, between);
  }

  lemma SubmitInv(s: State, reg: Option<Registration>, key: ProcessKey, startId: string, inputOk: bool, id: InstanceId, wireOk: bool)
    requires Inv(s)
    ensures Inv(SubmitStart(s, reg, key, startId, inputOk, id, wireOk).state)
  {
    NewRecordOk(key);
    EnqueuePlaced(s.jobs, Job(StartJob, key, id));
    var added := s.topics.(insts := s.topics.insts[id := NewRecord(key)]);
    assert TopicsOk(added);
    PublishOk(added, id, Lifecycle(Pending), map[]);
  }

  lemma CancelInv(s: State, reg: Option<Registration>, key: ProcessKey, id: InstanceId, wireOk: bool, taken: Reads)
    requires Inv(s)
    ensures Inv(CancelInstance(s, reg, key, id, wireOk, taken).state)
  {
    QueuedStartFound(s.jobs, Queue(s.jobs, key), id);
    EnqueuePlaced(s.jobs, Job(CancelJob, key, id));
    match QueuedStart(s.jobs, Queue(s.jobs, key), id)
    case None =>
    case Some(j) =>
      WithdrawPlaced(s.jobs, key, j);
      FinishPlaced(s.(jobs := Withdraw(s.jobs, key, j)), id, Cancels, taken, map[]);
  }

  lemma RespondInv(s: State, id: InstanceId, wireOk: bool, taken: Reads)
    requires Inv(s)
    ensures Inv(RespondToInput(s, id, wireOk, taken).state)
  {
    PublishOk(s.topics, id, Error("ALREADY_FINISHED"), taken);
    PublishOk(s.topics, id, Error("INSTANCE_NOT_FOUND"), taken);
    if id in s.topics.insts {
      EnqueuePlaced(s.jobs, Job(RespondJob, s.topics.insts[id].key, id));
    }
  }

  lemma ResumeInv(s: State, id: InstanceId, wireOk: bool)
    requires Inv(s)
    ensures Inv(ResumeInstance(s, id, wireOk))
  {
    if id in s.topics.insts {
      EnqueuePlaced(s.jobs, Job(ResumeJob, s.topics.insts[id].key, id));
    }
  }

  lemma ReportInv(s: State, id: InstanceId, e: Event, taken: Reads)
    requires Inv(s) && Quiet(e)
    ensures Inv(Report(s, id, e, taken).state)
  {
    PublishOk(s.topics, id, e, taken);
  }

  lemma SuspensionInv(s: State, id: InstanceId, resumes: bool, taken: Reads)
    requires Inv(s)
    ensures Inv(ReportSuspension(s, id, resumes, taken).state)
  {
    PublishOk(s.topics, id, Lifecycle(Suspended), taken);
    SettlePlaced(s.jobs, id);
  }

  lemma EndInv(s: State, id: InstanceId, end: Ending, before: Reads, between: Reads)
    requires Inv(s)
    ensures Inv(ReportEnd(s, id, end, before, between).state)
  {
    FinishPlaced(s, id, end, before, between);
  }

  lemma ClientStepInv(s: State, step: Step)
    requires Inv(s)
    requires step.Submit? || step.Cancel? || step.Terminate? || step.Respond? || step.SubscribeTo? || step.Leave? || step.Read?
    ensures Inv(Next(s, step))
  {
    match step
    case Submit(reg, key, startId, inputOk, id, wireOk) => SubmitInv(s, reg, key, startId, inputOk, id, wireOk);
    case Cancel(reg, key, id, wireOk, taken) => CancelInv(s, reg, key, id, wireOk, taken);
    case Terminate(reg, key, id, wireOk) => EnqueuePlaced(s.jobs, Job(TerminateJob, key, id));
    case Respond(id, wireOk, taken) => RespondInv(s, id, wireOk, taken);
    case SubscribeTo(id, size) => SubscribeOk(s.topics, id, size);
    case Leave(id, sub) => UnsubscribeOk(s.topics, id, sub);
    case Read(id, sub, n) => ReadOk(s.topics, id, sub, n);
  }

  lemma ReportStepInv(s: State, step: Step)
    requires Inv(s)
    requires step.RunningReported? || step.SuspendedReported? || step.EndReported? || step.Posted?
    ensures Inv(Next(s, step))
  {
    match step
    case RunningReported(id, taken) =>
      ReportInv(s, id, Lifecycle(Running), taken);
      assert Next(s, step) == Report(s, id, Lifecycle(Running), taken).state;
    case SuspendedReported(id, resumes, taken) =>
      SuspensionInv(s, id, resumes, taken);
      assert Next(s, step) == ReportSuspension(s, id, resumes, taken).state;
    case EndReported(id, end, taken, between) =>
      EndInv(s, id, end, taken, between);
      assert Next(s, step) == ReportEnd(s, id, end, taken, between).state;
    case Posted(id, note, taken) =>
      ReportInv(s, id, note.ToEvent(), taken);
      assert Next(s, step) == Report(s, id, note.ToEvent(), taken).state;
  }

  /** Every step keeps the invariant. */
  lemma StepInv(s: State, step: Step)
    requires Inv(s)
    ensures Inv(Next(s, step))
  {
    match step
    case Fetch(keys) => FetchPlaced(s, keys);
    case Redeliver(j) => RequeuePlaced(s.jobs, j);
    case ResumeDue(id, wireOk) => ResumeInv(s, id, wireOk);
    case SweepTick(expired) =>
    case Shutdown => ShutDownOk(s.topics);
    case _ =>
      if step.RunningReported? || step.SuspendedReported? || step.EndReported? || step.Posted? {
        ReportStepInv(s, step);
      } else {
        ClientStepInv(s, step);
      }
  }

  lemma {:induction false} RunInv(s: State, steps: seq<Step>)
    requires Inv(s)
    ensures Inv(Run(s, steps))
    decreases |steps|
  {
    if steps != [] {
      StepInv(s, steps[0]);
      RunInv(Next(s, steps[0]), steps[1..]);
    }
  }

  /**
   In every reachable state each job ever enqueued is in exactly one of its own
   key's queue (once), in flight, settled, or withdrawn; the per-instance index
   is exact; every record's log holds at most one terminal lifecycle event; and
   every channel accounts for what was published to it.
   */
  lemma ReachableInv(steps: seq<Step>)
    ensures Inv(Run(INITIAL, steps))
  {
    RunInv(INITIAL, steps);
  }

  // ----- Settled and withdrawn are for ever -----

  ghost predicate Out(s: State, j: JobId) {
    j in s.jobs.settled || j in s.jobs.removed
  }

  ghost predicate Keeps(a: Jobs, b: Jobs) {
    a.all <= b.all && a.settled <= b.settled && a.removed <= b.removed
  }

  lemma StepKeeps(s: State, step: Step)
    requires Inv(s)
    ensures Keeps(s.jobs, Next(s, step).jobs)
  {
    if step.Fetch? {
      FetchPlaced(s, step.keys);
    }
  }

  lemma {:induction false} RunKeeps(s: State, steps: seq<Step>)
    requires Inv(s)
    ensures Keeps(s.jobs, Run(s, steps).jobs)
    decreases |steps|
  {
    if steps != [] {
      StepInv(s, steps[0]);
      StepKeeps(s, steps[0]);
      RunKeeps(Next(s, steps[0]), steps[1..]);
    }
  }

  /** A job that is settled or withdrawn is never taken again, and a fetcher only ever takes jobs for keys it asked for. */
  lemma {:induction false} DeliveriesSafe(s: State, steps: seq<Step>, d: (JobId, seq<ProcessKey>))
    requires Inv(s) && d in Deliveries(s, steps)
    ensures !Out(s, d.0)
    ensures var all := Run(s, steps).jobs.all; d.0 < |all| && all[d.0].key in d.1
    decreases |steps|
  {
    var step := steps[0];
    var s' := Next(s, step);
    StepInv(s, step);
    StepKeeps(s, step);
    RunKeeps(s', steps[1..]);
    if step.Fetch? {
      FetchPlaced(s, step.keys);
    }
    if d in Deliveries(s', steps[1..]) {
      DeliveriesSafe(s', steps[1..], d);
    }
  }

  /** The same over whole runs: nothing that was out after the first part is taken in the second. */
  lemma NeverDeliveredAgain(before: seq<Step>, after: seq<Step>, j: JobId, keys: seq<ProcessKey>)
    requires Out(Run(INITIAL, before), j)
    ensures (j, keys) !in Deliveries(Run(INITIAL, before), after)
  {
    ReachableInv(before);
    if (j, keys) in Deliveries(Run(INITIAL, before), after) {
      DeliveriesSafe(Run(INITIAL, before), after, (j, keys));
      assert false;
    }
  }

  // ----- One end per record -----

  /** In every reachable state a record's log has at most one terminal lifecycle event, and an ended record has no subscribers. */
  lemma OneTerminalEvent(steps: seq<Step>, i: InstanceId, a: nat, b: nat)
    requires i in Run(INITIAL, steps).topics.insts
    ensures var rec := Run(INITIAL, steps).topics.insts[i];
      && (a < |rec.log| && b < |rec.log| && rec.log[a].Terminal() && rec.log[b].Terminal() ==> a == b && rec.finished)
      && (rec.finished ==> rec.subs == map[])
  {
    ReachableInv(steps);
    var rec := Run(INITIAL, steps).topics.insts[i];
    assert RecordOk(rec);
    if rec.finished {
      var k: nat :| EndsAt(rec.log, k);
    } else {
      assert a < |rec.log| ==> rec.log[a] in rec.log;
    }
  }

  /** A step keeps a record unless it submits the instance again or sweeps the finished record away. */
  lemma RecordKept(s: State, step: Step, i: InstanceId)
    requires i in s.topics.insts && (step.Submit? ==> step.id != i)
    ensures i in Next(s, step).topics.insts || (step.SweepTick? && i in step.expired && s.topics.insts[i].finished)
    ensures i in Next(s, step).topics.insts ==>
      && s.topics.insts[i].log <= Next(s, step).topics.insts[i].log
      && (s.topics.insts[i].finished ==> Next(s, step).topics.insts[i].finished)
  {
  }

  /** Along the whole run the record is there, neither swept nor replaced by a new submission. */
  ghost predicate Lives(s: State, steps: seq<Step>, i: InstanceId)
    decreases |steps|
  {
    i in s.topics.insts && (steps != [] ==> !(steps[0].Submit? && steps[0].id == i) && Lives(Next(s, steps[0]), steps[1..], i))
  }

  /** From its creation to its purge a record's log only grows, and once finished it stays finished. */
  lemma {:induction false} LogOnlyGrows(s: State, steps: seq<Step>, i: InstanceId)
    requires Lives(s, steps, i)
    ensures i in Run(s, steps).topics.insts
    ensures s.topics.insts[i].log <= Run(s, steps).topics.insts[i].log
    ensures s.topics.insts[i].finished ==> Run(s, steps).topics.insts[i].finished
    decreases |steps|
  {
    if steps != [] {
      RecordKept(s, steps[0], i);
      LogOnlyGrows(Next(s, steps[0]), steps[1..], i);
    }
  }

  /** A log has one end. */
  lemma EndsOnce(log: seq<Event>, j: nat, k: nat)
    requires EndsAt(log, k) && j < |log| && log[j].Terminal()
    ensures j == k
  {
  }

  /** A reported completion is in the log: the terminal event, then the result. */
  lemma CompletionLogged(s: State, i: InstanceId, r: string, taken: Reads, between: Reads)
    requires Inv(s) && ReportError(s, i).None? && !RecordOf(s.topics, i).finished
    ensures var t := Next(s, EndReported(i, Completes(r), taken, between)).topics;
      && i in t.insts && t.insts[i].finished
      && t.insts[i].log == RecordOf(s.topics, i).log + [Lifecycle(Completed), Result(r)]
  {
    var rec := RecordOf(s.topics, i);
    var first := Published(rec, Lifecycle(Completed), taken);
    assert first.log + [Result(r)] == rec.log + [Lifecycle(Completed), Result(r)];
  }

  /**
   The late-subscriber property over runs: once a completion has been accepted in a
   reachable state, whoever subscribes before the record is purged or replaced is
   handed a closed channel that holds the last lifecycle event and then the
   reported result, and nothing else.
   */
  lemma CompletionServed(before: seq<Step>, i: InstanceId, r: string, taken: Reads, between: Reads, after: seq<Step>, size: int)
    requires var s := Run(INITIAL, before);
      && ReportError(s, i).None? && !RecordOf(s.topics, i).finished
      && Lives(Next(s, EndReported(i, Completes(r), taken, between)), after, i)
    ensures var t := Run(Next(Run(INITIAL, before), EndReported(i, Completes(r), taken, between)), after).topics;
      && i in t.insts && LastLifecycle(t.insts[i].log).Some?
      && NewChannel(t, i, size).closed
      && NewChannel(t, i, size).Channel() == [Real(LastLifecycle(t.insts[i].log).value), Real(Result(r))]
  {
    var s, step := Run(INITIAL, before), EndReported(i, Completes(r), taken, between);
    var s1 := Next(s, step);
    ReachableInv(before);
    StepInv(s, step);
    RunInv(s1, after);
    CompletionLogged(s, i, r, taken, between);
    LogOnlyGrows(s1, after, i);
    CompletionReplayed(Run(s1, after).topics, i, |RecordOf(s.topics, i).log|, r, size);
  }

  lemma CompletionReplayed(t: Topics, i: InstanceId, k: nat, r: string, size: int)
    requires TopicsOk(t) && i in t.insts && t.insts[i].finished
    requires k + 1 < |t.insts[i].log| && t.insts[i].log[k] == Lifecycle(Completed) && t.insts[i].log[k + 1] == Result(r)
    ensures LastLifecycle(t.insts[i].log).Some? && NewChannel(t, i, size).closed
    ensures NewChannel(t, i, size).Channel() == [Real(LastLifecycle(t.insts[i].log).value), Real(Result(r))]
  {
    var log, ch := t.insts[i].log, NewChannel(t, i, size).Channel();
    assert RecordOk(t.insts[i]);
    var end: nat :| EndsAt(log, end);
    EndsOnce(log, k, end);
    SomeLifecycle(log, k);
    LateSubscriber(t, i, size);
    assert CompletedAt(log, k);
    assert |ch| == 2 && ch == [ch[0], ch[1]];
  }

  /** In every channel closed so far, a terminal lifecycle event is followed by at most the result or error of its kind of ending. */
  lemma ChannelsEndCleanly(steps: seq<Step>, x: (SubId, Sub), i: nat)
    requires x in Run(INITIAL, steps).topics.ended && i < |x.1.Channel()| && IsTerminal(x.1.Channel()[i])
    ensures x.1.closed && TerminalLast(x.1.Channel(), i)
  {
    ReachableInv(steps);
  }

  /** And a reported end closes the channels of its instance with exactly what was reported. */
  lemma EndReachesSubscribers(steps: seq<Step>, i: InstanceId, end: Ending, taken: Reads, between: Reads, x: (SubId, Sub), k: nat)
    requires var s := Run(INITIAL, steps);
      x in Next(s, EndReported(i, end, taken, between)).topics.ended && x !in s.topics.ended
    requires k < |x.1.Channel()| && IsTerminal(x.1.Channel()[k])
    ensures x.1.closed && ClosesWith(x.1.Channel(), k, end)
  {
    var s := Run(INITIAL, steps);
    ReachableInv(steps);
    StepInv(s, EndReported(i, end, taken, between));
    assert EndedSub(x.1);
    FinishCloses(s.topics, i, end, taken, between, x, k);
  }
}
