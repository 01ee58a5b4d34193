/**
 The broker object itself: the fields of InMemoryMessageBroker and the bodies of
 its verbs and locked helpers (core/in_memory_message_broker.go), each proved to
 take the state to the one the step machine says. Records, jobs and subscriptions
 are values held in the object's maps: every Go method that touches them holds
 the broker's mutex.
 */
module BrokerObject {
  import opened Prelude
  import opened Subscriber
  import opened BrokerJobs
  import opened BrokerTopics
  import opened Broker
  import opened BrokerOrder

  /** One job more, at the back of its queue; nothing else of the jobs differs. */
  ghost predicate Joined(a: Jobs, b: Jobs, job: Job) {
    && b.all == a.all + [job]
    && Queue(b, job.key) == Queue(a, job.key) + [|a.all|]
    && (forall other | other != job.key :: Queue(b, other) == Queue(a, other))
    && b.inFlight == a.inFlight && b.byInst == a.byInst && b.settled == a.settled && b.removed == a.removed
  }

  /** The fan-out loop of a publish: every channel gets the event, whatever the order of the map. */
  method SendEach(subs0: map<SubId, Sub>, e: Event, taken: Reads) returns (subs: map<SubId, Sub>)
    ensures subs == SendAll(subs0, e, taken)
  {
    subs := map[];
    var todo := subs0.Keys;
    assert subs0 - todo == map[];
    while todo != {}
      invariant todo <= subs0.Keys
      invariant subs == SendAll(subs0 - todo, e, taken)
    {
      var s :| s in todo;
      SendOneMore(subs0, todo, s, e, taken);
      subs := subs[s := Write(subs0[s], e, TakenFrom(taken, s))];
      todo := todo - {s};
    }
    assert subs0 - todo == subs0;
  }

  lemma SendOneMore(subs: map<SubId, Sub>, todo: set<SubId>, s: SubId, e: Event, taken: Reads)
    requires s in todo && s in subs
    ensures SendAll(subs - (todo - {s}), e, taken) == SendAll(subs - todo, e, taken)[s := Write(subs[s], e, TakenFrom(taken, s))]
  {
  }

  /** What a reported end puts on the topic. */
  function LastEvents(end: Ending): seq<Event> {
    match end
    case Completes(result) => [Lifecycle(Completed), Result(result)]
    case Fails(code) => [Lifecycle(Failed), Error(code)]
    case Cancels => [Lifecycle(Cancelled)]
  }

  lemma FinaleLogged(rec: Record, end: Ending, before: Reads, between: Reads)
    ensures Finale(rec, end, before, between).log == rec.log + LastEvents(end)
  {
    var mid := Published(rec, Lifecycle(end.Phase()), before);
    assert mid.log == rec.log + [Lifecycle(end.Phase())];
    if end.Extra().Some? {
      assert mid.log + [end.Extra().value] == rec.log + [Lifecycle(end.Phase()), end.Extra().value];
    }
  }

  /** A suspension is on the topic, has settled what was in flight, and waits to be resumed if it said so. */
  ghost predicate Suspends(a: State, b: State, id: InstanceId, resumes: bool) {
    && RecordOf(b.topics, id).log == RecordOf(a.topics, id).log + [Lifecycle(Suspended)]
    && Held(b.jobs, id) == [] && b.jobs.settled == a.jobs.settled + Elems(Held(a.jobs, id))
    && (id in b.timers <==> resumes || id in a.timers)
  }

  lemma SuspensionShows(s: State, id: InstanceId, resumes: bool, taken: Reads)
    ensures var r := ReportSuspension(s, id, resumes, taken);
      && (r.reply.Accepted? <==> id.name != "" && !s.closed)
      && (r.reply.Accepted? ==> Suspends(s, r.state, id, resumes))
  {
  }

  /** Searching a list for an entry and splicing it out. */
  method SpliceOut(jobs: seq<JobId>, j: JobId) returns (rest: seq<JobId>)
    ensures rest == Without(jobs, j)
  {
    for n := 0 to |jobs|
      invariant j !in jobs[..n]
    {
      if jobs[n] == j {
        SpliceIsWithout(jobs, n);
        return jobs[..n] + jobs[n + 1..];
      }
    }
    assert jobs[..|jobs|] == jobs;
    NothingToSplice(jobs, j);
    return jobs;
  }

  /** The closing loop of a finish: every channel is closed and deregistered. */
  method CloseEach(subs0: map<SubId, Sub>) returns (subs: map<SubId, Sub>, ghost closing: set<(SubId, Sub)>)
    ensures subs == map[] && closing == CloseAll(subs0)
  {
    subs, closing := subs0, {};
    while subs != map[]
      invariant subs.Keys <= subs0.Keys
      invariant closing == set x | x in subs0 && x !in subs :: (x, Close(subs0[x]))
      decreases |subs|
    {
      assert subs.Keys != {};
      var s :| s in subs;
      closing := closing + {(s, Close(subs0[s]))};
      subs := subs - {s};
    }
  }

  ghost function ChannelsOf(insts: map<InstanceId, Record>): set<(SubId, Sub)> {
    set i, x | i in insts && x in CloseAll(insts[i].subs) :: x
  }

  /** The loop of Close over the records. */
  method CloseRecords(insts0: map<InstanceId, Record>) returns (insts: map<InstanceId, Record>, ghost closing: set<(SubId, Sub)>)
    ensures insts == map i | i in insts0 :: insts0[i].(subs := map[])
    ensures closing == ChannelsOf(insts0)
  {
    insts, closing := insts0, {};
    var todo := insts0.Keys;
    assert insts0 - todo == map[];
    while todo != {}
      invariant todo <= insts0.Keys == insts.Keys
      invariant forall i | i in insts0 :: insts[i] == if i in todo then insts0[i] else insts0[i].(subs := map[])
      invariant closing == ChannelsOf(insts0 - todo)
    {
      var i :| i in todo;
      ghost var more;
      var none;
      none, more := CloseEach(insts[i].subs);
      OneRecordMore(insts0, todo, i);
      closing := closing + more;
      insts := insts[i := insts[i].(subs := none)];
      todo := todo - {i};
    }
    assert insts0 - todo == insts0;
  }

  lemma OneRecordMore(insts: map<InstanceId, Record>, todo: set<InstanceId>, i: InstanceId)
    requires i in todo && i in insts
    ensures ChannelsOf(insts - (todo - {i})) == ChannelsOf(insts - todo) + CloseAll(insts[i].subs)
  {
    var a, b := insts - todo, insts - (todo - {i});
    assert b == a[i := insts[i]];
    forall x | x in ChannelsOf(a) ensures x in ChannelsOf(b) {
      var o :| o in a && x in CloseAll(a[o].subs);
      assert o in b && b[o] == a[o];
    }
    forall x | x in CloseAll(insts[i].subs) ensures x in ChannelsOf(b) {
      assert i in b && b[i] == insts[i];
    }
    forall x | x in ChannelsOf(b) ensures x in ChannelsOf(a) + CloseAll(insts[i].subs) {
      var o :| o in b && x in CloseAll(b[o].subs);
      assert o != i ==> o in a && a[o] == b[o];
    }
  }

  class InMemoryMessageBroker {
    const eventBufferSize: int
    var closed: bool
    var all: seq<Job>
    var queues: map<ProcessKey, seq<JobId>>
    var inFlight: set<JobId>
    var byInst: map<InstanceId, seq<JobId>>
    var settled: set<JobId>
    var insts: map<InstanceId, Record>
    var nextSub: SubId
    var timers: set<InstanceId>
    ghost var removed: set<JobId>
    ghost var ended: set<(SubId, Sub)>

    ghost function JobsNow(): Jobs
      reads this
    {
      Jobs(all, queues, inFlight, byInst, settled, removed)
    }

    ghost function TopicsNow(): Topics
      reads this
    {
      Topics(insts, nextSub, ended)
    }

    ghost function Abs(): State
      reads this
    {
      State(closed, JobsNow(), TopicsNow(), timers)
    }

    ghost predicate Valid()
      reads this
    {
      Inv(Abs())
    }

    constructor (size: int)
      ensures Abs() == INITIAL && eventBufferSize == size
    {
      eventBufferSize := size;
      closed, all, queues, inFlight, byInst, settled := false, [], map[], {}, map[], {};
      insts, nextSub, timers, removed, ended := map[], 0, {}, {}, {};
    }

    // ----- Locked helpers -----

    method EnqueueLocked(job: Job, wireOk: bool) returns (ok: bool)
      modifies this`all, this`queues
      ensures ok == wireOk
      ensures Abs() == EnqueueJob(old(Abs()), job, wireOk).state
    {
      if wireOk {
        var pending := if job.key in queues then queues[job.key] else [];
        queues := queues[job.key := pending + [|all|]];
        all := all + [job];
      }
      ok := wireOk;
    }

    /** The first of the keys with a pending job gives up its head. */
    method TakePendingLocked(keys: seq<ProcessKey>) returns (taken: Option<JobId>)
      requires Valid() && !closed
      modifies this`queues, this`settled, this`inFlight, this`byInst
      ensures (Abs(), taken) == FetchOne(old(Abs()), keys)
      ensures Valid()
    {
      FetchPlaced(Abs(), keys);
      for n := 0 to |keys|
        invariant Abs() == old(Abs())
        invariant Ready(JobsNow(), keys) == Ready(JobsNow(), keys[n..])
      {
        var k := keys[n];
        assert keys[n..][1..] == keys[n + 1..];
        if k in queues && queues[k] != [] {
          var j := queues[k][0];
          HeadWaits(JobsNow(), k);
          queues := queues[k := queues[k][1..]];
          settled := settled - {j};
          inFlight := inFlight + {j};
          var i := all[j].inst;
          byInst := byInst[i := (if i in byInst then byInst[i] else []) + [j]];
          return Some(j);
        }
      }
      return None;
    }

    method ReleaseLocked(j: JobId)
      requires j < |all|
      modifies this`inFlight, this`byInst
      ensures JobsNow() == Release(old(JobsNow()), j)
    {
      inFlight := inFlight - {j};
      var i := all[j].inst;
      var rest := SpliceOut(if i in byInst then byInst[i] else [], j);
      if rest == [] {
        byInst := byInst - {i};
      } else {
        byInst := byInst[i := rest];
      }
    }

    method RequeueJob(j: JobId)
      requires Valid()
      modifies this`inFlight, this`byInst, this`queues
      ensures Abs() == Redelivered(old(Abs()), j)
      ensures old(closed) || j !in old(inFlight) ==> Abs() == old(Abs())
      ensures !old(closed) && j in old(inFlight) ==>
        && j < |all| && j !in inFlight
        && Queue(JobsNow(), all[j].key) == [j] + old(Queue(JobsNow(), all[j].key))
        && forall other | other != all[j].key :: Queue(JobsNow(), other) == old(Queue(JobsNow(), other))
      ensures Valid()
    {
      assert j in inFlight ==> InOnePlace(JobsNow(), j);
      StepInv(Abs(), Redeliver(j));
      if closed || j in settled || j !in inFlight {
        return;
      }
      ReleaseLocked(j);
      var k := all[j].key;
      queues := queues[k := [j] + if k in queues then queues[k] else []];
    }

    method SettleInstanceLocked(id: InstanceId)
      modifies this`settled, this`inFlight, this`byInst
      ensures JobsNow() == Settle(old(JobsNow()), id)
    {
      var jobs := if id in byInst then byInst[id] else [];
      for n := 0 to |jobs|
        invariant settled == old(settled) + Elems(jobs[..n])
        invariant inFlight == old(inFlight) - Elems(jobs[..n])
        invariant byInst == old(byInst)
      {
        ElemsGrow(jobs, n);
        settled := settled + {jobs[n]};
        inFlight := inFlight - {jobs[n]};
      }
      assert jobs[..|jobs|] == jobs;
      byInst := byInst - {id};
    }

    /** Splice the instance's start job out of its queue, if it is still there. */
    method RemoveQueuedStartLocked(key: ProcessKey, id: InstanceId) returns (found: bool)
      requires Valid()
      modifies this`queues, this`removed
      ensures var was := old(JobsNow());
        match QueuedStart(was, Queue(was, key), id)
        case Some(j) => found && Abs() == old(Abs()).(jobs := Withdraw(was, key, j))
        case None => !found && Abs() == old(Abs())
    {
      var q := if key in queues then queues[key] else [];
      ghost var was := JobsNow();
      assert QueueOk(was, key);
      for n := 0 to |q|
        invariant Abs() == old(Abs())
        invariant QueuedStart(was, q, id) == QueuedStart(was, q[n..], id)
        invariant forall x | x in q[..n] :: !IsStartOf(was, x, id)
      {
        assert q[n..][1..] == q[n + 1..];
        assert q[n] in q;
        if all[q[n]].kind == StartJob && all[q[n]].inst == id {
          assert q[n] !in q[..n];
          SpliceIsWithout(q, n);
          removed := removed + {q[n]};
          queues := queues[key := q[..n] + q[n + 1..]];
          return true;
        }
        assert q[..n + 1] == q[..n] + [q[n]];
      }
      return false;
    }

    /** Retain one event and write it to every open channel, in whatever order the map yields them. */
    method PublishLocked(id: InstanceId, e: Event, taken: Reads)
      modifies this`insts
      ensures TopicsNow() == Publish(old(TopicsNow()), id, e, taken)
    {
      var rec := if id in insts then insts[id] else NewRecord(NO_KEY);
      match e {
        case Lifecycle(_) => rec := rec.(latest := Some(e));
        case Result(_) => rec := rec.(terminal := Some(e));
        case Error(_) =>
          if rec.latest == Some(Lifecycle(Failed)) {
            rec := rec.(terminal := Some(e));
          }
        case InputRequest(_) =>
        case NodeCompleted(_) =>
      }
      var subs := SendEach(rec.subs, e, taken);
      insts := insts[id := rec.(subs := subs, log := rec.log + [e])];
    }

    /** Publish the end and close the channels; a finished record is left as it is. */
    method EndTopicLocked(id: InstanceId, end: Ending, before: Reads, between: Reads)
      modifies this`insts, this`ended
      ensures TopicsNow() == Finish(old(TopicsNow()), id, end, before, between)
    {
      if id in insts && insts[id].finished {
        return;
      }
      PublishLocked(id, Lifecycle(end.Phase()), before);
      if end.Extra().Some? {
        PublishLocked(id, end.Extra().value, between);
      }
      var rec := insts[id];
      assert rec == Finale(RecordOf(old(TopicsNow()), id), end, before, between);
      ghost var closing;
      var none;
      none, closing := CloseEach(rec.subs);
      ended := ended + closing;
      insts := insts[id := rec.(finished := true, subs := none)];
      assert insts == old(insts)[id := rec.(finished := true, subs := map[])];
    }

    method FinishLocked(id: InstanceId, end: Ending, before: Reads, between: Reads)
      modifies this`settled, this`inFlight, this`byInst, this`timers, this`insts, this`ended
      ensures Abs() == FinishInstance(old(Abs()), id, end, before, between)
    {
      SettleInstanceLocked(id);
      timers := timers - {id};
      EndTopicLocked(id, end, before, between);
    }

    // ----- Verbs -----

    method Submit(reg: Option<Registration>, key: ProcessKey, startId: string, inputOk: bool, id: InstanceId, wireOk: bool) returns (r: Reply)
      requires Valid()
      modifies this
      ensures Reaction(Abs(), r) == SubmitStart(old(Abs()), reg, key, startId, inputOk, id, wireOk)
      ensures r.Accepted? <==> !old(closed) && reg.Some? && startId in reg.value.startIds && inputOk && wireOk
      ensures r.Refused? && old(closed) ==> r.error == BrokerClosed
      ensures r.Refused? && !old(closed) && reg.None? ==> r.error == UnknownProcess
      ensures r.Refused? && !old(closed) && reg.Some? && startId !in reg.value.startIds ==> r.error == UnknownStartId
      ensures r.Accepted? ==> Queue(JobsNow(), key) == old(Queue(JobsNow(), key)) + [old(|all|)] && all[old(|all|)] == Job(StartJob, key, id)
      ensures r.Accepted? ==> id in insts && !insts[id].finished && insts[id].log == [Lifecycle(Pending)]
      ensures r.Refused? ==> JobsNow() == old(JobsNow())
      ensures Valid()
    {
      SubmitInv(Abs(), reg, key, startId, inputOk, id, wireOk);
      if closed { return Refused(BrokerClosed); }
      if reg.None? { return Refused(UnknownProcess); }
      if startId !in reg.value.startIds { return Refused(UnknownStartId); }
      if !inputOk { return Refused(InvalidInput); }
      insts := insts[id := NewRecord(key)];
      var ok := EnqueueLocked(Job(StartJob, key, id), wireOk);
      if !ok {
        insts := insts - {id};
        return Refused(WireError);
      }
      PublishLocked(id, Lifecycle(Pending), map[]);
      return Accepted;
    }

    method Cancel(reg: Option<Registration>, key: ProcessKey, id: InstanceId, wireOk: bool, taken: Reads) returns (r: Reply)
      requires Valid()
      modifies this
      ensures Reaction(Abs(), r) == CancelInstance(old(Abs()), reg, key, id, wireOk, taken)
      ensures var start := old(QueuedStart(JobsNow(), Queue(JobsNow(), key), id));
        && (r.Accepted? <==> !old(closed) && reg.Some? && (start.Some? || (reg.value.allowCancel && wireOk)))
        && (r.Accepted? && start.Some? ==> start.value in removed && RecordOf(TopicsNow(), id).finished)
        && (r.Accepted? && start.None? ==> Joined(old(JobsNow()), JobsNow(), Job(CancelJob, key, id)) && TopicsNow() == old(TopicsNow()))
      ensures r.Refused? ==> Abs() == old(Abs())
      ensures r.Refused? && old(closed) ==> r.error == BrokerClosed
      ensures r.Refused? && !old(closed) ==>
        r.error == if reg.None? then UnknownProcess else if !reg.value.allowCancel then CancelNotAllowed else WireError
      ensures Valid()
    {
      CancelInv(Abs(), reg, key, id, wireOk, taken);
      if closed { return Refused(BrokerClosed); }
      if reg.None? { return Refused(UnknownProcess); }
      var found := RemoveQueuedStartLocked(key, id);
      if found {
        FinishLocked(id, Cancels, taken, map[]);
        return Accepted;
      }
      if !reg.value.allowCancel { return Refused(CancelNotAllowed); }
      var ok := EnqueueLocked(Job(CancelJob, key, id), wireOk);
      return if ok then Accepted else Refused(WireError);
    }

    method Terminate(reg: Option<Registration>, key: ProcessKey, id: InstanceId, wireOk: bool) returns (r: Reply)
      requires Valid()
      modifies this
      ensures Reaction(Abs(), r) == TerminateInstance(old(Abs()), reg, key, id, wireOk)
      ensures r.Accepted? <==> !old(closed) && reg.Some? && reg.value.allowTerminate && wireOk
      ensures r.Refused? && old(closed) ==> r.error == BrokerClosed
      ensures r.Refused? && !old(closed) ==>
        r.error == if reg.None? then UnknownProcess else if !reg.value.allowTerminate then TerminateNotAllowed else WireError
      ensures r.Accepted? ==> Joined(old(JobsNow()), JobsNow(), Job(TerminateJob, key, id))
      ensures r.Refused? ==> Abs() == old(Abs())
      ensures Valid()
    {
      EnqueuePlaced(JobsNow(), Job(TerminateJob, key, id));
      if closed { return Refused(BrokerClosed); }
      if reg.None? { return Refused(UnknownProcess); }
      if !reg.value.allowTerminate { return Refused(TerminateNotAllowed); }
      var ok := EnqueueLocked(Job(TerminateJob, key, id), wireOk);
      return if ok then Accepted else Refused(WireError);
    }

    method RespondToInputRequest(id: InstanceId, wireOk: bool, taken: Reads) returns (r: Reply)
      requires Valid()
      modifies this
      ensures Reaction(Abs(), r) == RespondToInput(old(Abs()), id, wireOk, taken)
      ensures var waits := id in old(insts) && !old(insts)[id].finished;
        && (r.Accepted? <==> !old(closed) && (!waits || wireOk))
        && (r.Accepted? && waits ==> Joined(old(JobsNow()), JobsNow(), Job(RespondJob, old(insts)[id].key, id)) && insts == old(insts))
        && (r.Accepted? && !waits ==>
              && JobsNow() == old(JobsNow()) && id in insts
              && var code := if id in old(insts) then "ALREADY_FINISHED" else "INSTANCE_NOT_FOUND";
                 insts[id].log == old(RecordOf(TopicsNow(), id)).log + [Error(code)])
      ensures r.Refused? ==> Abs() == old(Abs()) && r.error == if old(closed) then BrokerClosed else WireError
      ensures Valid()
    {
      RespondInv(Abs(), id, wireOk, taken);
      if closed { return Refused(BrokerClosed); }
      if id !in insts || insts[id].finished {
        PublishLocked(id, Error(if id in insts then "ALREADY_FINISHED" else "INSTANCE_NOT_FOUND"), taken);
        return Accepted;
      }
      var ok := EnqueueLocked(Job(RespondJob, insts[id].key, id), wireOk);
      return if ok then Accepted else Refused(WireError);
    }

    /** Hand out a channel with the retained events in it, registered unless the instance has finished. */
    method SubscribeToInstance(id: InstanceId) returns (channel: Option<Sub>)
      requires Valid()
      modifies this
      ensures channel == if old(closed) then None else Some(NewChannel(old(TopicsNow()), id, eventBufferSize))
      ensures channel.Some? ==> channel.value.cap >= 2 && channel.value.cap >= eventBufferSize && (channel.value.cap == 2 || channel.value.cap == eventBufferSize)
      ensures channel.Some? && id !in old(insts) ==> channel.value.buf == [Real(Error("INSTANCE_NOT_FOUND"))]
      ensures Abs() == Broker.Next(old(Abs()), SubscribeTo(id, eventBufferSize))
      ensures Valid()
    {
      SubscribeOk(TopicsNow(), id, eventBufferSize);
      if closed { return None; }
      var rec, replay;
      if id !in insts {
        rec, replay := NewRecord(NO_KEY), [INSTANCE_NOT_FOUND];
      } else {
        rec, replay := insts[id], [];
        if rec.latest.Some? { replay := replay + [rec.latest.value]; }
        if rec.terminal.Some? { replay := replay + [rec.terminal.value]; }
      }
      assert replay == FirstEvents(TopicsNow(), id);
      var sub := Open(eventBufferSize, replay);
      if rec.finished {
        return Some(Close(sub));
      }
      insts := insts[id := rec.(subs := rec.subs[nextSub := sub])];
      nextSub := nextSub + 1;
      return Some(sub);
    }

    method ReportPhase(id: InstanceId, e: Event, taken: Reads) returns (r: Reply)
      requires Valid() && Quiet(e)
      modifies this
      ensures Reaction(Abs(), r) == Report(old(Abs()), id, e, taken)
      ensures r.Accepted? <==> id.name != "" && !old(closed)
      ensures r.Accepted? ==> id in insts && insts[id].log == old(RecordOf(TopicsNow(), id)).log + [e] && JobsNow() == old(JobsNow())
      ensures r.Refused? ==> Abs() == old(Abs()) && r.error == if id.name == "" then UnknownProcess else BrokerClosed
      ensures Valid()
    {
      ReportInv(Abs(), id, e, taken);
      if id.name == "" { return Refused(UnknownProcess); }
      if closed { return Refused(BrokerClosed); }
      PublishLocked(id, e, taken);
      return Accepted;
    }

    method ReportSuspended(id: InstanceId, resumes: bool, taken: Reads) returns (r: Reply)
      requires Valid()
      modifies this
      ensures Reaction(Abs(), r) == ReportSuspension(old(Abs()), id, resumes, taken)
      ensures Valid()
    {
      SuspensionInv(Abs(), id, resumes, taken);
      if id.name == "" { return Refused(UnknownProcess); }
      if closed { return Refused(BrokerClosed); }
      ghost var next := ReportSuspension(Abs(), id, resumes, taken).state;
      PublishLocked(id, Lifecycle(Suspended), taken);
      SettleInstanceLocked(id);
      if resumes {
        timers := timers + {id};
      }
      assert Abs() == next;
      return Accepted;
    }

    method ReportFinished(id: InstanceId, end: Ending, before: Reads, between: Reads) returns (r: Reply)
      requires Valid()
      modifies this
      ensures Reaction(Abs(), r) == ReportEnd(old(Abs()), id, end, before, between)
      ensures r.Accepted? <==> id.name != "" && !old(closed)
      ensures r.Accepted? ==> id in insts && insts[id].finished && insts[id].subs == map[] && Held(JobsNow(), id) == [] && id !in timers
      ensures r.Accepted? && !old(RecordOf(TopicsNow(), id)).finished ==>
        insts[id].log == old(RecordOf(TopicsNow(), id)).log + LastEvents(end)
      ensures r.Refused? ==> Abs() == old(Abs())
      ensures Valid()
    {
      EndInv(Abs(), id, end, before, between);
      FinaleLogged(RecordOf(TopicsNow(), id), end, before, between);
      if id.name == "" { return Refused(UnknownProcess); }
      if closed { return Refused(BrokerClosed); }
      FinishLocked(id, end, before, between);
      return Accepted;
    }

    /** The callback of a resume timer. */
    method ResumeTimerFired(id: InstanceId, wireOk: bool)
      requires Valid()
      modifies this
      ensures Abs() == ResumeInstance(old(Abs()), id, wireOk)
      ensures timers == old(timers) - {id}
      ensures if !old(closed) && id in old(insts) && !old(insts)[id].finished && wireOk
        then Joined(old(JobsNow()), JobsNow(), Job(ResumeJob, old(insts)[id].key, id))
        else JobsNow() == old(JobsNow())
      ensures Valid()
    {
      ResumeInv(Abs(), id, wireOk);
      timers := timers - {id};
      if closed || id !in insts || insts[id].finished {
        return;
      }
      var _ := EnqueueLocked(Job(ResumeJob, insts[id].key, id), wireOk);
    }

    /** A subscriber's context ended: close and deregister its channel, unless that already happened. */
    method SubscriberGone(id: InstanceId, sub: SubId)
      requires Valid()
      modifies this`insts, this`ended
      ensures Abs() == Broker.Next(old(Abs()), Leave(id, sub))
      ensures Valid()
    {
      UnsubscribeOk(TopicsNow(), id, sub);
      if id in insts && sub in insts[id].subs {
        ended := ended + {(sub, Close(insts[id].subs[sub]))};
        insts := insts[id := insts[id].(subs := insts[id].subs - {sub})];
      }
    }

    /** Close: every channel of every record is closed, the timers are stopped, and later calls are refused. Idempotent. */
    method Shut()
      requires Valid()
      modifies this`closed, this`timers, this`insts, this`ended
      ensures Abs() == CloseBroker(old(Abs()))
      ensures closed && (!old(closed) ==> timers == {} && forall i | i in insts :: insts[i].subs == map[])
      ensures Valid()
    {
      if closed {
        return;
      }
      ghost var was := Abs();
      closed, timers := true, {};
      ghost var closing;
      insts, closing := CloseRecords(insts);
      ended := ended + closing;
      assert TopicsNow() == ShutDown(was.topics);
      ShutDownOk(was.topics);
    }

    /** One sweep: purge the finished, expired records that nobody subscribes to. */
    method SweepRecords(expired: set<InstanceId>)
      requires Valid()
      modifies this`insts
      ensures Abs() == Broker.Next(old(Abs()), SweepTick(expired))
      ensures forall i :: i in insts <==> i in old(insts) && !(i in expired && old(insts)[i].finished && old(insts)[i].subs == map[])
      ensures Valid()
    {
      StepInv(Abs(), SweepTick(expired));
      ghost var swept := Sweep(TopicsNow(), expired).insts;
      var todo := insts.Keys;
      while todo != {}
        invariant todo <= old(insts).Keys && insts.Keys <= old(insts).Keys
        invariant forall i | i in old(insts) :: i in insts <==> i in todo || i in swept
        invariant forall i | i in insts :: insts[i] == old(insts)[i]
      {
        var i :| i in todo;
        if insts[i].finished && i in expired && insts[i].subs == map[] {
          insts := insts - {i};
        }
        todo := todo - {i};
      }
      assert insts == swept;
    }
  }

  /** Splicing a list at the first occurrence of an entry removes that occurrence. */
  lemma {:induction false} SpliceIsWithout(q: seq<JobId>, n: nat)
    requires n < |q| && q[n] !in q[..n]
    ensures q[..n] + q[n + 1..] == Without(q, q[n])
  {
    if n > 0 {
      assert q[0] in q[..n];
      assert q[1..][..n - 1] == q[1..n] && forall x | x in q[1..n] :: x in q[..n];
      SpliceIsWithout(q[1..], n - 1);
      assert q[..n] + q[n + 1..] == [q[0]] + (q[1..][..n - 1] + q[1..][n..]);
    } else {
      assert q[..0] + q[1..] == q[1..];
    }
  }

  lemma {:induction false} NothingToSplice(q: seq<JobId>, j: JobId)
    requires j !in q
    ensures Without(q, j) == q
  {
    if q != [] {
      NothingToSplice(q[1..], j);
    }
  }
}
