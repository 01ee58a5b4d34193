/**
 What the subscribers of an instance are sent: every event published on its topic
 while they are registered, the events of its end included, and nothing else.
 */
module BrokerFeed {
  import opened Prelude
  import opened Subscriber
  import opened BrokerJobs
  import opened BrokerTopics
  import opened Broker

  /** Subscriber numbers are handed out once. */
  ghost predicate Numbered(t: Topics) {
    forall i, x | i in t.insts && x in t.insts[i].subs :: x < t.nextSub
  }

  lemma ReportNumbered(s: State, step: Broker.Step)
    requires Numbered(s.topics)
    requires step.RunningReported? || step.SuspendedReported? || step.Posted? || step.Respond? || step.Submit?
    ensures Numbered(Broker.Next(s, step).topics)
  {
  }

  lemma EndNumbered(s: State, step: Broker.Step)
    requires Numbered(s.topics) && (step.EndReported? || step.Cancel?)
    ensures Numbered(Broker.Next(s, step).topics)
  {
  }

  lemma StepNumbered(s: State, step: Broker.Step)
    requires Numbered(s.topics)
    ensures Numbered(Broker.Next(s, step).topics)
  {
    if step.RunningReported? || step.SuspendedReported? || step.Posted? || step.Respond? || step.Submit? {
      ReportNumbered(s, step);
    } else if step.EndReported? || step.Cancel? {
      EndNumbered(s, step);
    }
  }

  function LogOf(t: Topics, i: InstanceId): seq<Event> {
    RecordOf(t, i).log
  }

  /** The events published on the topic from one state to the next. */
  function Gained(a: Topics, b: Topics, i: InstanceId): seq<Event> {
    if |LogOf(a, i)| <= |LogOf(b, i)| then LogOf(b, i)[|LogOf(a, i)|..] else []
  }

  ghost predicate Registered(t: Topics, i: InstanceId, x: SubId) {
    i in t.insts && x in t.insts[i].subs
  }

  /** The subscriber is still there and was sent these events, or its channel was closed after them. */
  ghost predicate Sent(a: Topics, b: Topics, i: InstanceId, x: SubId, more: seq<Event>)
    requires Registered(a, i, x)
  {
    var was := a.insts[i].subs[x].offered;
    if Registered(b, i, x) then b.insts[i].subs[x].offered == was + more
    else exists y :: (x, y) in b.ended && y.closed && y.offered == was + more
  }

  lemma WriteOffers(s: Sub, e: Event, n: nat)
    requires !s.closed
    ensures Write(s, e, n).offered == s.offered + [e] && !Write(s, e, n).closed
  {
  }

  lemma PublishSends(t: Topics, i: InstanceId, e: Event, taken: Reads, x: SubId)
    requires TopicsOk(t) && Registered(t, i, x)
    ensures var t' := Publish(t, i, e, taken);
      LogOf(t', i) == LogOf(t, i) + [e] && Registered(t', i, x) && Sent(t, t', i, x, [e])
  {
    assert RecordOk(t.insts[i]);
    WriteOffers(t.insts[i].subs[x], e, TakenFrom(taken, x));
  }

  lemma FinishSends(t: Topics, i: InstanceId, end: Ending, before: Reads, between: Reads, x: SubId)
    requires TopicsOk(t) && Registered(t, i, x)
    ensures var t' := Finish(t, i, end, before, between);
      var more := [Lifecycle(end.Phase())] + if end.Extra().Some? then [end.Extra().value] else [];
      && LogOf(t', i) == LogOf(t, i) + more
      && !Registered(t', i, x) && Sent(t, t', i, x, more)
  {
    var rec, t' := t.insts[i], Finish(t, i, end, before, between);
    assert RecordOk(rec);
    var more := [Lifecycle(end.Phase())] + if end.Extra().Some? then [end.Extra().value] else [];
    FinaleSubs(rec, end, before, between, x);
    LastOffers(rec.subs[x], end, TakenFrom(before, x), TakenFrom(between, x));
    var last := Close(LastWrites(rec.subs[x], end, TakenFrom(before, x), TakenFrom(between, x)));
    assert (x, last) in CloseAll(Finale(rec, end, before, between).subs);
    FinaleGrows(rec, end, before, between);
    assert last.closed && last.offered == rec.subs[x].offered + more;
  }

  lemma LastOffers(s: Sub, end: Ending, n: nat, m: nat)
    requires !s.closed
    ensures LastWrites(s, end, n, m).offered
         == s.offered + ([Lifecycle(end.Phase())] + if end.Extra().Some? then [end.Extra().value] else [])
  {
    var s1 := Write(s, Lifecycle(end.Phase()), n);
    WriteOffers(s, Lifecycle(end.Phase()), n);
    if end.Extra().Some? {
      WriteOffers(s1, end.Extra().value, m);
    }
  }

  lemma FinaleGrows(rec: Record, end: Ending, before: Reads, between: Reads)
    ensures Finale(rec, end, before, between).log
         == rec.log + ([Lifecycle(end.Phase())] + if end.Extra().Some? then [end.Extra().value] else [])
  {
    var mid := BrokerTopics.Published(rec, Lifecycle(end.Phase()), before);
    assert mid.log == rec.log + [Lifecycle(end.Phase())];
  }

  lemma LeaveSends(t: Topics, i: InstanceId, x: SubId, gone: SubId)
    requires TopicsOk(t) && Registered(t, i, x)
    ensures var t' := Unsubscribe(t, i, gone); LogOf(t', i) == LogOf(t, i) && Sent(t, t', i, x, [])
  {
    var t' := Unsubscribe(t, i, gone);
    var sub := t.insts[i].subs[x];
    assert sub.offered + [] == sub.offered;
    if gone == x {
      assert (x, Close(sub)) in t'.ended;
    }
  }

  lemma ShutDownSends(t: Topics, i: InstanceId, x: SubId)
    requires Registered(t, i, x)
    ensures LogOf(ShutDown(t), i) == LogOf(t, i) && Sent(t, ShutDown(t), i, x, [])
  {
    var sub := t.insts[i].subs[x];
    assert sub.offered + [] == sub.offered;
    assert (x, Close(sub)) in CloseAll(t.insts[i].subs);
    assert (x, Close(sub)) in ShutDown(t).ended;
  }

  lemma QuietSends(t: Topics, t': Topics, i: InstanceId, x: SubId)
    requires Registered(t, i, x) && Registered(t', i, x)
    requires LogOf(t', i) == LogOf(t, i) && t'.insts[i].subs[x].offered == t.insts[i].subs[x].offered
    ensures Sent(t, t', i, x, [])
  {
    var sub := t.insts[i].subs[x];
    assert sub.offered + [] == sub.offered;
  }

  /** Steps that only report on the instance. */
  lemma ReportSends(s: State, step: Broker.Step, i: InstanceId, x: SubId)
    requires Inv(s) && Registered(s.topics, i, x)
    requires step.RunningReported? || step.SuspendedReported? || step.Posted? || step.Respond?
    ensures var t' := Broker.Next(s, step).topics; Sent(s.topics, t', i, x, Gained(s.topics, t', i))
  {
    var t, t' := s.topics, Broker.Next(s, step).topics;
    assert RecordOk(t.insts[i]);
    var e := match step
      case RunningReported(_, _) => Lifecycle(Running)
      case SuspendedReported(_, _, _) => Lifecycle(Suspended)
      case Posted(_, note, _) => note.ToEvent()
      case _ => Error("");
    if !step.Respond? && step.id == i && ReportError(s, i).None? {
      PublishSends(t, i, e, step.taken, x);
      assert t' == Publish(t, i, e, step.taken);
      assert (LogOf(t, i) + [e])[|LogOf(t, i)|..] == [e];
    } else {
      assert t'.insts[i] == t.insts[i];
      QuietSends(t, t', i, x);
    }
  }

  lemma EndSends(s: State, step: Broker.Step, i: InstanceId, x: SubId)
    requires Inv(s) && Registered(s.topics, i, x) && (step.EndReported? || step.Cancel?)
    ensures var t' := Broker.Next(s, step).topics; Sent(s.topics, t', i, x, Gained(s.topics, t', i))
  {
    var t, t' := s.topics, Broker.Next(s, step).topics;
    if t'.insts == t.insts || step.id != i {
      assert i in t'.insts && t'.insts[i] == t.insts[i];
      QuietSends(t, t', i, x);
    } else {
      var end := if step.EndReported? then step.end else Cancels;
      var between := if step.EndReported? then step.between else map[];
      FinishSends(t, i, end, step.taken, between, x);
      assert t' == Finish(t, i, end, step.taken, between);
      var more := [Lifecycle(end.Phase())] + if end.Extra().Some? then [end.Extra().value] else [];
      assert (LogOf(t, i) + more)[|LogOf(t, i)|..] == more;
    }
  }

  lemma OtherSends(s: State, step: Broker.Step, i: InstanceId, x: SubId)
    requires Inv(s) && Numbered(s.topics) && Registered(s.topics, i, x) && !(step.Submit? && step.id == i)
    requires step.Submit? || step.SubscribeTo? || step.Read? || step.SweepTick?
    ensures var t' := Broker.Next(s, step).topics; Sent(s.topics, t', i, x, Gained(s.topics, t', i))
  {
    var t, t' := s.topics, Broker.Next(s, step).topics;
    assert RecordOk(t.insts[i]);
    QuietSends(t, t', i, x);
  }

  lemma JobStepsSilent(s: State, step: Broker.Step)
    requires Inv(s) && (step.Terminate? || step.Fetch? || step.Redeliver? || step.ResumeDue?)
    ensures Broker.Next(s, step).topics == s.topics
  {
    if step.Fetch? {
      FetchPlaced(s, step.keys);
    }
  }

  /** Every step sends a registered subscriber exactly what it publishes on the topic. */
  lemma StepSends(s: State, step: Broker.Step, i: InstanceId, x: SubId)
    requires Inv(s) && Numbered(s.topics) && Registered(s.topics, i, x) && !(step.Submit? && step.id == i)
    ensures var t' := Broker.Next(s, step).topics; Sent(s.topics, t', i, x, Gained(s.topics, t', i))
  {
    if step.RunningReported? || step.SuspendedReported? || step.Posted? || step.Respond? {
      ReportSends(s, step, i, x);
    } else if step.EndReported? || step.Cancel? {
      EndSends(s, step, i, x);
    } else if step.Leave? {
      if step.id == i {
        LeaveSends(s.topics, i, x, step.sub);
      } else {
        QuietSends(s.topics, Broker.Next(s, step).topics, i, x);
      }
    } else if step.Shutdown? {
      if s.closed {
        QuietSends(s.topics, s.topics, i, x);
      } else {
        ShutDownSends(s.topics, i, x);
      }
    } else if step.Terminate? || step.Fetch? || step.Redeliver? || step.ResumeDue? {
      JobStepsSilent(s, step);
      QuietSends(s.topics, s.topics, i, x);
    } else {
      OtherSends(s, step, i, x);
    }
  }

  // ----- Whole runs -----

  lemma {:induction false} RunNumbered(s: State, steps: seq<Broker.Step>)
    requires Numbered(s.topics)
    ensures Numbered(Broker.Run(s, steps).topics)
    decreases |steps|
  {
    if steps != [] {
      StepNumbered(s, steps[0]);
      RunNumbered(Broker.Next(s, steps[0]), steps[1..]);
    }
  }

  /** Along the whole run the subscriber stays registered with the same record. */
  ghost predicate Stays(s: State, steps: seq<Broker.Step>, i: InstanceId, x: SubId)
    decreases |steps|
  {
    && Registered(s.topics, i, x)
    && (steps != [] ==> !(steps[0].Submit? && steps[0].id == i) && Stays(Broker.Next(s, steps[0]), steps[1..], i, x))
  }

  /** While it stays, the subscriber is offered what the log gains. */
  ghost predicate Follows(a: Topics, b: Topics, i: InstanceId, x: SubId) {
    && Registered(a, i, x) && Registered(b, i, x) && a.insts[i].log <= b.insts[i].log
    && b.insts[i].subs[x].offered == a.insts[i].subs[x].offered + b.insts[i].log[|a.insts[i].log|..]
  }

  lemma FollowsOn(a: Topics, b: Topics, c: Topics, i: InstanceId, x: SubId)
    requires Follows(a, b, i, x) && Follows(b, c, i, x)
    ensures Follows(a, c, i, x)
  {
    var log, mid, last := a.insts[i].log, b.insts[i].log, c.insts[i].log;
    assert last[|log|..] == mid[|log|..] + last[|mid|..];
  }

  lemma StepFollows(s: State, step: Broker.Step, i: InstanceId, x: SubId)
    requires Inv(s) && Numbered(s.topics) && Registered(s.topics, i, x) && !(step.Submit? && step.id == i)
    ensures Registered(Broker.Next(s, step).topics, i, x) ==> Follows(s.topics, Broker.Next(s, step).topics, i, x)
  {
    StepSends(s, step, i, x);
    RecordKept(s, step, i);
  }

  lemma {:induction false} RunSends(s: State, steps: seq<Broker.Step>, i: InstanceId, x: SubId)
    requires Inv(s) && Numbered(s.topics) && Stays(s, steps, i, x)
    ensures Follows(s.topics, Broker.Run(s, steps).topics, i, x)
    decreases |steps|
  {
    if steps == [] {
      var log, sub := s.topics.insts[i].log, s.topics.insts[i].subs[x];
      assert log[|log|..] == [] && sub.offered + [] == sub.offered;
    } else {
      var s1 := Broker.Next(s, steps[0]);
      StepInv(s, steps[0]);
      StepNumbered(s, steps[0]);
      StepFollows(s, steps[0], i, x);
      RunSends(s1, steps[1..], i, x);
      FollowsOn(s.topics, s1.topics, Broker.Run(s, steps).topics, i, x);
    }
  }

  /**
   The feed theorem: in every run, a subscriber that stays has been offered the
   events it was opened with and then exactly those published on its topic since,
   in order; its channel accounts for all of them.
   */
  lemma SubscribersAreFed(before: seq<Broker.Step>, i: InstanceId, size: int, after: seq<Broker.Step>)
    requires var s := Broker.Run(INITIAL, before);
      && !s.closed && !RecordOf(s.topics, i).finished
      && Stays(Broker.Next(s, SubscribeTo(i, size)), after, i, s.topics.nextSub)
    ensures var s := Broker.Run(INITIAL, before);
      var t := Broker.Run(Broker.Next(s, SubscribeTo(i, size)), after).topics;
      var x := s.topics.nextSub;
      && Registered(t, i, x) && LogOf(s.topics, i) <= LogOf(t, i)
      && t.insts[i].subs[x].offered == FirstEvents(s.topics, i) + LogOf(t, i)[|LogOf(s.topics, i)|..]
      && Accounted(t.insts[i].subs[x])
  {
    var s := Broker.Run(INITIAL, before);
    ReachableInv(before);
    assert Numbered(INITIAL.topics);
    RunNumbered(INITIAL, before);
    var s1 := Broker.Next(s, SubscribeTo(i, size));
    StepInv(s, SubscribeTo(i, size));
    StepNumbered(s, SubscribeTo(i, size));
    RunSends(s1, after, i, s.topics.nextSub);
    RunInv(s1, after);
    var t := Broker.Run(s1, after).topics;
    assert RecordOk(t.insts[i]);
  }
}
