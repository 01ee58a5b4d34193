/**
 The instance topics of the in-memory broker (core/in_memory_message_broker.go):
 one record per instance with its retained events and its open subscriptions.
 */
module BrokerTopics {
  import opened Prelude
  import opened Subscriber
  import opened BrokerJobs

  type SubId = nat

  /** How many items each consumer took from its channel before a write. */
  type Reads = map<SubId, nat>

  /**
   An instance record. `log` is history: every event published on the topic since
   the record was created.
   */
  datatype Record = Record(
    key: ProcessKey,
    latest: Option<Event>,
    terminal: Option<Event>,
    finished: bool,
    subs: map<SubId, Sub>,
    log: seq<Event>)

  /** `ended` is history: the subscriptions whose channel has been closed. */
  datatype Topics = Topics(insts: map<InstanceId, Record>, nextSub: SubId, ended: set<(SubId, Sub)>)

  const NO_KEY := ProcessKey("", "", "")
  const NO_TOPICS := Topics(map[], 0, {})
  const INSTANCE_NOT_FOUND := Error("INSTANCE_NOT_FOUND")

  /** A record starts with only a routing key, and the key is empty unless Submit created it. */
  function NewRecord(key: ProcessKey): Record {
    Record(key, None, None, false, map[], [])
  }

  function RecordOf(t: Topics, i: InstanceId): Record {
    if i in t.insts then t.insts[i] else NewRecord(NO_KEY)
  }

  // ----- Publishing -----

  datatype Retained = Retained(latest: Option<Event>, terminal: Option<Event>)

  /** What a record keeps for late subscribers after one more event. */
  function Retain(r: Retained, e: Event): Retained {
    match e
    case Lifecycle(_) => r.(latest := Some(e))
    case Result(_) => r.(terminal := Some(e))
    case Error(_) => if r.latest == Some(Lifecycle(Failed)) then r.(terminal := Some(e)) else r
    case InputRequest(_) => r
    case NodeCompleted(_) => r
  }

  function TakenFrom(taken: Reads, id: SubId): nat {
    if id in taken then taken[id] else 0
  }

  /** A write to one channel, after its consumer has taken n items. */
  function Write(s: Sub, e: Event, n: nat): Sub {
    Send(Drain(s, n), e)
  }

  function SendAll(subs: map<SubId, Sub>, e: Event, taken: Reads): map<SubId, Sub> {
    map id | id in subs :: Write(subs[id], e, TakenFrom(taken, id))
  }

  function Published(rec: Record, e: Event, taken: Reads): Record {
    var kept := Retain(Retained(rec.latest, rec.terminal), e);
    rec.(latest := kept.latest, terminal := kept.terminal, subs := SendAll(rec.subs, e, taken), log := rec.log + [e])
  }

  function Publish(t: Topics, i: InstanceId, e: Event, taken: Reads): Topics {
    t.(insts := t.insts[i := Published(RecordOf(t, i), e, taken)])
  }

  /** The three ways an instance ends, with the event that follows the terminal lifecycle event. */
  datatype Ending = Completes(outcome: string) | Fails(code: string) | Cancels {
    function Phase(): Phase {
      match this
      case Completes(_) => Completed
      case Fails(_) => Failed
      case Cancels => Cancelled
    }

    function Extra(): Option<Event> {
      match this
      case Completes(r) => Some(Result(r))
      case Fails(c) => Some(Error(c))
      case Cancels => None
    }
  }

  function CloseAll(subs: map<SubId, Sub>): set<(SubId, Sub)> {
    set id | id in subs :: (id, Close(subs[id]))
  }

  /** Terminal lifecycle event, then the extra event, as the subscribers and the record see them. */
  function Finale(rec: Record, end: Ending, before: Reads, between: Reads): Record {
    var rec' := Published(rec, Lifecycle(end.Phase()), before);
    if end.Extra().Some? then Published(rec', end.Extra().value, between) else rec'
  }

  /** Finishing: both events, then every channel is closed. A finished instance is left alone. */
  function Finish(t: Topics, i: InstanceId, end: Ending, before: Reads, between: Reads): Topics {
    if RecordOf(t, i).finished then t
    else
      var rec := Finale(RecordOf(t, i), end, before, between);
      t.(insts := t.insts[i := rec.(finished := true, subs := map[])], ended := t.ended + CloseAll(rec.subs))
  }

  // ----- Subscribing -----

  function Replay(rec: Record): seq<Event> {
    (if rec.latest.Some? then [rec.latest.value] else []) + (if rec.terminal.Some? then [rec.terminal.value] else [])
  }

  function FirstEvents(t: Topics, i: InstanceId): seq<Event> {
    if i in t.insts then Replay(t.insts[i]) else [INSTANCE_NOT_FOUND]
  }

  /** The channel a subscriber is handed. */
  function NewChannel(t: Topics, i: InstanceId, size: int): Sub {
    var sub := Open(size, FirstEvents(t, i));
    if RecordOf(t, i).finished then Close(sub) else sub
  }

  /** A finished instance hands out a closed channel; otherwise the channel is registered. */
  function Subscribe(t: Topics, i: InstanceId, size: int): Topics {
    var rec := RecordOf(t, i);
    if rec.finished then t
    else
      t.(insts := t.insts[i := rec.(subs := rec.subs[t.nextSub := NewChannel(t, i, size)])], nextSub := t.nextSub + 1)
  }

  /** The subscriber's context ends: its channel is closed, unless that already happened. */
  function Unsubscribe(t: Topics, i: InstanceId, id: SubId): Topics {
    if i !in t.insts || id !in t.insts[i].subs then t
    else
      var rec := t.insts[i];
      t.(insts := t.insts[i := rec.(subs := rec.subs - {id})], ended := t.ended + {(id, Close(rec.subs[id]))})
  }

  function ReadSome(t: Topics, i: InstanceId, id: SubId, n: nat): Topics {
    if i !in t.insts || id !in t.insts[i].subs then t
    else
      var rec := t.insts[i];
      t.(insts := t.insts[i := rec.(subs := rec.subs[id := Drain(rec.subs[id], n)])])
  }

  /** Retention: finished records past their expiry and without subscribers go. */
  function Sweep(t: Topics, expired: set<InstanceId>): Topics {
    t.(insts := map i | i in t.insts && !(t.insts[i].finished && i in expired && t.insts[i].subs == map[]) :: t.insts[i])
  }

  /** Shutdown closes every channel. */
  function ShutDown(t: Topics): Topics {
    t.(insts := map i | i in t.insts :: t.insts[i].(subs := map[]),
       ended := t.ended + set i, x | i in t.insts && x in CloseAll(t.insts[i].subs) :: x)
  }

  // ----- What holds of every record and every channel -----

  /** Neither a terminal lifecycle event nor a result. */
  predicate Quiet(e: Event) {
    !e.Terminal() && !e.Result?
  }

  /** The log of an ended instance: one terminal lifecycle event, at k, with its extra event right after it. */
  ghost predicate EndsAt(log: seq<Event>, k: nat) {
    && k < |log| && log[k].Terminal()
    && (log[k].phase.Completed? ==> k + 1 < |log| && log[k + 1].Result?)
    && (log[k].phase.Failed? ==> k + 1 < |log| && log[k + 1].Error?)
    && forall j | 0 <= j < |log| && j != k :: Quiet(log[j]) || (j == k + 1 && log[k].phase.Completed? && log[j].Result?)
  }

  ghost predicate LogOk(log: seq<Event>, finished: bool) {
    if finished then exists k: nat :: EndsAt(log, k) else forall e | e in log :: Quiet(e)
  }

  function RetainAll(log: seq<Event>): Retained {
    if log == [] then Retained(None, None) else Retain(RetainAll(log[..|log| - 1]), log[|log| - 1])
  }

  predicate IsTerminal(item: Item) {
    item.Real? && item.event.Terminal()
  }

  /** A registered channel: open, accounting for its events, and with nothing terminal in it. */
  ghost predicate LiveSub(s: Sub) {
    !s.closed && Accounted(s) && forall i | 0 <= i < |s.Channel()| :: !IsTerminal(s.Channel()[i])
  }

  /** After a terminal lifecycle event comes at most the result or error that belongs to its ending, and then the close. */
  ghost predicate EndedSub(s: Sub) {
    && s.closed && Accounted(s)
    && forall i | 0 <= i < |s.Channel()| && IsTerminal(s.Channel()[i]) :: TerminalLast(s.Channel(), i)
  }

  /** At i stands the terminal lifecycle event of this ending, and after it at most the ending's own extra event. */
  ghost predicate ClosesWith(ch: seq<Item>, i: nat, end: Ending) {
    && i < |ch| <= i + 2 && ch[i] == Real(Lifecycle(end.Phase()))
    && (i + 1 < |ch| ==> end.Extra().Some? && ch[i + 1] == Real(end.Extra().value))
  }

  ghost predicate TerminalLast(ch: seq<Item>, i: nat) {
    exists end :: ClosesWith(ch, i, end)
  }

  ghost predicate RecordOk(rec: Record) {
    && Retained(rec.latest, rec.terminal) == RetainAll(rec.log)
    && LogOk(rec.log, rec.finished)
    && (rec.finished ==> rec.subs == map[])
    && forall id | id in rec.subs :: LiveSub(rec.subs[id])
  }

  ghost predicate TopicsOk(t: Topics) {
    && (forall i | i in t.insts :: RecordOk(t.insts[i]))
    && forall x | x in t.ended :: EndedSub(x.1)
  }

  // ----- Every operation keeps it -----

  lemma SendLive(s: Sub, e: Event, n: nat)
    requires LiveSub(s) && !e.Terminal()
    ensures LiveSub(Write(s, e, n))
  {
    var d := Drain(s, n);
    DrainAccounts(s, n);
    SendAccounts(d, e);
    SendChannel(d, e);
  }

  /** A send adds at most a notice and the event to the channel. */
  lemma SendChannel(s: Sub, e: Event)
    ensures var s' := Send(s, e);
      && s'.closed == s.closed
      && (|| s'.Channel() == s.Channel()
          || s'.Channel() == s.Channel() + [Drop]
          || s'.Channel() == s.Channel() + [Real(e)]
          || s'.Channel() == s.Channel() + [Drop, Real(e)])
      && (!s.dropped && s'.Channel() != s.Channel() ==> !s'.dropped)
      && (s'.Channel() != s.Channel() && s'.Channel() != s.Channel() + [Drop] ==> !s'.dropped)
      && (!s.dropped ==> s'.Channel() == s.Channel() || s'.Channel() == s.Channel() + [Real(e)])
  {
    var s' := Send(s, e);
    if !s.closed && |s.buf| < s.cap {
      assert !s.dropped ==> s'.Channel() == s.Channel() + [Real(e)];
      if s.dropped {
        var mid := s.buf + [Drop];
        if |mid| < s.cap {
          assert s'.Channel() == s.Channel() + [Drop, Real(e)];
        } else {
          assert s'.Channel() == s.Channel() + [Drop];
        }
      }
    }
  }

  lemma PublishedOk(rec: Record, e: Event, taken: Reads)
    requires RecordOk(rec) && Quiet(e)
    ensures RecordOk(Published(rec, e, taken))
  {
    var rec' := Published(rec, e, taken);
    assert rec'.log[..|rec'.log| - 1] == rec.log;
    if rec.finished {
      var k: nat :| EndsAt(rec.log, k);
      assert EndsAt(rec'.log, k);
    }
    forall id | id in rec'.subs
      ensures LiveSub(rec'.subs[id])
    {
      SendLive(rec.subs[id], e, TakenFrom(taken, id));
    }
  }

  lemma NewRecordOk(key: ProcessKey)
    ensures RecordOk(NewRecord(key))
  {
  }

  lemma PublishOk(t: Topics, i: InstanceId, e: Event, taken: Reads)
    requires TopicsOk(t) && Quiet(e)
    ensures TopicsOk(Publish(t, i, e, taken))
  {
    NewRecordOk(NO_KEY);
    PublishedOk(RecordOf(t, i), e, taken);
  }

  /** The last writes to one channel: the terminal lifecycle event and, if there is one, the extra event. */
  function LastWrites(s: Sub, end: Ending, n: nat, m: nat): Sub {
    var s' := Write(s, Lifecycle(end.Phase()), n);
    if end.Extra().Some? then Write(s', end.Extra().value, m) else s'
  }

  lemma LastWritesEnd(s: Sub, end: Ending, n: nat, m: nat)
    requires LiveSub(s)
    ensures EndedSub(Close(LastWrites(s, end, n, m)))
    ensures var ch := LastWrites(s, end, n, m).Channel();
      forall i | 0 <= i < |ch| && IsTerminal(ch[i]) :: ClosesWith(ch, i, end)
  {
    var d, t := Drain(s, n), Lifecycle(end.Phase());
    DrainAccounts(s, n);
    SendAccounts(d, t);
    SendChannel(d, t);
    var s1 := Send(d, t);
    var last := LastWrites(s, end, n, m);
    if end.Extra().Some? {
      DrainAccounts(s1, m);
      SendAccounts(Drain(s1, m), end.Extra().value);
      SendChannel(Drain(s1, m), end.Extra().value);
    }
    var ch := last.Channel();
    forall i | 0 <= i < |ch| && IsTerminal(ch[i])
      ensures ClosesWith(ch, i, end)
    {
      assert i >= |s.Channel()|;
    }
    assert Close(last).Channel() == ch;
    StepAccounts(last, Closes);
  }

  lemma FinaleLog(rec: Record, end: Ending, before: Reads, between: Reads)
    requires RecordOk(rec) && !rec.finished
    ensures var rec' := Finale(rec, end, before, between);
      LogOk(rec'.log, true) && Retained(rec'.latest, rec'.terminal) == RetainAll(rec'.log) && rec'.finished == rec.finished
  {
    var t := Lifecycle(end.Phase());
    var mid := rec.log + [t];
    assert mid[..|mid| - 1] == rec.log;
    var rec' := Finale(rec, end, before, between);
    if end.Extra().Some? {
      assert rec'.log == mid + [end.Extra().value];
      assert rec'.log[..|rec'.log| - 1] == mid;
    }
    assert EndsAt(rec'.log, |rec.log|);
  }

  lemma FinaleSubs(rec: Record, end: Ending, before: Reads, between: Reads, id: SubId)
    requires id in rec.subs
    ensures id in Finale(rec, end, before, between).subs
    ensures Finale(rec, end, before, between).subs[id] == LastWrites(rec.subs[id], end, TakenFrom(before, id), TakenFrom(between, id))
  {
    var mid := SendAll(rec.subs, Lifecycle(end.Phase()), before);
    assert mid[id] == Write(rec.subs[id], Lifecycle(end.Phase()), TakenFrom(before, id));
    if end.Extra().Some? {
      var last := SendAll(mid, end.Extra().value, between);
      assert last[id] == Write(mid[id], end.Extra().value, TakenFrom(between, id));
    }
  }

  lemma FinaleKeys(rec: Record, end: Ending, before: Reads, between: Reads)
    ensures Finale(rec, end, before, between).subs.Keys == rec.subs.Keys
  {
    var mid := SendAll(rec.subs, Lifecycle(end.Phase()), before);
    assert mid.Keys == rec.subs.Keys;
    assert end.Extra().Some? ==> SendAll(mid, end.Extra().value, between).Keys == mid.Keys;
  }

  lemma FinishOk(t: Topics, i: InstanceId, end: Ending, before: Reads, between: Reads)
    requires TopicsOk(t)
    ensures TopicsOk(Finish(t, i, end, before, between))
  {
    var rec := RecordOf(t, i);
    NewRecordOk(NO_KEY);
    if !rec.finished {
      var rec' := Finale(rec, end, before, between);
      FinaleLog(rec, end, before, between);
      forall x | x in CloseAll(rec'.subs)
        ensures EndedSub(x.1)
      {
        var id :| id in rec'.subs && x == (id, Close(rec'.subs[id]));
        FinaleKeys(rec, end, before, between);
        FinaleSubs(rec, end, before, between, id);
        LastWritesEnd(rec.subs[id], end, TakenFrom(before, id), TakenFrom(between, id));
      }
    }
  }

  /** Every channel that a finish closes ends with that finish's own events. */
  lemma FinishCloses(t: Topics, i: InstanceId, end: Ending, before: Reads, between: Reads, x: (SubId, Sub), k: nat)
    requires TopicsOk(t) && x in Finish(t, i, end, before, between).ended && x !in t.ended
    requires k < |x.1.Channel()| && IsTerminal(x.1.Channel()[k])
    ensures ClosesWith(x.1.Channel(), k, end)
  {
    var rec := RecordOf(t, i);
    NewRecordOk(NO_KEY);
    var rec' := Finale(rec, end, before, between);
    var id :| id in rec'.subs && x == (id, Close(rec'.subs[id]));
    FinaleKeys(rec, end, before, between);
    FinaleSubs(rec, end, before, between, id);
    LastWritesEnd(rec.subs[id], end, TakenFrom(before, id), TakenFrom(between, id));
    assert x.1.Channel() == rec'.subs[id].Channel();
  }

  /** A log with nothing terminal in it retains only a non-terminal lifecycle event. */
  lemma {:induction false} QuietRetains(log: seq<Event>)
    requires forall e | e in log :: Quiet(e)
    ensures RetainAll(log).terminal.None?
    ensures RetainAll(log).latest.Some? ==> RetainAll(log).latest.value.Lifecycle? && !RetainAll(log).latest.value.Terminal()
  {
    if log != [] {
      QuietRetains(log[..|log| - 1]);
      assert log[|log| - 1] in log;
    }
  }

  lemma SubscribeOk(t: Topics, i: InstanceId, size: int)
    requires TopicsOk(t)
    ensures TopicsOk(Subscribe(t, i, size))
    ensures !RecordOf(t, i).finished ==> LiveSub(NewChannel(t, i, size))
  {
    var rec := RecordOf(t, i);
    NewRecordOk(NO_KEY);
    if !rec.finished {
      var sub := NewChannel(t, i, size);
      QuietRetains(rec.log);
      OpenAccounts(size, FirstEvents(t, i));
      assert sub.Channel() == Reals(FirstEvents(t, i));
      assert LiveSub(sub);
    }
  }

  lemma LiveCloses(s: Sub)
    requires LiveSub(s)
    ensures EndedSub(Close(s))
  {
    StepAccounts(s, Closes);
    assert Close(s).Channel() == s.Channel();
  }

  lemma UnsubscribeOk(t: Topics, i: InstanceId, id: SubId)
    requires TopicsOk(t)
    ensures TopicsOk(Unsubscribe(t, i, id))
  {
    if i in t.insts && id in t.insts[i].subs {
      assert RecordOk(t.insts[i]);
      LiveCloses(t.insts[i].subs[id]);
    }
  }

  lemma ReadOk(t: Topics, i: InstanceId, id: SubId, n: nat)
    requires TopicsOk(t)
    ensures TopicsOk(ReadSome(t, i, id, n))
  {
    if i in t.insts && id in t.insts[i].subs {
      assert RecordOk(t.insts[i]);
      DrainAccounts(t.insts[i].subs[id], n);
    }
  }

  lemma ShutDownOk(t: Topics)
    requires TopicsOk(t)
    ensures TopicsOk(ShutDown(t))
  {
    forall x | x in ShutDown(t).ended
      ensures EndedSub(x.1)
    {
      if x !in t.ended {
        var i :| i in t.insts && x in CloseAll(t.insts[i].subs);
        assert RecordOk(t.insts[i]);
        var id :| id in t.insts[i].subs && x == (id, Close(t.insts[i].subs[id]));
        LiveCloses(t.insts[i].subs[id]);
      }
    }
  }

  // ----- What a late subscriber sees -----

  /** The last lifecycle event of a log. */
  function LastLifecycle(log: seq<Event>): Option<Event> {
    if log == [] then None
    else if log[|log| - 1].Lifecycle? then Some(log[|log| - 1])
    else LastLifecycle(log[..|log| - 1])
  }

  lemma {:induction false} RetainsLastLifecycle(log: seq<Event>)
    ensures RetainAll(log).latest == LastLifecycle(log)
  {
    if log != [] {
      RetainsLastLifecycle(log[..|log| - 1]);
    }
  }

  /** A lifecycle event stays the last one exactly until another is published. */
  lemma {:induction false} LastLifecycleIs(log: seq<Event>, k: nat)
    requires k < |log| && log[k].Lifecycle?
    ensures (forall j | k < j < |log| :: !log[j].Lifecycle?) ==> LastLifecycle(log) == Some(log[k])
    decreases |log|
  {
    if k < |log| - 1 {
      LastLifecycleIs(log[..|log| - 1], k);
    }
  }

  /** Once a result is published it is the retained terminal event: nothing that may follow displaces it. */
  lemma {:induction false} ResultRetained(log: seq<Event>, k: nat)
    requires EndsAt(log, k) && log[k] == Lifecycle(Completed)
    ensures RetainAll(log).terminal == Some(log[k + 1])
    ensures RetainAll(log).latest != Some(Lifecycle(Failed))
    decreases |log|
  {
    var init, e := log[..|log| - 1], log[|log| - 1];
    if k + 1 < |log| - 1 {
      assert forall j | 0 <= j < |init| :: init[j] == log[j];
      assert Quiet(e);
      ResultRetained(init, k);
    } else {
      RetainsLastLifecycle(log);
      assert init[k] == log[k];
      LastLifecycleIs(log, k);
    }
  }

  ghost predicate CompletedAt(log: seq<Event>, k: nat) {
    k < |log| && log[k] == Lifecycle(Completed)
  }

  lemma {:induction false} SomeLifecycle(log: seq<Event>, k: nat)
    requires k < |log| && log[k].Lifecycle?
    ensures LastLifecycle(log).Some?
    decreases |log|
  {
    if k < |log| - 1 {
      SomeLifecycle(log[..|log| - 1], k);
    }
  }

  /**
   A late subscriber's first event is the last lifecycle event published on the
   topic; the replay is at most two events into a buffer of at least two, so it
   never blocks; a finished topic hands out a closed channel; and if the instance
   completed, the second and last event is the reported result.
   */
  lemma LateSubscriber(t: Topics, i: InstanceId, size: int)
    requires TopicsOk(t) && i in t.insts
    ensures var rec, sub := t.insts[i], NewChannel(t, i, size);
      && |sub.Channel()| <= 2 <= sub.cap
      && (LastLifecycle(rec.log).Some? ==> |sub.Channel()| >= 1 && sub.Channel()[0] == Real(LastLifecycle(rec.log).value))
      && (sub.closed <==> rec.finished)
      && (forall k: nat | EndsAt(rec.log, k) && CompletedAt(rec.log, k) ::
            |sub.Channel()| == 2 && sub.Channel()[1] == Real(rec.log[k + 1]))
  {
    var rec, sub := t.insts[i], NewChannel(t, i, size);
    assert RecordOk(rec);
    RetainsLastLifecycle(rec.log);
    assert sub.Channel() == Reals(Replay(rec));
    forall k: nat | EndsAt(rec.log, k) && CompletedAt(rec.log, k)
      ensures |sub.Channel()| == 2 && sub.Channel()[1] == Real(rec.log[k + 1])
    {
      ResultRetained(rec.log, k);
      SomeLifecycle(rec.log, k);
    }
  }

  // ----- What a report after the end can still change -----

  /** The terminal lifecycle event stays the replayed one exactly as long as nobody publishes another lifecycle event. */
  lemma {:induction false} TerminalStaysLatest(log: seq<Event>, k: nat)
    requires EndsAt(log, k)
    ensures LastLifecycle(log) == Some(log[k]) <==> forall j | k < j < |log| :: !log[j].Lifecycle?
    decreases |log|
  {
    if k < |log| - 1 && !log[|log| - 1].Lifecycle? {
      var init := log[..|log| - 1];
      assert forall j | 0 <= j < |init| :: init[j] == log[j];
      if k + 1 == |log| - 1 {
        LastLifecycleIs(init, k);
      } else {
        TerminalStaysLatest(init, k);
      }
    }
  }

  /** While the failed phase is the latest one, the retained error is the last error published. */
  lemma {:induction false} ErrorWhileFailed(log: seq<Event>, k: nat, j: nat)
    requires k < j < |log| && log[k] == Lifecycle(Failed) && log[j].Error?
    requires forall x | k < x < |log| :: Quiet(log[x]) && !log[x].Lifecycle?
    requires forall x | j < x < |log| :: !log[x].Error?
    ensures RetainAll(log) == Retained(Some(Lifecycle(Failed)), Some(log[j]))
    decreases |log|
  {
    var init := log[..|log| - 1];
    if j < |log| - 1 {
      assert Quiet(log[|log| - 1]);
      ErrorWhileFailed(init, k, j);
    } else {
      RetainsLastLifecycle(init);
      LastLifecycleIs(init, k);
    }
  }

  /**
   What a failed instance retains is the last error published before the next
   lifecycle event (at m, or the end of the log), not necessarily the one it
   failed with.
   */
  lemma {:induction false} FailedRetains(log: seq<Event>, k: nat, j: nat, m: nat)
    requires EndsAt(log, k) && log[k] == Lifecycle(Failed)
    requires k < j < m <= |log| && log[j].Error? && (m < |log| ==> log[m].Lifecycle?)
    requires forall x | k < x < m :: !log[x].Lifecycle?
    requires forall x | j < x < m :: !log[x].Error?
    ensures RetainAll(log).terminal == Some(log[j])
    ensures m < |log| ==> RetainAll(log).latest.Some? && RetainAll(log).latest != Some(Lifecycle(Failed))
    decreases |log|
  {
    if m == |log| {
      ErrorWhileFailed(log, k, j);
    } else {
      var init, e := log[..|log| - 1], log[|log| - 1];
      assert forall x | 0 <= x < |init| :: init[x] == log[x];
      assert Quiet(e);
      FailedRetains(init, k, j, m);
    }
  }

  /** A request answered after a failure replaces the error a late subscriber is shown. */
  lemma FailureCanBeMasked(t: Topics, i: InstanceId)
    requires TopicsOk(t) && i !in t.insts
    ensures var t' := Publish(Finish(t, i, Fails("PROCESS_FAILED"), map[], map[]), i, Error("ALREADY_FINISHED"), map[]);
      NewChannel(t', i, 2).Channel() == [Real(Lifecycle(Failed)), Real(Error("ALREADY_FINISHED"))]
  {
    var t1 := Finish(t, i, Fails("PROCESS_FAILED"), map[], map[]);
    assert t1.insts[i].latest == Some(Lifecycle(Failed));
    var t' := Publish(t1, i, Error("ALREADY_FINISHED"), map[]);
    assert FirstEvents(t', i) == [Lifecycle(Failed), Error("ALREADY_FINISHED")];
    assert Reals(FirstEvents(t', i)) == [Real(Lifecycle(Failed)), Real(Error("ALREADY_FINISHED"))];
  }
}
