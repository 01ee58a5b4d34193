/**
 One subscriber of an instance topic (inMemSub in
 core/in_memory_message_broker.go): a bounded channel that the broker writes
 without ever blocking and a consumer reads at its own pace. A full buffer drops
 events; the first write that fits afterwards is preceded by a synthetic
 BACKPRESSURE_DROP.
 */
module Subscriber {

  datatype Phase = Pending | Running | Suspended | Completed | Cancelled | Failed {
    predicate Finished() {
      Completed? || Cancelled? || Failed?
    }
  }

  datatype Event =
    | Lifecycle(phase: Phase)
    | Result(outcome: string)
    | Error(code: string)
    | InputRequest(request: string)
    | NodeCompleted(node: string)
  {
    predicate Terminal() {
      Lifecycle? && phase.Finished()
    }
  }

  /** What sits in the channel: an event, or the synthetic notice that events were dropped. */
  datatype Item = Real(event: Event) | Drop

  /**
   `buf` is the Go channel, `dropped` and `closed` its two flags. `taken` and
   `offered` are history: the items already read, and the events the broker has
   tried to deliver while the channel was open.
   */
  datatype Sub = Sub(cap: nat, buf: seq<Item>, dropped: bool, closed: bool, taken: seq<Item>, offered: seq<Event>) {
    /** Everything that ever entered the channel, in order. */
    function Channel(): seq<Item> {
      taken + buf
    }
  }

  function Reals(events: seq<Event>): seq<Item> {
    seq(|events|, i requires 0 <= i < |events| => Real(events[i]))
  }

  /** A new subscription, with the retained events already in its buffer. */
  function Open(size: int, replay: seq<Event>): Sub {
    Sub(if size > 2 then size else 2, Reals(replay), false, false, [], replay)
  }

  /** A non-blocking write of the event itself. */
  function Offer(s: Sub, e: Event): Sub {
    if |s.buf| < s.cap then s.(buf := s.buf + [Real(e)]) else s.(dropped := true)
  }

  function Send(s: Sub, e: Event): Sub {
    if s.closed then s
    else
      var s' := s.(offered := s.offered + [e]);
      if !s.dropped then Offer(s', e)
      else if |s.buf| < s.cap then Offer(s'.(buf := s.buf + [Drop], dropped := false), e)
      else s'
  }

  /** The consumer takes up to n items. */
  function Drain(s: Sub, n: nat): Sub {
    var k := if n < |s.buf| then n else |s.buf|;
    s.(buf := s.buf[k..], taken := s.taken + s.buf[..k])
  }

  function Close(s: Sub): Sub {
    s.(closed := true)
  }

  // ----- No event is lost silently -----

  /**
   The cuts tile the offered events: channel position i accounts for the events
   from cuts[i] up to cuts[i + 1]. A real item accounts for exactly the event it
   carries, a Drop for at least one, and what lies past the last cut has been
   dropped and not yet announced: something, exactly while the flag is up.
   */
  ghost predicate Accounts(s: Sub, cuts: seq<nat>) {
    var ch := s.Channel();
    && |cuts| == |ch| + 1 && cuts[0] == 0
    && (forall i | 0 <= i < |ch| :: Stands(s, cuts, i))
    && cuts[|ch|] <= |s.offered|
    && (cuts[|ch|] < |s.offered| <==> s.dropped)
  }

  ghost predicate Stands(s: Sub, cuts: seq<nat>, i: nat)
    requires i < |s.Channel()| && i + 1 < |cuts|
  {
    && cuts[i] < cuts[i + 1] <= |s.offered|
    && (s.Channel()[i].Real? ==> cuts[i + 1] == cuts[i] + 1 && s.Channel()[i] == Real(s.offered[cuts[i]]))
  }

  ghost predicate Accounted(s: Sub) {
    exists cuts: seq<nat> :: Accounts(s, cuts)
  }

  lemma OpenAccounts(size: int, replay: seq<Event>)
    ensures Accounted(Open(size, replay))
  {
    var s := Open(size, replay);
    var cuts: seq<nat> := seq(|replay| + 1, i => i);
    assert s.Channel() == Reals(replay);
    assert forall i | 0 <= i < |s.Channel()| :: Stands(s, cuts, i);
    assert Accounts(s, cuts);
  }

  /** Adding one item that accounts for the next stretch of offered events. */
  lemma Extend(s: Sub, s': Sub, cuts: seq<nat>, item: Item, upTo: nat)
    requires Accounts(s, cuts) && s'.Channel() == s.Channel() + [item]
    requires s.offered <= s'.offered && cuts[|cuts| - 1] < upTo <= |s'.offered|
    requires item.Real? ==> upTo == cuts[|cuts| - 1] + 1 && item == Real(s'.offered[upTo - 1])
    requires upTo < |s'.offered| <==> s'.dropped
    ensures Accounts(s', cuts + [upTo])
  {
    var cuts' := cuts + [upTo];
    forall i | 0 <= i < |s'.Channel()|
      ensures Stands(s', cuts', i)
    {
      if i < |s.Channel()| {
        assert Stands(s, cuts, i);
      }
    }
  }

  /** Offering an event that neither fits nor announces anything leaves the tiling as it was. */
  lemma Withhold(s: Sub, s': Sub, cuts: seq<nat>)
    requires Accounts(s, cuts) && s'.Channel() == s.Channel() && s.offered <= s'.offered
    requires cuts[|cuts| - 1] < |s'.offered| <==> s'.dropped
    ensures Accounts(s', cuts)
  {
    forall i | 0 <= i < |s'.Channel()|
      ensures Stands(s', cuts, i)
    {
      assert Stands(s, cuts, i);
    }
  }

  lemma OfferAccounts(s: Sub, s': Sub, e: Event, cuts: seq<nat>)
    requires Accounts(s, cuts) && !s.dropped && s' == Offer(s.(offered := s.offered + [e]), e)
    ensures Accounted(s')
  {
    if |s.buf| < s.cap {
      assert s'.Channel() == s.Channel() + [Real(e)];
      Extend(s, s', cuts, Real(e), |s.offered| + 1);
      assert Accounts(s', cuts + [|s.offered| + 1]);
    } else {
      Withhold(s, s', cuts);
    }
  }

  lemma SendAccounts(s: Sub, e: Event)
    requires Accounted(s)
    ensures Accounted(Send(s, e))
  {
    var cuts: seq<nat> :| Accounts(s, cuts);
    if s.closed {
    } else if !s.dropped {
      OfferAccounts(s, Send(s, e), e, cuts);
    } else if |s.buf| < s.cap {
      var mid := s.(buf := s.buf + [Drop], dropped := false);
      assert mid.Channel() == s.Channel() + [Drop];
      Extend(s, mid, cuts, Drop, |s.offered|);
      OfferAccounts(mid, Send(s, e), e, cuts + [|s.offered|]);
    } else {
      Withhold(s, Send(s, e), cuts);
    }
  }

  lemma DrainAccounts(s: Sub, n: nat)
    requires Accounted(s)
    ensures Accounted(Drain(s, n)) && Drain(s, n).Channel() == s.Channel()
  {
    var cuts: seq<nat> :| Accounts(s, cuts);
    assert Drain(s, n).Channel() == s.Channel();
    Withhold(s, Drain(s, n), cuts);
  }

  // ----- Whole runs of one subscription -----

  datatype Step = Sends(event: Event) | Reads(count: nat) | Closes

  function Next(s: Sub, step: Step): Sub {
    match step
    case Sends(e) => Send(s, e)
    case Reads(n) => Drain(s, n)
    case Closes => Close(s)
  }

  function Run(s: Sub, steps: seq<Step>): Sub
    decreases |steps|
  {
    if steps == [] then s else Run(Next(s, steps[0]), steps[1..])
  }

  /** A send loses something exactly when what it has to write does not fit: the event, and before it a notice still owed. */
  lemma SendLosesIff(s: Sub, e: Event)
    requires !s.closed
    ensures Send(s, e).dropped <==> s.cap - |s.buf| < (if s.dropped then 2 else 1)
    ensures !Send(s, e).dropped ==> Send(s, e).buf == s.buf + (if s.dropped then [Drop, Real(e)] else [Real(e)])
  {
    assert s.dropped && |s.buf| < s.cap - 1 ==> s.buf + [Drop] + [Real(e)] == s.buf + [Drop, Real(e)];
  }

  lemma RunOne(s: Sub, step: Step, rest: seq<Step>)
    ensures Run(s, [step] + rest) == Run(Next(s, step), rest)
  {
    assert ([step] + rest)[1..] == rest;
  }

  lemma StepAccounts(s: Sub, step: Step)
    requires Accounted(s)
    ensures Accounted(Next(s, step))
  {
    match step
    case Sends(e) => SendAccounts(s, e);
    case Reads(n) => DrainAccounts(s, n);
    case Closes =>
      var cuts: seq<nat> :| Accounts(s, cuts);
      Withhold(s, Close(s), cuts);
  }

  /** Under every interleaving of sends, reads and close, the channel accounts for every offered event. */
  lemma {:induction false} RunAccounts(s: Sub, steps: seq<Step>)
    requires Accounted(s)
    ensures Accounted(Run(s, steps))
    decreases |steps|
  {
    if steps != [] {
      StepAccounts(s, steps[0]);
      RunAccounts(Next(s, steps[0]), steps[1..]);
    }
  }

  /** The events of the sends that come before any close. */
  function SentWhileOpen(steps: seq<Step>): seq<Event> {
    if steps == [] || steps[0].Closes? then []
    else (if steps[0].Sends? then [steps[0].event] else []) + SentWhileOpen(steps[1..])
  }

  /** What the channel accounts for is what was sent: the events it opened with, then every send before the close. */
  lemma {:induction false} OfferedIsSent(s: Sub, steps: seq<Step>)
    ensures Run(s, steps).offered == s.offered + if s.closed then [] else SentWhileOpen(steps)
    decreases |steps|
  {
    if steps != [] {
      OfferedIsSent(Next(s, steps[0]), steps[1..]);
    }
  }

  /** Two real items next to each other in the channel carry events that were offered next to each other. */
  lemma NeighboursStayNeighbours(s: Sub, cuts: seq<nat>, i: nat)
    requires Accounts(s, cuts) && i + 1 < |s.Channel()|
    requires s.Channel()[i].Real? && s.Channel()[i + 1].Real?
    ensures cuts[i] + 1 < |s.offered|
    ensures s.Channel()[i] == Real(s.offered[cuts[i]]) && s.Channel()[i + 1] == Real(s.offered[cuts[i] + 1])
  {
    assert Stands(s, cuts, i) && Stands(s, cuts, i + 1);
  }

  /** Real items keep the order in which their events were offered. */
  lemma {:induction false} OrderKept(s: Sub, cuts: seq<nat>, i: nat, j: nat)
    requires Accounts(s, cuts) && i < j < |s.Channel()|
    ensures cuts[i] < cuts[j]
    decreases j - i
  {
    assert Stands(s, cuts, i);
    if i + 1 < j {
      OrderKept(s, cuts, i + 1, j);
    }
  }

  /** Every dropped event has been announced exactly when the flag is down. */
  lemma AnnouncedIffFlagDown(s: Sub)
    requires Accounted(s)
    ensures (exists cuts: seq<nat> :: Accounts(s, cuts) && cuts[|cuts| - 1] == |s.offered|) <==> !s.dropped
  {
    var cuts: seq<nat> :| Accounts(s, cuts);
    if !s.dropped {
      assert cuts[|cuts| - 1] == |s.offered|;
    }
  }

  /**
   Closing does not flush the notice: a channel whose last event was dropped
   closes with that event neither delivered nor announced.
   */
  lemma CloseCanHideALoss()
    ensures var a, b, c := Lifecycle(Running), Lifecycle(Suspended), Lifecycle(Failed);
      var s := Run(Open(2, []), [Sends(a), Sends(b), Sends(c), Closes]);
      s.closed && s.Channel() == [Real(a), Real(b)] && s.offered == [a, b, c] && s.dropped
  {
    var a, b, c := Lifecycle(Running), Lifecycle(Suspended), Lifecycle(Failed);
    var s0 := Open(2, []);
    var s1 := Send(s0, a);
    var s2 := Send(s1, b);
    var s3 := Send(s2, c);
    assert s1.buf == [Real(a)] && s2.buf == [Real(a), Real(b)];
    assert s3 == s2.(dropped := true, offered := [a, b, c]);
    RunOne(s0, Sends(a), [Sends(b), Sends(c), Closes]);
    RunOne(s1, Sends(b), [Sends(c), Closes]);
    RunOne(s2, Sends(c), [Closes]);
    RunOne(s3, Closes, []);
    assert [Sends(a)] + [Sends(b), Sends(c), Closes] == [Sends(a), Sends(b), Sends(c), Closes];
    assert [Sends(b)] + [Sends(c), Closes] == [Sends(b), Sends(c), Closes];
    assert [Sends(c)] + [Closes] == [Sends(c), Closes];
    assert [Closes] + [] == [Closes];
  }
}
