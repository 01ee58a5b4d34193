/**
 The worker feed of the Azure registry store
 (brokers/azure-service-bus/registrystore.go): each poll is compared with the
 one before, worker by worker in whatever order the maps are walked, and the
 difference is published. A consumer that folds the updates it receives always
 holds exactly the live registrations of the latest poll.
 */
module RegistryFeed {
  import opened Prelude

  datatype Key = Key(name: string)

  /** What a poll saw of one worker. */
  datatype View = View(live: bool, keys: set<Key>)

  type Poll = map<string, View>

  datatype Pair = Pair(worker: string, key: Key)

  datatype Kind = Added | Removed | HeartbeatLost

  datatype Update = Update(kind: Kind, pair: Pair)

  function Apply(live: set<Pair>, u: Update): set<Pair> {
    if u.kind.Added? then live + {u.pair} else live - {u.pair}
  }

  function Fold(live: set<Pair>, updates: seq<Update>): set<Pair> {
    if updates == [] then live else Apply(Fold(live, updates[..|updates| - 1]), updates[|updates| - 1])
  }

  lemma FoldMore(live: set<Pair>, updates: seq<Update>, u: Update)
    ensures Fold(live, updates + [u]) == Apply(Fold(live, updates), u)
  {
    assert (updates + [u])[..|updates|] == updates;
  }

  lemma {:induction false} FoldJoins(live: set<Pair>, a: seq<Update>, b: seq<Update>)
    ensures Fold(live, a + b) == Fold(Fold(live, a), b)
  {
    if b == [] {
      assert a + b == a;
    } else {
      var last := |b| - 1;
      FoldJoins(live, a, b[..last]);
      assert (a + b)[..|a + b| - 1] == a + b[..last];
    }
  }

  /** The pair is registered by a worker that was present and live. */
  predicate IsLive(poll: Poll, p: Pair) {
    p.worker in poll && poll[p.worker].live && p.key in poll[p.worker].keys
  }

  function LivePairs(poll: Poll): set<Pair> {
    set w, k | w in poll && poll[w].live && k in poll[w].keys :: Pair(w, k)
  }

  lemma LivePairsAre(poll: Poll, p: Pair)
    ensures p in LivePairs(poll) <==> IsLive(poll, p)
  {
    if IsLive(poll, p) {
      assert p == Pair(p.worker, p.key);
    }
  }

  /** What the consumer holds: the new truth for the workers done, the old for the rest. */
  ghost predicate Reflects(held: set<Pair>, prev: Poll, cur: Poll, done: set<string>) {
    forall p: Pair :: p in held <==> if p.worker in done then IsLive(cur, p) else IsLive(prev, p)
  }

  /** Exactly the given keys of the worker have been added, or taken away. */
  ghost predicate Emitted(before: set<Pair>, after: set<Pair>, kind: Kind, worker: string, keys: set<Key>) {
    forall p: Pair :: p in after <==> if p.worker == worker && p.key in keys then kind.Added? else p in before
  }

  // ----- Which updates are due -----

  /**
   A pair that became live is added. One that stopped being live is lost with its
   worker's heartbeat if the worker is there but no longer live, and otherwise
   removed. Nothing else is announced.
   */
  predicate Due(prev: Poll, cur: Poll, u: Update) {
    match u.kind
    case Added => IsLive(cur, u.pair) && !IsLive(prev, u.pair)
    case HeartbeatLost => IsLive(prev, u.pair) && u.pair.worker in cur && !cur[u.pair.worker].live
    case Removed => IsLive(prev, u.pair) && !IsLive(cur, u.pair) && (u.pair.worker in cur ==> cur[u.pair.worker].live)
  }

  /** Every due update of the workers done has been announced, once, and nothing else. */
  ghost predicate Announced(updates: seq<Update>, prev: Poll, cur: Poll, done: set<string>) {
    NoDup(updates) && forall u :: u in updates <==> u.pair.worker in done && Due(prev, cur, u)
  }

  /** One update of the kind for each key of the worker, each once. */
  ghost predicate OnePerKey(updates: seq<Update>, kind: Kind, worker: string, keys: set<Key>) {
    NoDup(updates) && forall u :: u in updates <==> u.kind == kind && u.pair.worker == worker && u.pair.key in keys
  }

  lemma OneKeyMore(updates: seq<Update>, kind: Kind, worker: string, keys: set<Key>, k: Key)
    requires OnePerKey(updates, kind, worker, keys) && k !in keys
    ensures OnePerKey(updates + [Update(kind, Pair(worker, k))], kind, worker, keys + {k})
  {
    NoDupConcat(updates, [Update(kind, Pair(worker, k))]);
  }

  /** The updates of one more worker complete the announcement. */
  lemma WorkerAnnounced(emitted: seq<Update>, more: seq<Update>, prev: Poll, cur: Poll, done: set<string>, id: string)
    requires Announced(emitted, prev, cur, done) && (id in done ==> more == [])
    requires NoDup(more) && (id !in done ==> forall u :: u in more <==> u.pair.worker == id && Due(prev, cur, u))
    ensures Announced(emitted + more, prev, cur, done + {id})
  {
    NoDupConcat(emitted, more);
  }

  lemma TwoKindsApart(added: seq<Update>, removed: seq<Update>, worker: string, a: set<Key>, r: set<Key>)
    requires OnePerKey(added, Added, worker, a) && OnePerKey(removed, Removed, worker, r)
    ensures NoDup(added + removed)
  {
    NoDupConcat(added, removed);
  }

  /** Emit one update per key, in any order. */
  method EmitAll(kind: Kind, worker: string, keys: set<Key>, emitted: seq<Update>, ghost live: set<Pair>) returns (out: seq<Update>)
    ensures Emitted(Fold(live, emitted), Fold(live, out), kind, worker, keys)
    ensures |emitted| <= |out| && out[..|emitted|] == emitted && OnePerKey(out[|emitted|..], kind, worker, keys)
  {
    out := emitted;
    var rest := keys;
    while rest != {}
      invariant rest <= keys
      invariant Emitted(Fold(live, emitted), Fold(live, out), kind, worker, keys - rest)
      invariant |emitted| <= |out| && out[..|emitted|] == emitted && OnePerKey(out[|emitted|..], kind, worker, keys - rest)
      decreases |rest|
    {
      var k :| k in rest;
      FoldMore(live, out, Update(kind, Pair(worker, k)));
      OneKeyMore(out[|emitted|..], kind, worker, keys - rest, k);
      assert (out + [Update(kind, Pair(worker, k))])[|emitted|..] == out[|emitted|..] + [Update(kind, Pair(worker, k))];
      assert keys - (rest - {k}) == (keys - rest) + {k};
      out := out + [Update(kind, Pair(worker, k))];
      rest := rest - {k};
    }
    assert keys - rest == keys;
  }

  /** The updates appended for a worker are those of one kind for these keys, and those are the ones due. */
  lemma OneKindAnnounced(emitted: seq<Update>, out: seq<Update>, prev: Poll, cur: Poll, done: set<string>, id: string, kind: Kind, keys: set<Key>)
    requires Announced(emitted, prev, cur, done) && id !in done
    requires |emitted| <= |out| && out[..|emitted|] == emitted && OnePerKey(out[|emitted|..], kind, id, keys)
    requires forall u: Update | u.pair.worker == id :: Due(prev, cur, u) <==> u.kind == kind && u.pair.key in keys
    ensures Announced(out, prev, cur, done + {id})
  {
    assert out == emitted + out[|emitted|..];
    WorkerAnnounced(emitted, out[|emitted|..], prev, cur, done, id);
  }

  lemma NoneAnnounced(emitted: seq<Update>, prev: Poll, cur: Poll, done: set<string>, id: string)
    requires Announced(emitted, prev, cur, done) && id !in done
    requires forall u: Update | u.pair.worker == id :: !Due(prev, cur, u)
    ensures Announced(emitted, prev, cur, done + {id})
  {
    assert emitted + [] == emitted;
    WorkerAnnounced(emitted, [], prev, cur, done, id);
  }

  /** The worker was and is live: its new keys are added, the ones it no longer has removed. */
  method DiffKeys(id: string, prev: Poll, cur: Poll, emitted: seq<Update>, ghost live: set<Pair>, ghost done: set<string>) returns (out: seq<Update>)
    requires id in prev && id in cur && prev[id].live && cur[id].live && id !in done
    requires Reflects(Fold(live, emitted), prev, cur, done) && Announced(emitted, prev, cur, done)
    ensures Reflects(Fold(live, out), prev, cur, done + {id}) && Announced(out, prev, cur, done + {id})
  {
    var was, now := prev[id].keys, cur[id].keys;
    out := EmitAll(Added, id, now - was, emitted, live);
    ghost var mid := out;
    out := EmitAll(Removed, id, was - now, out, live);
    BothAnnounced(emitted, mid[|emitted|..], out[|mid|..], prev, cur, done, id);
    TwoStretches(emitted, mid, out);
    BothReflected(Fold(live, emitted), Fold(live, mid), Fold(live, out), prev, cur, done, id);
  }

  lemma TwoStretches(a: seq<Update>, b: seq<Update>, c: seq<Update>)
    requires |a| <= |b| <= |c| && b[..|a|] == a && c[..|b|] == b
    ensures c == a + (b[|a|..] + c[|b|..])
  {
    assert b == a + b[|a|..] && c == b + c[|b|..];
  }

  lemma BothReflected(before: set<Pair>, mid: set<Pair>, after: set<Pair>, prev: Poll, cur: Poll, done: set<string>, id: string)
    requires id in prev && id in cur && prev[id].live && cur[id].live && id !in done && Reflects(before, prev, cur, done)
    requires Emitted(before, mid, Added, id, cur[id].keys - prev[id].keys)
    requires Emitted(mid, after, Removed, id, prev[id].keys - cur[id].keys)
    ensures Reflects(after, prev, cur, done + {id})
  {
  }

  lemma BothAnnounced(emitted: seq<Update>, added: seq<Update>, removed: seq<Update>, prev: Poll, cur: Poll, done: set<string>, id: string)
    requires id in prev && id in cur && prev[id].live && cur[id].live && id !in done && Announced(emitted, prev, cur, done)
    requires OnePerKey(added, Added, id, cur[id].keys - prev[id].keys) && OnePerKey(removed, Removed, id, prev[id].keys - cur[id].keys)
    ensures Announced(emitted + (added + removed), prev, cur, done + {id})
  {
    TwoKindsApart(added, removed, id, cur[id].keys - prev[id].keys, prev[id].keys - cur[id].keys);
    forall u ensures u in added + removed <==> u.pair.worker == id && Due(prev, cur, u) {
      assert u in added + removed <==> u in added || u in removed;
    }
    WorkerAnnounced(emitted, added + removed, prev, cur, done, id);
  }

  /** The cases for a worker that the previous poll saw. */
  method DiffWorker(id: string, prev: Poll, cur: Poll, emitted: seq<Update>, ghost live: set<Pair>, ghost done: set<string>) returns (out: seq<Update>)
    requires id in prev && id !in done
    requires Reflects(Fold(live, emitted), prev, cur, done) && Announced(emitted, prev, cur, done)
    ensures Reflects(Fold(live, out), prev, cur, done + {id}) && Announced(out, prev, cur, done + {id})
  {
    var was := prev[id];
    out := emitted;
    if id !in cur {
      if was.live {
        out := EmitAll(Removed, id, was.keys, out, live);
        OneKindAnnounced(emitted, out, prev, cur, done, id, Removed, was.keys);
      } else {
        NoneAnnounced(emitted, prev, cur, done, id);
      }
    } else if !cur[id].live {
      if was.live {
        out := EmitAll(HeartbeatLost, id, was.keys, out, live);
        OneKindAnnounced(emitted, out, prev, cur, done, id, HeartbeatLost, was.keys);
      } else {
        NoneAnnounced(emitted, prev, cur, done, id);
      }
    } else if !was.live {
      out := EmitAll(Added, id, cur[id].keys, out, live);
      OneKindAnnounced(emitted, out, prev, cur, done, id, Added, cur[id].keys);
    } else {
      out := DiffKeys(id, prev, cur, out, live, done);
    }
  }

  /** A worker that only the current poll saw is added; one seen before has been dealt with. */
  method DiffNewWorker(id: string, prev: Poll, cur: Poll, emitted: seq<Update>, ghost live: set<Pair>, ghost done: set<string>) returns (out: seq<Update>)
    requires id in cur && prev.Keys <= done && (id in prev || id !in done)
    requires Reflects(Fold(live, emitted), prev, cur, done) && Announced(emitted, prev, cur, done)
    ensures Reflects(Fold(live, out), prev, cur, done + {id}) && Announced(out, prev, cur, done + {id})
  {
    out := emitted;
    if id !in prev && cur[id].live {
      out := EmitAll(Added, id, cur[id].keys, out, live);
    }
    assert out == emitted + out[|emitted|..];
    WorkerAnnounced(emitted, out[|emitted|..], prev, cur, done, id);
  }

  /** The updates that turn the previous poll into the current one, for any order of the maps. */
  method DiffWorkerViews(prev: Poll, cur: Poll) returns (out: seq<Update>)
    ensures Fold(LivePairs(prev), out) == LivePairs(cur)
    ensures NoDup(out) && forall u :: u in out <==> Due(prev, cur, u)
  {
    ghost var live := LivePairs(prev);
    ReflectsPrevious(prev, cur);
    out := DiffKnown(prev, cur, live);
    out := DiffNew(prev, cur, out, live);
    ReflectsCurrent(Fold(live, out), prev, cur, prev.Keys + cur.Keys);
    assert forall u | Due(prev, cur, u) :: u.pair.worker in prev.Keys + cur.Keys;
  }

  /** The first loop: every worker the previous poll saw. */
  method DiffKnown(prev: Poll, cur: Poll, ghost live: set<Pair>) returns (out: seq<Update>)
    requires Reflects(live, prev, cur, {})
    ensures Reflects(Fold(live, out), prev, cur, prev.Keys) && Announced(out, prev, cur, prev.Keys)
  {
    out := [];
    var rest := prev.Keys;
    while rest != {}
      invariant rest <= prev.Keys
      invariant Reflects(Fold(live, out), prev, cur, prev.Keys - rest) && Announced(out, prev, cur, prev.Keys - rest)
      decreases |rest|
    {
      var id :| id in rest;
      out := DiffWorker(id, prev, cur, out, live, prev.Keys - rest);
      assert prev.Keys - (rest - {id}) == (prev.Keys - rest) + {id};
      rest := rest - {id};
    }
    assert prev.Keys - rest == prev.Keys;
  }

  /** The second loop: every worker the current poll saw. */
  method DiffNew(prev: Poll, cur: Poll, emitted: seq<Update>, ghost live: set<Pair>) returns (out: seq<Update>)
    requires Reflects(Fold(live, emitted), prev, cur, prev.Keys) && Announced(emitted, prev, cur, prev.Keys)
    ensures Reflects(Fold(live, out), prev, cur, prev.Keys + cur.Keys) && Announced(out, prev, cur, prev.Keys + cur.Keys)
  {
    out := emitted;
    var rest := cur.Keys;
    ghost var done := prev.Keys;
    while rest != {}
      invariant rest <= cur.Keys && Handled(prev.Keys, cur.Keys, rest, done)
      invariant Reflects(Fold(live, out), prev, cur, done) && Announced(out, prev, cur, done)
      decreases |rest|
    {
      var id :| id in rest;
      out := DiffNewWorker(id, prev, cur, out, live, done);
      rest, done := rest - {id}, done + {id};
    }
    assert done == prev.Keys + cur.Keys;
  }

  /** The workers done are the previous ones and those of the current ones already walked. */
  ghost predicate Handled(prev: set<string>, cur: set<string>, rest: set<string>, done: set<string>) {
    forall id :: id in done <==> id in prev || (id in cur && id !in rest)
  }

  lemma ReflectsPrevious(prev: Poll, cur: Poll)
    ensures Reflects(LivePairs(prev), prev, cur, {})
  {
    forall p: Pair ensures p in LivePairs(prev) <==> IsLive(prev, p) {
      LivePairsAre(prev, p);
    }
  }

  lemma ReflectsCurrent(held: set<Pair>, prev: Poll, cur: Poll, done: set<string>)
    requires Reflects(held, prev, cur, done) && prev.Keys <= done && cur.Keys <= done
    ensures held == LivePairs(cur)
  {
    forall p: Pair ensures p in held <==> p in LivePairs(cur) {
      LivePairsAre(cur, p);
    }
  }

  /** The latest successful poll; a failed one keeps the previous view. */
  function Latest(first: Poll, polls: seq<Option<Poll>>): Poll {
    if polls == [] then first
    else if polls[|polls| - 1].Some? then polls[|polls| - 1].value
    else Latest(first, polls[..|polls| - 1])
  }

  /** Watching any number of polls, failed ones included. */
  method Watch(first: Poll, polls: seq<Option<Poll>>) returns (out: seq<Update>)
    ensures Fold(LivePairs(first), out) == LivePairs(Latest(first, polls))
  {
    var prev := first;
    out := [];
    for i := 0 to |polls|
      invariant prev == Latest(first, polls[..i])
      invariant Fold(LivePairs(first), out) == LivePairs(prev)
    {
      assert polls[..i + 1][..i] == polls[..i];
      if polls[i].Some? {
        var updates := DiffWorkerViews(prev, polls[i].value);
        FoldJoins(LivePairs(first), out, updates);
        out := out + updates;
        prev := polls[i].value;
      }
    }
    assert polls[..|polls|] == polls;
  }
}
