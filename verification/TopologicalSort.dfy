/**
 Kahn's algorithm as the decision layer runs it twice: over the nodes of a
 decision graph (core/decision_task.go) and over the entries of a decision
 expression (core/decision_expression.go). Both build an in-degree table and an
 adjacency table and then drain a work queue; this module models that drain and
 proves it against the graph-theoretic notions it is meant to decide.
 */
module TopologicalSort {
  import opened Prelude

  datatype Id = Id(name: string)
  type Arc = (Id, Id)
  type Degrees = map<Id, int>
  type Adjacency = map<Id, seq<Id>>

  // ----- What the sort is supposed to decide -----

  ghost predicate Linked(arcs: set<Arc>, p: seq<Id>, i: nat)
    requires i + 1 < |p|
  {
    (p[i], p[i + 1]) in arcs
  }

  ghost predicate IsWalk(arcs: set<Arc>, p: seq<Id>) {
    forall i | 0 <= i < |p| - 1 :: Linked(arcs, p, i)
  }

  /** A directed cycle: a walk of at least one arc that returns to its start. */
  ghost predicate IsCycle(arcs: set<Arc>, p: seq<Id>) {
    |p| >= 2 && IsWalk(arcs, p) && p[0] == p[|p| - 1]
  }

  ghost predicate HasCycle(arcs: set<Arc>) {
    exists p :: IsCycle(arcs, p)
  }

  /** Every node exactly once, and every producer before its consumers. */
  ghost predicate IsTopological(nodes: set<Id>, arcs: set<Arc>, order: seq<Id>) {
    && NoDup(order)
    && Elems(order) == nodes
    && forall i, j | 0 <= i < |order| && 0 <= j < |order| && (order[i], order[j]) in arcs :: i < j
  }

  ghost predicate Within(arcs: set<Arc>, nodes: set<Id>) {
    forall m, n | (m, n) in arcs :: m in nodes && n in nodes
  }

  // ----- The drain loop -----

  /** Go map read: a missing key reads as zero. */
  function Degree(indeg: Degrees, n: Id): int {
    if n in indeg then indeg[n] else 0
  }

  /** Go map read: a missing key reads as the empty slice. */
  function Successors(adj: Adjacency, n: Id): seq<Id> {
    if n in adj then adj[n] else []
  }

  function Positive(indeg: Degrees): set<Id> {
    set n | n in indeg && indeg[n] > 0
  }

  datatype Relaxed = Relaxed(indeg: Degrees, released: seq<Id>)

  /** One inner loop: decrement each successor, releasing those that reach zero. */
  function Relax(ms: seq<Id>, indeg: Degrees): (r: Relaxed)
    ensures |Positive(r.indeg)| + |r.released| == |Positive(indeg)|
  {
    if ms == [] then Relaxed(indeg, [])
    else
      var d := Degree(indeg, ms[0]) - 1;
      var next := indeg[ms[0] := d];
      assert Positive(next) == if d == 0 then Positive(indeg) - {ms[0]} else Positive(indeg);
      var rest := Relax(ms[1..], next);
      Relaxed(rest.indeg, if d == 0 then [ms[0]] + rest.released else rest.released)
  }

  /** The nodes the queue loop emits, in order. */
  function Drain(queue: seq<Id>, indeg: Degrees, adj: Adjacency): seq<Id>
    decreases |Positive(indeg)| + |queue|
  {
    if queue == [] then []
    else
      var r := Relax(Successors(adj, queue[0]), indeg);
      [queue[0]] + Drain(queue[1..] + r.released, r.indeg, adj)
  }

  /** The inner loop as it runs: counters updated in place, released nodes appended to the queue. */
  method RelaxAll(ms: seq<Id>, indeg0: Degrees, queue0: seq<Id>) returns (indeg: Degrees, queue: seq<Id>)
    ensures indeg == Relax(ms, indeg0).indeg
    ensures queue == queue0 + Relax(ms, indeg0).released
  {
    indeg, queue := indeg0, queue0;
    for i := 0 to |ms|
      invariant Relax(ms[i..], indeg).indeg == Relax(ms, indeg0).indeg
      invariant queue + Relax(ms[i..], indeg).released == queue0 + Relax(ms, indeg0).released
    {
      assert ms[i..][1..] == ms[i + 1..];
      indeg := indeg[ms[i] := Degree(indeg, ms[i]) - 1];
      if indeg[ms[i]] == 0 {
        queue := queue + [ms[i]];
      }
    }
  }

  /** The queue loop itself, as both callers run it. */
  method DrainQueue(queue0: seq<Id>, indeg0: Degrees, adj: Adjacency) returns (order: seq<Id>)
    ensures order == Drain(queue0, indeg0, adj)
  {
    order := [];
    var queue, indeg := queue0, indeg0;
    while queue != []
      invariant order + Drain(queue, indeg, adj) == Drain(queue0, indeg0, adj)
      decreases |Positive(indeg)| + |queue|
    {
      var id := queue[0];
      order := order + [id];
      indeg, queue := RelaxAll(Successors(adj, id), indeg, queue[1..]);
    }
  }

  // ----- Correctness of the drain -----

  lemma {:induction false} RelaxEffect(ms: seq<Id>, indeg: Degrees)
    requires NoDup(ms)
    ensures var r := Relax(ms, indeg);
      && NoDup(r.released)
      && (forall n :: Degree(r.indeg, n) == Degree(indeg, n) - (if n in ms then 1 else 0))
      && (forall n :: n in r.released <==> n in ms && Degree(indeg, n) == 1)
  {
    if ms != [] {
      var next := indeg[ms[0] := Degree(indeg, ms[0]) - 1];
      RelaxEffect(ms[1..], next);
      assert ms[0] !in ms[1..];
      assert forall n :: n in ms <==> n == ms[0] || n in ms[1..];
    }
  }

  /** The producers of n that have not been emitted yet. */
  ghost function Waiting(nodes: set<Id>, arcs: set<Arc>, done: seq<Id>, n: Id): set<Id> {
    set m | m in nodes && (m, n) in arcs && m !in done
  }

  ghost predicate ListsSuccessors(arcs: set<Arc>, n: Id, ms: seq<Id>) {
    NoDup(ms) && forall m :: m in ms <==> (n, m) in arcs
  }

  /** The successor lists hold each arc exactly once. */
  ghost predicate Listed(arcs: set<Arc>, adj: Adjacency) {
    forall n :: ListsSuccessors(arcs, n, Successors(adj, n))
  }

  ghost predicate Tables(nodes: set<Id>, arcs: set<Arc>, adj: Adjacency) {
    Within(arcs, nodes) && Listed(arcs, adj)
  }

  ghost predicate Counted(nodes: set<Id>, arcs: set<Arc>, done: seq<Id>, indeg: Degrees) {
    forall n | n in nodes :: Degree(indeg, n) == |Waiting(nodes, arcs, done, n)|
  }

  /** Emitted or queued, each at most once: exactly the nodes whose counter is zero. */
  ghost predicate Released(nodes: set<Id>, all: seq<Id>, indeg: Degrees) {
    && NoDup(all)
    && Elems(all) <= nodes
    && forall n | n in nodes :: n in all <==> Degree(indeg, n) == 0
  }

  ghost predicate Ordered(nodes: set<Id>, arcs: set<Arc>, done: seq<Id>) {
    forall j | 0 <= j < |done| :: Waiting(nodes, arcs, done[..j], done[j]) == {}
  }

  /** The loop invariant of the drain: what has been emitted, what is queued, and what the counters mean. */
  ghost predicate Progress(nodes: set<Id>, arcs: set<Arc>, done: seq<Id>, queue: seq<Id>, indeg: Degrees) {
    && Counted(nodes, arcs, done, indeg)
    && Released(nodes, done + queue, indeg)
    && Ordered(nodes, arcs, done)
  }

  /** Emitting the head of the queue turns the counters for the old prefix into those for the new one. */
  lemma CountersStep(nodes: set<Id>, arcs: set<Arc>, adj: Adjacency, done: seq<Id>, id: Id, indeg: Degrees, n: Id)
    requires Tables(nodes, arcs, adj) && id in nodes && id !in done && n in nodes
    requires Degree(indeg, n) == |Waiting(nodes, arcs, done, n)|
    ensures Degree(Relax(Successors(adj, id), indeg).indeg, n) == |Waiting(nodes, arcs, done + [id], n)|
  {
    RelaxEffect(Successors(adj, id), indeg);
    var w, w' := Waiting(nodes, arcs, done, n), Waiting(nodes, arcs, done + [id], n);
    if (id, n) in arcs {
      assert id in w;
      assert w' == w - {id};
    } else {
      assert w' == w;
    }
  }

  lemma OrderStep(nodes: set<Id>, arcs: set<Arc>, done: seq<Id>, id: Id)
    requires Ordered(nodes, arcs, done) && Waiting(nodes, arcs, done, id) == {}
    ensures Ordered(nodes, arcs, done + [id])
  {
    var done' := done + [id];
    forall j | 0 <= j < |done'|
      ensures Waiting(nodes, arcs, done'[..j], done'[j]) == {}
    {
      assert done'[..j] == if j < |done| then done[..j] else done;
    }
  }

  lemma ReleaseStep(nodes: set<Id>, arcs: set<Arc>, adj: Adjacency, done: seq<Id>, all: seq<Id>, id: Id, indeg: Degrees)
    requires Tables(nodes, arcs, adj) && id in nodes && Released(nodes, all, indeg)
    requires Counted(nodes, arcs, done, indeg) && id !in done
    ensures var r := Relax(Successors(adj, id), indeg); Released(nodes, all + r.released, r.indeg)
  {
    RelaxEffect(Successors(adj, id), indeg);
    var r := Relax(Successors(adj, id), indeg);
    forall n | n in r.released
      ensures n in nodes && n !in all
    {
      assert (id, n) in arcs;
    }
    forall n | n in all
      ensures n !in Successors(adj, id)
    {
      assert n in Elems(all);
      SettledNode(nodes, arcs, adj, done, id, indeg, n);
    }
    NoDupConcat(all, r.released);
    assert forall n :: n in all + r.released <==> n in all || n in r.released;
  }

  lemma CountedStep(nodes: set<Id>, arcs: set<Arc>, adj: Adjacency, done: seq<Id>, id: Id, indeg: Degrees)
    requires Tables(nodes, arcs, adj) && id in nodes && id !in done && Counted(nodes, arcs, done, indeg)
    ensures Counted(nodes, arcs, done + [id], Relax(Successors(adj, id), indeg).indeg)
  {
    forall n | n in nodes {
      CountersStep(nodes, arcs, adj, done, id, indeg, n);
    }
  }

  /** A node whose producers have all been emitted is no successor of one that has not. */
  lemma SettledNode(nodes: set<Id>, arcs: set<Arc>, adj: Adjacency, done: seq<Id>, id: Id, indeg: Degrees, n: Id)
    requires Tables(nodes, arcs, adj) && Counted(nodes, arcs, done, indeg)
    requires id in nodes && id !in done && n in nodes && Degree(indeg, n) == 0
    ensures Waiting(nodes, arcs, done, n) == {}
    ensures n !in Successors(adj, id)
  {
    assert (id, n) in arcs ==> id in Waiting(nodes, arcs, done, n);
  }

  lemma ProgressStep(nodes: set<Id>, arcs: set<Arc>, adj: Adjacency, done: seq<Id>, queue: seq<Id>, indeg: Degrees)
    requires Tables(nodes, arcs, adj) && Progress(nodes, arcs, done, queue, indeg) && queue != []
    ensures var r := Relax(Successors(adj, queue[0]), indeg);
      Progress(nodes, arcs, done + [queue[0]], queue[1..] + r.released, r.indeg)
  {
    var id, all := queue[0], done + queue;
    assert id in queue && id in Elems(all);
    NoDupConcat(done, queue);
    CountedStep(nodes, arcs, adj, done, id, indeg);
    SettledNode(nodes, arcs, adj, done, id, indeg, id);
    ReleaseStep(nodes, arcs, adj, done, all, id, indeg);
    var r := Relax(Successors(adj, id), indeg);
    assert (done + [id]) + (queue[1..] + r.released) == all + r.released;
    OrderStep(nodes, arcs, done, id);
  }

  /** What the drain leaves behind, whatever the graph: a prefix in dependency order, and a remainder that waits on itself. */
  lemma {:induction false} DrainProgress(nodes: set<Id>, arcs: set<Arc>, adj: Adjacency, done: seq<Id>, queue: seq<Id>, indeg: Degrees)
    returns (final: Degrees)
    requires Tables(nodes, arcs, adj) && Progress(nodes, arcs, done, queue, indeg)
    ensures Progress(nodes, arcs, done + Drain(queue, indeg, adj), [], final)
    decreases |Positive(indeg)| + |queue|
  {
    if queue == [] {
      assert done + [] == done;
      final := indeg;
    } else {
      var r := Relax(Successors(adj, queue[0]), indeg);
      ProgressStep(nodes, arcs, adj, done, queue, indeg);
      final := DrainProgress(nodes, arcs, adj, done + [queue[0]], queue[1..] + r.released, r.indeg);
      assert done + Drain(queue, indeg, adj)
          == (done + [queue[0]]) + Drain(queue[1..] + r.released, r.indeg, adj);
    }
  }

  /** Along a walk, positions in a topological order strictly increase. */
  lemma {:induction false} WalkClimbs(nodes: set<Id>, arcs: set<Arc>, order: seq<Id>, p: seq<Id>, i: nat, j: nat)
    requires IsTopological(nodes, arcs, order) && Within(arcs, nodes)
    requires IsWalk(arcs, p) && |p| >= 2 && i < |order| && j < |order|
    requires order[i] == p[0] && order[j] == p[|p| - 1]
    ensures i < j
    decreases |p|
  {
    assert Linked(arcs, p, 0);
    if |p| > 2 {
      assert p[1] in Elems(order);
      var k :| 0 <= k < |order| && order[k] == p[1];
      forall i | 0 <= i < |p[1..]| - 1
        ensures Linked(arcs, p[1..], i)
      {
        assert Linked(arcs, p, i + 1);
      }
      WalkClimbs(nodes, arcs, order, p[1..], k, j);
    }
  }

  lemma TopologicalHasNoCycle(nodes: set<Id>, arcs: set<Arc>, order: seq<Id>)
    requires IsTopological(nodes, arcs, order) && Within(arcs, nodes)
    ensures !HasCycle(arcs)
  {
    forall p | IsCycle(arcs, p)
      ensures false
    {
      assert Linked(arcs, p, 0);
      assert p[0] in Elems(order);
      var i :| 0 <= i < |order| && order[i] == p[0];
      WalkClimbs(nodes, arcs, order, p, i, i);
    }
  }

  ghost predicate ProducerIn(arcs: set<Arc>, rest: set<Id>, n: Id) {
    exists m :: m in rest && (m, n) in arcs
  }

  /** In a set where everything has a producer inside the set, one can walk backwards for ever. */
  lemma {:induction false} BackwardWalk(arcs: set<Arc>, rest: set<Id>, k: nat) returns (p: seq<Id>)
    requires rest != {} && forall n | n in rest :: ProducerIn(arcs, rest, n)
    ensures |p| == k + 1 && IsWalk(arcs, p) && forall i | 0 <= i < |p| :: p[i] in rest
  {
    if k == 0 {
      var n :| n in rest;
      p := [n];
    } else {
      var q := BackwardWalk(arcs, rest, k - 1);
      var m :| m in rest && (m, q[0]) in arcs;
      p := [m] + q;
      forall i | 0 <= i < |p| - 1
        ensures Linked(arcs, p, i)
      {
        if i > 0 {
          assert Linked(arcs, q, i - 1);
        }
      }
    }
  }

  lemma StuckHasCycle(arcs: set<Arc>, rest: set<Id>)
    requires rest != {} && forall n | n in rest :: ProducerIn(arcs, rest, n)
    ensures HasCycle(arcs)
  {
    var p := BackwardWalk(arcs, rest, |rest|);
    var i, j := Pigeonhole(p, rest);
    var c := p[i..j + 1];
    forall k | 0 <= k < |c| - 1
      ensures Linked(arcs, c, k)
    {
      assert Linked(arcs, p, i + k);
    }
    assert IsCycle(arcs, c);
  }

  /** If no emitted node was still waiting when emitted, producers come first. */
  lemma PrefixesOrder(nodes: set<Id>, arcs: set<Arc>, order: seq<Id>)
    requires NoDup(order) && Elems(order) == nodes
    requires Ordered(nodes, arcs, order)
    ensures IsTopological(nodes, arcs, order)
  {
    forall i, j | 0 <= i < |order| && 0 <= j < |order| && (order[i], order[j]) in arcs
      ensures i < j
    {
      assert order[i] in Elems(order);
      assert order[i] !in Waiting(nodes, arcs, order[..j], order[j]);
      var k :| 0 <= k < j && order[..j][k] == order[i];
    }
  }

  /**
   The theorem about Kahn's sort. Started from the true in-degrees with every
   source node queued, in any order, the drain emits all nodes exactly when the
   graph has no directed cycle, and then what it emits is a topological order.
   */
  lemma DrainSorts(nodes: set<Id>, arcs: set<Arc>, adj: Adjacency, queue: seq<Id>, indeg: Degrees)
    requires Tables(nodes, arcs, adj) && Progress(nodes, arcs, [], queue, indeg)
    ensures var order := Drain(queue, indeg, adj);
      && |order| <= |nodes|
      && (|order| != |nodes| <==> HasCycle(arcs))
      && (|order| == |nodes| ==> IsTopological(nodes, arcs, order))
  {
    var order := Drain(queue, indeg, adj);
    var final := DrainProgress(nodes, arcs, adj, [], queue, indeg);
    assert [] + order == order && order + [] == order;
    NoDupSize(order);
    SubsetSize(Elems(order), nodes);
    if |order| == |nodes| {
      PrefixesOrder(nodes, arcs, order);
      TopologicalHasNoCycle(nodes, arcs, order);
    } else {
      var rest := nodes - Elems(order);
      assert nodes != Elems(order);
      if rest == {} {
        SubsetSize(nodes, Elems(order));
        assert false;
      }
      forall n | n in rest
        ensures ProducerIn(arcs, rest, n)
      {
        assert n !in order + [];
        assert Waiting(nodes, arcs, order, n) != {};
        var m :| m in Waiting(nodes, arcs, order, n);
        assert m in rest && (m, n) in arcs;
      }
      StuckHasCycle(arcs, rest);
    }
  }
}
