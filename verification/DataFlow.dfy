/**
 What a decision graph computes, said of its edges alone: an assignment of outputs
 to nodes solves the graph when every node, run on what its edges carry, yields
 its outputs. Evaluation succeeds exactly when there is a solution whose results
 fit the task's output fields, and returns those results.
 */
module DataFlow {
  import opened Prelude
  import opened TopologicalSort
  import opened DecisionGraph

  ghost predicate IsNode(edges: seq<Edge>, n: Id) {
    exists e | e in edges :: e.src.owner == Node(n) || e.dst.owner == Node(n)
  }

  /** What an edge from this handle carries: the task's input, a node's output, or the constant. */
  function Carries(w: World, input: Ports, outs: map<Id, Ports>, src: Handle): BlValue {
    match src.owner
    case Boundary => if src.field in input then input[src.field] else Null
    case Node(m) => if m in outs && src.field in outs[m] then outs[m][src.field] else Nil
    case Reference(id) => w.constant(id)
  }

  /** The node's ports are its inputs, each with what the edge into it carries. */
  ghost predicate Fed(w: World, edges: seq<Edge>, input: Ports, outs: map<Id, Ports>, n: Id, ports: Ports) {
    && (forall f :: f in ports <==> f in w.spec(n).inVars)
    && forall e | e in edges && e.dst.owner == Node(n) && e.dst.field in ports :: ports[e.dst.field] == Carries(w, input, outs, e.src)
  }

  ghost predicate Solved(w: World, edges: seq<Edge>, input: Ports, outs: map<Id, Ports>, n: Id) {
    n in outs && exists ports :: Fed(w, edges, input, outs, n, ports) && w.spec(n).run(ports) == Ok(outs[n])
  }

  ghost predicate Solves(w: World, edges: seq<Edge>, input: Ports, outs: map<Id, Ports>) {
    forall n | IsNode(edges, n) :: Solved(w, edges, input, outs, n)
  }

  /** Each output is what the edge into it carries, null for nothing, and fits its field. */
  ghost predicate Results(w: World, edges: seq<Edge>, input: Ports, outs: map<Id, Ports>, result: Ports) {
    && (forall v :: v in result <==> v in w.outVars)
    && (forall e | e in edges && e.dst.owner == Boundary && e.dst.field in result ::
          var got := Carries(w, input, outs, e.src); result[e.dst.field] == if got == Nil then Null else got)
    && forall v | v in result :: w.accepts(v, result[v])
  }

  /** Some solution delivers this result. */
  ghost predicate Delivers(w: World, edges: seq<Edge>, input: Ports, result: Ports) {
    exists outs :: Solves(w, edges, input, outs) && Results(w, edges, input, outs, result)
  }

  // ----- Edges and keys -----

  lemma NodesAre(edges: seq<Edge>, n: Id)
    ensures n in NodesOf(edges) <==> IsNode(edges, n)
  {
    if n in NodesOf(edges) {
      var e :| e in edges && n in EdgeNodes(e);
    }
    if IsNode(edges, n) {
      var e :| e in edges && (e.src.owner == Node(n) || e.dst.owner == Node(n));
      assert n in EdgeNodes(e);
    }
  }

  lemma UniqueDestination(w: World, edges: seq<Edge>, d: Edge, e: Edge)
    requires NoDup(DstKeys(w, edges)) && d in edges && e in edges && KeyOf(w, d.dst) == KeyOf(w, e.dst)
    ensures d == e
  {
    var i :| 0 <= i < |edges| && edges[i] == d;
    var j :| 0 <= j < |edges| && edges[j] == e;
    var keys := DstKeys(w, edges);
    assert keys[i] == keys[j];
  }

  /** The table leads from an edge's destination to its source. */
  lemma WiredTo(w: World, edges: seq<Edge>, e: Edge)
    requires NoDup(DstKeys(w, edges)) && e in edges
    ensures SourceOf(WiringOf(w, edges), KeyOf(w, e.dst)) == KeyOf(w, e.src)
  {
    EveryDestinationWired(w, edges);
    var i :| 0 <= i < |edges| && edges[i] == e;
    assert DstKeys(w, edges)[i] == KeyOf(w, e.dst);
    var d := WiredBy(w, edges, KeyOf(w, e.dst));
    UniqueDestination(w, edges, d, e);
  }

  lemma {:induction false} ConstantsOf(w: World, edges: seq<Edge>, key: Key)
    requires key in WiringOf(w, edges).refVals
    ensures WiringOf(w, edges).refVals[key] == w.constant(key.node)
  {
    var e := edges[|edges| - 1];
    if !(e.src.owner.Reference? && KeyOf(w, e.src) == key) {
      ConstantsOf(w, edges[..|edges| - 1], key);
    }
  }

  // ----- The environment holds what the edges carry -----

  /** The assignment gives the node what it means. */
  ghost predicate Means(w: World, edges: seq<Edge>, input: Ports, outs: map<Id, Ports>, n: Id) {
    var wiring := WiringOf(w, edges);
    n in outs && Meaning(w, wiring, NodesOf(edges), BaseEnv(w, wiring, input), n) == Ok(outs[n])
  }

  ghost predicate Agreed(w: World, edges: seq<Edge>, input: Ports, done: seq<Id>, outs: map<Id, Ports>) {
    forall m | m in done :: Means(w, edges, input, outs, m)
  }

  /** The run has got past `done`, with the outputs the assignment says. */
  ghost predicate Reached(w: World, edges: seq<Edge>, input: Ports, done: seq<Id>, env: Env, outs: map<Id, Ports>) {
    var wiring, nodes := WiringOf(w, edges), NodesOf(edges);
    var base := BaseEnv(w, wiring, input);
    && Elems(done) <= nodes
    && Reflects(w, wiring, nodes, base, done, env)
    && Agreed(w, edges, input, done, outs)
  }

  ghost predicate Ordered(w: World, edges: seq<Edge>, order: seq<Id>) {
    && WellTyped(w, edges) && WellFormed(w, edges) && REFERENCE_FIELD !in w.inVars
    && IsTopological(NodesOf(edges), ArcsOf(edges), order)
  }

  lemma SourceCarries(w: World, edges: seq<Edge>, input: Ports, done: seq<Id>, env: Env, outs: map<Id, Ports>, e: Edge)
    requires WellTyped(w, edges) && REFERENCE_FIELD !in w.inVars && e in edges
    requires Reached(w, edges, input, done, env, outs)
    requires e.src.owner.Node? ==> e.src.owner.id in done
    ensures Lookup(env, KeyOf(w, e.src)) == Some(Carries(w, input, outs, e.src))
  {
    var wiring, key := WiringOf(w, edges), KeyOf(w, e.src);
    assert SourceOk(w, e.src);
    match e.src.owner
    case Boundary =>
      assert key.node !in Elems(done);
      assert Lookup(env, key) == Lookup(BaseEnv(w, wiring, input), key);
    case Reference(id) =>
      ConstantWired(w, edges, e);
      ConstantsOf(w, edges, key);
      assert key.node in done ==> key.node in Elems(done);
      assert Lookup(env, key) == Lookup(BaseEnv(w, wiring, input), key);
    case Node(m) =>
  }

  /** What the next node gathers is exactly what feeds it. */
  lemma GatherFeeds(w: World, edges: seq<Edge>, input: Ports, order: seq<Id>, k: nat, env: Env, outs: map<Id, Ports>)
    requires Ordered(w, edges, order) && k < |order| && Reached(w, edges, input, order[..k], env, outs)
    ensures forall ports :: Fed(w, edges, input, outs, order[k], ports) <==> ports == Gather(w, WiringOf(w, edges), order[k], env)
  {
    var wiring, n := WiringOf(w, edges), order[k];
    var got := Gather(w, wiring, n, env);
    forall f | f in w.spec(n).inVars
      ensures exists e :: FeedsPort(w, edges, input, outs, n, f, got, e)
    {
      var e := PortFed(w, edges, input, order, k, env, outs, f);
    }
    OnlyFeed(w, edges, input, outs, n, got);
  }

  /** When every port has an edge and no two edges share a destination, only one map of ports fits. */
  lemma OnlyFeed(w: World, edges: seq<Edge>, input: Ports, outs: map<Id, Ports>, n: Id, got: Ports)
    requires NoDup(DstKeys(w, edges))
    requires forall f :: f in got <==> f in w.spec(n).inVars
    requires forall f | f in w.spec(n).inVars :: exists e :: FeedsPort(w, edges, input, outs, n, f, got, e)
    ensures forall ports :: Fed(w, edges, input, outs, n, ports) <==> ports == got
  {
    forall e | e in edges && e.dst.owner == Node(n) && e.dst.field in got
      ensures got[e.dst.field] == Carries(w, input, outs, e.src)
    {
      var d :| FeedsPort(w, edges, input, outs, n, e.dst.field, got, d);
      UniqueDestination(w, edges, d, e);
    }
    assert Fed(w, edges, input, outs, n, got);
    forall ports | Fed(w, edges, input, outs, n, ports)
      ensures ports == got
    {
      forall f | f in w.spec(n).inVars ensures ports[f] == got[f] {
        var e :| FeedsPort(w, edges, input, outs, n, f, got, e);
      }
    }
  }

  ghost predicate FeedsPort(w: World, edges: seq<Edge>, input: Ports, outs: map<Id, Ports>, n: Id, f: string, got: Ports, e: Edge) {
    e in edges && e.dst == Handle(Node(n), f) && f in got && got[f] == Carries(w, input, outs, e.src)
  }

  lemma PortFed(w: World, edges: seq<Edge>, input: Ports, order: seq<Id>, k: nat, env: Env, outs: map<Id, Ports>, f: string) returns (e: Edge)
    requires Ordered(w, edges, order) && k < |order| && Reached(w, edges, input, order[..k], env, outs)
    requires f in w.spec(order[k]).inVars
    ensures FeedsPort(w, edges, input, outs, order[k], f, Gather(w, WiringOf(w, edges), order[k], env), e)
  {
    e := PortEdge(w, edges, order, k, f);
    SourceCarries(w, edges, input, order[..k], env, outs, e);
    WiredTo(w, edges, e);
  }

  /** A checked graph wires every port, from a node that has already run if from a node at all. */
  lemma PortEdge(w: World, edges: seq<Edge>, order: seq<Id>, k: nat, f: string) returns (e: Edge)
    requires Ordered(w, edges, order) && k < |order| && f in w.spec(order[k]).inVars
    ensures e in edges && e.dst == Handle(Node(order[k]), f)
    ensures e.src.owner.Node? ==> e.src.owner.id in order[..k]
  {
    var n := order[k];
    assert n in Elems(order);
    EveryDestinationWired(w, edges);
    assert Key(n, f) in Elems(DstKeys(w, edges));
    e := WiredBy(w, edges, Key(n, f));
    assert DestinationOk(w, e.dst);
    if e.src.owner.Node? {
      assert IsArc(e) && ArcOf(e) == (e.src.owner.id, n);
      assert e.src.owner.id in EdgeNodes(e);
      var j := EarlierNode(NodesOf(edges), ArcsOf(edges), order, e.src.owner.id, k);
      assert order[..k][j] == e.src.owner.id;
    }
  }

  /** While the nodes so far all mean something, the run has got past them. */
  lemma {:induction false} EnvAt(w: World, wiring: Wiring, nodes: set<Id>, arcs: set<Arc>, base: Env, order: seq<Id>, k: nat) returns (env: Env)
    requires IsTopological(nodes, arcs, order) && Respects(w, wiring, nodes, arcs) && k <= |order|
    requires forall m | m in order[..k] :: Meaning(w, wiring, nodes, base, m).Ok?
    ensures RunNodes(w, wiring, order[..k], base) == Ok(env) && Reflects(w, wiring, nodes, base, order[..k], env)
  {
    if k == 0 {
      env := base;
      assert order[..0] == [];
    } else {
      var n := order[k - 1];
      assert order[..k] == order[..k - 1] + [n];
      var before := EnvAt(w, wiring, nodes, arcs, base, order, k - 1);
      env := OneMore(w, wiring, nodes, arcs, base, order, k - 1, before);
    }
  }

  lemma OneMore(w: World, wiring: Wiring, nodes: set<Id>, arcs: set<Arc>, base: Env, order: seq<Id>, k: nat, before: Env) returns (env: Env)
    requires IsTopological(nodes, arcs, order) && Respects(w, wiring, nodes, arcs) && k < |order|
    requires RunNodes(w, wiring, order[..k], base) == Ok(before) && Reflects(w, wiring, nodes, base, order[..k], before)
    requires Meaning(w, wiring, nodes, base, order[k]).Ok?
    ensures RunNodes(w, wiring, order[..k + 1], base) == Ok(env) && Reflects(w, wiring, nodes, base, order[..k + 1], env)
  {
    var n := order[k];
    GatherIsMeaning(w, wiring, nodes, arcs, base, order, k, before);
    PublishReflects(w, wiring, nodes, base, order[..k], before, n);
    RunOneMore(w, wiring, order[..k], n, base, before);
    assert order[..k + 1] == order[..k] + [n];
    env := before + Publish(w, n, Meaning(w, wiring, nodes, base, n).value);
  }

  lemma {:induction false} RunOneMore(w: World, wiring: Wiring, done: seq<Id>, n: Id, base: Env, env: Env)
    requires RunNodes(w, wiring, done, base) == Ok(env)
    ensures RunNodes(w, wiring, done + [n], base) ==
      match w.spec(n).run(Gather(w, wiring, n, env)) case Fail => Fail case Ok(outs) => Ok(env + Publish(w, n, outs))
  {
    if done == [] {
      assert [n][1..] == [] && done + [n] == [n];
    } else {
      assert (done + [n])[1..] == done[1..] + [n];
      var outs := w.spec(done[0]).run(Gather(w, wiring, done[0], base)).value;
      RunOneMore(w, wiring, done[1..], n, base + Publish(w, done[0], outs), env);
    }
  }

  // ----- Solutions are runs -----

  lemma ReachedAt(w: World, edges: seq<Edge>, input: Ports, order: seq<Id>, k: nat, outs: map<Id, Ports>) returns (env: Env)
    requires Ordered(w, edges, order) && k <= |order|
    requires Agreed(w, edges, input, order[..k], outs)
    ensures Reached(w, edges, input, order[..k], env, outs)
    ensures var wiring := WiringOf(w, edges); RunNodes(w, wiring, order[..k], BaseEnv(w, wiring, input)) == Ok(env)
  {
    WiringRespectsArcs(w, edges);
    env := EnvAt(w, WiringOf(w, edges), NodesOf(edges), ArcsOf(edges), BaseEnv(w, WiringOf(w, edges), input), order, k);
    assert forall m | m in order[..k] :: m in Elems(order);
  }

  /** The next node is solved exactly when its outputs are its meaning. */
  lemma NextSolved(w: World, edges: seq<Edge>, input: Ports, order: seq<Id>, k: nat, outs: map<Id, Ports>)
    requires Ordered(w, edges, order) && k < |order|
    requires Agreed(w, edges, input, order[..k], outs)
    ensures Solved(w, edges, input, outs, order[k]) <==> Means(w, edges, input, outs, order[k])
  {
    var wiring := WiringOf(w, edges);
    var env := ReachedAt(w, edges, input, order, k, outs);
    GatherFeeds(w, edges, input, order, k, env, outs);
    WiringRespectsArcs(w, edges);
    GatherIsMeaning(w, wiring, NodesOf(edges), ArcsOf(edges), BaseEnv(w, wiring, input), order, k, env);
    assert Fed(w, edges, input, outs, order[k], Gather(w, wiring, order[k], env));
  }

  lemma AgreedMore(w: World, edges: seq<Edge>, input: Ports, order: seq<Id>, outs: map<Id, Ports>, k: nat)
    requires k < |order| && Agreed(w, edges, input, order[..k], outs) && Means(w, edges, input, outs, order[k])
    ensures Agreed(w, edges, input, order[..k + 1], outs)
  {
    assert order[..k + 1] == order[..k] + [order[k]];
  }

  /** Every solution assigns each node its meaning. */
  lemma SolutionIsMeaning(w: World, edges: seq<Edge>, input: Ports, order: seq<Id>, outs: map<Id, Ports>)
    requires Ordered(w, edges, order) && Solves(w, edges, input, outs)
    ensures Agreed(w, edges, input, order, outs)
  {
    assert order[..0] == [] && order[..|order|] == order;
    for k := 0 to |order|
      invariant Agreed(w, edges, input, order[..k], outs)
    {
      OrderedNode(w, edges, order, k);
      NextSolved(w, edges, input, order, k, outs);
      AgreedMore(w, edges, input, order, outs, k);
    }
  }

  lemma OrderedNode(w: World, edges: seq<Edge>, order: seq<Id>, k: nat)
    requires Ordered(w, edges, order) && k < |order|
    ensures IsNode(edges, order[k])
  {
    assert order[k] in Elems(order);
    NodesAre(edges, order[k]);
  }

  /** And the meanings, when there are all of them, are a solution. */
  lemma MeaningSolves(w: World, edges: seq<Edge>, input: Ports, order: seq<Id>, outs: map<Id, Ports>)
    requires Ordered(w, edges, order)
    requires Agreed(w, edges, input, order, outs)
    ensures Solves(w, edges, input, outs)
  {
    forall n | IsNode(edges, n) ensures Solved(w, edges, input, outs, n) {
      NodesAre(edges, n);
      assert n in Elems(order);
      var k :| 0 <= k < |order| && order[k] == n;
      assert forall m | m in order[..k] :: m in order;
      NextSolved(w, edges, input, order, k, outs);
    }
  }

  // ----- Outputs -----

  ghost predicate FeedsOutput(w: World, edges: seq<Edge>, input: Ports, outs: map<Id, Ports>, v: string, from: Ports, e: Edge) {
    && e in edges && e.dst == Handle(Boundary, v) && v in from
    && var got := Carries(w, input, outs, e.src); from[v] == if got == Nil then Null else got
  }

  lemma OutputFed(w: World, edges: seq<Edge>, input: Ports, order: seq<Id>, env: Env, outs: map<Id, Ports>, v: string) returns (e: Edge)
    requires Ordered(w, edges, order) && Reached(w, edges, input, order, env, outs) && v in w.outVars
    ensures FeedsOutput(w, edges, input, outs, v, OutputsFrom(w, WiringOf(w, edges), env), e)
  {
    e := OutputEdge(w, edges, v);
    if e.src.owner.Node? {
      assert e.src.owner.id in EdgeNodes(e);
      assert e.src.owner.id in Elems(order);
    }
    SourceCarries(w, edges, input, order, env, outs, e);
    WiredTo(w, edges, e);
  }

  lemma OutputEdge(w: World, edges: seq<Edge>, v: string) returns (e: Edge)
    requires WellTyped(w, edges) && WellFormed(w, edges) && v in w.outVars
    ensures e in edges && e.dst == Handle(Boundary, v)
  {
    EveryDestinationWired(w, edges);
    assert Key(w.boundary, v) in Elems(DstKeys(w, edges));
    e := WiredBy(w, edges, Key(w.boundary, v));
    assert DestinationOk(w, e.dst);
    assert forall n | n in EdgeNodes(e) :: n in NodesOf(edges);
  }

  lemma OutputsCarry(w: World, edges: seq<Edge>, input: Ports, order: seq<Id>, env: Env, outs: map<Id, Ports>, result: Ports)
    requires Ordered(w, edges, order) && Reached(w, edges, input, order, env, outs)
    ensures Results(w, edges, input, outs, result) <==> Deliver(w, OutputsFrom(w, WiringOf(w, edges), env)) == Ok(result)
  {
    var from := OutputsFrom(w, WiringOf(w, edges), env);
    forall v | v in w.outVars
      ensures exists e :: FeedsOutput(w, edges, input, outs, v, from, e)
    {
      var e := OutputFed(w, edges, input, order, env, outs, v);
    }
    OnlyResults(w, edges, input, outs, from, result);
  }

  lemma OnlyResults(w: World, edges: seq<Edge>, input: Ports, outs: map<Id, Ports>, from: Ports, result: Ports)
    requires NoDup(DstKeys(w, edges))
    requires forall v :: v in from <==> v in w.outVars
    requires forall v | v in w.outVars :: exists e :: FeedsOutput(w, edges, input, outs, v, from, e)
    ensures Results(w, edges, input, outs, result) <==> Deliver(w, from) == Ok(result)
  {
    forall e | e in edges && e.dst.owner == Boundary && e.dst.field in w.outVars
      ensures FeedsOutput(w, edges, input, outs, e.dst.field, from, e)
    {
      var d :| FeedsOutput(w, edges, input, outs, e.dst.field, from, d);
      UniqueDestination(w, edges, d, e);
    }
    if Results(w, edges, input, outs, result) {
      forall v | v in w.outVars ensures result[v] == from[v] {
        var e :| FeedsOutput(w, edges, input, outs, v, from, e);
      }
      assert result == from;
    }
  }

  /**
   The data-flow theorem: evaluation returns a result exactly when the edges have a
   solution that delivers it, and so fails exactly when they have none.
   */
  lemma EvaluateSolves(w: World, edges: seq<Edge>, order: seq<Id>, input: Ports, result: Ports)
    requires Ordered(w, edges, order)
    ensures EvaluateIn(w, WiringOf(w, edges), order, input) == Ok(result) <==> Delivers(w, edges, input, result)
  {
    if outs :| Solves(w, edges, input, outs) && Results(w, edges, input, outs, result) {
      SolutionReached(w, edges, order, input, outs, result);
    }
    if EvaluateIn(w, WiringOf(w, edges), order, input) == Ok(result) {
      var outs := RunSolution(w, edges, order, input, result);
    }
  }

  lemma SolutionReached(w: World, edges: seq<Edge>, order: seq<Id>, input: Ports, outs: map<Id, Ports>, result: Ports)
    requires Ordered(w, edges, order) && Solves(w, edges, input, outs) && Results(w, edges, input, outs, result)
    ensures EvaluateIn(w, WiringOf(w, edges), order, input) == Ok(result)
  {
    SolutionIsMeaning(w, edges, input, order, outs);
    AgreedRun(w, edges, order, input, outs, result);
  }

  lemma RunSolution(w: World, edges: seq<Edge>, order: seq<Id>, input: Ports, result: Ports) returns (outs: map<Id, Ports>)
    requires Ordered(w, edges, order) && EvaluateIn(w, WiringOf(w, edges), order, input) == Ok(result)
    ensures Solves(w, edges, input, outs) && Results(w, edges, input, outs, result)
  {
    EvaluateIsMeaning(w, edges, order, input);
    outs := TaskOutputs(w, edges, order, input);
    MeaningSolves(w, edges, input, order, outs);
    AgreedRun(w, edges, order, input, outs, result);
  }

  lemma AgreedRun(w: World, edges: seq<Edge>, order: seq<Id>, input: Ports, outs: map<Id, Ports>, result: Ports)
    requires Ordered(w, edges, order) && Agreed(w, edges, input, order, outs)
    ensures EvaluateIn(w, WiringOf(w, edges), order, input) == Ok(result) <==> Results(w, edges, input, outs, result)
  {
    assert order[..|order|] == order;
    var env := ReachedAt(w, edges, input, order, |order|, outs);
    OutputsCarry(w, edges, input, order, env, outs, result);
  }

  lemma TaskOutputs(w: World, edges: seq<Edge>, order: seq<Id>, input: Ports) returns (outs: map<Id, Ports>)
    requires TaskMeaning(w, edges, input).Ok? && Elems(order) == NodesOf(edges)
    ensures Agreed(w, edges, input, order, outs)
  {
    var wiring, nodes := WiringOf(w, edges), NodesOf(edges);
    var base := BaseEnv(w, wiring, input);
    outs := map n | n in nodes :: Meaning(w, wiring, nodes, base, n).value;
    forall m | m in order ensures Means(w, edges, input, outs, m) {
      assert m in Elems(order);
    }
  }

  // ----- What that says of single edges -----

  /** The task's input at v: null when it is unset or nil. */
  function Given(input: Ports, v: string): BlValue {
    if v in input && input[v] != Nil then input[v] else Null
  }

  /** An output wired straight from an input or a constant shows it. */
  ghost predicate PassedThrough(w: World, edges: seq<Edge>, input: Ports, result: Ports) {
    forall e | e in edges && e.dst.owner == Boundary ::
      && e.dst.field in result
      && (e.src.owner == Boundary ==> result[e.dst.field] == Given(input, e.src.field))
      && (e.src.owner.Reference? && w.constant(e.src.owner.id) != Nil ==> result[e.dst.field] == w.constant(e.src.owner.id))
  }

  ghost predicate FromInputs(edges: seq<Edge>, n: Id) {
    forall e | e in edges && e.dst.owner == Node(n) :: e.src.owner == Boundary
  }

  /** A node wired from the task's inputs alone runs on exactly those. */
  ghost predicate RunOnInputs(w: World, edges: seq<Edge>, input: Ports, n: Id) {
    exists ports ::
      && (forall f :: f in ports <==> f in w.spec(n).inVars)
      && (forall e | e in edges && e.dst.owner == Node(n) ::
            e.dst.field in ports && ports[e.dst.field] == if e.src.field in input then input[e.src.field] else Null)
      && w.spec(n).run(ports).Ok?
  }

  lemma ResultPasses(w: World, edges: seq<Edge>, input: Ports, outs: map<Id, Ports>, result: Ports)
    requires WellTyped(w, edges) && Results(w, edges, input, outs, result)
    ensures PassedThrough(w, edges, input, result)
  {
    forall e | e in edges && e.dst.owner == Boundary
      ensures e.dst.field in w.outVars
    {
      assert DestinationOk(w, e.dst);
    }
  }

  lemma SolvedOnInputs(w: World, edges: seq<Edge>, input: Ports, outs: map<Id, Ports>, n: Id)
    requires WellTyped(w, edges) && Solved(w, edges, input, outs, n) && FromInputs(edges, n)
    ensures RunOnInputs(w, edges, input, n)
  {
    var ports :| Fed(w, edges, input, outs, n, ports) && w.spec(n).run(ports) == Ok(outs[n]);
    forall e | e in edges && e.dst.owner == Node(n)
      ensures e.dst.field in ports && ports[e.dst.field] == if e.src.field in input then input[e.src.field] else Null
    {
      assert DestinationOk(w, e.dst);
    }
  }

  /**
   What an evaluation of these edges returns: a result exactly when a solution
   delivers it. Then outputs wired straight through show the inputs and constants,
   and nodes wired from the inputs alone ran on them.
   */
  ghost predicate Flows(w: World, edges: seq<Edge>, input: Ports, r: Outcome<Ports>) {
    && (forall result :: r == Ok(result) <==> Delivers(w, edges, input, result))
    && (r.Ok? ==> PassedThrough(w, edges, input, r.value))
    && (r.Ok? ==> forall n | IsNode(edges, n) && FromInputs(edges, n) :: RunOnInputs(w, edges, input, n))
  }

  lemma DeliveredFlows(w: World, edges: seq<Edge>, input: Ports, result: Ports)
    requires WellTyped(w, edges) && Delivers(w, edges, input, result)
    ensures PassedThrough(w, edges, input, result)
    ensures forall n | IsNode(edges, n) && FromInputs(edges, n) :: RunOnInputs(w, edges, input, n)
  {
    var outs :| Solves(w, edges, input, outs) && Results(w, edges, input, outs, result);
    ResultPasses(w, edges, input, outs, result);
    forall n | IsNode(edges, n) && FromInputs(edges, n) ensures RunOnInputs(w, edges, input, n) {
      SolvedOnInputs(w, edges, input, outs, n);
    }
  }

  lemma EvaluationFlows(w: World, edges: seq<Edge>, order: seq<Id>, input: Ports, r: Outcome<Ports>)
    requires Ordered(w, edges, order) && r == EvaluateIn(w, WiringOf(w, edges), order, input)
    ensures Flows(w, edges, input, r)
  {
    forall result ensures r == Ok(result) <==> Delivers(w, edges, input, result) {
      EvaluateSolves(w, edges, order, input, result);
    }
    if r.Ok? {
      DeliveredFlows(w, edges, input, r.value);
    }
  }

  // ----- Which graphs are accepted, said of their edges -----

  ghost predicate Reaches(edges: seq<Edge>, h: Handle) {
    exists e | e in edges :: e.dst == h
  }

  ghost predicate Feeds(edges: seq<Edge>, m: Id, n: Id) {
    exists e | e in edges :: e.src.owner == Node(m) && e.dst.owner == Node(n)
  }

  ghost predicate Ring(edges: seq<Edge>, p: seq<Id>) {
    |p| >= 2 && p[0] == p[|p| - 1] && forall i | 0 <= i < |p| - 1 :: Feeds(edges, p[i], p[i + 1])
  }

  /** There is a node, all have names, every input and output has exactly one edge into it, and no node feeds itself in the end. */
  ghost predicate Whole(w: World, edges: seq<Edge>) {
    && (exists n :: IsNode(edges, n))
    && (forall n | IsNode(edges, n) :: n.name != "")
    && (forall i, j | 0 <= i < j < |edges| :: edges[i].dst != edges[j].dst)
    && (forall n, f | IsNode(edges, n) && f in w.spec(n).inVars :: Reaches(edges, Handle(Node(n), f)))
    && (forall v | v in w.outVars :: Reaches(edges, Handle(Boundary, v)))
    && !exists p :: Ring(edges, p)
  }

  lemma FeedsIff(edges: seq<Edge>, m: Id, n: Id)
    ensures Feeds(edges, m, n) <==> (m, n) in ArcsOf(edges)
  {
    if e :| e in edges && e.src.owner == Node(m) && e.dst.owner == Node(n) {
      assert IsArc(e) && ArcOf(e) == (m, n);
    }
  }

  lemma RingIff(edges: seq<Edge>, p: seq<Id>)
    ensures Ring(edges, p) <==> IsCycle(ArcsOf(edges), p)
  {
    forall i | 0 <= i < |p| - 1 ensures Feeds(edges, p[i], p[i + 1]) <==> Linked(ArcsOf(edges), p, i) {
      FeedsIff(edges, p[i], p[i + 1]);
    }
  }

  lemma NoRingIff(edges: seq<Edge>)
    ensures (exists p :: Ring(edges, p)) <==> HasCycle(ArcsOf(edges))
  {
    if p :| Ring(edges, p) {
      RingIff(edges, p);
    }
    if p :| IsCycle(ArcsOf(edges), p) {
      RingIff(edges, p);
    }
  }

  lemma SameHandle(w: World, edges: seq<Edge>, e: Edge, h: Handle)
    requires WellTyped(w, edges) && e in edges && (h.owner == Boundary || (h.owner.Node? && h.owner.id in NodesOf(edges)))
    ensures KeyOf(w, e.dst) == KeyOf(w, h) <==> e.dst == h
  {
    assert DestinationOk(w, e.dst);
    assert forall n | n in EdgeNodes(e) :: n in NodesOf(edges);
  }

  lemma ReachesIff(w: World, edges: seq<Edge>, h: Handle)
    requires WellTyped(w, edges) && (h.owner == Boundary || (h.owner.Node? && h.owner.id in NodesOf(edges)))
    ensures Reaches(edges, h) <==> KeyOf(w, h) in DstKeys(w, edges)
  {
    if e :| e in edges && e.dst == h {
      var i :| 0 <= i < |edges| && edges[i] == e;
      assert DstKeys(w, edges)[i] == KeyOf(w, h);
    }
    if KeyOf(w, h) in DstKeys(w, edges) {
      var i :| 0 <= i < |edges| && DstKeys(w, edges)[i] == KeyOf(w, h);
      SameHandle(w, edges, edges[i], h);
    }
  }

  lemma OncePerDestination(w: World, edges: seq<Edge>)
    requires WellTyped(w, edges)
    ensures NoDup(DstKeys(w, edges)) <==> forall i, j | 0 <= i < j < |edges| :: edges[i].dst != edges[j].dst
  {
    forall i, j | 0 <= i < j < |edges| ensures DstKeys(w, edges)[i] == DstKeys(w, edges)[j] <==> edges[i].dst == edges[j].dst {
      assert DestinationOk(w, edges[j].dst);
      assert edges[j] in edges && forall n | n in EdgeNodes(edges[j]) :: n in NodesOf(edges);
      SameHandle(w, edges, edges[i], edges[j].dst);
    }
  }

  lemma NodesReached(w: World, edges: seq<Edge>)
    requires WellTyped(w, edges)
    ensures (forall n, v | n in NodesOf(edges) && v in w.spec(n).inVars :: Key(n, v) in DstKeys(w, edges))
       <==> forall n, f | IsNode(edges, n) && f in w.spec(n).inVars :: Reaches(edges, Handle(Node(n), f))
  {
    forall n, f | n in NodesOf(edges)
      ensures Reaches(edges, Handle(Node(n), f)) <==> Key(n, f) in DstKeys(w, edges)
    {
      ReachesIff(w, edges, Handle(Node(n), f));
    }
    forall n ensures n in NodesOf(edges) <==> IsNode(edges, n) {
      NodesAre(edges, n);
    }
  }

  lemma OutputsReached(w: World, edges: seq<Edge>)
    requires WellTyped(w, edges)
    ensures (forall v | v in w.outVars :: Key(w.boundary, v) in DstKeys(w, edges))
       <==> forall v | v in w.outVars :: Reaches(edges, Handle(Boundary, v))
  {
    forall v ensures Reaches(edges, Handle(Boundary, v)) <==> Key(w.boundary, v) in DstKeys(w, edges) {
      ReachesIff(w, edges, Handle(Boundary, v));
    }
  }

  lemma NamedNodes(edges: seq<Edge>)
    ensures NodesOf(edges) != {} <==> exists n :: IsNode(edges, n)
    ensures (forall n | n in NodesOf(edges) :: n.name != "") <==> forall n | IsNode(edges, n) :: n.name != ""
  {
    forall n ensures n in NodesOf(edges) <==> IsNode(edges, n) {
      NodesAre(edges, n);
    }
    if NodesOf(edges) != {} {
      var n :| n in NodesOf(edges);
      assert IsNode(edges, n);
    }
  }

  /** The checks are passed exactly by the whole graphs. */
  lemma AcceptedIffWhole(w: World, edges: seq<Edge>)
    requires WellTyped(w, edges)
    ensures WellFormed(w, edges) <==> Whole(w, edges)
  {
    NamedNodes(edges);
    OncePerDestination(w, edges);
    NodesReached(w, edges);
    OutputsReached(w, edges);
    NoRingIff(edges);
  }
}
