/**
 The task object of core/decision_task.go: Graph fills its wiring fields once, or
 reports problems and leaves the task as it was; Evaluate runs the wired graph.
 */
module DecisionTaskObject {
  import opened Prelude
  import opened TopologicalSort
  import opened DecisionGraph
  import opened DataFlow

  datatype Problem =
    | AlreadyWired
    | WiredTwice(key: Key)
    | NoNodes
    | EmptyId
    | UnwiredInput(node: Id, name: string)
    | UnwiredOutput(name: string)
    | Cyclic

  /** The first loop of Graph: collect the nodes, the destination map and the reference constants. */
  method CollectEdges(w: World, edges: seq<Edge>) returns (nodes: set<Id>, wiring: Wiring, problems: seq<Problem>)
    ensures nodes == NodesOf(edges) && wiring == WiringOf(w, edges)
    ensures problems == [] <==> NoDup(DstKeys(w, edges))
  {
    nodes, problems := {}, [];
    var dstSrc: map<Key, Key>, refVals: Env := map[], map[];
    for i := 0 to |edges|
      invariant nodes == NodesOf(edges[..i])
      invariant Wiring(dstSrc, refVals) == WiringOf(w, edges[..i])
      invariant problems == [] <==> NoDup(DstKeys(w, edges[..i]))
    {
      var e := edges[i];
      OneMore(w, edges, i);
      EveryDestinationWired(w, edges[..i]);
      nodes := nodes + EdgeNodes(e);
      if e.src.owner.Reference? {
        refVals := refVals[KeyOf(w, e.src) := w.constant(e.src.owner.id)];
      }
      var dk := KeyOf(w, e.dst);
      NoDupConcat(DstKeys(w, edges[..i]), [dk]);
      assert dk in Elems(DstKeys(w, edges[..i])) <==> dk in dstSrc;
      if dk in dstSrc {
        problems := problems + [WiredTwice(dk)];
      }
      dstSrc := dstSrc[dk := KeyOf(w, e.src)];
    }
    assert edges[..|edges|] == edges;
    wiring := Wiring(dstSrc, refVals);
  }

  lemma OneMore(w: World, edges: seq<Edge>, i: nat)
    requires i < |edges|
    ensures NodesOf(edges[..i + 1]) == NodesOf(edges[..i]) + EdgeNodes(edges[i])
    ensures DstKeys(w, edges[..i + 1]) == DstKeys(w, edges[..i]) + [KeyOf(w, edges[i].dst)]
    ensures var a, b := WiringOf(w, edges[..i]), WiringOf(w, edges[..i + 1]);
      && b.dstSrc == a.dstSrc[KeyOf(w, edges[i].dst) := KeyOf(w, edges[i].src)]
      && b.refVals == if edges[i].src.owner.Reference? then a.refVals[KeyOf(w, edges[i].src) := w.constant(edges[i].src.owner.id)] else a.refVals
  {
    var b := edges[..i + 1];
    assert b == edges[..i] + [edges[i]];
    assert b[..|b| - 1] == edges[..i];
  }

  predicate NodeProblem(w: World, dstSrc: map<Key, Key>, n: Id) {
    n.name == "" || exists v | v in w.spec(n).inVars :: Key(n, v) !in dstSrc
  }

  method CheckNode(w: World, dstSrc: map<Key, Key>, n: Id) returns (problems: seq<Problem>)
    ensures problems != [] <==> NodeProblem(w, dstSrc, n)
  {
    problems := if n.name == "" then [EmptyId] else [];
    var vars := w.spec(n).inVars;
    for i := 0 to |vars|
      invariant problems != [] <==> n.name == "" || exists v | v in vars[..i] :: Key(n, v) !in dstSrc
    {
      assert vars[..i + 1] == vars[..i] + [vars[i]];
      if Key(n, vars[i]) !in dstSrc {
        problems := problems + [UnwiredInput(n, vars[i])];
      }
    }
    assert vars[..|vars|] == vars;
  }

  method CheckNodes(w: World, dstSrc: map<Key, Key>, nodes: set<Id>) returns (problems: seq<Problem>)
    ensures problems != [] <==> exists n | n in nodes :: NodeProblem(w, dstSrc, n)
  {
    problems := [];
    var todo := nodes;
    while todo != {}
      invariant todo <= nodes
      invariant problems != [] <==> exists n | n in nodes - todo :: NodeProblem(w, dstSrc, n)
    {
      var n :| n in todo;
      var more := CheckNode(w, dstSrc, n);
      problems := problems + more;
      assert nodes - (todo - {n}) == (nodes - todo) + {n};
      todo := todo - {n};
    }
    assert nodes - todo == nodes;
  }

  method CheckOutputs(w: World, dstSrc: map<Key, Key>) returns (problems: seq<Problem>)
    ensures problems != [] <==> exists v | v in w.outVars :: Key(w.boundary, v) !in dstSrc
  {
    problems := [];
    for i := 0 to |w.outVars|
      invariant problems != [] <==> exists v | v in w.outVars[..i] :: Key(w.boundary, v) !in dstSrc
    {
      assert w.outVars[..i + 1] == w.outVars[..i] + [w.outVars[i]];
      if Key(w.boundary, w.outVars[i]) !in dstSrc {
        problems := problems + [UnwiredOutput(w.outVars[i])];
      }
    }
    assert w.outVars[..|w.outVars|] == w.outVars;
  }

  class DecisionTask {
    const w: World
    var wired: bool
    var order: seq<Id>
    var wiring: Wiring
    ghost var edges: seq<Edge>

    /** A wired task holds the wiring of the edges it was given and an order that respects them. */
    ghost predicate Valid()
      reads this
    {
      wired ==> WellFormed(w, edges) && wiring == WiringOf(w, edges) && IsTopological(NodesOf(edges), ArcsOf(edges), order)
    }

    constructor (w: World)
      ensures this.w == w && !wired && Valid()
    {
      this.w := w;
      wired, order, wiring, edges := false, [], Wiring(map[], map[]), [];
    }

    /** Graph accepts exactly the well-formed acyclic wirings of a task not wired before; anything else changes nothing. */
    method Graph(edges: seq<Edge>) returns (problems: seq<Problem>)
      requires Valid()
      modifies this
      ensures Valid()
      ensures problems == [] <==> !old(wired) && WellFormed(w, edges)
      ensures WellTyped(w, edges) ==> (problems == [] <==> !old(wired) && Whole(w, edges))
      ensures problems != [] ==> wired == old(wired) && order == old(order) && wiring == old(wiring) && this.edges == old(this.edges)
      ensures problems == [] ==> wired && this.edges == edges
    {
      if WellTyped(w, edges) {
        AcceptedIffWhole(w, edges);
      }
      if wired {
        return [AlreadyWired];
      }
      var nodes, newWiring, p := CollectEdges(w, edges);
      EveryDestinationWired(w, edges);
      problems := p;
      if nodes == {} {
        problems := problems + [NoNodes];
      }
      p := CheckNodes(w, newWiring.dstSrc, nodes);
      problems := problems + p;
      p := CheckOutputs(w, newWiring.dstSrc);
      problems := problems + p;
      var sorted, cyclic := TopoSortNodes(nodes, edges);
      if cyclic {
        problems := problems + [Cyclic];
      }
      ChecksDecide(w, edges);
      if problems != [] {
        return;
      }
      order, wiring, wired := sorted, newWiring, true;
      this.edges := edges;
    }

    /** Evaluate: an unwired task fails; a wired one returns the meaning of its edges, whatever order it holds. */
    method Evaluate(input: Ports) returns (r: Outcome<Ports>)
      requires Valid()
      ensures !wired ==> r == Fail
      ensures wired && WellTyped(w, edges) ==> r == TaskMeaning(w, edges, input)
      ensures wired && WellTyped(w, edges) && REFERENCE_FIELD !in w.inVars ==> Flows(w, edges, input, r)
    {
      if !wired {
        return Fail;
      }
      r := RunOrder(input);
      if WellTyped(w, edges) {
        EvaluateIsMeaning(w, edges, order, input);
        if REFERENCE_FIELD !in w.inVars {
          EvaluationFlows(w, edges, order, input, r);
        }
      }
    }

    /** The loop over the nodes in order, and the outputs it leaves. */
    method RunOrder(input: Ports) returns (r: Outcome<Ports>)
      ensures r == EvaluateIn(w, wiring, order, input)
    {
      var env := BaseEnv(w, wiring, input);
      ghost var start := env;
      for i := 0 to |order|
        invariant RunNodes(w, wiring, order[i..], env) == RunNodes(w, wiring, order, start)
      {
        assert order[i..][1..] == order[i + 1..];
        var outs := w.spec(order[i]).run(Gather(w, wiring, order[i], env));
        if outs.Fail? {
          return Fail;
        }
        env := env + Publish(w, order[i], outs.value);
      }
      assert order[|order|..] == [];
      return Deliver(w, OutputsFrom(w, wiring, env));
    }
  }

  /** The four checks on the destination map are the wiring clauses of WellFormed. */
  lemma ChecksDecide(w: World, edges: seq<Edge>)
    ensures var dstSrc := WiringOf(w, edges).dstSrc;
      WellFormed(w, edges) <==>
        && NodesOf(edges) != {}
        && NoDup(DstKeys(w, edges))
        && (!exists n | n in NodesOf(edges) :: NodeProblem(w, dstSrc, n))
        && (!exists v | v in w.outVars :: Key(w.boundary, v) !in dstSrc)
        && !HasCycle(ArcsOf(edges))
  {
    EveryDestinationWired(w, edges);
    var dstSrc, keys := WiringOf(w, edges).dstSrc, DstKeys(w, edges);
    assert forall k :: k in dstSrc <==> k in Elems(keys);
    assert forall k :: k in dstSrc <==> k in keys;
    forall n | n in NodesOf(edges)
      ensures NodeProblem(w, dstSrc, n) <==> n.name == "" || exists v | v in w.spec(n).inVars :: Key(n, v) !in keys
    {
    }
  }
}
