/**
 A decision task: nodes wired into a netlist, sorted once when the graph is
 supplied and then evaluated by filling an environment in that order
 (core/decision_task.go). Go's random map iteration picks the order among the
 independent nodes, so the point of the model is that the choice cannot be seen.
 */
module DecisionGraph {
  import opened Prelude
  import opened TopologicalSort

  /** A value in the environment; Nil is Go's nil interface, Null the language's null. */
  datatype BlValue = Nil | Null | Data(repr: string)

  type Ports = map<string, BlValue>

  /** Who owns a handle: the task's own boundary, a node, or a reference-data constant. */
  datatype Owner = Boundary | Node(id: Id) | Reference(id: Id)
  datatype Handle = Handle(owner: Owner, field: string)
  datatype Edge = Edge(src: Handle, dst: Handle)
  datatype Key = Key(node: Id, field: string)
  type Env = map<Key, BlValue>

  datatype NodeSpec = NodeSpec(inVars: seq<string>, outVars: seq<string>, run: Ports -> Outcome<Ports>)

  /** What is fixed before wiring: the task's contract, the node behind each id, the reference constants. */
  datatype World = World(
    boundary: Id,
    inVars: seq<string>,
    outVars: seq<string>,
    accepts: (string, BlValue) -> bool,
    spec: Id -> NodeSpec,
    constant: Id -> BlValue)

  datatype Wiring = Wiring(dstSrc: map<Key, Key>, refVals: Env)

  /** The field every reference-data handle is stamped with; not an identifier. */
  const REFERENCE_FIELD := "$value"

  function KeyOf(w: World, h: Handle): Key {
    match h.owner
    case Boundary => Key(w.boundary, h.field)
    case Node(id) => Key(id, h.field)
    case Reference(id) => Key(id, h.field)
  }

  // ----- What the edges say -----

  function EdgeNodes(e: Edge): set<Id> {
    (if e.src.owner.Node? then {e.src.owner.id} else {}) + (if e.dst.owner.Node? then {e.dst.owner.id} else {})
  }

  function NodesOf(edges: seq<Edge>): set<Id> {
    set e, n | e in edges && n in EdgeNodes(e) :: n
  }

  predicate IsArc(e: Edge) {
    e.src.owner.Node? && e.dst.owner.Node?
  }

  function ArcOf(e: Edge): Arc
    requires IsArc(e)
  {
    (e.src.owner.id, e.dst.owner.id)
  }

  function ArcsOf(edges: seq<Edge>): set<Arc> {
    set e | e in edges && IsArc(e) :: ArcOf(e)
  }

  function DstKeys(w: World, edges: seq<Edge>): seq<Key> {
    seq(|edges|, i requires 0 <= i < |edges| => KeyOf(w, edges[i].dst))
  }

  /** Later edges overwrite earlier ones, as repeated map assignment does. */
  function WiringOf(w: World, edges: seq<Edge>): Wiring {
    if edges == [] then Wiring(map[], map[])
    else
      var e, rest := edges[|edges| - 1], WiringOf(w, edges[..|edges| - 1]);
      Wiring(
        rest.dstSrc[KeyOf(w, e.dst) := KeyOf(w, e.src)],
        if e.src.owner.Reference? then rest.refVals[KeyOf(w, e.src) := w.constant(e.src.owner.id)] else rest.refVals)
  }

  /** Handles are typed fields of typed contracts, so these hold of every edge the Go compiler accepts. */
  ghost predicate WellTyped(w: World, edges: seq<Edge>) {
    && w.boundary !in NodesOf(edges)
    && (forall n | n in NodesOf(edges) :: REFERENCE_FIELD !in w.spec(n).outVars && "" !in w.spec(n).outVars)
    && (forall e | e in edges :: SourceOk(w, e.src) && DestinationOk(w, e.dst))
  }

  predicate SourceOk(w: World, h: Handle) {
    match h.owner
    case Boundary => h.field in w.inVars
    case Node(id) => h.field in w.spec(id).outVars
    case Reference(_) => h.field == REFERENCE_FIELD
  }

  predicate DestinationOk(w: World, h: Handle) {
    match h.owner
    case Boundary => h.field in w.outVars
    case Node(id) => h.field in w.spec(id).inVars
    case Reference(_) => false
  }

  /** The checks a graph must pass before the task is usable. */
  ghost predicate WellFormed(w: World, edges: seq<Edge>) {
    && NodesOf(edges) != {}
    && (forall n | n in NodesOf(edges) :: n.name != "")
    && NoDup(DstKeys(w, edges))
    && (forall n, v | n in NodesOf(edges) && v in w.spec(n).inVars :: Key(n, v) in DstKeys(w, edges))
    && (forall v | v in w.outVars :: Key(w.boundary, v) in DstKeys(w, edges))
    && !HasCycle(ArcsOf(edges))
  }

  // ----- Sorting the nodes -----

  lemma ArcsWithin(edges: seq<Edge>)
    ensures Within(ArcsOf(edges), NodesOf(edges))
  {
    forall m, n | (m, n) in ArcsOf(edges)
      ensures m in NodesOf(edges) && n in NodesOf(edges)
    {
      var e :| e in edges && IsArc(e) && ArcOf(e) == (m, n);
      assert m in EdgeNodes(e) && n in EdgeNodes(e);
    }
  }

  /** Counting one more distinct arc raises exactly the in-degree of its head. */
  lemma AddArc(nodes: set<Id>, arcs: set<Arc>, indeg: Degrees, m: Id, n: Id)
    requires Counted(nodes, arcs, [], indeg) && m in nodes && (m, n) !in arcs
    ensures Counted(nodes, arcs + {(m, n)}, [], indeg[n := Degree(indeg, n) + 1])
  {
    forall x | x in nodes
      ensures |Waiting(nodes, arcs + {(m, n)}, [], x)| == |Waiting(nodes, arcs, [], x)| + if x == n then 1 else 0
    {
      OneMoreWaits(nodes, arcs, m, n, x);
    }
  }

  lemma OneMoreWaits(nodes: set<Id>, arcs: set<Arc>, m: Id, n: Id, x: Id)
    requires m in nodes && (m, n) !in arcs
    ensures |Waiting(nodes, arcs + {(m, n)}, [], x)| == |Waiting(nodes, arcs, [], x)| + if x == n then 1 else 0
  {
    var a, b := Waiting(nodes, arcs, [], x), Waiting(nodes, arcs + {(m, n)}, [], x);
    if x == n {
      assert b == a + {m};
    } else {
      assert b == a;
    }
  }

  lemma ListArc(arcs: set<Arc>, adj: Adjacency, m: Id, n: Id)
    requires Listed(arcs, adj) && (m, n) !in arcs
    ensures Listed(arcs + {(m, n)}, adj[m := Successors(adj, m) + [n]])
  {
    NoDupConcat(Successors(adj, m), [n]);
    var adj' := adj[m := Successors(adj, m) + [n]];
    forall x
      ensures ListsSuccessors(arcs + {(m, n)}, x, Successors(adj', x))
    {
      assert ListsSuccessors(arcs, x, Successors(adj, x));
    }
  }

  lemma NoArcs(nodes: set<Id>)
    ensures Counted(nodes, {}, [], map n | n in nodes :: 0)
  {
    forall n | n in nodes
      ensures Waiting(nodes, {}, [], n) == {}
    {
    }
  }

  lemma OneMoreEdge(edges: seq<Edge>, i: nat)
    requires i < |edges|
    ensures ArcsOf(edges[..i + 1]) == ArcsOf(edges[..i]) + if IsArc(edges[i]) then {ArcOf(edges[i])} else {}
  {
    assert edges[..i + 1] == edges[..i] + [edges[i]];
  }

  /** The two tables of topoSortNodes: in-degrees and successor lists, each distinct arc counted once. */
  method BuildTables(nodes: set<Id>, edges: seq<Edge>) returns (indeg: Degrees, adj: Adjacency)
    requires NodesOf(edges) <= nodes
    ensures Tables(nodes, ArcsOf(edges), adj)
    ensures Counted(nodes, ArcsOf(edges), [], indeg)
  {
    indeg, adj := map n | n in nodes :: 0, map[];
    var seen: set<Arc> := {};
    NoArcs(nodes);
    ArcsWithin(edges);
    for i := 0 to |edges|
      invariant seen == ArcsOf(edges[..i])
      invariant Counted(nodes, seen, [], indeg)
      invariant Listed(seen, adj)
    {
      var e := edges[i];
      OneMoreEdge(edges, i);
      if IsArc(e) && ArcOf(e) !in seen {
        var (s, d) := ArcOf(e);
        assert ArcOf(e) in ArcsOf(edges);
        AddArc(nodes, seen, indeg, s, d);
        ListArc(seen, adj, s, d);
        seen := seen + {(s, d)};
        adj := adj[s := Successors(adj, s) + [d]];
        indeg := indeg[d := Degree(indeg, d) + 1];
      }
    }
    assert edges[..|edges|] == edges;
  }

  /** The queue starts with the nodes of in-degree zero, in whatever order the map yields them. */
  method SeedQueue(nodes: set<Id>, indeg: Degrees) returns (queue: seq<Id>)
    ensures Released(nodes, queue, indeg)
  {
    queue := [];
    var todo := nodes;
    while todo != {}
      invariant todo <= nodes
      invariant Released(nodes - todo, queue, indeg)
    {
      var n :| n in todo;
      if Degree(indeg, n) == 0 {
        NoDupConcat(queue, [n]);
        queue := queue + [n];
      }
      todo := todo - {n};
    }
    assert nodes - todo == nodes;
  }

  /**
   topoSortNodes: reports a cycle exactly when the dependency graph has one,
   self-loops included, and otherwise lists every node once with producers
   before consumers. Nothing is promised about the choice among such orders.
   */
  method TopoSortNodes(nodes: set<Id>, edges: seq<Edge>) returns (order: seq<Id>, cyclic: bool)
    requires NodesOf(edges) <= nodes
    ensures cyclic <==> HasCycle(ArcsOf(edges))
    ensures !cyclic ==> IsTopological(nodes, ArcsOf(edges), order)
  {
    var indeg, adj := BuildTables(nodes, edges);
    var queue := SeedQueue(nodes, indeg);
    assert [] + queue == queue;
    DrainSorts(nodes, ArcsOf(edges), adj, queue, indeg);
    order := DrainQueue(queue, indeg, adj);
    cyclic := |order| != |nodes|;
  }

  // ----- Evaluation -----

  function Lookup(env: Env, key: Key): Option<BlValue> {
    if key in env then Some(env[key]) else None
  }

  /** Go map read of a missing destination: the zero handle key. */
  function SourceOf(wiring: Wiring, dst: Key): Key {
    if dst in wiring.dstSrc then wiring.dstSrc[dst] else Key(Id(""), "")
  }

  /** An unset input handle reads as null. */
  function BoundaryEnv(w: World, input: Ports): Env {
    map v | v in w.inVars :: Key(w.boundary, v) := if v in input then input[v] else Null
  }

  function BaseEnv(w: World, wiring: Wiring, input: Ports): Env {
    wiring.refVals + BoundaryEnv(w, input)
  }

  function Gather(w: World, wiring: Wiring, n: Id, env: Env): Ports {
    map v | v in w.spec(n).inVars && SourceOf(wiring, Key(n, v)) in env :: env[SourceOf(wiring, Key(n, v))]
  }

  function PortValue(outs: Ports, f: string): BlValue {
    if f in outs then outs[f] else Nil
  }

  function Publish(w: World, n: Id, outs: Ports): Env {
    map f | f in w.spec(n).outVars :: Key(n, f) := PortValue(outs, f)
  }

  function RunNodes(w: World, wiring: Wiring, order: seq<Id>, env: Env): Outcome<Env> {
    if order == [] then Ok(env)
    else
      match w.spec(order[0]).run(Gather(w, wiring, order[0], env))
      case Fail => Fail
      case Ok(outs) => RunNodes(w, wiring, order[1..], env + Publish(w, order[0], outs))
  }

  function OutputValue(v: Option<BlValue>): BlValue {
    if v.None? || v.value.Nil? then Null else v.value
  }

  /** Assigning the outputs fails when a value does not fit its typed field. */
  function Deliver(w: World, outs: Ports): Outcome<Ports>
    requires forall v | v in w.outVars :: v in outs
  {
    if forall v | v in w.outVars :: w.accepts(v, outs[v]) then Ok(outs) else Fail
  }

  function OutputsFrom(w: World, wiring: Wiring, env: Env): Ports {
    map v | v in w.outVars :: OutputValue(Lookup(env, SourceOf(wiring, Key(w.boundary, v))))
  }

  function EvaluateIn(w: World, wiring: Wiring, order: seq<Id>, input: Ports): Outcome<Ports> {
    match RunNodes(w, wiring, order, BaseEnv(w, wiring, input))
    case Fail => Fail
    case Ok(env) => Deliver(w, OutputsFrom(w, wiring, env))
  }

  // ----- The meaning of the wiring, with no order in it -----

  /** The value at a source handle: a node's output if it is one, otherwise what was there from the start. */
  ghost function SourceMeaning(w: World, wiring: Wiring, nodes: set<Id>, base: Env, key: Key, avail: set<Id>): Outcome<Option<BlValue>>
    decreases |avail|, 1
  {
    if key.node in nodes && key.field in w.spec(key.node).outVars then
      match NodeMeaning(w, wiring, nodes, base, key.node, avail)
      case Fail => Fail
      case Ok(outs) => Ok(Some(PortValue(outs, key.field)))
    else
      Ok(Lookup(base, key))
  }

  /** A node's outputs: its function applied to the meanings of its sources. `avail` bounds the recursion on a cyclic wiring. */
  ghost function NodeMeaning(w: World, wiring: Wiring, nodes: set<Id>, base: Env, n: Id, avail: set<Id>): Outcome<Ports>
    decreases |avail|, 0
  {
    if n !in avail then Fail
    else
      Apply(w.spec(n), InputMeanings(w, wiring, nodes, base, n, avail - {n}))
  }

  ghost function InputMeanings(w: World, wiring: Wiring, nodes: set<Id>, base: Env, n: Id, avail: set<Id>): map<string, Outcome<Option<BlValue>>>
    decreases |avail|, 2
  {
    map v | v in w.spec(n).inVars :: SourceMeaning(w, wiring, nodes, base, SourceOf(wiring, Key(n, v)), avail)
  }

  ghost function Apply(node: NodeSpec, ins: map<string, Outcome<Option<BlValue>>>): Outcome<Ports> {
    if exists v | v in ins :: ins[v].Fail? then Fail
    else node.run(map v | v in ins && ins[v].value.Some? :: ins[v].value.value)
  }

  ghost function Meaning(w: World, wiring: Wiring, nodes: set<Id>, base: Env, n: Id): Outcome<Ports> {
    NodeMeaning(w, wiring, nodes, base, n, nodes)
  }

  ghost function OutputMeaning(w: World, wiring: Wiring, nodes: set<Id>, base: Env, v: string): BlValue {
    match SourceMeaning(w, wiring, nodes, base, SourceOf(wiring, Key(w.boundary, v)), nodes)
    case Fail => Null
    case Ok(found) => OutputValue(found)
  }

  /** The task fails if any of its nodes does; otherwise each output is the meaning of its source. */
  ghost function TaskMeaning(w: World, edges: seq<Edge>, input: Ports): Outcome<Ports> {
    var wiring, nodes := WiringOf(w, edges), NodesOf(edges);
    var base := BaseEnv(w, wiring, input);
    if exists n | n in nodes :: Meaning(w, wiring, nodes, base, n).Fail? then Fail
    else Deliver(w, map v | v in w.outVars :: OutputMeaning(w, wiring, nodes, base, v))
  }

  // ----- Evaluation in any topological order computes that meaning -----

  /** Reading another node's output is a dependency the sort was told about. */
  ghost predicate Respects(w: World, wiring: Wiring, nodes: set<Id>, arcs: set<Arc>) {
    forall n, v | n in nodes && v in w.spec(n).inVars ::
      var key := SourceOf(wiring, Key(n, v));
      key.node in nodes && key.field in w.spec(key.node).outVars ==> (key.node, n) in arcs
  }

  lemma {:induction false} WiredBy(w: World, edges: seq<Edge>, dst: Key) returns (e: Edge)
    requires dst in WiringOf(w, edges).dstSrc
    ensures e in edges && KeyOf(w, e.dst) == dst && KeyOf(w, e.src) == WiringOf(w, edges).dstSrc[dst]
  {
    e := edges[|edges| - 1];
    if KeyOf(w, e.dst) != dst {
      e := WiredBy(w, edges[..|edges| - 1], dst);
    }
  }

  lemma WiringRespectsArcs(w: World, edges: seq<Edge>)
    requires WellTyped(w, edges)
    ensures Respects(w, WiringOf(w, edges), NodesOf(edges), ArcsOf(edges))
  {
    var wiring, nodes := WiringOf(w, edges), NodesOf(edges);
    forall n, v | n in nodes && v in w.spec(n).inVars
      ensures var key := SourceOf(wiring, Key(n, v));
        key.node in nodes && key.field in w.spec(key.node).outVars ==> (key.node, n) in ArcsOf(edges)
    {
      var key := SourceOf(wiring, Key(n, v));
      if key.node in nodes && key.field in w.spec(key.node).outVars && Key(n, v) in wiring.dstSrc {
        var e := WiredBy(w, edges, Key(n, v));
        assert e.dst.owner == Node(n);
        assert e.src.owner == Node(key.node);
        assert IsArc(e) && ArcOf(e) == (key.node, n);
      }
    }
  }

  /** Once all of a node's ancestors are available, making more nodes available changes nothing. */
  lemma {:induction false} MoreAvailable(w: World, wiring: Wiring, nodes: set<Id>, arcs: set<Arc>, base: Env, order: seq<Id>, k: nat, avail: set<Id>)
    requires IsTopological(nodes, arcs, order) && Respects(w, wiring, nodes, arcs)
    requires k < |order| && Elems(order[..k + 1]) <= avail
    ensures NodeMeaning(w, wiring, nodes, base, order[k], avail)
         == NodeMeaning(w, wiring, nodes, base, order[k], Elems(order[..k + 1]))
    decreases k
  {
    var n, own := order[k], Elems(order[..k + 1]);
    assert order[..k + 1][k] == n;
    assert n in own && n in nodes;
    forall v | v in w.spec(n).inVars
      ensures var key := SourceOf(wiring, Key(n, v));
        SourceMeaning(w, wiring, nodes, base, key, avail - {n}) == SourceMeaning(w, wiring, nodes, base, key, own - {n})
    {
      var key := SourceOf(wiring, Key(n, v));
      if key.node in nodes && key.field in w.spec(key.node).outVars {
        var j := EarlierNode(nodes, arcs, order, key.node, k);
        MoreAvailable(w, wiring, nodes, arcs, base, order, j, avail - {n});
        MoreAvailable(w, wiring, nodes, arcs, base, order, j, own - {n});
      }
    }
    SameApplication(w, wiring, nodes, base, n, avail, own);
  }

  lemma EarlierNode(nodes: set<Id>, arcs: set<Arc>, order: seq<Id>, m: Id, k: nat) returns (j: nat)
    requires IsTopological(nodes, arcs, order) && k < |order| && m in nodes && (m, order[k]) in arcs
    ensures j < k && order[j] == m
    ensures Elems(order[..j + 1]) <= Elems(order[..k + 1]) - {order[k]}
  {
    assert m in Elems(order);
    j :| 0 <= j < |order| && order[j] == m;
    var before, upTo := order[..j + 1], order[..k + 1];
    forall x | x in before
      ensures x in upTo && x != order[k]
    {
      var i :| 0 <= i < |before| && before[i] == x;
      assert upTo[i] == x;
    }
  }

  lemma SameApplication(w: World, wiring: Wiring, nodes: set<Id>, base: Env, n: Id, a: set<Id>, b: set<Id>)
    requires n in a && n in b
    requires forall v | v in w.spec(n).inVars ::
      var key := SourceOf(wiring, Key(n, v));
      SourceMeaning(w, wiring, nodes, base, key, a - {n}) == SourceMeaning(w, wiring, nodes, base, key, b - {n})
    ensures NodeMeaning(w, wiring, nodes, base, n, a) == NodeMeaning(w, wiring, nodes, base, n, b)
  {
    assert InputMeanings(w, wiring, nodes, base, n, a - {n}) == InputMeanings(w, wiring, nodes, base, n, b - {n});
  }

  /** A producer means the same seen from its consumer as seen from the whole graph. */
  lemma ProducerMeaning(w: World, wiring: Wiring, nodes: set<Id>, arcs: set<Arc>, base: Env, order: seq<Id>, k: nat, m: Id)
    requires IsTopological(nodes, arcs, order) && Respects(w, wiring, nodes, arcs)
    requires k < |order| && m in nodes && (m, order[k]) in arcs
    ensures NodeMeaning(w, wiring, nodes, base, m, nodes - {order[k]}) == Meaning(w, wiring, nodes, base, m)
    ensures m in order[..k]
  {
    var j := EarlierNode(nodes, arcs, order, m, k);
    assert order[..k][j] == m;
    assert Elems(order[..k + 1]) <= nodes;
    MoreAvailable(w, wiring, nodes, arcs, base, order, j, nodes - {order[k]});
    MoreAvailable(w, wiring, nodes, arcs, base, order, j, nodes);
  }

  /** The environment after running `done`: their meanings are published, everything else is as it was. */
  ghost predicate Reflects(w: World, wiring: Wiring, nodes: set<Id>, base: Env, done: seq<Id>, env: Env) {
    && (forall n | n in done :: Meaning(w, wiring, nodes, base, n).Ok?)
    && forall key :: Lookup(env, key) ==
         if key.node in done && key.field in w.spec(key.node).outVars
         then Some(PortValue(Meaning(w, wiring, nodes, base, key.node).value, key.field))
         else Lookup(base, key)
  }

  lemma SourceIsMeaning(w: World, wiring: Wiring, nodes: set<Id>, arcs: set<Arc>, base: Env, order: seq<Id>, k: nat, env: Env, v: string)
    requires IsTopological(nodes, arcs, order) && Respects(w, wiring, nodes, arcs) && k < |order|
    requires Reflects(w, wiring, nodes, base, order[..k], env) && v in w.spec(order[k]).inVars
    ensures var key := SourceOf(wiring, Key(order[k], v));
            SourceMeaning(w, wiring, nodes, base, key, nodes - {order[k]}) == Ok(Lookup(env, key))
  {
    var n := order[k];
    var key := SourceOf(wiring, Key(n, v));
    assert n in Elems(order);
    if key.node in nodes && key.field in w.spec(key.node).outVars {
      assert (key.node, n) in arcs;
      ProducerMeaning(w, wiring, nodes, arcs, base, order, k, key.node);
    } else if key.node in order[..k] {
      assert key.node in Elems(order);
    }
  }

  /** What the next node gathers from the environment is what its meaning is computed from. */
  lemma GatherIsMeaning(w: World, wiring: Wiring, nodes: set<Id>, arcs: set<Arc>, base: Env, order: seq<Id>, k: nat, env: Env)
    requires IsTopological(nodes, arcs, order) && Respects(w, wiring, nodes, arcs) && k < |order|
    requires Reflects(w, wiring, nodes, base, order[..k], env)
    ensures w.spec(order[k]).run(Gather(w, wiring, order[k], env)) == Meaning(w, wiring, nodes, base, order[k])
  {
    var n := order[k];
    assert n in Elems(order);
    var ins := InputMeanings(w, wiring, nodes, base, n, nodes - {n});
    forall v | v in w.spec(n).inVars
      ensures ins[v] == Ok(Lookup(env, SourceOf(wiring, Key(n, v))))
    {
      SourceIsMeaning(w, wiring, nodes, arcs, base, order, k, env, v);
    }
    assert Meaning(w, wiring, nodes, base, n) == Apply(w.spec(n), ins);
    var given := map v | v in ins && ins[v].value.Some? :: ins[v].value.value;
    assert Gather(w, wiring, n, env) == given;
    assert !exists v | v in ins :: ins[v].Fail?;
  }

  lemma PublishReflects(w: World, wiring: Wiring, nodes: set<Id>, base: Env, done: seq<Id>, env: Env, n: Id)
    requires Reflects(w, wiring, nodes, base, done, env) && Meaning(w, wiring, nodes, base, n).Ok?
    ensures Reflects(w, wiring, nodes, base, done + [n], env + Publish(w, n, Meaning(w, wiring, nodes, base, n).value))
  {
    var env' := env + Publish(w, n, Meaning(w, wiring, nodes, base, n).value);
    forall key
      ensures Lookup(env', key) ==
        if key.node in done + [n] && key.field in w.spec(key.node).outVars
        then Some(PortValue(Meaning(w, wiring, nodes, base, key.node).value, key.field))
        else Lookup(base, key)
    {
      if key.node == n && key.field in w.spec(n).outVars {
        assert key == Key(n, key.field);
      }
    }
  }

  /** Running a stretch of the order either fails on a node whose meaning fails, or publishes every meaning. */
  lemma {:induction false} RunStretch(w: World, wiring: Wiring, nodes: set<Id>, arcs: set<Arc>, base: Env, order: seq<Id>, j: nat, k: nat, env: Env)
    requires IsTopological(nodes, arcs, order) && Respects(w, wiring, nodes, arcs) && j <= k <= |order|
    requires Reflects(w, wiring, nodes, base, order[..j], env)
    ensures match RunNodes(w, wiring, order[j..k], env)
      case Fail => exists n | n in nodes :: Meaning(w, wiring, nodes, base, n).Fail?
      case Ok(env') => Reflects(w, wiring, nodes, base, order[..k], env')
    decreases k - j
  {
    if j < k {
      var n := order[j];
      assert n in Elems(order);
      GatherIsMeaning(w, wiring, nodes, arcs, base, order, j, env);
      if Meaning(w, wiring, nodes, base, n).Ok? {
        PublishReflects(w, wiring, nodes, base, order[..j], env, n);
        assert order[..j] + [n] == order[..j + 1];
        assert order[j..k][1..] == order[j + 1..k];
        RunStretch(w, wiring, nodes, arcs, base, order, j + 1, k, env + Publish(w, n, Meaning(w, wiring, nodes, base, n).value));
      }
    }
  }

  lemma OutputsAreMeanings(w: World, wiring: Wiring, nodes: set<Id>, base: Env, order: seq<Id>, env: Env)
    requires Elems(order) == nodes && Reflects(w, wiring, nodes, base, order, env)
    ensures OutputsFrom(w, wiring, env) == map v | v in w.outVars :: OutputMeaning(w, wiring, nodes, base, v)
  {
    forall v | v in w.outVars
      ensures OutputsFrom(w, wiring, env)[v] == OutputMeaning(w, wiring, nodes, base, v)
    {
      var key := SourceOf(wiring, Key(w.boundary, v));
      assert key.node in order <==> key.node in Elems(order);
    }
  }

  /** The confluence theorem: whichever topological order the sort happened to pick, evaluation yields the meaning of the wiring. */
  lemma EvaluateIsMeaning(w: World, edges: seq<Edge>, order: seq<Id>, input: Ports)
    requires WellTyped(w, edges) && IsTopological(NodesOf(edges), ArcsOf(edges), order)
    ensures EvaluateIn(w, WiringOf(w, edges), order, input) == TaskMeaning(w, edges, input)
  {
    var wiring, nodes := WiringOf(w, edges), NodesOf(edges);
    var base := BaseEnv(w, wiring, input);
    WiringRespectsArcs(w, edges);
    assert order[..0] == [] && order[0..|order|] == order[..|order|] == order;
    RunStretch(w, wiring, nodes, ArcsOf(edges), base, order, 0, |order|, base);
    match RunNodes(w, wiring, order, base) {
      case Fail =>
      case Ok(env) =>
        forall n | n in nodes
          ensures Meaning(w, wiring, nodes, base, n).Ok?
        {
          assert n in Elems(order);
        }
        OutputsAreMeanings(w, wiring, nodes, base, order, env);
    }
  }

  /** Two runs of the sort may disagree on the order, never on the outcome. */
  lemma OrderIsInvisible(w: World, edges: seq<Edge>, a: seq<Id>, b: seq<Id>, input: Ports)
    requires WellTyped(w, edges)
    requires IsTopological(NodesOf(edges), ArcsOf(edges), a) && IsTopological(NodesOf(edges), ArcsOf(edges), b)
    ensures EvaluateIn(w, WiringOf(w, edges), a, input) == EvaluateIn(w, WiringOf(w, edges), b, input)
  {
    EvaluateIsMeaning(w, edges, a, input);
    EvaluateIsMeaning(w, edges, b, input);
  }

  lemma {:induction false} ConstantWired(w: World, edges: seq<Edge>, e: Edge)
    requires e in edges && e.src.owner.Reference?
    ensures KeyOf(w, e.src) in WiringOf(w, edges).refVals
  {
    if e != edges[|edges| - 1] {
      assert e in edges[..|edges| - 1];
      ConstantWired(w, edges[..|edges| - 1], e);
    }
  }

  lemma {:induction false} EveryDestinationWired(w: World, edges: seq<Edge>)
    ensures WiringOf(w, edges).dstSrc.Keys == Elems(DstKeys(w, edges))
  {
    if edges != [] {
      var init := edges[..|edges| - 1];
      EveryDestinationWired(w, init);
      assert DstKeys(w, edges) == DstKeys(w, init) + [KeyOf(w, edges[|edges| - 1].dst)];
    }
  }

  /** In a graph that passed its checks, no node ever runs before the sources of its inputs have values. */
  lemma InputsReady(w: World, edges: seq<Edge>, order: seq<Id>, input: Ports, k: nat, v: string)
    requires WellTyped(w, edges) && WellFormed(w, edges) && IsTopological(NodesOf(edges), ArcsOf(edges), order)
    requires k < |order| && v in w.spec(order[k]).inVars
    ensures var wiring := WiringOf(w, edges);
      match RunNodes(w, wiring, order[..k], BaseEnv(w, wiring, input))
      case Fail => true
      case Ok(env) => SourceOf(wiring, Key(order[k], v)) in env
  {
    var wiring, nodes, n := WiringOf(w, edges), NodesOf(edges), order[k];
    var base := BaseEnv(w, wiring, input);
    WiringRespectsArcs(w, edges);
    assert order[..0] == [] && order[0..k] == order[..k];
    RunStretch(w, wiring, nodes, ArcsOf(edges), base, order, 0, k, base);
    EveryDestinationWired(w, edges);
    assert n in Elems(order);
    assert Key(n, v) in Elems(DstKeys(w, edges));
    var e := WiredBy(w, edges, Key(n, v));
    var key := KeyOf(w, e.src);
    match RunNodes(w, wiring, order[..k], base) {
      case Fail =>
      case Ok(env) =>
        match e.src.owner {
          case Boundary => assert Lookup(env, key) == Lookup(base, key);
          case Reference(id) =>
            ConstantWired(w, edges, e);
            assert key !in env ==> Lookup(env, key).None?;
          case Node(m) =>
            assert m in EdgeNodes(e);
            ProducerMeaning(w, wiring, nodes, ArcsOf(edges), base, order, k, m);
            assert Lookup(env, key).Some?;
        }
    }
  }
}
