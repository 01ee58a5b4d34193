/**
 The evaluation plan of a decision expression (core/decision_expression.go):
 entries sorted so that each comes after the sibling outputs it references. The
 dependency list of an entry is collected from a Go map, so it arrives in random
 order; the plan must not show it.
 */
module DecisionExpression {
  import opened Prelude
  import opened TopologicalSort

  datatype Entry = Entry(output: Id, deps: seq<Id>)

  datatype PlanError = SelfReference(output: Id) | DependencyCycle

  datatype PlanResult = Planned(plan: seq<Entry>) | Rejected(error: PlanError)

  function Outputs(entries: seq<Entry>): seq<Id> {
    seq(|entries|, i requires 0 <= i < |entries| => entries[i].output)
  }

  /** What the caller guarantees: outputs are distinct, all are listed in `order`, and dependencies name outputs. */
  ghost predicate Coherent(entries: seq<Entry>, order: seq<Id>) {
    && NoDup(Outputs(entries))
    && NoDup(order) && Elems(order) == Elems(Outputs(entries))
    && forall i, d | 0 <= i < |entries| && d in entries[i].deps :: d in order
  }

  /** Producer-to-consumer arcs between outputs. */
  ghost function DepArcs(entries: seq<Entry>): set<Arc> {
    set i, d | 0 <= i < |entries| && d in entries[i].deps :: (d, entries[i].output)
  }

  /** Two entry lists differ at most in the order and repetition of the collected dependencies. */
  ghost predicate SameUpToDeps(a: seq<Entry>, b: seq<Entry>) {
    |a| == |b| && forall i | 0 <= i < |a| :: a[i].output == b[i].output && Elems(a[i].deps) == Elems(b[i].deps)
  }

  // ----- The plan as a function of dependency sets -----

  function SelfReferences(entries: seq<Entry>): seq<Id> {
    if entries == [] then []
    else
      var rest := SelfReferences(entries[..|entries| - 1]);
      var e := entries[|entries| - 1];
      if e.output in e.deps then rest + [e.output] else rest
  }

  /** The entries that use d, in declaration order. */
  function Dependents(entries: seq<Entry>, d: Id): seq<Id> {
    if entries == [] then []
    else
      var rest := Dependents(entries[..|entries| - 1], d);
      var e := entries[|entries| - 1];
      if d in e.deps then rest + [e.output] else rest
  }

  function DependentsTable(entries: seq<Entry>, order: seq<Id>): Adjacency {
    map d | d in order :: Dependents(entries, d)
  }

  /** Each output waits for as many producers as it has distinct dependencies. */
  function DepCounts(entries: seq<Entry>): Degrees {
    if entries == [] then map[]
    else
      var e := entries[|entries| - 1];
      DepCounts(entries[..|entries| - 1])[e.output := |Elems(e.deps)|]
  }

  function Sources(order: seq<Id>, indeg: Degrees): seq<Id> {
    if order == [] then []
    else
      var rest := Sources(order[..|order| - 1], indeg);
      var n := order[|order| - 1];
      if Degree(indeg, n) == 0 then rest + [n] else rest
  }

  function SortedNames(entries: seq<Entry>, order: seq<Id>): seq<Id> {
    var indeg := DepCounts(entries);
    Drain(Sources(order, indeg), indeg, DependentsTable(entries, order))
  }

  // ----- The loops -----

  function AppendIf(s: seq<Id>, cond: bool, n: Id): seq<Id> {
    if cond then s + [n] else s
  }

  /** `after` lists n once more than `before`, under exactly the names in `under`. */
  ghost predicate Enrolled(before: Adjacency, after: Adjacency, under: set<Id>, n: Id) {
    forall d :: Successors(after, d) == AppendIf(Successors(before, d), d in under, n)
  }

  lemma EnrolOne(before: Adjacency, after: Adjacency, under: set<Id>, n: Id, d: Id)
    requires Enrolled(before, after, under, n) && d !in under
    ensures Enrolled(before, after[d := Successors(after, d) + [n]], under + {d}, n)
  {
  }

  /** What one entry has contributed so far, having counted the dependencies in `seen`. */
  ghost predicate CountedSoFar(e: Entry, seen: set<Id>, indeg0: Degrees, indeg: Degrees, before: Adjacency, after: Adjacency) {
    && indeg == indeg0[e.output := |seen|]
    && Enrolled(before, after, seen, e.output)
  }

  lemma CountOne(e: Entry, seen: set<Id>, indeg0: Degrees, indeg: Degrees, before: Adjacency, after: Adjacency, d: Id)
    requires CountedSoFar(e, seen, indeg0, indeg, before, after) && d !in seen
    ensures CountedSoFar(e, seen + {d}, indeg0, indeg[e.output := indeg[e.output] + 1],
                         before, after[d := Successors(after, d) + [e.output]])
  {
    EnrolOne(before, after, seen, e.output, d);
  }

  /** Counting one entry's distinct dependencies, or meeting its own name among them. */
  method CountEntry(e: Entry, indeg0: Degrees, dependents0: Adjacency) returns (self: bool, indeg: Degrees, dependents: Adjacency)
    requires e.output in indeg0 && indeg0[e.output] == 0
    ensures self <==> e.output in Elems(e.deps)
    ensures !self ==> CountedSoFar(e, Elems(e.deps), indeg0, indeg, dependents0, dependents)
  {
    indeg, dependents := indeg0, dependents0;
    var seen: set<Id> := {};
    for i := 0 to |e.deps|
      invariant seen == Elems(e.deps[..i]) && e.output !in seen
      invariant CountedSoFar(e, seen, indeg0, indeg, dependents0, dependents)
    {
      var d := e.deps[i];
      ElemsGrow(e.deps, i);
      if d == e.output {
        return true, indeg, dependents;
      }
      if d !in seen {
        CountOne(e, seen, indeg0, indeg, dependents0, dependents, d);
        seen := seen + {d};
        indeg := indeg[e.output := indeg[e.output] + 1];
        dependents := dependents[d := Successors(dependents, d) + [e.output]];
      }
    }
    assert e.deps[..|e.deps|] == e.deps;
    self := false;
  }

  function ZeroCounts(entries: seq<Entry>): Degrees {
    map n | n in Outputs(entries) :: 0
  }

  lemma OutputsGrow(entries: seq<Entry>, i: nat)
    requires i < |entries|
    ensures entries[..i + 1][..i] == entries[..i]
    ensures Outputs(entries[..i + 1]) == Outputs(entries[..i]) + [entries[i].output]
    ensures entries[i].output == Outputs(entries)[i]
  {
    assert entries[..i + 1] == entries[..i] + [entries[i]];
  }

  lemma {:induction false} CountsKeys(entries: seq<Entry>)
    ensures DepCounts(entries).Keys == Elems(Outputs(entries))
  {
    if entries != [] {
      var k := |entries| - 1;
      CountsKeys(entries[..k]);
      OutputsGrow(entries, k);
      assert entries[..k + 1] == entries;
    }
  }

  ghost predicate ListsDependents(entries: seq<Entry>, dependents: Adjacency) {
    forall d :: Successors(dependents, d) == Dependents(entries, d)
  }

  lemma ListsGrow(entries: seq<Entry>, i: nat, before: Adjacency, after: Adjacency)
    requires i < |entries| && ListsDependents(entries[..i], before)
    requires Enrolled(before, after, Elems(entries[i].deps), entries[i].output)
    ensures ListsDependents(entries[..i + 1], after)
  {
    OutputsGrow(entries, i);
    forall d
      ensures Successors(after, d) == Dependents(entries[..i + 1], d)
    {
      assert Successors(before, d) == Dependents(entries[..i], d);
    }
  }

  lemma CountsGrow(entries: seq<Entry>, i: nat, zero: Degrees)
    requires i < |entries| && NoDup(Outputs(entries)) && zero == ZeroCounts(entries)
    ensures entries[i].output !in DepCounts(entries[..i]) && entries[i].output in zero
    ensures zero + DepCounts(entries[..i + 1]) == (zero + DepCounts(entries[..i]))[entries[i].output := |Elems(entries[i].deps)|]
  {
    OutputsGrow(entries, i);
    CountsKeys(entries[..i]);
    assert Outputs(entries)[i] in Outputs(entries);
    assert forall k | 0 <= k < i :: Outputs(entries[..i])[k] == Outputs(entries)[k];
    assert entries[i].output !in Outputs(entries[..i]);
  }

  /** The tables topoSortEntries builds are those of the dependency sets; it stops at the first self-reference. */
  method BuildEntryTables(entries: seq<Entry>) returns (self: Option<Id>, indeg: Degrees, dependents: Adjacency)
    requires NoDup(Outputs(entries))
    ensures self == if SelfReferences(entries) == [] then None else Some(SelfReferences(entries)[0])
    ensures self.None? ==> indeg == DepCounts(entries)
    ensures self.None? ==> ListsDependents(entries, dependents)
  {
    indeg, dependents := ZeroCounts(entries), map[];
    ghost var zero := indeg;
    for i := 0 to |entries|
      invariant SelfReferences(entries[..i]) == []
      invariant indeg == zero + DepCounts(entries[..i])
      invariant ListsDependents(entries[..i], dependents)
    {
      OutputsGrow(entries, i);
      CountsGrow(entries, i, zero);
      var selfRef, next, listed := CountEntry(entries[i], indeg, dependents);
      if selfRef {
        FirstSelfReference(entries, i + 1);
        return Some(entries[i].output), indeg, dependents;
      }
      ListsGrow(entries, i, dependents, listed);
      indeg, dependents := next, listed;
    }
    assert entries[..|entries|] == entries;
    CountsKeys(entries);
    self := None;
  }

  /** Later entries do not change which self-reference comes first. */
  lemma {:induction false} FirstSelfReference(entries: seq<Entry>, i: nat)
    requires i <= |entries| && SelfReferences(entries[..i]) != []
    ensures SelfReferences(entries) != [] && SelfReferences(entries)[0] == SelfReferences(entries[..i])[0]
    decreases |entries|
  {
    if i < |entries| {
      var init := entries[..|entries| - 1];
      assert init[..i] == entries[..i];
      FirstSelfReference(init, i);
    } else {
      assert entries[..i] == entries;
    }
  }

  method SeedEntries(order: seq<Id>, indeg: Degrees) returns (queue: seq<Id>)
    ensures queue == Sources(order, indeg)
  {
    queue := [];
    for i := 0 to |order|
      invariant queue == Sources(order[..i], indeg)
    {
      assert order[..i + 1][..i] == order[..i];
      if Degree(indeg, order[i]) == 0 {
        queue := queue + [order[i]];
      }
    }
    assert order[..|order|] == order;
  }

  /** Successor tables that read the same drive the drain the same way. */
  lemma {:induction false} DrainReads(queue: seq<Id>, indeg: Degrees, a: Adjacency, b: Adjacency)
    requires forall n :: Successors(a, n) == Successors(b, n)
    ensures Drain(queue, indeg, a) == Drain(queue, indeg, b)
    decreases |Positive(indeg)| + |queue|
  {
    if queue != [] {
      assert Successors(a, queue[0]) == Successors(b, queue[0]);
      var r := Relax(Successors(a, queue[0]), indeg);
      DrainReads(queue[1..] + r.released, r.indeg, a, b);
    }
  }

  // ----- The tables satisfy what the drain needs -----

  lemma {:induction false} DependentsOf(entries: seq<Entry>, d: Id)
    requires NoDup(Outputs(entries))
    ensures ListsSuccessors(DepArcs(entries), d, Dependents(entries, d))
    ensures forall m | m in Dependents(entries, d) :: m in Outputs(entries)
  {
    if entries != [] {
      var k := |entries| - 1;
      var init, e := entries[..k], entries[k];
      OutputsGrow(entries, k);
      assert entries[..k + 1] == entries;
      NoDupConcat(Outputs(init), [e.output]);
      DependentsOf(init, d);
      NoDupConcat(Dependents(init, d), [e.output]);
      forall m
        ensures (d, m) in DepArcs(entries) <==> (d, m) in DepArcs(init) || (d in e.deps && m == e.output)
      {
        if (d, m) in DepArcs(entries) {
          var i, x :| 0 <= i < |entries| && x in entries[i].deps && (x, entries[i].output) == (d, m);
          assert i < k ==> init[i] == entries[i];
        }
        if (d, m) in DepArcs(init) {
          var i, x :| 0 <= i < |init| && x in init[i].deps && (x, init[i].output) == (d, m);
          assert entries[i] == init[i];
        }
        if d in e.deps && m == e.output {
          assert (d, entries[k].output) in DepArcs(entries);
        }
      }
    }
  }

  lemma EntryTables(entries: seq<Entry>, order: seq<Id>)
    requires Coherent(entries, order)
    ensures Tables(Elems(order), DepArcs(entries), DependentsTable(entries, order))
  {
    var arcs, adj := DepArcs(entries), DependentsTable(entries, order);
    forall n
      ensures ListsSuccessors(arcs, n, Successors(adj, n))
    {
      DependentsOf(entries, n);
      if n !in order {
        assert forall m :: (n, m) !in arcs;
      }
    }
    forall m, n | (m, n) in arcs
      ensures m in Elems(order) && n in Elems(order)
    {
      var i, d :| 0 <= i < |entries| && d in entries[i].deps && (d, entries[i].output) == (m, n);
      assert Outputs(entries)[i] == n;
      assert n in Elems(Outputs(entries));
    }
  }

  lemma {:induction false} CountAt(entries: seq<Entry>, i: nat)
    requires NoDup(Outputs(entries)) && i < |entries|
    ensures Degree(DepCounts(entries), entries[i].output) == |Elems(entries[i].deps)|
  {
    var k := |entries| - 1;
    if i < k {
      var init := entries[..k];
      assert forall j | 0 <= j < k :: Outputs(init)[j] == Outputs(entries)[j];
      assert Outputs(entries)[i] != Outputs(entries)[k];
      CountAt(init, i);
    }
  }

  lemma CountsWaiting(entries: seq<Entry>, order: seq<Id>)
    requires Coherent(entries, order)
    ensures Counted(Elems(order), DepArcs(entries), [], DepCounts(entries))
  {
    var nodes, arcs := Elems(order), DepArcs(entries);
    forall n | n in nodes
      ensures Degree(DepCounts(entries), n) == |Waiting(nodes, arcs, [], n)|
    {
      assert n in Elems(Outputs(entries));
      var i :| 0 <= i < |entries| && Outputs(entries)[i] == n;
      CountAt(entries, i);
      forall m
        ensures m in Waiting(nodes, arcs, [], n) <==> m in entries[i].deps
      {
        if (m, n) in arcs {
          var j, d :| 0 <= j < |entries| && d in entries[j].deps && (d, entries[j].output) == (m, n);
          assert Outputs(entries)[j] == Outputs(entries)[i];
        }
        if m in entries[i].deps {
          assert (m, entries[i].output) in arcs;
        }
      }
      assert Waiting(nodes, arcs, [], n) == Elems(entries[i].deps);
    }
  }

  lemma {:induction false} SourcesReleased(order: seq<Id>, indeg: Degrees)
    requires NoDup(order)
    ensures Released(Elems(order), Sources(order, indeg), indeg)
  {
    if order != [] {
      var k := |order| - 1;
      SourcesReleased(order[..k], indeg);
      ElemsGrow(order, k);
      assert order[..k + 1] == order;
      NoDupConcat(order[..k], [order[k]]);
      assert order[..k] + [order[k]] == order;
      NoDupConcat(Sources(order[..k], indeg), [order[k]]);
      assert order[k] !in Elems(order[..k]);
    }
  }

  /** The sorted names: all of them exactly when the dependencies are acyclic, and then in dependency order. */
  lemma NamesSort(entries: seq<Entry>, order: seq<Id>)
    requires Coherent(entries, order)
    ensures var names := SortedNames(entries, order);
      && (|names| != |entries| <==> HasCycle(DepArcs(entries)))
      && (|names| == |entries| ==> IsTopological(Elems(order), DepArcs(entries), names))
  {
    EntryTables(entries, order);
    CountsWaiting(entries, order);
    var indeg := DepCounts(entries);
    SourcesReleased(order, indeg);
    assert [] + Sources(order, indeg) == Sources(order, indeg);
    DrainSorts(Elems(order), DepArcs(entries), DependentsTable(entries, order), Sources(order, indeg), indeg);
    NoDupSize(Outputs(entries));
  }

  lemma {:induction false} SelfReferenceIsCycle(entries: seq<Entry>)
    ensures SelfReferences(entries) != [] ==> HasCycle(DepArcs(entries))
  {
    if entries != [] {
      var k := |entries| - 1;
      var init, e := entries[..k], entries[k];
      SelfReferenceIsCycle(init);
      if e.output in e.deps {
        var loop := [e.output, e.output];
        assert (e.output, entries[k].output) in DepArcs(entries);
        assert Linked(DepArcs(entries), loop, 0);
        assert IsCycle(DepArcs(entries), loop);
      } else if HasCycle(DepArcs(init)) {
        var p :| IsCycle(DepArcs(init), p);
        ArcsGrow(entries);
        assert forall i | 0 <= i < |p| - 1 :: Linked(DepArcs(init), p, i) ==> Linked(DepArcs(entries), p, i);
        assert IsCycle(DepArcs(entries), p);
      }
    }
  }

  lemma ArcsGrow(entries: seq<Entry>)
    requires entries != []
    ensures DepArcs(entries[..|entries| - 1]) <= DepArcs(entries)
  {
    var init := entries[..|entries| - 1];
    forall a | a in DepArcs(init)
      ensures a in DepArcs(entries)
    {
      var i, d :| 0 <= i < |init| && d in init[i].deps && (d, init[i].output) == a;
      assert entries[i] == init[i];
    }
  }

  lemma TableReads(entries: seq<Entry>, order: seq<Id>, dependents: Adjacency)
    requires Coherent(entries, order) && ListsDependents(entries, dependents)
    ensures forall n :: Successors(dependents, n) == Successors(DependentsTable(entries, order), n)
  {
    EntryTables(entries, order);
    forall n
      ensures Successors(dependents, n) == Successors(DependentsTable(entries, order), n)
    {
      var ms := Dependents(entries, n);
      DependentsOf(entries, n);
      assert ms != [] ==> (n, ms[0]) in DepArcs(entries);
    }
  }

  /** The entry uses its own output, and none before it does. */
  ghost predicate NamesItselfFirst(entries: seq<Entry>, i: int) {
    0 <= i < |entries| && entries[i].output in entries[i].deps && forall j | 0 <= j < i :: entries[j].output !in entries[j].deps
  }

  ghost predicate NoneNamesItself(entries: seq<Entry>) {
    forall i | 0 <= i < |entries| :: entries[i].output !in entries[i].deps
  }

  lemma {:induction false} NoSelfReferences(entries: seq<Entry>)
    ensures SelfReferences(entries) == [] <==> NoneNamesItself(entries)
  {
    if entries != [] {
      var k := |entries| - 1;
      NoSelfReferences(entries[..k]);
      assert forall i | 0 <= i < k :: entries[..k][i] == entries[i];
    }
  }

  lemma {:induction false} FirstToNameItself(entries: seq<Entry>) returns (i: nat)
    requires SelfReferences(entries) != []
    ensures NamesItselfFirst(entries, i) && entries[i].output == SelfReferences(entries)[0]
  {
    var k := |entries| - 1;
    var init := entries[..k];
    assert forall j | 0 <= j < k :: init[j] == entries[j];
    if SelfReferences(init) != [] {
      i := FirstToNameItself(init);
    } else {
      NoSelfReferences(init);
      i := k;
    }
  }

  // ----- topoSortEntries -----

  datatype Verdict = Names(names: seq<Id>) | Refused(error: PlanError)

  /** The outcome as a function of the entries' outputs, dependency sets and declaration order alone. */
  function VerdictOf(entries: seq<Entry>, order: seq<Id>): Verdict {
    if SelfReferences(entries) != [] then Refused(SelfReference(SelfReferences(entries)[0]))
    else if |SortedNames(entries, order)| != |entries| then Refused(DependencyCycle)
    else Names(SortedNames(entries, order))
  }

  function Summary(r: PlanResult): Verdict {
    match r
    case Planned(plan) => Names(Outputs(plan))
    case Rejected(error) => Refused(error)
  }

  /** Fetching the entries behind the sorted names. */
  method FetchEntries(entries: seq<Entry>, names: seq<Id>) returns (plan: seq<Entry>)
    requires forall n | n in names :: n in Outputs(entries)
    ensures Outputs(plan) == names && forall e | e in plan :: e in entries
  {
    var byName: map<Id, Entry> := map[];
    for i := 0 to |entries|
      invariant forall k | 0 <= k < i :: entries[k].output in byName
      invariant forall n | n in byName :: byName[n] in entries && byName[n].output == n
    {
      byName := byName[entries[i].output := entries[i]];
    }
    plan := [];
    for i := 0 to |names|
      invariant |plan| == i && (forall k | 0 <= k < i :: plan[k].output == names[k])
      invariant forall e | e in plan :: e in entries
    {
      assert names[i] in Outputs(entries);
      plan := plan + [byName[names[i]]];
    }
  }

  /**
   topoSortEntries: rejects exactly the cyclic dependency lists, naming the first
   self-reference if there is one, and otherwise returns every entry once with
   each after the entries it uses.
   */
  method TopoSortEntries(entries: seq<Entry>, order: seq<Id>) returns (r: PlanResult)
    requires Coherent(entries, order)
    ensures r.Rejected? <==> HasCycle(DepArcs(entries))
    ensures r.Planned? ==> IsTopological(Elems(order), DepArcs(entries), Outputs(r.plan)) && forall e | e in r.plan :: e in entries
    ensures Summary(r) == VerdictOf(entries, order)
    ensures r.Rejected? && r.error.SelfReference? ==> exists i :: NamesItselfFirst(entries, i) && entries[i].output == r.error.output
    ensures r.Rejected? && r.error.DependencyCycle? ==> NoneNamesItself(entries)
  {
    SelfReferenceIsCycle(entries);
    NoSelfReferences(entries);
    NamesSort(entries, order);
    var self, indeg, dependents := BuildEntryTables(entries);
    if self.Some? {
      ghost var first := FirstToNameItself(entries);
      return Rejected(SelfReference(self.value));
    }
    var queue := SeedEntries(order, indeg);
    TableReads(entries, order, dependents);
    DrainReads(queue, indeg, dependents, DependentsTable(entries, order));
    var names := DrainQueue(queue, indeg, dependents);
    if |names| != |entries| {
      return Rejected(DependencyCycle);
    }
    assert forall n | n in names :: n in Elems(names);
    var plan := FetchEntries(entries, names);
    return Planned(plan);
  }

  /** The plan does not show the order, or the repetitions, in which dependencies were collected. */
  lemma {:induction false} PlanIgnoresDepOrder(a: seq<Entry>, b: seq<Entry>, order: seq<Id>)
    requires SameUpToDeps(a, b)
    ensures VerdictOf(a, order) == VerdictOf(b, order)
  {
    SameTables(a, b);
    forall d | d in order
      ensures Dependents(a, d) == Dependents(b, d)
    {
      SameDependents(a, b, d);
    }
    assert DependentsTable(a, order) == DependentsTable(b, order);
  }

  lemma {:induction false} SameTables(a: seq<Entry>, b: seq<Entry>)
    requires SameUpToDeps(a, b)
    ensures SelfReferences(a) == SelfReferences(b) && DepCounts(a) == DepCounts(b)
  {
    if a != [] {
      var k := |a| - 1;
      SameTables(a[..k], b[..k]);
      assert a[k].output in a[k].deps <==> a[k].output in Elems(b[k].deps);
    }
  }

  lemma {:induction false} SameDependents(a: seq<Entry>, b: seq<Entry>, d: Id)
    requires SameUpToDeps(a, b)
    ensures Dependents(a, d) == Dependents(b, d)
  {
    if a != [] {
      var k := |a| - 1;
      SameDependents(a[..k], b[..k], d);
      assert d in a[k].deps <==> d in Elems(b[k].deps);
    }
  }
}
