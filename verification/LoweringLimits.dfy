/**
 What lowering cannot keep and what keeps its made-up names apart: the exact key
 order a dictionary literal needs, and the uniqueness of the variables that hold
 the left operands of connectives.
 */
module LoweringLimits {
  import opened Prelude
  import Decimals
  import opened Expressions
  import opened Lowering

  // ----- The order of keys -----

  /** Lowering the expression is unobservable, whatever the primitives and the variables. */
  ghost predicate Preserved(e: Expr) {
    forall p: Prims, n: nat, env: Env :: Exec(p, Lower(e, n).tree, env) == Lift(Eval(p, InOrder, e, env))
  }

  ghost predicate SameKeys(a: Entries, b: Entries) {
    && (a.Empty? <==> b.Empty?)
    && (a.Entry? ==> a.key == b.key && SameKeys(a.rest, b.rest))
  }

  /** Primitives that always answer null: only the order of the calls can be seen. */
  function Silent(prim: Prim, args: seq<Value>): Outcome<Value> {
    Ok(Null)
  }

  function Probe(i: nat): Expr {
    Call("probe", ECons(Lit(Num(i)), ENil))
  }

  function ProbeEvent(i: nat): Event {
    Ran(Fn("probe"), [Num(i)])
  }

  /** The same keys, with a numbered call for each value. */
  function Probed(es: Entries, i: nat): Entries {
    if es.Empty? then Empty else Entry(es.key, Probe(i), Probed(es.rest, i + 1))
  }

  function AllEvents(es: Entries, i: nat): seq<Event> {
    if es.Empty? then [] else [ProbeEvent(i)] + AllEvents(es.rest, i + 1)
  }

  function IdentEvents(es: Entries, i: nat): seq<Event> {
    if es.Empty? then [] else (if IsIdentifier(es.key) then [ProbeEvent(i)] else []) + IdentEvents(es.rest, i + 1)
  }

  function OtherEvents(es: Entries, i: nat): seq<Event> {
    if es.Empty? then [] else (if IsIdentifier(es.key) then [] else [ProbeEvent(i)]) + OtherEvents(es.rest, i + 1)
  }

  lemma ProbeRuns(order: DictOrder, i: nat, env: Env)
    ensures Eval(Silent, order, Probe(i), env) == Run(Ok(Null), [ProbeEvent(i)])
  {
    var args := ECons(Lit(Num(i)), ENil);
    assert EvalAll(Silent, order, ENil, env) == Run(Ok([]), []);
    assert Eval(Silent, order, Lit(Num(i)), env) == Run(Ok(Num(i)), []);
    assert [Num(i)] + [] == [Num(i)];
    assert EvalAll(Silent, order, args, env).out == Ok([Num(i)]);
    assert EvalAll(Silent, order, args, env).trace == [];
    assert [] + [ProbeEvent(i)] == [ProbeEvent(i)];
  }

  lemma {:induction false} ProbedInOrder(es: Entries, i: nat, env: Env, acc: map<string, Value>)
    ensures var r := EvalEntries(Silent, InOrder, Probed(es, i), env, acc); r.out.Ok? && r.trace == AllEvents(es, i)
  {
    if es.Entry? {
      ProbeRuns(InOrder, i, env);
      ProbedInOrder(es.rest, i + 1, Bind(env, es.key, Null), acc[es.key := Null]);
    }
  }

  ghost predicate Holds(env: Env, es: Entries) {
    es.Entry? ==> (IsIdentifier(es.key) ==> es.key in env) && Holds(env, es.rest)
  }

  lemma {:induction false} ProbedIdents(es: Entries, i: nat, env: Env)
    ensures var r := EvalIdents(Silent, IdentifiersFirst, Probed(es, i), env);
            r.out.Ok? && r.trace == IdentEvents(es, i) && env.Keys <= r.out.value.Keys && Holds(r.out.value, es)
  {
    if es.Entry? {
      ProbeRuns(IdentifiersFirst, i, env);
      ProbedIdents(es.rest, i + 1, if IsIdentifier(es.key) then env[es.key := Null] else env);
      assert IsIdentifier(es.key) ==> es.key in env[es.key := Null].Keys;
    }
  }

  lemma {:induction false} ProbedOthers(es: Entries, i: nat, env: Env, acc: map<string, Value>)
    requires Holds(env, es)
    ensures var r := EvalOthers(Silent, IdentifiersFirst, Probed(es, i), env, acc); r.out.Ok? && r.trace == OtherEvents(es, i)
  {
    if es.Entry? {
      ProbeRuns(IdentifiersFirst, i, env);
      ProbedOthers(es.rest, i + 1, env, acc[es.key := if IsIdentifier(es.key) then env[es.key] else Null]);
    }
  }

  lemma {:induction false} IdentEventsLater(es: Entries, i: nat)
    ensures NoIdentifiers(es) || (IdentEvents(es, i) != [] && exists j: nat | i <= j :: IdentEvents(es, i)[0] == ProbeEvent(j))
  {
    if es.Entry? {
      IdentEventsLater(es.rest, i + 1);
      if IsIdentifier(es.key) {
        assert IdentEvents(es, i)[0] == ProbeEvent(i);
      } else {
        assert IdentEvents(es, i) == IdentEvents(es.rest, i + 1);
      }
    }
  }

  /** The calls come in the order written only if the identifier keys already lead. */
  lemma {:induction false} SameEventsLead(es: Entries, i: nat)
    requires IdentEvents(es, i) + OtherEvents(es, i) == AllEvents(es, i)
    ensures IdentifiersLead(es)
  {
    if es.Entry? {
      if IsIdentifier(es.key) {
        assert (IdentEvents(es, i) + OtherEvents(es, i))[1..] == IdentEvents(es.rest, i + 1) + OtherEvents(es.rest, i + 1);
        assert AllEvents(es, i)[1..] == AllEvents(es.rest, i + 1);
        SameEventsLead(es.rest, i + 1);
      } else {
        assert IdentEvents(es, i) == IdentEvents(es.rest, i + 1);
        IdentEventsLater(es.rest, i + 1);
        assert AllEvents(es, i)[0] == ProbeEvent(i);
        assert forall j: nat :: ProbeEvent(i) == ProbeEvent(j) ==> [Num(i)][0] == [Num(j)][0];
      }
    }
  }

  lemma {:induction false} ProbedClean(es: Entries, i: nat)
    requires NoScKeys(es)
    ensures SameKeys(es, Probed(es, i)) && NoScKeys(Probed(es, i)) && EntriesLed(Probed(es, i))
  {
    if es.Entry? {
      ProbedClean(es.rest, i + 1);
      var args := ECons(Lit(Num(i)), ENil);
      assert NoScNamesIn(ENil) && AllLed(ENil);
      assert NoScNamesIn(args) && AllLed(args);
      assert NoScNames(Probe(i)) && Led(Probe(i));
    }
  }

  lemma {:induction false} SameKeysLead(a: Entries, b: Entries)
    requires SameKeys(a, b)
    ensures IdentifiersLead(a) <==> IdentifiersLead(b)
    ensures NoIdentifiers(a) <==> NoIdentifiers(b)
  {
    if a.Entry? {
      SameKeysLead(a.rest, b.rest);
    }
  }

  /**
   The keys of a dictionary literal decide: lowering is unobservable for every choice
   of values under those keys exactly when no other key stands before an identifier key.
   */
  lemma KeyOrderDecides(keys: Entries)
    requires NoScKeys(keys)
    ensures IdentifiersLead(keys)
       <==> forall es | SameKeys(keys, es) && NoScKeys(es) && EntriesLed(es) :: Preserved(DictLit(es))
  {
    if IdentifiersLead(keys) {
      forall es | SameKeys(keys, es) && NoScKeys(es) && EntriesLed(es) ensures Preserved(DictLit(es)) {
        SameKeysLead(keys, es);
        forall p: Prims, n: nat, env: Env
          ensures Exec(p, Lower(DictLit(es), n).tree, env) == Lift(Eval(p, InOrder, DictLit(es), env))
        {
          LoweringPreservesMeaning(p, DictLit(es), n, env, env);
        }
      }
    }
    if forall es | SameKeys(keys, es) && NoScKeys(es) && EntriesLed(es) :: Preserved(DictLit(es)) {
      var es := Probed(keys, 0);
      ProbedClean(keys, 0);
      assert Preserved(DictLit(es));
      ProbesAgree(keys);
    }
  }

  lemma ProbesAgree(keys: Entries)
    requires NoScKeys(keys) && Preserved(DictLit(Probed(keys, 0)))
    ensures IdentifiersLead(keys)
  {
    var es := Probed(keys, 0);
    ProbedClean(keys, 0);
    LoweredRuns(Silent, DictLit(es), 0, map[], map[]);
    assert Exec(Silent, Lower(DictLit(es), 0).tree, map[]) == Lift(Eval(Silent, InOrder, DictLit(es), map[]));
    ProbedInOrder(keys, 0, map[], map[]);
    ProbedIdents(keys, 0, map[]);
    ProbedOthers(keys, 0, EvalIdents(Silent, IdentifiersFirst, es, map[]).out.value, map[]);
    SameEventsLead(keys, 0);
  }

  /** {"a b": c, c: 1} where c is unknown outside: an error in written order, but the lowered form gives "a b" the 1. */
  lemma LaterKeyCaptured()
    ensures var e := DictLit(Entry("a b", Var("c"), Entry("c", Lit(Num(1)), Empty)));
            && Eval(Silent, InOrder, e, map[]).out == Fail
            && Exec(Silent, Lower(e, 0).tree, map[]).out == Ok(V(Dict(map["a b" := Num(1), "c" := Num(1)])))
  {
    var second := Entry("c", Lit(Num(1)), Empty);
    var es := Entry("a b", Var("c"), second);
    var inner := map["c" := Num(1)];
    assert "a b"[1] == ' ';
    assert !IsIdentifier("a b") && IsIdentifier("c");
    assert map[]["c" := Num(1)] == inner;
    assert EvalIdents(Silent, IdentifiersFirst, second, map[]).out == Ok(inner);
    assert EvalIdents(Silent, IdentifiersFirst, es, map[]).out == Ok(inner);
    assert EvalOthers(Silent, IdentifiersFirst, second, inner, map["a b" := Num(1)]).out == Ok(map["a b" := Num(1), "c" := Num(1)]);
    assert EvalOthers(Silent, IdentifiersFirst, es, inner, map[]).out == Ok(map["a b" := Num(1), "c" := Num(1)]);
    assert !IsScName("a b") && !IsScName("c");
    LoweredRuns(Silent, DictLit(es), 0, map[], map[]);
  }

  // ----- The made-up names -----

  /** How often the name x is bound in a lowered tree. */
  ghost function Bound(n: Node, x: string): nat {
    match n
    case Const(_) => 0
    case Ident(_) => 0
    case CallNode(_, args) => BoundIn(args, x)
    case Cond(c, a, b) => Bound(c, x) + Bound(a, x) + Bound(b, x)
    case Let(y, bound, body) => (if x == y then 1 else 0) + Bound(bound, x) + Bound(body, x)
  }

  ghost function BoundIn(ns: Nodes, x: string): nat {
    if ns.NNil? then 0 else Bound(ns.head, x) + BoundIn(ns.tail, x)
  }

  ghost function BoundUnder(es: LoweredEntries, x: string): nat {
    if es.LEmpty? then 0 else Bound(es.value, x) + BoundUnder(es.rest, x)
  }

  /** How often x is among the names numbered after `lo`, up to `hi`. */
  ghost function Named(lo: nat, hi: nat, x: string): nat
    decreases hi
  {
    if hi <= lo then 0 else Named(lo, hi - 1, x) + if x == ScName(hi) then 1 else 0
  }

  lemma {:induction false} NamesJoin(a: nat, b: nat, c: nat, x: string)
    requires a <= b <= c
    ensures Named(a, c, x) == Named(a, b, x) + Named(b, c, x)
    decreases c
  {
    if b < c {
      NamesJoin(a, b, c - 1, x);
    }
  }

  lemma NamesDiffer(i: nat, j: nat)
    requires ScName(i) == ScName(j)
    ensures i == j
  {
    Decimals.ReadPrint(i);
    Decimals.ReadPrint(j);
    assert Decimals.Print(i) == ScName(i)[|SC_PREFIX|..];
    assert Decimals.Print(j) == ScName(j)[|SC_PREFIX|..];
  }

  lemma {:induction false} NamedOnce(lo: nat, hi: nat, k: nat)
    ensures Named(lo, hi, ScName(k)) == if lo < k <= hi then 1 else 0
    decreases hi
  {
    if lo < hi {
      NamedOnce(lo, hi - 1, k);
      if ScName(k) == ScName(hi) {
        NamesDiffer(k, hi);
      }
    }
  }

  lemma OneArg(a: Node, x: string)
    ensures BoundIn(Args1(a), x) == Bound(a, x)
  {
    assert BoundIn(NNil, x) == 0;
  }

  lemma TwoArgs(a: Node, b: Node, x: string)
    ensures BoundIn(Args2(a, b), x) == Bound(a, x) + Bound(b, x)
  {
    OneArg(b, x);
  }

  lemma LogicalBinds(name: string, left: Node, right: Node, guard: FnName, combine: FnName, x: string)
    ensures Bound(LowerLogical(name, left, right, guard, combine), x)
         == (if x == name then 1 else 0) + Bound(left, x) + Bound(right, x)
  {
    OneArg(Ident(name), x);
    TwoArgs(Ident(name), right, x);
    var cond := Cond(CallNode(guard, Args1(Ident(name))), CallNode(ValFn, Args1(Ident(name))), CallNode(combine, Args2(Ident(name), right)));
    assert Bound(cond, x) == Bound(right, x);
  }

  function LoweredKeys(es: LoweredEntries): set<string> {
    if es.LEmpty? then {} else {es.key} + LoweredKeys(es.rest)
  }

  /** Of each entry's value, the lets and the arguments together hold exactly one copy. */
  lemma {:induction false} DictBinds(es: LoweredEntries, inner: Node, x: string)
    requires x !in LoweredKeys(es)
    ensures Bound(DictLets(es, inner), x) + BoundIn(DictArgs(es), x) == BoundUnder(es, x) + Bound(inner, x)
  {
    if es.LEntry? {
      DictBinds(es.rest, inner, x);
      var second := if IsIdentifier(es.key) then Ident(es.key) else es.value;
      assert BoundIn(NCons(second, DictArgs(es.rest)), x) == Bound(second, x) + BoundIn(DictArgs(es.rest), x);
    }
  }

  /** Each connective binds one name, and it is the name of its own number. */
  lemma {:induction false} LowerBinds(e: Expr, n: nat, x: string)
    requires NoScNames(e) && IsScName(x)
    ensures n <= Lower(e, n).counter
    ensures Bound(Lower(e, n).tree, x) == Named(n, Lower(e, n).counter, x)
    decreases e, 1
  {
    match e
    case Lit(_) =>
    case Var(_) =>
    case Plus(a) => LowerBinds(a, n, x);
    case Neg(a) =>
      LowerBinds(a, n, x);
      OneArg(Lower(a, n).tree, x);
    case Not(a) =>
      LowerBinds(a, n, x);
      OneArg(Lower(a, n).tree, x);
    case And(l, r) => ConnectiveBinds(e, l, r, n, x);
    case Or(l, r) => ConnectiveBinds(e, l, r, n, x);
    case Binary(op, l, r) =>
      var m := Lower(l, n).counter;
      LowerBinds(l, n, x);
      LowerBinds(r, m, x);
      NamesJoin(n, m, Lower(r, m).counter, x);
      TwoArgs(Lower(l, n).tree, Lower(r, m).tree, x);
    case If(c, a, b) => IfBinds(c, a, b, n, x);
    case ListLit(es) => LowerAllBinds(es, n, x);
    case DictLit(es) =>
      LowerEntriesBinds(es, n, x);
      var les := LowerEntries(es, n).tree;
      DictBinds(les, CallNode(MkDictFn, DictArgs(les)), x);
    case Call(_, args) => LowerAllBinds(args, n, x);
  }

  lemma {:induction false} ConnectiveBinds(e: Expr, l: Expr, r: Expr, n: nat, x: string)
    requires e == And(l, r) || e == Or(l, r)
    requires NoScNames(l) && NoScNames(r) && IsScName(x)
    ensures n <= Lower(e, n).counter
    ensures Bound(Lower(e, n).tree, x) == Named(n, Lower(e, n).counter, x)
    decreases e, 0
  {
    var ll := Lower(l, n);
    var lr := Lower(r, ll.counter);
    LowerBinds(l, n, x);
    LowerBinds(r, ll.counter, x);
    NamesJoin(n, ll.counter, lr.counter, x);
    LogicalBinds(ScName(lr.counter + 1), ll.tree, lr.tree, IsFalseFn, BlAndFn, x);
    LogicalBinds(ScName(lr.counter + 1), ll.tree, lr.tree, IsTrueFn, BlOrFn, x);
  }

  lemma {:induction false} IfBinds(c: Expr, a: Expr, b: Expr, n: nat, x: string)
    requires NoScNames(c) && NoScNames(a) && NoScNames(b) && IsScName(x)
    ensures var e := If(c, a, b); n <= Lower(e, n).counter && Bound(Lower(e, n).tree, x) == Named(n, Lower(e, n).counter, x)
    decreases If(c, a, b), 0
  {
    var lc := Lower(c, n);
    var la := Lower(a, lc.counter);
    var lb := Lower(b, la.counter);
    LowerBinds(c, n, x);
    LowerBinds(a, lc.counter, x);
    LowerBinds(b, la.counter, x);
    NamesJoin(n, lc.counter, la.counter, x);
    NamesJoin(n, la.counter, lb.counter, x);
    OneArg(lc.tree, x);
  }

  lemma {:induction false} LowerAllBinds(es: Exprs, n: nat, x: string)
    requires NoScNamesIn(es) && IsScName(x)
    ensures n <= LowerAll(es, n).counter
    ensures BoundIn(LowerAll(es, n).tree, x) == Named(n, LowerAll(es, n).counter, x)
  {
    if es.ECons? {
      var m := Lower(es.head, n).counter;
      LowerBinds(es.head, n, x);
      LowerAllBinds(es.tail, m, x);
      NamesJoin(n, m, LowerAll(es.tail, m).counter, x);
    }
  }

  lemma {:induction false} LowerEntriesBinds(es: Entries, n: nat, x: string)
    requires NoScKeys(es) && IsScName(x)
    ensures n <= LowerEntries(es, n).counter
    ensures BoundUnder(LowerEntries(es, n).tree, x) == Named(n, LowerEntries(es, n).counter, x)
    ensures x !in LoweredKeys(LowerEntries(es, n).tree)
  {
    if es.Entry? {
      var m := Lower(es.value, n).counter;
      LowerBinds(es.value, n, x);
      LowerEntriesBinds(es.rest, m, x);
      NamesJoin(n, m, LowerEntries(es.rest, m).counter, x);
    }
  }

  /** The names made up for an expression are exactly the next ones, and each is bound exactly once. */
  lemma NamesApart(e: Expr, n: nat, k: nat)
    requires NoScNames(e)
    ensures Bound(Lower(e, n).tree, ScName(k)) == if n < k <= Lower(e, n).counter then 1 else 0
  {
    assert IsScName(ScName(k));
    LowerBinds(e, n, ScName(k));
    NamedOnce(n, Lower(e, n).counter, k);
  }
}
