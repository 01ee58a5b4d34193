/**
 What the compiled form of each construct does, in terms of what the compiled
 forms of its parts do on their own: its value, and which operators and functions
 it runs in which order. Nothing here refers to the direct meaning of expressions.
 */
module LoweredForms {
  import opened Prelude
  import opened Expressions
  import opened Lowering

  /** Compiled on its own and run, the expression gives this value and runs these primitives. */
  ghost predicate Yields(p: Prims, e: Expr, env: Env, v: Value, t: seq<Event>) {
    Exec(p, Lower(e, 0).tree, env) == Run(Ok(V(v)), t)
  }

  ghost predicate Fails(p: Prims, e: Expr, env: Env, t: seq<Event>) {
    Exec(p, Lower(e, 0).tree, env) == Run(Fail, t)
  }

  /** It ends as the primitive does, which ran last, after these. */
  ghost predicate EndsWith(p: Prims, e: Expr, env: Env, prim: Prim, args: seq<Value>, t: seq<Event>) {
    match p(prim, args)
    case Fail => Fails(p, e, env, t + [Ran(prim, args)])
    case Ok(v) => Yields(p, e, env, v, t + [Ran(prim, args)])
  }

  lemma Direct(p: Prims, e: Expr, env: Env)
    requires NoScNames(e)
    ensures Exec(p, Lower(e, 0).tree, env) == Lift(Eval(p, IdentifiersFirst, e, env))
  {
    LoweredRuns(p, e, 0, env, env);
  }

  lemma YieldsIff(p: Prims, e: Expr, env: Env, v: Value, t: seq<Event>)
    requires NoScNames(e)
    ensures Yields(p, e, env, v, t) <==> Eval(p, IdentifiersFirst, e, env) == Run(Ok(v), t)
    ensures Fails(p, e, env, t) <==> Eval(p, IdentifiersFirst, e, env) == Run(Fail, t)
  {
    Direct(p, e, env);
  }

  // ----- Operators and calls -----

  /** Both operands run, the left one first, and then the operator on their values. */
  lemma BinaryForm(p: Prims, op: BinOp, l: Expr, r: Expr, env: Env, a: Value, ta: seq<Event>, b: Value, tb: seq<Event>)
    requires NoScNames(l) && NoScNames(r) && Yields(p, l, env, a, ta)
    ensures Yields(p, r, env, b, tb) ==> EndsWith(p, Binary(op, l, r), env, Op(op), [a, b], ta + tb)
    ensures Fails(p, r, env, tb) ==> Fails(p, Binary(op, l, r), env, ta + tb)
  {
    YieldsIff(p, l, env, a, ta);
    YieldsIff(p, r, env, b, tb);
    Direct(p, Binary(op, l, r), env);
  }

  /** A failing left operand is the end of it. */
  lemma FailingLeft(p: Prims, op: BinOp, l: Expr, r: Expr, env: Env, ta: seq<Event>)
    requires NoScNames(l) && NoScNames(r) && Fails(p, l, env, ta)
    ensures Fails(p, Binary(op, l, r), env, ta) && Fails(p, And(l, r), env, ta) && Fails(p, Or(l, r), env, ta)
  {
    YieldsIff(p, l, env, Null, ta);
    Direct(p, Binary(op, l, r), env);
    Direct(p, And(l, r), env);
    Direct(p, Or(l, r), env);
  }

  lemma UnaryForms(p: Prims, e: Expr, env: Env, v: Value, t: seq<Event>)
    requires NoScNames(e) && Yields(p, e, env, v, t)
    ensures EndsWith(p, Neg(e), env, Negate, [v], t)
    ensures Yields(p, Plus(e), env, v, t)
    ensures Yields(p, Not(e), env, if v == Bool(true) then Bool(false) else if v == Bool(false) then Bool(true) else Null, t)
  {
    YieldsIff(p, e, env, v, t);
    Direct(p, Neg(e), env);
    Direct(p, Plus(e), env);
    Direct(p, Not(e), env);
  }

  /** The expressions run in order, each giving its value and its own stretch of the trace. */
  ghost predicate AllYield(p: Prims, es: Exprs, env: Env, vs: seq<Value>, ts: seq<seq<Event>>) {
    match es
    case ENil => vs == [] && ts == []
    case ECons(e, rest) =>
      |vs| > 0 && |ts| > 0 && Yields(p, e, env, vs[0], ts[0]) && AllYield(p, rest, env, vs[1..], ts[1..])
  }

  function Joined(ts: seq<seq<Event>>): seq<Event> {
    if ts == [] then [] else ts[0] + Joined(ts[1..])
  }

  lemma {:induction false} AllDirect(p: Prims, es: Exprs, env: Env, vs: seq<Value>, ts: seq<seq<Event>>)
    requires NoScNamesIn(es) && AllYield(p, es, env, vs, ts)
    ensures EvalAll(p, IdentifiersFirst, es, env) == Run(Ok(vs), Joined(ts))
  {
    if es.ECons? {
      YieldsIff(p, es.head, env, vs[0], ts[0]);
      AllDirect(p, es.tail, env, vs[1..], ts[1..]);
      FirstAndRest(p, es, env, vs[0], ts[0], vs[1..], Joined(ts[1..]));
      assert [vs[0]] + vs[1..] == vs;
    }
  }

  lemma FirstAndRest(p: Prims, es: Exprs, env: Env, v: Value, t: seq<Event>, vs: seq<Value>, ts: seq<Event>)
    requires es.ECons? && Eval(p, IdentifiersFirst, es.head, env) == Run(Ok(v), t)
    requires EvalAll(p, IdentifiersFirst, es.tail, env) == Run(Ok(vs), ts)
    ensures EvalAll(p, IdentifiersFirst, es, env) == Run(Ok([v] + vs), t + ts)
  {
  }

  /** Arguments and items run in order; a call then runs its function on them, a list just holds them. */
  lemma ListForms(p: Prims, f: string, es: Exprs, env: Env, vs: seq<Value>, ts: seq<seq<Event>>)
    requires NoScNamesIn(es) && AllYield(p, es, env, vs, ts)
    ensures EndsWith(p, Call(f, es), env, Fn(f), vs, Joined(ts))
    ensures Yields(p, ListLit(es), env, List(vs), Joined(ts))
  {
    AllDirect(p, es, env, vs, ts);
    Direct(p, Call(f, es), env);
    Direct(p, ListLit(es), env);
  }

  // ----- Connectives and conditionals -----

  /** `and`: false decides at once; otherwise the right operand runs too, and all but two trues and a false is null. */
  lemma AndForm(p: Prims, l: Expr, r: Expr, env: Env, a: Value, ta: seq<Event>, b: Value, tb: seq<Event>)
    requires NoScNames(l) && NoScNames(r) && Yields(p, l, env, a, ta)
    ensures a == Bool(false) ==> Yields(p, And(l, r), env, Bool(false), ta)
    ensures a != Bool(false) && Fails(p, r, env, tb) ==> Fails(p, And(l, r), env, ta + tb)
    ensures a != Bool(false) && Yields(p, r, env, b, tb) ==>
      Yields(p, And(l, r), env,
             if b == Bool(false) then Bool(false) else if a == Bool(true) && b == Bool(true) then Bool(true) else Null, ta + tb)
  {
    YieldsIff(p, l, env, a, ta);
    YieldsIff(p, r, env, b, tb);
    Direct(p, And(l, r), env);
  }

  /** `or`: true decides at once. */
  lemma OrForm(p: Prims, l: Expr, r: Expr, env: Env, a: Value, ta: seq<Event>, b: Value, tb: seq<Event>)
    requires NoScNames(l) && NoScNames(r) && Yields(p, l, env, a, ta)
    ensures a == Bool(true) ==> Yields(p, Or(l, r), env, Bool(true), ta)
    ensures a != Bool(true) && Fails(p, r, env, tb) ==> Fails(p, Or(l, r), env, ta + tb)
    ensures a != Bool(true) && Yields(p, r, env, b, tb) ==>
      Yields(p, Or(l, r), env,
             if b == Bool(true) then Bool(true) else if a == Bool(false) && b == Bool(false) then Bool(false) else Null, ta + tb)
  {
    YieldsIff(p, l, env, a, ta);
    YieldsIff(p, r, env, b, tb);
    Direct(p, Or(l, r), env);
  }

  /** Only true chooses the first branch, and only the chosen branch runs. */
  lemma IfForm(p: Prims, c: Expr, x: Expr, y: Expr, env: Env, v: Value, tc: seq<Event>, w: Value, t: seq<Event>)
    requires NoScNames(c) && NoScNames(x) && NoScNames(y) && Yields(p, c, env, v, tc)
    ensures var chosen := if v == Bool(true) then x else y;
      && (Yields(p, chosen, env, w, t) ==> Yields(p, If(c, x, y), env, w, tc + t))
      && (Fails(p, chosen, env, t) ==> Fails(p, If(c, x, y), env, tc + t))
  {
    var chosen := if v == Bool(true) then x else y;
    YieldsIff(p, c, env, v, tc);
    YieldsIff(p, chosen, env, w, t);
    Direct(p, If(c, x, y), env);
    ChosenEval(p, c, x, y, env, v, tc, chosen);
  }

  lemma ChosenEval(p: Prims, c: Expr, x: Expr, y: Expr, env: Env, v: Value, tc: seq<Event>, chosen: Expr)
    requires Eval(p, IdentifiersFirst, c, env) == Run(Ok(v), tc) && chosen == if v == Bool(true) then x else y
    ensures Eval(p, IdentifiersFirst, If(c, x, y), env) == Prepend(tc, Eval(p, IdentifiersFirst, chosen, env))
  {
  }

  // ----- Dictionary literals -----

  predicate Letter(c: char) {
    c == '_' || 'a' <= c <= 'z' || 'A' <= c <= 'Z'
  }

  /** A letter or underscore, then letters, digits and underscores. */
  predicate Word(k: string) {
    |k| > 0 && Letter(k[0]) && forall i | 1 <= i < |k| :: Letter(k[i]) || '0' <= k[i] <= '9'
  }

  /** Not one of the patcher's own variables, which all begin with __sc. */
  predicate Ordinary(k: string) {
    !("__sc" <= k)
  }

  function SelfReference(k: string, e: Expr, j: string): Expr {
    DictLit(Entry(k, e, Entry(j, Var(k), Empty)))
  }

  lemma NoScInReference(k: string, e: Expr, j: string)
    requires Ordinary(k) && Ordinary(j) && NoScNames(e)
    ensures NoScNames(SelfReference(k, e, j))
  {
    var last := Entry(j, Var(k), Empty);
    assert NoScKeys(Empty) && NoScNames(Var(k));
    assert NoScKeys(last);
    assert NoScKeys(Entry(k, e, last));
  }

  /** In {k: e, j: k}, a word k names the first entry: e runs once, and its value is under both keys. */
  lemma WordKeyShared(p: Prims, k: string, j: string, e: Expr, env: Env, v: Value, t: seq<Event>)
    requires Word(k) && Ordinary(k) && Ordinary(j) && j != k && NoScNames(e)
    ensures Yields(p, e, env, v, t) ==> Yields(p, SelfReference(k, e, j), env, Dict(map[k := v, j := v]), t)
    ensures Fails(p, e, env, t) ==> Fails(p, SelfReference(k, e, j), env, t)
  {
    YieldsIff(p, e, env, v, t);
    NoScInReference(k, e, j);
    Direct(p, SelfReference(k, e, j), env);
    assert IsIdentifier(k);
    SharedEval(p, k, j, e, env, v, t);
  }

  lemma SharedEval(p: Prims, k: string, j: string, e: Expr, env: Env, v: Value, t: seq<Event>)
    requires IsIdentifier(k) && j != k
    ensures var r := Eval(p, IdentifiersFirst, e, env);
      && (r == Run(Ok(v), t) ==> Eval(p, IdentifiersFirst, SelfReference(k, e, j), env) == Run(Ok(Dict(map[k := v, j := v])), t))
      && (r == Run(Fail, t) ==> Eval(p, IdentifiersFirst, SelfReference(k, e, j), env) == Run(Fail, t))
  {
    var last := Entry(j, Var(k), Empty);
    if Eval(p, IdentifiersFirst, e, env) == Run(Ok(v), t) {
      var inner := env[k := v];
      var ef := if IsIdentifier(j) then inner[j := v] else inner;
      assert EvalIdents(p, IdentifiersFirst, last, inner) == Run(Ok(ef), []);
      assert EvalIdents(p, IdentifiersFirst, Entry(k, e, last), env) == Run(Ok(ef), t);
      assert EvalOthers(p, IdentifiersFirst, last, ef, map[k := v]) == Run(Ok(map[k := v, j := v]), []);
      assert EvalOthers(p, IdentifiersFirst, Entry(k, e, last), ef, map[]) == Run(Ok(map[k := v, j := v]), []);
    } else if Eval(p, IdentifiersFirst, e, env) == Run(Fail, t) {
      assert EvalIdents(p, IdentifiersFirst, Entry(k, e, last), env) == Run(Fail, t);
    }
  }

  /**
   Any other key k names nothing: the second entry reads k where the literal stands.
   A word j is settled before e runs, and e then sees it.
   */
  lemma OtherKeyOutside(p: Prims, k: string, j: string, e: Expr, env: Env, v: Value, t: seq<Event>)
    requires !Word(k) && Ordinary(k) && Ordinary(j) && j != k && NoScNames(e)
    ensures k in env && Yields(p, e, if Word(j) then env[j := env[k]] else env, v, t) ==>
      Yields(p, SelfReference(k, e, j), env, Dict(map[k := v, j := env[k]]), t)
    ensures k !in env && (Word(j) || Yields(p, e, env, v, t)) ==>
      Fails(p, SelfReference(k, e, j), env, if Word(j) then [] else t)
  {
    YieldsIff(p, e, env, v, t);
    NoScInReference(k, e, j);
    Direct(p, SelfReference(k, e, j), env);
    assert !IsIdentifier(k) && (IsIdentifier(j) <==> Word(j));
    if k in env {
      var scope := if Word(j) then env[j := env[k]] else env;
      YieldsIff(p, e, scope, v, t);
      if Yields(p, e, scope, v, t) {
        OutsideEval(p, k, j, e, env, scope, v, t);
      }
    } else if Word(j) || Yields(p, e, env, v, t) {
      UnboundEval(p, k, j, e, env, v, t);
    }
  }

  lemma UnboundEval(p: Prims, k: string, j: string, e: Expr, env: Env, v: Value, t: seq<Event>)
    requires !IsIdentifier(k) && j != k && k !in env
    requires IsIdentifier(j) || Eval(p, IdentifiersFirst, e, env) == Run(Ok(v), t)
    ensures Eval(p, IdentifiersFirst, SelfReference(k, e, j), env) == Run(Fail, if IsIdentifier(j) then [] else t)
  {
    var last := Entry(j, Var(k), Empty);
    assert Eval(p, IdentifiersFirst, Var(k), env) == Run(Fail, []);
    if IsIdentifier(j) {
      assert EvalIdents(p, IdentifiersFirst, last, env) == Run(Fail, []);
      assert EvalIdents(p, IdentifiersFirst, Entry(k, e, last), env) == Run(Fail, []);
    } else {
      assert EvalIdents(p, IdentifiersFirst, last, env) == Run(Ok(env), []);
      assert EvalIdents(p, IdentifiersFirst, Entry(k, e, last), env) == Run(Ok(env), []);
      assert EvalOthers(p, IdentifiersFirst, last, env, map[k := v]) == Run(Fail, []);
      assert EvalOthers(p, IdentifiersFirst, Entry(k, e, last), env, map[]) == Run(Fail, t + []);
      assert t + [] == t && [] + t == t;
    }
  }

  lemma OutsideEval(p: Prims, k: string, j: string, e: Expr, env: Env, scope: Env, v: Value, t: seq<Event>)
    requires !IsIdentifier(k) && j != k && k in env && scope == (if IsIdentifier(j) then env[j := env[k]] else env)
    requires Eval(p, IdentifiersFirst, e, scope) == Run(Ok(v), t)
    ensures Eval(p, IdentifiersFirst, SelfReference(k, e, j), env) == Run(Ok(Dict(map[k := v, j := env[k]])), t)
  {
    var last := Entry(j, Var(k), Empty);
    assert EvalIdents(p, IdentifiersFirst, last, env) == Run(Ok(scope), []);
    assert EvalIdents(p, IdentifiersFirst, Entry(k, e, last), env) == Run(Ok(scope), []);
    assert EvalOthers(p, IdentifiersFirst, last, scope, map[k := v]) == Run(Ok(map[k := v, j := env[k]]), []);
    assert EvalOthers(p, IdentifiersFirst, Entry(k, e, last), scope, map[]) == Run(Ok(map[k := v, j := env[k]]), t + []);
    assert t + [] == t && [] + t == t;
  }
}
