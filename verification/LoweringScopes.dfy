/**
 Which lowered trees declare each name at most once in scope. An engine that
 refuses to declare a name again (expr does) accepts a lowered tree exactly when
 the dictionary literals it came from do not repeat or shadow an identifier key;
 the made-up variables of connectives never stand in the way.
 */
module LoweringScopes {
  import opened Prelude
  import opened Expressions
  import opened Lowering
  import opened LoweringLimits

  /** No `let` of the tree declares a name that is already in scope. */
  ghost predicate Declares(n: Node, scope: set<string>) {
    match n
    case Const(_) => true
    case Ident(_) => true
    case CallNode(_, args) => DeclaresAll(args, scope)
    case Cond(c, a, b) => Declares(c, scope) && Declares(a, scope) && Declares(b, scope)
    case Let(x, bound, body) => x !in scope && Declares(bound, scope) && Declares(body, scope + {x})
  }

  ghost predicate DeclaresAll(ns: Nodes, scope: set<string>) {
    ns.NCons? ==> Declares(ns.head, scope) && DeclaresAll(ns.tail, scope)
  }

  /** The identifier keys of a literal, as a set. */
  function IdentKeys(es: Entries): set<string> {
    if es.Empty? then {} else (if IsIdentifier(es.key) then {es.key} else {}) + IdentKeys(es.rest)
  }

  /** No dictionary literal of the expression repeats an identifier key or takes one that is in scope. */
  ghost predicate Fresh(e: Expr, scope: set<string>)
    decreases e, 1
  {
    match e
    case Lit(_) => true
    case Var(_) => true
    case Plus(a) => Fresh(a, scope)
    case Neg(a) => Fresh(a, scope)
    case Not(a) => Fresh(a, scope)
    case And(l, r) => Fresh(l, scope) && Fresh(r, scope)
    case Or(l, r) => Fresh(l, scope) && Fresh(r, scope)
    case Binary(_, l, r) => Fresh(l, scope) && Fresh(r, scope)
    case If(c, a, b) => Fresh(c, scope) && Fresh(a, scope) && Fresh(b, scope)
    case ListLit(es) => AllFresh(es, scope)
    case DictLit(es) => IdentsFresh(es, scope) && OthersFresh(es, scope + IdentKeys(es))
    case Call(_, args) => AllFresh(args, scope)
  }

  ghost predicate AllFresh(es: Exprs, scope: set<string>)
    decreases es, 0
  {
    es.ECons? ==> Fresh(es.head, scope) && AllFresh(es.tail, scope)
  }

  /** The identifier keys in order, each new where it stands, each value seeing the keys before it. */
  ghost predicate IdentsFresh(es: Entries, scope: set<string>)
    decreases es, 0
  {
    es.Entry? ==>
      if IsIdentifier(es.key) then es.key !in scope && Fresh(es.value, scope) && IdentsFresh(es.rest, scope + {es.key})
      else IdentsFresh(es.rest, scope)
  }

  ghost predicate OthersFresh(es: Entries, scope: set<string>)
    decreases es, 0
  {
    es.Entry? ==> (!IsIdentifier(es.key) ==> Fresh(es.value, scope)) && OthersFresh(es.rest, scope)
  }

  // ----- Made-up names do not matter to the expression -----

  lemma {:induction false} FreshIgnores(e: Expr, scope: set<string>, x: string)
    requires NoScNames(e) && IsScName(x)
    ensures Fresh(e, scope + {x}) <==> Fresh(e, scope)
    decreases e, 1
  {
    match e
    case Lit(_) =>
    case Var(_) =>
    case Plus(a) => FreshIgnores(a, scope, x);
    case Neg(a) => FreshIgnores(a, scope, x);
    case Not(a) => FreshIgnores(a, scope, x);
    case And(l, r) => FreshIgnores(l, scope, x); FreshIgnores(r, scope, x);
    case Or(l, r) => FreshIgnores(l, scope, x); FreshIgnores(r, scope, x);
    case Binary(_, l, r) => FreshIgnores(l, scope, x); FreshIgnores(r, scope, x);
    case If(c, a, b) => FreshIgnores(c, scope, x); FreshIgnores(a, scope, x); FreshIgnores(b, scope, x);
    case ListLit(es) => AllFreshIgnores(es, scope, x);
    case DictLit(es) =>
      IdentsFreshIgnores(es, scope, x);
      OthersFreshIgnores(es, scope + IdentKeys(es), x);
      assert scope + {x} + IdentKeys(es) == scope + IdentKeys(es) + {x};
    case Call(_, args) => AllFreshIgnores(args, scope, x);
  }

  lemma {:induction false} AllFreshIgnores(es: Exprs, scope: set<string>, x: string)
    requires NoScNamesIn(es) && IsScName(x)
    ensures AllFresh(es, scope + {x}) <==> AllFresh(es, scope)
    decreases es, 0
  {
    if es.ECons? {
      FreshIgnores(es.head, scope, x);
      AllFreshIgnores(es.tail, scope, x);
    }
  }

  lemma {:induction false} IdentsFreshIgnores(es: Entries, scope: set<string>, x: string)
    requires NoScKeys(es) && IsScName(x)
    ensures IdentsFresh(es, scope + {x}) <==> IdentsFresh(es, scope)
    decreases es, 0
  {
    if es.Entry? {
      FreshIgnores(es.value, scope, x);
      IdentsFreshIgnores(es.rest, scope, x);
      IdentsFreshIgnores(es.rest, scope + {es.key}, x);
      assert scope + {x} + {es.key} == scope + {es.key} + {x};
    }
  }

  lemma {:induction false} OthersFreshIgnores(es: Entries, scope: set<string>, x: string)
    requires NoScKeys(es) && IsScName(x)
    ensures OthersFresh(es, scope + {x}) <==> OthersFresh(es, scope)
    decreases es, 0
  {
    if es.Entry? {
      FreshIgnores(es.value, scope, x);
      OthersFreshIgnores(es.rest, scope, x);
    }
  }

  // ----- Lowered trees -----

  /** None of the names numbered after lo, up to hi, is in scope. */
  ghost predicate Unused(scope: set<string>, lo: nat, hi: nat) {
    forall k: nat | lo < k <= hi :: ScName(k) !in scope
  }

  lemma UnusedWith(scope: set<string>, lo: nat, hi: nat, k: nat)
    requires Unused(scope, lo, hi) && !(lo < k <= hi)
    ensures Unused(scope + {ScName(k)}, lo, hi)
  {
    forall j: nat | lo < j <= hi ensures ScName(j) !in scope + {ScName(k)} {
      if ScName(j) == ScName(k) {
        NamesDiffer(j, k);
      }
    }
  }

  lemma UnusedKey(scope: set<string>, lo: nat, hi: nat, key: string)
    requires Unused(scope, lo, hi) && !IsScName(key)
    ensures Unused(scope + {key}, lo, hi)
  {
    forall j: nat | lo < j <= hi ensures ScName(j) !in scope + {key} {
      assert IsScName(ScName(j));
    }
  }

  lemma LogicalDeclares(name: string, left: Node, right: Node, guard: FnName, combine: FnName, scope: set<string>)
    ensures Declares(LowerLogical(name, left, right, guard, combine), scope)
       <==> name !in scope && Declares(left, scope) && Declares(right, scope + {name})
  {
    var inner := scope + {name};
    ArgsDeclare(Ident(name), right, inner);
    var decided, kept, combined := CallNode(guard, Args1(Ident(name))), CallNode(ValFn, Args1(Ident(name))), CallNode(combine, Args2(Ident(name), right));
    assert Declares(decided, inner) && Declares(kept, inner);
    assert Declares(combined, inner) <==> Declares(right, inner);
    assert Declares(Cond(decided, kept, combined), inner) <==> Declares(right, inner);
  }

  lemma ArgsDeclare(a: Node, b: Node, scope: set<string>)
    ensures DeclaresAll(Args1(a), scope) <==> Declares(a, scope)
    ensures DeclaresAll(Args2(a, b), scope) <==> Declares(a, scope) && Declares(b, scope)
  {
    assert DeclaresAll(NNil, scope);
    assert DeclaresAll(Args1(b), scope) <==> Declares(b, scope);
  }

  /**
   A lowered expression declares nothing twice exactly when its own dictionary
   literals are fresh where they stand.
   */
  lemma {:induction false} LoweredDeclares(e: Expr, n: nat, scope: set<string>)
    requires NoScNames(e) && Unused(scope, n, Lower(e, n).counter)
    ensures n <= Lower(e, n).counter
    ensures Declares(Lower(e, n).tree, scope) <==> Fresh(e, scope)
    decreases e, 1
  {
    LowerBinds(e, n, ScName(0));
    match e
    case Lit(_) =>
    case Var(_) =>
    case Plus(a) => LoweredDeclares(a, n, scope);
    case Neg(a) =>
      LoweredDeclares(a, n, scope);
      ArgsDeclare(Lower(a, n).tree, Const(Null), scope);
    case Not(a) =>
      LoweredDeclares(a, n, scope);
      ArgsDeclare(Lower(a, n).tree, Const(Null), scope);
    case And(l, r) => ConnectiveDeclares(e, l, r, n, scope);
    case Or(l, r) => ConnectiveDeclares(e, l, r, n, scope);
    case Binary(_, l, r) =>
      var m := Lower(l, n).counter;
      LowerBinds(l, n, ScName(0));
      LowerBinds(r, m, ScName(0));
      LoweredDeclares(l, n, scope);
      LoweredDeclares(r, m, scope);
      ArgsDeclare(Lower(l, n).tree, Lower(r, m).tree, scope);
    case If(c, a, b) => IfDeclares(c, a, b, n, scope);
    case ListLit(es) => LoweredAllDeclare(es, n, scope);
    case DictLit(es) => DictDeclares(es, n, scope);
    case Call(_, args) => LoweredAllDeclare(args, n, scope);
  }

  lemma {:induction false} ConnectiveDeclares(e: Expr, l: Expr, r: Expr, n: nat, scope: set<string>)
    requires e == And(l, r) || e == Or(l, r)
    requires NoScNames(l) && NoScNames(r) && Unused(scope, n, Lower(e, n).counter)
    ensures Declares(Lower(e, n).tree, scope) <==> Fresh(e, scope)
    decreases e, 0
  {
    var ll := Lower(l, n);
    var lr := Lower(r, ll.counter);
    var k := lr.counter + 1;
    LowerBinds(l, n, ScName(0));
    LowerBinds(r, ll.counter, ScName(0));
    assert ScName(k) !in scope;
    LoweredDeclares(l, n, scope);
    UnusedWith(scope, ll.counter, lr.counter, k);
    LoweredDeclares(r, ll.counter, scope + {ScName(k)});
    assert IsScName(ScName(k));
    FreshIgnores(r, scope, ScName(k));
    LogicalDeclares(ScName(k), ll.tree, lr.tree, IsFalseFn, BlAndFn, scope);
    LogicalDeclares(ScName(k), ll.tree, lr.tree, IsTrueFn, BlOrFn, scope);
  }

  lemma {:induction false} IfDeclares(c: Expr, a: Expr, b: Expr, n: nat, scope: set<string>)
    requires NoScNames(c) && NoScNames(a) && NoScNames(b) && Unused(scope, n, Lower(If(c, a, b), n).counter)
    ensures Declares(Lower(If(c, a, b), n).tree, scope) <==> Fresh(If(c, a, b), scope)
    decreases If(c, a, b), 0
  {
    var lc := Lower(c, n);
    var la := Lower(a, lc.counter);
    LowerBinds(c, n, ScName(0));
    LowerBinds(a, lc.counter, ScName(0));
    LowerBinds(b, la.counter, ScName(0));
    LoweredDeclares(c, n, scope);
    LoweredDeclares(a, lc.counter, scope);
    LoweredDeclares(b, la.counter, scope);
    ArgsDeclare(lc.tree, Const(Null), scope);
  }

  lemma {:induction false} LoweredAllDeclare(es: Exprs, n: nat, scope: set<string>)
    requires NoScNamesIn(es) && Unused(scope, n, LowerAll(es, n).counter)
    ensures DeclaresAll(LowerAll(es, n).tree, scope) <==> AllFresh(es, scope)
    decreases es, 0
  {
    if es.ECons? {
      var m := Lower(es.head, n).counter;
      LowerBinds(es.head, n, ScName(0));
      LowerAllBinds(es.tail, m, ScName(0));
      LoweredDeclares(es.head, n, scope);
      LoweredAllDeclare(es.tail, m, scope);
    }
  }

  lemma {:induction false} DictDeclares(es: Entries, n: nat, scope: set<string>)
    requires NoScKeys(es) && Unused(scope, n, LowerEntries(es, n).counter)
    ensures Declares(LowerMap(LowerEntries(es, n).tree), scope) <==> Fresh(DictLit(es), scope)
    decreases es, 1
  {
    var les := LowerEntries(es, n).tree;
    LetsDeclare(es, n, scope, CallNode(MkDictFn, DictArgs(les)));
    UnusedKeys(es, n, LowerEntries(es, n).counter, scope);
    ArgsOfDictDeclare(es, n, scope + IdentKeys(es));
  }

  lemma {:induction false} UnusedKeys(es: Entries, lo: nat, hi: nat, scope: set<string>)
    requires NoScKeys(es) && Unused(scope, lo, hi)
    ensures Unused(scope + IdentKeys(es), lo, hi)
  {
    if es.Entry? {
      UnusedKeys(es.rest, lo, hi, scope);
      UnusedKey(scope + IdentKeys(es.rest), lo, hi, es.key);
    }
  }

  lemma {:induction false} LetsDeclare(es: Entries, n: nat, scope: set<string>, inner: Node)
    requires NoScKeys(es) && Unused(scope, n, LowerEntries(es, n).counter)
    ensures Declares(DictLets(LowerEntries(es, n).tree, inner), scope)
       <==> IdentsFresh(es, scope) && Declares(inner, scope + IdentKeys(es))
    decreases es, 0
  {
    if es.Empty? {
      assert scope + IdentKeys(es) == scope;
    } else {
      var m := Lower(es.value, n).counter;
      LowerBinds(es.value, n, ScName(0));
      LowerEntriesBinds(es.rest, m, ScName(0));
      if IsIdentifier(es.key) {
        LoweredDeclares(es.value, n, scope);
        UnusedKey(scope, m, LowerEntries(es.rest, m).counter, es.key);
        LetsDeclare(es.rest, m, scope + {es.key}, inner);
        assert scope + {es.key} + IdentKeys(es.rest) == scope + IdentKeys(es);
      } else {
        LetsDeclare(es.rest, m, scope, inner);
        assert scope + IdentKeys(es.rest) == scope + IdentKeys(es);
      }
    }
  }

  lemma {:induction false} ArgsOfDictDeclare(es: Entries, n: nat, scope: set<string>)
    requires NoScKeys(es) && Unused(scope, n, LowerEntries(es, n).counter)
    ensures DeclaresAll(DictArgs(LowerEntries(es, n).tree), scope) <==> OthersFresh(es, scope)
    decreases es, 0
  {
    if es.Entry? {
      var le := Lower(es.value, n);
      LowerBinds(es.value, n, ScName(0));
      LowerEntriesBinds(es.rest, le.counter, ScName(0));
      LoweredDeclares(es.value, n, scope);
      ArgsOfDictDeclare(es.rest, le.counter, scope);
      var second := if IsIdentifier(es.key) then Ident(es.key) else le.tree;
      var more := DictArgs(LowerEntries(es.rest, le.counter).tree);
      assert DeclaresAll(NCons(second, more), scope) <==> Declares(second, scope) && DeclaresAll(more, scope);
    }
  }
}
