/**
 The patcher (core/patch.go): it lowers the parsed tree to calls, `let` and native
 conditionals. This module models the lowered tree, how it runs (with the
 functions of core/boolean.go and core/operators.go), and the rewriting, and
 proves that lowering changes nothing that can be observed.
 */
module Lowering {
  import opened Prelude
  import Decimals
  import opened Expressions

  // ----- The lowered tree -----

  /** The functions the engine registers; dispatch functions by their Go names without the underscores. */
  datatype FnName =
    | AddFn | SubFn | MulFn | DivFn | PowFn | LtFn | LeFn | GtFn | GeFn | EqFn | NeFn | InFn | NegFn
    | NotFn | IsFalseFn | IsTrueFn | ValFn | BlAndFn | BlOrFn | TruthyFn | MkListFn | MkDictFn
    | UserFn(name: string)

  datatype Node =
    | Const(v: Value)
    | Ident(x: string)
    | CallNode(fn: FnName, args: Nodes)
    | Cond(c: Node, a: Node, b: Node)
    | Let(x: string, bound: Node, body: Node)

  datatype Nodes = NNil | NCons(head: Node, tail: Nodes)

  /** The engine sees language values and, from the guards, native booleans. */
  datatype TValue = V(v: Value) | GoBool(b: bool)

  // ----- The registered functions -----

  /** boolOrNull: the truth value of a boolean operand, nothing for any other. */
  function BoolOrNull(v: Value): Option<bool> {
    if v.Bool? then Some(v.b) else None
  }

  function BlAnd(a: Value, b: Value): Value {
    var av, bv := BoolOrNull(a), BoolOrNull(b);
    if av == Some(false) then Bool(false)
    else if bv == Some(false) then Bool(false)
    else if av.Some? && bv.Some? then Bool(av.value && bv.value)
    else Null
  }

  function BlOr(a: Value, b: Value): Value {
    var av, bv := BoolOrNull(a), BoolOrNull(b);
    if av == Some(true) then Bool(true)
    else if bv == Some(true) then Bool(true)
    else if av.Some? && bv.Some? then Bool(av.value || bv.value)
    else Null
  }

  function BlNot(v: Value): Value {
    if v.Bool? then Bool(!v.b) else Null
  }

  function IsFalse(v: Value): bool {
    if v.Bool? then !v.b else false
  }

  function IsTrue(v: Value): bool {
    if v.Bool? then v.b else false
  }

  /** Alternating keys and values. */
  function MkDict(args: seq<Value>, acc: map<string, Value>): Outcome<Value>
    decreases |args|
  {
    if |args| < 2 then Ok(Dict(acc))
    else if !args[0].Str? then Fail
    else MkDict(args[2..], acc[args[0].s := args[1]])
  }

  /** The three-valued tables are minimum, maximum and reversal of truth. */
  lemma TablesAreKleene(a: Value, b: Value)
    ensures BlAnd(a, b) == FromTruth(Least(TruthOf(a), TruthOf(b)))
    ensures BlOr(a, b) == FromTruth(Greatest(TruthOf(a), TruthOf(b)))
    ensures BlNot(a) == FromTruth(Opposite(TruthOf(a)))
    ensures (IsFalse(a) <==> TruthOf(a) == No) && (IsTrue(a) <==> TruthOf(a) == Yes)
  {
  }

  // ----- Running a lowered tree -----

  datatype Registered = Primitive(prim: Prim) | Internal

  /** Which operator implementation a dispatch function is. */
  function Registry(fn: FnName): Registered {
    match fn
    case AddFn => Primitive(Op(Add))
    case SubFn => Primitive(Op(Sub))
    case MulFn => Primitive(Op(Mul))
    case DivFn => Primitive(Op(Div))
    case PowFn => Primitive(Op(Pow))
    case LtFn => Primitive(Op(Lt))
    case LeFn => Primitive(Op(Le))
    case GtFn => Primitive(Op(Gt))
    case GeFn => Primitive(Op(Ge))
    case EqFn => Primitive(Op(Eq))
    case NeFn => Primitive(Op(Ne))
    case InFn => Primitive(Op(In))
    case NegFn => Primitive(Negate)
    case UserFn(f) => Primitive(Fn(f))
    case _ => Internal
  }

  function CallInternal(fn: FnName, args: seq<Value>): Outcome<TValue> {
    match fn
    case NotFn => if |args| == 1 then Ok(V(BlNot(args[0]))) else Fail
    case IsFalseFn => if |args| == 1 then Ok(GoBool(IsFalse(args[0]))) else Fail
    case IsTrueFn => if |args| == 1 then Ok(GoBool(IsTrue(args[0]))) else Fail
    case TruthyFn => if |args| == 1 then Ok(GoBool(IsTrue(args[0]))) else Fail
    case ValFn => if |args| == 1 then Ok(V(args[0])) else Fail
    case BlAndFn => if |args| == 2 then Ok(V(BlAnd(args[0], args[1]))) else Fail
    case BlOrFn => if |args| == 2 then Ok(V(BlOr(args[0], args[1]))) else Fail
    case MkListFn => Ok(V(List(args)))
    case MkDictFn => var d := MkDict(args, map[]); if d.Fail? then Fail else Ok(V(d.value))
    case _ => Fail
  }

  function CallFn(p: Prims, fn: FnName, args: seq<Value>, before: seq<Event>): Run<TValue> {
    match Registry(fn)
    case Internal => Run(CallInternal(fn, args), before)
    case Primitive(prim) =>
      var r := Invoke(p, prim, args, before);
      Run(if r.out.Fail? then Fail else Ok(V(r.out.value)), r.trace)
  }

  /** The engine: `let` binds a language value, the native conditional needs a native boolean. */
  function Exec(p: Prims, n: Node, env: Env): Run<TValue> {
    match n
    case Const(v) => Run(Ok(V(v)), [])
    case Ident(x) => Run(if x in env then Ok(V(env[x])) else Fail, [])
    case CallNode(fn, args) =>
      var rs := ExecAll(p, args, env);
      if rs.out.Fail? then Run(Fail, rs.trace) else CallFn(p, fn, rs.out.value, rs.trace)
    case Cond(c, a, b) =>
      var rc := Exec(p, c, env);
      if rc.out.Fail? || !rc.out.value.GoBool? then Run(Fail, rc.trace)
      else Prepend(rc.trace, if rc.out.value.b then Exec(p, a, env) else Exec(p, b, env))
    case Let(x, v, body) =>
      var rv := Exec(p, v, env);
      if rv.out.Fail? || !rv.out.value.V? then Run(Fail, rv.trace)
      else Prepend(rv.trace, Exec(p, body, env[x := rv.out.value.v]))
  }

  function ExecAll(p: Prims, ns: Nodes, env: Env): Run<seq<Value>> {
    match ns
    case NNil => Run(Ok([]), [])
    case NCons(n, rest) =>
      var r := Exec(p, n, env);
      if r.out.Fail? || !r.out.value.V? then Run(Fail, r.trace)
      else
        var rs := ExecAll(p, rest, env);
        Run(if rs.out.Fail? then Fail else Ok([r.out.value.v] + rs.out.value), r.trace + rs.trace)
  }

  // ----- The rewriting -----

  function DispatchFn(op: BinOp): FnName {
    match op
    case Add => AddFn
    case Sub => SubFn
    case Mul => MulFn
    case Div => DivFn
    case Pow => PowFn
    case Lt => LtFn
    case Le => LeFn
    case Gt => GtFn
    case Ge => GeFn
    case Eq => EqFn
    case Ne => NeFn
    case In => InFn
  }

  const SC_PREFIX := "__sc"

  /** The variable that holds the left operand of a connective. */
  function ScName(n: nat): string {
    SC_PREFIX + Decimals.Print(n)
  }

  predicate IsScName(x: string) {
    SC_PREFIX <= x
  }

  function Args1(a: Node): Nodes {
    NCons(a, NNil)
  }

  function Args2(a: Node, b: Node): Nodes {
    NCons(a, NCons(b, NNil))
  }

  /** let v = left; guard(v) ? val(v) : combine(v, right) */
  function LowerLogical(name: string, left: Node, right: Node, guard: FnName, combine: FnName): Node {
    Let(name, left,
        Cond(CallNode(guard, Args1(Ident(name))),
             CallNode(ValFn, Args1(Ident(name))),
             CallNode(combine, Args2(Ident(name), right))))
  }

  datatype LoweredEntries = LEmpty | LEntry(key: string, value: Node, rest: LoweredEntries)

  /** The arguments of the dictionary constructor: identifier keys are passed through their variables. */
  function DictArgs(es: LoweredEntries): Nodes {
    match es
    case LEmpty => NNil
    case LEntry(k, v, rest) => NCons(Const(Str(k)), NCons(if IsIdentifier(k) then Ident(k) else v, DictArgs(rest)))
  }

  /** One `let` per identifier key, in entry order, around the inner expression. */
  function DictLets(es: LoweredEntries, inner: Node): Node {
    match es
    case LEmpty => inner
    case LEntry(k, v, rest) => if IsIdentifier(k) then Let(k, v, DictLets(rest, inner)) else DictLets(rest, inner)
  }

  function LowerMap(es: LoweredEntries): Node {
    DictLets(es, CallNode(MkDictFn, DictArgs(es)))
  }

  datatype Lowered<+T> = Lowered(tree: T, counter: nat)

  /** The walk is post-order: operands are lowered, and take their names, before the operator does. */
  function Lower(e: Expr, n: nat): Lowered<Node> {
    match e
    case Lit(v) => Lowered(Const(v), n)
    case Var(x) => Lowered(Ident(x), n)
    case Plus(a) => Lower(a, n)
    case Neg(a) => var la := Lower(a, n); Lowered(CallNode(NegFn, Args1(la.tree)), la.counter)
    case Not(a) => var la := Lower(a, n); Lowered(CallNode(NotFn, Args1(la.tree)), la.counter)
    case And(l, r) =>
      var ll := Lower(l, n);
      var lr := Lower(r, ll.counter);
      Lowered(LowerLogical(ScName(lr.counter + 1), ll.tree, lr.tree, IsFalseFn, BlAndFn), lr.counter + 1)
    case Or(l, r) =>
      var ll := Lower(l, n);
      var lr := Lower(r, ll.counter);
      Lowered(LowerLogical(ScName(lr.counter + 1), ll.tree, lr.tree, IsTrueFn, BlOrFn), lr.counter + 1)
    case Binary(op, l, r) =>
      var ll := Lower(l, n);
      var lr := Lower(r, ll.counter);
      Lowered(CallNode(DispatchFn(op), Args2(ll.tree, lr.tree)), lr.counter)
    case If(c, a, b) =>
      var lc := Lower(c, n);
      var la := Lower(a, lc.counter);
      var lb := Lower(b, la.counter);
      Lowered(Cond(CallNode(TruthyFn, Args1(lc.tree)), la.tree, lb.tree), lb.counter)
    case ListLit(es) => var ls := LowerAll(es, n); Lowered(CallNode(MkListFn, ls.tree), ls.counter)
    case DictLit(es) => var ls := LowerEntries(es, n); Lowered(LowerMap(ls.tree), ls.counter)
    case Call(f, args) => var ls := LowerAll(args, n); Lowered(CallNode(UserFn(f), ls.tree), ls.counter)
  }

  function LowerAll(es: Exprs, n: nat): Lowered<Nodes> {
    match es
    case ENil => Lowered(NNil, n)
    case ECons(e, rest) =>
      var le := Lower(e, n);
      var ls := LowerAll(rest, le.counter);
      Lowered(NCons(le.tree, ls.tree), ls.counter)
  }

  function LowerEntries(es: Entries, n: nat): Lowered<LoweredEntries> {
    match es
    case Empty => Lowered(LEmpty, n)
    case Entry(k, e, rest) =>
      var le := Lower(e, n);
      var ls := LowerEntries(rest, le.counter);
      Lowered(LEntry(k, le.tree, ls.tree), ls.counter)
  }

  // ----- Lowering preserves meaning -----

  function UserVars(env: Env): Env {
    map x | x in env && !IsScName(x) :: env[x]
  }

  /** The made-up variables are the only ones the two environments may differ in. */
  ghost predicate Agree(env: Env, run: Env) {
    UserVars(env) == UserVars(run)
  }

  lemma SameLookup(env: Env, run: Env, x: string)
    requires Agree(env, run) && !IsScName(x)
    ensures x in env <==> x in run
    ensures x in env ==> env[x] == run[x]
  {
    assert x in env <==> x in UserVars(env);
    assert x in run <==> x in UserVars(run);
  }

  lemma BindBoth(env: Env, run: Env, k: string, v: Value)
    requires Agree(env, run)
    ensures Agree(env[k := v], run[k := v])
  {
    forall x | !IsScName(x)
      ensures x in UserVars(env[k := v]) <==> x in UserVars(run[k := v])
      ensures x in UserVars(env[k := v]) ==> UserVars(env[k := v])[x] == UserVars(run[k := v])[x]
    {
      SameLookup(env, run, x);
    }
  }

  lemma BindMadeUp(env: Env, run: Env, n: nat, v: Value)
    requires Agree(env, run)
    ensures Agree(env, run[ScName(n) := v])
  {
    assert IsScName(ScName(n));
    assert UserVars(run[ScName(n) := v]) == UserVars(run);
  }

  /** The expression uses none of the made-up names itself. */
  ghost predicate NoScNames(e: Expr) {
    match e
    case Lit(_) => true
    case Var(x) => !IsScName(x)
    case Plus(a) => NoScNames(a)
    case Neg(a) => NoScNames(a)
    case Not(a) => NoScNames(a)
    case And(l, r) => NoScNames(l) && NoScNames(r)
    case Or(l, r) => NoScNames(l) && NoScNames(r)
    case Binary(_, l, r) => NoScNames(l) && NoScNames(r)
    case If(c, a, b) => NoScNames(c) && NoScNames(a) && NoScNames(b)
    case ListLit(es) => NoScNamesIn(es)
    case DictLit(es) => NoScKeys(es)
    case Call(_, args) => NoScNamesIn(args)
  }

  ghost predicate NoScNamesIn(es: Exprs) {
    es.ECons? ==> NoScNames(es.head) && NoScNamesIn(es.tail)
  }

  ghost predicate NoScKeys(es: Entries) {
    es.Entry? ==> !IsScName(es.key) && NoScNames(es.value) && NoScKeys(es.rest)
  }

  function Lift(r: Run<Value>): Run<TValue> {
    Run(if r.out.Fail? then Fail else Ok(V(r.out.value)), r.trace)
  }

  lemma ArgsOne(p: Prims, a: Node, run: Env, r: Run<Value>)
    requires Exec(p, a, run) == Lift(r)
    ensures ExecAll(p, Args1(a), run) == Run(if r.out.Fail? then Fail else Ok([r.out.value]), r.trace)
  {
    assert ExecAll(p, NNil, run) == Run(Ok([]), []);
    assert r.trace + [] == r.trace;
    assert r.out.Ok? ==> [r.out.value] + [] == [r.out.value];
  }

  lemma ArgsTwo(p: Prims, a: Node, b: Node, run: Env, ra: Run<Value>, rb: Run<Value>)
    requires Exec(p, a, run) == Lift(ra) && (ra.out.Ok? ==> Exec(p, b, run) == Lift(rb))
    ensures ExecAll(p, Args2(a, b), run)
         == if ra.out.Fail? then Run(Fail, ra.trace)
            else Run(if rb.out.Fail? then Fail else Ok([ra.out.value, rb.out.value]), ra.trace + rb.trace)
  {
    if ra.out.Ok? {
      ArgsOne(p, b, run, rb);
      assert ExecAll(p, Args2(a, b), run).trace == ra.trace + rb.trace;
      assert rb.out.Ok? ==> [ra.out.value] + [rb.out.value] == [ra.out.value, rb.out.value];
    }
  }

  predicate Guarded(guard: FnName, v: Value) {
    if guard.IsFalseFn? then IsFalse(v) else IsTrue(v)
  }

  function Combined(combine: FnName, a: Value, b: Value): Value {
    if combine.BlAndFn? then BlAnd(a, b) else BlOr(a, b)
  }

  lemma GuardRuns(p: Prims, name: string, guard: FnName, run: Env)
    requires guard.IsFalseFn? || guard.IsTrueFn?
    requires name in run
    ensures Exec(p, CallNode(guard, Args1(Ident(name))), run) == Run(Ok(GoBool(Guarded(guard, run[name]))), [])
    ensures Exec(p, CallNode(ValFn, Args1(Ident(name))), run) == Run(Ok(V(run[name])), [])
  {
    ArgsOne(p, Ident(name), run, Run(Ok(run[name]), []));
  }

  lemma CombineRuns(p: Prims, name: string, right: Node, combine: FnName, run: Env, rr: Run<Value>)
    requires combine.BlAndFn? || combine.BlOrFn?
    requires name in run && Exec(p, right, run) == Lift(rr)
    ensures Exec(p, CallNode(combine, Args2(Ident(name), right)), run)
         == Run(if rr.out.Fail? then Fail else Ok(V(Combined(combine, run[name], rr.out.value))), rr.trace)
  {
    ArgsTwo(p, Ident(name), right, run, Run(Ok(run[name]), []), rr);
    assert [] + rr.trace == rr.trace;
  }

  /** A connective runs its left operand once, and its right operand only when the guard lets it. */
  lemma LogicalRuns(p: Prims, name: string, left: Node, right: Node, guard: FnName, combine: FnName, run: Env, rl: Run<Value>, rr: Run<Value>)
    requires guard.IsFalseFn? || guard.IsTrueFn?
    requires combine.BlAndFn? || combine.BlOrFn?
    requires Exec(p, left, run) == Lift(rl)
    requires rl.out.Ok? ==> Exec(p, right, run[name := rl.out.value]) == Lift(rr)
    ensures Exec(p, LowerLogical(name, left, right, guard, combine), run)
         == if rl.out.Fail? then Run(Fail, rl.trace)
            else if Guarded(guard, rl.out.value) then Run(Ok(V(rl.out.value)), rl.trace)
            else if rr.out.Fail? then Run(Fail, rl.trace + rr.trace)
            else Run(Ok(V(Combined(combine, rl.out.value, rr.out.value))), rl.trace + rr.trace)
  {
    var decided, kept, combined := CallNode(guard, Args1(Ident(name))), CallNode(ValFn, Args1(Ident(name))), CallNode(combine, Args2(Ident(name), right));
    LetRuns(p, name, left, Cond(decided, kept, combined), run, rl);
    if rl.out.Ok? {
      var inner := run[name := rl.out.value];
      GuardRuns(p, name, guard, inner);
      CombineRuns(p, name, right, combine, inner, rr);
      ChosenRuns(p, decided, kept, combined, inner, Guarded(guard, rl.out.value));
      assert rl.trace + [] == rl.trace;
    }
  }

  lemma AndRuns(p: Prims, name: string, left: Node, right: Node, run: Env, rl: Run<Value>, rr: Run<Value>)
    requires Exec(p, left, run) == Lift(rl)
    requires rl.out.Ok? ==> Exec(p, right, run[name := rl.out.value]) == Lift(rr)
    ensures Exec(p, LowerLogical(name, left, right, IsFalseFn, BlAndFn), run)
         == Lift(if rl.out.Fail? || TruthOf(rl.out.value) == No then rl
                 else if rr.out.Fail? then Prepend(rl.trace, rr)
                 else Run(Ok(FromTruth(Least(TruthOf(rl.out.value), TruthOf(rr.out.value)))), rl.trace + rr.trace))
  {
    LogicalRuns(p, name, left, right, IsFalseFn, BlAndFn, run, rl, rr);
    if rl.out.Ok? && rr.out.Ok? {
      TablesAreKleene(rl.out.value, rr.out.value);
    }
  }

  lemma OrRuns(p: Prims, name: string, left: Node, right: Node, run: Env, rl: Run<Value>, rr: Run<Value>)
    requires Exec(p, left, run) == Lift(rl)
    requires rl.out.Ok? ==> Exec(p, right, run[name := rl.out.value]) == Lift(rr)
    ensures Exec(p, LowerLogical(name, left, right, IsTrueFn, BlOrFn), run)
         == Lift(if rl.out.Fail? || TruthOf(rl.out.value) == Yes then rl
                 else if rr.out.Fail? then Prepend(rl.trace, rr)
                 else Run(Ok(FromTruth(Greatest(TruthOf(rl.out.value), TruthOf(rr.out.value)))), rl.trace + rr.trace))
  {
    LogicalRuns(p, name, left, right, IsTrueFn, BlOrFn, run, rl, rr);
    if rl.out.Ok? && rr.out.Ok? {
      TablesAreKleene(rl.out.value, rr.out.value);
    }
  }

  lemma LetRuns(p: Prims, x: string, bound: Node, body: Node, run: Env, rv: Run<Value>)
    requires Exec(p, bound, run) == Lift(rv)
    ensures Exec(p, Let(x, bound, body), run)
         == if rv.out.Fail? then Run(Fail, rv.trace) else Prepend(rv.trace, Exec(p, body, run[x := rv.out.value]))
  {
  }

  lemma ChosenRuns(p: Prims, c: Node, a: Node, b: Node, run: Env, yes: bool)
    requires Exec(p, c, run) == Run(Ok(GoBool(yes)), [])
    ensures Exec(p, Cond(c, a, b), run) == Exec(p, if yes then a else b, run)
  {
    var r := Exec(p, if yes then a else b, run);
    assert [] + r.trace == r.trace;
  }

  /** Running the `let`s of a dictionary literal: the identifier keys in order. */
  function ExecIdents(p: Prims, es: LoweredEntries, run: Env): Run<Env> {
    match es
    case LEmpty => Run(Ok(run), [])
    case LEntry(k, v, rest) =>
      if !IsIdentifier(k) then ExecIdents(p, rest, run)
      else
        var r := Exec(p, v, run);
        if r.out.Fail? || !r.out.value.V? then Run(Fail, r.trace)
        else Prepend(r.trace, ExecIdents(p, rest, run[k := r.out.value.v]))
  }

  lemma {:induction false} LetsRun(p: Prims, es: LoweredEntries, inner: Node, run: Env)
    ensures Exec(p, DictLets(es, inner), run)
         == var ri := ExecIdents(p, es, run);
            if ri.out.Fail? then Run(Fail, ri.trace) else Prepend(ri.trace, Exec(p, inner, ri.out.value))
  {
    match es
    case LEmpty =>
    case LEntry(k, v, rest) =>
      if IsIdentifier(k) {
        var r := Exec(p, v, run);
        if r.out.Ok? && r.out.value.V? {
          var next := run[k := r.out.value.v];
          LetsRun(p, rest, inner, next);
          var ri := ExecIdents(p, rest, next);
          if ri.out.Ok? {
            TraceAssoc(r.trace, ri.trace, Exec(p, inner, ri.out.value).trace);
          }
        }
      } else {
        LetsRun(p, rest, inner, run);
      }
  }

  /**
   What lowering does: the lowered tree has the value, the error and the operator
   and function calls, in the same order, of the expression evaluated with the
   identifier keys of its dictionary literals brought forward.
   */
  lemma {:induction false} LoweredRuns(p: Prims, e: Expr, n: nat, env: Env, run: Env)
    requires NoScNames(e) && Agree(env, run)
    ensures Exec(p, Lower(e, n).tree, run) == Lift(Eval(p, IdentifiersFirst, e, env))
    decreases e, 1
  {
    match e
    case Lit(_) =>
    case Var(x) => SameLookup(env, run, x);
    case Plus(a) => LoweredRuns(p, a, n, env, run);
    case Neg(a) => UnaryRuns(p, e, a, n, env, run);
    case Not(a) => UnaryRuns(p, e, a, n, env, run);
    case And(l, r) => ConnectiveRuns(p, e, l, r, n, env, run);
    case Or(l, r) => ConnectiveRuns(p, e, l, r, n, env, run);
    case Binary(op, l, r) => BinaryRuns(p, op, l, r, n, env, run);
    case If(c, a, b) => IfRuns(p, c, a, b, n, env, run);
    case ListLit(es) => LoweredListRuns(p, es, n, env, run);
    case DictLit(es) => LoweredDictRuns(p, es, n, env, run);
    case Call(f, args) => CallRuns(p, f, args, n, env, run);
  }

  lemma UnaryIs(p: Prims, a: Expr, n: nat, env: Env, la: Lowered<Node>, ra: Run<Value>)
    requires la == Lower(a, n) && ra == Eval(p, IdentifiersFirst, a, env)
    ensures Lower(Neg(a), n).tree == CallNode(NegFn, Args1(la.tree))
    ensures Lower(Not(a), n).tree == CallNode(NotFn, Args1(la.tree))
    ensures Eval(p, IdentifiersFirst, Neg(a), env) == if ra.out.Fail? then ra else Invoke(p, Negate, [ra.out.value], ra.trace)
    ensures Eval(p, IdentifiersFirst, Not(a), env)
         == if ra.out.Fail? then ra else Run(Ok(FromTruth(Opposite(TruthOf(ra.out.value)))), ra.trace)
  {
  }

  lemma UnaryNodeRuns(p: Prims, a: Node, run: Env, ra: Run<Value>)
    requires Exec(p, a, run) == Lift(ra)
    ensures Exec(p, CallNode(NegFn, Args1(a)), run) == Lift(if ra.out.Fail? then ra else Invoke(p, Negate, [ra.out.value], ra.trace))
    ensures Exec(p, CallNode(NotFn, Args1(a)), run)
         == Lift(if ra.out.Fail? then ra else Run(Ok(FromTruth(Opposite(TruthOf(ra.out.value)))), ra.trace))
  {
    ArgsOne(p, a, run, ra);
  }

  lemma {:induction false} UnaryRuns(p: Prims, e: Expr, a: Expr, n: nat, env: Env, run: Env)
    requires e == Neg(a) || e == Not(a)
    requires NoScNames(a) && Agree(env, run)
    ensures Exec(p, Lower(e, n).tree, run) == Lift(Eval(p, IdentifiersFirst, e, env))
    decreases e, 0
  {
    var la, ra := Lower(a, n), Eval(p, IdentifiersFirst, a, env);
    LoweredRuns(p, a, n, env, run);
    UnaryIs(p, a, n, env, la, ra);
    UnaryNodeRuns(p, la.tree, run, ra);
  }

  lemma {:induction false} CallRuns(p: Prims, f: string, args: Exprs, n: nat, env: Env, run: Env)
    requires NoScNamesIn(args) && Agree(env, run)
    ensures Exec(p, Lower(Call(f, args), n).tree, run) == Lift(Eval(p, IdentifiersFirst, Call(f, args), env))
    decreases Call(f, args), 0
  {
    LoweredListRuns(p, args, n, env, run);
  }

  lemma PrimTwoRuns(p: Prims, op: BinOp, a: Node, b: Node, run: Env, ra: Run<Value>, rb: Run<Value>)
    requires Exec(p, a, run) == Lift(ra) && (ra.out.Ok? ==> Exec(p, b, run) == Lift(rb))
    ensures Exec(p, CallNode(DispatchFn(op), Args2(a, b)), run)
         == if ra.out.Fail? then Run(Fail, ra.trace)
            else if rb.out.Fail? then Run(Fail, ra.trace + rb.trace)
            else Lift(Invoke(p, Op(op), [ra.out.value, rb.out.value], ra.trace + rb.trace))
  {
    ArgsTwo(p, a, b, run, ra, rb);
    assert Registry(DispatchFn(op)) == Primitive(Op(op));
  }

  lemma BinaryIs(p: Prims, op: BinOp, l: Expr, r: Expr, n: nat, env: Env, ll: Lowered<Node>, lr: Lowered<Node>, rl: Run<Value>, rr: Run<Value>)
    requires ll == Lower(l, n) && lr == Lower(r, ll.counter)
    requires rl == Eval(p, IdentifiersFirst, l, env) && rr == Eval(p, IdentifiersFirst, r, env)
    ensures Lower(Binary(op, l, r), n).tree == CallNode(DispatchFn(op), Args2(ll.tree, lr.tree))
    ensures Lift(Eval(p, IdentifiersFirst, Binary(op, l, r), env))
         == if rl.out.Fail? then Run(Fail, rl.trace)
            else if rr.out.Fail? then Run(Fail, rl.trace + rr.trace)
            else Lift(Invoke(p, Op(op), [rl.out.value, rr.out.value], rl.trace + rr.trace))
  {
  }

  lemma {:induction false} BinaryRuns(p: Prims, op: BinOp, l: Expr, r: Expr, n: nat, env: Env, run: Env)
    requires NoScNames(l) && NoScNames(r) && Agree(env, run)
    ensures Exec(p, Lower(Binary(op, l, r), n).tree, run) == Lift(Eval(p, IdentifiersFirst, Binary(op, l, r), env))
    decreases Binary(op, l, r), 0
  {
    var ll := Lower(l, n);
    var lr := Lower(r, ll.counter);
    var rl, rr := Eval(p, IdentifiersFirst, l, env), Eval(p, IdentifiersFirst, r, env);
    LoweredRuns(p, l, n, env, run);
    LoweredRuns(p, r, ll.counter, env, run);
    BinaryIs(p, op, l, r, n, env, ll, lr, rl, rr);
    PrimTwoRuns(p, op, ll.tree, lr.tree, run, rl, rr);
  }

  lemma TruthyRuns(p: Prims, c: Node, a: Node, b: Node, run: Env, rc: Run<Value>, ra: Run<Value>, rb: Run<Value>)
    requires Exec(p, c, run) == Lift(rc) && Exec(p, a, run) == Lift(ra) && Exec(p, b, run) == Lift(rb)
    ensures Exec(p, Cond(CallNode(TruthyFn, Args1(c)), a, b), run)
         == Lift(if rc.out.Fail? then rc else Prepend(rc.trace, if TruthOf(rc.out.value) == Yes then ra else rb))
  {
    ArgsOne(p, c, run, rc);
    var guard := CallNode(TruthyFn, Args1(c));
    assert Exec(p, guard, run) == Run(if rc.out.Fail? then Fail else Ok(GoBool(TruthOf(rc.out.value) == Yes)), rc.trace);
  }

  lemma IfIs(p: Prims, c: Expr, a: Expr, b: Expr, n: nat, env: Env, lc: Lowered<Node>, la: Lowered<Node>, lb: Lowered<Node>, rc: Run<Value>)
    requires lc == Lower(c, n) && la == Lower(a, lc.counter) && lb == Lower(b, la.counter)
    requires rc == Eval(p, IdentifiersFirst, c, env)
    ensures Lower(If(c, a, b), n).tree == Cond(CallNode(TruthyFn, Args1(lc.tree)), la.tree, lb.tree)
    ensures Eval(p, IdentifiersFirst, If(c, a, b), env)
         == if rc.out.Fail? then rc
            else Prepend(rc.trace, if TruthOf(rc.out.value) == Yes then Eval(p, IdentifiersFirst, a, env) else Eval(p, IdentifiersFirst, b, env))
  {
  }

  lemma {:induction false} IfRuns(p: Prims, c: Expr, a: Expr, b: Expr, n: nat, env: Env, run: Env)
    requires NoScNames(c) && NoScNames(a) && NoScNames(b) && Agree(env, run)
    ensures Exec(p, Lower(If(c, a, b), n).tree, run) == Lift(Eval(p, IdentifiersFirst, If(c, a, b), env))
    decreases If(c, a, b), 0
  {
    var lc := Lower(c, n);
    var la := Lower(a, lc.counter);
    var lb := Lower(b, la.counter);
    var rc, ra, rb := Eval(p, IdentifiersFirst, c, env), Eval(p, IdentifiersFirst, a, env), Eval(p, IdentifiersFirst, b, env);
    LoweredRuns(p, c, n, env, run);
    LoweredRuns(p, a, lc.counter, env, run);
    LoweredRuns(p, b, la.counter, env, run);
    IfIs(p, c, a, b, n, env, lc, la, lb, rc);
    TruthyRuns(p, lc.tree, la.tree, lb.tree, run, rc, ra, rb);
  }

  lemma ConnectiveIs(p: Prims, l: Expr, r: Expr, n: nat, env: Env, ll: Lowered<Node>, lr: Lowered<Node>, rl: Run<Value>, rr: Run<Value>)
    requires ll == Lower(l, n) && lr == Lower(r, ll.counter)
    requires rl == Eval(p, IdentifiersFirst, l, env) && rr == Eval(p, IdentifiersFirst, r, env)
    ensures Lower(And(l, r), n).tree == LowerLogical(ScName(lr.counter + 1), ll.tree, lr.tree, IsFalseFn, BlAndFn)
    ensures Lower(Or(l, r), n).tree == LowerLogical(ScName(lr.counter + 1), ll.tree, lr.tree, IsTrueFn, BlOrFn)
    ensures Eval(p, IdentifiersFirst, And(l, r), env)
         == if rl.out.Fail? || TruthOf(rl.out.value) == No then rl
            else if rr.out.Fail? then Prepend(rl.trace, rr)
            else Run(Ok(FromTruth(Least(TruthOf(rl.out.value), TruthOf(rr.out.value)))), rl.trace + rr.trace)
    ensures Eval(p, IdentifiersFirst, Or(l, r), env)
         == if rl.out.Fail? || TruthOf(rl.out.value) == Yes then rl
            else if rr.out.Fail? then Prepend(rl.trace, rr)
            else Run(Ok(FromTruth(Greatest(TruthOf(rl.out.value), TruthOf(rr.out.value)))), rl.trace + rr.trace)
  {
  }

  lemma {:induction false} ConnectiveRuns(p: Prims, e: Expr, l: Expr, r: Expr, n: nat, env: Env, run: Env)
    requires e == And(l, r) || e == Or(l, r)
    requires NoScNames(l) && NoScNames(r) && Agree(env, run)
    ensures Exec(p, Lower(e, n).tree, run) == Lift(Eval(p, IdentifiersFirst, e, env))
    decreases e, 0
  {
    var ll := Lower(l, n);
    var lr := Lower(r, ll.counter);
    var name := ScName(lr.counter + 1);
    var rl, rr := Eval(p, IdentifiersFirst, l, env), Eval(p, IdentifiersFirst, r, env);
    LoweredRuns(p, l, n, env, run);
    if rl.out.Ok? {
      BindMadeUp(env, run, lr.counter + 1, rl.out.value);
      LoweredRuns(p, r, ll.counter, env, run[name := rl.out.value]);
    }
    ConnectiveIs(p, l, r, n, env, ll, lr, rl, rr);
    if e == And(l, r) {
      AndRuns(p, name, ll.tree, lr.tree, run, rl, rr);
    } else {
      OrRuns(p, name, ll.tree, lr.tree, run, rl, rr);
    }
  }

  lemma {:induction false} LoweredListRuns(p: Prims, es: Exprs, n: nat, env: Env, run: Env)
    requires NoScNamesIn(es) && Agree(env, run)
    ensures ExecAll(p, LowerAll(es, n).tree, run) == EvalAll(p, IdentifiersFirst, es, env)
    decreases es
  {
    if es.ECons? {
      LoweredRuns(p, es.head, n, env, run);
      LoweredListRuns(p, es.tail, Lower(es.head, n).counter, env, run);
    }
  }

  lemma {:induction false} LoweredDictRuns(p: Prims, es: Entries, n: nat, env: Env, run: Env)
    requires NoScKeys(es) && Agree(env, run)
    ensures Exec(p, LowerMap(LowerEntries(es, n).tree), run) == Lift(Eval(p, IdentifiersFirst, DictLit(es), env))
    decreases es, 1
  {
    var les := LowerEntries(es, n).tree;
    LetsRun(p, les, CallNode(MkDictFn, DictArgs(les)), run);
    LoweredIdentsRun(p, es, n, env, run);
    var ri := EvalIdents(p, IdentifiersFirst, es, env);
    if ri.out.Ok? {
      var xi := ExecIdents(p, les, run).out.value;
      LoweredArgsRun(p, es, n, ri.out.value, xi, map[]);
      MkDictRuns(p, les, xi, EvalOthers(p, IdentifiersFirst, es, ri.out.value, map[]));
    }
  }

  lemma MkDictRuns(p: Prims, les: LoweredEntries, run: Env, ro: Run<map<string, Value>>)
    requires var xa := ExecAll(p, DictArgs(les), run);
             && xa.trace == ro.trace
             && (xa.out.Ok? <==> ro.out.Ok?)
             && (ro.out.Ok? ==> MkDict(xa.out.value, map[]) == Ok(Dict(ro.out.value)))
    ensures Exec(p, CallNode(MkDictFn, DictArgs(les)), run)
         == Run(if ro.out.Fail? then Fail else Ok(V(Dict(ro.out.value))), ro.trace)
  {
  }

  lemma {:induction false} LoweredIdentsRun(p: Prims, es: Entries, n: nat, env: Env, run: Env)
    requires NoScKeys(es) && Agree(env, run)
    ensures var ri := EvalIdents(p, IdentifiersFirst, es, env);
            var xi := ExecIdents(p, LowerEntries(es, n).tree, run);
            && xi.trace == ri.trace
            && (xi.out.Ok? <==> ri.out.Ok?)
            && (ri.out.Ok? ==> Agree(ri.out.value, xi.out.value))
    decreases es, 0
  {
    if es.Entry? {
      var m := Lower(es.value, n).counter;
      if IsIdentifier(es.key) {
        LoweredRuns(p, es.value, n, env, run);
        var r := Eval(p, IdentifiersFirst, es.value, env);
        if r.out.Ok? {
          BindBoth(env, run, es.key, r.out.value);
          LoweredIdentsRun(p, es.rest, m, env[es.key := r.out.value], run[es.key := r.out.value]);
        }
      } else {
        LoweredIdentsRun(p, es.rest, m, env, run);
      }
    }
  }

  lemma {:induction false} LoweredArgsRun(p: Prims, es: Entries, n: nat, env: Env, run: Env, acc: map<string, Value>)
    requires NoScKeys(es) && Agree(env, run)
    ensures var ro := EvalOthers(p, IdentifiersFirst, es, env, acc);
            var xa := ExecAll(p, DictArgs(LowerEntries(es, n).tree), run);
            && xa.trace == ro.trace
            && (xa.out.Ok? <==> ro.out.Ok?)
            && (ro.out.Ok? ==> MkDict(xa.out.value, acc) == Ok(Dict(ro.out.value)))
    decreases es, 0
  {
    if es.Entry? {
      var le := Lower(es.value, n);
      var les := LowerEntries(es, n).tree;
      var second := if IsIdentifier(es.key) then Ident(es.key) else le.tree;
      var r := if IsIdentifier(es.key) then Run(if es.key in env then Ok(env[es.key]) else Fail, []) else Eval(p, IdentifiersFirst, es.value, env);
      if IsIdentifier(es.key) {
        SameLookup(env, run, es.key);
      } else {
        LoweredRuns(p, es.value, n, env, run);
      }
      assert Exec(p, second, run) == Lift(r);
      if r.out.Ok? {
        LoweredArgsRun(p, es.rest, le.counter, env, run, acc[es.key := r.out.value]);
        PairOfArgs(p, es.key, second, DictArgs(les.rest), run, r);
      }
    }
  }

  lemma PairOfArgs(p: Prims, k: string, second: Node, more: Nodes, run: Env, r: Run<Value>)
    requires Exec(p, second, run) == Lift(r) && r.out.Ok?
    ensures var xm := ExecAll(p, more, run);
            var xa := ExecAll(p, NCons(Const(Str(k)), NCons(second, more)), run);
            && xa.trace == r.trace + xm.trace
            && (xa.out.Ok? <==> xm.out.Ok?)
            && (xm.out.Ok? ==> |xa.out.value| >= 2 && xa.out.value[0] == Str(k) && xa.out.value[1] == r.out.value && xa.out.value[2..] == xm.out.value)
  {
    var xm := ExecAll(p, more, run);
    var xs := ExecAll(p, NCons(second, more), run);
    assert [] + xs.trace == xs.trace;
  }

  /** Lowering preserves meaning wherever the identifier keys of each dictionary literal come first. */
  lemma LoweringPreservesMeaning(p: Prims, e: Expr, n: nat, env: Env, run: Env)
    requires NoScNames(e) && Led(e) && Agree(env, run)
    ensures Exec(p, Lower(e, n).tree, run) == Lift(Eval(p, InOrder, e, env))
  {
    LoweredRuns(p, e, n, env, run);
    OrderIsInvisible(p, e, env);
  }
}
