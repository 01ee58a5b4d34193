/**
 The part of the expression language that the patcher compiles away, with its
 meaning given directly: three-valued connectives that decide from the left, `if`
 on a truth value, lists, and dictionary literals whose entries see the earlier
 identifier keys. The meaning of the other operators and of functions is a
 parameter, and evaluation records which of them ran, on what, in which order.
 */
module Expressions {
  import opened Prelude

  datatype Value = Null | Bool(b: bool) | Num(n: int) | Str(s: string) | List(items: seq<Value>) | Dict(entries: map<string, Value>)

  datatype BinOp = Add | Sub | Mul | Div | Pow | Lt | Le | Gt | Ge | Eq | Ne | In

  datatype Expr =
    | Lit(v: Value)
    | Var(x: string)
    | Neg(e: Expr)
    | Plus(e: Expr)
    | Not(e: Expr)
    | And(l: Expr, r: Expr)
    | Or(l: Expr, r: Expr)
    | Binary(op: BinOp, l: Expr, r: Expr)
    | If(c: Expr, a: Expr, b: Expr)
    | ListLit(es: Exprs)
    | DictLit(entries: Entries)
    | Call(f: string, args: Exprs)

  datatype Exprs = ENil | ECons(head: Expr, tail: Exprs)

  datatype Entries = Empty | Entry(key: string, value: Expr, rest: Entries)

  // ----- Three-valued truth -----

  datatype Truth = No | Unknown | Yes {
    function Rank(): nat {
      match this case No => 0 case Unknown => 1 case Yes => 2
    }
  }

  /** Anything but a boolean is an unknown truth value. */
  function TruthOf(v: Value): Truth {
    if v == Bool(true) then Yes else if v == Bool(false) then No else Unknown
  }

  function FromTruth(t: Truth): Value {
    match t case No => Bool(false) case Unknown => Null case Yes => Bool(true)
  }

  /** Conjunction is the minimum in the order No < Unknown < Yes, disjunction the maximum. */
  function Least(a: Truth, b: Truth): Truth {
    if a.Rank() <= b.Rank() then a else b
  }

  function Greatest(a: Truth, b: Truth): Truth {
    if a.Rank() <= b.Rank() then b else a
  }

  function Opposite(t: Truth): Truth {
    match t case No => Yes case Unknown => Unknown case Yes => No
  }

  // ----- Evaluation -----

  /** What evaluation does not know how to do itself. */
  datatype Prim = Op(op: BinOp) | Negate | Fn(name: string)

  type Prims = (Prim, seq<Value>) -> Outcome<Value>

  datatype Event = Ran(prim: Prim, args: seq<Value>)

  /** An outcome together with the primitives that ran on the way to it. */
  datatype Run<+T> = Run(out: Outcome<T>, trace: seq<Event>)

  type Env = map<string, Value>

  function Invoke(p: Prims, prim: Prim, args: seq<Value>, before: seq<Event>): Run<Value> {
    Run(p(prim, args), before + [Ran(prim, args)])
  }

  function Prepend<T>(before: seq<Event>, r: Run<T>): Run<T> {
    Run(r.out, before + r.trace)
  }

  predicate IsIdentifier(k: string) {
    k != "" && IdentStart(k[0]) && forall i | 1 <= i < |k| :: IdentStart(k[i]) || '0' <= k[i] <= '9'
  }

  predicate IdentStart(c: char) {
    c == '_' || 'a' <= c <= 'z' || 'A' <= c <= 'Z'
  }

  /**
   How a dictionary literal is evaluated: in the order written, as the language
   describes it, or with the identifier keys brought forward.
   */
  datatype DictOrder = InOrder | IdentifiersFirst

  /** Only identifier keys can be referred to by the entries that follow. */
  function Bind(env: Env, key: string, v: Value): Env {
    if IsIdentifier(key) then env[key := v] else env
  }

  function Eval(p: Prims, order: DictOrder, e: Expr, env: Env): Run<Value>
    decreases e
  {
    match e
    case Lit(v) => Run(Ok(v), [])
    case Var(x) => Run(if x in env then Ok(env[x]) else Fail, [])
    case Plus(a) => Eval(p, order, a, env)
    case Neg(a) =>
      var ra := Eval(p, order, a, env);
      if ra.out.Fail? then ra else Invoke(p, Negate, [ra.out.value], ra.trace)
    case Not(a) =>
      var ra := Eval(p, order, a, env);
      if ra.out.Fail? then ra else Run(Ok(FromTruth(Opposite(TruthOf(ra.out.value)))), ra.trace)
    case And(l, r) =>
      var rl := Eval(p, order, l, env);
      if rl.out.Fail? || TruthOf(rl.out.value) == No then rl
      else
        var rr := Eval(p, order, r, env);
        if rr.out.Fail? then Prepend(rl.trace, rr)
        else Run(Ok(FromTruth(Least(TruthOf(rl.out.value), TruthOf(rr.out.value)))), rl.trace + rr.trace)
    case Or(l, r) =>
      var rl := Eval(p, order, l, env);
      if rl.out.Fail? || TruthOf(rl.out.value) == Yes then rl
      else
        var rr := Eval(p, order, r, env);
        if rr.out.Fail? then Prepend(rl.trace, rr)
        else Run(Ok(FromTruth(Greatest(TruthOf(rl.out.value), TruthOf(rr.out.value)))), rl.trace + rr.trace)
    case Binary(op, l, r) =>
      var rl := Eval(p, order, l, env);
      if rl.out.Fail? then rl
      else
        var rr := Eval(p, order, r, env);
        if rr.out.Fail? then Prepend(rl.trace, rr)
        else Invoke(p, Op(op), [rl.out.value, rr.out.value], rl.trace + rr.trace)
    case If(c, a, b) =>
      var rc := Eval(p, order, c, env);
      if rc.out.Fail? then rc
      else Prepend(rc.trace, if TruthOf(rc.out.value) == Yes then Eval(p, order, a, env) else Eval(p, order, b, env))
    case ListLit(es) =>
      var rs := EvalAll(p, order, es, env);
      if rs.out.Fail? then Run(Fail, rs.trace) else Run(Ok(List(rs.out.value)), rs.trace)
    case DictLit(entries) =>
      var rd := if order.InOrder? then EvalEntries(p, order, entries, env, map[]) else EvalInTwo(p, order, entries, env);
      if rd.out.Fail? then Run(Fail, rd.trace) else Run(Ok(Dict(rd.out.value)), rd.trace)
    case Call(f, args) =>
      var rs := EvalAll(p, order, args, env);
      if rs.out.Fail? then Run(Fail, rs.trace) else Invoke(p, Fn(f), rs.out.value, rs.trace)
  }

  function EvalAll(p: Prims, order: DictOrder, es: Exprs, env: Env): Run<seq<Value>>
    decreases es
  {
    match es
    case ENil => Run(Ok([]), [])
    case ECons(e, rest) =>
      var r := Eval(p, order, e, env);
      if r.out.Fail? then Run(Fail, r.trace)
      else
        var rs := EvalAll(p, order, rest, env);
        Run(if rs.out.Fail? then Fail else Ok([r.out.value] + rs.out.value), r.trace + rs.trace)
  }

  /** Entries in order, each seeing the identifier keys before it; a repeated key keeps its last value. */
  function EvalEntries(p: Prims, order: DictOrder, es: Entries, env: Env, acc: map<string, Value>): Run<map<string, Value>>
    decreases es, 0
  {
    match es
    case Empty => Run(Ok(acc), [])
    case Entry(k, e, rest) =>
      var r := Eval(p, order, e, env);
      if r.out.Fail? then Run(Fail, r.trace)
      else Prepend(r.trace, EvalEntries(p, order, rest, Bind(env, k, r.out.value), acc[k := r.out.value]))
  }

  /** First the identifier keys, then the others where all identifier keys are in scope. */
  function EvalInTwo(p: Prims, order: DictOrder, es: Entries, env: Env): Run<map<string, Value>>
    decreases es, 1
  {
    var ri := EvalIdents(p, order, es, env);
    if ri.out.Fail? then Run(Fail, ri.trace) else Prepend(ri.trace, EvalOthers(p, order, es, ri.out.value, map[]))
  }

  function EvalIdents(p: Prims, order: DictOrder, es: Entries, env: Env): Run<Env>
    decreases es, 0
  {
    match es
    case Empty => Run(Ok(env), [])
    case Entry(k, e, rest) =>
      if !IsIdentifier(k) then EvalIdents(p, order, rest, env)
      else
        var r := Eval(p, order, e, env);
        if r.out.Fail? then Run(Fail, r.trace) else Prepend(r.trace, EvalIdents(p, order, rest, env[k := r.out.value]))
  }

  function EvalOthers(p: Prims, order: DictOrder, es: Entries, env: Env, acc: map<string, Value>): Run<map<string, Value>>
    decreases es, 0
  {
    match es
    case Empty => Run(Ok(acc), [])
    case Entry(k, e, rest) =>
      var r := if IsIdentifier(k) then Run(if k in env then Ok(env[k]) else Fail, []) else Eval(p, order, e, env);
      if r.out.Fail? then Run(Fail, r.trace)
      else Prepend(r.trace, EvalOthers(p, order, rest, env, acc[k := r.out.value]))
  }

  // ----- When the two orders of a dictionary literal agree -----

  ghost predicate NoIdentifiers(es: Entries) {
    es.Entry? ==> !IsIdentifier(es.key) && NoIdentifiers(es.rest)
  }

  /** No other key stands before an identifier key. */
  ghost predicate IdentifiersLead(es: Entries) {
    es.Entry? ==> if IsIdentifier(es.key) then IdentifiersLead(es.rest) else NoIdentifiers(es.rest)
  }

  /** Every dictionary literal of the expression has its identifier keys first. */
  ghost predicate Led(e: Expr) {
    match e
    case Lit(_) => true
    case Var(_) => true
    case Plus(a) => Led(a)
    case Neg(a) => Led(a)
    case Not(a) => Led(a)
    case And(l, r) => Led(l) && Led(r)
    case Or(l, r) => Led(l) && Led(r)
    case Binary(_, l, r) => Led(l) && Led(r)
    case If(c, a, b) => Led(c) && Led(a) && Led(b)
    case ListLit(es) => AllLed(es)
    case DictLit(es) => IdentifiersLead(es) && EntriesLed(es)
    case Call(_, args) => AllLed(args)
  }

  ghost predicate AllLed(es: Exprs) {
    es.ECons? ==> Led(es.head) && AllLed(es.tail)
  }

  ghost predicate EntriesLed(es: Entries) {
    es.Entry? ==> Led(es.value) && EntriesLed(es.rest)
  }

  function Keys(es: Entries): set<string> {
    if es.Empty? then {} else {es.key} + Keys(es.rest)
  }

  lemma {:induction false} IdentsKeep(p: Prims, es: Entries, env: Env, k: string)
    requires k in env && EvalIdents(p, IdentifiersFirst, es, env).out.Ok?
    ensures var ef := EvalIdents(p, IdentifiersFirst, es, env).out.value; k in ef && (k !in Keys(es) ==> ef[k] == env[k])
  {
    if es.Entry? {
      if IsIdentifier(es.key) {
        IdentsKeep(p, es.rest, env[es.key := Eval(p, IdentifiersFirst, es.value, env).out.value], k);
      } else {
        IdentsKeep(p, es.rest, env, k);
      }
    }
  }

  /** What was collected for a key that is still to come does not matter. */
  lemma {:induction false} Overwritten(p: Prims, es: Entries, env: Env, acc: map<string, Value>, k: string, v: Value, w: Value)
    requires k in Keys(es) || v == w
    ensures EvalOthers(p, IdentifiersFirst, es, env, acc[k := v]) == EvalOthers(p, IdentifiersFirst, es, env, acc[k := w])
  {
    if es.Entry? && v != w {
      var r := if IsIdentifier(es.key) then Run(if es.key in env then Ok(env[es.key]) else Fail, []) else Eval(p, IdentifiersFirst, es.value, env);
      if r.out.Ok? {
        if es.key == k {
          assert acc[k := v][k := r.out.value] == acc[k := w][k := r.out.value];
        } else {
          var next := acc[es.key := r.out.value];
          assert acc[k := v][es.key := r.out.value] == next[k := v];
          assert acc[k := w][es.key := r.out.value] == next[k := w];
          Overwritten(p, es.rest, env, next, k, v, w);
        }
      }
    }
  }

  lemma {:induction false} OthersOnly(p: Prims, es: Entries, env: Env, acc: map<string, Value>)
    requires NoIdentifiers(es)
    ensures EvalIdents(p, IdentifiersFirst, es, env) == Run(Ok(env), [])
    ensures EvalEntries(p, IdentifiersFirst, es, env, acc) == EvalOthers(p, IdentifiersFirst, es, env, acc)
  {
    if es.Entry? {
      var r := Eval(p, IdentifiersFirst, es.value, env);
      OthersOnly(p, es.rest, env, if r.out.Ok? then acc[es.key := r.out.value] else acc);
    }
  }

  /** With the identifier keys first, one pass and two passes over the entries are the same run. */
  lemma {:induction false} OnePassIsTwo(p: Prims, es: Entries, env: Env, acc: map<string, Value>)
    requires IdentifiersLead(es)
    ensures EvalEntries(p, IdentifiersFirst, es, env, acc)
         == var ri := EvalIdents(p, IdentifiersFirst, es, env);
            if ri.out.Fail? then Run(Fail, ri.trace)
            else Prepend(ri.trace, EvalOthers(p, IdentifiersFirst, es, ri.out.value, acc))
  {
    if es.Entry? && IsIdentifier(es.key) {
      var r := Eval(p, IdentifiersFirst, es.value, env);
      if r.out.Ok? {
        var k, v, inner := es.key, r.out.value, env[es.key := r.out.value];
        OnePassIsTwo(p, es.rest, inner, acc[k := v]);
        var ri := EvalIdents(p, IdentifiersFirst, es.rest, inner);
        if ri.out.Ok? {
          FirstIdentAgrees(p, es, env, acc, v, ri.out.value);
          TraceAssoc(r.trace, ri.trace, EvalOthers(p, IdentifiersFirst, es.rest, ri.out.value, acc[k := v]).trace);
        }
      }
    } else {
      OthersOnly(p, es, env, acc);
    }
  }

  /** Collecting a leading identifier key at once, or after all of them, gives the same dictionary. */
  lemma FirstIdentAgrees(p: Prims, es: Entries, env: Env, acc: map<string, Value>, v: Value, ef: Env)
    requires es.Entry? && IsIdentifier(es.key)
    requires EvalIdents(p, IdentifiersFirst, es.rest, env[es.key := v]).out == Ok(ef)
    ensures EvalOthers(p, IdentifiersFirst, es, ef, acc) == EvalOthers(p, IdentifiersFirst, es.rest, ef, acc[es.key := v])
  {
    var k := es.key;
    IdentsKeep(p, es.rest, env[k := v], k);
    Overwritten(p, es.rest, ef, acc, k, v, ef[k]);
    var others := EvalOthers(p, IdentifiersFirst, es.rest, ef, acc[k := ef[k]]);
    assert [] + others.trace == others.trace;
  }

  lemma TraceAssoc(a: seq<Event>, b: seq<Event>, c: seq<Event>)
    ensures (a + b) + c == a + (b + c)
  {
  }

  /** Bringing the identifier keys forward is invisible where they already lead. */
  lemma {:induction false} OrderIsInvisible(p: Prims, e: Expr, env: Env)
    requires Led(e)
    ensures Eval(p, InOrder, e, env) == Eval(p, IdentifiersFirst, e, env)
    decreases e
  {
    match e
    case Lit(_) =>
    case Var(_) =>
    case Plus(a) => OrderIsInvisible(p, a, env);
    case Neg(a) => OrderIsInvisible(p, a, env);
    case Not(a) => OrderIsInvisible(p, a, env);
    case And(l, r) => OrderIsInvisible(p, l, env); OrderIsInvisible(p, r, env);
    case Or(l, r) => OrderIsInvisible(p, l, env); OrderIsInvisible(p, r, env);
    case Binary(_, l, r) => OrderIsInvisible(p, l, env); OrderIsInvisible(p, r, env);
    case If(c, a, b) => OrderIsInvisible(p, c, env); OrderIsInvisible(p, a, env); OrderIsInvisible(p, b, env);
    case ListLit(es) => ListOrderInvisible(p, es, env);
    case DictLit(es) =>
      EntryOrderInvisible(p, es, env, map[]);
      OnePassIsTwo(p, es, env, map[]);
    case Call(_, args) => ListOrderInvisible(p, args, env);
  }

  lemma {:induction false} ListOrderInvisible(p: Prims, es: Exprs, env: Env)
    requires AllLed(es)
    ensures EvalAll(p, InOrder, es, env) == EvalAll(p, IdentifiersFirst, es, env)
    decreases es
  {
    if es.ECons? {
      OrderIsInvisible(p, es.head, env);
      ListOrderInvisible(p, es.tail, env);
    }
  }

  lemma {:induction false} EntryOrderInvisible(p: Prims, es: Entries, env: Env, acc: map<string, Value>)
    requires EntriesLed(es)
    ensures EvalEntries(p, InOrder, es, env, acc) == EvalEntries(p, IdentifiersFirst, es, env, acc)
    decreases es
  {
    if es.Entry? {
      OrderIsInvisible(p, es.value, env);
      var r := Eval(p, IdentifiersFirst, es.value, env);
      if r.out.Ok? {
        EntryOrderInvisible(p, es.rest, Bind(env, es.key, r.out.value), acc[es.key := r.out.value]);
      }
    }
  }
}
