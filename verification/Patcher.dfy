/**
 The patcher as the object it is in core/patch.go: a counter that every lowered
 connective advances, and the loops that build a dictionary literal's lowered form.
 */
module Patcher {
  import opened Prelude
  import opened Expressions
  import opened Lowering

  /** An entry of a dictionary literal whose value has been lowered. */
  datatype Pair = Pair(key: string, value: Node)

  function Listed(entries: seq<Pair>): LoweredEntries {
    if entries == [] then LEmpty else LEntry(entries[0].key, entries[0].value, Listed(entries[1..]))
  }

  function ToNodes(args: seq<Node>): Nodes {
    if args == [] then NNil else NCons(args[0], ToNodes(args[1..]))
  }

  function ArgsOf(entries: seq<Pair>): seq<Node> {
    if entries == [] then []
    else [Const(Str(entries[0].key)), if IsIdentifier(entries[0].key) then Ident(entries[0].key) else entries[0].value]
         + ArgsOf(entries[1..])
  }

  lemma {:induction false} ArgsOfMore(entries: seq<Pair>, last: Pair)
    ensures ArgsOf(entries + [last])
         == ArgsOf(entries) + [Const(Str(last.key)), if IsIdentifier(last.key) then Ident(last.key) else last.value]
  {
    if entries != [] {
      ArgsOfMore(entries[1..], last);
      assert (entries + [last])[1..] == entries[1..] + [last];
    } else {
      assert [last][1..] == [];
      assert entries + [last] == [last];
    }
  }

  lemma {:induction false} ArgsOfListed(entries: seq<Pair>)
    ensures ToNodes(ArgsOf(entries)) == DictArgs(Listed(entries))
  {
    if entries != [] {
      ArgsOfListed(entries[1..]);
      assert ArgsOf(entries)[1..][1..] == ArgsOf(entries[1..]);
    }
  }

  lemma {:induction false} ListedMore(entries: seq<Pair>, k: string, v: Node, rest: LoweredEntries)
    ensures Joined(entries + [Pair(k, v)], rest) == Joined(entries, LEntry(k, v, rest))
  {
    if entries != [] {
      ListedMore(entries[1..], k, v, rest);
      assert (entries + [Pair(k, v)])[1..] == entries[1..] + [Pair(k, v)];
    } else {
      assert [Pair(k, v)][1..] == [];
      assert entries + [Pair(k, v)] == [Pair(k, v)];
    }
  }

  function Joined(entries: seq<Pair>, rest: LoweredEntries): LoweredEntries {
    if entries == [] then rest else LEntry(entries[0].key, entries[0].value, Joined(entries[1..], rest))
  }

  lemma {:induction false} JoinedEmpty(entries: seq<Pair>)
    ensures Joined(entries, LEmpty) == Listed(entries)
  {
    if entries != [] {
      JoinedEmpty(entries[1..]);
    }
  }

  predicate IsIdentByte(c: char) {
    c == '_' || 'a' <= c <= 'z' || 'A' <= c <= 'Z' || '0' <= c <= '9'
  }

  /** validIdentifier: the first character, then the others one by one. */
  method ValidIdentifier(name: string) returns (ok: bool)
    ensures ok == IsIdentifier(name)
  {
    if name == "" || !IdentStart(name[0]) {
      return false;
    }
    for i := 1 to |name|
      invariant forall j | 1 <= j < i :: IsIdentByte(name[j])
    {
      if !IsIdentByte(name[i]) {
        return false;
      }
    }
    return true;
  }

  /** The constructor call, then a `let` per identifier key from the last entry back to the first. */
  method BuildDict(entries: seq<Pair>) returns (inner: Node)
    ensures inner == LowerMap(Listed(entries))
  {
    var args: seq<Node> := [];
    for i := 0 to |entries|
      invariant args == ArgsOf(entries[..i])
    {
      var ref := entries[i].value;
      var isIdent := ValidIdentifier(entries[i].key);
      if isIdent {
        ref := Ident(entries[i].key);
      }
      ArgsOfMore(entries[..i], entries[i]);
      assert entries[..i + 1] == entries[..i] + [entries[i]];
      args := args + [Const(Str(entries[i].key)), ref];
    }
    assert entries[..|entries|] == entries;
    ArgsOfListed(entries);
    inner := CallNode(MkDictFn, ToNodes(args));
    ghost var made := inner;
    var i := |entries|;
    while i > 0
      invariant 0 <= i <= |entries|
      invariant inner == DictLets(Listed(entries[i..]), made)
    {
      i := i - 1;
      assert entries[i..][0] == entries[i] && entries[i..][1..] == entries[i + 1..];
      var isIdent := ValidIdentifier(entries[i].key);
      if isIdent {
        inner := Let(entries[i].key, entries[i].value, inner);
      }
    }
    assert entries[0..] == entries;
  }

  class FeelPatcher {
    var counter: nat

    constructor ()
      ensures counter == 0
    {
      counter := 0;
    }

    /** Take the next name for the left operand and build the short-circuit form around it. */
    method Logical(left: Node, right: Node, guard: FnName, combine: FnName) returns (node: Node)
      modifies this
      ensures counter == old(counter) + 1
      ensures node == LowerLogical(ScName(counter), left, right, guard, combine)
    {
      counter := counter + 1;
      var name := ScName(counter);
      var cond := CallNode(guard, Args1(Ident(name)));
      var exp1 := CallNode(ValFn, Args1(Ident(name)));
      var exp2 := CallNode(combine, Args2(Ident(name), right));
      var conditional := Cond(cond, exp1, exp2);
      node := Let(name, left, conditional);
    }

    /** Post-order walk: operands first, then the node itself is replaced. */
    method Patch(e: Expr) returns (node: Node)
      modifies this
      ensures Lowered(node, counter) == Lower(e, old(counter))
      decreases e
    {
      match e
      case Lit(v) => node := Const(v);
      case Var(x) => node := Ident(x);
      case Plus(a) => node := Patch(a);
      case Neg(a) =>
        node := Patch(a);
        node := CallNode(NegFn, Args1(node));
      case Not(a) =>
        node := Patch(a);
        node := CallNode(NotFn, Args1(node));
      case And(l, r) =>
        var left := Patch(l);
        var right := Patch(r);
        node := Logical(left, right, IsFalseFn, BlAndFn);
      case Or(l, r) =>
        var left := Patch(l);
        var right := Patch(r);
        node := Logical(left, right, IsTrueFn, BlOrFn);
      case Binary(op, l, r) =>
        var left := Patch(l);
        var right := Patch(r);
        node := CallNode(DispatchFn(op), Args2(left, right));
      case If(c, a, b) =>
        var cond := Patch(c);
        var yes := Patch(a);
        var no := Patch(b);
        node := Cond(CallNode(TruthyFn, Args1(cond)), yes, no);
      case ListLit(es) =>
        var nodes := PatchAll(es);
        node := CallNode(MkListFn, nodes);
      case DictLit(es) =>
        var entries := PatchEntries(es);
        node := BuildDict(entries);
      case Call(f, args) =>
        var nodes := PatchAll(args);
        node := CallNode(UserFn(f), nodes);
    }

    method PatchAll(es: Exprs) returns (nodes: Nodes)
      modifies this
      ensures Lowered(nodes, counter) == LowerAll(es, old(counter))
      decreases es
    {
      match es
      case ENil => nodes := NNil;
      case ECons(e, rest) =>
        var node := Patch(e);
        var more := PatchAll(rest);
        nodes := NCons(node, more);
    }

    method PatchEntries(es: Entries) returns (entries: seq<Pair>)
      modifies this
      ensures Lowered(Listed(entries), counter) == LowerEntries(es, old(counter))
      decreases es, 0
    {
      entries := [];
      var rest := es;
      while rest.Entry?
        invariant rest == es || rest < es
        invariant var more := LowerEntries(rest, counter);
                  Lowered(Joined(entries, more.tree), more.counter) == LowerEntries(es, old(counter))
        decreases rest
      {
        ghost var before := counter;
        var node := Patch(rest.value);
        ListedMore(entries, rest.key, node, LowerEntries(rest.rest, counter).tree);
        entries := entries + [Pair(rest.key, node)];
        rest := rest.rest;
      }
      JoinedEmpty(entries);
    }
  }
}
