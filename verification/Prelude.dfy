/**
 Vocabulary shared by the models: the conventional option and result types and
 the few facts about duplicate-free sequences that several proofs need.
 */
module Prelude {

  datatype Option<+T> = None | Some(value: T)

  /** A Go `(value, error)` pair whose error carries no information the model needs. */
  datatype Outcome<+T> = Ok(value: T) | Fail

  predicate NoDup<T(==)>(s: seq<T>) {
    forall i, j | 0 <= i < j < |s| :: s[i] != s[j]
  }

  function Elems<T>(s: seq<T>): set<T> {
    set x | x in s
  }

  lemma ElemsGrow<T>(s: seq<T>, i: nat)
    requires i < |s|
    ensures Elems(s[..i + 1]) == Elems(s[..i]) + {s[i]}
    ensures s[i] in Elems(s)
  {
    assert s[..i + 1] == s[..i] + [s[i]];
  }

  /** A concatenation is duplicate-free exactly when both parts are and they share nothing. */
  lemma {:induction false} NoDupConcat<T>(a: seq<T>, b: seq<T>)
    ensures NoDup(a + b) <==> NoDup(a) && NoDup(b) && forall x | x in a :: x !in b
  {
    var s := a + b;
    if NoDup(s) {
      assert forall i | 0 <= i < |a| :: a[i] == s[i];
      assert forall i | 0 <= i < |b| :: b[i] == s[|a| + i];
    } else {
      var i, j :| 0 <= i < j < |s| && s[i] == s[j];
      if i < |a| && |a| <= j {
        assert a[i] in a && b[j - |a|] in b;
      } else if |a| <= i {
        assert b[i - |a|] == b[j - |a|];
      }
    }
  }

  /** A duplicate-free sequence has as many entries as it has elements. */
  lemma {:induction false} NoDupSize<T>(s: seq<T>)
    requires NoDup(s)
    ensures |Elems(s)| == |s|
  {
    if s != [] {
      NoDupSize(s[1..]);
      assert Elems(s) == {s[0]} + Elems(s[1..]);
      assert s[0] !in s[1..];
    }
  }

  /** Sizes of nested finite sets are ordered, and equal only for equal sets. */
  lemma {:induction false} SubsetSize<T>(a: set<T>, b: set<T>)
    requires a <= b
    ensures |a| <= |b|
    ensures |a| == |b| ==> a == b
  {
    assert b == a + (b - a);
    assert |b| == |a| + |b - a|;
    if |a| == |b| {
      assert b - a == {};
    }
  }

  /** More entries than available values forces a repeated entry. */
  lemma {:induction false} Pigeonhole<T>(s: seq<T>, universe: set<T>) returns (i: nat, j: nat)
    requires forall k | 0 <= k < |s| :: s[k] in universe
    requires |s| > |universe|
    ensures i < j < |s| && s[i] == s[j]
  {
    if NoDup(s) {
      NoDupSize(s);
      SubsetSize(Elems(s), universe);
      assert false;
    }
    i, j :| 0 <= i < j < |s| && s[i] == s[j];
  }
}
