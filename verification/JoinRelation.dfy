/**
 The four joins as relations between rows: which rows a join has, cell by cell, and
 how many, said of pairs of rows and columns only.
 */
module JoinRelation {
  import opened Prelude
  import opened Join

  /** Equal, and neither missing nor null, in every key column. */
  ghost predicate Match(l: Row, r: Row, keys: seq<string>) {
    forall k | k in keys :: k in l && k in r && l[k] == r[k] && l[k] != Null
  }

  /** The cells of a joined row: the left row's where it has the column, else the right row's, else null. */
  ghost predicate Merges(x: Row, cols: seq<string>, l: Row, r: Row) {
    && (forall c :: c in x <==> c in cols)
    && forall c | c in x ::
         && (c in l ==> x[c] == l[c])
         && (c !in l && c in r ==> x[c] == r[c])
         && (c !in l && c !in r ==> x[c] == Null)
  }

  ghost predicate FromPair(x: Row, left: seq<Row>, right: seq<Row>, keys: seq<string>, cols: seq<string>) {
    exists i, j :: 0 <= i < |left| && 0 <= j < |right| && Match(left[i], right[j], keys) && Merges(x, cols, left[i], right[j])
  }

  ghost predicate LonelyLeft(left: seq<Row>, right: seq<Row>, keys: seq<string>, i: int) {
    0 <= i < |left| && forall j | 0 <= j < |right| :: !Match(left[i], right[j], keys)
  }

  ghost predicate LonelyRight(left: seq<Row>, right: seq<Row>, keys: seq<string>, j: int) {
    0 <= j < |right| && forall i | 0 <= i < |left| :: !Match(left[i], right[j], keys)
  }

  ghost predicate FromLeft(x: Row, left: seq<Row>, right: seq<Row>, keys: seq<string>, cols: seq<string>) {
    exists i :: LonelyLeft(left, right, keys, i) && Merges(x, cols, left[i], map[])
  }

  ghost predicate FromRight(x: Row, left: seq<Row>, right: seq<Row>, keys: seq<string>, cols: seq<string>) {
    exists j :: LonelyRight(left, right, keys, j) && Merges(x, cols, map[], right[j])
  }

  /** The rows of each kind of join. */
  ghost predicate InJoin(x: Row, left: seq<Row>, right: seq<Row>, keys: seq<string>, cols: seq<string>, how: How) {
    || FromPair(x, left, right, keys, cols)
    || ((how == Left || how == Outer) && FromLeft(x, left, right, keys, cols))
    || ((how == Right || how == Outer) && FromRight(x, left, right, keys, cols))
  }

  // ----- The nested loops compute that relation -----

  lemma MatchIff(l: Row, r: Row, keys: seq<string>)
    ensures KeysEqual(l, r, keys) <==> Match(l, r, keys)
    ensures KeysEqual(r, l, keys) <==> Match(l, r, keys)
  {
    if Match(l, r, keys) {
      forall i | 0 <= i < |keys| ensures Equal(CellOf(l, keys[i]), CellOf(r, keys[i])) {
        assert keys[i] in keys;
      }
    }
    KeysEqualSymmetric(l, r, keys);
  }

  lemma MergesIff(x: Row, cols: seq<string>, l: Row, r: Row)
    ensures Merges(x, cols, l, r) <==> x == MergeRow(cols, l, r)
  {
  }

  lemma {:induction false} PartnersAre(rows: seq<Row>, r: Row, keys: seq<string>)
    ensures forall p :: p in Partners(rows, r, keys) <==> exists j :: 0 <= j < |rows| && rows[j] == p && Match(p, r, keys)
    ensures Partners(rows, r, keys) == [] <==> forall j | 0 <= j < |rows| :: !Match(rows[j], r, keys)
  {
    if rows != [] {
      var n := |rows| - 1;
      PartnersAre(rows[..n], r, keys);
      MatchIff(rows[n], r, keys);
      forall p ensures p in Partners(rows, r, keys) <==> exists j :: 0 <= j < |rows| && rows[j] == p && Match(p, r, keys) {
        if j :| 0 <= j < |rows| && rows[j] == p && Match(p, r, keys) {
          assert j < n ==> rows[..n][j] == p;
        }
        if j :| 0 <= j < n && rows[..n][j] == p && Match(p, r, keys) {
          assert rows[j] == p;
        }
      }
      assert forall j | 0 <= j < n :: rows[..n][j] == rows[j];
    }
  }

  lemma MatchSymmetric(l: Row, r: Row, keys: seq<string>)
    ensures Match(l, r, keys) <==> Match(r, l, keys)
  {
  }

  /** What one left row contributes. */
  ghost predicate FromRow(x: Row, l: Row, right: seq<Row>, keys: seq<string>, cols: seq<string>, keep: bool) {
    || (exists j :: 0 <= j < |right| && Match(l, right[j], keys) && Merges(x, cols, l, right[j]))
    || (keep && (forall j | 0 <= j < |right| :: !Match(l, right[j], keys)) && Merges(x, cols, l, map[]))
  }

  lemma ContributionIs(x: Row, l: Row, right: seq<Row>, keys: seq<string>, cols: seq<string>, keep: bool)
    ensures x in Contribution(l, right, keys, cols, keep, false) <==> FromRow(x, l, right, keys, cols, keep)
  {
    var ps := Partners(right, l, keys);
    PartnersAre(right, l, keys);
    forall j | 0 <= j < |right| ensures Match(l, right[j], keys) <==> Match(right[j], l, keys) {
      MatchSymmetric(l, right[j], keys);
    }
    MergesIff(x, cols, l, map[]);
    if x in Contribution(l, right, keys, cols, keep, false) && ps != [] {
      var i :| 0 <= i < |ps| && MergeLeft(cols, l, ps)[i] == x;
      assert ps[i] in ps;
      var j :| 0 <= j < |right| && right[j] == ps[i] && Match(ps[i], l, keys);
      MergesIff(x, cols, l, right[j]);
    }
    if j :| 0 <= j < |right| && Match(l, right[j], keys) && Merges(x, cols, l, right[j]) {
      MergesIff(x, cols, l, right[j]);
      assert right[j] in ps;
      var i :| 0 <= i < |ps| && ps[i] == right[j];
      assert MergeLeft(cols, l, ps)[i] == x;
    }
  }

  ghost predicate FromSome(x: Row, left: seq<Row>, right: seq<Row>, keys: seq<string>, cols: seq<string>, keep: bool) {
    exists i :: 0 <= i < |left| && FromRow(x, left[i], right, keys, cols, keep)
  }

  lemma FromSomeMore(x: Row, left: seq<Row>, l: Row, right: seq<Row>, keys: seq<string>, cols: seq<string>, keep: bool)
    ensures FromSome(x, left + [l], right, keys, cols, keep)
       <==> FromSome(x, left, right, keys, cols, keep) || FromRow(x, l, right, keys, cols, keep)
  {
    var all := left + [l];
    assert all[|left|] == l;
    if i :| 0 <= i < |left| && FromRow(x, left[i], right, keys, cols, keep) {
      assert all[i] == left[i];
    }
  }

  lemma {:induction false} LeftMajorIs(x: Row, left: seq<Row>, right: seq<Row>, keys: seq<string>, cols: seq<string>, keep: bool)
    ensures x in LeftMajor(left, right, keys, cols, keep, false) <==> FromSome(x, left, right, keys, cols, keep)
  {
    if left != [] {
      var n := |left| - 1;
      LeftMajorIs(x, left[..n], right, keys, cols, keep);
      OneMoreLeft(left, right, keys, cols, keep, false);
      ContributionIs(x, left[n], right, keys, cols, keep);
      FromSomeMore(x, left[..n], left[n], right, keys, cols, keep);
      assert left == left[..n] + [left[n]];
    }
  }

  lemma LeftJoinIs(x: Row, left: seq<Row>, right: seq<Row>, keys: seq<string>, cols: seq<string>, keep: bool)
    ensures x in LeftMajor(left, right, keys, cols, keep, false)
       <==> FromPair(x, left, right, keys, cols) || (keep && FromLeft(x, left, right, keys, cols))
  {
    LeftMajorIs(x, left, right, keys, cols, keep);
    if i :| 0 <= i < |left| && FromRow(x, left[i], right, keys, cols, keep) {
      if j :| 0 <= j < |right| && Match(left[i], right[j], keys) && Merges(x, cols, left[i], right[j]) {
        assert FromPair(x, left, right, keys, cols);
      } else {
        assert LonelyLeft(left, right, keys, i);
      }
    }
    if i, j :| 0 <= i < |left| && 0 <= j < |right| && Match(left[i], right[j], keys) && Merges(x, cols, left[i], right[j]) {
      assert FromRow(x, left[i], right, keys, cols, keep);
    }
    if i :| keep && LonelyLeft(left, right, keys, i) && Merges(x, cols, left[i], map[]) {
      assert FromRow(x, left[i], right, keys, cols, keep);
    }
  }

  lemma FromRightMore(x: Row, left: seq<Row>, right: seq<Row>, r: Row, keys: seq<string>, cols: seq<string>)
    ensures FromRight(x, left, right + [r], keys, cols)
       <==> FromRight(x, left, right, keys, cols) || ((forall i | 0 <= i < |left| :: !Match(left[i], r, keys)) && Merges(x, cols, map[], r))
  {
    var all := right + [r];
    assert all[|right|] == r;
    if j :| LonelyRight(left, right, keys, j) && Merges(x, cols, map[], right[j]) {
      assert all[j] == right[j] && LonelyRight(left, all, keys, j);
    }
    if (forall i | 0 <= i < |left| :: !Match(left[i], r, keys)) && Merges(x, cols, map[], r) {
      assert LonelyRight(left, all, keys, |right|);
    }
    if j :| LonelyRight(left, all, keys, j) && Merges(x, cols, map[], all[j]) {
      assert j < |right| ==> all[j] == right[j] && LonelyRight(left, right, keys, j);
    }
  }

  lemma {:induction false} UnmatchedIs(x: Row, left: seq<Row>, right: seq<Row>, keys: seq<string>, cols: seq<string>)
    ensures x in Unmatched(left, right, keys, cols) <==> FromRight(x, left, right, keys, cols)
  {
    if right != [] {
      var n := |right| - 1;
      UnmatchedIs(x, left, right[..n], keys, cols);
      PartnersAre(left, right[n], keys);
      MergesIff(x, cols, map[], right[n]);
      FromRightMore(x, left, right[..n], right[n], keys, cols);
      assert right == right[..n] + [right[n]];
    }
  }

  ghost predicate FromRightRow(x: Row, left: seq<Row>, r: Row, keys: seq<string>, cols: seq<string>) {
    || (exists i :: 0 <= i < |left| && Match(left[i], r, keys) && Merges(x, cols, left[i], r))
    || ((forall i | 0 <= i < |left| :: !Match(left[i], r, keys)) && Merges(x, cols, map[], r))
  }

  function RightContribution(left: seq<Row>, r: Row, keys: seq<string>, cols: seq<string>): seq<Row> {
    var ps := Partners(left, r, keys);
    if ps == [] then [MergeRow(cols, map[], r)] else MergeRight(cols, ps, r)
  }

  lemma OneMoreRight(left: seq<Row>, right: seq<Row>, keys: seq<string>, cols: seq<string>)
    requires right != []
    ensures RightMajor(left, right, keys, cols)
         == RightMajor(left, right[..|right| - 1], keys, cols) + RightContribution(left, right[|right| - 1], keys, cols)
  {
  }

  lemma RightRowIs(x: Row, left: seq<Row>, r: Row, keys: seq<string>, cols: seq<string>)
    ensures x in RightContribution(left, r, keys, cols) <==> FromRightRow(x, left, r, keys, cols)
  {
    var ps := Partners(left, r, keys);
    PartnersAre(left, r, keys);
    MergesIff(x, cols, map[], r);
    if x in MergeRight(cols, ps, r) && ps != [] {
      var i :| 0 <= i < |ps| && MergeRight(cols, ps, r)[i] == x;
      assert ps[i] in ps;
      var j :| 0 <= j < |left| && left[j] == ps[i] && Match(ps[i], r, keys);
      MergesIff(x, cols, left[j], r);
    }
    if j :| 0 <= j < |left| && Match(left[j], r, keys) && Merges(x, cols, left[j], r) {
      MergesIff(x, cols, left[j], r);
      assert left[j] in ps;
      var i :| 0 <= i < |ps| && ps[i] == left[j];
      assert MergeRight(cols, ps, r)[i] == x;
    }
  }

  ghost predicate FromSomeRight(x: Row, left: seq<Row>, right: seq<Row>, keys: seq<string>, cols: seq<string>) {
    exists j :: 0 <= j < |right| && FromRightRow(x, left, right[j], keys, cols)
  }

  lemma FromSomeRightMore(x: Row, left: seq<Row>, right: seq<Row>, r: Row, keys: seq<string>, cols: seq<string>)
    ensures FromSomeRight(x, left, right + [r], keys, cols)
       <==> FromSomeRight(x, left, right, keys, cols) || FromRightRow(x, left, r, keys, cols)
  {
    var all := right + [r];
    assert all[|right|] == r;
    if j :| 0 <= j < |right| && FromRightRow(x, left, right[j], keys, cols) {
      assert all[j] == right[j];
    }
  }

  lemma {:induction false} RightMajorIs(x: Row, left: seq<Row>, right: seq<Row>, keys: seq<string>, cols: seq<string>)
    ensures x in RightMajor(left, right, keys, cols) <==> FromSomeRight(x, left, right, keys, cols)
  {
    if right != [] {
      var n := |right| - 1;
      RightMajorIs(x, left, right[..n], keys, cols);
      OneMoreRight(left, right, keys, cols);
      RightRowIs(x, left, right[n], keys, cols);
      FromSomeRightMore(x, left, right[..n], right[n], keys, cols);
      assert right == right[..n] + [right[n]];
    }
  }

  lemma RightJoinIs(x: Row, left: seq<Row>, right: seq<Row>, keys: seq<string>, cols: seq<string>)
    ensures x in RightMajor(left, right, keys, cols)
       <==> FromPair(x, left, right, keys, cols) || FromRight(x, left, right, keys, cols)
  {
    RightMajorIs(x, left, right, keys, cols);
    if j :| 0 <= j < |right| && FromRightRow(x, left, right[j], keys, cols) {
      if i :| 0 <= i < |left| && Match(left[i], right[j], keys) && Merges(x, cols, left[i], right[j]) {
        assert FromPair(x, left, right, keys, cols);
      } else {
        assert LonelyRight(left, right, keys, j);
      }
    }
    if i, j :| 0 <= i < |left| && 0 <= j < |right| && Match(left[i], right[j], keys) && Merges(x, cols, left[i], right[j]) {
      assert FromRightRow(x, left, right[j], keys, cols);
    }
    if j :| LonelyRight(left, right, keys, j) && Merges(x, cols, map[], right[j]) {
      assert FromRightRow(x, left, right[j], keys, cols);
    }
  }

  /** The rows of the nested loops are those of the relation, for all four kinds of join. */
  lemma NestedIsRelation(x: Row, left: seq<Row>, right: seq<Row>, keys: seq<string>, cols: seq<string>, how: How)
    ensures x in Joined(left, right, keys, cols, how, false) <==> InJoin(x, left, right, keys, cols, how)
  {
    LeftJoinIs(x, left, right, keys, cols, how != Inner);
    RightJoinIs(x, left, right, keys, cols);
    UnmatchedIs(x, left, right, keys, cols);
  }

  /** The columns besides the keys, in order. */
  lemma {:induction false} NonKeysAre(columns: seq<string>, keys: seq<string>, c: string)
    ensures c in NonKeys(columns, keys) <==> c in columns && c !in keys
  {
    if columns != [] {
      var n := |columns| - 1;
      NonKeysAre(columns[..n], keys, c);
      assert columns == columns[..n] + [columns[n]];
    }
  }

  /** The result's columns are those of both tables. */
  lemma JoinedColumns(t: Table, other: Table, keys: seq<string>)
    requires !Missing(t, other, keys)
    ensures forall c :: c in keys + NonKeys(t.columns, keys) + NonKeys(other.columns, keys) <==> c in t.columns || c in other.columns
  {
    forall c ensures c in keys + NonKeys(t.columns, keys) + NonKeys(other.columns, keys) <==> c in t.columns || c in other.columns {
      NonKeysAre(t.columns, keys, c);
      NonKeysAre(other.columns, keys, c);
    }
  }

  // ----- How many rows -----

  /** The positions of the rows that match this one. */
  ghost function Matching(rows: seq<Row>, r: Row, keys: seq<string>): set<int> {
    set j | 0 <= j < |rows| && Match(rows[j], r, keys)
  }

  lemma {:induction false} PartnersCounted(rows: seq<Row>, r: Row, keys: seq<string>)
    ensures |Partners(rows, r, keys)| == |Matching(rows, r, keys)|
  {
    if rows != [] {
      var n := |rows| - 1;
      PartnersCounted(rows[..n], r, keys);
      MatchIff(rows[n], r, keys);
      var rest := Matching(rows[..n], r, keys);
      assert n !in rest;
      assert Matching(rows, r, keys) == if Match(rows[n], r, keys) then rest + {n} else rest;
    }
  }

  /** An inner join has a row for every matching pair: as many per left row as right rows match it. */
  lemma {:induction false} InnerCounted(left: seq<Row>, right: seq<Row>, keys: seq<string>, cols: seq<string>)
    ensures |Joined(left, right, keys, cols, Inner, false)| == PairCount(left, right, keys)
  {
    if left != [] {
      var n := |left| - 1;
      InnerCounted(left[..n], right, keys, cols);
      OneMoreLeft(left, right, keys, cols, false, false);
      PartnersCounted(right, left[n], keys);
    }
  }

  ghost function PairCount(left: seq<Row>, right: seq<Row>, keys: seq<string>): nat {
    if left == [] then 0 else PairCount(left[..|left| - 1], right, keys) + |Matching(right, left[|left| - 1], keys)|
  }
}
