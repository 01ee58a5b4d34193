/**
 The join as core/table_methods.go runs it: the columns, the index of rendered
 keys, the loops over the rows, each proved against the nested loops or the index
 of the reference.
 */
module TableJoin {
  import opened Prelude
  import opened Join
  import opened JoinRelation

  /** Keys once, then the left's other columns, then the right's; a shared other column is an error. */
  method JoinColumns(t: Table, other: Table, keys: seq<string>) returns (cols: Outcome<seq<string>>)
    ensures cols == if Ambiguous(t, other, keys) then Fail else Ok(keys + NonKeys(t.columns, keys) + NonKeys(other.columns, keys))
  {
    var out := keys;
    for i := 0 to |t.columns|
      invariant out == keys + NonKeys(t.columns[..i], keys)
    {
      assert t.columns[..i + 1][..i] == t.columns[..i];
      if t.columns[i] !in keys {
        out := out + [t.columns[i]];
      }
    }
    assert t.columns[..|t.columns|] == t.columns;
    ghost var first := out;
    for i := 0 to |other.columns|
      invariant out == first + NonKeys(other.columns[..i], keys)
      invariant forall j | 0 <= j < i :: other.columns[j] in keys || other.columns[j] !in t.columns
    {
      assert other.columns[..i + 1][..i] == other.columns[..i];
      var c := other.columns[i];
      if c in keys {
        continue;
      }
      if c in t.columns {
        return Fail;
      }
      out := out + [c];
    }
    assert other.columns[..|other.columns|] == other.columns;
    return Ok(out);
  }

  /** The index holds, for each rendered key that occurs, its rows in order. */
  ghost predicate Indexes(index: map<string, seq<Row>>, rows: seq<Row>, keys: seq<string>) {
    forall k: string :: Group(rows, k, keys) == if k in index then index[k] else []
  }

  method BuildIndex(rows: seq<Row>, keys: seq<string>) returns (index: map<string, seq<Row>>)
    ensures Indexes(index, rows, keys)
  {
    index := map[];
    for i := 0 to |rows|
      invariant Indexes(index, rows[..i], keys)
    {
      assert rows[..i + 1][..i] == rows[..i];
      var k := KeyOf(rows[i], keys);
      index := index[k := (if k in index then index[k] else []) + [rows[i]]];
    }
    assert rows[..|rows|] == rows;
  }

  method AppendLeft(rows: seq<Row>, cols: seq<string>, lr: Row, matches: seq<Row>) returns (r: seq<Row>)
    ensures r == rows + MergeLeft(cols, lr, matches)
  {
    r := rows;
    ghost var merged := MergeLeft(cols, lr, matches);
    for j := 0 to |matches|
      invariant r == rows + merged[..j]
    {
      assert merged[..j + 1] == merged[..j] + [merged[j]];
      r := r + [MergeRow(cols, lr, matches[j])];
    }
    assert merged[..|matches|] == merged;
  }

  method AppendRight(rows: seq<Row>, cols: seq<string>, matches: seq<Row>, rr: Row) returns (r: seq<Row>)
    ensures r == rows + MergeRight(cols, matches, rr)
  {
    r := rows;
    ghost var merged := MergeRight(cols, matches, rr);
    for j := 0 to |matches|
      invariant r == rows + merged[..j]
    {
      assert merged[..j + 1] == merged[..j] + [merged[j]];
      r := r + [MergeRow(cols, matches[j], rr)];
    }
    assert merged[..|matches|] == merged;
  }

  method JoinLeft(left: seq<Row>, right: seq<Row>, keys: seq<string>, cols: seq<string>, keep: bool) returns (rows: seq<Row>)
    ensures rows == LeftMajor(left, right, keys, cols, keep, true)
  {
    var index := BuildIndex(right, keys);
    rows := [];
    for i := 0 to |left|
      invariant rows == LeftMajor(left[..i], right, keys, cols, keep, true)
    {
      assert left[..i + 1][..i] == left[..i];
      var lr := left[i];
      var k := KeyOf(lr, keys);
      var matches := if k in index then index[k] else [];
      assert matches == Group(right, k, keys);
      OneMoreLeft(left[..i + 1], right, keys, cols, keep, true);
      if |matches| == 0 {
        if keep {
          rows := rows + [MergeRow(cols, lr, map[])];
        }
        assert rows == LeftMajor(left[..i], right, keys, cols, keep, true) + LeftRow(cols, lr, matches, keep);
        continue;
      }
      rows := AppendLeft(rows, cols, lr, matches);
    }
    assert left[..|left|] == left;
  }

  method FindPartners(rows: seq<Row>, r: Row, keys: seq<string>) returns (matches: seq<Row>)
    ensures matches == Partners(rows, r, keys)
  {
    matches := [];
    for i := 0 to |rows|
      invariant matches == Partners(rows[..i], r, keys)
    {
      assert rows[..i + 1][..i] == rows[..i];
      var same := RowsKeyEqual(rows[i], r, keys);
      if same {
        matches := matches + [rows[i]];
      }
    }
    assert rows[..|rows|] == rows;
  }

  method RowsKeyEqual(a: Row, b: Row, keys: seq<string>) returns (same: bool)
    ensures same == KeysEqual(a, b, keys)
  {
    for i := 0 to |keys|
      invariant forall j | 0 <= j < i :: Equal(CellOf(a, keys[j]), CellOf(b, keys[j]))
    {
      if !Equal(CellOf(a, keys[i]), CellOf(b, keys[i])) {
        return false;
      }
    }
    return true;
  }

  method JoinRight(left: seq<Row>, right: seq<Row>, keys: seq<string>, cols: seq<string>) returns (rows: seq<Row>)
    ensures rows == RightMajor(left, right, keys, cols)
  {
    rows := [];
    for i := 0 to |right|
      invariant rows == RightMajor(left, right[..i], keys, cols)
    {
      assert right[..i + 1][..i] == right[..i];
      var matches := FindPartners(left, right[i], keys);
      if |matches| == 0 {
        rows := rows + [MergeRow(cols, map[], right[i])];
      } else {
        rows := AppendRight(rows, cols, matches, right[i]);
      }
    }
    assert right[..|right|] == right;
  }

  method KeepUnmatched(left: seq<Row>, right: seq<Row>, keys: seq<string>, cols: seq<string>) returns (rows: seq<Row>)
    ensures rows == Unmatched(left, right, keys, cols)
  {
    rows := [];
    for i := 0 to |right|
      invariant rows == Unmatched(left, right[..i], keys, cols)
    {
      assert right[..i + 1][..i] == right[..i];
      var matches := FindPartners(left, right[i], keys);
      if |matches| == 0 {
        rows := rows + [MergeRow(cols, map[], right[i])];
      }
    }
    assert right[..|right|] == right;
  }

  /** The join; with comparable keys its rows are those of the nested loops. */
  method EquiJoin(t: Table, other: Table, keys: seq<string>, how: How) returns (r: Outcome<Table>)
    ensures r.Fail? <==> Missing(t, other, keys) || Ambiguous(t, other, keys)
    ensures r.Ok? ==> r.value.columns == keys + NonKeys(t.columns, keys) + NonKeys(other.columns, keys)
    ensures r.Ok? ==> r.value.rows == Joined(t.rows, other.rows, keys, r.value.columns, how, true)
    ensures r.Ok? && AllComparable(t.rows, other.rows, keys) ==> r.value.rows == Joined(t.rows, other.rows, keys, r.value.columns, how, false)
    ensures r.Ok? ==> (r.value.rows == Joined(t.rows, other.rows, keys, r.value.columns, how, false)
                       <==> how == Right || AllUnaffected(t.rows, other.rows, keys, r.value.columns, how != Inner))
    ensures r.Ok? ==> forall c :: c in r.value.columns <==> c in t.columns || c in other.columns
    ensures r.Ok? && AllComparable(t.rows, other.rows, keys) ==>
      forall x :: x in r.value.rows <==> InJoin(x, t.rows, other.rows, keys, r.value.columns, how)
  {
    for i := 0 to |keys|
      invariant forall j | 0 <= j < i :: keys[j] in t.columns && keys[j] in other.columns
    {
      if keys[i] !in t.columns || keys[i] !in other.columns {
        return Fail;
      }
    }
    var cols := JoinColumns(t, other, keys);
    if cols.Fail? {
      return Fail;
    }
    var rows := JoinRows(t.rows, other.rows, keys, cols.value, how);
    JoinedColumns(t, other, keys);
    forall x ensures x in Joined(t.rows, other.rows, keys, cols.value, how, false) <==> InJoin(x, t.rows, other.rows, keys, cols.value, how) {
      NestedIsRelation(x, t.rows, other.rows, keys, cols.value, how);
    }
    return Ok(Table(cols.value, rows));
  }

  /** The joined rows, kind by kind. */
  method JoinRows(left: seq<Row>, right: seq<Row>, keys: seq<string>, cols: seq<string>, how: How) returns (rows: seq<Row>)
    ensures rows == Joined(left, right, keys, cols, how, true)
    ensures AllComparable(left, right, keys) ==> rows == Joined(left, right, keys, cols, how, false)
    ensures rows == Joined(left, right, keys, cols, how, false)
       <==> how == Right || AllUnaffected(left, right, keys, cols, how != Inner)
  {
    if how == Right {
      rows := JoinRight(left, right, keys, cols);
    } else {
      rows := JoinLeft(left, right, keys, cols, how == Left || how == Outer);
      if how == Outer {
        var alone := KeepUnmatched(left, right, keys, cols);
        rows := rows + alone;
      }
    }
    JoinsAgreeIff(left, right, keys, cols, how);
    if AllComparable(left, right, keys) {
      IndexedJoinIsNested(left, right, keys, cols, how);
    }
  }
}
