/**
 Equi-joins of tables (core/table_methods.go). The code finds partners through an
 index of rendered keys; the reference is the nested loop that compares the key
 cells themselves. On key columns of one type without nulls they return the same
 rows in the same order, for all four kinds of join.
 */
module Join {
  import opened Prelude
  import Decimals

  // ----- Tables -----

  datatype Cell = Null | Number(n: int) | Text(s: string) | Boolean(b: bool)

  type Row = map<string, Cell>

  datatype Table = Table(columns: seq<string>, rows: seq<Row>)

  /** Equality of values: null is equal to nothing, and different types are never equal. */
  predicate Equal(a: Cell, b: Cell) {
    !a.Null? && a == b
  }

  function RenderInt(n: int): string {
    if n < 0 then "-" + Decimals.Print(-n) else Decimals.Print(n)
  }

  function Render(c: Cell): string {
    match c
    case Null => "null"
    case Number(n) => RenderInt(n)
    case Text(s) => s
    case Boolean(b) => if b then "true" else "false"
  }

  function CellOf(r: Row, k: string): Cell {
    if k in r then r[k] else Null
  }

  const NUL: char := '\0'

  /** The rendered key cells, each closed by a NUL. */
  function KeyOf(r: Row, keys: seq<string>): string {
    if keys == [] then "" else Render(CellOf(r, keys[0])) + [NUL] + KeyOf(r, keys[1..])
  }

  predicate KeysEqual(a: Row, b: Row, keys: seq<string>) {
    forall i | 0 <= i < |keys| :: Equal(CellOf(a, keys[i]), CellOf(b, keys[i]))
  }

  /** The joined row takes each column from the left where it has it, then from the right. */
  function MergeRow(cols: seq<string>, left: Row, right: Row): Row {
    map c | c in cols :: if c in left then left[c] else if c in right then right[c] else Null
  }

  // ----- When rendered keys can stand for keys -----

  predicate SameKind(a: Cell, b: Cell) {
    match a
    case Null => b.Null?
    case Number(_) => b.Number?
    case Text(_) => b.Text?
    case Boolean(_) => b.Boolean?
  }

  predicate Renderable(c: Cell) {
    !c.Null? && (c.Text? ==> NUL !in c.s)
  }

  /** The two rows' key cells are not null, free of NUL, and of one type per column. */
  predicate Comparable(a: Row, b: Row, keys: seq<string>) {
    forall i | 0 <= i < |keys| ::
      && Renderable(CellOf(a, keys[i])) && Renderable(CellOf(b, keys[i]))
      && SameKind(CellOf(a, keys[i]), CellOf(b, keys[i]))
  }

  function ReadInt(s: string): int {
    if s != "" && s[0] == '-' then (if Decimals.AllDigits(s[1..]) then 0 - Decimals.Read(s[1..]) else 0)
    else if Decimals.AllDigits(s) then Decimals.Read(s) else 0
  }

  lemma ReadRendered(n: int)
    ensures ReadInt(RenderInt(n)) == n
  {
    if n < 0 {
      Decimals.ReadPrint(-n);
      assert ("-" + Decimals.Print(-n))[1..] == Decimals.Print(-n);
    } else {
      Decimals.ReadPrint(n);
      assert Decimals.IsDigit(Decimals.Print(n)[0]);
    }
  }

  lemma RenderInjective(a: Cell, b: Cell)
    requires SameKind(a, b) && !a.Null?
    ensures Render(a) == Render(b) <==> a == b
  {
    if a.Number? {
      ReadRendered(a.n);
      ReadRendered(b.n);
    } else if a.Boolean? {
      assert "true"[0] != "false"[0];
    }
  }

  lemma RenderNulFree(c: Cell)
    requires Renderable(c)
    ensures NUL !in Render(c)
  {
    if c.Number? {
      var digits := Decimals.Print(if c.n < 0 then -c.n else c.n);
      assert forall i | 0 <= i < |digits| :: Decimals.IsDigit(digits[i]);
    }
  }

  function NulAt(s: string): nat {
    if s == "" || s[0] == NUL then 0 else 1 + NulAt(s[1..])
  }

  lemma {:induction false} NulAfter(x: string, s: string)
    requires NUL !in x
    ensures NulAt(x + [NUL] + s) == |x|
  {
    if x == "" {
      assert x + [NUL] + s == [NUL] + s;
    } else {
      NulAfter(x[1..], s);
      assert (x + [NUL] + s)[1..] == x[1..] + [NUL] + s;
    }
  }

  /** Text up to the first NUL decides where it ends. */
  lemma FirstNul(x: string, y: string, s: string, t: string)
    requires NUL !in x && NUL !in y && x + [NUL] + s == y + [NUL] + t
    ensures x == y && s == t
  {
    NulAfter(x, s);
    NulAfter(y, t);
    var a, b := x + [NUL] + s, y + [NUL] + t;
    assert a[..|x|] == x && b[..|y|] == y;
    assert a[|x| + 1..] == s && b[|y| + 1..] == t;
  }

  lemma ComparableRest(a: Row, b: Row, keys: seq<string>)
    requires keys != [] && Comparable(a, b, keys)
    ensures Comparable(a, b, keys[1..])
    ensures KeysEqual(a, b, keys) <==> Equal(CellOf(a, keys[0]), CellOf(b, keys[0])) && KeysEqual(a, b, keys[1..])
  {
    forall i | 0 <= i < |keys| - 1 ensures keys[1..][i] == keys[i + 1] {
    }
    if Equal(CellOf(a, keys[0]), CellOf(b, keys[0])) && KeysEqual(a, b, keys[1..]) {
      forall i | 0 <= i < |keys| ensures Equal(CellOf(a, keys[i]), CellOf(b, keys[i])) {
        if i > 0 {
          assert keys[1..][i - 1] == keys[i];
        }
      }
    }
  }

  /** The rendered keys agree exactly when the key cells are equal, column by column. */
  lemma {:induction false} KeyStringsDecide(a: Row, b: Row, keys: seq<string>)
    requires Comparable(a, b, keys)
    ensures KeyOf(a, keys) == KeyOf(b, keys) <==> KeysEqual(a, b, keys)
  {
    if keys != [] {
      var x, y := CellOf(a, keys[0]), CellOf(b, keys[0]);
      ComparableRest(a, b, keys);
      KeyStringsDecide(a, b, keys[1..]);
      RenderInjective(x, y);
      RenderNulFree(x);
      RenderNulFree(y);
      if KeyOf(a, keys) == KeyOf(b, keys) {
        FirstNul(Render(x), Render(y), KeyOf(a, keys[1..]), KeyOf(b, keys[1..]));
      }
    }
  }

  // ----- The reference: nested loops -----

  datatype How = Inner | Left | Right | Outer

  /** The rows whose rendered key is the given one, in order. */
  function Group(rows: seq<Row>, key: string, keys: seq<string>): seq<Row> {
    if rows == [] then []
    else Group(rows[..|rows| - 1], key, keys) + if KeyOf(rows[|rows| - 1], keys) == key then [rows[|rows| - 1]] else []
  }

  /** The rows equal to the given one on the keys, in order. */
  function Partners(rows: seq<Row>, r: Row, keys: seq<string>): seq<Row> {
    if rows == [] then []
    else Partners(rows[..|rows| - 1], r, keys) + if KeysEqual(rows[|rows| - 1], r, keys) then [rows[|rows| - 1]] else []
  }

  function MergeLeft(cols: seq<string>, lr: Row, partners: seq<Row>): seq<Row> {
    seq(|partners|, i requires 0 <= i < |partners| => MergeRow(cols, lr, partners[i]))
  }

  function MergeRight(cols: seq<string>, partners: seq<Row>, rr: Row): seq<Row> {
    seq(|partners|, i requires 0 <= i < |partners| => MergeRow(cols, partners[i], rr))
  }

  /** What one left row contributes; an unmatched row may be kept, with nulls on the right. */
  function LeftRow(cols: seq<string>, lr: Row, partners: seq<Row>, keep: bool): seq<Row> {
    if partners == [] then (if keep then [MergeRow(cols, lr, map[])] else []) else MergeLeft(cols, lr, partners)
  }

  /** Left-major: each left row with its partners, found by rendered key or by comparing cells. */
  function LeftMajor(left: seq<Row>, right: seq<Row>, keys: seq<string>, cols: seq<string>, keep: bool, rendered: bool): seq<Row> {
    if left == [] then []
    else
      var lr := left[|left| - 1];
      var partners := if rendered then Group(right, KeyOf(lr, keys), keys) else Partners(right, lr, keys);
      LeftMajor(left[..|left| - 1], right, keys, cols, keep, rendered) + LeftRow(cols, lr, partners, keep)
  }

  function RightMajor(left: seq<Row>, right: seq<Row>, keys: seq<string>, cols: seq<string>): seq<Row> {
    if right == [] then []
    else
      var rr := right[|right| - 1];
      var partners := Partners(left, rr, keys);
      RightMajor(left, right[..|right| - 1], keys, cols)
      + if partners == [] then [MergeRow(cols, map[], rr)] else MergeRight(cols, partners, rr)
  }

  /** The right rows without a partner, in order. */
  function Unmatched(left: seq<Row>, right: seq<Row>, keys: seq<string>, cols: seq<string>): seq<Row> {
    if right == [] then []
    else
      var rr := right[|right| - 1];
      Unmatched(left, right[..|right| - 1], keys, cols) + if Partners(left, rr, keys) == [] then [MergeRow(cols, map[], rr)] else []
  }

  /** A join, with the partners of left rows found by rendered key or by comparing cells. */
  function Joined(left: seq<Row>, right: seq<Row>, keys: seq<string>, cols: seq<string>, how: How, rendered: bool): seq<Row> {
    match how
    case Inner => LeftMajor(left, right, keys, cols, false, rendered)
    case Left => LeftMajor(left, right, keys, cols, true, rendered)
    case Right => RightMajor(left, right, keys, cols)
    case Outer => LeftMajor(left, right, keys, cols, true, rendered) + Unmatched(left, right, keys, cols)
  }

  // ----- The index finds the same partners -----

  predicate AllComparable(left: seq<Row>, right: seq<Row>, keys: seq<string>) {
    forall i, j | 0 <= i < |left| && 0 <= j < |right| :: Comparable(left[i], right[j], keys)
  }

  lemma KeysEqualSymmetric(a: Row, b: Row, keys: seq<string>)
    ensures KeysEqual(a, b, keys) <==> KeysEqual(b, a, keys)
  {
  }

  lemma {:induction false} GroupIsPartners(lr: Row, right: seq<Row>, keys: seq<string>)
    requires forall j | 0 <= j < |right| :: Comparable(lr, right[j], keys)
    ensures Group(right, KeyOf(lr, keys), keys) == Partners(right, lr, keys)
  {
    if right != [] {
      var rr := right[|right| - 1];
      GroupIsPartners(lr, right[..|right| - 1], keys);
      KeyStringsDecide(lr, rr, keys);
      KeysEqualSymmetric(lr, rr, keys);
    }
  }

  lemma {:induction false} LeftMajorSame(left: seq<Row>, right: seq<Row>, keys: seq<string>, cols: seq<string>, keep: bool)
    requires AllComparable(left, right, keys)
    ensures LeftMajor(left, right, keys, cols, keep, true) == LeftMajor(left, right, keys, cols, keep, false)
  {
    if left != [] {
      LeftMajorSame(left[..|left| - 1], right, keys, cols, keep);
      GroupIsPartners(left[|left| - 1], right, keys);
    }
  }

  /** With comparable keys the indexed join returns the rows of the nested loops, in their order. */
  lemma IndexedJoinIsNested(left: seq<Row>, right: seq<Row>, keys: seq<string>, cols: seq<string>, how: How)
    requires AllComparable(left, right, keys)
    ensures Joined(left, right, keys, cols, how, true) == Joined(left, right, keys, cols, how, false)
  {
    LeftMajorSame(left, right, keys, cols, true);
    LeftMajorSame(left, right, keys, cols, false);
  }

  // ----- Exactly when the index finds the same partners -----

  /** The rendered keys agree but the key cells do not. */
  predicate Spurious(l: Row, r: Row, keys: seq<string>) {
    KeyOf(l, keys) == KeyOf(r, keys) && !KeysEqual(r, l, keys)
  }

  predicate NulFreeKeys(r: Row, keys: seq<string>) {
    forall i | 0 <= i < |keys| :: NUL !in Render(CellOf(r, keys[i]))
  }

  predicate RenderAlike(l: Row, r: Row, keys: seq<string>) {
    forall i | 0 <= i < |keys| :: Render(CellOf(l, keys[i])) == Render(CellOf(r, keys[i]))
  }

  /** Some key column has a null on one side, or cells of different kinds. */
  predicate Mismatched(l: Row, r: Row, keys: seq<string>) {
    exists i | 0 <= i < |keys| ::
      CellOf(l, keys[i]).Null? || CellOf(r, keys[i]).Null? || !SameKind(CellOf(l, keys[i]), CellOf(r, keys[i]))
  }

  lemma {:induction false} KeysAlike(l: Row, r: Row, keys: seq<string>)
    requires NulFreeKeys(l, keys) && NulFreeKeys(r, keys)
    ensures KeyOf(l, keys) == KeyOf(r, keys) <==> RenderAlike(l, r, keys)
  {
    if keys != [] {
      var rest := keys[1..];
      assert forall i | 0 <= i < |rest| :: rest[i] == keys[i + 1];
      assert RenderAlike(l, r, keys) <==> Render(CellOf(l, keys[0])) == Render(CellOf(r, keys[0])) && RenderAlike(l, r, rest) by {
        assert forall i | 0 < i < |keys| :: keys[i] == rest[i - 1];
      }
      KeysAlike(l, r, rest);
      if KeyOf(l, keys) == KeyOf(r, keys) {
        FirstNul(Render(CellOf(l, keys[0])), Render(CellOf(r, keys[0])), KeyOf(l, rest), KeyOf(r, rest));
      }
    }
  }

  /** On NUL-free keys a spurious pair looks alike in every key column, with a null or two kinds in one. */
  lemma SpuriousIff(l: Row, r: Row, keys: seq<string>)
    requires NulFreeKeys(l, keys) && NulFreeKeys(r, keys)
    ensures Spurious(l, r, keys) <==> RenderAlike(l, r, keys) && Mismatched(l, r, keys)
  {
    KeysAlike(l, r, keys);
    if RenderAlike(l, r, keys) && !Mismatched(l, r, keys) {
      forall i | 0 <= i < |keys| ensures Equal(CellOf(r, keys[i]), CellOf(l, keys[i])) {
        RenderInjective(CellOf(l, keys[i]), CellOf(r, keys[i]));
      }
    }
  }

  lemma {:induction false} EqualKeysRender(a: Row, b: Row, keys: seq<string>)
    requires KeysEqual(a, b, keys)
    ensures KeyOf(a, keys) == KeyOf(b, keys)
  {
    if keys != [] {
      assert Equal(CellOf(a, keys[0]), CellOf(b, keys[0]));
      assert forall i | 0 <= i < |keys| - 1 :: keys[1..][i] == keys[i + 1];
      EqualKeysRender(a, b, keys[1..]);
    }
  }

  ghost predicate NoneSpurious(lr: Row, right: seq<Row>, keys: seq<string>) {
    forall j | 0 <= j < |right| :: !Spurious(lr, right[j], keys)
  }

  /** The index finds every partner, and no others exactly when none is spurious. */
  lemma {:induction false} GroupHoldsPartners(lr: Row, right: seq<Row>, keys: seq<string>)
    ensures |Partners(right, lr, keys)| <= |Group(right, KeyOf(lr, keys), keys)|
    ensures NoneSpurious(lr, right, keys) ==> Group(right, KeyOf(lr, keys), keys) == Partners(right, lr, keys)
    ensures !NoneSpurious(lr, right, keys) ==> |Partners(right, lr, keys)| < |Group(right, KeyOf(lr, keys), keys)|
  {
    if right != [] {
      var n := |right| - 1;
      GroupHoldsPartners(lr, right[..n], keys);
      NoneSpuriousSplit(lr, right, keys);
      if KeysEqual(right[n], lr, keys) {
        EqualKeysRender(right[n], lr, keys);
      }
      OneMoreFound(Group(right[..n], KeyOf(lr, keys), keys), Partners(right[..n], lr, keys), right[n],
                   KeyOf(right[n], keys) == KeyOf(lr, keys), KeysEqual(right[n], lr, keys));
    }
  }

  lemma NoneSpuriousSplit(lr: Row, right: seq<Row>, keys: seq<string>)
    requires right != []
    ensures NoneSpurious(lr, right, keys) <==> NoneSpurious(lr, right[..|right| - 1], keys) && !Spurious(lr, right[|right| - 1], keys)
  {
    assert forall j | 0 <= j < |right| - 1 :: right[..|right| - 1][j] == right[j];
  }

  lemma OneMoreFound(found: seq<Row>, partners: seq<Row>, r: Row, rendered: bool, equal: bool)
    requires |partners| <= |found| && (equal ==> rendered)
    ensures var f, p := found + (if rendered then [r] else []), partners + (if equal then [r] else []);
      && |p| <= |f|
      && (found == partners && (rendered ==> equal) ==> f == p)
      && (|partners| < |found| || (rendered && !equal) ==> |p| < |f|)
  {
  }

  /** The one spurious partner of a row without partners adds nothing to it. */
  ghost predicate Harmless(lr: Row, right: seq<Row>, keys: seq<string>, cols: seq<string>) {
    var found := Group(right, KeyOf(lr, keys), keys);
    Partners(right, lr, keys) == [] && |found| == 1 && MergeRow(cols, lr, found[0]) == MergeRow(cols, lr, map[])
  }

  /** What a left row may meet among the right rows without its joined rows changing. */
  ghost predicate Unaffected(lr: Row, right: seq<Row>, keys: seq<string>, cols: seq<string>, keep: bool) {
    NoneSpurious(lr, right, keys) || (keep && Harmless(lr, right, keys, cols))
  }

  ghost predicate AllUnaffected(left: seq<Row>, right: seq<Row>, keys: seq<string>, cols: seq<string>, keep: bool) {
    forall i | 0 <= i < |left| :: Unaffected(left[i], right, keys, cols, keep)
  }

  function Contribution(lr: Row, right: seq<Row>, keys: seq<string>, cols: seq<string>, keep: bool, rendered: bool): seq<Row> {
    LeftRow(cols, lr, if rendered then Group(right, KeyOf(lr, keys), keys) else Partners(right, lr, keys), keep)
  }

  lemma ContributionsAgreeIff(lr: Row, right: seq<Row>, keys: seq<string>, cols: seq<string>, keep: bool)
    ensures var a, b := Contribution(lr, right, keys, cols, keep, true), Contribution(lr, right, keys, cols, keep, false);
            |a| >= |b| && (a == b <==> Unaffected(lr, right, keys, cols, keep))
  {
    GroupHoldsPartners(lr, right, keys);
    var a, b := Contribution(lr, right, keys, cols, keep, true), Contribution(lr, right, keys, cols, keep, false);
    var found := Group(right, KeyOf(lr, keys), keys);
    if !NoneSpurious(lr, right, keys) && keep && Partners(right, lr, keys) == [] && |found| == 1 {
      assert a == [MergeRow(cols, lr, found[0])] && b == [MergeRow(cols, lr, map[])];
      assert a[0] == b[0] <==> a == b;
    }
  }

  lemma SameSplit<T>(a: seq<T>, x: seq<T>, b: seq<T>, y: seq<T>)
    requires |a| >= |b| && |x| >= |y|
    ensures a + x == b + y <==> a == b && x == y
  {
    if a + x == b + y {
      assert |a| == |b|;
      assert a == (a + x)[..|a|] && b == (b + y)[..|b|];
      assert x == (a + x)[|a|..] && y == (b + y)[|b|..];
    }
  }

  lemma {:induction false} LeftMajorAgreesIff(left: seq<Row>, right: seq<Row>, keys: seq<string>, cols: seq<string>, keep: bool)
    ensures |LeftMajor(left, right, keys, cols, keep, true)| >= |LeftMajor(left, right, keys, cols, keep, false)|
    ensures LeftMajor(left, right, keys, cols, keep, true) == LeftMajor(left, right, keys, cols, keep, false)
       <==> AllUnaffected(left, right, keys, cols, keep)
  {
    if left != [] {
      var n := |left| - 1;
      var init := left[..n];
      LeftMajorAgreesIff(init, right, keys, cols, keep);
      ContributionsAgreeIff(left[n], right, keys, cols, keep);
      SameSplit(LeftMajor(init, right, keys, cols, keep, true), Contribution(left[n], right, keys, cols, keep, true),
                LeftMajor(init, right, keys, cols, keep, false), Contribution(left[n], right, keys, cols, keep, false));
      AllUnaffectedSplit(left, right, keys, cols, keep);
      OneMoreLeft(left, right, keys, cols, keep, true);
      OneMoreLeft(left, right, keys, cols, keep, false);
    }
  }

  lemma OneMoreLeft(left: seq<Row>, right: seq<Row>, keys: seq<string>, cols: seq<string>, keep: bool, rendered: bool)
    requires left != []
    ensures LeftMajor(left, right, keys, cols, keep, rendered)
         == LeftMajor(left[..|left| - 1], right, keys, cols, keep, rendered)
            + Contribution(left[|left| - 1], right, keys, cols, keep, rendered)
  {
  }

  lemma AllUnaffectedSplit(left: seq<Row>, right: seq<Row>, keys: seq<string>, cols: seq<string>, keep: bool)
    requires left != []
    ensures AllUnaffected(left, right, keys, cols, keep)
       <==> AllUnaffected(left[..|left| - 1], right, keys, cols, keep) && Unaffected(left[|left| - 1], right, keys, cols, keep)
  {
    assert forall i | 0 <= i < |left| - 1 :: left[..|left| - 1][i] == left[i];
  }

  /**
   The indexed join is the nested loops exactly when no left row meets a spurious
   partner, except that an unmatched row kept by a left or outer join may meet one
   that adds nothing to it. A right join does not use the index.
   */
  lemma JoinsAgreeIff(left: seq<Row>, right: seq<Row>, keys: seq<string>, cols: seq<string>, how: How)
    ensures Joined(left, right, keys, cols, how, true) == Joined(left, right, keys, cols, how, false)
       <==> how == Right || AllUnaffected(left, right, keys, cols, how != Inner)
  {
    if how != Right {
      LeftMajorAgreesIff(left, right, keys, cols, how != Inner);
    }
    if how == Outer {
      var alone := Unmatched(left, right, keys, cols);
      SameSplit(LeftMajor(left, right, keys, cols, true, true), alone, LeftMajor(left, right, keys, cols, true, false), alone);
    }
  }

  /** Null keys are equal to nothing, yet the index pairs them. */
  lemma NullsAreJoined(k: string)
    ensures var r := map[k := Null];
            && Joined([r], [r], [k], [k], Inner, false) == []
            && Joined([r], [r], [k], [k], Inner, true) == [r]
  {
    var r: Row := map[k := Null];
    PairJoin(r, r, k);
    assert MergeRow([k], r, r) == r;
  }

  /** The same tables under a left join: the kept row and the spurious match are the same row, so nothing shows. */
  lemma NullsMayNotShow(k: string)
    ensures var r := map[k := Null];
            Joined([r], [r], [k], [k], Left, true) == Joined([r], [r], [k], [k], Left, false)
  {
    var r: Row := map[k := Null];
    var rows, keys := [r], [k];
    PairPartners(r, r, k);
    assert MergeRow(keys, r, r) == MergeRow(keys, r, map[]);
    assert Unaffected(rows[0], rows, keys, keys, true);
    assert AllUnaffected(rows, rows, keys, keys, true);
    JoinsAgreeIff(rows, rows, keys, keys, Left);
  }

  /** A number and a text that look alike are not equal, yet the index pairs them. */
  lemma LookalikesAreJoined(k: string, n: int)
    ensures var a, b: Row := map[k := Number(n)], map[k := Text(RenderInt(n))];
            && Joined([a], [b], [k], [k], Inner, false) == []
            && Joined([a], [b], [k], [k], Inner, true) == [a]
  {
    var a: Row, b: Row := map[k := Number(n)], map[k := Text(RenderInt(n))];
    PairJoin(a, b, k);
    assert MergeRow([k], a, b) == a;
  }

  lemma PairPartners(a: Row, b: Row, k: string)
    requires k in a && k in b && Render(a[k]) == Render(b[k]) && !Equal(b[k], a[k])
    ensures Partners([b], a, [k]) == [] && Group([b], KeyOf(a, [k]), [k]) == [b]
  {
    var keys := [k];
    assert keys[1..] == [];
    assert KeyOf(a, keys) == KeyOf(b, keys);
    assert !KeysEqual(b, a, keys) by {
      assert CellOf(b, keys[0]) == b[k] && CellOf(a, keys[0]) == a[k];
    }
    assert [b][..0] == [];
  }

  lemma PairJoin(a: Row, b: Row, k: string)
    requires k in a && k in b && Render(a[k]) == Render(b[k]) && !Equal(b[k], a[k])
    ensures Joined([a], [b], [k], [k], Inner, false) == []
    ensures Joined([a], [b], [k], [k], Inner, true) == [MergeRow([k], a, b)]
  {
    var keys := [k];
    PairPartners(a, b, k);
    assert [a][..0] == [];
    assert LeftRow(keys, a, [], false) == [];
    assert LeftMajor([], [b], keys, keys, false, false) == [] && LeftMajor([], [b], keys, keys, false, true) == [];
  }

  // ----- Columns -----

  function NonKeys(columns: seq<string>, keys: seq<string>): seq<string> {
    if columns == [] then []
    else NonKeys(columns[..|columns| - 1], keys) + if columns[|columns| - 1] in keys then [] else [columns[|columns| - 1]]
  }

  predicate Ambiguous(t: Table, other: Table, keys: seq<string>) {
    exists c | c in other.columns :: c !in keys && c in t.columns
  }

  predicate Missing(t: Table, other: Table, keys: seq<string>) {
    exists k | k in keys :: k !in t.columns || k !in other.columns
  }
}
