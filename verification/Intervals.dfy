/**
 The interval relations (core/interval.go, core/range.go) over a dense order
 without endpoints, here the reals. The code compares bounds and their inclusion;
 each relation is proved to say what it means about the points of its operands.
 */
module Intervals {
  import opened Prelude

  /** A missing bound is an open end. */
  datatype Interval = Interval(lo: Option<real>, hi: Option<real>, loInc: bool, hiInc: bool)

  predicate IsEmpty(i: Interval) {
    i.lo.Some? && i.hi.Some? && (i.lo.value > i.hi.value || (i.lo.value == i.hi.value && (!i.loInc || !i.hiInc)))
  }

  predicate Contains(i: Interval, x: real) {
    if IsEmpty(i) then false
    else if i.lo.Some? && (x < i.lo.value || (x == i.lo.value && !i.loInc)) then false
    else if i.hi.Some? && (x > i.hi.value || (x == i.hi.value && !i.hiInc)) then false
    else true
  }

  /** An interval holds exactly the points its bounds admit; the emptiness test never changes an answer. */
  lemma ContainsIff(i: Interval, x: real)
    ensures Contains(i, x)
       <==> && (i.lo.Some? ==> i.lo.value < x || (i.lo.value == x && i.loInc))
            && (i.hi.Some? ==> x < i.hi.value || (x == i.hi.value && i.hiInc))
  {
  }

  // ----- The relations, on bounds -----

  predicate HiBeforeLo(a: Interval, b: Interval) {
    if a.hi.None? || b.lo.None? then false
    else a.hi.value < b.lo.value || (a.hi.value == b.lo.value && (!a.hiInc || !b.loInc))
  }

  predicate HiMeetsLo(a: Interval, b: Interval) {
    a.hi.Some? && b.lo.Some? && a.hi.value == b.lo.value && a.hiInc && b.loInc
  }

  predicate LoStrictlyLeft(a: Interval, b: Interval) {
    if a.lo.None? then b.lo.Some?
    else if b.lo.None? then false
    else if a.lo.value != b.lo.value then a.lo.value < b.lo.value
    else a.loInc && !b.loInc
  }

  predicate LoEqual(a: Interval, b: Interval) {
    if a.lo.None? || b.lo.None? then a.lo.None? && b.lo.None? else a.lo.value == b.lo.value && a.loInc == b.loInc
  }

  predicate HiEqual(a: Interval, b: Interval) {
    if a.hi.None? || b.hi.None? then a.hi.None? && b.hi.None? else a.hi.value == b.hi.value && a.hiInc == b.hiInc
  }

  predicate HiWithinHi(a: Interval, b: Interval) {
    if b.hi.None? then true
    else if a.hi.None? then false
    else if a.hi.value != b.hi.value then a.hi.value < b.hi.value
    else !a.hiInc || b.hiInc
  }

  predicate Overlap(a: Interval, b: Interval) {
    !HiBeforeLo(a, b) && !HiBeforeLo(b, a)
  }

  datatype Relation =
    | Before | After | Meets | MetBy | Overlaps | OverlapsBefore | OverlapsAfter
    | Starts | StartedBy | Finishes | FinishedBy | Coincides

  predicate Holds(r: Relation, a: Interval, b: Interval) {
    match r
    case Before => HiBeforeLo(a, b)
    case After => HiBeforeLo(b, a)
    case Meets => HiMeetsLo(a, b)
    case MetBy => HiMeetsLo(b, a)
    case Overlaps => Overlap(a, b)
    case OverlapsBefore => Overlap(a, b) && LoStrictlyLeft(a, b)
    case OverlapsAfter => Overlap(a, b) && LoStrictlyLeft(b, a)
    case Starts => LoEqual(a, b) && HiWithinHi(a, b)
    case StartedBy => LoEqual(a, b) && HiWithinHi(b, a)
    case Finishes => HiEqual(a, b) && !LoStrictlyLeft(a, b)
    case FinishedBy => HiEqual(a, b) && !LoStrictlyLeft(b, a)
    case Coincides => LoEqual(a, b) && HiEqual(a, b)
  }

  /** A point stands for the closed interval from itself to itself. */
  datatype Operand = Nothing | Point(p: real) | Range(i: Interval)

  function ToInterval(v: Operand): Interval
    requires !v.Nothing?
  {
    if v.Range? then v.i else Interval(Some(v.p), Some(v.p), true, true)
  }

  /** A point, asked about as an interval, holds itself alone. */
  lemma PointAlone(p: real, x: real)
    ensures Contains(ToInterval(Point(p)), x) <==> x == p
  {
  }

  /** No answer for a missing operand or an empty range. */
  function Ask(r: Relation, a: Operand, b: Operand): Option<bool> {
    if a.Nothing? || b.Nothing? then None
    else if IsEmpty(ToInterval(a)) || IsEmpty(ToInterval(b)) then None
    else Some(Holds(r, ToInterval(a), ToInterval(b)))
  }

  // ----- The relations, on points -----

  ghost predicate AllBelow(a: Interval, b: Interval) {
    forall x, y | Contains(a, x) && Contains(b, y) :: x < y
  }

  ghost predicate SharePoint(a: Interval, b: Interval) {
    exists x :: Contains(a, x) && Contains(b, x)
  }

  ghost predicate Within(a: Interval, b: Interval) {
    forall x | Contains(a, x) :: Contains(b, x)
  }

  ghost predicate BelowAll(x: real, b: Interval) {
    forall y | Contains(b, y) :: x < y
  }

  ghost predicate AboveAll(x: real, b: Interval) {
    forall y | Contains(b, y) :: y < x
  }

  /** Some point of a lies below every point of b. */
  ghost predicate ReachesBelow(a: Interval, b: Interval) {
    exists x :: Contains(a, x) && BelowAll(x, b)
  }

  ghost predicate ReachesAbove(a: Interval, b: Interval) {
    exists x :: Contains(a, x) && AboveAll(x, b)
  }

  /** The intersection is one point, the last of a and the first of b. */
  ghost predicate Touch(a: Interval, b: Interval) {
    exists p :: Contains(a, p) && Contains(b, p) && (forall x | Contains(a, x) :: x <= p) && (forall y | Contains(b, y) :: p <= y)
  }

  ghost predicate Means(r: Relation, a: Interval, b: Interval) {
    match r
    case Before => AllBelow(a, b)
    case After => AllBelow(b, a)
    case Meets => Touch(a, b)
    case MetBy => Touch(b, a)
    case Overlaps => SharePoint(a, b)
    case OverlapsBefore => SharePoint(a, b) && ReachesBelow(a, b)
    case OverlapsAfter => SharePoint(a, b) && ReachesBelow(b, a)
    case Starts => Within(a, b) && !ReachesBelow(b, a)
    case StartedBy => Within(b, a) && !ReachesBelow(a, b)
    case Finishes => Within(a, b) && !ReachesAbove(b, a)
    case FinishedBy => Within(b, a) && !ReachesAbove(a, b)
    case Coincides => Within(a, b) && Within(b, a)
  }

  // ----- Points where they are needed -----

  /** Below any value above its lower bound, a non-empty interval has a point. */
  lemma PointBelow(i: Interval, v: real) returns (x: real)
    requires !IsEmpty(i) && (i.lo.Some? ==> i.lo.value < v)
    ensures Contains(i, x) && x < v
  {
    var cap := if i.hi.Some? && i.hi.value < v then i.hi.value else v;
    if i.lo.None? {
      x := cap - 1.0;
    } else if i.lo.value < cap {
      x := (i.lo.value + cap) / 2.0;
    } else {
      x := i.lo.value;
    }
  }

  lemma PointAbove(i: Interval, v: real) returns (x: real)
    requires !IsEmpty(i) && (i.hi.Some? ==> v < i.hi.value)
    ensures Contains(i, x) && v < x
  {
    var floor := if i.lo.Some? && i.lo.value > v then i.lo.value else v;
    if i.hi.None? {
      x := floor + 1.0;
    } else if floor < i.hi.value {
      x := (floor + i.hi.value) / 2.0;
    } else {
      x := i.hi.value;
    }
  }

  lemma SomePoint(i: Interval) returns (x: real)
    requires !IsEmpty(i)
    ensures Contains(i, x)
  {
    x := if i.lo.Some? && i.hi.Some? then (i.lo.value + i.hi.value) / 2.0
         else if i.lo.Some? then i.lo.value + 1.0
         else if i.hi.Some? then i.hi.value - 1.0
         else 0.0;
  }

  /** The emptiness test is exact. */
  lemma EmptyIff(i: Interval)
    ensures IsEmpty(i) <==> forall x :: !Contains(i, x)
  {
    if !IsEmpty(i) {
      var x := SomePoint(i);
    }
  }

  lemma NotBefore(a: Interval, b: Interval) returns (x: real, y: real)
    requires !IsEmpty(a) && !IsEmpty(b) && !HiBeforeLo(a, b)
    ensures Contains(a, x) && Contains(b, y) && y <= x
  {
    if a.hi.None? {
      y := SomePoint(b);
      x := PointAbove(a, y);
    } else if b.lo.None? {
      x := SomePoint(a);
      y := PointBelow(b, x);
    } else if b.lo.value < a.hi.value {
      var v := (b.lo.value + a.hi.value) / 2.0;
      x := PointAbove(a, v);
      y := PointBelow(b, v);
    } else {
      x, y := a.hi.value, a.hi.value;
    }
  }

  lemma BeforeIff(a: Interval, b: Interval)
    requires !IsEmpty(a) && !IsEmpty(b)
    ensures HiBeforeLo(a, b) <==> AllBelow(a, b)
  {
    if !HiBeforeLo(a, b) {
      var x, y := NotBefore(a, b);
    }
  }

  lemma OverlapIff(a: Interval, b: Interval)
    requires !IsEmpty(a) && !IsEmpty(b)
    ensures Overlap(a, b) <==> SharePoint(a, b)
  {
    if Overlap(a, b) {
      var x1, y1 := NotBefore(a, b);
      var y2, x2 := NotBefore(b, a);
      var p := if x2 >= y1 then x2 else y1;
      assert Contains(a, p) && Contains(b, p);
    } else {
      BeforeIff(a, b);
      BeforeIff(b, a);
    }
  }

  lemma StrictlyLeftIff(a: Interval, b: Interval)
    requires !IsEmpty(a) && !IsEmpty(b)
    ensures LoStrictlyLeft(a, b) <==> ReachesBelow(a, b)
  {
    if LoStrictlyLeft(a, b) {
      var x: real;
      if a.lo.Some? && a.lo.value == b.lo.value {
        x := a.lo.value;
      } else {
        x := PointBelow(a, b.lo.value);
      }
      assert Contains(a, x) && BelowAll(x, b);
    } else {
      forall x | Contains(a, x) ensures !BelowAll(x, b) {
        if b.lo.None? || b.lo.value < x {
          var y := PointBelow(b, x);
        } else {
          assert Contains(b, x);
        }
      }
    }
  }

  lemma WithinHiIff(a: Interval, b: Interval)
    requires !IsEmpty(a) && !IsEmpty(b)
    ensures HiWithinHi(a, b) <==> !ReachesAbove(a, b)
  {
    if !HiWithinHi(a, b) {
      var x: real;
      if a.hi.Some? && a.hi.value == b.hi.value {
        x := a.hi.value;
      } else {
        x := PointAbove(a, b.hi.value);
      }
      assert Contains(a, x) && AboveAll(x, b);
    } else {
      forall x | Contains(a, x) ensures !AboveAll(x, b) {
        if b.hi.None? || x < b.hi.value {
          var y := PointAbove(b, x);
        } else {
          assert Contains(b, x);
        }
      }
    }
  }

  /** One interval lies within another exactly when it reaches out on neither side. */
  lemma WithinIff(a: Interval, b: Interval)
    requires !IsEmpty(a) && !IsEmpty(b)
    ensures Within(a, b) <==> !LoStrictlyLeft(a, b) && HiWithinHi(a, b)
  {
    StrictlyLeftIff(a, b);
    WithinHiIff(a, b);
  }

  lemma EqualBounds(a: Interval, b: Interval)
    ensures LoEqual(a, b) <==> !LoStrictlyLeft(a, b) && !LoStrictlyLeft(b, a)
    ensures HiEqual(a, b) <==> HiWithinHi(a, b) && HiWithinHi(b, a)
  {
  }

  lemma MeetsIff(a: Interval, b: Interval)
    requires !IsEmpty(a) && !IsEmpty(b)
    ensures HiMeetsLo(a, b) <==> Touch(a, b)
  {
    if HiMeetsLo(a, b) {
      var p := a.hi.value;
      assert Contains(a, p) && Contains(b, p);
    } else if Touch(a, b) {
      var p :| Contains(a, p) && Contains(b, p) && (forall x | Contains(a, x) :: x <= p) && (forall y | Contains(b, y) :: p <= y);
      LastPoint(a, p);
      FirstPoint(b, p);
    }
  }

  lemma LastPoint(i: Interval, p: real)
    requires Contains(i, p) && forall x | Contains(i, x) :: x <= p
    ensures i.hi == Some(p) && i.hiInc
  {
    if i.hi.None? || p < i.hi.value {
      var x := PointAbove(i, p);
      assert false;
    }
  }

  lemma FirstPoint(i: Interval, p: real)
    requires Contains(i, p) && forall x | Contains(i, x) :: p <= x
    ensures i.lo == Some(p) && i.loInc
  {
    if i.lo.None? || i.lo.value < p {
      var x := PointBelow(i, p);
      assert false;
    }
  }

  /** Every relation holds of the bounds exactly when it holds of the points. */
  lemma RelationsAreTrue(r: Relation, a: Interval, b: Interval)
    requires !IsEmpty(a) && !IsEmpty(b)
    ensures Holds(r, a, b) <==> Means(r, a, b)
  {
    match r
    case Before => BeforeIff(a, b);
    case After => BeforeIff(b, a);
    case Meets => MeetsIff(a, b);
    case MetBy => MeetsIff(b, a);
    case Overlaps => OverlapIff(a, b);
    case OverlapsBefore => OverlapIff(a, b); StrictlyLeftIff(a, b);
    case OverlapsAfter => OverlapIff(a, b); StrictlyLeftIff(b, a);
    case Starts => WithinIff(a, b); StrictlyLeftIff(b, a); EqualBounds(a, b);
    case StartedBy => WithinIff(b, a); StrictlyLeftIff(a, b); EqualBounds(a, b);
    case Finishes => WithinIff(a, b); WithinHiIff(b, a); EqualBounds(a, b);
    case FinishedBy => WithinIff(b, a); WithinHiIff(a, b); EqualBounds(a, b);
    case Coincides => WithinIff(a, b); WithinIff(b, a); EqualBounds(a, b);
  }

  /** A question is answered exactly when both operands have points, and then truthfully. */
  lemma AnswersAreTrue(r: Relation, a: Operand, b: Operand)
    ensures Ask(r, a, b).None?
       <==> a.Nothing? || b.Nothing? || (forall x :: !Contains(ToInterval(a), x)) || (forall x :: !Contains(ToInterval(b), x))
    ensures Ask(r, a, b).Some? ==> (Ask(r, a, b).value <==> Means(r, ToInterval(a), ToInterval(b)))
  {
    if !a.Nothing? && !b.Nothing? {
      EmptyIff(ToInterval(a));
      EmptyIff(ToInterval(b));
      if Ask(r, a, b).Some? {
        RelationsAreTrue(r, ToInterval(a), ToInterval(b));
      }
    }
  }

  /** Of before, after and overlaps exactly one holds. */
  lemma ExactlyOne(a: Interval, b: Interval)
    requires !IsEmpty(a) && !IsEmpty(b)
    ensures Holds(Before, a, b) || Holds(After, a, b) || Holds(Overlaps, a, b)
    ensures !(Holds(Before, a, b) && Holds(After, a, b))
    ensures !(Holds(Before, a, b) && Holds(Overlaps, a, b)) && !(Holds(After, a, b) && Holds(Overlaps, a, b))
  {
    if Holds(Before, a, b) && Holds(After, a, b) {
      var x := SomePoint(a);
      var y := SomePoint(b);
      assert false;
    }
  }
}
