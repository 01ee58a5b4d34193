/**
 Month arithmetic on naive dates and date-times (core/date.go, core/datetime.go):
 clamped month addition, whole months between two moments, and the fractional
 months and years measured between them, in exact arithmetic.
 */
module Months {

  // ----- The civil calendar -----

  const TICKS: int := 86_400_000_000_000 // nanoseconds in a day

  /** A wall-clock moment: a date and the nanoseconds since its midnight. */
  datatype Civil = Civil(y: int, m: int, d: int, tod: int)

  predicate Leap(y: int) {
    y % 4 == 0 && (y % 100 != 0 || y % 400 == 0)
  }

  function MonthLength(y: int, m: int): (n: int)
    requires 1 <= m <= 12
    ensures 28 <= n <= 31
  {
    if m == 2 then (if Leap(y) then 29 else 28)
    else if m == 4 || m == 6 || m == 9 || m == 11 then 30
    else 31
  }

  /** Thirty days have April, June, September and November; February has 28, or 29 in a leap year; the others have 31. */
  lemma MonthLengths(y: int)
    ensures MonthLength(y, 4) == MonthLength(y, 6) == MonthLength(y, 9) == MonthLength(y, 11) == 30
    ensures MonthLength(y, 1) == MonthLength(y, 3) == MonthLength(y, 5) == MonthLength(y, 7) == 31
    ensures MonthLength(y, 8) == MonthLength(y, 10) == MonthLength(y, 12) == 31
    ensures MonthLength(y, 2) == if y % 4 == 0 && (y % 100 != 0 || y % 400 == 0) then 29 else 28
  {
  }

  predicate Valid(c: Civil) {
    1 <= c.m <= 12 && 1 <= c.d <= MonthLength(c.y, c.m) && 0 <= c.tod < TICKS
  }

  /** Months counted from January of year 0. */
  function Index(c: Civil): int {
    12 * c.y + c.m - 1
  }

  function YearOf(i: int): int {
    i / 12
  }

  function MonthOf(i: int): (m: int)
    ensures 1 <= m <= 12
  {
    i % 12 + 1
  }

  lemma IndexParts(c: Civil)
    requires 1 <= c.m <= 12
    ensures YearOf(Index(c)) == c.y && MonthOf(Index(c)) == c.m
  {
  }

  /** Days from the start of year 1 to the start of year y. */
  function DaysToYear(y: int): int {
    365 * (y - 1) + (y - 1) / 4 - (y - 1) / 100 + (y - 1) / 400
  }

  /** Days from the start of year y to the first of month m. */
  function DaysToMonth(y: int, m: int): int
    requires 1 <= m <= 12
  {
    if m == 1 then 0 else DaysToMonth(y, m - 1) + MonthLength(y, m - 1)
  }

  /** The day number of the first of the month with index i. */
  function FirstDay(i: int): int {
    DaysToYear(YearOf(i)) + DaysToMonth(YearOf(i), MonthOf(i))
  }

  function Stamp(c: Civil): int
    requires Valid(c)
  {
    (FirstDay(Index(c)) + c.d - 1) * TICKS + c.tod
  }

  lemma YearLength(y: int)
    ensures DaysToYear(y + 1) - DaysToYear(y) == if Leap(y) then 366 else 365
  {
    QuotientStep(y, 4);
    QuotientStep(y, 100);
    QuotientStep(y, 400);
  }

  lemma QuotientStep(y: int, k: int)
    requires k == 4 || k == 100 || k == 400
    ensures y / k - (y - 1) / k == if y % k == 0 then 1 else 0
  {
  }

  lemma TwelveMonths(y: int)
    ensures DaysToMonth(y, 12) + MonthLength(y, 12) == if Leap(y) then 366 else 365
  {
    assert DaysToMonth(y, 1) == 0;
    assert DaysToMonth(y, 2) == DaysToMonth(y, 1) + MonthLength(y, 1);
    assert DaysToMonth(y, 3) == DaysToMonth(y, 2) + MonthLength(y, 2);
    assert DaysToMonth(y, 4) == DaysToMonth(y, 3) + MonthLength(y, 3);
    assert DaysToMonth(y, 5) == DaysToMonth(y, 4) + MonthLength(y, 4);
    assert DaysToMonth(y, 6) == DaysToMonth(y, 5) + MonthLength(y, 5);
    assert DaysToMonth(y, 7) == DaysToMonth(y, 6) + MonthLength(y, 6);
    assert DaysToMonth(y, 8) == DaysToMonth(y, 7) + MonthLength(y, 7);
    assert DaysToMonth(y, 9) == DaysToMonth(y, 8) + MonthLength(y, 8);
    assert DaysToMonth(y, 10) == DaysToMonth(y, 9) + MonthLength(y, 9);
    assert DaysToMonth(y, 11) == DaysToMonth(y, 10) + MonthLength(y, 10);
    assert DaysToMonth(y, 12) == DaysToMonth(y, 11) + MonthLength(y, 11);
  }

  lemma NextIndex(i: int)
    ensures i % 12 == 11 ==> YearOf(i + 1) == YearOf(i) + 1 && MonthOf(i + 1) == 1 && MonthOf(i) == 12
    ensures i % 12 != 11 ==> YearOf(i + 1) == YearOf(i) && MonthOf(i + 1) == MonthOf(i) + 1
  {
  }

  lemma NextFirst(y: int, m: int)
    requires 1 <= m <= 12
    ensures (if m == 12 then DaysToYear(y + 1) + DaysToMonth(y + 1, 1) else DaysToYear(y) + DaysToMonth(y, m + 1))
         == DaysToYear(y) + DaysToMonth(y, m) + MonthLength(y, m)
  {
    if m == 12 {
      YearLength(y);
      TwelveMonths(y);
    }
  }

  /** The months follow one another without gap or overlap. */
  lemma NextMonth(i: int)
    ensures FirstDay(i + 1) == FirstDay(i) + MonthLength(YearOf(i), MonthOf(i))
  {
    NextIndex(i);
    NextFirst(YearOf(i), MonthOf(i));
  }

  lemma {:induction false} MonthsApart(i: int, j: int)
    requires i <= j
    ensures FirstDay(i) + 28 * (j - i) <= FirstDay(j)
    decreases j - i
  {
    if i < j {
      MonthsApart(i, j - 1);
      NextMonth(j - 1);
    }
  }

  // ----- Adding months -----

  /** The month with index i, with the day clamped to its length. */
  function InMonth(i: int, d: int, tod: int): Civil {
    var last := MonthLength(YearOf(i), MonthOf(i));
    Civil(YearOf(i), MonthOf(i), if d > last then last else d, tod)
  }

  /** n months later, by flooring: the reference for the addition. */
  function Shift(c: Civil, n: int): Civil {
    InMonth(Index(c) + n, c.d, c.tod)
  }

  /** Go's division and remainder, which truncate toward zero. */
  function Quo(a: int, b: int): int
    requires b > 0
  {
    if a >= 0 then a / b else -(-a / b)
  }

  function Rem(a: int, b: int): int
    requires b > 0
  {
    a - b * Quo(a, b)
  }

  /** The last day of a month is the day before the first of the next. */
  method LastDayOf(year: int, month: int) returns (r: int)
    requires 1 <= month <= 12
    ensures r == MonthLength(year, month)
  {
    var i := 12 * year + month - 1;
    DaysBetweenFirsts(i, year, month);
    r := FirstDay(i + 1) - FirstDay(i);
  }

  lemma DaysBetweenFirsts(i: int, year: int, month: int)
    requires 1 <= month <= 12 && i == 12 * year + month - 1
    ensures FirstDay(i + 1) - FirstDay(i) == MonthLength(year, month)
  {
    NextMonth(i);
    IndexParts(Civil(year, month, 1, 0));
  }

  method AddMonthsClamped(t: Civil, totalMonths: int) returns (r: Civil)
    requires Valid(t)
    ensures r == Shift(t, totalMonths)
    ensures Valid(r) && 12 * r.y + r.m == 12 * t.y + t.m + totalMonths && r.tod == t.tod
    ensures r.d == t.d || (r.d < t.d && r.d == MonthLength(r.y, r.m))
  {
    var d := t.d;
    var base := t.m - 1 + totalMonths;
    var ny := t.y + Quo(base, 12);
    var nm := Rem(base, 12) + 1;
    if nm <= 0 {
      nm := nm + 12;
      ny := ny - 1;
    }
    assert 1 <= nm <= 12 && 12 * ny + nm - 1 == Index(t) + totalMonths;
    var last := LastDayOf(ny, nm);
    if d > last {
      d := last;
    }
    r := Civil(ny, nm, d, t.tod);
    IndexParts(r);
  }

  lemma ShiftValid(c: Civil, n: int)
    requires Valid(c)
    ensures Valid(Shift(c, n)) && Index(Shift(c, n)) == Index(c) + n
  {
  }

  /** A later month is a later moment; within a month the day decides, then the time of day. */
  lemma LaterMonth(a: Civil, b: Civil)
    requires Valid(a) && Valid(b) && Index(a) < Index(b)
    ensures Stamp(a) < Stamp(b)
  {
    IndexParts(a);
    NextMonth(Index(a));
    MonthsApart(Index(a) + 1, Index(b));
    assert FirstDay(Index(a)) + a.d - 1 < FirstDay(Index(b)) + b.d - 1;
  }

  lemma SameMonth(a: Civil, b: Civil)
    requires Valid(a) && Valid(b) && Index(a) == Index(b)
    ensures Stamp(a) <= Stamp(b) <==> (a.d < b.d || (a.d == b.d && a.tod <= b.tod))
  {
  }

  /** Adding more months never goes back, and each further month moves on. */
  lemma ShiftMonotone(c: Civil, n: int, k: int)
    requires Valid(c) && n < k
    ensures Valid(Shift(c, n)) && Valid(Shift(c, k))
    ensures Stamp(Shift(c, n)) < Stamp(Shift(c, k))
  {
    ShiftValid(c, n);
    ShiftValid(c, k);
    LaterMonth(Shift(c, n), Shift(c, k));
  }

  // ----- Whole months between two moments -----

  method WholeMonthsBetween(a: Civil, b: Civil) returns (months: int)
    requires Valid(a) && Valid(b)
    ensures months == WholeMonths(a, b)
  {
    months := (b.y - a.y) * 12 + (b.m - a.m);
    if months > 0 && b.d < a.d {
      months := months - 1;
    } else if months < 0 && b.d > a.d {
      months := months + 1;
    }
  }

  /** The difference of months, one nearer to zero when the last one is not complete. */
  function WholeMonths(a: Civil, b: Civil): int {
    var months := Index(b) - Index(a);
    if Short(a, b) then months - 1 else if Short(b, a) then months + 1 else months
  }

  /** The last month from a to b has not reached a's day. */
  predicate Short(a: Civil, b: Civil) {
    Index(a) < Index(b) && b.d < a.d
  }

  lemma Antisymmetric(a: Civil, b: Civil)
    ensures WholeMonths(b, a) == -WholeMonths(a, b)
  {
  }

  /** The whole months fit between a and b, unless the count ignored that b is earlier in the day. */
  lemma FitsIff(a: Civil, b: Civil)
    requires Valid(a) && Valid(b) && Stamp(a) <= Stamp(b)
    ensures Valid(Shift(a, WholeMonths(a, b)))
    ensures Stamp(Shift(a, WholeMonths(a, b))) <= Stamp(b)
       <==> !(Index(a) < Index(b) && a.d == b.d && b.tod < a.tod)
  {
    var w := WholeMonths(a, b);
    var s := Shift(a, w);
    OrderedIndex(a, b);
    ShiftValid(a, w);
    IndexParts(b);
    if Index(s) < Index(b) {
      LaterMonth(s, b);
    } else {
      IndexParts(a);
      SameMonth(s, b);
      SameMonth(a, a);
    }
  }

  /** One month more reaches b, unless the missing day was clamped to b's and b is later in the day. */
  lemma ReachesIff(a: Civil, b: Civil)
    requires Valid(a) && Valid(b) && Stamp(a) <= Stamp(b)
    ensures Valid(Shift(a, WholeMonths(a, b) + 1))
    ensures Stamp(b) <= Stamp(Shift(a, WholeMonths(a, b) + 1))
       <==> !(Short(a, b) && b.d == MonthLength(b.y, b.m) && a.tod < b.tod)
  {
    var w := WholeMonths(a, b);
    var s := Shift(a, w + 1);
    OrderedIndex(a, b);
    ShiftValid(a, w + 1);
    IndexParts(b);
    if Index(b) < Index(s) {
      LaterMonth(b, s);
    } else {
      SameMonth(b, s);
    }
  }

  lemma OrderedIndex(a: Civil, b: Civil)
    requires Valid(a) && Valid(b) && Stamp(a) <= Stamp(b)
    ensures Index(a) <= Index(b)
    ensures Index(a) == Index(b) ==> a.d < b.d || (a.d == b.d && a.tod <= b.tod)
  {
    if Index(b) < Index(a) {
      LaterMonth(b, a);
    } else if Index(a) == Index(b) {
      SameMonth(a, b);
    }
  }

  /** From 15 January noon to 15 February 6:00 counts as a month, but a month after the start is later. */
  lemma MonthTooFar()
    ensures var a, b := Civil(2025, 1, 15, TICKS / 2), Civil(2025, 2, 15, TICKS / 4);
            && Valid(a) && Valid(b) && Stamp(a) <= Stamp(b) && Valid(Shift(a, WholeMonths(a, b)))
            && Stamp(b) < Stamp(Shift(a, WholeMonths(a, b)))
  {
    var a, b := Civil(2025, 1, 15, TICKS / 2), Civil(2025, 2, 15, TICKS / 4);
    LaterMonth(a, b);
    FitsIff(a, b);
  }

  /** From 31 January to 28 February noon counts as no month, but a month after the start has gone by. */
  lemma MonthMissed()
    ensures var a, b := Civil(2025, 1, 31, 0), Civil(2025, 2, 28, TICKS / 2);
            && Valid(a) && Valid(b) && Stamp(a) <= Stamp(b) && Valid(Shift(a, WholeMonths(a, b) + 1))
            && Stamp(Shift(a, WholeMonths(a, b) + 1)) < Stamp(b)
  {
    var a, b := Civil(2025, 1, 31, 0), Civil(2025, 2, 28, TICKS / 2);
    LaterMonth(a, b);
    ReachesIff(a, b);
  }

  /** For dates both bounds always hold. */
  lemma DatesBracketed(a: Civil, b: Civil)
    requires Valid(a) && Valid(b) && a.tod == 0 && b.tod == 0 && Stamp(a) <= Stamp(b)
    ensures Valid(Shift(a, WholeMonths(a, b))) && Valid(Shift(a, WholeMonths(a, b) + 1))
    ensures Stamp(Shift(a, WholeMonths(a, b))) <= Stamp(b) <= Stamp(Shift(a, WholeMonths(a, b) + 1))
    ensures 0 <= WholeMonths(a, b)
  {
    FitsIff(a, b);
    ReachesIff(a, b);
    OrderedIndex(a, b);
  }

  // ----- Fractional months and years -----

  function Midnight(c: Civil): Civil {
    c.(tod := 0)
  }

  /** Whole units from t1 to t2; a unit is `step` months. */
  function FullUnits(t1: Civil, t2: Civil, step: int): int
    requires step == 1 || step == 12
  {
    if step == 12 then Quo(WholeMonths(t1, t2), 12) else WholeMonths(t1, t2)
  }

  function Part(residual: int, window: int): real {
    if window == 0 then 0.0 else residual as real / window as real
  }

  /** How much of the time from `anchor` to `next` has gone by at t. */
  function Elapsed(anchor: Civil, next: Civil, t: Civil): real
    requires Valid(anchor) && Valid(next) && Valid(t)
  {
    Part(Stamp(t) - Stamp(anchor), Stamp(next) - Stamp(anchor))
  }

  /** Whole units, and the fraction of the unit under way; nanoseconds stand for the seconds. */
  function CalendarUnits(t1: Civil, t2: Civil, step: int): real
    requires Valid(t1) && Valid(t2) && (step == 1 || step == 12)
  {
    var full := FullUnits(t1, t2, step);
    ShiftValid(t1, full * step);
    ShiftValid(t1, (full + 1) * step);
    full as real + Elapsed(Shift(t1, full * step), Shift(t1, (full + 1) * step), t2)
  }

  /** Signed units between two moments, by their dates. */
  function DiffUnits(t1: Civil, t2: Civil, step: int): real
    requires Valid(t1) && Valid(t2) && (step == 1 || step == 12)
  {
    var a, b := Midnight(t1), Midnight(t2);
    if Stamp(a) > Stamp(b) then -CalendarUnits(b, a, step) else CalendarUnits(a, b, step)
  }

  lemma ElapsedBounds(anchor: Civil, next: Civil, t: Civil)
    requires Valid(anchor) && Valid(next) && Valid(t)
    requires Stamp(anchor) <= Stamp(t) <= Stamp(next) && Stamp(anchor) < Stamp(next)
    ensures 0.0 <= Elapsed(anchor, next, t) <= 1.0
    ensures Elapsed(anchor, next, t) == 0.0 <==> Stamp(t) == Stamp(anchor)
    ensures Elapsed(anchor, next, t) == 1.0 <==> Stamp(t) == Stamp(next)
  {
    Ratio(Stamp(t) - Stamp(anchor), Stamp(next) - Stamp(anchor));
  }

  lemma Ratio(r: int, w: int)
    requires 0 <= r <= w && 0 < w
    ensures 0.0 <= Part(r, w) <= 1.0
    ensures Part(r, w) == 0.0 <==> r == 0
    ensures Part(r, w) == 1.0 <==> r == w
  {
  }

  /** The unit under way brackets b. */
  lemma UnitBrackets(a: Civil, b: Civil, low: int, high: int)
    requires Valid(a) && Valid(b) && a.tod == 0 && b.tod == 0 && Stamp(a) <= Stamp(b)
    requires low <= WholeMonths(a, b) < high
    ensures Valid(Shift(a, low)) && Valid(Shift(a, high))
    ensures Stamp(Shift(a, low)) <= Stamp(b) <= Stamp(Shift(a, high)) && Stamp(Shift(a, low)) < Stamp(Shift(a, high))
  {
    var w := WholeMonths(a, b);
    DatesBracketed(a, b);
    ShiftMonotone(a, low, high);
    if low < w {
      ShiftMonotone(a, low, w);
    }
    if w + 1 < high {
      ShiftMonotone(a, w + 1, high);
    }
  }

  /** The fraction never leaves the unit under way, for months and for years. */
  lemma UnitsBracketed(a: Civil, b: Civil, step: int)
    requires Valid(a) && Valid(b) && a.tod == 0 && b.tod == 0 && Stamp(a) <= Stamp(b)
    requires step == 1 || step == 12
    ensures FullUnits(a, b, step) == WholeMonths(a, b) / step && 0 <= FullUnits(a, b, step)
    ensures FullUnits(a, b, step) as real <= CalendarUnits(a, b, step) <= FullUnits(a, b, step) as real + 1.0
  {
    DatesBracketed(a, b);
    var full := FullUnits(a, b, step);
    var low, high := UnitMonths(WholeMonths(a, b), full, step);
    UnitBrackets(a, b, low, high);
    UnitsAre(a, b, step, low, high);
    ElapsedBounds(Shift(a, low), Shift(a, high), b);
  }

  lemma UnitMonths(w: int, full: int, step: int) returns (low: int, high: int)
    requires step == 1 || step == 12
    requires 0 <= w && full == if step == 12 then Quo(w, 12) else w
    ensures low == full * step && high == (full + 1) * step
    ensures low <= w < high && full == w / step && 0 <= full
  {
    low, high := full * step, (full + 1) * step;
  }

  lemma UnitsAre(a: Civil, b: Civil, step: int, low: int, high: int)
    requires Valid(a) && Valid(b) && (step == 1 || step == 12)
    requires low == FullUnits(a, b, step) * step && high == (FullUnits(a, b, step) + 1) * step
    requires Valid(Shift(a, low)) && Valid(Shift(a, high))
    ensures CalendarUnits(a, b, step) == FullUnits(a, b, step) as real + Elapsed(Shift(a, low), Shift(a, high), b)
  {
  }

  lemma SameDay(a: Civil, step: int)
    requires Valid(a) && a.tod == 0 && (step == 1 || step == 12)
    ensures CalendarUnits(a, a, step) == 0.0
  {
    IndexParts(a);
    assert Shift(a, 0) == a;
    UnitBrackets(a, a, 0, step);
    ElapsedBounds(a, Shift(a, step), a);
  }

  lemma SameStamp(a: Civil, b: Civil)
    requires Valid(a) && Valid(b) && Stamp(a) == Stamp(b)
    ensures a == b
  {
    OrderedIndex(a, b);
    OrderedIndex(b, a);
    IndexParts(a);
    IndexParts(b);
  }

  /** Swapping the two moments changes the sign and nothing else. */
  lemma DiffAntisymmetric(t1: Civil, t2: Civil, step: int)
    requires Valid(t1) && Valid(t2) && (step == 1 || step == 12)
    ensures DiffUnits(t1, t2, step) == -DiffUnits(t2, t1, step)
  {
    var a, b := Midnight(t1), Midnight(t2);
    if Stamp(a) == Stamp(b) {
      SameStamp(a, b);
      SameDay(a, step);
    }
  }

  lemma MonthUnits(a: Civil, b: Civil)
    requires Valid(a) && Valid(b)
    ensures Valid(Shift(a, WholeMonths(a, b))) && Valid(Shift(a, WholeMonths(a, b) + 1))
    ensures CalendarUnits(a, b, 1)
         == WholeMonths(a, b) as real + Elapsed(Shift(a, WholeMonths(a, b)), Shift(a, WholeMonths(a, b) + 1), b)
  {
    ShiftValid(a, WholeMonths(a, b));
    ShiftValid(a, WholeMonths(a, b) + 1);
  }

  /** What the months from a to b measure: whole months alone if b is where they end, one more if b is where the next ends. */
  lemma MonthUnitsAt(a: Civil, b: Civil)
    requires Valid(a) && Valid(b) && a.tod == 0 && b.tod == 0 && Stamp(a) <= Stamp(b)
    ensures CalendarUnits(a, b, 1) == WholeMonths(a, b) as real <==> b == Shift(a, WholeMonths(a, b))
    ensures CalendarUnits(a, b, 1) == WholeMonths(a, b) as real + 1.0 <==> b == Shift(a, WholeMonths(a, b) + 1)
  {
    var w := WholeMonths(a, b);
    MonthUnits(a, b);
    UnitBrackets(a, b, w, w + 1);
    var anchor, next := Shift(a, w), Shift(a, w + 1);
    ElapsedBounds(anchor, next, b);
    if Stamp(anchor) == Stamp(b) {
      SameStamp(anchor, b);
    }
    if Stamp(next) == Stamp(b) {
      SameStamp(next, b);
    }
  }

  /** Going forward, n months on measures as exactly n months, clamped or not. */
  lemma ForwardMeasures(a: Civil, n: nat)
    requires Valid(a) && a.tod == 0
    ensures Valid(Shift(a, n)) && Stamp(a) <= Stamp(Shift(a, n))
    ensures CalendarUnits(a, Shift(a, n), 1) == n as real
  {
    var b := Shift(a, n);
    ShiftValid(a, n);
    IndexParts(a);
    if n == 0 {
      assert b == a;
      SameDay(a, 1);
    } else {
      LaterMonth(a, b);
      MonthUnitsAt(a, b);
    }
  }

  /** Measured back from the later date, the distance is exact only if the day was not clamped. */
  lemma BackwardMeasures(a: Civil, n: int)
    requires Valid(a) && a.tod == 0 && n > 0
    ensures Valid(Shift(a, -n)) && Stamp(Shift(a, -n)) < Stamp(a)
    ensures CalendarUnits(Shift(a, -n), a, 1) == n as real <==> Shift(a, -n).d == a.d
  {
    var b := Shift(a, -n);
    ShiftValid(a, -n);
    LaterMonth(b, a);
    IndexParts(a);
    assert WholeMonths(b, a) == n;
    MonthUnitsAt(b, a);
  }

  /** monthsBetween(t, t + n months) is n exactly when n is not negative or the day survives. */
  lemma MeasuresIff(a: Civil, n: int)
    requires Valid(a) && a.tod == 0
    ensures Valid(Shift(a, n))
    ensures DiffUnits(a, Shift(a, n), 1) == n as real <==> (n >= 0 || Shift(a, n).d == a.d)
  {
    if n >= 0 {
      ForwardMeasures(a, n);
    } else {
      BackwardMeasures(a, -n);
    }
  }

  /** Going back with the day clamped always measures as more than the months gone back. */
  lemma ClampedMeasuresMore(a: Civil, n: int)
    requires Valid(a) && a.tod == 0 && n < 0 && Shift(a, n).d != a.d
    ensures Valid(Shift(a, n)) && DiffUnits(a, Shift(a, n), 1) < n as real
  {
    BackwardMeasures(a, -n);
    ShiftValid(a, n);
    var b := Shift(a, n);
    IndexParts(a);
    assert WholeMonths(b, a) == -n;
    UnitsBracketed(b, a, 1);
  }

  /** A month before 31 March is the last of February, and that measures as more than a month. */
  lemma MarchToFebruary(y: int)
    ensures var a := Civil(y, 3, 31, 0);
            && Valid(a) && Shift(a, -1) == Civil(y, 2, MonthLength(y, 2), 0) && Valid(Shift(a, -1))
            && DiffUnits(a, Shift(a, -1), 1) < -1.0
  {
    var a := Civil(y, 3, 31, 0);
    IndexParts(Civil(y, 2, 1, 0));
    ClampedMeasuresMore(a, -1);
  }

  // ----- The fraction in days -----

  /** The number of the day, counted from the start of year 1. */
  function DayNumber(c: Civil): int
    requires 1 <= c.m <= 12
  {
    DaysToYear(c.y) + DaysToMonth(c.y, c.m) + c.d - 1
  }

  lemma StampOfDate(c: Civil)
    requires Valid(c) && c.tod == 0
    ensures Stamp(c) == DayNumber(c) * TICKS
  {
    IndexParts(c);
  }

  lemma Cancels(k: int, n: int, t: int)
    requires n > 0 && t > 0 && n * t > 0
    ensures (k * t) as real / (n * t) as real == k as real / n as real
  {
    var x := k as real / n as real;
    assert x * n as real == k as real;
    assert (k * t) as real == k as real * t as real && (n * t) as real == n as real * t as real;
    Divided((k * t) as real, (n * t) as real, x);
  }

  lemma Divided(a: real, b: real, x: real)
    requires b != 0.0 && a == x * b
    ensures a / b == x
  {
  }

  /** k days into a unit of n days, the fraction is k over n. */
  lemma ElapsedInDays(anchor: Civil, next: Civil, t: Civil)
    requires Valid(anchor) && Valid(next) && Valid(t) && anchor.tod == 0 && next.tod == 0 && t.tod == 0
    requires DayNumber(anchor) < DayNumber(next)
    ensures Elapsed(anchor, next, t)
         == (DayNumber(t) - DayNumber(anchor)) as real / (DayNumber(next) - DayNumber(anchor)) as real
  {
    StampOfDate(anchor);
    StampOfDate(next);
    StampOfDate(t);
    var k, n := DayNumber(t) - DayNumber(anchor), DayNumber(next) - DayNumber(anchor);
    assert Stamp(t) - Stamp(anchor) == k * TICKS && Stamp(next) - Stamp(anchor) == n * TICKS;
    Cancels(k, n, TICKS);
  }

  /** The whole units that fit and the two dates that bracket b, with b's share of the days between them. */
  lemma DatesMeasured(a: Civil, b: Civil, step: int, full: int) returns (low: int, high: int)
    requires Valid(a) && Valid(b) && a.tod == 0 && b.tod == 0 && Stamp(a) <= Stamp(b)
    requires (step == 1 || step == 12) && full == FullUnits(a, b, step)
    ensures full == WholeMonths(a, b) / step && 0 <= full && low == full * step && high == (full + 1) * step
    ensures Valid(Shift(a, low)) && Valid(Shift(a, high))
    ensures DayNumber(Shift(a, low)) <= DayNumber(b) <= DayNumber(Shift(a, high)) && DayNumber(Shift(a, low)) < DayNumber(Shift(a, high))
    ensures CalendarUnits(a, b, step) == full as real + Elapsed(Shift(a, low), Shift(a, high), b)
  {
    DatesBracketed(a, b);
    low, high := UnitMonths(WholeMonths(a, b), full, step);
    UnitBrackets(a, b, low, high);
    UnitsAre(a, b, step, low, high);
    StampOfDate(b);
    StampOfDate(Shift(a, low));
    StampOfDate(Shift(a, high));
  }

  /** k days past the anchor, in a unit of n days. */
  function Share(anchor: int, next: int, day: int): real
    requires anchor < next
  {
    (day - anchor) as real / (next - anchor) as real
  }

  lemma LaterDate(a: Civil, b: Civil, step: int)
    requires Valid(a) && Valid(b) && a.tod == 0 && b.tod == 0 && DayNumber(a) <= DayNumber(b) && (step == 1 || step == 12)
    ensures Stamp(a) <= Stamp(b) && DiffUnits(a, b, step) == CalendarUnits(a, b, step)
  {
    StampOfDate(a);
    StampOfDate(b);
    assert Midnight(a) == a && Midnight(b) == b;
  }

  /**
   Between two dates: the whole units, and the days past the last of them over the
   days of the unit under way.
   */
  lemma DatesInDays(a: Civil, b: Civil, step: int) returns (full: int, anchor: Civil, next: Civil)
    requires Valid(a) && Valid(b) && a.tod == 0 && b.tod == 0 && DayNumber(a) <= DayNumber(b) && (step == 1 || step == 12)
    ensures 0 <= full == WholeMonths(a, b) / step && anchor == Shift(a, full * step) && next == Shift(a, (full + 1) * step)
    ensures Valid(anchor) && Valid(next) && DayNumber(anchor) <= DayNumber(b) <= DayNumber(next) && DayNumber(anchor) < DayNumber(next)
    ensures DiffUnits(a, b, step) == full as real + Share(DayNumber(anchor), DayNumber(next), DayNumber(b))
  {
    LaterDate(a, b, step);
    full := FullUnits(a, b, step);
    var low, high := DatesMeasured(a, b, step, full);
    anchor, next := Shift(a, low), Shift(a, high);
    ElapsedShare(anchor, next, b);
  }

  lemma ElapsedShare(anchor: Civil, next: Civil, t: Civil)
    requires Valid(anchor) && Valid(next) && Valid(t) && anchor.tod == 0 && next.tod == 0 && t.tod == 0
    requires DayNumber(anchor) < DayNumber(next)
    ensures Elapsed(anchor, next, t) == Share(DayNumber(anchor), DayNumber(next), DayNumber(t))
  {
    ElapsedInDays(anchor, next, t);
  }

  /** The time of day does not count. */
  lemma TimeOfDayIgnored(t1: Civil, t2: Civil, x1: int, x2: int, step: int)
    requires Valid(t1) && Valid(t2) && 0 <= x1 < TICKS && 0 <= x2 < TICKS && (step == 1 || step == 12)
    ensures Valid(t1.(tod := x1)) && Valid(t2.(tod := x2))
    ensures DiffUnits(t1.(tod := x1), t2.(tod := x2), step) == DiffUnits(t1, t2, step)
  {
    assert Midnight(t1.(tod := x1)) == Midnight(t1) && Midnight(t2.(tod := x2)) == Midnight(t2);
  }
}
