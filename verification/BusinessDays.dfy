/**
 Business-day arithmetic over naive dates (core/calendar.go). A date is its day
 number, day 0 being 1970-01-01; holidays are single dates and ranges of dates.
 The loops that step, add and count are proved against one notion: how many
 business days lie among the next k days in a direction.
 */
module BusinessDays {
  import opened Prelude

  // ----- Calendars -----

  /** A missing bound is an open end. */
  datatype Entry =
    | Single(day: int)
    | Span(start: Option<int>, end: Option<int>, startIncluded: bool, endIncluded: bool)

  datatype Calendar = Calendar(entries: seq<Entry>, validFrom: Option<int>, validTo: Option<int>)

  predicate EmptySpan(e: Entry)
    requires e.Span?
  {
    && e.start.Some? && e.end.Some?
    && (e.start.value > e.end.value || (e.start.value == e.end.value && (!e.startIncluded || !e.endIncluded)))
  }

  predicate Covers(e: Entry, day: int) {
    match e
    case Single(d) => d == day
    case Span(start, end, startIncluded, endIncluded) =>
      if EmptySpan(e) then false
      else if start.Some? && (day < start.value || (day == start.value && !startIncluded)) then false
      else if end.Some? && (day > end.value || (day == end.value && !endIncluded)) then false
      else true
  }

  /** A span covers exactly the days its bounds admit; the emptiness test never changes an answer. */
  lemma CoversIsMembership(e: Entry, day: int)
    requires e.Span?
    ensures Covers(e, day)
       <==> && (e.start.Some? ==> e.start.value < day || (e.start.value == day && e.startIncluded))
            && (e.end.Some? ==> day < e.end.value || (day == e.end.value && e.endIncluded))
  {
  }

  predicate IsHoliday(cal: Calendar, day: int) {
    exists e | e in cal.entries :: Covers(e, day)
  }

  method ContainsDay(cal: Calendar, day: int) returns (r: bool)
    ensures r <==> IsHoliday(cal, day)
  {
    for i := 0 to |cal.entries|
      invariant forall j | 0 <= j < i :: !Covers(cal.entries[j], day)
    {
      if Covers(cal.entries[i], day) {
        return true;
      }
    }
    return false;
  }

  /** 0 is Sunday; 1970-01-01 was a Thursday. */
  function Weekday(day: int): int {
    (day + 4) % 7
  }

  predicate IsWeekend(day: int) {
    Weekday(day) == 6 || Weekday(day) == 0
  }

  predicate IsBusiness(cal: Option<Calendar>, day: int) {
    !IsWeekend(day) && (cal.Some? ==> !IsHoliday(cal.value, day))
  }

  predicate OutOfRange(cal: Option<Calendar>, day: int) {
    && cal.Some?
    && ((cal.value.validFrom.Some? && day < cal.value.validFrom.value) || (cal.value.validTo.Some? && day > cal.value.validTo.value))
  }

  // ----- Working days, said of the calendar's entries -----

  /** The bounds of a range admit the day. */
  predicate Admits(start: Option<int>, end: Option<int>, startIncluded: bool, endIncluded: bool, day: int) {
    && (start.Some? ==> start.value < day || (start.value == day && startIncluded))
    && (end.Some? ==> day < end.value || (day == end.value && endIncluded))
  }

  /** Day 2 was a Saturday and day 3 a Sunday, and so on every seventh day. */
  predicate Works(cal: Option<Calendar>, day: int) {
    && day % 7 != 2 && day % 7 != 3
    && (cal.Some? ==> forall i | 0 <= i < |cal.value.entries| ::
          match cal.value.entries[i]
          case Single(d) => d != day
          case Span(start, end, si, ei) => !Admits(start, end, si, ei, day))
  }

  lemma WorksIff(cal: Option<Calendar>, day: int)
    ensures IsBusiness(cal, day) <==> Works(cal, day)
  {
    if cal.Some? {
      forall i | 0 <= i < |cal.value.entries| && cal.value.entries[i].Span?
        ensures var e := cal.value.entries[i]; Covers(e, day) <==> Admits(e.start, e.end, e.startIncluded, e.endIncluded, day)
      {
        CoversIsMembership(cal.value.entries[i], day);
      }
    }
  }

  function With(cal: Calendar, e: Entry): Calendar {
    cal.(entries := cal.entries + [e])
  }

  /** A single date takes exactly that day away; nothing else changes. */
  lemma SingleTakesOneDay(cal: Calendar, x: int, day: int)
    ensures IsBusiness(Some(With(cal, Single(x))), day) <==> IsBusiness(Some(cal), day) && day != x
  {
    var more := With(cal, Single(x)).entries;
    assert more[|cal.entries|] == Single(x);
    assert Single(x) in more && Covers(Single(x), x);
    if e :| e in cal.entries && Covers(e, day) {
      assert e in more;
    }
  }

  /** The calendar vouches for the days from validFrom to validTo, both included. */
  predicate Vouches(cal: Option<Calendar>, day: int) {
    cal.Some? ==> (cal.value.validFrom.Some? ==> cal.value.validFrom.value <= day) && (cal.value.validTo.Some? ==> day <= cal.value.validTo.value)
  }

  // ----- Counting -----

  /** The k-th day after d, or before it. */
  function At(d: int, forward: bool, k: nat): int {
    if forward then d + k else d - k
  }

  /** How many of the next k days are business days. */
  function Passed(cal: Option<Calendar>, d: int, forward: bool, k: nat): nat {
    if k == 0 then 0 else Passed(cal, d, forward, k - 1) + if IsBusiness(cal, At(d, forward, k)) then 1 else 0
  }

  /** How many business days there are from lo to hi, both included. */
  function Count(cal: Option<Calendar>, lo: int, hi: int): nat
    decreases hi - lo
  {
    if hi < lo then 0 else Count(cal, lo, hi - 1) + if IsBusiness(cal, hi) then 1 else 0
  }

  /** The walk ends at a day that is a business day or, in strict mode, outside the calendar. */
  predicate Halts(cal: Option<Calendar>, strict: bool, day: int) {
    IsBusiness(cal, day) || (strict && OutOfRange(cal, day))
  }

  ghost predicate InRangeUpTo(cal: Option<Calendar>, d: int, forward: bool, k: nat) {
    forall j: nat | 1 <= j <= k :: !OutOfRange(cal, At(d, forward, j))
  }

  lemma {:induction false} PassedMonotone(cal: Option<Calendar>, d: int, forward: bool, j: nat, k: nat)
    requires j <= k
    ensures Passed(cal, d, forward, j) <= Passed(cal, d, forward, k)
    ensures j < k && IsBusiness(cal, At(d, forward, k)) ==> Passed(cal, d, forward, j) < Passed(cal, d, forward, k)
    decreases k
  {
    if j < k {
      PassedMonotone(cal, d, forward, j, k - 1);
    }
  }

  lemma {:induction false} PassedNone(cal: Option<Calendar>, d: int, forward: bool, j: nat, k: nat)
    requires j <= k
    requires forall i: nat | j < i <= k :: !IsBusiness(cal, At(d, forward, i))
    ensures Passed(cal, d, forward, j) == Passed(cal, d, forward, k)
    decreases k
  {
    if j < k {
      PassedNone(cal, d, forward, j, k - 1);
    }
  }

  /** If more business days have passed by k than by j, one of them lies in between. */
  lemma {:induction false} PassedSome(cal: Option<Calendar>, d: int, forward: bool, j: nat, k: nat) returns (i: nat)
    requires Passed(cal, d, forward, j) < Passed(cal, d, forward, k)
    ensures j < i <= k && IsBusiness(cal, At(d, forward, i))
    decreases k
  {
    if k <= j {
      PassedMonotone(cal, d, forward, k, j);
      assert false;
    } else if IsBusiness(cal, At(d, forward, k)) {
      i := k;
    } else {
      i := PassedSome(cal, d, forward, j, k - 1);
    }
  }

  lemma {:induction false} PassedForward(cal: Option<Calendar>, d: int, k: nat)
    ensures Passed(cal, d, true, k) == Count(cal, d + 1, d + k)
  {
    if k > 0 {
      PassedForward(cal, d, k - 1);
    }
  }

  lemma {:induction false} CountFromBelow(cal: Option<Calendar>, lo: int, hi: int)
    requires lo <= hi
    ensures Count(cal, lo, hi) == Count(cal, lo + 1, hi) + if IsBusiness(cal, lo) then 1 else 0
    decreases hi - lo
  {
    if lo < hi {
      CountFromBelow(cal, lo, hi - 1);
    } else {
      assert Count(cal, lo, hi - 1) == 0;
    }
  }

  ghost function WorkingDays(cal: Option<Calendar>, lo: int, hi: int): set<int> {
    set x | lo <= x <= hi && Works(cal, x)
  }

  lemma {:induction false} CountIsSize(cal: Option<Calendar>, lo: int, hi: int)
    ensures Count(cal, lo, hi) == |WorkingDays(cal, lo, hi)|
    decreases hi - lo
  {
    var days := WorkingDays(cal, lo, hi);
    if hi < lo {
      assert days == {};
    } else {
      CountIsSize(cal, lo, hi - 1);
      WorksIff(cal, hi);
      var init := WorkingDays(cal, lo, hi - 1);
      assert hi !in init;
      assert days == if Works(cal, hi) then init + {hi} else init;
    }
  }

  /** A single date in the range costs one day, if it was a working day. */
  lemma {:induction false} SingleCounted(cal: Calendar, x: int, lo: int, hi: int)
    ensures Count(Some(With(cal, Single(x))), lo, hi)
         == Count(Some(cal), lo, hi) - if lo <= x <= hi && IsBusiness(Some(cal), x) then 1 else 0
    decreases hi - lo
  {
    if lo <= hi {
      SingleCounted(cal, x, lo, hi - 1);
      SingleTakesOneDay(cal, x, hi);
    }
  }

  lemma CountFromAbove(cal: Option<Calendar>, lo: int, hi: int)
    requires lo <= hi
    ensures Count(cal, lo, hi) == Count(cal, lo, hi - 1) + if IsBusiness(cal, hi) then 1 else 0
  {
  }

  lemma {:induction false} PassedBackward(cal: Option<Calendar>, d: int, k: nat)
    ensures Passed(cal, d, false, k) == Count(cal, d - k, d - 1)
  {
    if k > 0 {
      PassedBackward(cal, d, k - 1);
      CountFromBelow(cal, d - k, d - 1);
    }
  }

  // ----- Stepping -----

  /** The walk first halts on day k. */
  ghost predicate HaltsFirst(cal: Option<Calendar>, strict: bool, d: int, forward: bool, k: nat) {
    k >= 1 && Halts(cal, strict, At(d, forward, k)) && NoHalt(cal, strict, d, forward, k - 1)
  }

  /** None of the next k days halts the walk. */
  ghost predicate NoHalt(cal: Option<Calendar>, strict: bool, d: int, forward: bool, k: nat) {
    k == 0 || (!Halts(cal, strict, At(d, forward, k)) && NoHalt(cal, strict, d, forward, k - 1))
  }

  lemma {:induction false} NoHaltAt(cal: Option<Calendar>, strict: bool, d: int, forward: bool, k: nat, j: nat)
    requires NoHalt(cal, strict, d, forward, k) && 1 <= j <= k
    ensures !Halts(cal, strict, At(d, forward, j))
  {
    if j < k {
      NoHaltAt(cal, strict, d, forward, k - 1, j);
    }
  }

  function Reached(cal: Option<Calendar>, strict: bool, day: int): Outcome<int> {
    if strict && OutOfRange(cal, day) then Fail else Ok(day)
  }

  ghost predicate StepsTo(cal: Option<Calendar>, d: int, forward: bool, strict: bool, r: Outcome<int>) {
    exists k: nat :: HaltsFirst(cal, strict, d, forward, k) && r == Reached(cal, strict, At(d, forward, k))
  }

  predicate Beyond(d: int, forward: bool, day: int) {
    if forward then d < day else day < d
  }

  /** A working day with none before it on the way; in strict mode the way leads only over days the calendar vouches for. */
  ghost predicate Nearest(cal: Option<Calendar>, d: int, forward: bool, strict: bool, r: Outcome<int>) {
    match r
    case Ok(day) =>
      && Beyond(d, forward, day) && Works(cal, day) && (strict ==> Vouches(cal, day))
      && forall x | Beyond(d, forward, x) && Beyond(x, forward, day) :: !Works(cal, x) && (strict ==> Vouches(cal, x))
    case Fail =>
      strict && exists day :: Beyond(d, forward, day) && !Vouches(cal, day) && Clear(cal, d, forward, day)
  }

  /** No working day on the way to this one. */
  ghost predicate Clear(cal: Option<Calendar>, d: int, forward: bool, day: int) {
    forall x | Beyond(d, forward, x) && Beyond(x, forward, day) :: !Works(cal, x) && Vouches(cal, x)
  }

  lemma StepIsNearest(cal: Option<Calendar>, d: int, forward: bool, strict: bool, k: nat)
    requires HaltsFirst(cal, strict, d, forward, k)
    ensures Nearest(cal, d, forward, strict, Reached(cal, strict, At(d, forward, k)))
  {
    var day := At(d, forward, k);
    WorksIff(cal, day);
    forall x | Beyond(d, forward, x) && Beyond(x, forward, day) ensures !Works(cal, x) && (strict ==> Vouches(cal, x)) {
      var j: nat := if forward then x - d else d - x;
      assert At(d, forward, j) == x;
      NoHaltAt(cal, strict, d, forward, k - 1, j);
      WorksIff(cal, x);
    }
    if strict && OutOfRange(cal, day) {
      assert Clear(cal, d, forward, day);
    }
  }

  /** The nearest halting day in the direction; an error when the calendar's validity ends there. */
  method BusinessDayStep(cal: Option<Calendar>, d: int, forward: bool, strict: bool) returns (r: Outcome<int>)
    requires exists far: nat | far >= 1 :: Halts(cal, strict, At(d, forward, far))
    ensures StepsTo(cal, d, forward, strict, r)
    ensures Nearest(cal, d, forward, strict, r)
  {
    ghost var far: nat :| far >= 1 && Halts(cal, strict, At(d, forward, far));
    var step := if forward then 1 else -1;
    var t := d;
    ghost var k: nat := 0;
    while true
      invariant t == At(d, forward, k) && k < far
      invariant NoHalt(cal, strict, d, forward, k)
      decreases far - k
    {
      t := t + step;
      k := k + 1;
      if strict && OutOfRange(cal, t) {
        assert HaltsFirst(cal, strict, d, forward, k);
        StepIsNearest(cal, d, forward, strict, k);
        return Fail;
      }
      var off := IsOff(cal, t);
      if off {
        continue;
      }
      assert HaltsFirst(cal, strict, d, forward, k);
      StepIsNearest(cal, d, forward, strict, k);
      return Ok(t);
    }
  }

  /** A weekend day or a holiday. */
  method IsOff(cal: Option<Calendar>, day: int) returns (off: bool)
    ensures off <==> !IsBusiness(cal, day)
  {
    if IsWeekend(day) {
      return true;
    }
    if cal.Some? {
      off := ContainsDay(cal.value, day);
    } else {
      off := false;
    }
  }

  // ----- Adding -----

  /** k days on, n business days have passed and the last of them is that day. */
  ghost predicate IsNth(cal: Option<Calendar>, d: int, forward: bool, n: nat, k: nat) {
    Passed(cal, d, forward, k) == n && (k > 0 ==> n > 0 && IsBusiness(cal, At(d, forward, k)))
  }

  /** In strict mode the calendar ran out on day k, before n business days had passed. */
  ghost predicate RanOut(cal: Option<Calendar>, d: int, forward: bool, n: nat, k: nat) {
    && k >= 1 && OutOfRange(cal, At(d, forward, k))
    && Passed(cal, d, forward, k - 1) < n && InRangeUpTo(cal, d, forward, k - 1)
  }

  /** Far enough ahead n business days have passed or, in strict mode, the calendar has run out. */
  ghost predicate Finishes(cal: Option<Calendar>, d: int, forward: bool, strict: bool, n: nat) {
    exists far: nat :: Passed(cal, d, forward, far) >= n || (strict && far >= 1 && OutOfRange(cal, At(d, forward, far)))
  }

  function Magnitude(n: int): nat {
    if n < 0 then -n else n
  }

  /** The addition ended on day k: on the n-th business day, or where the calendar ran out. */
  ghost predicate Ended(cal: Option<Calendar>, d: int, forward: bool, strict: bool, n: nat, k: nat, r: Outcome<int>) {
    match r
    case Ok(day) => day == At(d, forward, k) && IsNth(cal, d, forward, n, k) && (strict ==> InRangeUpTo(cal, d, forward, k))
    case Fail => strict && RanOut(cal, d, forward, n, k)
  }

  ghost predicate Adds(cal: Option<Calendar>, d: int, forward: bool, strict: bool, n: nat, r: Outcome<int>) {
    exists k: nat :: Ended(cal, d, forward, strict, n, k, r)
  }

  /** The day is n working days on: that many lie past d up to it, and it is the last of them; for none, it is d. */
  ghost predicate IsDaysOn(cal: Option<Calendar>, d: int, forward: bool, n: nat, day: int) {
    && (n == 0 ==> day == d)
    && (n > 0 ==> Beyond(d, forward, day) && Works(cal, day))
    && |if forward then WorkingDays(cal, d + 1, day) else WorkingDays(cal, day, d - 1)| == n
  }

  lemma NthIsDaysOn(cal: Option<Calendar>, d: int, forward: bool, n: nat, k: nat)
    requires IsNth(cal, d, forward, n, k)
    ensures IsDaysOn(cal, d, forward, n, At(d, forward, k))
  {
    var day := At(d, forward, k);
    WorksIff(cal, day);
    PassedForward(cal, d, k);
    PassedBackward(cal, d, k);
    CountIsSize(cal, d + 1, day);
    CountIsSize(cal, day, d - 1);
  }

  /** Adding n business days, or taking n away; a negative n turns round. */
  method BusinessDayAdd(cal: Option<Calendar>, d: int, n: int, subtract: bool, strict: bool) returns (r: Outcome<int>)
    requires Finishes(cal, d, subtract == (n < 0), strict, Magnitude(n))
    ensures Adds(cal, d, subtract == (n < 0), strict, Magnitude(n), r)
    ensures r.Ok? ==> IsDaysOn(cal, d, subtract == (n < 0), Magnitude(n), r.value)
  {
    var forward := !subtract;
    var count := n;
    if count < 0 {
      forward := !forward;
      count := -count;
    }
    var cur := d;
    ghost var k: nat := 0;
    for i := 0 to count
      invariant Ended(cal, d, forward, strict, i, k, Ok(cur))
    {
      StepPossible(cal, d, forward, strict, count, i, k);
      var next := BusinessDayStep(cal, cur, forward, strict);
      k := OneMore(cal, d, forward, strict, i, k, cur, next);
      if next.Fail? {
        assert Ended(cal, d, forward, strict, count, k, Fail);
        return Fail;
      }
      cur := next.value;
    }
    NthIsDaysOn(cal, d, forward, count, k);
    return Ok(cur);
  }

  /** A step after i business days ends on the next one, or where the calendar runs out. */
  lemma OneMore(cal: Option<Calendar>, d: int, forward: bool, strict: bool, i: nat, k: nat, cur: int, next: Outcome<int>) returns (k': nat)
    requires Ended(cal, d, forward, strict, i, k, Ok(cur))
    requires StepsTo(cal, cur, forward, strict, next)
    ensures Ended(cal, d, forward, strict, i + 1, k', next)
  {
    var j: nat :| HaltsFirst(cal, strict, cur, forward, j) && next == Reached(cal, strict, At(cur, forward, j));
    AfterStep(cal, d, forward, strict, k, j);
    k' := k + j;
  }

  lemma StepPossible(cal: Option<Calendar>, d: int, forward: bool, strict: bool, n: nat, i: nat, k: nat)
    requires Finishes(cal, d, forward, strict, n) && i < n && IsNth(cal, d, forward, i, k)
    requires strict ==> InRangeUpTo(cal, d, forward, k)
    ensures exists far: nat | far >= 1 :: Halts(cal, strict, At(At(d, forward, k), forward, far))
  {
    var x: nat :| Passed(cal, d, forward, x) >= n || (strict && x >= 1 && OutOfRange(cal, At(d, forward, x)));
    if Passed(cal, d, forward, x) >= n {
      x := PassedSome(cal, d, forward, k, x);
    }
    assert x > k;
    assert At(At(d, forward, k), forward, x - k) == At(d, forward, x);
    assert Halts(cal, strict, At(At(d, forward, k), forward, x - k));
  }

  lemma AfterStep(cal: Option<Calendar>, d: int, forward: bool, strict: bool, k: nat, j: nat)
    requires HaltsFirst(cal, strict, At(d, forward, k), forward, j)
    requires strict ==> InRangeUpTo(cal, d, forward, k)
    ensures At(At(d, forward, k), forward, j) == At(d, forward, k + j)
    ensures Passed(cal, d, forward, k + j - 1) == Passed(cal, d, forward, k)
    ensures strict ==> InRangeUpTo(cal, d, forward, k + j - 1)
  {
    forall i: nat | k < i < k + j ensures !Halts(cal, strict, At(d, forward, i)) {
      assert At(At(d, forward, k), forward, i - k) == At(d, forward, i);
      NoHaltAt(cal, strict, At(d, forward, k), forward, j - 1, i - k);
    }
    PassedNone(cal, d, forward, k, k + j - 1);
  }

  // ----- Counting between two dates -----

  /** Business days between two dates, both included, in either order. */
  method BusinessDaysBetween(cal: Option<Calendar>, d1: int, d2: int, strict: bool) returns (r: Outcome<nat>)
    ensures r == if strict && (OutOfRange(cal, d1) || OutOfRange(cal, d2)) then Fail
                 else Ok(if d1 <= d2 then Count(cal, d1, d2) else Count(cal, d2, d1))
    ensures r.Fail? <==> strict && !(Vouches(cal, d1) && Vouches(cal, d2))
    ensures r.Ok? ==> r.value == |if d1 <= d2 then WorkingDays(cal, d1, d2) else WorkingDays(cal, d2, d1)|
  {
    if strict && cal.Some? {
      if OutOfRange(cal, d1) || OutOfRange(cal, d2) {
        return Fail;
      }
    }
    var a, b := d1, d2;
    if a > b {
      a, b := b, a;
    }
    var first := a;
    var count := 0;
    while a <= b
      invariant first <= a <= b + 1
      invariant count == Count(cal, first, a - 1)
    {
      var holiday := false;
      if cal.Some? {
        holiday := ContainsDay(cal.value, a);
      }
      if !IsWeekend(a) && !holiday {
        count := count + 1;
      }
      a := a + 1;
    }
    assert a - 1 == b;
    CountIsSize(cal, first, b);
    return Ok(count);
  }

  // ----- What the three operations say about each other -----

  /** There is only one n-th business day. */
  lemma NthUnique(cal: Option<Calendar>, d: int, forward: bool, n: nat, j: nat, k: nat)
    requires IsNth(cal, d, forward, n, j) && IsNth(cal, d, forward, n, k)
    ensures j == k
  {
    if j < k {
      PassedMonotone(cal, d, forward, j, k);
    } else if k < j {
      PassedMonotone(cal, d, forward, k, j);
    }
  }

  /** In strict mode an addition either succeeds or runs out, never both. */
  lemma StrictDecides(cal: Option<Calendar>, d: int, forward: bool, n: nat, k: nat, out: nat)
    requires IsNth(cal, d, forward, n, k) && InRangeUpTo(cal, d, forward, k)
    ensures !RanOut(cal, d, forward, n, out)
  {
    if out > k {
      PassedMonotone(cal, d, forward, k, out - 1);
    }
  }

  /** The inclusive count from d to its n-th business day is n, and one more when d is itself a business day. */
  lemma BetweenAfterAdd(cal: Option<Calendar>, d: int, forward: bool, n: nat, k: nat)
    requires IsNth(cal, d, forward, n, k)
    ensures (if forward then Count(cal, d, At(d, forward, k)) else Count(cal, At(d, forward, k), d))
         == n + if IsBusiness(cal, d) then 1 else 0
  {
    if forward {
      PassedForward(cal, d, k);
      CountFromBelow(cal, d, d + k);
    } else {
      PassedBackward(cal, d, k);
      CountFromAbove(cal, d - k, d);
    }
  }

  /** Going n business days one way and n back returns to the start exactly when that is a business day. */
  lemma ThereAndBack(cal: Option<Calendar>, d: int, forward: bool, n: nat, k: nat, back: nat)
    requires n > 0 && IsNth(cal, d, forward, n, k)
    requires IsNth(cal, At(d, forward, k), !forward, n, back)
    ensures At(At(d, forward, k), !forward, back) == d <==> IsBusiness(cal, d)
  {
    if IsBusiness(cal, d) {
      var r := At(d, forward, k);
      BetweenAfterAdd(cal, d, forward, n, k);
      if forward {
        PassedBackward(cal, r, k);
        assert Count(cal, d, r) == Count(cal, d, r - 1) + 1;
      } else {
        PassedForward(cal, r, k);
        CountFromBelow(cal, r, d);
      }
      assert IsNth(cal, r, !forward, n, k);
      NthUnique(cal, r, !forward, n, back, k);
    }
  }

  // ----- When a business day always lies ahead -----

  predicate OpenEntry(e: Entry, forward: bool) {
    e.Span? && if forward then e.end.None? else e.start.None?
  }

  predicate OpenAhead(cal: Option<Calendar>, forward: bool) {
    cal.Some? && exists e | e in cal.value.entries :: OpenEntry(e, forward)
  }

  /** The last day an entry could cover in the direction, once it is bounded there. */
  function Edge(e: Entry, forward: bool): int
    requires !OpenEntry(e, forward)
  {
    match e
    case Single(d) => d
    case Span(start, end, _, _) => if forward then end.value else start.value
  }

  lemma {:induction false} PastEdges(entries: seq<Entry>, forward: bool, d: int) returns (k: nat)
    requires forall e | e in entries :: !OpenEntry(e, forward)
    ensures forall e, j: nat | e in entries && k <= j :: !Covers(e, At(d, forward, j))
  {
    if entries == [] {
      k := 0;
    } else {
      var m := PastEdges(entries[1..], forward, d);
      var edge := Edge(entries[0], forward);
      var gap := if forward then edge - d + 1 else d - edge + 1;
      k := if gap < m then m else gap;
      forall e, j: nat | e in entries && k <= j ensures !Covers(e, At(d, forward, j)) {
        if e != entries[0] {
          assert e in entries[1..];
        }
      }
    }
  }

  lemma WeekdaySoon(d: int, forward: bool, k: nat) returns (j: nat)
    ensures k <= j <= k + 2 && !IsWeekend(At(d, forward, j))
  {
    if !IsWeekend(At(d, forward, k)) {
      j := k;
    } else if !IsWeekend(At(d, forward, k + 1)) {
      j := k + 1;
    } else {
      j := k + 2;
    }
  }

  lemma BusinessDayAhead(cal: Option<Calendar>, d: int, forward: bool) returns (j: nat)
    requires !OpenAhead(cal, forward)
    ensures j >= 1 && IsBusiness(cal, At(d, forward, j))
  {
    var k := 1;
    if cal.Some? {
      k := PastEdges(cal.value.entries, forward, d);
    }
    j := WeekdaySoon(d, forward, k + 1);
  }

  ghost predicate MoreAfter(cal: Option<Calendar>, d: int, forward: bool) {
    exists j: nat | j >= 1 :: IsBusiness(cal, At(d, forward, j))
  }

  ghost predicate AlwaysMore(cal: Option<Calendar>, forward: bool) {
    forall d :: MoreAfter(cal, d, forward)
  }

  /** The non-strict walk ends from every date exactly when no holiday range is open in its direction. */
  lemma WalkEndsIff(cal: Option<Calendar>, forward: bool)
    ensures AlwaysMore(cal, forward) <==> !OpenAhead(cal, forward)
  {
    if OpenAhead(cal, forward) {
      var e :| e in cal.value.entries && OpenEntry(e, forward);
      var d := if forward then (if e.start.Some? then e.start.value else 0) else (if e.end.Some? then e.end.value else 0);
      forall j: nat | j >= 1 ensures !IsBusiness(cal, At(d, forward, j)) {
        assert Covers(e, At(d, forward, j));
      }
      assert !MoreAfter(cal, d, forward);
    } else {
      forall d ensures MoreAfter(cal, d, forward) {
        var j := BusinessDayAhead(cal, d, forward);
      }
    }
  }

  /** So with bounded holidays every addition ends, in either mode. */
  lemma {:induction false} AdditionEnds(cal: Option<Calendar>, d: int, forward: bool, strict: bool, n: nat)
    requires !OpenAhead(cal, forward)
    ensures Finishes(cal, d, forward, strict, n)
  {
    var far := EnoughAhead(cal, d, forward, n);
  }

  lemma {:induction false} EnoughAhead(cal: Option<Calendar>, d: int, forward: bool, n: nat) returns (far: nat)
    requires !OpenAhead(cal, forward)
    ensures Passed(cal, d, forward, far) >= n
    decreases n
  {
    if n == 0 {
      far := 0;
    } else {
      var near := EnoughAhead(cal, d, forward, n - 1);
      var j := BusinessDayAhead(cal, At(d, forward, near), forward);
      far := near + j;
      assert At(At(d, forward, near), forward, j) == At(d, forward, far);
      PassedMonotone(cal, d, forward, near, far);
    }
  }
}
