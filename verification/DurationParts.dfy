/**
 Days-time durations (core/days_time_duration.go) as exact decimals: a total of
 a / 10^scale seconds. Quotients are rounded to 34 fractional digits, half away
 from zero (core/number.go), before they are floored, so the parts of a duration
 are right only while no quotient is rounded up to the next whole number.
 */
module DurationParts {

  const TEN34: int := 10_000_000_000_000_000_000_000_000_000_000_000

  function Pow10(n: nat): (p: int)
    ensures p >= 1
  {
    if n == 0 then 1 else 10 * Pow10(n - 1)
  }

  lemma {:induction false} Pow10Grows(m: nat, n: nat)
    requires m <= n
    ensures Pow10(m) <= Pow10(n)
    decreases n
  {
    if m < n {
      Pow10Grows(m, n - 1);
    }
  }

  // ----- Rounded division -----

  function Abs(a: int): nat {
    if a < 0 then -a else a
  }

  function Sign(a: int): int {
    if a < 0 then -1 else if a == 0 then 0 else 1
  }

  /** Division truncated toward zero. */
  function Truncated(a: int, d: int): int
    requires d > 0
  {
    if a >= 0 then a / d else -(-a / d)
  }

  /** a / d in units of the 34th fractional digit, rounded half away from zero. */
  function Rounded(a: int, d: int): int
    requires d > 0
  {
    var q := Truncated(a * TEN34, d);
    var r := a * TEN34 - q * d;
    if 2 * Abs(r) < d then q else if a < 0 then q - 1 else q + 1
  }

  function FloorOfRounded(a: int, d: int): int
    requires d > 0
  {
    Rounded(a, d) / TEN34
  }

  function TruncOfRounded(a: int, d: int): int
    requires d > 0
  {
    Truncated(Rounded(a, d), TEN34)
  }

  /** a / d is so close below a whole number that 34 digits round it up to that number. */
  predicate RoundsUp(a: int, d: int)
    requires d > 0
  {
    2 * TEN34 * (d - a % d) <= d
  }

  // ----- Division facts -----

  lemma AtLeast(d: int, x: int)
    requires d > 0 && x >= 1
    ensures d * x >= d
  {
  }

  lemma SameQuotient(q: int, r: int, k: int, m: int, d: int)
    requires d > 0 && d * q + r == d * k + m && 0 <= r < d && 0 <= m < d
    ensures q == k && r == m
  {
    if q > k {
      AtLeast(d, q - k);
      assert false;
    }
    if q < k {
      AtLeast(d, k - q);
      assert false;
    }
  }

  lemma Divides(a: int, d: int)
    requires d > 0
    ensures a == d * (a / d) + a % d && 0 <= a % d < d
  {
  }

  lemma QuotientIs(a: int, d: int, k: int, m: int)
    requires d > 0 && a == d * k + m && 0 <= m < d
    ensures a / d == k && a % d == m
  {
    Divides(a, d);
    SameQuotient(a / d, a % d, k, m, d);
  }

  lemma QuotientNotNegative(a: nat, d: int)
    requires d > 0
    ensures a / d >= 0
  {
    Divides(a, d);
    NotNegative(a, d, a / d, a % d);
  }

  lemma NotNegative(a: nat, d: int, q: int, r: int)
    requires d > 0 && a == d * q + r && r < d
    ensures q >= 0
  {
    if q < 0 {
      AtLeast(d, -q);
      assert false;
    }
  }

  lemma QuotientBounds(a: nat, d: int, n: int)
    requires d > 0 && a < n * d
    ensures 0 <= a / d < n
  {
    Divides(a, d);
    if a / d >= n {
      AtLeast(d, a / d - n + 1);
      assert false;
    }
  }

  // ----- The rounded quotient -----

  lemma ScaledUp(a: int, d: int, k: int, m: int, u: int, v: int)
    requires a == d * k + m && m * TEN34 == d * u + v
    ensures a * TEN34 == d * (k * TEN34 + u) + v
  {
  }

  lemma RoundedIs(a: nat, d: int, k: int, m: int, u: int, v: int)
    requires d > 0 && a == d * k + m && m * TEN34 == d * u + v && 0 <= v < d
    ensures Rounded(a, d) == k * TEN34 + u + if 2 * v < d then 0 else 1
  {
    ScaledUp(a, d, k, m, u, v);
    QuotientIs(a * TEN34, d, k * TEN34 + u, v);
  }

  /** The fraction's 34 digits are all nines and round up exactly when it is that close to 1. */
  lemma AllNines(m: int, d: int, u: int, v: int)
    requires 0 <= m < d && m * TEN34 == d * u + v && 0 <= v < d && 0 <= u < TEN34
    ensures (u == TEN34 - 1 && 2 * v >= d) <==> 2 * TEN34 * (d - m) <= d
  {
    if u < TEN34 - 1 {
      AtLeast(d, TEN34 - 1 - u);
    }
  }

  /** The rounded quotient floors to the true one, or to one more exactly when it rounds up. */
  lemma FloorIsTrue(a: nat, d: int)
    requires d > 0
    ensures FloorOfRounded(a, d) == a / d + if RoundsUp(a, d) then 1 else 0
    ensures TruncOfRounded(a, d) == FloorOfRounded(a, d) >= 0
  {
    var k, m := a / d, a % d;
    Divides(a, d);
    QuotientNotNegative(a, d);
    FloorIsTrueFor(a, d, k, m);
  }

  lemma FloorIsTrueFor(a: nat, d: int, k: int, m: int)
    requires d > 0 && a == d * k + m && 0 <= m < d && 0 <= k
    ensures FloorOfRounded(a, d) == k + if 2 * TEN34 * (d - m) <= d then 1 else 0
    ensures TruncOfRounded(a, d) == FloorOfRounded(a, d)
  {
    var u, v := m * TEN34 / d, m * TEN34 % d;
    Divides(m * TEN34, d);
    QuotientBounds(m * TEN34, d, TEN34);
    RoundedIs(a, d, k, m, u, v);
    AllNines(m, d, u, v);
  }

  lemma TruncatedOdd(a: int, d: int)
    requires d > 0
    ensures Truncated(-a, d) == -Truncated(a, d)
  {
  }

  lemma RoundedOdd(a: int, d: int)
    requires d > 0
    ensures Rounded(-a, d) == -Rounded(a, d)
  {
    TruncatedOdd(a * TEN34, d);
    var q := Truncated(a * TEN34, d);
    assert (-a) * TEN34 == -(a * TEN34);
    assert (-q) * d == -(q * d);
    if a == 0 {
      assert q == 0;
    }
  }

  // ----- The parts that are printed -----

  /** Days, hours and minutes are whole; seconds are in units of 10^-scale. */
  datatype Parts = Parts(days: int, hours: int, minutes: int, seconds: int)

  function Day(scale: nat): (d: int)
    ensures d > 0
  {
    86400 * Pow10(scale)
  }

  function Hour(scale: nat): (d: int)
    ensures d > 0
  {
    3600 * Pow10(scale)
  }

  function Minute(scale: nat): (d: int)
    ensures d > 0
  {
    60 * Pow10(scale)
  }

  /** Each part is floored from the rounded quotient of what the larger parts left over. */
  function PartsOf(a: int, scale: nat): Parts {
    var days := FloorOfRounded(a, Day(scale));
    var afterDays := a - Day(scale) * days;
    var hours := FloorOfRounded(afterDays, Hour(scale));
    var afterHours := afterDays - Hour(scale) * hours;
    var minutes := FloorOfRounded(afterHours, Minute(scale));
    Parts(days, hours, minutes, afterHours - Minute(scale) * minutes)
  }

  function Total(parts: Parts, scale: nat): int {
    Day(scale) * parts.days + Hour(scale) * parts.hours + Minute(scale) * parts.minutes + parts.seconds
  }

  predicate InRange(parts: Parts, scale: nat) {
    0 <= parts.days && 0 <= parts.hours < 24 && 0 <= parts.minutes < 60 && 0 <= parts.seconds < Minute(scale)
  }

  predicate NonNegative(parts: Parts) {
    parts.days >= 0 && parts.hours >= 0 && parts.minutes >= 0 && parts.seconds >= 0
  }

  /** The parts always add up to the total, rounded or not. */
  lemma PartsAddUp(a: int, scale: nat)
    ensures Total(PartsOf(a, scale), scale) == a
  {
  }

  /** None of the three quotients is rounded up to a whole number. */
  predicate Exact(a: int, scale: nat) {
    !RoundsUp(a, Day(scale)) && !RoundsUp(a, Hour(scale)) && !RoundsUp(a, Minute(scale))
  }

  /** Taking the floored quotient away leaves the true remainder, or less than nothing when it rounded up. */
  lemma Leaves(a: nat, d: int)
    requires d > 0
    ensures a - d * FloorOfRounded(a, d) == a % d - if RoundsUp(a, d) then d else 0
    ensures FloorOfRounded(a, d) >= 0
  {
    Divides(a, d);
    FloorIsTrue(a, d);
    Subtracted(a, d, a / d, a % d, FloorOfRounded(a, d));
  }

  lemma Subtracted(a: int, d: int, k: int, m: int, q: int)
    requires a == d * k + m
    ensures q == k ==> a - d * q == m
    ensures q == k + 1 ==> a - d * q == m - d
  {
  }

  /** A smaller unit that divides a larger one sees the same remainder and rounds the same way. */
  lemma SameRemainder(a: nat, d: int, e: int, n: int)
    requires e > 0 && n > 0 && d == n * e
    ensures (a % d) % e == a % e && 0 <= (a % d) / e < n
    ensures RoundsUp(a % d, e) <==> RoundsUp(a, e)
  {
    var r := a % d;
    Divides(a, d);
    Divides(r, e);
    Regroup(a, a / d, r, d, e, n, r / e, r % e);
    QuotientIs(a, e, n * (a / d) + r / e, r % e);
    QuotientBounds(r, e, n);
  }

  lemma Regroup(a: int, q: int, r: int, d: int, e: int, n: int, k: int, m: int)
    requires d == n * e && a == d * q + r && r == e * k + m
    ensures a == e * (n * q + k) + m
  {
    calc {
      a;
      (n * e) * q + e * k + m;
      e * (n * q) + e * k + m;
      e * (n * q + k) + m;
    }
  }

  lemma HoursAreRight(a: nat, scale: nat)
    requires !RoundsUp(a, Day(scale))
    ensures a - Day(scale) * PartsOf(a, scale).days == a % Day(scale)
    ensures PartsOf(a, scale).hours == (a % Day(scale)) / Hour(scale) + if RoundsUp(a, Hour(scale)) then 1 else 0
    ensures 0 <= (a % Day(scale)) / Hour(scale) < 24
  {
    Leaves(a, Day(scale));
    SameRemainder(a, Day(scale), Hour(scale), 24);
    FloorIsTrue(a % Day(scale), Hour(scale));
  }

  lemma MinutesAreRight(a: nat, scale: nat)
    requires !RoundsUp(a, Day(scale)) && !RoundsUp(a, Hour(scale))
    ensures a - Day(scale) * PartsOf(a, scale).days - Hour(scale) * PartsOf(a, scale).hours == a % Hour(scale)
    ensures PartsOf(a, scale).minutes == (a % Hour(scale)) / Minute(scale) + if RoundsUp(a, Minute(scale)) then 1 else 0
    ensures 0 <= (a % Hour(scale)) / Minute(scale) < 60
  {
    HoursAreRight(a, scale);
    SameRemainder(a, Day(scale), Hour(scale), 24);
    Leaves(a % Day(scale), Hour(scale));
    SameRemainder(a, Hour(scale), Minute(scale), 60);
    FloorIsTrue(a % Hour(scale), Minute(scale));
  }

  lemma SecondsAreRight(a: nat, scale: nat)
    requires Exact(a, scale)
    ensures PartsOf(a, scale).seconds == a % Minute(scale)
  {
    MinutesAreRight(a, scale);
    SameRemainder(a, Hour(scale), Minute(scale), 60);
    Leaves(a % Hour(scale), Minute(scale));
  }

  lemma SomeNegative(h: int, hour: int, m: int, minute: int, s: int)
    requires hour > 0 && minute > 0 && hour * h + minute * m + s < 0
    ensures h < 0 || m < 0 || s < 0
  {
    if h >= 0 && m >= 0 {
      Products(hour, h);
      Products(minute, m);
    }
  }

  lemma Products(d: int, x: int)
    requires d > 0 && x >= 0
    ensures d * x >= 0
  {
  }

  /** A quotient rounded up leaves a negative part behind. */
  lemma RoundedUpShows(a: nat, scale: nat)
    requires !Exact(a, scale)
    ensures !NonNegative(PartsOf(a, scale))
  {
    var parts := PartsOf(a, scale);
    PartsAddUp(a, scale);
    Leaves(a, Day(scale));
    Divides(a, Day(scale));
    if RoundsUp(a, Day(scale)) {
      SomeNegative(parts.hours, Hour(scale), parts.minutes, Minute(scale), parts.seconds);
    } else {
      SameRemainder(a, Day(scale), Hour(scale), 24);
      Leaves(a % Day(scale), Hour(scale));
      Divides(a % Day(scale), Hour(scale));
      if RoundsUp(a, Hour(scale)) {
        SomeNegative(0, Hour(scale), parts.minutes, Minute(scale), parts.seconds);
      } else {
        MinutesAreRight(a, scale);
        SameRemainder(a, Hour(scale), Minute(scale), 60);
        Leaves(a % Hour(scale), Minute(scale));
        Divides(a % Hour(scale), Minute(scale));
      }
    }
  }

  /** The printed parts are in their ranges exactly when no quotient rounds up; otherwise one is negative. */
  lemma PartsRightIff(a: nat, scale: nat)
    ensures Exact(a, scale) ==> InRange(PartsOf(a, scale), scale)
    ensures Exact(a, scale) <==> NonNegative(PartsOf(a, scale))
  {
    if Exact(a, scale) {
      Leaves(a, Day(scale));
      HoursAreRight(a, scale);
      MinutesAreRight(a, scale);
      SecondsAreRight(a, scale);
    } else {
      RoundedUpShows(a, scale);
    }
  }

  /** Up to 29 fractional digits nothing rounds up. */
  lemma ExactUpTo29(a: int, scale: nat)
    requires scale <= 29
    ensures Exact(a, scale)
  {
    Pow10Grows(scale, 29);
    Powers();
    NotThatClose(a, Day(scale));
    NotThatClose(a, Hour(scale));
    NotThatClose(a, Minute(scale));
  }

  lemma NotThatClose(a: int, d: int)
    requires 0 < d < 2 * TEN34
    ensures !RoundsUp(a, d)
  {
    Divides(a, d);
  }

  lemma Powers()
    ensures Pow10(29) == 100_000_000_000_000_000_000_000_000_000
    ensures Pow10(30) == 1_000_000_000_000_000_000_000_000_000_000
  {
    assert Pow10(5) == 100_000;
    assert Pow10(10) == 10_000_000_000;
    assert Pow10(15) == 1_000_000_000_000_000;
    assert Pow10(20) == 100_000_000_000_000_000_000;
    assert Pow10(25) == 10_000_000_000_000_000_000_000_000;
  }

  /** One unit in the 30th digit short of a day is rounded up to the day. */
  lemma AlmostADay()
    ensures !Exact(Day(30) - 1, 30)
  {
    Powers();
    QuotientIs(Day(30) - 1, Day(30), 0, Day(30) - 1);
  }

  // ----- The component accessors -----

  function Days(a: int, scale: nat): int {
    TruncOfRounded(a, Day(scale))
  }

  function Hours(a: int, scale: nat): int {
    TruncOfRounded(Abs(a) % Day(scale), Hour(scale)) * Sign(a)
  }

  function Minutes(a: int, scale: nat): int {
    TruncOfRounded(Abs(a) % Hour(scale), Minute(scale)) * Sign(a)
  }

  /** In units of 10^-scale. */
  function Seconds(a: int, scale: nat): int {
    var r := Abs(a) % Minute(scale);
    if a < 0 then -r else r
  }

  function Accessed(a: int, scale: nat): Parts {
    Parts(Days(a, scale), Hours(a, scale), Minutes(a, scale), Seconds(a, scale))
  }

  function Bonus(a: int, d: int): int
    requires d > 0
  {
    if RoundsUp(a, d) then d else 0
  }

  /** A part read off a remainder takes up what the remainder holds of it, and one unit more when rounded up. */
  lemma Takes(a: nat, d: int, e: int, n: int)
    requires e > 0 && n > 0 && d == n * e
    ensures e * TruncOfRounded(a % d, e) == a % d - a % e + Bonus(a, e)
  {
    SameRemainder(a, d, e, n);
    FloorIsTrue(a % d, e);
    Leaves(a % d, e);
  }

  lemma AccessedPositive(a: nat, scale: nat)
    requires a > 0
    ensures Total(Accessed(a, scale), scale) == a + Bonus(a, Day(scale)) + Bonus(a, Hour(scale)) + Bonus(a, Minute(scale))
  {
    FloorIsTrue(a, Day(scale));
    Leaves(a, Day(scale));
    Takes(a, Day(scale), Hour(scale), 24);
    Takes(a, Hour(scale), Minute(scale), 60);
  }

  lemma AccessedOdd(a: int, scale: nat)
    requires a > 0
    ensures Total(Accessed(-a, scale), scale) == -Total(Accessed(a, scale), scale)
  {
    RoundedOdd(a, Day(scale));
    TruncatedOdd(Rounded(a, Day(scale)), TEN34);
    SignTurns(TruncOfRounded(a % Day(scale), Hour(scale)));
    SignTurns(TruncOfRounded(a % Hour(scale), Minute(scale)));
    TotalOdd(Accessed(a, scale), Accessed(-a, scale), scale);
  }

  lemma SignTurns(x: int)
    ensures x * -1 == -x && x * 1 == x
  {
  }

  lemma TotalOdd(there: Parts, back: Parts, scale: nat)
    requires back == Parts(-there.days, -there.hours, -there.minutes, -there.seconds)
    ensures Total(back, scale) == -Total(there, scale)
  {
    Negated(Day(scale), there.days);
    Negated(Hour(scale), there.hours);
    Negated(Minute(scale), there.minutes);
  }

  lemma Negated(d: int, x: int)
    ensures d * (-x) == -(d * x)
  {
  }

  /** The accessors add up to the signed total exactly when no quotient rounds up. */
  lemma AccessorsAddUpIff(a: int, scale: nat)
    ensures Total(Accessed(a, scale), scale) == a <==> Exact(Abs(a), scale)
  {
    if a == 0 {
      ZeroExact(scale);
      ZeroTotal(scale);
    } else {
      AccessedPositive(Abs(a), scale);
      if a < 0 {
        AccessedOdd(-a, scale);
      }
    }
  }

  lemma ZeroExact(scale: nat)
    ensures Exact(0, scale)
  {
    QuotientIs(0, Day(scale), 0, 0);
    QuotientIs(0, Hour(scale), 0, 0);
    QuotientIs(0, Minute(scale), 0, 0);
  }

  lemma ZeroTotal(scale: nat)
    ensures Accessed(0, scale) == Parts(0, 0, 0, 0) && Total(Accessed(0, scale), scale) == 0
  {
    ZeroExact(scale);
    FloorIsTrue(0, Day(scale));
    QuotientIs(0, Day(scale), 0, 0);
    QuotientIs(0, Minute(scale), 0, 0);
  }

  function Opposite(p: Parts): Parts {
    Parts(-p.days, -p.hours, -p.minutes, -p.seconds)
  }

  /** And then they are the printed parts, each within its range, all negative for a negative duration. */
  lemma AccessorsAreParts(a: int, scale: nat)
    requires Exact(Abs(a), scale)
    ensures var parts := PartsOf(Abs(a), scale);
      InRange(parts, scale) && Accessed(a, scale) == if a < 0 then Opposite(parts) else parts
  {
    var n := Abs(a);
    PartsRightIff(n, scale);
    if a == 0 {
      ZeroTotal(scale);
      ZeroParts(scale);
    } else {
      AccessedAre(n, scale);
      if a < 0 {
        RoundedOdd(n, Day(scale));
        TruncatedOdd(Rounded(n, Day(scale)), TEN34);
        SignTurns(TruncOfRounded(n % Day(scale), Hour(scale)));
        SignTurns(TruncOfRounded(n % Hour(scale), Minute(scale)));
      }
    }
  }

  lemma ZeroParts(scale: nat)
    ensures PartsOf(0, scale) == Parts(0, 0, 0, 0)
  {
    ZeroExact(scale);
    FloorIsTrue(0, Day(scale));
    FloorIsTrue(0, Hour(scale));
    FloorIsTrue(0, Minute(scale));
    QuotientIs(0, Day(scale), 0, 0);
    QuotientIs(0, Hour(scale), 0, 0);
    QuotientIs(0, Minute(scale), 0, 0);
  }

  lemma AccessedAre(n: nat, scale: nat)
    requires n > 0 && Exact(n, scale)
    ensures Accessed(n, scale) == PartsOf(n, scale)
  {
    HoursAreRight(n, scale);
    MinutesAreRight(n, scale);
    SecondsAreRight(n, scale);
    FloorIsTrue(n, Day(scale));
    SameRemainder(n, Day(scale), Hour(scale), 24);
    SameRemainder(n, Hour(scale), Minute(scale), 60);
    FloorIsTrue(n % Day(scale), Hour(scale));
    FloorIsTrue(n % Hour(scale), Minute(scale));
    SignTurns(TruncOfRounded(n % Day(scale), Hour(scale)));
    SignTurns(TruncOfRounded(n % Hour(scale), Minute(scale)));
  }
}
