/**
 Printing a days-time duration and parsing the text again: it gives the duration
 back exactly when none of the quotients behind the printed parts was rounded up.
 */
module DurationRoundTrip {
  import opened Prelude
  import opened Decimals
  import opened DurationParts
  import opened DurationText

  // ----- Numbers in text -----

  lemma {:induction false} RunOver(x: string, t: string)
    requires AllDigits(x) && (t == "" || !IsDigit(t[0]))
    ensures DigitRun(x + t) == |x|
  {
    if x == "" {
      assert x + t == t;
    } else {
      RunOver(x[1..], t);
      assert (x + t)[1..] == x[1..] + t;
    }
  }

  predicate Plain(c: char) {
    !IsDigit(c) && c != '.'
  }

  /** A number followed by anything that cannot continue it ends where it ended. */
  lemma NumberEndsAt(x: string, t: string)
    requires IsNumber(x) && (t == "" || Plain(t[0]))
    ensures NumberEnd(x + t) == |x|
  {
    var k := DigitRun(x);
    if k == |x| {
      assert x[..k] == x;
      RunOver(x, t);
    } else {
      var whole, frac := x[..k], x[k + 1..];
      assert AllDigits(frac) by {
        assert frac[..|frac|] == frac;
      }
      assert x + t == whole + (x[k..] + t);
      RunOver(whole, x[k..] + t);
      assert (x + t)[k + 1..] == frac + t;
      RunOver(frac, t);
      RunOver(frac, "");
      assert frac + "" == frac;
    }
  }

  lemma DigitsAreNumber(x: string)
    requires AllDigits(x) && x != ""
    ensures IsNumber(x) && DigitRun(x) == |x|
  {
    RunOver(x, "");
    assert x + "" == x;
  }

  lemma PointedIsNumber(whole: string, frac: string)
    requires AllDigits(whole) && whole != "" && AllDigits(frac) && frac != ""
    ensures IsNumber(whole + "." + frac) && DigitRun(whole + "." + frac) == |whole|
  {
    var x := whole + "." + frac;
    assert x == whole + ("." + frac);
    RunOver(whole, "." + frac);
    DigitsAreNumber(frac);
    EndsAfterPoint(x, |whole|, frac);
  }

  lemma EndsAfterPoint(x: string, k: nat, frac: string)
    requires DigitRun(x) == k && 0 < k < |x| && x[k] == '.' && x[k + 1..] == frac
    requires frac != "" && DigitRun(frac) == |frac|
    ensures NumberEnd(x) == |x|
  {
  }

  // ----- Designators -----

  /** Nothing is taken for this designator. */
  ghost predicate Skips(t: string, letter: char) {
    Take(t, letter) == Taken("", t)
  }

  lemma TakesPiece(x: string, letter: char, t: string)
    requires Plain(letter) && (x == "" || IsNumber(x)) && (x == "" ==> Skips(t, letter))
    ensures Take(Piece(x, letter) + t, letter) == Taken(x, t)
  {
    if x == "" {
      assert Piece(x, letter) + t == t;
    } else {
      var all := Piece(x, letter) + t;
      assert all == x + ([letter] + t);
      NumberEndsAt(x, [letter] + t);
      assert all[..|x|] == x && all[|x| + 1..] == t;
    }
  }

  lemma SkipsPiece(x: string, c: char, t: string, letter: char)
    requires Plain(c) && c != letter && (x == "" || IsNumber(x)) && (x == "" ==> Skips(t, letter))
    ensures Skips(Piece(x, c) + t, letter)
  {
    if x == "" {
      assert Piece(x, c) + t == t;
    } else {
      var all := Piece(x, c) + t;
      assert all == x + ([c] + t);
      NumberEndsAt(x, [c] + t);
    }
  }

  lemma SkipsLetter(t: string, letter: char)
    requires t == "" || !IsDigit(t[0])
    ensures Skips(t, letter)
  {
  }

  ghost predicate NumberOrNothing(x: string) {
    x == "" || IsNumber(x)
  }

  lemma TimeMatches(h: string, m: string, s: string)
    requires NumberOrNothing(h) && NumberOrNothing(m) && NumberOrNothing(s)
    ensures var hours := Take(TimeBody(h, m, s), 'H'); var minutes := Take(hours.rest, 'M'); var seconds := Take(minutes.rest, 'S');
            hours.text == h && minutes.text == m && seconds == Taken(s, "")
  {
    var ss := Piece(s, 'S');
    assert ss + "" == ss;
    SkipsLetter("", 'H');
    SkipsLetter("", 'M');
    SkipsLetter("", 'S');
    SkipsPiece(s, 'S', "", 'M');
    SkipsPiece(s, 'S', "", 'H');
    SkipsPiece(m, 'M', ss, 'H');
    TakesPiece(h, 'H', Piece(m, 'M') + ss);
    TakesPiece(m, 'M', ss);
    TakesPiece(s, 'S', "");
  }

  /** The pattern finds in a printed body exactly the texts it was put together from. */
  lemma BodyMatches(negative: bool, d: string, h: string, m: string, s: string)
    requires NumberOrNothing(d) && NumberOrNothing(h) && NumberOrNothing(m) && NumberOrNothing(s)
    ensures MatchAfterP(negative, Body(d, h, m, s)[1..]) == Some(Match(negative, "", "", d, h, m, s))
  {
    var time := if h == "" && m == "" && s == "" then "" else "T" + TimeBody(h, m, s);
    var all := Piece(d, 'D') + time;
    assert Body(d, h, m, s)[1..] == all;
    SkipsLetter(time, 'Y');
    SkipsLetter(time, 'M');
    SkipsLetter(time, 'D');
    SkipsPiece(d, 'D', time, 'Y');
    SkipsPiece(d, 'D', time, 'M');
    TakesPiece(d, 'D', time);
    if time != "" {
      assert time[1..] == TimeBody(h, m, s);
      TimeMatches(h, m, s);
    }
  }

  // ----- Text that needs no preparation -----

  predicate Ready(c: char) {
    IsDigit(c) || c == '.' || c == '-' || c == 'P' || c == 'D' || c == 'T' || c == 'H' || c == 'M' || c == 'S'
  }

  predicate AllReady(s: string) {
    forall i | 0 <= i < |s| :: Ready(s[i])
  }

  lemma NothingToPrepare(s: string)
    requires AllReady(s)
    ensures Upper(TrimSpace(s)) == s
  {
    assert TrimSpace(s) == s;
    forall i | 0 <= i < |s| ensures UpperChar(s[i]) == s[i] {
      assert Ready(s[i]);
    }
  }

  lemma {:induction false} TrimmedDigits(t: string)
    requires AllDigits(t)
    ensures AllDigits(Trimmed(t))
  {
    if t != "" && t[|t| - 1] == '0' {
      TrimmedDigits(t[..|t| - 1]);
    }
  }

  lemma FixedReady(n: int, scale: nat)
    ensures AllReady(FixedText(n, scale))
  {
    TrimmedDigits(Padded(Remainder(Abs(n), Pow10(scale)), scale));
  }

  lemma FormatReady(a: int, scale: nat)
    requires a != 0
    ensures AllReady(Format(a, scale))
  {
    var parts := PartsOf(Abs(a), scale);
    FixedReady(parts.seconds, scale);
    ReadyBody(WholeText(parts.days), WholeText(parts.hours), WholeText(parts.minutes), FixedText(parts.seconds, scale));
  }

  lemma ReadyBody(d: string, h: string, m: string, s: string)
    requires AllReady(d) && AllReady(h) && AllReady(m) && AllReady(s)
    ensures AllReady(Body(d, h, m, s))
  {
    assert AllReady(Piece(d, 'D')) && AllReady(Piece(h, 'H')) && AllReady(Piece(m, 'M')) && AllReady(Piece(s, 'S'));
    assert AllReady(TimeBody(h, m, s));
  }

  // ----- A minus sign inside the text is never parsed -----

  lemma TakeKeepsMinus(s: string, letter: char)
    requires '-' in s && letter != '-'
    ensures '-' in Take(s, letter).rest
  {
    var k := NumberEnd(s);
    if 0 < k < |s| && s[k] == letter {
      var run := DigitRun(s);
      forall i | 0 <= i <= k ensures s[i] != '-' {
        if i < run {
          assert IsDigit(s[..run][i]);
        } else if run < i < k {
          var f := DigitRun(s[run + 1..]);
          assert IsDigit(s[run + 1..][..f][i - run - 1]);
        }
      }
      var i :| 0 <= i < |s| && s[i] == '-';
      assert s[k + 1..][i - k - 1] == '-';
    }
  }

  lemma MinusNotMatched(negative: bool, s: string)
    requires '-' in s
    ensures MatchAfterP(negative, s).None?
  {
    TakeKeepsMinus(s, 'Y');
    var years := Take(s, 'Y');
    TakeKeepsMinus(years.rest, 'M');
    var months := Take(years.rest, 'M');
    TakeKeepsMinus(months.rest, 'D');
    var days := Take(months.rest, 'D');
    if days.rest[0] == 'T' {
      MinusInTime(days.rest);
    }
  }

  lemma MinusInTime(t: string)
    requires '-' in t && t[0] == 'T'
    ensures Take(Take(Take(t[1..], 'H').rest, 'M').rest, 'S').rest != ""
  {
    var i :| 0 <= i < |t| && t[i] == '-';
    assert t[1..][i - 1] == '-';
    TakeKeepsMinus(t[1..], 'H');
    var hours := Take(t[1..], 'H');
    TakeKeepsMinus(hours.rest, 'M');
    TakeKeepsMinus(Take(hours.rest, 'M').rest, 'S');
  }

  lemma NegativeShows(parts: Parts, scale: nat)
    requires !NonNegative(parts)
    ensures '-' in Rendered(parts, scale)[1..]
  {
    var d, h, m, s := WholeText(parts.days), WholeText(parts.hours), WholeText(parts.minutes), FixedText(parts.seconds, scale);
    assert parts.days < 0 ==> d[0] == '-';
    assert parts.hours < 0 ==> h[0] == '-';
    assert parts.minutes < 0 ==> m[0] == '-';
    assert parts.seconds < 0 ==> s[0] == '-';
    MinusInBody(d, h, m, s);
  }

  lemma MinusInBody(d: string, h: string, m: string, s: string)
    requires '-' in d || '-' in h || '-' in m || '-' in s
    ensures '-' in Body(d, h, m, s)[1..]
  {
    var all := Piece(d, 'D') + if h == "" && m == "" && s == "" then "" else "T" + TimeBody(h, m, s);
    assert Body(d, h, m, s)[1..] == all;
    assert '-' in d ==> '-' in Piece(d, 'D');
    assert '-' in h ==> '-' in Piece(h, 'H');
    assert '-' in m ==> '-' in Piece(m, 'M');
    assert '-' in s ==> '-' in Piece(s, 'S');
  }

  // ----- Values -----

  lemma WholeValue(n: nat)
    ensures NumberOrNothing(WholeText(n)) && Value(WholeText(n)) == n as real
  {
    if n != 0 {
      DigitsAreNumber(Print(n));
      ReadPrint(n);
      assert Print(n)[..|Print(n)|] == Print(n);
    }
  }

  /** n in units of 10^-scale, as a number of seconds: n divided by ten that many times. */
  function InSeconds(n: int, scale: nat): real {
    if scale == 0 then n as real else InSeconds(n, scale - 1) / 10.0
  }

  lemma {:induction false} InSecondsAdds(a: int, b: int, scale: nat)
    ensures InSeconds(a + b, scale) == InSeconds(a, scale) + InSeconds(b, scale)
  {
    if scale > 0 {
      InSecondsAdds(a, b, scale - 1);
    }
  }

  lemma {:induction false} InSecondsTenfold(a: int, scale: nat)
    ensures InSeconds(10 * a, scale + 1) == InSeconds(a, scale)
  {
    if scale > 0 {
      InSecondsTenfold(a, scale - 1);
    } else {
      assert InSeconds(10 * a, 0) == (10 * a) as real;
    }
  }

  lemma {:induction false} InSecondsWhole(whole: int, scale: nat)
    ensures InSeconds(Pow10(scale) * whole, scale) == whole as real
  {
    if scale > 0 {
      InSecondsWhole(whole, scale - 1);
      InSecondsTenfold(Pow10(scale - 1) * whole, scale - 1);
      assert 10 * (Pow10(scale - 1) * whole) == Pow10(scale) * whole;
    }
  }

  lemma {:induction false} FracLast(t: string, c: char)
    requires AllDigits(t) && IsDigit(c)
    ensures FracValue(t + [c]) == FracValue(t) + InSeconds(DigitValue(c), |t| + 1)
  {
    if t == "" {
      assert t + [c] == [c];
      assert [c][1..] == "";
      assert InSeconds(DigitValue(c), 0) == DigitValue(c) as real;
    } else {
      FracLast(t[1..], c);
      assert (t + [c])[1..] == t[1..] + [c];
    }
  }

  lemma {:induction false} PaddedValue(n: nat, scale: nat)
    requires n < Pow10(scale)
    ensures FracValue(Padded(n, scale)) == InSeconds(n, scale)
  {
    if scale > 0 {
      var high, low := n / 10, n % 10;
      PaddedValue(high, scale - 1);
      FracLast(Padded(high, scale - 1), DigitChar(low));
      InSecondsTenfold(high, scale - 1);
      InSecondsAdds(10 * high, low, scale);
      assert 10 * high + low == n;
    }
  }

  lemma {:induction false} FracTrailingZero(u: string)
    requires AllDigits(u)
    ensures FracValue(u + "0") == FracValue(u)
  {
    if u == "" {
      assert u + "0" == "0";
      assert "0"[1..] == "";
    } else {
      FracTrailingZero(u[1..]);
      assert (u + "0")[1..] == u[1..] + "0";
    }
  }

  lemma {:induction false} TrimmingKeepsValue(t: string)
    requires AllDigits(t)
    ensures AllDigits(Trimmed(t)) && FracValue(Trimmed(t)) == FracValue(t)
  {
    if t != "" && t[|t| - 1] == '0' {
      var u := t[..|t| - 1];
      TrimmingKeepsValue(u);
      FracTrailingZero(u);
      assert t == u + "0";
    }
  }

  /** Whole seconds and the rest can be valued apart. */
  lemma SplitValue(n: int, scale: nat, whole: int, rest: int)
    requires n == Pow10(scale) * whole + rest
    ensures InSeconds(n, scale) == whole as real + InSeconds(rest, scale)
  {
    InSecondsWhole(whole, scale);
    InSecondsAdds(Pow10(scale) * whole, rest, scale);
  }

  lemma FixedValue(n: nat, scale: nat)
    ensures NumberOrNothing(FixedText(n, scale)) && Value(FixedText(n, scale)) == InSeconds(n, scale)
  {
    if n == 0 {
      SplitValue(0, scale, 0, 0);
      ZeroInSeconds(scale);
    } else {
      PrintedParts(n, scale, Quotient(n, Pow10(scale)), Remainder(n, Pow10(scale)));
      assert "" + PrintAbs(n, scale) == PrintAbs(n, scale);
    }
  }

  lemma PrintedParts(n: nat, scale: nat, whole: nat, rest: nat)
    requires whole == Quotient(n, Pow10(scale)) && rest == Remainder(n, Pow10(scale))
    ensures IsNumber(PrintAbs(n, scale)) && Value(PrintAbs(n, scale)) == InSeconds(n, scale)
  {
    var frac := Trimmed(Padded(rest, scale));
    Divides(n, Pow10(scale));
    PaddedValue(rest, scale);
    TrimmingKeepsValue(Padded(rest, scale));
    ReadPrint(whole);
    SplitValue(n, scale, whole, rest);
    PrintAbsValue(Print(whole), frac, PrintAbs(n, scale));
  }

  lemma {:induction false} ZeroInSeconds(scale: nat)
    ensures InSeconds(0, scale) == 0.0
  {
    if scale > 0 {
      ZeroInSeconds(scale - 1);
    }
  }

  lemma {:induction false} NegativeInSeconds(n: int, scale: nat)
    ensures InSeconds(-n, scale) == -InSeconds(n, scale)
  {
    if scale > 0 {
      NegativeInSeconds(n, scale - 1);
    }
  }

  lemma WholeTextValue(whole: string)
    requires AllDigits(whole) && whole != ""
    ensures IsNumber(whole) && Value(whole) == Read(whole) as real
  {
    DigitsAreNumber(whole);
    ValueIs(whole, whole, "");
  }

  lemma PointedTextValue(whole: string, frac: string)
    requires AllDigits(whole) && whole != "" && AllDigits(frac) && frac != ""
    ensures IsNumber(whole + "." + frac) && Value(whole + "." + frac) == Read(whole) as real + FracValue(frac)
  {
    PointedIsNumber(whole, frac);
    ValueIs(whole + "." + frac, whole, frac);
  }

  lemma PrintAbsValue(whole: string, frac: string, text: string)
    requires AllDigits(whole) && whole != "" && AllDigits(frac)
    requires text == whole + if frac == "" then "" else "." + frac
    ensures IsNumber(text) && Value(text) == Read(whole) as real + FracValue(frac)
  {
    if frac == "" {
      assert text == whole;
      WholeTextValue(whole);
    } else {
      assert text == whole + "." + frac;
      PointedTextValue(whole, frac);
    }
  }

  lemma ValueIs(text: string, whole: string, frac: string)
    requires AllDigits(whole) && AllDigits(frac) && DigitRun(text) == |whole|
    requires (text == whole && frac == "") || text == whole + "." + frac
    ensures Value(text) == Read(whole) as real + FracValue(frac)
  {
    assert text[..|whole|] == whole;
    assert |whole| < |text| ==> text[|whole| + 1..] == frac;
  }

  // ----- The round trip -----

  lemma TotalValue(parts: Parts, scale: nat, a: int)
    requires Total(parts, scale) == a
    ensures Sum(parts.days as real, parts.hours as real, parts.minutes as real, InSeconds(parts.seconds, scale)) == InSeconds(a, scale)
  {
    var p := Pow10(scale);
    var whole := 86400 * parts.days + 3600 * parts.hours + 60 * parts.minutes;
    assert a == p * whole + parts.seconds;
    SplitValue(a, scale, whole, parts.seconds);
  }

  lemma SignedParts(negative: bool, body: string)
    requires body != "" && body[0] == 'P'
    ensures var up := (if negative then "-" else "") + body;
            AfterSign(up) == body && (Signed(up) && up[0] == '-' <==> negative)
  {
    var up := (if negative then "-" else "") + body;
    if negative {
      assert up[0] == '-' && up[1..] == body;
    } else {
      assert up == body;
    }
  }

  lemma SignedMatch(negative: bool, body: string)
    requires body != "" && body[0] == 'P'
    ensures MatchISO((if negative then "-" else "") + body) == MatchAfterP(negative, body[1..])
  {
    SignedParts(negative, body);
  }

  lemma ParsesTo(s: string, m: Match)
    requires AllReady(s) && MatchISO(s) == Some(m) && !NoDesignator(m)
    requires m.years == "" && m.months == ""
    ensures DtDuration(s) == Ok(SecondsOf(m))
  {
    NothingToPrepare(s);
  }

  lemma SecondsAre(m: Match, d: real, h: real, mi: real, s: real)
    requires Value(m.days) == d && Value(m.hours) == h && Value(m.minutes) == mi && Value(m.seconds) == s
    ensures SecondsOf(m) == if m.negative then -Sum(d, h, mi, s) else Sum(d, h, mi, s)
  {
  }

  function MatchOf(negative: bool, parts: Parts, scale: nat): Match {
    Match(negative, "", "", WholeText(parts.days), WholeText(parts.hours), WholeText(parts.minutes), FixedText(parts.seconds, scale))
  }

  lemma MatchValue(negative: bool, parts: Parts, scale: nat)
    requires NonNegative(parts)
    ensures var total := Sum(parts.days as real, parts.hours as real, parts.minutes as real, InSeconds(parts.seconds, scale));
            SecondsOf(MatchOf(negative, parts, scale)) == if negative then -total else total
  {
    WholeValue(parts.days);
    WholeValue(parts.hours);
    WholeValue(parts.minutes);
    FixedValue(parts.seconds, scale);
    SecondsAre(MatchOf(negative, parts, scale), parts.days as real, parts.hours as real, parts.minutes as real, InSeconds(parts.seconds, scale));
  }

  lemma RenderedMatches(negative: bool, parts: Parts, scale: nat)
    requires NonNegative(parts)
    ensures MatchISO((if negative then "-" else "") + Rendered(parts, scale)) == Some(MatchOf(negative, parts, scale))
  {
    WholeValue(parts.days);
    WholeValue(parts.hours);
    WholeValue(parts.minutes);
    FixedValue(parts.seconds, scale);
    BodyMatches(negative, WholeText(parts.days), WholeText(parts.hours), WholeText(parts.minutes), FixedText(parts.seconds, scale));
    SignedMatch(negative, Rendered(parts, scale));
  }

  lemma SomePart(negative: bool, parts: Parts, scale: nat, n: nat)
    requires n != 0 && Total(parts, scale) == n
    ensures !NoDesignator(MatchOf(negative, parts, scale))
  {
    NonEmptyTexts(parts, scale);
  }

  lemma ExactMatches(a: int, scale: nat)
    requires a != 0 && Exact(Abs(a), scale)
    ensures NonNegative(PartsOf(Abs(a), scale))
    ensures DtDuration(Format(a, scale)) == Ok(SecondsOf(MatchOf(a < 0, PartsOf(Abs(a), scale), scale)))
  {
    var n := Abs(a);
    PartsRightIff(n, scale);
    PartsAddUp(n, scale);
    SomePart(a < 0, PartsOf(n, scale), scale, n);
    RenderedMatches(a < 0, PartsOf(n, scale), scale);
    FormatReady(a, scale);
    ParsesTo(Format(a, scale), MatchOf(a < 0, PartsOf(n, scale), scale));
  }

  lemma ExactParses(a: int, scale: nat)
    requires a != 0 && Exact(Abs(a), scale)
    ensures DtDuration(Format(a, scale)) == Ok(InSeconds(a, scale))
  {
    ExactMatches(a, scale);
    PartsAddUp(Abs(a), scale);
    ValueOfParts(a, PartsOf(Abs(a), scale), scale);
  }

  lemma ValueOfParts(a: int, parts: Parts, scale: nat)
    requires NonNegative(parts) && Total(parts, scale) == Abs(a)
    ensures SecondsOf(MatchOf(a < 0, parts, scale)) == InSeconds(a, scale)
  {
    MatchValue(a < 0, parts, scale);
    TotalValue(parts, scale, Abs(a));
    NegativeInSeconds(Abs(a), scale);
  }

  lemma InexactFails(a: int, scale: nat)
    requires a != 0 && !Exact(Abs(a), scale)
    ensures DtDuration(Format(a, scale)) == Fail
  {
    var parts := PartsOf(Abs(a), scale);
    PartsRightIff(Abs(a), scale);
    NegativeShows(parts, scale);
    MinusNotMatched(a < 0, Rendered(parts, scale)[1..]);
    FormatReady(a, scale);
    NothingToPrepare(Format(a, scale));
    SignedMatch(a < 0, Rendered(parts, scale));
  }

  lemma SecondsOnly(s: string)
    requires IsNumber(s) && AllReady(s)
    ensures DtDuration(Body("", "", "", s)) == Ok(SecondsOf(Match(false, "", "", "", "", "", s)))
  {
    var body := Body("", "", "", s);
    BodyMatches(false, "", "", "", s);
    SignedMatch(false, body);
    assert "" + body == body;
    ReadyBody("", "", "", s);
    ParsesTo(body, Match(false, "", "", "", "", "", s));
  }

  lemma ZeroParses()
    ensures DtDuration(ZERO_TEXT) == Ok(0.0)
  {
    var s := Print(0);
    DigitsAreNumber(s);
    SecondsOnly(s);
    ZeroText();
    ZeroValue();
    SecondsAre(Match(false, "", "", "", "", "", s), 0.0, 0.0, 0.0, 0.0);
  }

  lemma ZeroText()
    ensures ZERO_TEXT == Body("", "", "", Print(0))
  {
  }

  lemma ZeroValue()
    ensures Value(Print(0)) == 0.0 && Value("") == 0.0
  {
    DigitsAreNumber(Print(0));
    ReadPrint(0);
    assert Print(0)[..|Print(0)|] == Print(0);
  }

  /** Parsing the printed form gives the duration back exactly when no quotient rounds up; otherwise it is refused. */
  lemma RoundTripIff(a: int, scale: nat)
    ensures DtDuration(Format(a, scale)) == if Exact(Abs(a), scale) then Ok(InSeconds(a, scale)) else Fail
  {
    if a == 0 {
      ZeroExact(scale);
      ZeroRoundTrip(scale);
    } else if Exact(Abs(a), scale) {
      ExactParses(a, scale);
    } else {
      InexactFails(a, scale);
    }
  }

  lemma ZeroRoundTrip(scale: nat)
    ensures DtDuration(Format(0, scale)) == Ok(InSeconds(0, scale))
  {
    ZeroParses();
    ZeroInSeconds(scale);
  }

  /** With at most 29 fractional digits the round trip always succeeds. */
  lemma RoundTrip(a: int, scale: nat)
    requires scale <= 29
    ensures DtDuration(Format(a, scale)) == Ok(InSeconds(a, scale))
  {
    ExactUpTo29(Abs(a), scale);
    RoundTripIff(a, scale);
  }

  /** A day less one unit in the 30th fractional digit prints to text its own parser refuses. */
  lemma AlmostADayIsRefused()
    ensures DtDuration(Format(Day(30) - 1, 30)) == Fail
  {
    AlmostADay();
    RoundTripIff(Day(30) - 1, 30);
  }
}
