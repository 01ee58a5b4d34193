/**
 The texts a days-time duration is written in, put together from their parts
 rather than taken apart: which of them the constructor of
 core/days_time_duration.go accepts, with what value, and that it accepts nothing
 else.
 */
module DurationGrammar {
  import opened Prelude
  import opened Decimals
  import opened DurationText
  import opened DurationRoundTrip

  // ----- The grammar -----

  predicate Digits(t: string) {
    |t| > 0 && forall i | 0 <= i < |t| :: '0' <= t[i] <= '9'
  }

  /** Digits, or digits on both sides of a point. */
  ghost predicate Numeral(t: string) {
    Digits(t) || exists whole, frac :: Digits(whole) && Digits(frac) && t == whole + "." + frac
  }

  ghost predicate Optional(t: string) {
    t == "" || Numeral(t)
  }

  /** The parts of a text: sign, date designators, and time designators if there is a T. */
  datatype Written = Written(
    sign: string, years: string, months: string, days: string,
    timed: bool, hours: string, minutes: string, seconds: string)

  ghost predicate Proper(w: Written) {
    && (w.sign == "" || w.sign == "+" || w.sign == "-")
    && Optional(w.years) && Optional(w.months) && Optional(w.days)
    && Optional(w.hours) && Optional(w.minutes) && Optional(w.seconds)
    && (w.timed || (w.hours == "" && w.minutes == "" && w.seconds == ""))
  }

  function Part(t: string, letter: char): string {
    if t == "" then "" else t + [letter]
  }

  function Time(w: Written): string {
    if w.timed then "T" + (Part(w.hours, 'H') + (Part(w.minutes, 'M') + Part(w.seconds, 'S'))) else ""
  }

  function Spell(w: Written): string {
    w.sign + ("P" + (Part(w.years, 'Y') + (Part(w.months, 'M') + (Part(w.days, 'D') + Time(w)))))
  }

  /** The same text with any of its letters in lower case; the long s counts as an s. */
  ghost predicate InAnyCase(core: string, text: string) {
    |core| == |text| && forall i | 0 <= i < |text| :: SameLetter(core[i], text[i])
  }

  predicate SameLetter(c: char, u: char) {
    c == u || ('A' <= u <= 'Z' && c as int == u as int + 32) || (u == 'S' && c == '\U{17F}')
  }

  /** Unicode white space. */
  predicate Blank(c: char) {
    || '\U{9}' <= c <= '\U{D}' || c == '\U{20}' || c == '\U{85}' || c == '\U{A0}' || c == '\U{1680}'
    || '\U{2000}' <= c <= '\U{200A}' || c == '\U{2028}' || c == '\U{2029}' || c == '\U{202F}' || c == '\U{205F}' || c == '\U{3000}'
  }

  predicate AllBlank(s: string) {
    forall i | 0 <= i < |s| :: Blank(s[i])
  }

  predicate SomePresent(w: Written) {
    w.years != "" || w.months != "" || w.days != "" || w.hours != "" || w.minutes != "" || w.seconds != ""
  }

  /** The signed sum of the parts, in seconds. */
  function Amount(w: Written): real {
    var total := 86400.0 * Value(w.days) + 3600.0 * Value(w.hours) + 60.0 * Value(w.minutes) + Value(w.seconds);
    if w.sign == "-" then -total else total
  }

  // ----- Numerals -----

  /** Nothing stands for zero, and digits alone read as an integer. */
  lemma DigitsValue(whole: string)
    requires Digits(whole)
    ensures Value(whole) == Read(whole) as real
    ensures Value("") == 0.0
  {
    WholeTextValue(whole);
  }

  /** With a point, the integer of all the digits divided by ten once for each digit after it. */
  lemma PointedValue(whole: string, frac: string)
    requires Digits(whole) && Digits(frac)
    ensures Value(whole + "." + frac) == InSeconds(Read(whole + frac), |frac|)
  {
    PointedTextValue(whole, frac);
    PointMoved(whole, frac);
  }

  lemma {:induction false} PointMoved(whole: string, frac: string)
    requires AllDigits(whole) && AllDigits(frac)
    ensures Read(whole) as real + FracValue(frac) == InSeconds(Read(whole + frac), |frac|)
  {
    if frac == "" {
      assert whole + frac == whole;
    } else {
      var n := |frac| - 1;
      var init, c := frac[..n], frac[n];
      assert frac == init + [c];
      PointMoved(whole, init);
      FracLast(init, c);
      assert (whole + frac)[..|whole| + n] == whole + init;
      var high, low := Read(whole + init), DigitValue(c);
      assert Read(whole + frac) == 10 * high + low;
      InSecondsAdds(10 * high, low, n + 1);
      InSecondsTenfold(high, n);
    }
  }

  lemma NumeralIff(t: string)
    ensures Numeral(t) <==> IsNumber(t)
  {
    if Digits(t) {
      DigitsAreNumber(t);
    } else if Numeral(t) {
      var whole, frac :| Digits(whole) && Digits(frac) && t == whole + "." + frac;
      PointedIsNumber(whole, frac);
    }
    if IsNumber(t) {
      NumberParts(t);
    }
  }

  lemma NumberParts(t: string)
    requires IsNumber(t)
    ensures Numeral(t)
  {
    var k := DigitRun(t);
    if k == |t| {
      assert t[..k] == t;
    } else {
      var whole, frac := t[..k], t[k + 1..];
      assert frac[..|frac|] == frac;
      assert t == whole + "." + frac;
      assert Digits(whole) && Digits(frac);
    }
  }

  // ----- What is written is found -----

  /** The time designators are found where they were written, also when there are none. */
  lemma TimeFound(w: Written)
    requires Proper(w) && w.timed
    ensures Time(w)[1..] == TimeBody(w.hours, w.minutes, w.seconds)
    ensures var hours := Take(Time(w)[1..], 'H'); var minutes := Take(hours.rest, 'M'); var seconds := Take(minutes.rest, 'S');
            hours.text == w.hours && minutes.text == w.minutes && seconds == Taken(w.seconds, "")
  {
    NumeralIff(w.hours);
    NumeralIff(w.minutes);
    NumeralIff(w.seconds);
    TimeMatches(w.hours, w.minutes, w.seconds);
  }

  lemma DateFound(y: string, mo: string, d: string, rest: string)
    requires Optional(y) && Optional(mo) && Optional(d) && (rest == "" || rest[0] == 'T')
    ensures var s := Part(y, 'Y') + (Part(mo, 'M') + (Part(d, 'D') + rest));
      var years := Take(s, 'Y'); var months := Take(years.rest, 'M'); var days := Take(months.rest, 'D');
      years.text == y && months.text == mo && days == Taken(d, rest)
  {
    NumeralIff(y);
    NumeralIff(mo);
    NumeralIff(d);
    var afterMonths := Part(d, 'D') + rest;
    var afterYears := Part(mo, 'M') + afterMonths;
    SkipsLetter(rest, 'D');
    SkipsLetter(rest, 'M');
    SkipsLetter(rest, 'Y');
    SkipsPiece(d, 'D', rest, 'M');
    SkipsPiece(d, 'D', rest, 'Y');
    SkipsPiece(mo, 'M', afterMonths, 'Y');
    TakesPiece(y, 'Y', afterYears);
    TakesPiece(mo, 'M', afterMonths);
    TakesPiece(d, 'D', rest);
  }

  function AfterP(w: Written): string {
    Part(w.years, 'Y') + (Part(w.months, 'M') + (Part(w.days, 'D') + Time(w)))
  }

  lemma FoundAfterP(w: Written)
    requires Proper(w)
    ensures MatchAfterP(w.sign == "-", AfterP(w)) == Some(AsMatch(w))
  {
    DateFound(w.years, w.months, w.days, Time(w));
    if w.timed {
      TimeFound(w);
    }
  }

  lemma SignKept(sign: string, body: string)
    requires (sign == "" || sign == "+" || sign == "-") && body != "" && body[0] == 'P'
    ensures var up := sign + body; AfterSign(up) == body && (Signed(up) && up[0] == '-' <==> sign == "-")
  {
    var up := sign + body;
    if sign == "" {
      assert up == body;
    } else {
      assert up[0] == sign[0] && up[1..] == body;
    }
  }

  lemma SignFound(sign: string, body: string)
    requires (sign == "" || sign == "+" || sign == "-") && body != "" && body[0] == 'P'
    ensures MatchISO(sign + body) == MatchAfterP(sign == "-", body[1..])
  {
    SignKept(sign, body);
  }

  lemma Found(w: Written)
    requires Proper(w)
    ensures MatchISO(Spell(w)) == Some(AsMatch(w))
  {
    FoundAfterP(w);
    var body := "P" + AfterP(w);
    assert body[1..] == AfterP(w);
    SignFound(w.sign, body);
  }

  // ----- Case and white space -----

  predicate Inked(c: char) {
    '0' <= c <= '9' || c == '.' || c == '+' || c == '-' || 'A' <= c <= 'Z'
  }

  predicate AllInked(s: string) {
    forall i | 0 <= i < |s| :: Inked(s[i])
  }

  lemma NumeralInked(t: string)
    requires Optional(t)
    ensures AllInked(t)
  {
    if Numeral(t) && !Digits(t) {
      var whole, frac :| Digits(whole) && Digits(frac) && t == whole + "." + frac;
    }
  }

  lemma PartInked(t: string, letter: char)
    requires Optional(t) && 'A' <= letter <= 'Z'
    ensures AllInked(Part(t, letter))
  {
    NumeralInked(t);
  }

  lemma SpellInked(w: Written)
    requires Proper(w)
    ensures Spell(w) != "" && AllInked(Spell(w))
  {
    PartInked(w.years, 'Y');
    PartInked(w.months, 'M');
    PartInked(w.days, 'D');
    PartInked(w.hours, 'H');
    PartInked(w.minutes, 'M');
    PartInked(w.seconds, 'S');
    assert AllInked(Time(w)) && AllInked(w.sign);
  }

  lemma TrimFront(c: char, t: string)
    requires Blank(c)
    ensures TrimSpace([c] + t) == TrimSpace(t)
  {
    assert ([c] + t)[1..] == t;
  }

  lemma TrimBack(t: string, c: char)
    requires t != "" && !Blank(t[0]) && Blank(c)
    ensures TrimSpace(t + [c]) == TrimSpace(t)
  {
    var s := t + [c];
    assert s[0] == t[0] && s[|s| - 1] == c && s[..|s| - 1] == t;
  }

  lemma {:induction false} TrimsTo(a: string, core: string, b: string)
    requires AllBlank(a) && AllBlank(b) && core != "" && !Blank(core[0]) && !Blank(core[|core| - 1])
    ensures TrimSpace(a + core + b) == core
    decreases |a| + |b|
  {
    if a != "" {
      TrimsTo(a[1..], core, b);
      TrimFront(a[0], a[1..] + core + b);
      assert [a[0]] + (a[1..] + core + b) == a + core + b;
    } else if b != "" {
      var n := |b| - 1;
      TrimsTo(a, core, b[..n]);
      assert (a + core + b[..n])[0] == core[0];
      TrimBack(a + core + b[..n], b[n]);
      assert a + core + b[..n] + [b[n]] == a + core + b;
    } else {
      assert a + core + b == core;
    }
  }

  lemma UpperIs(core: string, text: string)
    requires InAnyCase(core, text) && AllInked(text)
    ensures Upper(core) == text
  {
    forall i | 0 <= i < |text| ensures UpperChar(core[i]) == text[i] {
      assert SameLetter(core[i], text[i]) && Inked(text[i]);
    }
  }

  lemma Prepared(a: string, core: string, b: string, text: string)
    requires AllBlank(a) && AllBlank(b) && InAnyCase(core, text) && text != "" && AllInked(text)
    ensures Upper(TrimSpace(a + core + b)) == text
  {
    assert SameLetter(core[0], text[0]) && Inked(text[0]);
    assert SameLetter(core[|core| - 1], text[|core| - 1]) && Inked(text[|core| - 1]);
    TrimsTo(a, core, b);
    UpperIs(core, text);
  }

  /**
   Every text of the grammar, in any case and with white space around it: accepted
   exactly when it has a part and neither years nor months, with the signed sum of
   its parts as its value.
   */
  lemma WrittenAccepted(a: string, core: string, b: string, w: Written)
    requires AllBlank(a) && AllBlank(b) && Proper(w) && InAnyCase(core, Spell(w))
    ensures DtDuration(a + core + b) == if SomePresent(w) && w.years == "" && w.months == "" then Ok(Amount(w)) else Fail
  {
    SpellInked(w);
    Prepared(a, core, b, Spell(w));
    Found(w);
    Decides(a + core + b, Spell(w), AsMatch(w));
    SignedSum(w);
  }

  function AsMatch(w: Written): Match {
    Match(w.sign == "-", w.years, w.months, w.days, w.hours, w.minutes, w.seconds)
  }

  lemma Decides(s: string, up: string, m: Match)
    requires Upper(TrimSpace(s)) == up && MatchISO(up) == Some(m)
    ensures DtDuration(s) == if NoDesignator(m) || m.years != "" || m.months != "" then Fail else Ok(SecondsOf(m))
  {
  }

  lemma SignedSum(w: Written)
    ensures SecondsOf(AsMatch(w)) == Amount(w)
  {
  }

  // ----- Nothing else is accepted -----

  lemma TakeSplits(s: string, letter: char)
    ensures s == Part(Take(s, letter).text, letter) + Take(s, letter).rest
    ensures Optional(Take(s, letter).text)
  {
    var k := NumberEnd(s);
    if 0 < k < |s| && s[k] == letter {
      assert s == s[..k] + [letter] + s[k + 1..];
      NumberAlone(s, k);
      NumeralIff(s[..k]);
    }
  }

  /** A number found in front of other text is a number by itself. */
  lemma NumberAlone(s: string, k: nat)
    requires 0 < k <= |s| && NumberEnd(s) == k
    ensures IsNumber(s[..k])
  {
    var run := DigitRun(s);
    if k == run {
      DigitsAreNumber(s[..k]);
    } else {
      var more := DigitRun(s[run + 1..]);
      var whole, frac := s[..run], s[run + 1..][..more];
      assert s[..k] == whole + "." + frac;
      PointedIsNumber(whole, frac);
    }
  }

  lemma TimeSplits(t: string)
    requires t != "" && t[0] == 'T' && Take(Take(Take(t[1..], 'H').rest, 'M').rest, 'S').rest == ""
    ensures var hours := Take(t[1..], 'H'); var minutes := Take(hours.rest, 'M'); var seconds := Take(minutes.rest, 'S');
      && Optional(hours.text) && Optional(minutes.text) && Optional(seconds.text)
      && t == "T" + (Part(hours.text, 'H') + (Part(minutes.text, 'M') + Part(seconds.text, 'S')))
  {
    var hours := Take(t[1..], 'H');
    var minutes := Take(hours.rest, 'M');
    var seconds := Take(minutes.rest, 'S');
    TakeSplits(t[1..], 'H');
    TakeSplits(hours.rest, 'M');
    TakeSplits(minutes.rest, 'S');
    TimeJoins(t, Part(hours.text, 'H'), hours.rest, Part(minutes.text, 'M'), minutes.rest, Part(seconds.text, 'S'), seconds.rest);
  }

  lemma TimeJoins(t: string, h: string, afterH: string, m: string, afterM: string, s: string, afterS: string)
    requires t != "" && t[0] == 'T' && t[1..] == h + afterH && afterH == m + afterM && afterM == s + afterS && afterS == ""
    ensures t == "T" + (h + (m + s))
  {
    assert s + afterS == s;
    assert t == [t[0]] + t[1..];
  }

  lemma BodySplits(negative: bool, s: string, sign: string) returns (w: Written)
    requires MatchAfterP(negative, s).Some? && (sign == "" || sign == "+" || sign == "-")
    ensures Proper(w) && w.sign == sign && Spell(w) == sign + ("P" + s)
  {
    var years := Take(s, 'Y');
    var months := Take(years.rest, 'M');
    var days := Take(months.rest, 'D');
    TakeSplits(s, 'Y');
    TakeSplits(years.rest, 'M');
    TakeSplits(months.rest, 'D');
    if days.rest == "" {
      w := Written(sign, years.text, months.text, days.text, false, "", "", "");
    } else {
      var hours := Take(days.rest[1..], 'H');
      var minutes := Take(hours.rest, 'M');
      TimeSplits(days.rest);
      w := Written(sign, years.text, months.text, days.text, true, hours.text, minutes.text, Take(minutes.rest, 'S').text);
    }
  }

  lemma MatchedIsSpelled(up: string) returns (w: Written)
    requires MatchISO(up).Some?
    ensures Proper(w) && Spell(w) == up
  {
    var sign := SignSplits(up);
    w := BodySplits(Signed(up) && up[0] == '-', AfterSign(up)[1..], sign);
  }

  lemma SignSplits(up: string) returns (sign: string)
    requires AfterSign(up) != "" && AfterSign(up)[0] == 'P'
    ensures (sign == "" || sign == "+" || sign == "-") && up == sign + ("P" + AfterSign(up)[1..])
  {
    var t := AfterSign(up);
    assert t == [t[0]] + t[1..];
    sign := if Signed(up) then [up[0]] else "";
    assert up == sign + t;
  }

  lemma {:induction false} TrimSplits(s: string) returns (a: string, b: string)
    ensures AllBlank(a) && AllBlank(b) && s == a + TrimSpace(s) + b
    decreases |s|
  {
    a, b := "", "";
    if s != "" && IsSpace(s[0]) {
      a, b := TrimSplits(s[1..]);
      a := [s[0]] + a;
    } else if s != "" && IsSpace(s[|s| - 1]) {
      a, b := TrimSplits(s[..|s| - 1]);
      b := b + [s[|s| - 1]];
    }
  }

  lemma UpperUndone(core: string)
    requires AllInked(Upper(core))
    ensures InAnyCase(core, Upper(core))
  {
    forall i | 0 <= i < |core| ensures SameLetter(core[i], Upper(core)[i]) {
      assert Inked(Upper(core)[i]) && Upper(core)[i] == UpperChar(core[i]);
    }
  }

  /** Whatever is accepted was written by the grammar, with some part and without years or months. */
  lemma AcceptedIsWritten(s: string) returns (a: string, core: string, b: string, w: Written)
    requires DtDuration(s).Ok?
    ensures AllBlank(a) && AllBlank(b) && s == a + core + b && Proper(w) && InAnyCase(core, Spell(w))
    ensures SomePresent(w) && w.years == "" && w.months == ""
  {
    core := TrimSpace(s);
    a, b := TrimSplits(s);
    w := MatchedIsSpelled(Upper(core));
    SpellInked(w);
    UpperUndone(core);
    WrittenAccepted(a, core, b, w);
  }
}
