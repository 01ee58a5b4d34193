/**
 The canonical text of a days-time duration and the parser of ISO 8601 duration
 text (core/days_time_duration.go, core/duration_parse.go), and when they are
 inverse to each other.
 */
module DurationText {
  import opened Prelude
  import opened Decimals
  import opened DurationParts

  // ----- Printing decimals -----

  function PrintInt(n: int): string {
    if n < 0 then "-" + Print(-n) else Print(n)
  }

  /** The last `width` digits of n. */
  function Padded(n: nat, width: nat): (t: string)
    ensures |t| == width && AllDigits(t)
  {
    if width == 0 then "" else Padded(n / 10, width - 1) + [DigitChar(n % 10)]
  }

  function Trimmed(t: string): string {
    if t != "" && t[|t| - 1] == '0' then Trimmed(t[..|t| - 1]) else t
  }

  /** n in units of 10^-scale, without trailing zeros. */
  function PrintFixed(n: int, scale: nat): string {
    (if n < 0 then "-" else "") + PrintAbs(Abs(n), scale)
  }

  function PrintAbs(n: nat, scale: nat): string {
    var frac := Trimmed(Padded(Remainder(n, Pow10(scale)), scale));
    Print(Quotient(n, Pow10(scale))) + if frac == "" then "" else "." + frac
  }

  function Quotient(n: nat, d: int): (q: nat)
    requires d > 0
  {
    QuotientNotNegative(n, d);
    n / d
  }

  function Remainder(n: nat, d: int): (r: nat)
    requires d > 0
  {
    Divides(n, d);
    n % d
  }

  // ----- Printing durations -----

  function Piece(text: string, letter: char): string {
    if text == "" then "" else text + [letter]
  }

  /** A part that is zero is left out. */
  function WholeText(n: int): string {
    if n == 0 then "" else PrintInt(n)
  }

  function FixedText(n: int, scale: nat): string {
    if n == 0 then "" else PrintFixed(n, scale)
  }

  function TimeBody(h: string, m: string, s: string): string {
    Piece(h, 'H') + (Piece(m, 'M') + Piece(s, 'S'))
  }

  function Body(d: string, h: string, m: string, s: string): string {
    "P" + (Piece(d, 'D') + if h == "" && m == "" && s == "" then "" else "T" + TimeBody(h, m, s))
  }

  function Rendered(parts: Parts, scale: nat): string {
    Body(WholeText(parts.days), WholeText(parts.hours), WholeText(parts.minutes), FixedText(parts.seconds, scale))
  }

  /** The one duration none of whose parts is printed. */
  const ZERO_TEXT: string := "PT0S"

  function Format(a: int, scale: nat): string {
    if a == 0 then ZERO_TEXT else (if a < 0 then "-" else "") + Rendered(PartsOf(Abs(a), scale), scale)
  }

  /** The remainder is worked down part by part while the text is built up. */
  method FormatDTDuration(secs: int, scale: nat) returns (b: string)
    ensures b == Format(secs, scale)
  {
    if secs == 0 {
      return ZERO_TEXT;
    }
    var sign := "";
    var a := secs;
    if a < 0 {
      sign := "-";
      a := -a;
    }
    var days := FloorOfRounded(a, Day(scale));
    var rem := a - Day(scale) * days;
    var hours := FloorOfRounded(rem, Hour(scale));
    rem := rem - Hour(scale) * hours;
    var minutes := FloorOfRounded(rem, Minute(scale));
    var seconds := rem - Minute(scale) * minutes;
    assert Parts(days, hours, minutes, seconds) == PartsOf(Abs(secs), scale);
    var body := WriteBody(Parts(days, hours, minutes, seconds), scale);
    b := sign + body;
  }

  method WriteBody(parts: Parts, scale: nat) returns (b: string)
    ensures b == Rendered(parts, scale)
  {
    NonEmptyTexts(parts, scale);
    ghost var d, h, m, s := WholeText(parts.days), WholeText(parts.hours), WholeText(parts.minutes), FixedText(parts.seconds, scale);
    b := "P";
    if parts.days != 0 {
      b := b + (PrintInt(parts.days) + "D");
    }
    assert b == "P" + Piece(d, 'D');
    if parts.hours != 0 || parts.minutes != 0 || parts.seconds != 0 {
      b := b + "T";
      if parts.hours != 0 {
        b := b + (PrintInt(parts.hours) + "H");
      }
      assert b == "P" + Piece(d, 'D') + "T" + Piece(h, 'H');
      if parts.minutes != 0 {
        b := b + (PrintInt(parts.minutes) + "M");
      }
      assert b == "P" + Piece(d, 'D') + "T" + Piece(h, 'H') + Piece(m, 'M');
      if parts.seconds != 0 {
        b := b + (PrintFixed(parts.seconds, scale) + "S");
      }
      assert b == "P" + Piece(d, 'D') + "T" + Piece(h, 'H') + Piece(m, 'M') + Piece(s, 'S');
      Regrouped("P", Piece(d, 'D'), "T", Piece(h, 'H'), Piece(m, 'M'), Piece(s, 'S'));
    } else {
      assert b == "P" + (Piece(d, 'D') + "");
    }
  }

  lemma Regrouped(a: string, b: string, c: string, d: string, e: string, f: string)
    ensures a + b + c + d + e + f == a + (b + (c + (d + (e + f))))
  {
  }

  lemma NonEmptyTexts(parts: Parts, scale: nat)
    ensures WholeText(parts.days) == "" <==> parts.days == 0
    ensures WholeText(parts.hours) == "" <==> parts.hours == 0
    ensures WholeText(parts.minutes) == "" <==> parts.minutes == 0
    ensures FixedText(parts.seconds, scale) == "" <==> parts.seconds == 0
  {
  }

  // ----- Parsing -----

  function DigitRun(s: string): (k: nat)
    ensures k <= |s| && AllDigits(s[..k]) && (k < |s| ==> !IsDigit(s[k]))
  {
    if s == "" || !IsDigit(s[0]) then 0
    else
      var k := 1 + DigitRun(s[1..]);
      assert s[..k] == [s[0]] + s[1..][..k - 1];
      k
  }

  /** Where a number ends: digits, and a point only if digits follow it. */
  function NumberEnd(s: string): (k: nat)
    ensures k <= |s|
  {
    var k := DigitRun(s);
    if 0 < k < |s| && s[k] == '.' && DigitRun(s[k + 1..]) > 0 then k + 1 + DigitRun(s[k + 1..]) else k
  }

  ghost predicate IsNumber(text: string) {
    text != "" && NumberEnd(text) == |text|
  }

  datatype Taken = Taken(text: string, rest: string)

  /** A number followed by its designator, if they are there. */
  function Take(s: string, letter: char): Taken {
    var k := NumberEnd(s);
    if 0 < k < |s| && s[k] == letter then Taken(s[..k], s[k + 1..]) else Taken("", s)
  }

  datatype Match = Match(negative: bool, years: string, months: string, days: string, hours: string, minutes: string, seconds: string)

  predicate Signed(up: string) {
    up != "" && (up[0] == '+' || up[0] == '-')
  }

  function AfterSign(up: string): string {
    if Signed(up) then up[1..] else up
  }

  /** The pattern of an ISO 8601 duration, anchored at both ends. */
  function MatchISO(up: string): Option<Match> {
    var t := AfterSign(up);
    if t == "" || t[0] != 'P' then None else MatchAfterP(Signed(up) && up[0] == '-', t[1..])
  }

  function MatchAfterP(negative: bool, s: string): Option<Match> {
    var years := Take(s, 'Y');
    var months := Take(years.rest, 'M');
    var days := Take(months.rest, 'D');
    if days.rest == "" then Some(Match(negative, years.text, months.text, days.text, "", "", ""))
    else if days.rest[0] != 'T' then None
    else
      var hours := Take(days.rest[1..], 'H');
      var minutes := Take(hours.rest, 'M');
      var seconds := Take(minutes.rest, 'S');
      if seconds.rest != "" then None
      else Some(Match(negative, years.text, months.text, days.text, hours.text, minutes.text, seconds.text))
  }

  function UpperChar(c: char): char {
    if 'a' <= c <= 'z' then ((c as int - 32) as char) else if c == '\U{17F}' then 'S' else c
  }

  function Upper(s: string): (r: string)
    ensures |r| == |s| && forall i | 0 <= i < |s| :: r[i] == UpperChar(s[i])
  {
    seq(|s|, i requires 0 <= i < |s| => UpperChar(s[i]))
  }

  predicate IsSpace(c: char) {
    c == ' ' || '\t' <= c <= '\r' || c == '\U{85}' || c == '\U{A0}' || c == '\U{1680}' || '\U{2000}' <= c <= '\U{200A}'
    || c == '\U{2028}' || c == '\U{2029}' || c == '\U{202F}' || c == '\U{205F}' || c == '\U{3000}'
  }

  function TrimSpace(s: string): string {
    if s != "" && IsSpace(s[0]) then TrimSpace(s[1..])
    else if s != "" && IsSpace(s[|s| - 1]) then TrimSpace(s[..|s| - 1])
    else s
  }

  predicate NoDesignator(m: Match) {
    m.years == "" && m.months == "" && m.days == "" && m.hours == "" && m.minutes == "" && m.seconds == ""
  }

  /** The pattern, and at least one designator. */
  function ParseISODuration(s: string): Option<Match> {
    var m := MatchISO(Upper(TrimSpace(s)));
    if m.None? || NoDesignator(m.value) then None else m
  }

  /** The value of the digits after a point. */
  function FracValue(t: string): real
    requires AllDigits(t)
  {
    if t == "" then 0.0 else (DigitValue(t[0]) as real + FracValue(t[1..])) / 10.0
  }

  /** The value of a number's text; nothing stands for zero. */
  function Value(text: string): real {
    var k := DigitRun(text);
    var frac := if k < |text| then text[k + 1..] else "";
    Read(text[..k]) as real + if AllDigits(frac) then FracValue(frac) else 0.0
  }

  function Sum(days: real, hours: real, minutes: real, seconds: real): real {
    days * 86400.0 + hours * 3600.0 + minutes * 60.0 + seconds
  }

  function SecondsOf(m: Match): real {
    var total := Sum(Value(m.days), Value(m.hours), Value(m.minutes), Value(m.seconds));
    if m.negative then -total else total
  }

  /** The duration in seconds; year and month designators are refused. */
  function DtDuration(s: string): Outcome<real> {
    match ParseISODuration(s)
    case None => Fail
    case Some(m) => if m.years != "" || m.months != "" then Fail else Ok(SecondsOf(m))
  }
}
