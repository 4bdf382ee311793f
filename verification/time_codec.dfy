/**
 * The time codec of the overtime calculator: `timeToMinutes` reads the first
 * `H:MM` found in a table cell as a minute count, `minutesToTime` renders a
 * signed minute count as `[-]H:MM`.
 */
module TimeCodec {
  import opened Wrappers
  import opened Text

  function Abs(n: int): nat {
    if n < 0 then -n else n
  }

  // ---------------------------------------------------------------------------
  // The rendered form
  // ---------------------------------------------------------------------------

  /**
   * An unsigned clock text `H:MM`: canonical decimal hours, a colon, exactly two
   * minute digits worth less than 60.
   */
  predicate IsClock(t: string) {
    |t| >= 4 && t[|t| - 3] == ':' &&
    IsCanonicalDecimal(t[..|t| - 3]) &&
    AllDigits(t[|t| - 2..]) && DigitsValue(t[|t| - 2..]) < 60
  }

  function ClockHours(t: string): nat
    requires IsClock(t)
  {
    DigitsValue(t[..|t| - 3])
  }

  function ClockMinutes(t: string): nat
    requires IsClock(t)
  {
    DigitsValue(t[|t| - 2..])
  }

  /** The decimal text of a number below 100 has at most two digits. */
  lemma DecimalBelowHundred(n: nat)
    requires n < 100
    ensures |NatToDecimal(n)| <= 2
  {
    if n >= 10 {
      assert |NatToDecimal(n / 10)| == 1;
    }
  }

  /** The two-digit minute field: `mins.toString().padStart(2, '0')`. */
  function MinuteField(mins: nat): (r: string)
    requires mins < 60
    ensures |r| == 2
  {
    DecimalBelowHundred(mins);
    PadStart(NatToDecimal(mins), 2, '0')
  }

  /** The minute field holds two digits whose value is the minute count. */
  lemma MinuteFieldValue(mins: nat)
    requires mins < 60
    ensures AllDigits(MinuteField(mins)) && DigitsValue(MinuteField(mins)) == mins
  {
    var d := NatToDecimal(mins);
    var r := MinuteField(mins);
    DecimalValue(mins);
    DecimalBelowHundred(mins);
    if |d| == 1 {
      assert r == ['0'] + d;
      assert r[..1] == ['0'];
    } else {
      assert r == d;
    }
  }

  /** The unsigned part of `minutesToTime`: hours, a colon and the two-digit minutes of `n`. */
  function Clock(n: nat): (t: string)
    ensures |t| >= 4 && t[0] != '-'
  {
    var hours := NatToDecimal(n / 60);
    var t := hours + ":" + MinuteField(n % 60);
    assert t[0] == hours[0] && hours[0] == NatToDecimal(n / 60)[0];
    DecimalValue(n / 60);
    t
  }

  /** Hours, a colon and a two-digit minute field form a clock text with those parts. */
  lemma JoinClock(hours: string, mins: string)
    requires IsCanonicalDecimal(hours)
    requires |mins| == 2 && AllDigits(mins) && DigitsValue(mins) < 60
    ensures IsClock(hours + ":" + mins)
    ensures ClockHours(hours + ":" + mins) == DigitsValue(hours)
    ensures ClockMinutes(hours + ":" + mins) == DigitsValue(mins)
  {
    var t := hours + ":" + mins;
    assert |t| == |hours| + 3;
    assert t[..|t| - 3] == hours;
    assert t[|t| - 2..] == mins;
    assert t[|t| - 3] == ':';
    assert IsCanonicalDecimal(t[..|t| - 3]);
    assert AllDigits(t[|t| - 2..]) && DigitsValue(t[|t| - 2..]) < 60;
  }

  /** The clock text of `n` is well formed and its hours and minutes make up `n`. */
  lemma ClockValue(n: nat)
    ensures IsClock(Clock(n))
    ensures ClockHours(Clock(n)) * 60 + ClockMinutes(Clock(n)) == n
  {
    var hours := NatToDecimal(n / 60);
    var mins := MinuteField(n % 60);
    DecimalValue(n / 60);
    MinuteFieldValue(n % 60);
    JoinClock(hours, mins);
    assert Clock(n) == hours + ":" + mins;
  }

  /** `minutesToTime`: the sign of a negative count, then the clock text of its magnitude. */
  function MinutesToTime(minutes: int): (r: string)
    ensures |r| > 0 && (r[0] == '-' <==> minutes < 0)
  {
    var body := Clock(Abs(minutes));
    if minutes < 0 then "-" + body else body
  }

  /** A negative count renders as its magnitude with a minus sign in front. */
  lemma MinutesToTimeNegative(m: int)
    requires m > 0
    ensures MinutesToTime(-m) == "-" + MinutesToTime(m)
  {
  }

  /**
   * The rendering is a sign exactly for negative counts, then a clock text whose
   * hours and minutes make up the magnitude of the count.
   */
  lemma MinutesToTimeShape(minutes: int)
    ensures var r := MinutesToTime(minutes);
            var body := if minutes < 0 then r[1..] else r;
            IsClock(body) && ClockHours(body) * 60 + ClockMinutes(body) == Abs(minutes)
  {
    var r := MinutesToTime(minutes);
    var body := Clock(Abs(minutes));
    ClockValue(Abs(minutes));
    if minutes < 0 {
      assert r == "-" + body;
      assert r[1..] == body;
    }
  }

  // ---------------------------------------------------------------------------
  // Parsing
  // ---------------------------------------------------------------------------

  /** `timeToMinutes`: the guards for empty, `-` and blank text, then the first `H:MM` match. */
  function TimeToMinutes(timeStr: string): (r: nat)
    ensures timeStr == [] || timeStr == "-" || AllSpace(timeStr) ==> r == 0
    ensures NoMatch(timeStr, ':') ==> r == 0
  {
    if |timeStr| == 0 || timeStr == "-" || Trim(timeStr) == "" then 0
    else
      match MatchPair(timeStr, ':')
      case None => 0
      case Some((hours, mins)) => hours * 60 + mins
  }

  /** Whenever the text holds an `H:MM` match, the result is read from the leftmost one. */
  lemma TimeToMinutesLeftmost(timeStr: string, i: nat)
    requires IsLeftmostMatch(timeStr, i, ':')
    ensures TimeToMinutes(timeStr) == Groups(timeStr, i, ':').0 * 60 + Groups(timeStr, i, ':').1
  {
    MatchPairIsLeftmost(timeStr, i, ':');
    assert !IsJsSpace(timeStr[i]);
    assert timeStr != "-" by {
      assert timeStr[i] != '-';
    }
  }

  /** A digit run from `i` that stops at a non-digit `j` ends exactly at `j`. */
  lemma {:induction false} RunEndOfDigits(s: string, i: nat, j: nat)
    requires i <= j < |s| && !IsDigit(s[j])
    requires forall k :: i <= k < j ==> IsDigit(s[k])
    ensures RunEnd(s, i) == j
    decreases j - i
  {
    if i < j {
      RunEndOfDigits(s, i + 1, j);
    }
  }

  /** A run of digits that reaches the end of the text ends there. */
  lemma {:induction false} RunEndToEnd(s: string, i: nat)
    requires i <= |s|
    requires forall k :: i <= k < |s| ==> IsDigit(s[k])
    ensures RunEnd(s, i) == |s|
    decreases |s| - i
  {
    if i < |s| {
      RunEndToEnd(s, i + 1);
    }
  }

  /** In a clock text after an optional non-digit, the leftmost `H:MM` match is the clock itself. */
  lemma ClockMatch(s: string, start: nat)
    requires start <= 1 && start < |s| && IsClock(s[start..])
    requires start == 1 ==> !IsDigit(s[0])
    ensures IsLeftmostMatch(s, start, ':')
    ensures Groups(s, start, ':') == (ClockHours(s[start..]), ClockMinutes(s[start..]))
  {
    var t := s[start..];
    var c := |s| - 3;
    var hours := t[..|t| - 3];
    var mins := t[|t| - 2..];
    assert s[start..c] == hours;
    assert s[c + 1..] == mins;
    assert s[c] == ':';
    forall k | start <= k < c
      ensures IsDigit(s[k])
    {
      assert s[k] == hours[k - start];
    }
    RunEndOfDigits(s, start, c);
    assert IsDigit(s[c + 1]) && IsDigit(s[c + 2]) by {
      assert s[c + 1] == mins[0] && s[c + 2] == mins[1];
    }
    RunEndToEnd(s, c + 1);
    assert MatchAt(s, start, ':');
    assert s[c + 1..|s|] == mins;
  }

  /** A clock text, after an optional sign, is read back as its own hours and minutes. */
  lemma ReadClock(s: string, start: nat)
    requires start <= 1 && start < |s| && IsClock(s[start..])
    requires start == 1 ==> !IsDigit(s[0])
    ensures TimeToMinutes(s) == ClockHours(s[start..]) * 60 + ClockMinutes(s[start..])
  {
    ClockMatch(s, start);
    TimeToMinutesLeftmost(s, start);
  }

  // ---------------------------------------------------------------------------
  // Round trips
  // ---------------------------------------------------------------------------

  /**
   * Reading back a rendered minute count gives its magnitude: the sign is not
   * parsed, so non-negative counts survive the round trip exactly.
   */
  lemma TimeRoundTrip(minutes: int)
    ensures TimeToMinutes(MinutesToTime(minutes)) == Abs(minutes)
    ensures minutes >= 0 ==> TimeToMinutes(MinutesToTime(minutes)) == minutes
  {
    var r := MinutesToTime(minutes);
    MinutesToTimeShape(minutes);
    if minutes < 0 {
      ReadClock(r, 1);
    } else {
      ReadClock(r, 0);
    }
  }

  /** Two digits with a leading zero render back from their value through the padding. */
  lemma MinuteFieldRoundTrip(m: string)
    requires |m| == 2 && AllDigits(m) && DigitsValue(m) < 60
    ensures MinuteField(DigitsValue(m)) == m
  {
    if m[0] == '0' {
      assert m[..1] == ['0'];
      assert DigitsValue(m) == DigitValue(m[1]);
      assert NatToDecimal(DigitsValue(m)) == [m[1]];
      assert m == ['0'] + [m[1]];
    } else {
      DecimalRoundTrip(m);
    }
  }

  lemma DivMod60(hours: nat, mins: nat)
    requires mins < 60
    ensures (hours * 60 + mins) / 60 == hours && (hours * 60 + mins) % 60 == mins
  {
  }

  lemma ClockSplit(t: string)
    requires |t| >= 4 && t[|t| - 3] == ':'
    ensures t == t[..|t| - 3] + ":" + t[|t| - 2..]
  {
    var u := t[..|t| - 3] + ":" + t[|t| - 2..];
    assert |u| == |t|;
    forall i | 0 <= i < |t|
      ensures t[i] == u[i]
    {
    }
  }

  /** Rendering the hours and minutes of a clock text gives the same text back. */
  lemma RenderClock(t: string, n: nat)
    requires IsClock(t) && n == ClockHours(t) * 60 + ClockMinutes(t)
    ensures MinutesToTime(n) == t
  {
    var h := t[..|t| - 3];
    var m := t[|t| - 2..];
    DivMod60(DigitsValue(h), DigitsValue(m));
    DecimalRoundTrip(h);
    MinuteFieldRoundTrip(m);
    assert MinutesToTime(n) == Clock(n);
    var hours := NatToDecimal(n / 60);
    var mins := MinuteField(n % 60);
    assert n / 60 == DigitsValue(h) && n % 60 == DigitsValue(m);
    assert hours == h;
    assert mins == MinuteField(DigitsValue(m));
    assert Clock(n) == hours + ":" + mins;
    ClockSplit(t);
  }

  /** Rendering the value of a clock text gives the same text back. */
  lemma ClockRoundTrip(t: string)
    requires IsClock(t)
    ensures MinutesToTime(TimeToMinutes(t)) == t
  {
    ReadClock(t, 0);
    RenderClock(t, TimeToMinutes(t));
  }

  /** A clock text and the count of minutes it stands for convert into each other. */
  lemma ClockText(t: string, n: nat)
    requires IsClock(t) && ClockHours(t) * 60 + ClockMinutes(t) == n
    ensures TimeToMinutes(t) == n
    ensures MinutesToTime(n) == t
  {
    ReadClock(t, 0);
    RenderClock(t, n);
  }

  /** The negative of a positive count renders as its clock text behind a minus sign. */
  lemma NegativeClockText(t: string, n: int)
    requires IsClock(t) && ClockHours(t) * 60 + ClockMinutes(t) == n && n > 0
    ensures MinutesToTime(-n) == "-" + t
  {
    ClockText(t, n);
    MinutesToTimeNegative(n);
  }
}
