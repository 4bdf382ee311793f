/**
 * Worked examples: the conversions quoted in the script's comments, the
 * readings of placeholder cells, and two small months run through the analyzer.
 */
module Scenarios {
  import opened Text
  import opened TimeCodec
  import opened Attendance
  import opened Overtime

  /** The value of a two-digit text. */
  lemma TwoDigits(s: string)
    requires |s| == 2 && AllDigits(s)
    ensures DigitsValue(s) == DigitValue(s[0]) * 10 + DigitValue(s[1])
  {
    var p := s[..1];
    assert p[..0] == [] && p[0] == s[0];
    assert DigitsValue(p) == DigitValue(s[0]);
  }

  /** The examples in the comments above the two converters: 8:30 is 510 minutes, and back. */
  lemma HalfPastEight()
    ensures MinutesToTime(510) == "8:30"
    ensures TimeToMinutes("8:30") == 510
  {
    var t := "8:30";
    assert t[..1] == "8" && t[2..] == "30";
    TwoDigits("30");
    assert [t[0]][..0] == [];
    ClockText(t, 510);
  }

  /** Half an hour short is rendered with the sign in front of a zero hour. */
  lemma MinusHalfHour()
    ensures MinutesToTime(-30) == "-0:30"
  {
    var t := "0:30";
    assert t[..1] == "0" && "0"[..0] == [] && t[2..] == "30";
    TwoDigits("30");
    assert "-" + t == "-0:30";
    NegativeClockText(t, 30);
  }

  /** Five minutes short keeps the zero padding of the minute field. */
  lemma MinusFiveMinutes()
    ensures MinutesToTime(-5) == "-0:05"
  {
    var t := "0:05";
    assert t[..1] == "0" && "0"[..0] == [] && t[2..] == "05";
    TwoDigits("05");
    assert "-" + t == "-0:05";
    NegativeClockText(t, 5);
  }

  /** No minutes at all is `0:00`. */
  lemma NoMinutes()
    ensures MinutesToTime(0) == "0:00"
  {
    var t := "0:00";
    assert t[..1] == "0" && "0"[..0] == [] && t[2..] == "00";
    TwoDigits("00");
    ClockText(t, 0);
  }

  /** Cells without a time read as zero minutes. */
  lemma PlaceholderReadings()
    ensures TimeToMinutes("") == 0
    ensures TimeToMinutes("-") == 0
    ensures TimeToMinutes("  ") == 0
    ensures TimeToMinutes("garbage") == 0
  {
    assert AllSpace("  ");
    var g := "garbage";
    assert NoMatch(g, ':') by {
      forall q | 0 <= q < |g|
        ensures !MatchAt(g, q, ':')
      {
        assert !IsDigit(g[q]);
      }
    }
  }

  /** `n` copies of one record add `n` times its weight to every tally. */
  lemma {:induction false} SumOfCopies(r: DailyRecord, n: nat, t: Tally)
    ensures Sum(seq(n, _ => r), t) == n * Weight(t, r)
  {
    if n > 0 {
      var rs := seq(n, _ => r);
      assert rs[..n - 1] == seq(n - 1, _ => r);
      SumOfCopies(r, n - 1, t);
    }
  }

  /** A past day with a shift, attendance and 8 hours of work. */
  const EightHourDay := DailyRecord(6, 2, true, true, true, 480, false, false)
  /** A past day with a shift and no attendance: a vacation day. */
  const VacationDay := DailyRecord(6, 3, true, true, false, 0, true, false)
  /** A past day with a shift, attendance and 8:30 of work. */
  const LongDay := DailyRecord(6, 4, true, true, true, 510, false, false)
  /** A day still to come that has a shift. */
  const ShiftAhead := DailyRecord(6, 28, false, true, false, 0, false, false)

  /** The tallies of a single record are its weights. */
  lemma SumOfOne(r: DailyRecord, t: Tally)
    ensures Sum([r], t) == Weight(t, r)
  {
    assert [r][..0] == [];
  }

  /** One eight-hour day and one vacation day leave no overtime. */
  lemma DayAndVacation()
    ensures Consistent(EightHourDay) && Consistent(VacationDay)
    ensures var s := Summarize([EightHourDay, VacationDay], 480.0, 9600);
            && s.actualWorkDays == 1 && s.vacationDays == 1 && s.errorDays == 0
            && s.totalWorkMinutes == 480 && s.currentOvertime == 0.0
  {
    var a, b := [EightHourDay], [VacationDay];
    assert a + b == [EightHourDay, VacationDay];
    SumAppend(a, b, WorkMinutesTotal);
    SumAppend(a, b, WorkDays);
    SumAppend(a, b, VacationDays);
    SumAppend(a, b, ErrorDays);
    SumOfOne(EightHourDay, WorkMinutesTotal);
    SumOfOne(EightHourDay, WorkDays);
    SumOfOne(EightHourDay, VacationDays);
    SumOfOne(EightHourDay, ErrorDays);
    SumOfOne(VacationDay, WorkMinutesTotal);
    SumOfOne(VacationDay, WorkDays);
    SumOfOne(VacationDay, VacationDays);
    SumOfOne(VacationDay, ErrorDays);
  }

  /** An empty month is the whole monthly standard short. */
  lemma EmptyMonth()
    ensures var s := Summarize([], 480.0, 9600);
            && s.actualWorkDays == 0 && s.averageDailyMinutes == 0.0
            && s.projectedMonthEndOvertime == -9600.0
  {
    EmptySummary(480.0, 9600);
  }

  /** The month of the next scenario: twenty long days gone and two shifts ahead. */
  function LongMonthRecords(): seq<DailyRecord> {
    seq(20, _ => LongDay) + seq(2, _ => ShiftAhead)
  }

  /** The tallies of that month. */
  lemma LongMonthTallies(t: Tally)
    ensures Sum(LongMonthRecords(), t) == match t
      case WorkMinutesTotal => 10200
      case WorkDays => 20
      case PastDays => 20
      case RemainingDays => 2
      case _ => 0
  {
    SumAppend(seq(20, _ => LongDay), seq(2, _ => ShiftAhead), t);
    SumOfCopies(LongDay, 20, t);
    SumOfCopies(ShiftAhead, 2, t);
  }

  /**
   * Twenty days of 8:30 against a standard of 8:00 and two shifts ahead: ten
   * hours of overtime so far, and at the same pace 27 hours by the end of
   * the month.
   */
  lemma LongMonth()
    ensures var s := Summarize(LongMonthRecords(), 480.0, 9600);
            && s.totalWorkMinutes == 10200 && s.actualWorkDays == 20 && s.remainingWorkDays == 2
            && s.vacationDays == 0 && s.errorDays == 0
            && s.currentOvertime == 600.0 && s.averageDailyMinutes == 510.0
            && s.projectedMonthEndOvertime == 1620.0
  {
    LongMonthTallies(WorkMinutesTotal);
    LongMonthTallies(WorkDays);
    LongMonthTallies(VacationDays);
    LongMonthTallies(ErrorDays);
    LongMonthTallies(RemainingDays);
    ScaleIsProduct(480.0, 20);
    ScaleIsProduct(510.0, 2);
    assert Average(10200, 20) == 510.0;
  }

  /** The projected 1620 minutes are shown as `27:00`. */
  lemma TwentySevenHours()
    ensures MinutesToTime(1620) == "27:00"
  {
    var t := "27:00";
    assert t[..2] == "27" && t[3..] == "00";
    TwoDigits("27");
    TwoDigits("00");
    ClockText(t, 1620);
  }
}
