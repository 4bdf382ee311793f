/**
 * The overtime analyzer: one pass over the daily records that counts worked,
 * vacation, error and remaining shift days and sums the minutes worked, then
 * the figures derived from those counters, and the whole calculation from the
 * two page figures and the attendance table to the summary.
 */
module Overtime {
  import opened Wrappers
  import opened Attendance

  /** What the analyzer reports (lines 221-231). */
  datatype Summary = Summary(
    totalWorkMinutes: int,
    actualWorkDays: nat,
    vacationDays: nat,
    errorDays: nat,
    currentOvertime: real,
    remainingWorkDays: nat,
    projectedMonthEndOvertime: real,
    averageDailyMinutes: real,
    monthlyStandardMinutes: int)

  // ---------------------------------------------------------------------------
  // The tallies, as sums over the record sequence
  // ---------------------------------------------------------------------------

  /**
   * The quantities the single pass accumulates: five day counts and the total
   * of the minutes worked on past days.
   */
  datatype Tally = PastDays | WorkDays | VacationDays | ErrorDays | RemainingDays | WorkMinutesTotal

  /** The record classes the analyzer counts; the work-minute total ranges over the work days. */
  predicate Counted(t: Tally, r: DailyRecord) {
    match t
    case PastDays => r.isPastDate
    case WorkDays => r.isPastDate && r.dailyWorkMinutes > 0
    case VacationDays => r.isPastDate && r.isVacation
    case ErrorDays => r.isPastDate && r.isError
    case RemainingDays => !r.isPastDate && r.hasShift
    case WorkMinutesTotal => r.isPastDate && r.dailyWorkMinutes > 0
  }

  /** What one record adds to a tally: one day, or its minutes for the work-minute total. */
  function Weight(t: Tally, r: DailyRecord): int {
    if !Counted(t, r) then 0
    else if t == WorkMinutesTotal then r.dailyWorkMinutes
    else 1
  }

  /** The tally over a sequence of records: the weights of the records it counts, added up. */
  function Sum(rs: seq<DailyRecord>, t: Tally): (s: int)
    ensures s >= 0
    ensures t != WorkMinutesTotal ==> s <= |rs|
  {
    if |rs| == 0 then 0 else Sum(rs[..|rs| - 1], t) + Weight(t, rs[|rs| - 1])
  }

  /**
   * `x * n` for a count `n`, written as `n`-fold addition so that reasoning
   * about the derived figures stays linear; `ScaleIsProduct` shows it is the product.
   */
  function Scale(x: real, n: nat): real {
    if n == 0 then 0.0 else Scale(x, n - 1) + x
  }

  /** Line 213-215: the average work minutes per work day, zero without work days. */
  function Average(total: int, actual: nat): (avg: real)
    ensures actual == 0 ==> avg == 0.0
    ensures actual > 0 ==> Scale(avg, actual) == total as real
  {
    if actual == 0 then 0.0
    else
      var q := total as real / actual as real;
      assert Scale(q, actual) == total as real by {
        ScaleIsProduct(q, actual);
      }
      q
  }

  /** Lines 206-219: the figures derived from the five counters. */
  function Derive(total: int, actual: nat, vacation: nat, error: nat, remaining: nat,
                  standardDailyMinutes: real, monthlyStandardMinutes: int): Summary
  {
    var adjusted := monthlyStandardMinutes as real - Scale(standardDailyMinutes, vacation + error);
    var current := total as real - Scale(standardDailyMinutes, actual);
    var average := Average(total, actual);
    var projectedTotal := total as real + Scale(average, remaining);
    Summary(total, actual, vacation, error, current, remaining, projectedTotal - adjusted, average,
            monthlyStandardMinutes)
  }

  /** The summary of a sequence of records, defined by its tallies rather than by a pass. */
  function Summarize(rs: seq<DailyRecord>, standardDailyMinutes: real, monthlyStandardMinutes: int): Summary {
    Derive(Sum(rs, WorkMinutesTotal), Sum(rs, WorkDays), Sum(rs, VacationDays), Sum(rs, ErrorDays),
           Sum(rs, RemainingDays), standardDailyMinutes, monthlyStandardMinutes)
  }

  // ---------------------------------------------------------------------------
  // The single pass
  // ---------------------------------------------------------------------------

  /**
   * `analyzeOvertime`: the counters accumulated record by record agree with
   * the tallies of the whole sequence.
   */
  method AnalyzeOvertime(records: seq<DailyRecord>, standardDailyMinutes: real, monthlyStandardMinutes: int)
    returns (s: Summary)
    ensures s.totalWorkMinutes == Sum(records, WorkMinutesTotal)
    ensures s.actualWorkDays == Sum(records, WorkDays)
    ensures s.vacationDays == Sum(records, VacationDays)
    ensures s.errorDays == Sum(records, ErrorDays)
    ensures s.remainingWorkDays == Sum(records, RemainingDays)
    ensures s == Summarize(records, standardDailyMinutes, monthlyStandardMinutes)
  {
    var total := 0;
    var actual: nat := 0;
    var remaining: nat := 0;
    var vacation: nat := 0;
    var error: nat := 0;
    var i := 0;
    while i < |records|
      invariant 0 <= i <= |records|
      invariant total == Sum(records[..i], WorkMinutesTotal)
      invariant actual == Sum(records[..i], WorkDays)
      invariant vacation == Sum(records[..i], VacationDays)
      invariant error == Sum(records[..i], ErrorDays)
      invariant remaining == Sum(records[..i], RemainingDays)
    {
      var r := records[i];
      assert records[..i + 1][..i] == records[..i];
      if r.isPastDate {
        if r.dailyWorkMinutes > 0 {
          total := total + r.dailyWorkMinutes;
          actual := actual + 1;
        }
        if r.isVacation {
          vacation := vacation + 1;
        }
        if r.isError {
          error := error + 1;
        }
      } else {
        if r.hasShift {
          remaining := remaining + 1;
        }
      }
      i := i + 1;
    }
    assert records[..i] == records;
    s := Derive(total, actual, vacation, error, remaining, standardDailyMinutes, monthlyStandardMinutes);
  }

  // ---------------------------------------------------------------------------
  // Repeated addition
  // ---------------------------------------------------------------------------

  /** Adding `x` up `n` times is multiplying it by `n`. */
  lemma {:induction false} ScaleIsProduct(x: real, n: nat)
    ensures Scale(x, n) == x * n as real
  {
    if n > 0 {
      ScaleIsProduct(x, n - 1);
      assert x * n as real == x * (n - 1) as real + x;
    }
  }

  /** Adding `x` up `a + b` times is adding it up `a` times and then `b` times. */
  lemma {:induction false} ScaleAdd(x: real, a: nat, b: nat)
    ensures Scale(x, a + b) == Scale(x, a) + Scale(x, b)
    decreases b
  {
    if b > 0 {
      ScaleAdd(x, a, b - 1);
    }
  }

  /** Adding up a difference `n` times is the difference of the two sums. */
  lemma {:induction false} ScaleSub(x: real, y: real, n: nat)
    ensures Scale(x - y, n) == Scale(x, n) - Scale(y, n)
  {
    if n > 0 {
      ScaleSub(x, y, n - 1);
    }
  }

  /** Adding up, `n` times, a number below one gives less than `n`. */
  lemma {:induction false} ScaleBelowCount(x: real, n: nat)
    requires x < 1.0 && n > 0
    ensures Scale(x, n) < n as real
  {
    if n > 1 {
      ScaleBelowCount(x, n - 1);
    }
  }

  // ---------------------------------------------------------------------------
  // Properties of the tallies
  // ---------------------------------------------------------------------------

  /** A tally over two runs of records is the sum of the tallies over each. */
  lemma {:induction false} SumAppend(a: seq<DailyRecord>, b: seq<DailyRecord>, t: Tally)
    ensures Sum(a + b, t) == Sum(a, t) + Sum(b, t)
    decreases |b|
  {
    if |b| == 0 {
      assert a + b == a;
    } else {
      var c := a + b;
      assert c[..|c| - 1] == a + b[..|b| - 1];
      assert c[|c| - 1] == b[|b| - 1];
      SumAppend(a, b[..|b| - 1], t);
    }
  }

  /** Taking one record out of a run takes its weight out of every tally. */
  lemma SumRemove(b: seq<DailyRecord>, j: nat, t: Tally)
    requires j < |b|
    ensures multiset(b[..j] + b[j + 1..]) == multiset(b) - multiset{b[j]}
    ensures Sum(b, t) == Sum(b[..j] + b[j + 1..], t) + Weight(t, b[j])
  {
    var x := b[j];
    assert b == b[..j] + [x] + b[j + 1..];
    SumAppend(b[..j] + [x], b[j + 1..], t);
    SumAppend(b[..j], [x], t);
    SumAppend(b[..j], b[j + 1..], t);
    assert Sum([x], t) == Weight(t, x) by {
      assert [x][..0] == [];
    }
  }

  /** A record of a multiset built from a sequence sits at some index of it. */
  lemma Locate(x: DailyRecord, b: seq<DailyRecord>) returns (j: nat)
    requires x in multiset(b)
    ensures j < |b| && b[j] == x
  {
    assert x in b;
    j :| 0 <= j < |b| && b[j] == x;
  }

  /** A tally does not depend on the order of the records. */
  lemma {:induction false} SumPermutation(a: seq<DailyRecord>, b: seq<DailyRecord>, t: Tally)
    requires multiset(a) == multiset(b)
    ensures Sum(a, t) == Sum(b, t)
    decreases |a|
  {
    if |a| == 0 {
      assert |b| == |multiset(b)| == 0;
    } else {
      var i := |a| - 1;
      var j := Locate(a[i], b);
      SumRemove(a, i, t);
      SumRemove(b, j, t);
      SumPermutation(a[..i] + a[i + 1..], b[..j] + b[j + 1..], t);
    }
  }

  /** Every work day adds at least one minute, so the minutes are at least the work days. */
  lemma {:induction false} MinutesCoverWorkDays(rs: seq<DailyRecord>)
    ensures Sum(rs, WorkMinutesTotal) >= Sum(rs, WorkDays)
  {
    if |rs| > 0 {
      MinutesCoverWorkDays(rs[..|rs| - 1]);
    }
  }

  /**
   * When no record falls in both tally `t1` and tally `t2`, and every record in
   * either falls in `t3`, the two counts together are at most the count of `t3`.
   */
  lemma {:induction false} DisjointCounts(rs: seq<DailyRecord>, t1: Tally, t2: Tally, t3: Tally)
    requires t1 != WorkMinutesTotal && t2 != WorkMinutesTotal && t3 != WorkMinutesTotal
    requires forall k :: 0 <= k < |rs| ==> !(Counted(t1, rs[k]) && Counted(t2, rs[k]))
    requires forall k :: 0 <= k < |rs| ==> (Counted(t1, rs[k]) || Counted(t2, rs[k])) ==> Counted(t3, rs[k])
    ensures Sum(rs, t1) + Sum(rs, t2) <= Sum(rs, t3)
  {
    if |rs| > 0 {
      var init := rs[..|rs| - 1];
      assert forall k :: 0 <= k < |init| ==> init[k] == rs[k];
      DisjointCounts(init, t1, t2, t3);
    }
  }

  /** Every record is either past or not; the remaining shift days are among the latter. */
  lemma {:induction false} PastAndRemaining(rs: seq<DailyRecord>)
    ensures Sum(rs, PastDays) + Sum(rs, RemainingDays) <= |rs|
  {
    if |rs| > 0 {
      PastAndRemaining(rs[..|rs| - 1]);
    }
  }

  /**
   * Over records built by the extractor, a day is never both a work day and an
   * error day, nor both a vacation and an error day; all three are past days.
   */
  lemma PastDayBounds(rs: seq<DailyRecord>)
    requires forall k :: 0 <= k < |rs| ==> Consistent(rs[k])
    ensures Sum(rs, WorkDays) + Sum(rs, ErrorDays) <= Sum(rs, PastDays)
    ensures Sum(rs, VacationDays) + Sum(rs, ErrorDays) <= Sum(rs, PastDays)
  {
    DisjointCounts(rs, WorkDays, ErrorDays, PastDays);
    DisjointCounts(rs, VacationDays, ErrorDays, PastDays);
  }

  // ---------------------------------------------------------------------------
  // Properties of the summary
  // ---------------------------------------------------------------------------

  /** The summary depends only on which records there are, not on their order. */
  lemma SummarizePermutation(a: seq<DailyRecord>, b: seq<DailyRecord>, d: real, m: int)
    requires multiset(a) == multiset(b)
    ensures Summarize(a, d, m) == Summarize(b, d, m)
  {
    SumPermutation(a, b, WorkMinutesTotal);
    SumPermutation(a, b, WorkDays);
    SumPermutation(a, b, VacationDays);
    SumPermutation(a, b, ErrorDays);
    SumPermutation(a, b, RemainingDays);
  }

  /** One more record moves only the tallies it is counted in. */
  lemma SummarizeStep(rs: seq<DailyRecord>, r: DailyRecord, d: real, m: int)
    ensures var before := Summarize(rs, d, m);
            var after := Summarize(rs + [r], d, m);
            && (r.isPastDate ==> after.remainingWorkDays == before.remainingWorkDays)
            && (!r.isPastDate ==>
                  && after.totalWorkMinutes == before.totalWorkMinutes
                  && after.actualWorkDays == before.actualWorkDays
                  && after.vacationDays == before.vacationDays
                  && after.errorDays == before.errorDays)
            && (!r.isPastDate && r.hasShift ==> after.remainingWorkDays == before.remainingWorkDays + 1)
            && (r.isPastDate && r.dailyWorkMinutes > 0 ==>
                  && after.actualWorkDays == before.actualWorkDays + 1
                  && after.totalWorkMinutes == before.totalWorkMinutes + r.dailyWorkMinutes)
            && (r.isPastDate && r.dailyWorkMinutes <= 0 ==>
                  && after.actualWorkDays == before.actualWorkDays
                  && after.totalWorkMinutes == before.totalWorkMinutes)
  {
    assert (rs + [r])[..|rs|] == rs;
  }

  /** With no records every counter is zero and the projection is minus the monthly standard. */
  lemma EmptySummary(d: real, m: int)
    ensures var s := Summarize([], d, m);
            && s.totalWorkMinutes == 0 && s.actualWorkDays == 0 && s.vacationDays == 0
            && s.errorDays == 0 && s.remainingWorkDays == 0
            && s.currentOvertime == 0.0 && s.averageDailyMinutes == 0.0
            && s.projectedMonthEndOvertime == -(m as real)
  {
  }

  /** The derived average, for counters where the minutes cover the work days. */
  lemma DeriveAverage(total: int, actual: nat, vacation: nat, error: nat, remaining: nat, d: real, m: int)
    requires actual <= total && (actual == 0 ==> total == 0)
    ensures var s := Derive(total, actual, vacation, error, remaining, d, m);
            && (s.actualWorkDays == 0 ==> s.averageDailyMinutes == 0.0 && s.totalWorkMinutes == 0)
            && (s.actualWorkDays > 0 ==>
                  && Scale(s.averageDailyMinutes, s.actualWorkDays) == s.totalWorkMinutes as real
                  && s.averageDailyMinutes >= 1.0)
  {
    var avg := Average(total, actual);
    if actual > 0 && avg < 1.0 {
      ScaleBelowCount(avg, actual);
    }
  }

  /** Without work days there are no work minutes either. */
  lemma {:induction false} ZeroWorkDaysZeroMinutes(rs: seq<DailyRecord>)
    ensures Sum(rs, WorkDays) == 0 ==> Sum(rs, WorkMinutesTotal) == 0
  {
    if |rs| > 0 {
      ZeroWorkDaysZeroMinutes(rs[..|rs| - 1]);
    }
  }

  /**
   * The average is zero without work days; otherwise it is the total spread
   * evenly over the work days (taken once per work day it adds up to the
   * total), and at least one minute.
   */
  lemma AverageMeaning(rs: seq<DailyRecord>, d: real, m: int)
    ensures var s := Summarize(rs, d, m);
            && (s.actualWorkDays == 0 ==> s.averageDailyMinutes == 0.0 && s.totalWorkMinutes == 0)
            && (s.actualWorkDays > 0 ==>
                  && Scale(s.averageDailyMinutes, s.actualWorkDays) == s.totalWorkMinutes as real
                  && s.averageDailyMinutes >= 1.0)
  {
    var total, actual := Sum(rs, WorkMinutesTotal), Sum(rs, WorkDays);
    MinutesCoverWorkDays(rs);
    ZeroWorkDaysZeroMinutes(rs);
    DeriveAverage(total, actual, Sum(rs, VacationDays), Sum(rs, ErrorDays), Sum(rs, RemainingDays), d, m);
    assert Summarize(rs, d, m) == Derive(total, actual, Sum(rs, VacationDays), Sum(rs, ErrorDays),
                                         Sum(rs, RemainingDays), d, m);
  }

  /** Minutes worked beyond the standard day, added up over the work days. */
  function Excess(rs: seq<DailyRecord>, d: real): real {
    if |rs| == 0 then 0.0
    else
      var r := rs[|rs| - 1];
      Excess(rs[..|rs| - 1], d) + (if Counted(WorkDays, r) then r.dailyWorkMinutes as real - d else 0.0)
  }

  /** The work minutes less a standard day per work day are the excess of the work days. */
  lemma {:induction false} ExcessIsSums(rs: seq<DailyRecord>, d: real)
    ensures Sum(rs, WorkMinutesTotal) as real - Scale(d, Sum(rs, WorkDays)) == Excess(rs, d)
  {
    if |rs| > 0 {
      ExcessIsSums(rs[..|rs| - 1], d);
    }
  }

  /** The current overtime is the excess over the standard day of each work day, added up. */
  lemma CurrentOvertimeIsExcess(rs: seq<DailyRecord>, d: real, m: int)
    ensures Summarize(rs, d, m).currentOvertime == Excess(rs, d)
  {
    ExcessIsSums(rs, d);
  }

  /** The derived projection, for a monthly standard that is a whole number of standard days. */
  lemma DeriveProjection(total: int, actual: nat, vacation: nat, error: nat, remaining: nat, d: real, m: int)
    requires m as real == Scale(d, actual + vacation + error + remaining)
    ensures var s := Derive(total, actual, vacation, error, remaining, d, m);
            s.projectedMonthEndOvertime == s.currentOvertime + Scale(s.averageDailyMinutes - d, remaining)
  {
    ScaleAdd(d, actual + vacation + error, remaining);
    ScaleAdd(d, actual, vacation + error);
    ScaleSub(Average(total, actual), d, remaining);
  }

  /**
   * When the monthly standard is the standard day times all the days that
   * count (worked, vacation, error and remaining), the projection is the
   * current overtime plus, for each remaining day, the gap between the
   * average day and the standard day.
   */
  lemma ProjectionMeaning(rs: seq<DailyRecord>, d: real, m: int)
    requires var s := Summarize(rs, d, m);
             m as real == Scale(d, s.actualWorkDays + s.vacationDays + s.errorDays + s.remainingWorkDays)
    ensures var s := Summarize(rs, d, m);
            s.projectedMonthEndOvertime == s.currentOvertime + Scale(s.averageDailyMinutes - d, s.remainingWorkDays)
  {
    DeriveProjection(Sum(rs, WorkMinutesTotal), Sum(rs, WorkDays), Sum(rs, VacationDays), Sum(rs, ErrorDays),
                     Sum(rs, RemainingDays), d, m);
  }

  // ---------------------------------------------------------------------------
  // The whole calculation
  // ---------------------------------------------------------------------------

  /**
   * `calculateOvertime` (lines 234-256) without the page reads: the monthly
   * standard minutes and the standard work days come in as optional inputs,
   * the attendance table as rows of cell texts, today as a parameter. The
   * summary goes to the display instead of being returned.
   */
  method CalculateOvertime(monthlyStandardMinutes: Option<nat>, standardWorkDays: Option<nat>,
                           rows: seq<seq<string>>, today: Today)
    returns (r: Option<Summary>)
    ensures r.None? <==>
              monthlyStandardMinutes.None? || standardWorkDays.None? || standardWorkDays.value == 0
    ensures r.Some? ==>
              r.value == Summarize(Extract(rows, today),
                                   monthlyStandardMinutes.value as real / standardWorkDays.value as real,
                                   monthlyStandardMinutes.value)
    ensures r.Some? ==> r.value.actualWorkDays + r.value.errorDays + r.value.remainingWorkDays <= |rows|
    ensures r.Some? ==> r.value.vacationDays + r.value.errorDays + r.value.remainingWorkDays <= |rows|
  {
    if monthlyStandardMinutes.None? || standardWorkDays.None? || standardWorkDays.value == 0 {
      return None;
    }
    var monthly := monthlyStandardMinutes.value;
    var standardDailyMinutes := monthly as real / standardWorkDays.value as real;
    var records := Extract(rows, today);
    var s := AnalyzeOvertime(records, standardDailyMinutes, monthly);
    PastDayBounds(records);
    PastAndRemaining(records);
    r := Some(s);
  }
}
