/**
 * The attendance extractor: every row of the attendance table, given as the
 * text of its cells, becomes one daily record whose flags say whether the day
 * is past, had a shift, had attendance, and whether it counts as a vacation
 * day or as a data error.
 */
module Attendance {
  import opened Wrappers
  import opened Text
  import opened TimeCodec

  /** The text `(勤務中)`, "currently working", shown while a shift is still open. */
  const WorkingMarker: string := "(\U{52E4}\U{52D9}\U{4E2D})"

  /** The month (1-12) and day of the month the calculation runs on. */
  datatype Today = Today(month: nat, day: nat)

  datatype DailyRecord = DailyRecord(
    month: nat,
    day: nat,
    isPastDate: bool,
    hasShift: bool,
    hasAttendance: bool,
    dailyWorkMinutes: int,
    isVacation: bool,
    isError: bool)

  /** A cell the script treats as empty: no text, or the `-` placeholder. */
  predicate IsPlaceholder(cell: string) {
    cell == "" || cell == "-"
  }

  /** Month-then-day order inside one year; the year itself is not known. */
  predicate Precedes(month1: nat, day1: nat, month2: nat, day2: nat) {
    month1 < month2 || (month1 == month2 && day1 < day2)
  }

  /** The derived flags agree with the observed ones, the way the extractor sets them. */
  predicate Consistent(r: DailyRecord) {
    && r.dailyWorkMinutes >= 0
    && r.isVacation == (r.isPastDate && r.hasShift && !r.hasAttendance)
    && r.isError == (r.isPastDate && r.hasShift && r.hasAttendance && r.dailyWorkMinutes == 0)
  }

  /** Month and day read from the first `<digits>/<digits>` of the date label. */
  function DateOf(dateText: string, today: Today): (md: (nat, nat))
    ensures NoMatch(dateText, '/') ==> md == (today.month, 0)
  {
    match MatchPair(dateText, '/')
    case None => (today.month, 0)
    case Some(monthDay) => monthDay
  }

  /** A readable date label gives the month and day of its leftmost `M/D`. */
  lemma DateOfLeftmost(dateText: string, today: Today, i: nat)
    requires IsLeftmostMatch(dateText, i, '/')
    ensures DateOf(dateText, today) == Groups(dateText, i, '/')
  {
    MatchPairIsLeftmost(dateText, i, '/');
  }

  /** The work-time cell: blank, `-` and the working marker count as no time. */
  function WorkMinutes(cell: string): (m: nat)
    ensures IsPlaceholder(cell) || cell == WorkingMarker ==> m == 0
  {
    if IsPlaceholder(cell) || cell == WorkingMarker then 0 else TimeToMinutes(cell)
  }

  /**
   * The guard in front of the work-time parse changes nothing: the parser
   * already reads blank text, `-` and the working marker as zero minutes.
   */
  lemma WorkMinutesIsTimeToMinutes(cell: string)
    ensures WorkMinutes(cell) == TimeToMinutes(cell)
  {
    if cell == WorkingMarker {
      assert NoMatch(cell, ':') by {
        forall q | 0 <= q < |cell|
          ensures !MatchAt(cell, q, ':')
        {
          assert !IsDigit(cell[q]);
        }
      }
    }
  }

  /**
   * Lines 126-149: the record built from the trimmed date, shift, clock-in,
   * clock-out and work-time texts of a row.
   */
  function Classify(dateText: string, shiftTimeCell: string, startTimeCell: string,
                    endTimeCell: string, workTimeCell: string, today: Today): (r: DailyRecord)
    ensures Consistent(r)
    ensures !(r.isVacation && r.isError)
    ensures r.isVacation ==> r.isPastDate && r.hasShift
    ensures r.isError ==> r.isPastDate && r.hasShift && r.dailyWorkMinutes == 0
    ensures (r.month, r.day) == DateOf(dateText, today)
    ensures r.isPastDate <==> Precedes(r.month, r.day, today.month, today.day)
    ensures r.hasShift <==> !IsPlaceholder(shiftTimeCell)
    ensures r.hasAttendance <==>
              !IsPlaceholder(startTimeCell) || (!IsPlaceholder(endTimeCell) && endTimeCell != WorkingMarker)
    ensures r.dailyWorkMinutes == WorkMinutes(workTimeCell)
  {
    var (rowMonth, rowDay) := DateOf(dateText, today);
    var isPastDate := rowMonth < today.month || (rowMonth == today.month && rowDay < today.day);
    var hasShift := !IsPlaceholder(shiftTimeCell);
    var hasAttendance := !IsPlaceholder(startTimeCell) ||
                         (!IsPlaceholder(endTimeCell) && endTimeCell != WorkingMarker);
    var dailyWorkMinutes := WorkMinutes(workTimeCell);
    var isVacation := isPastDate && hasShift && !hasAttendance;
    var isError := isPastDate && hasShift && hasAttendance && dailyWorkMinutes == 0;
    DailyRecord(rowMonth, rowDay, isPastDate, hasShift, hasAttendance, dailyWorkMinutes, isVacation, isError)
  }

  /** Lines 110-124: the record of one row of at least six cells, each cell trimmed. */
  function ClassifyRow(cells: seq<string>, today: Today): (r: DailyRecord)
    requires |cells| >= 6
    ensures Consistent(r)
  {
    Classify(Trim(cells[0]), Trim(cells[2]), Trim(cells[3]), Trim(cells[4]), Trim(cells[5]), today)
  }

  /**
   * A row whose date label holds no `M/D` is dated day 0 of the current month,
   * so it is past exactly when today is not day 0, that is on every real day.
   */
  lemma UnreadableDateIsPast(cells: seq<string>, today: Today)
    requires |cells| >= 6 && NoMatch(Trim(cells[0]), '/')
    ensures ClassifyRow(cells, today).month == today.month
    ensures ClassifyRow(cells, today).day == 0
    ensures ClassifyRow(cells, today).isPastDate <==> today.day > 0
  {
  }

  lemma WorkingMarkerIsTrimmed()
    ensures Trim(WorkingMarker) == WorkingMarker
    ensures !IsPlaceholder(WorkingMarker)
  {
    assert !IsJsSpace(WorkingMarker[0]) && !IsJsSpace(WorkingMarker[|WorkingMarker| - 1]);
  }

  /** A clock-out cell reading "currently working" is not attendance on its own. */
  lemma WorkingClockOutIsNoAttendance(cells: seq<string>, today: Today)
    requires |cells| >= 6
    requires IsPlaceholder(Trim(cells[3])) && cells[4] == WorkingMarker
    ensures !ClassifyRow(cells, today).hasAttendance
  {
    WorkingMarkerIsTrimmed();
  }

  /** The same text in the clock-in cell does count as attendance. */
  lemma WorkingClockInIsAttendance(cells: seq<string>, today: Today)
    requires |cells| >= 6 && cells[3] == WorkingMarker
    ensures ClassifyRow(cells, today).hasAttendance
  {
    WorkingMarkerIsTrimmed();
  }

  /**
   * A past day with a shift falls in exactly one of three classes: vacation
   * (no attendance), error (attendance but no work time), or worked.
   */
  lemma PastShiftClasses(r: DailyRecord)
    requires Consistent(r) && r.isPastDate && r.hasShift
    ensures r.isVacation <==> !r.hasAttendance
    ensures r.isError <==> r.hasAttendance && r.dailyWorkMinutes == 0
    ensures !r.isVacation && !r.isError <==> r.hasAttendance && r.dailyWorkMinutes > 0
  {
  }

  /** Line 103: a row of fewer than six cells is skipped. */
  function RowRecords(row: seq<string>, today: Today): (records: seq<DailyRecord>)
    ensures |row| < 6 ==> records == []
    ensures |row| >= 6 ==> records == [ClassifyRow(row, today)]
    ensures forall k :: 0 <= k < |records| ==> Consistent(records[k])
  {
    if |row| < 6 then [] else [ClassifyRow(row, today)]
  }

  /** Lines 101-161: one record per row of at least six cells, in row order. */
  function Extract(rows: seq<seq<string>>, today: Today): (records: seq<DailyRecord>)
    ensures |records| <= |rows|
    ensures forall k :: 0 <= k < |records| ==> Consistent(records[k])
  {
    if |rows| == 0 then []
    else
      var head := RowRecords(rows[0], today);
      var tail := Extract(rows[1..], today);
      var records := head + tail;
      assert forall k :: 0 <= k < |records| ==> Consistent(records[k]) by {
        forall k | 0 <= k < |records|
          ensures Consistent(records[k])
        {
          if k < |head| {
            assert records[k] == head[k];
          } else {
            assert records[k] == tail[k - |head|];
          }
        }
      }
      records
  }

  /** When every row has six cells or more, there is one record per row. */
  lemma {:induction false} ExtractFullLength(rows: seq<seq<string>>, today: Today)
    requires forall j :: 0 <= j < |rows| ==> |rows[j]| >= 6
    ensures |Extract(rows, today)| == |rows|
  {
    if |rows| > 0 {
      ExtractFullLength(rows[1..], today);
    }
  }

  /** Rows of fewer than six cells produce no records at all. */
  lemma {:induction false} ExtractShortRows(rows: seq<seq<string>>, today: Today)
    requires forall i :: 0 <= i < |rows| ==> |rows[i]| < 6
    ensures Extract(rows, today) == []
  {
    if |rows| > 0 {
      ExtractShortRows(rows[1..], today);
    }
  }

  /** Extraction of a table is the extraction of its parts, one after the other. */
  lemma {:induction false} ExtractAppend(a: seq<seq<string>>, b: seq<seq<string>>, today: Today)
    ensures Extract(a + b, today) == Extract(a, today) + Extract(b, today)
  {
    if |a| == 0 {
      assert a + b == b;
    } else {
      assert (a + b)[0] == a[0];
      assert (a + b)[1..] == a[1..] + b;
      ExtractAppend(a[1..], b, today);
    }
  }

  /** A single row yields its record when it has six cells or more, and nothing otherwise. */
  lemma ExtractSingleRow(row: seq<string>, today: Today)
    ensures |row| >= 6 ==> Extract([row], today) == [ClassifyRow(row, today)]
    ensures |row| < 6 ==> Extract([row], today) == []
  {
  }
}
