# Jobcan overtime calculator — verified model of the calculation core

The userscript `jobcan-overtime-calculator.user.js` reads a Jobcan attendance
page and projects the overtime at the end of the month. This project models
the part of it that involves no page access:

- **Time codec** (`TimeCodec`). `timeToMinutes` reads the first
  `<digits>:<digits>` of a cell as a number of minutes. `minutesToTime`
  renders a signed number of minutes as `[-]H:MM`. `Text` holds the
  JavaScript string behaviour both rely on: ASCII `\d`, `parseInt`,
  `Number.prototype.toString`, `padStart`, `trim`, and the leftmost match of
  `/(\d+)<sep>(\d+)/`.
- **Row classifier and extraction** (`Attendance`). This is the body of the
  `rows.forEach` in `getAttendanceData`. A row is given as the texts of its
  cells, and today is given as a month and a day. The row becomes a daily
  record holding:
  - the row's month and day;
  - whether the day is past;
  - whether it had a shift and whether it had attendance;
  - the minutes worked;
  - two derived flags, vacation and error.

  Rows of fewer than six cells are skipped.
- **Analyzer** (`Overtime`). `analyzeOvertime` makes one pass over the
  records. It counts:
  - work days;
  - vacation days;
  - error days;
  - remaining shift days;
  - the minutes worked.

  It then derives the current overtime, the average day and the projected
  overtime at the end of the month. The model pairs the single pass
  (`AnalyzeOvertime`, a loop) with a definition by tallies over the record
  sequence (`Summarize`). `CalculateOvertime` chains extraction and analysis
  the way `calculateOvertime` does.
- **Worked examples** (`Scenarios`). These cover:
  - the conversions quoted in the script's comments;
  - placeholder cells;
  - a month with one vacation day;
  - an empty month;
  - twenty 8:30 days against an 8:00 standard with two shifts ahead. That
    month projects 1620 minutes, shown as `27:00`.

Two behaviours of the code are worth stating outright. A row whose date
label holds no `M/D` gets the current month and day 0. The past-day test is
`rowDay < currentDay`, so such a row is past on every real day of the month
(`Attendance.UnreadableDateIsPast`). And `minutesToTime(-30)` renders as
`-0:30`, with the sign in front of a zero hour (`Scenarios.MinusHalfHour`).

## Model

| member | source | states |
|---|---|---|
| Text.DecimalValue | jobcan-overtime-calculator.user.js:43-45 | `toString` of a whole number is a canonical digit string (no superfluous leading zero) that `parseInt` reads back as the same number |
| Text.DecimalRoundTrip | jobcan-overtime-calculator.user.js:36 | printing the value `parseInt` reads from a canonical digit string gives the string back |
| Text.PadStart | jobcan-overtime-calculator.user.js:45 | `padStart` keeps the text as the suffix, fills only in front, and reaches the requested width unless the text is already longer |
| Text.Trim | jobcan-overtime-calculator.user.js:31 | `trim` returns the slice of the input that has only spaces before and after it and starts and ends with a non-space; it is empty exactly for whitespace-only input, and text with no space at either border is unchanged |
| Text.FirstMatchFrom | jobcan-overtime-calculator.user.js:34 | the scan returns the first position at or after the start where the pattern matches, and no position when none does |
| Text.MatchPair | jobcan-overtime-calculator.user.js:34 | `match` fails exactly when no position of the text matches `(\d+)<sep>(\d+)` |
| Text.MatchPairIsLeftmost | jobcan-overtime-calculator.user.js:34-36 | the captured groups are those of the leftmost match |
| TimeCodec.TimeToMinutes | jobcan-overtime-calculator.user.js:30-35 | empty text, `-`, whitespace-only text and text without a `<digits>:<digits>` match all read as 0 |
| TimeCodec.TimeToMinutesLeftmost | jobcan-overtime-calculator.user.js:34-36 | otherwise the result is hours × 60 + minutes of the leftmost match, with no sign handling |
| TimeCodec.MinuteFieldValue | jobcan-overtime-calculator.user.js:44-45 | the minute field is exactly two digits whose value is the minutes below 60 |
| TimeCodec.ClockValue | jobcan-overtime-calculator.user.js:43-45 | the unsigned rendering is a clock text whose hours × 60 + minutes give back the count |
| TimeCodec.MinutesToTime | jobcan-overtime-calculator.user.js:41-45 | the rendering starts with `-` exactly when the count is negative |
| TimeCodec.MinutesToTimeShape | jobcan-overtime-calculator.user.js:40-45 | after the optional sign comes a clock text (canonical hours, a colon, two minute digits below 60) with hours × 60 + minutes equal to the magnitude |
| TimeCodec.MinutesToTimeNegative | jobcan-overtime-calculator.user.js:41-42 | a negative count renders as its magnitude behind a minus sign |
| TimeCodec.ReadClock | jobcan-overtime-calculator.user.js:34-36 | a clock text, alone or behind one non-digit such as the sign, reads as its hours × 60 + minutes |
| TimeCodec.TimeRoundTrip | jobcan-overtime-calculator.user.js:29-46 | parsing a rendering gives back the magnitude of the count, and the count itself when it is not negative |
| TimeCodec.RenderClock | jobcan-overtime-calculator.user.js:40-45 | rendering the value of a clock text reproduces the text |
| TimeCodec.ClockRoundTrip | jobcan-overtime-calculator.user.js:29-46 | every clock text is a fixed point of parse-then-render |
| TimeCodec.ClockText | jobcan-overtime-calculator.user.js:29-46 | a clock text and the count it stands for convert into each other |
| TimeCodec.NegativeClockText | jobcan-overtime-calculator.user.js:41-45 | a negative count renders as the clock text of its magnitude behind a minus sign |
| Attendance.DateOf | jobcan-overtime-calculator.user.js:112-118 | a date label without `M/D` gives the current month and day 0 |
| Attendance.DateOfLeftmost | jobcan-overtime-calculator.user.js:112-118 | a readable label gives the month and day of its leftmost `M/D` |
| Attendance.WorkMinutes | jobcan-overtime-calculator.user.js:139-143 | an empty, `-` or `(勤務中)` work-time cell gives 0 minutes |
| Attendance.WorkMinutesIsTimeToMinutes | jobcan-overtime-calculator.user.js:139-143 | the guard in front of the parse changes nothing: the parser already reads those cells as 0 |
| Attendance.Classify | jobcan-overtime-calculator.user.js:126-149 | past exactly when the row's month-then-day precedes today; shift exactly when the shift cell is not a placeholder; attendance from the clock-in cell, or from a clock-out cell that is neither a placeholder nor `(勤務中)`; vacation and error never both; each implies past and shift; error implies no minutes; the record is consistent |
| Attendance.ClassifyRow | jobcan-overtime-calculator.user.js:110-124 | the record of a row of at least six trimmed cells is consistent (vacation and error exactly as the flags define them, minutes not negative) |
| Attendance.UnreadableDateIsPast | jobcan-overtime-calculator.user.js:112-128 | a row whose label has no `M/D` is dated day 0 of the current month and is past exactly when today is not day 0 |
| Attendance.WorkingMarkerIsTrimmed | jobcan-overtime-calculator.user.js:136 | `(勤務中)` survives trimming and is not a placeholder |
| Attendance.WorkingClockOutIsNoAttendance | jobcan-overtime-calculator.user.js:134-136 | `(勤務中)` as the clock-out, with no clock-in, is no attendance |
| Attendance.WorkingClockInIsAttendance | jobcan-overtime-calculator.user.js:134 | the same text as the clock-in is attendance |
| Attendance.PastShiftClasses | jobcan-overtime-calculator.user.js:146-149 | a past day with a shift is exactly one of vacation (no attendance), error (attendance, no minutes) or worked |
| Attendance.RowRecords | jobcan-overtime-calculator.user.js:102-103 | a row of fewer than six cells gives no record, a longer one exactly its classification |
| Attendance.Extract | jobcan-overtime-calculator.user.js:101-161 | no more records than rows, every record consistent |
| Attendance.ExtractFullLength | jobcan-overtime-calculator.user.js:101-103 | one record per row when every row has six cells |
| Attendance.ExtractShortRows | jobcan-overtime-calculator.user.js:103 | rows of fewer than six cells produce nothing |
| Attendance.ExtractAppend | jobcan-overtime-calculator.user.js:101-161 | the records of a table are those of its first rows followed by those of the rest, so row order is kept |
| Attendance.ExtractSingleRow | jobcan-overtime-calculator.user.js:101-161 | a single row yields its classification when it has six cells or more, else nothing |
| Overtime.Sum | jobcan-overtime-calculator.user.js:181-204 | every tally is non-negative and each day count is at most the number of records |
| Overtime.Average | jobcan-overtime-calculator.user.js:213-215 | the average is 0 without work days; otherwise, taken once per work day, it adds up to the total |
| Overtime.AnalyzeOvertime | jobcan-overtime-calculator.user.js:171-232 | the single pass yields, for each counter, the tally of the records that counter is meant to count (past work days with positive minutes, past vacation days, past error days, non-past shift days, minutes of past work days), and the summary derived from them |
| Overtime.ScaleIsProduct | jobcan-overtime-calculator.user.js:207-218 | the repeated addition the model uses for `standardDailyMinutes * days` and `averageDailyMinutes * remainingWorkDays` is the product |
| Overtime.ScaleAdd | jobcan-overtime-calculator.user.js:207 | a standard for `a + b` days is the standard for `a` days plus that for `b` days |
| Overtime.ScaleSub | jobcan-overtime-calculator.user.js:218 | a difference taken `n` times is the difference of the two sums |
| Overtime.ScaleBelowCount | jobcan-overtime-calculator.user.js:214 | a number below one taken `n > 0` times stays below `n` |
| Overtime.SumAppend | jobcan-overtime-calculator.user.js:181-204 | the tallies of two runs of records add up |
| Overtime.SumRemove | jobcan-overtime-calculator.user.js:181-204 | removing one record removes its weight from every tally |
| Overtime.SumPermutation | jobcan-overtime-calculator.user.js:181-204 | tallies do not depend on record order |
| Overtime.MinutesCoverWorkDays | jobcan-overtime-calculator.user.js:184-186 | the minute total is at least the number of work days |
| Overtime.ZeroWorkDaysZeroMinutes | jobcan-overtime-calculator.user.js:184-186 | without work days there are no work minutes |
| Overtime.DisjointCounts | jobcan-overtime-calculator.user.js:181-204 | two exclusive tallies that both imply a third add up to at most the third |
| Overtime.PastAndRemaining | jobcan-overtime-calculator.user.js:182-203 | past days plus remaining shift days are at most the records |
| Overtime.PastDayBounds | jobcan-overtime-calculator.user.js:146-149 | over extracted records, work days plus error days, and vacation plus error days, are each at most the past days |
| Overtime.SummarizePermutation | jobcan-overtime-calculator.user.js:171-232 | the summary depends only on the multiset of records |
| Overtime.SummarizeStep | jobcan-overtime-calculator.user.js:181-204 | one more record moves only its own counters: a future shift day adds one remaining day whatever its minutes, and a past day never touches the remaining days |
| Overtime.EmptySummary | jobcan-overtime-calculator.user.js:206-219 | no records: all counters 0, average 0, projection minus the monthly standard |
| Overtime.DeriveAverage | jobcan-overtime-calculator.user.js:213-215 | for counters where the minutes cover the work days, the average times the work days is the total, and at least one minute |
| Overtime.AverageMeaning | jobcan-overtime-calculator.user.js:213-215 | the average is 0 without work days; otherwise, taken once per work day, it gives the total, and it is at least one minute |
| Overtime.ExcessIsSums | jobcan-overtime-calculator.user.js:210 | minutes less one standard day per work day equal the added-up excess of each work day |
| Overtime.CurrentOvertimeIsExcess | jobcan-overtime-calculator.user.js:210 | the current overtime is the sum over work days of minutes worked beyond the standard day |
| Overtime.DeriveProjection | jobcan-overtime-calculator.user.js:207-219 | if the monthly standard is the standard day times all counted days, the projection is current overtime plus, per remaining day, the average day's gap to the standard |
| Overtime.ProjectionMeaning | jobcan-overtime-calculator.user.js:207-219 | the same for the summary of any record sequence |
| Overtime.CalculateOvertime | jobcan-overtime-calculator.user.js:234-256 | no result when a page figure is missing (or the work days are 0); otherwise the summary of the extracted records with the standard day taken as monthly standard over work days, whose work, error and remaining days, and vacation, error and remaining days, each fit within the rows |
| Scenarios.HalfPastEight | jobcan-overtime-calculator.user.js:29-46 | `8:30` is 510 minutes, and 510 minutes is `8:30` |
| Scenarios.MinusHalfHour | jobcan-overtime-calculator.user.js:40-45 | −30 renders as `-0:30` |
| Scenarios.MinusFiveMinutes | jobcan-overtime-calculator.user.js:40-45 | −5 renders as `-0:05` |
| Scenarios.NoMinutes | jobcan-overtime-calculator.user.js:40-45 | 0 renders as `0:00` |
| Scenarios.PlaceholderReadings | jobcan-overtime-calculator.user.js:30-35 | the empty text, `-`, two spaces and `garbage` all read as 0 minutes |
| Scenarios.DayAndVacation | jobcan-overtime-calculator.user.js:181-210 | an 8-hour day and a vacation day against 480-minute days: one work day, one vacation day, 480 minutes, no overtime |
| Scenarios.EmptyMonth | jobcan-overtime-calculator.user.js:206-219 | no records against 9600 minutes: projection −9600 |
| Scenarios.LongMonth | jobcan-overtime-calculator.user.js:171-232 | twenty 510-minute days and two shifts ahead against 480/9600: 10200 minutes, 600 overtime so far, average 510, projection 1620 |
| Scenarios.TwentySevenHours | jobcan-overtime-calculator.user.js:40-45 | 1620 minutes render as `27:00` |

## Left out

- The page reads. `getMonthlyStandardMinutes` and `getStandardWorkDays` (lines 49-89) only locate table cells. Their results are the optional inputs of `CalculateOvertime`.
- `init`, `displayResults`, and the `DOMContentLoaded`, `MutationObserver` and `setTimeout` triggers (lines 18-27 and 262-357). These are page I/O and event plumbing.
- The clock. `new Date()` (lines 97-99) becomes the `Today` parameter.
- Floating point. The standard day, the average and the derived figures are exact `real`s. The model keeps no IEEE rounding and no display-time `Math.round`.
- Multiplication by a day count. The model writes it as repeated addition (`Scale`), which keeps the proofs linear. `ScaleIsProduct` proves it equals the product.
- Integer width. Minute counts are unbounded integers. `parseInt` of digit runs beyond 2^53 loses precision in JavaScript, and `toString` switches to exponent notation for huge numbers; neither is modelled.
- MinutesToTime: takes a whole number of minutes. The script only passes it rounded figures.
- CalculateOvertime: with zero standard work days the script divides by zero, and the figures become `Infinity` or `NaN`. The model returns no result instead.
- JavaScript truthiness. `hasShift` can be the empty string rather than `false` (line 131). It is modelled as a boolean.
- The optional-chaining fallbacks `cells[k]?.textContent.trim() || ''` (lines 121-124). With six cells or more each cell exists, so these are the trimmed texts themselves.
