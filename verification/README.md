# XLCalendar in Dafny

XLCalendar writes a one-sheet Excel calendar to print. Columns 1 and 2,
merged, hold the row headers. Each column from 3 on is one week, Monday at the top (row 2) and Sunday
at the bottom (row 8). Row 1 holds the month names and row 9 the ISO week
numbers. This project models the integer core of `XLCalendar.py` and proves
what it computes:

- **Options** (`options.dfy`): the checks `main` applies to the command line,
  as a total function from already-tokenised options to a verdict. A verdict
  is a calendar to generate, the version line, or the help text with the
  reason it was shown. Every call of `hae()` becomes `Reject(reason)`. The
  same file holds the output-name rules and the sheet title.
- **Day list** (`gregorian.dfy`, `isoweek.dfy`, `daylist.dfy`,
  `daylist_facts.dfy`): reimplementations of what the program takes from
  Python's libraries:
  - leap years, month lengths, day ordinals and weekdays, as `datetime` computes them;
  - the ISO week of `date.isocalendar()`;
  - `calendar.Calendar().itermonthdays` with Monday first.

  On top of these sits `day_list` as `create_calendar_file` builds it:
  - the first month keeps its leading zero-days and drops its trailing ones;
  - later months add their real days only.
- **Grid** (`grid.dfy`, `grid_facts.dfy`): the placement loop. Entry `i`
  goes to row `i % 7 + 2` of column `i / 7 + 3`. Row 1 names the month of
  each column's first entry, and row 9 holds the week of the column's last
  real day.
- **Header merges** (`merge.dfy`): the walk along row 1 that merges equal
  month headers and draws their borders. The merges come out as data.
- **Fills and borders** (`paint.dfy`, `styles.dfy`): the grey weekend rows,
  the left edges of days 1 to 7, the medium right edge of the last column,
  the week-row borders and the row-header borders.
- **End to end** (`calendar.dfy`): `main` followed by `create_calendar_file`.
  The result is a `Worksheet` value: title, last column, cell values,
  merges, header borders, fills and cell borders. Where the source would
  write a file, the model returns the file name instead.

`results.dfy` holds the `Option` and `Result` types, and `decimal.dfy` the
decimal rendering of numbers used in the title and the default file name.

The main results are:

- **Names and weeks:** the sheet title determines the requested span, and
  the week number Python computes agrees with the ISO 8601 rule, where
  week 1 is the week holding the year's first Thursday.
- **Day list:** it is the leading padding followed by every day from the
  first requested month to the last, one after the other. Each entry lands
  in the row of its weekday.
- **Merge walk:** it fails only with the name error of a one-column first
  run. A header standing alone after the first run makes the walk merge the
  new start with the previous run's stale end; the model returns that range
  as data, where openpyxl would refuse it. No day list produces either case,
  and on every day list the walk cuts the header row into maximal runs of
  equal month names.
- **Fills and borders:** the grey rows hold exactly the Saturdays and
  Sundays. The thin left edges of days 1 to 7 run exactly along the
  boundaries between months.
- **Output name:** the last `-o` name wins, and it is stored as the program
  stores it: `.xlsx` is appended unless the name is five characters long
  with `xlsx` as its last four, so `Calendar.xlsx` becomes
  `Calendar.xlsx.xlsx` (see Findings). Without `-o`, a `-s` or `-e` names
  the file after the final span.

Some facts about the code shape the model:

- **Columns:** each week column holds seven consecutive entries of the day
  list (lines 338-368), so a column is one week, not one day.
- **Padding:** only the start of the day list is padded, with day-0 entries
  that carry week 0; nothing is added after the last day.
- **Holidays:** there is no holiday logic.
- **Cell styles:** only rows 7 and 8 are greyed; the borders are the ones
  listed above.

## Model

| member | source | states |
|---|---|---|
| Options.ApplyOption | XLCalendar.py:77-186 | One option is accepted exactly when it meets the option rules; an unacceptable one stops the program with its own verdict, the same whatever the settings so far. For `-s`/`-e`: a month in 1..12 and a year above 0. For `-o`: a name whose first character is in `[0-9a-zA-Z_-]` and the rest in `[0-9a-zA-Z_-. ]`. For `-wr`/`-hr`: a percentage above 0. `-fnl` is always accepted. `-h` shows help; `-v` shows the version; an unknown token shows help naming it; an out-of-range month or invalid name gives its own error. `-s` changes only the start, `-e` only the end, and every other option leaves the span alone. An accepted `-fnl` switches the Dutch month names on, and nothing else changes that switch; an accepted `-wr`/`-hr` appends its percentage to its own list, and nothing else changes the lists. |
| Options.Run | XLCalendar.py:71-186 | The option loop gets through the command line exactly when every option is acceptable. Otherwise it ends with the verdict of the first unacceptable option: `-s 13 2024 -x` ends with the out-of-range month of `-s`, not the unknown `-x`. It keeps months in 1..12 and years above 0. A stop never generates a calendar. |
| Options.RunSwitches | XLCalendar.py:71-186 | After the loop, the Dutch names are on exactly when they were on before or `-fnl` occurs. Each percentage list has the `-wr` (or `-hr`) percentages appended in command-line order. |
| Options.ApplyMonthYear | XLCalendar.py:87-133 | `-s`/`-e` is accepted exactly with a month in 1..12 and a year above 0. Otherwise it reports the month's problem before the year's: missing, not a number, then out of range. On acceptance `-s` sets the start month and year and `-e` the end month and year, the other end of the span stays as it was, and the Dutch switch, the percentage lists and the `-o` flag are kept. While no `-o` name was given, the file name becomes the new span's title plus `.xlsx`; otherwise the name is kept. |
| Options.ApplyPercent | XLCalendar.py:148-177 | `-wr`/`-hr` is accepted exactly with a number above 0, which is appended to its own list and changes nothing else; otherwise it reports a missing, non-numeric or non-positive percentage. |
| Options.SpanCheck | XLCalendar.py:188-199 | The closing check has two errors. "End before start" holds exactly when the end year is earlier, or the years are equal and the end month is earlier. "Over 100 years" holds exactly when the end year is more than 100 above the start year; only the year difference counts. It rejects exactly in those cases. |
| Options.Validate | XLCalendar.py:63-203 | An empty command line generates the defaults: month 1 of this year to month 1 of next year, `Calendar.xlsx`. A calendar generated after options has every option acceptable and an accepted span (months 1..12, years above 0, end not before start, at most 100 years apart). When options are given, the first unacceptable one decides the verdict. When all are acceptable, a calendar is generated exactly when the span after the loop is accepted, and it carries those settings; otherwise the help text shows the closing check's error. A generated calendar uses Dutch month names exactly when `-fnl` occurs, and its percentage lists are exactly the `-wr` and `-hr` percentages in order. |
| Options.OutputFileStep | XLCalendar.py:101-142 | After one accepted option, `-o` sets the name to its argument after the extension rule as written and marks the name as set. `-s`/`-e` rename the file after the new span only while no `-o` has been seen. Any other option keeps the name and the span. |
| Options.RunOutputFile | XLCalendar.py:71-186 | After the option loop, the last `-o` name wins. Otherwise a `-s` or `-e` read while no name was set gives the name of the final span. Otherwise the name is unchanged. Without `-s`/`-e` the span is unchanged. |
| Options.OutputFileOutcome | XLCalendar.py:41-142 | A generated calendar's file is named by the last `-o` argument after the extension rule as written. Otherwise, after `-s`/`-e`, it is the sheet title plus `.xlsx`. Otherwise it is `Calendar.xlsx`. |
| Options.AppendXlsx | XLCalendar.py:141 | Corrected extension rule: the result ends in `.xlsx` and starts with the name. It equals the name exactly when the name already ends in `.xlsx`, and adds at most five characters. |
| Options.AppendXlsxIdempotent | XLCalendar.py:141 | Applying the corrected extension rule twice gives what applying it once gives. |
| Options.AppendXlsxAsWritten | XLCalendar.py:141 | The extension rule the program applies: the result is the name or the name plus `.xlsx`, always starts with the name, and is the bare name only for a five-character name. For a valid file name, the result is the bare name exactly when the name has five characters and ends in `xlsx`. |
| Options.AsWrittenDoublesExtension | XLCalendar.py:141 | As written, a name that already ends in `.xlsx` and is not five characters long gets a second `.xlsx`. |
| Options.AsWrittenCounterexamples | XLCalendar.py:141 | As written, `Calendar.xlsx` becomes `Calendar.xlsx.xlsx`, and `axlsx` stays without an extension. |
| Options.TitleParts | XLCalendar.py:308 | `SheetTitle`, the title of line 308, is `Calendar ` followed by the start month, `-`, the start year, ` to `, the end month, `-` and the end year, each number in plain decimal digits. |
| Options.SheetTitleNamesSpan | XLCalendar.py:308 | For months and years in range, two settings with the same sheet title have the same start and end months and years. |
| Decimal.DecimalRoundTrip | XLCalendar.py:308 | Reading back the digits a number is rendered with in the title gives the number. |
| Decimal.SplitAfterNumber | XLCalendar.py:308 | A rendered number followed by a non-digit separator can be split off uniquely, both the number and the rest. |
| Gregorian.DaysInMonth | XLCalendar.py:271 | Months have 28 to 31 days. February has 29 exactly in leap years and 28 exactly otherwise. |
| Gregorian.OrdinalInjective | XLCalendar.py:217 | Two calendar days with the same day ordinal are the same date. |
| Gregorian.DaysBeforeYearMonotone | XLCalendar.py:217 | January firsts are at least 365 days apart per year. |
| IsoWeek.IsoWeekAgreesWithThursdayRule | XLCalendar.py:217-218 | Python's week number agrees with the ISO 8601 rule on every calendar day. Python counts weeks from the Monday of the week holding January 4, falling back to the previous year or moving to the next. The ISO 8601 rule gives a day the week of its Thursday, counted from the Thursday year's first Thursday. |
| IsoWeek.IsoWeekRange | XLCalendar.py:217-218 | Every calendar day has week number 1 to 53. |
| IsoWeek.JanuaryFourthInWeekOne | XLCalendar.py:217-218 | January 4 is always in week 1. |
| IsoWeek.SameWeekSameNumber | XLCalendar.py:217-218 | Two days of the same Monday-to-Sunday week have the same week number. |
| DayList.WeekNumber | XLCalendar.py:212-219 | A zero day gets week 0; a real day gets a week from 1 to 53. |
| DayList.IterMonthDays | XLCalendar.py:271 | The month comes as whole weeks. It starts with zeros up to the weekday of the 1st (Monday = 0), followed by the days 1..n, then zeros up to the end of the last week. |
| DayListFacts.RealDaysOfMonth | XLCalendar.py:293 | Filtering the zeros out of a month's days leaves exactly 1..n. |
| DayListFacts.DropPaddedTail | XLCalendar.py:273-276 | The pop loop removes exactly the trailing zero-days when none occurs between position 7 and the tail. |
| DayListFacts.FirstMonthShape | XLCalendar.py:269-276 | The first month gives `k` zero-days tagged with its year and month, where `k` is the weekday of its 1st. The days 1..n follow, one day ordinal after another, each with its ISO week. Nothing comes after them. |
| DayListFacts.LaterMonthShape | XLCalendar.py:287-294 | A later month gives its days 1..n, one day ordinal after another, each with its ISO week. |
| DayListFacts.DayListShape | XLCalendar.py:267-301 | `BuildDayList`, the `day_list` of lines 267-301, is `k` zero-days followed by every day from the 1st of the first month through the last day of the last month, consecutive, each with its ISO week. Its length is `k` plus the number of days in those months. |
| DayListFacts.DayListOpensWithStartMonth | XLCalendar.py:270-271 | The day list is not empty, and its first entry belongs to the first requested month and year. |
| DayListFacts.DayListWeekdays | XLCalendar.py:267-301 | Entry `i` of the day list, padding aside, falls on weekday `i % 7`. |
| DayListFacts.DayListMonthsRepeatWeekly | XLCalendar.py:278-301 | Every entry's month recurs seven entries before it or seven entries after it. |
| Grid.ColumnCount | XLCalendar.py:339 | The number of week columns is the least `c` with `7c` at least the list length, `ceil(n / 7)`. |
| Grid.PlacementRoundTrip | XLCalendar.py:354-366 | Entries and day cells (rows 2..8, columns from 3) correspond one to one: the cell of entry `i` is a day cell showing entry `i`, and every day cell is the cell of the entry it shows. |
| Grid.PlacementWithinColumns | XLCalendar.py:338-343 | Every entry lands between column 3 and `last_column`, and the last entry lands in `last_column`. |
| Grid.LastDayBetween | XLCalendar.py:361-362 | The entry whose week the week row keeps is the last real day of the column's entries, or none when all are zero-days. |
| Grid.PlaceDays | XLCalendar.py:338-368 | The placement loop writes only rows 1..9 of columns 3..`last_column`. Row 1 of each column gets the month name of the column's first entry. A real entry's cell gets its day number and a zero-day's cell stays empty, as do cells past the last entry. Row 9 gets the week of the column's last real day, or nothing. |
| GridFacts.NoLoneHeaderWhenMonthsRepeat | XLCalendar.py:343-348 | When every entry's month recurs a week before or after it, no month header stands alone: every header equals a neighbour's, and the column after the last is different. |
| GridFacts.WeekRowShowsIsoWeek | XLCalendar.py:361-364 | Above every real day of the day list, row 9 shows that day's own ISO week, not just the week of the column's last day. |
| HeaderMerge.MergeHeaders | XLCalendar.py:371-385 | The walk fails, with the name error of an unassigned `merge_range_end`, exactly when there is a column 3 and its header differs from column 4's. When no header stands alone, it succeeds with ranges that cut columns 3..`last_column` into maximal runs of equal headers. The runs are in order, without gaps, overlaps or one-column runs. Each run start gets the `lrTb` border, except the last run's start, which gets `lRTb`. |
| Calendar.LayOut | XLCalendar.py:338-385 | On the day list of a valid span, the merge walk never fails and returns a maximal-run partition of the header row. The placed values show each real day's number and ISO week, and padding cells stay empty. Values are written only in rows 1..9 of columns 3..`last_column`, and no day cell past the last entry holds one. |
| Calendar.FirstHeaderNamesStartMonth | XLCalendar.py:347-348 | Column 3's header is the name of the first requested month. |
| Painting.PaintFills | XLCalendar.py:391-397 | Exactly the cells of rows 2..9 in columns 3..`last_column` are filled: light grey exactly on rows 7 and 8, white elsewhere. |
| GridFacts.WeekendRowsHoldWeekends | XLCalendar.py:393-396 | In the day list, a real day sits in grey rows 7 or 8 exactly when it is a Saturday or Sunday. |
| Painting.PaintDayEdges | XLCalendar.py:400-407 | In columns before the last, a day cell gets a border exactly when it shows 1..7: `lt` for 1 and `l` for 2..7. |
| Painting.PaintLastColumn | XLCalendar.py:408-409 | Rows 2..8 of the last column get the medium right edge; every other border is kept. |
| Painting.PaintWeekRow | XLCalendar.py:411-414 | Row 9 gets `lrtB` in columns 3..`last_column - 1` and `lRtB` in the last column; every other border is kept. |
| Painting.PaintBorders | XLCalendar.py:399-414 | In columns before the last, a day cell has a border exactly when it shows a day from 1 to 7. That border is a thin left edge, with a thin top exactly on day 1. Rows 2..8 of the last column have a medium right edge. Every week-row cell has a medium bottom, with a medium right edge in the last column. |
| GridFacts.FirstWeekOfMonthMeetsBoundary | XLCalendar.py:403-407 | A real day is one of days 1 to 7 of its month exactly when the cell to its left is missing, empty, or holds a day of another month. So the left edges trace the month boundaries. |
| Painting.RowHeaderBorder | XLCalendar.py:312-331 | Rows 1..9 of column 1 have a border, with a medium left edge and a thin right edge. Row 1 has a medium top and a thin bottom (`LrTb`); rows 2..8 have neither (`Lr`); row 9 has a thin top and a medium bottom (`LrtB`). |
| Painting.PaintHeaderFills | XLCalendar.py:312-351 | Column 1, rows 1..9, and row 1 of columns 3..`last_column` are filled white; every other fill is kept. |
| Painting.PaintRowHeaderBorders | XLCalendar.py:312-331 | Each row 1..9 of column 1 gets the row-header border of its row; every other border is kept. |
| Calendar.GridStyles | XLCalendar.py:391-407 | Given what the fill and border loops leave on the placed grid, each real day is grey exactly on Saturday and Sunday. Left of the last column, it has a border exactly when its left neighbour shows no day of its month: `lt` on the 1st and `l` on the 2nd to 7th. |
| Calendar.PaintGrid | XLCalendar.py:391-414 | On the placed day list, each real day is grey exactly on Saturday and Sunday. Left of the last column, it has a border exactly when its left neighbour shows no day of its month: `lt` on the 1st and `l` on the 2nd to 7th. Every cell of rows 2..9 in columns 3..`last_column`, padding included, is filled, grey exactly on rows 7 and 8. Rows 2..8 of the last column have `R`; row 9 has `lrtB`, and `lRtB` in the last column. Fills and borders fall only on rows 2..9 of columns 3..`last_column`, and a padding cell left of the last column has no border. |
| Calendar.PaintHeaders | XLCalendar.py:312-351 | The headers are painted white and column 1 gets the row-header borders, while the week grid and every day cell keep their fills and borders. Nothing else gains a fill or border: new fills are only on the header cells, new borders only on rows 1..9 of column 1. |
| Calendar.Paint | XLCalendar.py:312-414 | The whole painting: every day's fill and border as in `PaintGrid`, the week grid's fills, last-column and week-row borders, and the white headers with column 1's row-header borders. Fills fall only on the week grid and the header cells, borders only on the week grid and column 1's rows 1..9, and no padding cell left of the last column is bordered. |
| Calendar.SheetOfSpan | XLCalendar.py:303-414 | For a valid span, the worksheet has the given title and the last column of the day list. Column 3 names the first month. The header row is partitioned into boxed runs, each column is headed by the month of its first entry, and padding cells are empty. Every real day shows its number, ISO week, fill and border (`lt` or `l`) as above. The sheet carries the week grid's fills and the last-column and week-row borders, and the headers are painted as above. Nothing lies outside those cells: values only in rows 1..9 of columns 3..`last_column` and none in a day cell past the last entry; fills and borders only where `Paint` puts them. |
| Calendar.BuildSheet | XLCalendar.py:266-414 | An accepted span fails exactly when its end year is past 9999, where Python's `date` raises. Otherwise it gives the worksheet of `SheetOfSpan`, titled `Calendar M-YYYY to M-YYYY`, with nothing written, filled or bordered outside the cells described there. |
| Calendar.MonthNames | XLCalendar.py:224-239 | Twelve month names. Under `-fnl` they are the fixed Dutch table, whose twelve names are all different. Otherwise they are the twelve names of the OS locale, passed in as a parameter. |
| Calendar.CreateCalendar | XLCalendar.py:63-239 | The program shows the version exactly when the options ask for it. It shows help exactly when they are rejected, with the same reason. It fails exactly on accepted settings past year 9999. A written calendar uses the validated file name and title. Column 3 is headed by the start month's name: in Dutch exactly when `-fnl` occurs on the command line, in the locale's language otherwise. The written sheet draws the validated span, with those month names, exactly as `SheetOfSpan` describes, with nothing written, filled or bordered outside those cells. |
| Calendar.GenerateCalendar | XLCalendar.py:179-239 | A command line that validates gives a written calendar or a failure past year 9999. The month names are Dutch exactly when `-fnl` occurs on it, and the sheet draws the validated span with those names, as `SheetOfSpan` describes, with nothing outside those cells. |
| Calendar.WriteCalendar | XLCalendar.py:222-414 | Accepted settings give a written calendar, or a failure exactly past year 9999. The file and title are the settings' own, and the sheet draws their span as `SheetOfSpan` describes, with nothing outside those cells and column 3 headed by the start month's name. |

## Left out

- openpyxl is not modelled: the `Workbook` object, fonts, alignment, the `merge_cells` calls on row 1 (kept as data), saving the file and the print setup. The model returns what would be written as a value.
- Column widths and row heights (lines 152, 168, 309-310, 387-389) are float arithmetic. The model keeps only the acceptance test `int(...) > 0` and the list of accepted percentages.
- Locale names (lines 228-239) come from `strftime` and the OS locale, so the locale's month names are a parameter. The fixed Dutch month table of `-fnl` is modelled.
- Row-header values (lines 313-335) are left out: the start year in column 1, the weekday names below it, and the merges of columns 1 and 2. Only the row-header fills and borders are modelled; these cells lie outside the day grid.
- `date.today()` (lines 34-36) is a parameter, the current year.
- Command-line handling is out of scope: the reversal and popping of `argv`, the text of the messages and `print`/`exit`. Options arrive tokenised, with each numeric argument already read by `int()` as a number, a parse failure or missing.
- `-h` is tested by its own `if` (line 78), outside the `elif` chain. Since `hae()` exits, the model treats it as one more case of the option match.
- `-wr`/`-hr` print the same message for a non-number as for a number at most 0. The model keeps the two reasons apart, and both reject.
- Years past 9999 are accepted by the option checks, but `date()` raises on them in `get_week_number`. The model returns an explicit `Failed(YearPastCalendar)` outcome there.
- HeaderMerge.MergeHeaders: when a header stands alone after the first run, the walk merges the new start with the previous run's stale end, and the model returns that backwards range as data where openpyxl would refuse it. For such rows the contract states only whether the walk fails, not the ranges. No day list produces such a row (`Calendar.LayOut`).
- The number of merge ranges is not related to the number of months in the span; the proved property is the maximal-run partition.

## Findings

| source | as written | input that shows it | evidently intended | confidence | as-written member | corrected member |
|---|---|---|---|---|---|---|
| XLCalendar.py:141 | `re.fullmatch(r".xlsx$", file_name)` decides whether the name already has the extension; `fullmatch` only matches a name of exactly five characters ending in `xlsx` | `-o Calendar.xlsx` stores `Calendar.xlsx.xlsx`; `-o axlsx` stores `axlsx` with no extension | append `.xlsx` unless the name already ends in `.xlsx` | not executed | Options.AppendXlsxAsWritten, Options.AsWrittenCounterexamples | Options.AppendXlsx, Options.AppendXlsxIdempotent |
