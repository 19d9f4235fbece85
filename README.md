# Actigraphy annotation core, modelled in Dafny

The actigraphy app shows a subject's wrist-sensor recording one day at a time.
Researchers drag a range slider to mark the night's sleep window. This project
models the integer, list and string logic under that interface.

- **Coordinate mapping** (`CoreUtils`). A datetime maps to a "minute point" counted from noon of a reference date, and back, including the 03:00-next-day default for a missing point. This module also covers the slider-to-graph scaling, the `HH:MM` duration text and the paths of the file manager.
- **Day segmentation** (`DataImport`, and the older noon-anchored `PlottingGraphs`). It covers:
  - the day boundaries in the timestamp sequence;
  - each day's slice, with the 25-hour and 23-hour daylight-saving correction;
  - the padding of the first and last day;
  - the expansion of long-window non-wear flags onto the short-window vector, written into an array;
  - in `PlottingGraphs`, the row-by-row fill of three 2-D arrays.
- **The 36-hour window** (`GraphComponent`, `Callbacks`, `Runs`). The window shows the second half of day *d* followed by all of day *d+1*. The run extractor turns a 0/1 non-wear vector into an even-length list of boundaries, which become the drawn rectangles. `Runs` proves that each rectangle covers a run of 1s and that every 1 is covered. `GraphComponent` also models:
  - the slider marks;
  - the conversions in `refresh_range_slider` and `adjust_range_slider`.

  `Callbacks` models the loop-based duplicate of `create_graph`, the switch reads, and the in-place toggle of one vector entry (an `array`).
- **Records** (`DbModels`, `DbUtils`). These cover:
  - the `SleepTime`, `Day` and `Subject` rows and their defaults;
  - the unique and cascade constraints, as operations on a store of tables;
  - `onset_with_tz` and `wakeup_with_tz`;
  - the first-datetime-per-date filter;
  - the construction of a subject's nights with their default sleep window.
- **Normalisers** (`IoUtils`, `Metadata`, `Io`, `MinorFiles`). These cover:
  - the snake-case rewriters;
  - the recursive cleaning of metadata keys;
  - the two `flatten` variants;
  - the single-key check of `_rdata_to_dataframe`;
  - the rows of the sleep log and of a vector file, as `csv.writer` writes them.

Shared building blocks:

- `Calendar` and `DateTimes` model Python's proleptic-Gregorian ordinals and `datetime`. A datetime is a wall-clock reading in seconds plus an optional UTC offset. The blocks cover `strptime`/`str` of the `%Y-%m-%dT%H:%M:%S%z` layout, `astimezone` and subtraction.
- `PyOps` holds floor division, indexing, slicing and `[x] * n`.
- `Text` holds lowercasing, `str(int)`, `int(str)`, `join` and `split`.
- `RegexSub` models `re.sub` with an empty-width pattern, given the positions where it matches.

Two notes on the snake-casers:

- `io/metadata.py`'s `_snakecase` is the same expression as `io/utils.py`'s `snakecase`, so both are `IoUtils.Snakecase`.
- `io.py`'s `_snakecase` is a different rewriter, modelled as `Io.Snakecase`. `Io.SnakecaseAgrees` and `Io.SnakecaseSplitsCapitals` relate the two.

`IoUtils.Snakecase` follows the code as written: the substitution runs on the reversed string. The docstring promises "_" before every capital that follows a character that is neither a capital nor "_". `IoUtils.SnakecaseForward` proves that the code does this with one exception. After a leading newline, `$` also matches before the final newline of the reversed string, so no "_" is inserted there. The model follows the code.

Where an operation changes state in the source, the model is imperative:

- the loops of `get_midnights`, `_keep_first_unique_dates`, `initialize_subject`, `_recursive_clean_rdata`, `flatten` and `_flatten`;
- the non-wear change scan;
- the daylight-saving correction;
- the non-wear expansion into an array;
- the row fill of `create_graphs`;
- `_toggle_vector_value`.

Each such method is proved equal to a specification function, and the properties are proved about that function.

Inputs that the source reads from files, the database or the host become parameters:

- the parsed timestamps, window sizes, non-wear scores and sensor series;
- the host's UTC offset, for `astimezone` on a naive datetime;
- `DEFAULT_SLEEP_TIME`, in seconds after midnight.

## Model

| member | source | states |
|---|---|---|
| Calendar.DayOfMonth | src/actigraphy/io/data_import.py:66 | `t.day` lies between 1 and 31 |
| Calendar.YmdToOrdOfOrdToYmd | src/actigraphy/io/data_import.py:66 | an ordinal turned into a date and back is the same ordinal, so `.day` reads the calendar day of the timestamp's date |
| Calendar.OrdToYmdOfYmdToOrd | src/actigraphy/io/data_import.py:114 | a valid date turned into its ordinal and back is the same date |
| Calendar.YmdToOrdInjective | src/actigraphy/io/data_import.py:114 | different valid dates have different ordinals |
| DateTimes.AsTimezone | src/actigraphy/database/models.py:73-76 | the converted datetime carries the target offset and the same instant; a naive one is read as host-local time |
| DateTimes.Sub | src/actigraphy/components/graph.py:205 | subtracting a naive and an aware datetime raises TypeError; otherwise the difference is 0 exactly when the two compare equal |
| DateTimes.Parse | src/actigraphy/io/data_import.py:48 | a parsed timestamp is aware, in range, with a whole-minute offset |
| DateTimes.ParseOfRender | src/actigraphy/io/data_import.py:48 | writing an aware datetime with a whole-minute offset in the `%z` layout and parsing it gives it back |
| Text.ParseIntOfIntToString | src/actigraphy/io/minor_files.py:56-58 | `int(str(i)) == i` |
| Text.SplitJoin | src/actigraphy/io/minor_files.py:56-58 | a line joined at a separator that no part contains splits back into the parts |
| CoreUtils.Time2Point | src/actigraphy/core/utils.py:81-103 | the point is the whole number of minutes, rounded down, from noon of `date` to the time; keeping the time zone of an aware time raises TypeError (naive reference), and only then |
| CoreUtils.Point2Time | src/actigraphy/core/utils.py:106-139 | fails exactly when `timezone` is a non-zero `int`, and then with TypeError; without a truthy `timezone` the result is naive, with a `tzinfo` it carries that offset |
| CoreUtils.Point2TimeIsMinutesAfterNoon | src/actigraphy/core/utils.py:132-136 | for every integer point, negatives included, the `divmod` pieces recombine to noon of `date` plus `point` minutes |
| CoreUtils.Point2TimeDefault | src/actigraphy/core/utils.py:122-130 | a `None` point is 03:00:00 on the day after `date` |
| CoreUtils.Point2TimeZeroInt | src/actigraphy/core/utils.py:137-139 | a zero `int` timezone is falsy, so the naive time comes back unchanged |
| CoreUtils.Time2PointOfPoint2Time | src/actigraphy/core/utils.py:98-139 | `time2point(point2time(p, d), d) == p` for every integer `p`, with or without `ignore_timezone` |
| CoreUtils.Point2TimeOfTime2Point | src/actigraphy/core/utils.py:98-139 | the converse round trip gives a naive time back with its seconds dropped, and the time itself when it has none |
| CoreUtils.Time2PointExamples | tests/unit/test_core_utils.py:7-26 | 15:00 of the date is point 180, and point 180 is 15:00 of the date |
| CoreUtils.SliderValuesToGraphValues | src/actigraphy/core/utils.py:160-176 | one graph value per slider value, each `value * n / 1440` truncated towards zero (bounds stated for both signs) |
| CoreUtils.SliderValuesExact | src/actigraphy/core/utils.py:176 | with `n = 1440 * k` points per day every slider minute maps to exactly `value * k` |
| CoreUtils.SliderValuesMonotone | src/actigraphy/core/utils.py:176 | for non-negative `n` the scaling keeps the order of slider values |
| CoreUtils.SliderEndIsSeriesEnd | src/actigraphy/core/utils.py:176 | the slider end, 36 hours, maps to `n // 2 + n`, the length of the stitched window |
| CoreUtils.SliderValuesExample | tests/unit/test_core_utils.py:41-49 | `[0, 60]` at 2880 points per day gives `[0, 120]` |
| CoreUtils.DeltaAsHhMm | src/actigraphy/core/utils.py:65-78 | below 100 hours the text is five characters with ":" in the middle |
| CoreUtils.ReadHhMmOfDeltaAsHhMm | src/actigraphy/core/utils.py:76-78 | the text of a non-negative delta reads back as whole hours and leftover whole minutes (minutes below 60), rounded down to the minute |
| CoreUtils.DeltaAsHhMmExample | tests/unit/test_utils.py:6-13 | four and a half hours is "04:30" |
| CoreUtils.TwoDigits | src/actigraphy/core/utils.py:78 | `f"{i:02}"` of a number below 100 is its tens digit then its units digit |
| CoreUtils.Identifier | src/actigraphy/core/utils.py:37 | the identifier contains no "_", ends `base_dir`, and is preceded by "_" unless it is the whole of `base_dir` |
| CoreUtils.IdentifierOfSuffix | src/actigraphy/core/utils.py:37 | a directory named `<prefix>_<id>` with no "_" in `id` has identifier `id` |
| CoreUtils.PathJoin | src/actigraphy/core/utils.py:36 | joining a relative name keeps the directory as prefix and the name as suffix |
| CoreUtils.PathJoinInjective | src/actigraphy/core/utils.py:39-60 | different relative names in one directory give different paths |
| CoreUtils.LogFileNames | src/actigraphy/core/utils.py:39-60 | seven distinct relative file names |
| CoreUtils.LogFilePaths | src/actigraphy/core/utils.py:36-60 | seven distinct paths, each the log directory `<base_dir>/logs` joined with its file name |
| CoreUtils.NewFileManager | src/actigraphy/core/utils.py:33-60 | the manager holds `base_dir`, `<base_dir>/logs`, the identifier and the seven log-file paths in order |
| GraphComponent.MarkLabel | src/actigraphy/components/graph.py:51 | the label of hour `h` is five characters `HH:00` whose two digits denote `(h + 12) % 24` |
| GraphComponent.SliderMarksLabels | src/actigraphy/components/graph.py:46-53 | every even hour 0..36 has a mark; every mark lies in 0..2160, falls on a whole two hours and reads as the clock hour twelve hours later, `HH:00` |
| GraphComponent.SliderMarksExamples | src/actigraphy/components/graph.py:47-53 | the slider reads "12:00" at 0, "00:00" at 720 and "00:00" at its end, 2160 |
| GraphComponent.SliderMarkAt | src/actigraphy/components/graph.py:50-53 | the mark at `hour * 60` is the label of `hour` |
| GraphComponent.Stitch | src/actigraphy/components/graph.py:94-96 | the window is `day1` from `n // 2` on followed by all of `day2`, element by element |
| GraphComponent.DayTimestamps | src/actigraphy/components/graph.py:101-103 | `n // 2` copies of the date, then `n` copies of the next date |
| GraphComponent.StitchMatchesTimestamps | src/actigraphy/components/graph.py:94-103 | for an even `n` and full days the stitched series and the dates have the same length, and the second day's points carry the next date |
| GraphComponent.GetDayData | src/actigraphy/components/graph.py:213-227 | a loaded day is returned as loaded; past the last day, `n` angles of 0, `n` movements of -210 and `n` non-wear 0s |
| GraphComponent.MissingDayHasNoNonwear | src/actigraphy/components/graph.py:221-227 | the fallback day yields no non-wear changes |
| GraphComponent.GetNonwearChanges | src/actigraphy/components/graph.py:230-243 | an empty vector raises IndexError; otherwise the list is the run-boundary list of the vector (properties proved in `Runs`) |
| GraphComponent.SleepRectangle | src/actigraphy/components/graph.py:264-265 | one sleep rectangle over the two points exactly when they differ |
| GraphComponent.NonwearRectangles | src/actigraphy/components/graph.py:267-273 | one non-wear rectangle per consecutive pair of change indices, in order |
| GraphComponent.BuildRectangles | src/actigraphy/components/graph.py:262-273 | the sleep rectangle then the non-wear pairs; fewer than two slider values or an odd change count raise IndexError, and nothing else does |
| GraphComponent.NonwearRectanglesCoverRuns | src/actigraphy/components/graph.py:232-242 | over a 0/1 vector every non-wear rectangle starts on a 1 and covers only 1s, and every 1 before the last point lies in one of them |
| GraphComponent.SleepRectangleDrawn | src/actigraphy/components/graph.py:262-265 | with at least one point per minute, distinct slider values give a sleep rectangle and equal ones none |
| GraphComponent.RefreshRangeSlider | src/actigraphy/components/graph.py:133-155 | two points, the onset and wakeup shown at the onset's offset as whole minutes from noon of the day; a day without sleep windows raises IndexError |
| GraphComponent.AdjustRangeSlider | src/actigraphy/components/graph.py:167-205 | fails exactly when there are fewer than two slider values, no sleep window or a non-zero stored offset, with the error of the first check met in the source's order (IndexError for the first point or the sleep window, TypeError for the onset offset, IndexError for the second point, TypeError for the wakeup offset); otherwise only the first sleep window changes, to the slider times read as host-local and stored in UTC, and the duration text is that of the minutes between the points |
| GraphComponent.StoredPoint | src/actigraphy/components/graph.py:186-198 | a slider point converted by `point2time` and stored in UTC is noon plus the point's minutes, shifted by the host's offset |
| GraphComponent.PointsApart | src/actigraphy/components/graph.py:186-205 | two slider points converted alike lie their difference in minutes apart |
| GraphComponent.AdjustRangeSliderRejectsOffsets | src/actigraphy/components/graph.py:186-190 | a subject at UTC+1 (offset 3600) gets TypeError, because the `int` offset is passed as `point2time`'s `timezone` |
| GraphComponent.AdjustThenRefresh | src/actigraphy/components/graph.py:133-205 | moving the window and reading it back gives the slider points shifted by the host's UTC offset in minutes |
| GraphComponent.AdjustDuration | src/actigraphy/components/graph.py:205 | the duration text reads back as the minutes between the two slider points |
| GraphComponent.AdjustRangeSliderIntended | src/actigraphy/components/graph.py:186-205 | with the offsets passed as `tzinfo`s: fails only for fewer than two slider values or no sleep window, and stores the same UTC instants |
| GraphComponent.AdjustIntendedThenRefresh | src/actigraphy/components/graph.py:133-205 | on a host in the subject's time zone, moving the window and reading it back gives the slider points exactly |
| Runs.ChangeIndices | src/actigraphy/components/graph.py:232-236 | the indices below `hi`, ascending, at which the value differs from the one before |
| Runs.ChangeIndicesComplete | src/actigraphy/components/graph.py:232-236 | every index where the value changes is listed |
| Runs.RunBoundaries | src/actigraphy/components/graph.py:230-243 | the list always has an even length, so it pairs up |
| Runs.PrefixParity | src/actigraphy/components/graph.py:232-238 | in a 0/1 vector, a position holds 1 exactly when an odd number of the boundaries read so far are at or before it |
| Runs.RunStartsAreOnes | src/actigraphy/components/graph.py:230-243 | in a 0/1 vector every pair starts on a 1 |
| Runs.RunsAreOnes | src/actigraphy/components/graph.py:230-243 | in a 0/1 vector every index from a pair's start up to, not including, its end holds a 1 |
| Runs.OnesAreInRuns | src/actigraphy/components/graph.py:230-243 | every 1 before the last position lies inside some pair |
| Runs.LastOneClosesRun | src/actigraphy/components/graph.py:239-242 | a vector that ends in 1 has the last index as its final boundary |
| Runs.RunBoundariesRepeatsLast | src/actigraphy/components/graph.py:237-242 | `[0, 0, 1]` gives `[2, 2]`: the closing index can repeat the last change |
| Runs.RunBoundariesBounds | src/actigraphy/components/graph.py:230-243 | the boundaries are non-decreasing indices into the vector |
| Runs.ZerosHaveNoRuns | src/actigraphy/components/graph.py:230-243 | a vector of zeros gives no boundaries |
| Callbacks.Fallback | src/actigraphy/core/callbacks.py:309-312 | past the last date the next day is `n` zeros, `n` values of -210 and `n` non-wear zeros |
| Callbacks.SecondDay | src/actigraphy/core/callbacks.py:303-312 | a `day` not below the number of dates gives the fallback, never a load |
| Callbacks.Assemble | src/actigraphy/core/callbacks.py:300-318 | the first day's error wins, then the second day's, then IndexError from `dates[day]` |
| Callbacks.Plot | src/actigraphy/core/callbacks.py:323-359 | a drawn figure's angle, movement and timestamp traces have the same length, at least the 36 ticks; fewer timestamps than ticks make a zero tick step, which raises ValueError |
| Callbacks.NonwearChanges | src/actigraphy/core/callbacks.py:333-340 | an empty series raises IndexError; otherwise the loop-built list is the run-boundary list of `components/graph.py` (properties proved in `Runs`), closed with the last timestamp index |
| Callbacks.CreateGraph | src/actigraphy/core/callbacks.py:284-359 | the statements compute `GraphWindow`, errors in the source's order |
| Callbacks.LoadSecondDay | src/actigraphy/core/callbacks.py:303-312 | the branch computes `SecondDay` |
| Callbacks.DrawWindow | src/actigraphy/core/callbacks.py:300-359 | the statements compute `Assemble` |
| Callbacks.DrawPlot | src/actigraphy/core/callbacks.py:323-359 | the statements compute `Plot` |
| Callbacks.FullDaysMakeAWindow | src/actigraphy/core/callbacks.py:314-321 | two full days of an even `n >= 24` points always make a window of `n // 2 + n` points titled with the 1-based day |
| Callbacks.WindowLayout | src/actigraphy/core/callbacks.py:314-321 | the traces are the second half of day one then all of day two, element by element; the first `n // 2` timestamps carry the date and the rest the next date |
| Callbacks.FallbackNeverShown | src/actigraphy/core/callbacks.py:303-318 | when the fallback is taken, `dates[day]` is out of range too, so the callback raises |
| Callbacks.PlotRectanglesMarkRuns | src/actigraphy/core/callbacks.py:333-358 | over a 0/1 non-wear series the non-wear rectangles start on 1s, cover only 1s, and cover every 1 before the last point |
| Callbacks.UpdateSwitches | src/actigraphy/core/callbacks.py:97-116 | the truthiness of the three vectors at `day`, negative days from the end; IndexError exactly when some vector lacks the day |
| Callbacks.Toggled | src/actigraphy/core/callbacks.py:32 | the entry the index names becomes the new value and every other entry is kept; an index outside raises IndexError |
| Callbacks.ToggleVectorValue | src/actigraphy/core/callbacks.py:19-33 | only the entry at `index` changes; on IndexError the vector is unchanged |
| Callbacks.ToggleThenUpdateSwitches | src/actigraphy/core/callbacks.py:19-33 | toggling a switch for a day and reading the switches back shows the new position and leaves the other two unchanged |
| DataImport.GetTime | src/actigraphy/io/data_import.py:36-48 | every text is parsed, in order, with `%Y-%m-%dT%H:%M:%S%z`; ValueError exactly when some text does not parse |
| DataImport.GetTimeOfRender | src/actigraphy/io/data_import.py:48 | aware timestamps in range with whole-minute offsets, written in that layout, parse back to themselves |
| DataImport.GetMidnights | src/actigraphy/io/data_import.py:52-69 | the loop appends, for each consecutive pair on different days of the month, the `index` of the pair's second timestamp plus one |
| DataImport.IndexOf | src/actigraphy/io/data_import.py:67 | `list.index` finds the first position holding a datetime equal to the one looked up, at or before it |
| DataImport.MidnightsOfDistinct | src/actigraphy/io/data_import.py:63-68 | with distinct timestamps the midnights are one past each index where the day of the month changes |
| DataImport.MidnightsIncrease | src/actigraphy/io/data_import.py:63-68 | with distinct timestamps the midnights strictly increase and lie in `[2, len]` |
| DataImport.GetDaycount | src/actigraphy/io/data_import.py:73-84 | one more day than there are midnights |
| DataImport.GetMidnightsExample | tests/unit/test_data_import.py:77-97 | one second before midnight and two after it give the single midnight 2 |
| DataImport.NextDayOfMonth | tests/unit/test_data_import.py:77-97 | the day after a date that is not the month's last is the next day of the month |
| DataImport.GetNPointsPerDay | src/actigraphy/io/data_import.py:87-98 | `86400 // windowsizes[0]`: IndexError without window sizes, ZeroDivisionError for 0, otherwise the floor quotient |
| DataImport.PointsPerDayExact | src/actigraphy/io/data_import.py:98 | a window size that divides the day gives exactly the quotient; 5 gives 17280 |
| DataImport.PointsPerDayEven | src/actigraphy/io/data_import.py:98 | a window size that divides the hour gives an even number of points, at least 24 |
| DataImport.Insert | src/actigraphy/io/data_import.py:114 | adding to an increasing list keeps it increasing and adds exactly that element |
| DataImport.GetDates | src/actigraphy/io/data_import.py:101-115 | increasing, and holds exactly the dates of the timestamps |
| DataImport.AdjustedEnd | src/actigraphy/io/data_import.py:228-233 | a 25-hour day ends one hour of points earlier, a 23-hour day one later, any other keeps its end |
| DataImport.AdjustForDaylightSavings | src/actigraphy/io/data_import.py:214-233 | both tests read the length before either correction, so the result is `AdjustedEnd` |
| DataImport.AdjustedDayHas24Hours | src/actigraphy/io/data_import.py:228-233 | a corrected day counts 24 hours afterwards: at most one correction fires and it is the right one |
| DataImport.AdjustedEndExample | src/actigraphy/io/data_import.py:228-233 | with 5-second windows, days of 18000 and 16560 points both end at 17279; a 17280-point day is unchanged |
| DataImport.Targets | src/actigraphy/io/data_import.py:199 | `[0]`, then the midnights, then None |
| DataImport.Pairwise | src/actigraphy/io/data_import.py:201 | the consecutive pairs of the list |
| DataImport.DayBounds | src/actigraphy/io/data_import.py:199-211 | day `k` (negative from the end) runs from the previous midnight, 0 for the first, to the next one corrected for daylight saving; the last has no end and a midnight of 0 is not corrected; an index outside the days raises IndexError |
| DataImport.DayStartAndEnd | src/actigraphy/io/data_import.py:185-211 | the statements compute `DayBounds`; the start is never None, so its ValueError is not reachable |
| DataImport.ConsecutiveDaysMeet | src/actigraphy/io/data_import.py:199-211 | day `k + 1` starts at the midnight where day `k` ends before its correction |
| DataImport.FlaggedIndices | src/actigraphy/io/data_import.py:144 | exactly the positions whose score is above 1, ascending |
| DataImport.MarkSlice | src/actigraphy/io/data_import.py:147-153 | the slice is set to 1 and nothing else changes |
| DataImport.MarkWindows | src/actigraphy/io/data_import.py:146-153 | after the loop a point is 1 exactly when it lies in the slice of some flagged start; others keep their value |
| DataImport.ExpandNonwear | src/actigraphy/io/data_import.py:141-153 | `n` points, 1 exactly on the marked points; fewer than two window sizes (IndexError) or a zero first one (ZeroDivisionError) fail only when a window is flagged |
| DataImport.FlaggedWindowIsMarked | src/actigraphy/io/data_import.py:146-153 | every point from a flagged window up to its span less one is marked |
| DataImport.MarkedPointHasFlaggedWindow | src/actigraphy/io/data_import.py:146-153 | every marked point lies in the range of some flagged window |
| DataImport.Magnitude | src/actigraphy/io/data_import.py:164 | the absolute value of the reading times 1000 |
| DataImport.Rescaled | src/actigraphy/io/data_import.py:180 | each value divided by 14, less 210 |
| DataImport.Padded | src/actigraphy/io/data_import.py:168-178 | the extension goes in front on the first day, behind on the last, and nowhere otherwise |
| DataImport.RescaledFrontPadding | src/actigraphy/io/data_import.py:168-180 | front padding: `max(0, n - len)` points at -210, then the values rescaled |
| DataImport.RescaledBackPadding | src/actigraphy/io/data_import.py:168-180 | back padding: the values rescaled, then `max(0, n - len)` points at -210 |
| DataImport.FirstDayIsFrontPadded | src/actigraphy/io/data_import.py:164-180 | on the first day the slice's points end the row, after the padding plotted at -210; the angle and non-wear slices carry the same padding in front |
| DataImport.LastDayIsBackPadded | src/actigraphy/io/data_import.py:164-180 | on the last day the slice's points open the row, followed by padding at -210; the angle and non-wear slices carry the same padding at the back |
| DataImport.MiddleDayIsNotPadded | src/actigraphy/io/data_import.py:164-182 | a day between two midnights is its slices alone |
| DataImport.CreateGraph | src/actigraphy/io/data_import.py:118-182 | the steps of `create_graph` compute `GraphOfDay`, errors in the order the source raises them |
| DataImport.GraphOfDayRow | src/actigraphy/io/data_import.py:155-182 | a successful day has midnights, and its row is sliced with the bounds of `DayBounds`: starting at 0 only on the first day (or after a midnight of 0), open-ended only on the last |
| PlottingGraphs.NoonBoundaries | src/actigraphy/plotting/graphs.py:57-64 | ascending indices, each one past a timestamp at exactly 12:00:00 that is not the last |
| PlottingGraphs.NoonBoundariesComplete | src/actigraphy/plotting/graphs.py:57-64 | every noon timestamp other than the last gives its boundary |
| PlottingGraphs.GetDaycount | src/actigraphy/plotting/graphs.py:67-79 | one more day than there are boundaries |
| PlottingGraphs.DaycountBounds | src/actigraphy/plotting/graphs.py:57-79 | `i + 1` is a boundary exactly when timestamp `i`, not the last, is at noon; so there are between 1 and `len` days |
| PlottingGraphs.GetGraphDates | src/actigraphy/plotting/graphs.py:112-114 | the dates kept are ascending |
| PlottingGraphs.FirstDateIsEarliest | src/actigraphy/plotting/graphs.py:112-114 | the first sorted date is the earliest date of the recording |
| PlottingGraphs.GraphDatesDropEarliest | src/actigraphy/plotting/graphs.py:104-114 | a date is kept exactly when some timestamp falls on it and some falls on an earlier one |
| PlottingGraphs.DayRange | src/actigraphy/plotting/graphs.py:156-167 | `[0, m0)` for the first day, `[m(k-1), m(k))` between, `[m_last, len)` for the last |
| PlottingGraphs.DayRangesTile | src/actigraphy/plotting/graphs.py:156-167 | each day ends where the next starts; together they cover `[0, len)` |
| PlottingGraphs.CorrectedEndIsAdjustedEnd | src/actigraphy/plotting/graphs.py:169-177 | the two corrections, each recounting the hours, agree with the one-count rule of `data_import`: at most one fires |
| PlottingGraphs.Picked | src/actigraphy/plotting/graphs.py:179-181 | `xs[range(start, end)]` holds the elements from `start` up to `end`, none when `end <= start` |
| PlottingGraphs.Row | src/actigraphy/plotting/graphs.py:179-193 | KeyError exactly when the non-empty range leaves the series; otherwise three series of one length |
| PlottingGraphs.RowFrontPadded | src/actigraphy/plotting/graphs.py:179-193 | the first day holds `n - len` points plotted at -210, then `abs(enmo * 1000) / 14 - 210` of each of its points; its angles and non-wear flags are its slices with the same padding in front |
| PlottingGraphs.RowBackPadded | src/actigraphy/plotting/graphs.py:179-193 | a later day ending at the last timestamp holds its plotted points, then `n - len` points plotted at -210; its angles and non-wear flags are its slices padded at the back |
| PlottingGraphs.RowNotPadded | src/actigraphy/plotting/graphs.py:179-193 | any other day holds exactly its plotted points, angles and non-wear flags, unpadded |
| PlottingGraphs.Fit | src/actigraphy/plotting/graphs.py:195-197 | a series of the row's width is stored as it is, one of length 1 is broadcast, any other length raises ValueError |
| PlottingGraphs.GraphRow | src/actigraphy/plotting/graphs.py:158-197 | a day that is stored fills a row of `n` points in each array |
| PlottingGraphs.RowsUpTo | src/actigraphy/plotting/graphs.py:156-197 | the days in order, each a full-width row, or the first failing day's error |
| PlottingGraphs.GraphsShape | src/actigraphy/plotting/graphs.py:145-197 | a successful build has one row per day, `get_daycount` rows of `n_points_per_day` each |
| PlottingGraphs.NoNoonRaises | src/actigraphy/plotting/graphs.py:152-153 | a recording with no noon timestamp before its last one raises ValueError |
| PlottingGraphs.LongLastDayFitsOnlyExactly | src/actigraphy/plotting/graphs.py:169-197 | a 25-hour last day loses an hour and is not back-padded, so it is stored only when it held exactly a day plus an hour |
| PlottingGraphs.ShortLastDayRaises | src/actigraphy/plotting/graphs.py:174-181 | a 23-hour last day is read an hour past the recording's end: KeyError, and no graphs |
| PlottingGraphs.SetRow | src/actigraphy/plotting/graphs.py:195-197 | the row becomes the series; every other row keeps its values |
| PlottingGraphs.StoreDay | src/actigraphy/plotting/graphs.py:195-197 | after the three assignments row `k` holds the day and earlier rows keep theirs |
| PlottingGraphs.BuildDay | src/actigraphy/plotting/graphs.py:158-193 | one pass of the loop computes `GraphRow` |
| PlottingGraphs.FillRows | src/actigraphy/plotting/graphs.py:156-197 | fails exactly when `RowsUpTo` does, with its error; otherwise every row holds its day |
| PlottingGraphs.CreateGraphs | src/actigraphy/plotting/graphs.py:117-197 | fails exactly when `Graphs` does, with its error; otherwise three fresh arrays of one row per day (the midnights plus one) and `n_points_per_day` columns, holding its rows |
| DbModels.Stored | src/actigraphy/database/models.py:42-53 | a zone-less `DateTime` column keeps the wall-clock reading and drops the zone |
| DbModels.OnsetWithTz | src/actigraphy/database/models.py:66-76 | the stored onset read as UTC is the same instant, shown at `onset_utc_offset` |
| DbModels.WakeupWithTz | src/actigraphy/database/models.py:78-88 | the stored wakeup read as UTC is the same instant, shown at the onset's offset, not the wakeup's |
| DbModels.OnsetWithTzStoresBack | src/actigraphy/database/models.py:73-76 | converting the shown onset back to UTC and storing it gives the stored onset again |
| DbModels.WakeupWithTzStoresBack | src/actigraphy/database/models.py:85-88 | the same round trip for the wakeup |
| DbModels.NewDay | src/actigraphy/database/models.py:110-125 | a new day has its date and sleep windows, and all three flags False |
| DbModels.NewSubject | src/actigraphy/database/models.py:153-165 | a new subject has its name, days and points per day, and `is_finished` False |
| DbModels.NextId | src/actigraphy/database/models.py:16 | an auto-incremented key is above every key in use |
| DbModels.AddSubject | src/actigraphy/database/models.py:153-157 | refused exactly when the name is in use; otherwise the subject is added under a new key and the tables stay consistent |
| DbModels.AddDay | src/actigraphy/database/models.py:105-130 | refused exactly when the subject does not exist or already has that date; otherwise added under a new key |
| DbModels.AddSleepTime | src/actigraphy/database/models.py:58-62 | refused exactly when the day does not exist; otherwise added under a new key |
| DbModels.DeleteDay | src/actigraphy/database/models.py:136-140 | the day and exactly its sleep windows go; everything else stays, and the tables stay consistent |
| DbModels.DeleteSubject | src/actigraphy/database/models.py:132-171 | the subject, exactly its days and exactly their sleep windows go; everything else stays |
| DbUtils.KeptIndices | src/actigraphy/database/utils.py:87-96 | ascending positions, each the first of its date |
| DbUtils.KeepFirst | src/actigraphy/database/utils.py:87-96 | the datetimes at those positions, in input order |
| DbUtils.DatesBelow | src/actigraphy/database/utils.py:87-93 | exactly the dates seen so far |
| DbUtils.KeepFirstUniqueDates | src/actigraphy/database/utils.py:75-96 | the loop over the set of seen dates computes `KeepFirst` |
| DbUtils.KeepFirstDistinct | src/actigraphy/database/utils.py:87-96 | the kept datetimes have pairwise-distinct dates |
| DbUtils.KeptIndicesComplete | src/actigraphy/database/utils.py:90-94 | every first-of-date position is kept |
| DbUtils.KeepFirstCovers | src/actigraphy/database/utils.py:90-94 | every input date is the date of a kept datetime, the first of that date |
| DbUtils.SortKey | src/actigraphy/database/utils.py:41 | aware datetimes compare by their instant |
| DbUtils.InsertByKey | src/actigraphy/database/utils.py:41 | inserting adds exactly that element |
| DbUtils.InsertKeepsSorted | src/actigraphy/database/utils.py:41 | inserting into a sorted list keeps it sorted |
| DbUtils.SortByKey | src/actigraphy/database/utils.py:41 | `sorted` gives a permutation in ascending order |
| DbUtils.SortKeepsDistinct | src/actigraphy/database/utils.py:41 | sorting keeps the dates distinct |
| DbUtils.DefaultSleep | src/actigraphy/database/utils.py:47-64 | onset equals wakeup, at `DEFAULT_SLEEP_TIME` UTC on the next date plus the next kept datetime's offset; both offset columns hold that offset |
| DbUtils.NightsUpTo | src/actigraphy/database/utils.py:43-65 | one night per date, paired with the next datetime |
| DbUtils.SubjectDays | src/actigraphy/database/utils.py:43-70 | `max(0, len(dates) - 2)` nights, night `i` built from dates `i` and `i + 1` |
| DbUtils.InitializeSubject | src/actigraphy/database/utils.py:18-72 | the statements compute `SubjectFor` |
| DbUtils.BuildNights | src/actigraphy/database/utils.py:43-65 | the loop appends one night per consecutive pair of dates |
| DbUtils.NewNight | src/actigraphy/database/utils.py:45-64 | one pass builds the day and its default sleep window |
| DbUtils.SubjectDayCount | src/actigraphy/database/utils.py:41-71 | a subject gets `max(0, len(dates) - 2)` days from its distinct dates |
| DbUtils.SubjectNights | src/actigraphy/database/utils.py:44-64 | night `i` has the `i`-th date, default flags, and one sleep window as `DefaultSleep` gives |
| DbUtils.DefaultSleepShown | src/actigraphy/database/utils.py:47-62 | shown by `onset_with_tz`, the default onset reads `DEFAULT_SLEEP_TIME` on the next date shifted by twice the offset |
| DbUtils.SortedKeptOfOneOffset | src/actigraphy/database/utils.py:41 | with one offset throughout, the sorted kept datetimes ascend, have distinct dates and keep that offset |
| DbUtils.NightsAscend | src/actigraphy/database/utils.py:41-71 | with one offset throughout, the nights' dates strictly ascend |
| MinorFiles.Leaves | src/actigraphy/io/minor_files.py:61-76 | only atoms come out: strings and bytes count as atoms, lists are spliced |
| MinorFiles.Flatten | src/actigraphy/io/minor_files.py:61-76 | the loop computes the leaves in left-to-right order |
| MinorFiles.LeavesAppend | src/actigraphy/io/minor_files.py:70-76 | flattening a concatenation flattens each part in turn |
| MinorFiles.LeavesOfAtoms | src/actigraphy/io/minor_files.py:70-76 | a list of atoms flattens to itself |
| MinorFiles.LeavesIdempotent | src/actigraphy/io/minor_files.py:70-76 | flattening twice is flattening once |
| MinorFiles.FlattenNested | tests/unit/test_minor_files.py:65-71 | `[[1, 2], [["abc", b"abc"], [5, 6]]]` gives its six atoms in order, the string and the bytes kept whole |
| MinorFiles.Zip | src/actigraphy/io/minor_files.py:32 | `zip(..., strict=True)` of two lists of one length gives their pairs in order |
| MinorFiles.LeavesOfZip | src/actigraphy/io/minor_files.py:32 | flattening the pairs interleaves the two lists |
| MinorFiles.CsvField | src/actigraphy/io/minor_files.py:43-45 | a field needing no quotes is written as it is, any other between quotes |
| MinorFiles.CsvRow | src/actigraphy/io/minor_files.py:43-45 | every row ends with the dialect's `\r\n` |
| MinorFiles.IntToStringPlain | src/actigraphy/io/minor_files.py:56-58 | `str` of an integer never needs quotes |
| MinorFiles.CsvRowOfPlain | src/actigraphy/io/minor_files.py:56-58 | a row of fields needing no quotes is the fields joined by commas, then `\r\n` |
| MinorFiles.CsvRowReadsBack | src/actigraphy/io/minor_files.py:56-58 | such a row, split at its commas, gives back the fields |
| MinorFiles.WriteVectorReadsBack | src/actigraphy/io/minor_files.py:48-58 | the written line, split at its commas, parses back to the vector |
| MinorFiles.WriteVectorExample | tests/unit/test_minor_files.py:25-35 | `[1, 2, 3, 4, 5]` is written as `1,2,3,4,5` and the line end |
| MinorFiles.SleepDates | src/actigraphy/io/minor_files.py:30-32 | two entries per day: its first window's onset, then its wakeup, both shown at the onset's offset |
| MinorFiles.SleepNames | src/actigraphy/io/minor_files.py:37-39 | `onset_N<d>` then `wakeup_N<d>` for each day, counted from one |
| MinorFiles.SleepDateAt | src/actigraphy/io/minor_files.py:30-32 | entry `k` is the onset (even `k`) or the wakeup (odd `k`) of day `k / 2` |
| MinorFiles.HeaderLine | src/actigraphy/io/minor_files.py:37-40 | `ID`, then `onset_N<d>` and `wakeup_N<d>` for each day |
| MinorFiles.Texts | src/actigraphy/io/minor_files.py:35 | each datetime written as `str` writes it |
| MinorFiles.DataLine | src/actigraphy/io/minor_files.py:34-35 | `identifier`, then each flattened date written out, `1 + 2 * days` cells |
| MinorFiles.SleeplogRows | src/actigraphy/io/minor_files.py:28-40 | IndexError exactly when some day has no sleep window |
| MinorFiles.SleeplogHeader | src/actigraphy/io/minor_files.py:37-40 | the header has `1 + 2 * days` cells, with `onset_N<d + 1>` and `wakeup_N<d + 1>` at `1 + 2d` and `2 + 2d` |
| MinorFiles.SleeplogData | src/actigraphy/io/minor_files.py:30-35 | the data row has `1 + 2 * days` cells, with day `d`'s onset and wakeup at `1 + 2d` and `2 + 2d` |
| IoUtils.SnakecaseForward | src/actigraphy/io/utils.py:48 | the substitution on the reversed string puts "_" before exactly the capitals that follow a character that is neither a capital nor "_", then lowercases |
| IoUtils.SnakecaseLength | src/actigraphy/io/utils.py:48 | the output is the input plus one character per inserted "_" |
| IoUtils.SnakecaseAt | src/actigraphy/io/utils.py:48 | each character keeps its place, shifted by the "_"s before it, lowercased, with "_" right before it exactly at a boundary |
| IoUtils.SnakecaseNoBoundary | src/actigraphy/io/utils.py:48 | without a boundary the string is only lowercased |
| IoUtils.SnakecaseNoCapitals | src/actigraphy/io/utils.py:48 | a string without capitals comes back unchanged |
| IoUtils.SnakecaseCapitalRun | src/actigraphy/io/utils.py:39-48 | a run of capitals gets no "_" between its letters |
| IoUtils.SnakecaseHead | src/actigraphy/io/utils.py:48 | the output never starts with an inserted "_" |
| IoUtils.SnakecaseConcat | src/actigraphy/io/utils.py:48 | snake-casing a concatenation snake-cases the parts, with "_" at the join exactly when it is a boundary |
| IoUtils.SnakecaseCapitalsThenPlain | src/actigraphy/io/utils.py:48 | capitals followed by a part without capitals: the capitals are lowercased and nothing is inserted |
| IoUtils.SnakecaseWords | src/actigraphy/io/utils.py:48 | capitals, a lowercase word, then a capitalised word: the only "_" goes before the last word |
| IoUtils.FlattenSpecLeaves | src/actigraphy/io/utils.py:51-66 | RecursionError exactly when a non-empty string sits in the nesting; otherwise the leaves in order, bytes spread into their values and empty strings dropped |
| IoUtils.FlattenPlainAtoms | src/actigraphy/io/utils.py:60-66 | nested lists of plain atoms flatten to their leaves in order |
| IoUtils.Flatten | src/actigraphy/io/utils.py:51-66 | the loop with its recursive calls computes `FlattenSpec` |
| IoUtils.FlattenRejectsTestInput | tests/unit/test_io_utils.py:14-20 | the test's nesting with a non-empty string raises RecursionError instead of giving the six leaves |
| Metadata.ReplaceDots | src/actigraphy/io/metadata.py:67 | every "." becomes "_" and every other character is kept |
| Metadata.CleanKey | src/actigraphy/io/metadata.py:57-68 | the cleaned key has no dot and no capital letter |
| Metadata.CleanKeyOfCleanKey | src/actigraphy/io/metadata.py:57-68 | a key that is already clean is kept |
| Metadata.CleanKeyIdempotent | src/actigraphy/io/metadata.py:57-68 | cleaning a key twice is cleaning it once |
| Metadata.CleanValue | src/actigraphy/io/metadata.py:71-75 | exactly the one-element lists are unwrapped; every other value is kept |
| Metadata.SnakecaseAllUppercase | tests/unit/test_io.py:8-14 | "ALLUPPERCASE" gives "alluppercase" |
| Metadata.SnakecaseAllUppercaseWithDigit | tests/unit/test_io.py:17-23 | "ALLUPPERCASE4" gives "alluppercase4" |
| Metadata.SnakecaseCamelCase | tests/unit/test_io.py:26-32 | "camelCase" gives "camel_case" |
| Metadata.SnakecaseSnakeCase | tests/unit/test_io.py:35-41 | "snake_case" is kept |
| Metadata.SnakecasePascalCase | tests/unit/test_io.py:44-50 | "PascalCase" gives "pascal_case" |
| Metadata.SnakecaseConsecutiveUppercase | tests/unit/test_io.py:53-59 | "COnsecutiveUppercase" gives "consecutive_uppercase" |
| Metadata.FillKeys | src/actigraphy/io/metadata.py:94-100 | the dict built by assignment has exactly the keys assigned |
| Metadata.FillLastWins | src/actigraphy/io/metadata.py:100 | a key no later assignment repeats holds its own value |
| Metadata.CleanPairs | src/actigraphy/io/metadata.py:95-99 | one cleaned pair per entry |
| Metadata.RecursiveCleanRdata | src/actigraphy/io/metadata.py:78-101 | the loop, with its recursive calls, computes `CleanSpec` |
| Metadata.CleanSpecKeys | src/actigraphy/io/metadata.py:95-100 | the output keys are exactly the cleaned input keys, all clean |
| Metadata.CleanSpecLastWins | src/actigraphy/io/metadata.py:95-100 | a cleaned key that no later entry shares holds that entry's cleaned value; with a clash the later entry wins |
| Metadata.WrappedDictNotCleaned | src/actigraphy/io/metadata.py:97-99 | a dict in a one-element list is unwrapped but its keys are not cleaned; a bare dict is cleaned recursively |
| Io.SnakecaseAllUpper | src/actigraphy/io.py:142-143 | all capitals, the empty string included: each character is lowercased and nothing is inserted |
| Io.SnakecaseNoCapitals | src/actigraphy/io.py:144 | a string without capitals comes back unchanged |
| Io.SnakecaseAt | src/actigraphy/io.py:144 | outside the shortcut each character keeps its place, shifted by the "_"s before it, lowercased, with "_" right before it exactly when it is a capital not at the start and not after "_" |
| Io.SnakecaseSplitsCapitals | src/actigraphy/io.py:144 | "ABc" gives "a_bc", where `io/utils.py` gives "abc" |
| Io.SnakecaseDigitDisablesShortcut | src/actigraphy/io.py:142-144 | "AB4" gives "a_b4": a digit turns the shortcut off |
| Io.SnakecaseAgreesAllUpper | src/actigraphy/io.py:142-143 | on all capitals both snake-casers lowercase |
| Io.SnakecaseAgrees | src/actigraphy/io.py:144 | without two capitals in a row (and without a leading newline before a capital) it agrees with `io/utils.py` |
| Io.RdataToDataframe | src/actigraphy/io.py:126-129 | the sole value exactly when there is one key; ValueError otherwise |

## Left out

- File, database and network I/O is not modelled: RData parsing (`rdata`, `MetaData.from_file`, `MS4.from_file`), CSV reads, SQLAlchemy sessions and commits, directory creation, and logging. Their results are parameters, and `crud`, `read_vector` and `write_sleeplog`'s file handle are not part of this model.
- The Dash and plotly interface is not modelled: component layouts, callback registration and the figure objects. A figure is modelled by its traces, title and rectangles.
- `point2time_timestamp` and `get_axis_range` are not modelled: they use float division.
- CoreUtils.Time2Point and CoreUtils.Point2Time take integer points; the source's float points are not modelled.
- The acceleration scaling `abs(x * 1000) / 14 - 210` and the non-wear scores use exact reals; float rounding is not modelled.
- The daylight-saving rule, the expansion span and the slider scaling use exact integer arithmetic. The DST rule requires a window size that divides the hour (`DataImport.DividesHour`); the float quotient `3600 / window_size` of other sizes is not modelled.
- The host's local time zone is one fixed offset, a parameter; zone rules that change the offset within a recording are not modelled.
- `adjust_range_slider` returns the updated day instead of changing the database row in place; it does not model writing the sleep log or the onset and offset texts.
- The `Callbacks` module models `create_graph`, `update_switches` and `_toggle_vector_value`. The callbacks module's own `refresh_range_slider`/`adjust_range_slider` variants and the remaining callbacks are UI wiring and are not modelled.
- The date-format strings of titles and hover texts (`strftime("%A - %d %B %Y")`, `%d/%b/%Y`) are not modelled; the title keeps the date and the day number.
- A malformed timestamp, a malformed integer and a CSV field needing quotes are handled only as far as the listed members say. `DateTimes.Parse` reads the fixed-width `%Y-%m-%dT%H:%M:%S%z` layout and returns None for anything else; `strptime`'s leniency (one-digit fields) is not modelled.
- DateTimes.AsTimezone, CoreUtils.Point2Time, DbModels.OnsetWithTz, DbModels.WakeupWithTz, GraphComponent.RefreshRangeSlider and GraphComponent.AdjustRangeSlider compute on unbounded integers. The OverflowError Python raises when `astimezone` or `combine(...) + timedelta` leaves years 1..9999 is not modelled, and neither is the ValueError `timezone(timedelta(seconds=o))` raises for an offset of a whole day or more. Their failure conditions, and CoreUtils.Point2TimeIsMinutesAfterNoon and CoreUtils.Time2PointOfPoint2Time for every integer point, hold only inside that range. The stored offsets come from `%z` parses, which `DateTimes.Parse` keeps strictly within a day.
- MinorFiles.SleeplogRows requires every shown onset and wakeup to lie in Python's datetime range (`Showable`); the OverflowError `astimezone` raises outside it is not modelled.
- DbUtils.SubjectFor and DbUtils.InitializeSubject require every timestamp to be aware (`AllAware`), as `%z` parsing guarantees; sorting a mix of naive and aware datetimes (a TypeError) is not modelled.
- DbUtils.SortByKey is a sorted permutation; the stability of Python's sort is not modelled, so the order of datetimes at the same instant is left open.
- DbModels.AddDay and DbModels.AddSleepTime refuse a row whose parent is missing, as a database that enforces foreign keys does; SQLite enforces them only when switched on (`PRAGMA foreign_keys=ON`), and a store that does not is not modelled.
- DbModels: the `String(128)` bound on subject names, the `time_created`/`time_updated` columns and the flags' 0/1 storage are not modelled.
- MinorFiles.CsvRow ends each row with `\r\n` as `csv.writer` does; reading the file in text mode (which turns it into `\n`) is not modelled.
- Text.IsUpper and Text.Lower cover ASCII letters only; Unicode case rules are not modelled.
- IoUtils.FlattenSpec reports RecursionError for any non-empty string; Python's recursion-depth limit on deep lists of other kinds is not modelled.
- Metadata.CleanSpec is a map; the key order of the cleaned Python dict is not modelled.
- Io.RdataToDataframe takes the converted file as its list of `(key, value)` items with distinct keys; parsing and converting the file are not modelled.

## Findings

| source | as written | input that shows it | evidently intended | confidence | as-written member | corrected member |
|---|---|---|---|---|---|---|
| src/actigraphy/components/graph.py:186-195 | passes the stored `int` offsets as `point2time`'s `timezone` argument, which calls `astimezone` on it | a sleep window stored with `onset_utc_offset == 3600` (UTC+1): `astimezone(3600)` raises TypeError | convert the offsets to `datetime.timezone(timedelta(seconds=...))` first | high, not executed | GraphComponent.AdjustRangeSliderRejectsOffsets | GraphComponent.AdjustRangeSliderIntended |
| src/actigraphy/io/utils.py:62 | recurses into every iterable, strings included, and a one-character string iterates to itself | the unit test's `[[1, 2], [["abc", b"abc"], [5, 6]]]` raises RecursionError instead of giving `[1, 2, "abc", b"abc", 5, 6]` | treat `str` and `bytes` as atoms, as `minor_files._flatten` does | high, not executed | IoUtils.FlattenRejectsTestInput | MinorFiles.FlattenNested |
