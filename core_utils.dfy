/**
 * The coordinate mapping between datetimes and the integer minute points of the
 * range slider (minutes counted from noon of a reference date), the scaling of
 * slider values to graph indices, the `HH:MM` duration text, and the paths the
 * file manager derives from a subject's directory.
 */
module CoreUtils {
  import opened Wrappers
  import opened Text
  import opened PyOps
  import opened DateTimes

  const Noon: int := 43200

  /** The `timezone` argument of `point2time`: None, an `int` (as some callers pass), or a fixed-offset `tzinfo`. */
  datatype TzArg = NoZone | IntOffset(seconds: int) | Zone(offset: int)

  /** Python truthiness of the argument: `None` and `0` are false. */
  predicate Truthy(tz: TzArg) {
    match tz
    case NoZone => false
    case IntOffset(k) => k != 0
    case Zone(_) => true
  }

  /**
   * `time2point(time, date, ignore_timezone=...)`: whole minutes (rounded down)
   * from noon of `date` to `time`.  Without `ignoreTimezone` an aware `time` is
   * subtracted from the naive reference, which raises TypeError.
   */
  function Time2Point(time: DateTime, date: int, ignoreTimezone: bool): (r: Result<int>)
    ensures r.Err? <==> !ignoreTimezone && IsAware(time)
    ensures r.Ok? ==> var reference := date * SecondsPerDay + Noon;
      reference + r.value * 60 <= time.local < reference + r.value * 60 + 60
  {
    var reference := Combine(date, Noon, None);
    var delta := if ignoreTimezone then Sub(ReplaceTz(time, None), reference) else Sub(time, reference);
    if delta.Err? then Err(delta.error) else Ok(FloorDiv(delta.value, 60))
  }

  /**
   * `point2time(point, date, timezone)`.  A missing point means 03:00 on the day
   * after `date`; otherwise the `divmod` pieces of `point` are added to noon of
   * `date`.  A truthy `timezone` converts the naive result with `astimezone`,
   * which raises TypeError for an `int`; the host's UTC offset is `hostOffset`.
   */
  function Point2Time(point: Option<int>, date: int, tz: TzArg, hostOffset: int): (r: Result<DateTime>)
    ensures r.Err? <==> tz.IntOffset? && tz.seconds != 0
    ensures r.Err? ==> r.error == TypeError
    ensures r.Ok? && !Truthy(tz) ==> !IsAware(r.value)
    ensures r.Ok? && tz.Zone? ==> r.value.offset == Some(tz.offset)
  {
    var naive :=
      if point.None? then
        AddSeconds(Combine(date, 0, None), SecondsPerDay + 3 * 3600)
      else
        var days, remainderMinutes := FloorDiv(point.value, 1440), point.value - FloorDiv(point.value, 1440) * 1440;
        var hours, minutes := FloorDiv(remainderMinutes, 60), remainderMinutes - FloorDiv(remainderMinutes, 60) * 60;
        AddSeconds(Combine(date, 0, None), days * SecondsPerDay + hours * 3600 + minutes * 60 + Noon);
    match tz
    case NoZone => Ok(naive)
    case IntOffset(k) => if k != 0 then Err(TypeError) else Ok(naive)
    case Zone(offset) => Ok(AsTimezone(naive, offset, hostOffset))
  }

  /** `point` minutes after noon of `date`, for every integer point, negative ones included. */
  lemma Point2TimeIsMinutesAfterNoon(point: int, date: int, hostOffset: int)
    ensures Point2Time(Some(point), date, NoZone, hostOffset)
         == Ok(DateTime(date * SecondsPerDay + Noon + point * 60, None))
  {
    var days := FloorDiv(point, 1440);
    var rem := point - days * 1440;
    assert point == days * 1440 + FloorDiv(rem, 60) * 60 + (rem - FloorDiv(rem, 60) * 60);
  }

  /** A missing point is 03:00 on the day after `date`. */
  lemma Point2TimeDefault(date: int, hostOffset: int)
    ensures var r := Point2Time(None, date, NoZone, hostOffset);
      r.Ok? && Date(r.value) == date + 1 && Hour(r.value) == 3 && Minute(r.value) == 0 && Second(r.value) == 0
  {
    var t := DateTime((date + 1) * SecondsPerDay + 3 * 3600, None);
    assert Point2Time(None, date, NoZone, hostOffset) == Ok(t);
    assert Date(t) == date + 1;
  }

  /** A zero `int` timezone is falsy, so the naive time comes back unchanged. */
  lemma Point2TimeZeroInt(point: Option<int>, date: int, hostOffset: int)
    ensures Point2Time(point, date, IntOffset(0), hostOffset) == Point2Time(point, date, NoZone, hostOffset)
  {
  }

  /** Converting a point to a time and back gives the point, whichever way time zones are treated. */
  lemma {:induction false} Time2PointOfPoint2Time(point: int, date: int, ignoreTimezone: bool, hostOffset: int)
    ensures Point2Time(Some(point), date, NoZone, hostOffset).Ok?
    ensures Time2Point(Point2Time(Some(point), date, NoZone, hostOffset).value, date, ignoreTimezone) == Ok(point)
  {
    Point2TimeIsMinutesAfterNoon(point, date, hostOffset);
  }

  /** Converting a time to a point and back gives the time with its seconds dropped. */
  lemma Point2TimeOfTime2Point(time: DateTime, date: int, hostOffset: int)
    requires !IsAware(time)
    ensures var p := Time2Point(time, date, false);
      && p.Ok? && Point2Time(Some(p.value), date, NoZone, hostOffset).Ok?
      && var back := Point2Time(Some(p.value), date, NoZone, hostOffset).value;
         !IsAware(back) && back.local <= time.local < back.local + 60
         && (Second(time) == 0 ==> back == time)
  {
    var p := Time2Point(time, date, false);
    Point2TimeIsMinutesAfterNoon(p.value, date, hostOffset);
    if Second(time) == 0 {
      WholeMinuteTime(time, date, p.value);
    }
  }

  /** A time with no seconds lies a whole number of minutes from noon. */
  lemma WholeMinuteTime(time: DateTime, date: int, p: int)
    requires Second(time) == 0
    requires date * SecondsPerDay + Noon + p * 60 <= time.local < date * SecondsPerDay + Noon + p * 60 + 60
    ensures date * SecondsPerDay + Noon + p * 60 == time.local
  {
    var tod := TimeOfDay(time);
    var k := (Date(time) - date) * 1440 - 720 + tod / 60;
    assert tod == tod / 60 * 60;
    assert time.local == date * SecondsPerDay + Noon + k * 60;
  }

  /** The examples of the tests: 15:00 is point 180 and point 180 is 15:00. */
  lemma Time2PointExamples(date: int, hostOffset: int)
    ensures Time2Point(Combine(date, 15 * 3600, None), date, true) == Ok(180)
    ensures Point2Time(Some(180), date, NoZone, hostOffset) == Ok(Combine(date, 15 * 3600, None))
  {
    Point2TimeIsMinutesAfterNoon(180, date, hostOffset);
  }

  /**
   * `slider_values_to_graph_values`: each slider minute scaled to a graph index
   * with `int(value * n / 24 / 60)`, i.e. truncated towards zero.
   */
  function SliderValuesToGraphValues(values: seq<int>, n: int): (r: seq<int>)
    ensures |r| == |values|
    ensures forall i :: 0 <= i < |r| && values[i] * n >= 0 ==>
      0 <= r[i] * 1440 <= values[i] * n < r[i] * 1440 + 1440
    ensures forall i :: 0 <= i < |r| && values[i] * n < 0 ==>
      r[i] * 1440 - 1440 < values[i] * n <= r[i] * 1440 <= 0
  {
    seq(|values|, i requires 0 <= i < |values| => TruncDiv(values[i] * n, 1440))
  }

  /** With a whole number of points per minute the scaling is exact. */
  lemma SliderValuesExact(values: seq<int>, k: int)
    ensures SliderValuesToGraphValues(values, 1440 * k) == seq(|values|, i requires 0 <= i < |values| => values[i] * k)
  {
    var r := SliderValuesToGraphValues(values, 1440 * k);
    forall i | 0 <= i < |values| ensures r[i] == values[i] * k {
      assert values[i] * (1440 * k) == (values[i] * k) * 1440;
    }
  }

  /** Scaling keeps the order of the slider values when `n` is non-negative. */
  lemma SliderValuesMonotone(a: int, b: int, n: int)
    requires a <= b && n >= 0
    ensures SliderValuesToGraphValues([a], n)[0] <= SliderValuesToGraphValues([b], n)[0]
  {
    assert a * n <= b * n;
  }

  /** The end of the slider (36 hours) is the last index of the stitched 36-hour series. */
  lemma SliderEndIsSeriesEnd(n: int)
    requires n >= 0
    ensures SliderValuesToGraphValues([36 * 60], n) == [n / 2 + n]
  {
    var r := SliderValuesToGraphValues([36 * 60], n);
    assert 2160 * n == (n / 2 + n) * 1440 + (n % 2) * 720;
  }

  /** The test example: 0 and 60 minutes at 2880 points per day are indices 0 and 120. */
  lemma SliderValuesExample()
    ensures SliderValuesToGraphValues([0, 60], 2880) == [0, 120]
  {
    SliderValuesExact([0, 60], 2);
  }

  /**
   * `datetime_delta_as_hh_mm` for a delta of whole seconds: `divmod` by 3600
   * (rounding down), whole minutes of the remainder, both formatted `:02`.
   */
  function DeltaAsHhMm(deltaSeconds: int): (s: string)
    ensures 0 <= deltaSeconds < 100 * 3600 ==> |s| == 5 && s[2] == ':'
  {
    var hours := FloorDiv(deltaSeconds, 3600);
    var remainder := deltaSeconds - hours * 3600;
    var minutes := FloorDiv(remainder, 60);
    Format02(hours) + ":" + Format02(minutes)
  }

  /** Reads `H...H:MM` back as hours and minutes. */
  function ReadHhMm(s: string): (r: Option<(nat, nat)>)
  {
    var parts := Split(s, ':');
    if |parts| == 2 && |parts[0]| > 0 && AllDigits(parts[0]) && |parts[1]| > 0 && AllDigits(parts[1])
    then Some((DigitsValue(parts[0]), DigitsValue(parts[1])))
    else None
  }

  /** The duration text of a non-negative delta reads back as the delta in whole hours and minutes. */
  lemma {:induction false} ReadHhMmOfDeltaAsHhMm(deltaSeconds: int)
    requires deltaSeconds >= 0
    ensures var r := ReadHhMm(DeltaAsHhMm(deltaSeconds));
      && r.Some? && r.value.1 < 60
      && r.value.0 * 3600 + r.value.1 * 60 <= deltaSeconds < r.value.0 * 3600 + r.value.1 * 60 + 60
  {
    var hours := FloorDiv(deltaSeconds, 3600);
    var minutes := FloorDiv(deltaSeconds - hours * 3600, 60);
    var hh, mm := Format02(hours), Format02(minutes);
    assert ':' !in hh && ':' !in mm by {
      assert AllDigits(hh) && AllDigits(mm);
    }
    SplitJoin([hh, mm], ':');
    assert Join([hh, mm], ":") == hh + ":" + mm;
  }

  /** The test example: four and a half hours is "04:30". */
  lemma DeltaAsHhMmExample()
    ensures DeltaAsHhMm(4 * 3600 + 30 * 60) == "04:30"
  {
    assert FloorDiv(4 * 3600 + 30 * 60, 3600) == 4;
    assert FloorDiv(30 * 60, 60) == 30;
    TwoDigits(4);
    TwoDigits(30);
  }

  /** `f"{i:02}"` of a number below 100 is its tens digit followed by its units digit. */
  lemma TwoDigits(i: int)
    requires 0 <= i < 100
    ensures Format02(i) == [DigitChar(i / 10), DigitChar(i % 10)]
  {
    var s := Format02(i);
    assert s[..1][..0] == [];
    assert DigitsValue(s) == DigitValue(s[0]) * 10 + DigitValue(s[1]);
  }

  /** `base_dir.rsplit("_", maxsplit=1)[-1]`: what follows the last `_`, or the whole string. */
  function Identifier(baseDir: string): (r: string)
    ensures '_' !in r
    ensures |r| <= |baseDir| && baseDir[|baseDir| - |r|..] == r
    ensures |r| < |baseDir| ==> baseDir[|baseDir| - |r| - 1] == '_'
  {
    if baseDir == [] || baseDir[|baseDir| - 1] == '_' then []
    else Identifier(baseDir[..|baseDir| - 1]) + [baseDir[|baseDir| - 1]]
  }

  /** A directory named `<anything>_<id>` has identifier `id` when `id` has no `_`. */
  lemma {:induction false} IdentifierOfSuffix(prefix: string, id: string)
    requires '_' !in id
    ensures Identifier(prefix + "_" + id) == id
    decreases |id|
  {
    var s := prefix + "_" + id;
    if id == [] {
      assert s[|s| - 1] == '_';
    } else {
      assert s[..|s| - 1] == prefix + "_" + id[..|id| - 1];
      IdentifierOfSuffix(prefix, id[..|id| - 1]);
      assert id[..|id| - 1] + [id[|id| - 1]] == id;
    }
  }

  /** `os.path.join(a, b)` on POSIX. */
  function PathJoin(a: string, b: string): (r: string)
    ensures |b| > 0 && b[0] != '/' ==> |r| >= |a| + |b| && r[..|a|] == a && r[|r| - |b|..] == b
  {
    if |b| > 0 && b[0] == '/' then b
    else if a == [] || a[|a| - 1] == '/' then a + b
    else a + "/" + b
  }

  /** Joining one directory with different relative names gives different paths. */
  lemma PathJoinInjective(dir: string, b: string, c: string)
    requires |b| > 0 && b[0] != '/' && |c| > 0 && c[0] != '/' && b != c
    ensures PathJoin(dir, b) != PathJoin(dir, c)
  {
    var p := dir + (if dir == [] || dir[|dir| - 1] == '/' then "" else "/");
    assert PathJoin(dir, b) == p + b && PathJoin(dir, c) == p + c;
    assert (p + b)[|p|..] == b && (p + c)[|p|..] == c;
  }

  /** The names of the seven files kept in the log directory of subject `id`. */
  function LogFileNames(id: string): (r: seq<string>)
    ensures |r| == 7
    ensures forall i, j :: 0 <= i < j < 7 ==> r[i] != r[j]
    ensures forall i :: 0 <= i < 7 ==> |r[i]| > 0 && r[i][0] != '/'
  {
    var r := ["log_file.csv", Stem("sleeplog_", id), Stem("multiple_sleeplog_", id),
              Stem("data_cleaning_", id), Stem("missing_sleep_", id), Stem("review_night_", id),
              "participants_with_completed_analysis.csv"];
    assert r[0][0] == 'l' && r[6][0] == 'p';
    r
  }

  /** `f"{prefix}{id}.csv"`, which begins with the first two characters of `prefix`. */
  function Stem(prefix: string, id: string): (r: string)
    requires |prefix| > 1
    ensures |r| > 1 && r[0] == prefix[0] && r[1] == prefix[1]
  {
    prefix + id + ".csv"
  }

  /** The paths a subject's directory determines (`FileManager`): the log directory, the identifier and seven log files. */
  datatype FileManager = FileManager(
    baseDir: string, logDir: string, identifier: string,
    logFile: string, sleeplogFile: string, multipleSleeplogFile: string, dataCleaningFile: string,
    missingSleepFile: string, reviewNightFile: string, completedAnalysisFile: string)
  {
    /** The `i`-th of the seven log files, in the order of `LogFileNames`. */
    function File(i: int): string
      requires 0 <= i < 7
    {
      match i
      case 0 => logFile
      case 1 => sleeplogFile
      case 2 => multipleSleeplogFile
      case 3 => dataCleaningFile
      case 4 => missingSleepFile
      case 5 => reviewNightFile
      case _ => completedAnalysisFile
    }
  }

  /** `path` is the log directory of `baseDir` joined with the `i`-th log file name. */
  predicate LogFilePathIs(baseDir: string, path: string, i: int)
    requires 0 <= i < 7
  {
    path == PathJoin(PathJoin(baseDir, "logs"), LogFileNames(Identifier(baseDir))[i])
  }

  /** The seven log files of the subject whose directory is `baseDir`: distinct paths, each in `<baseDir>/logs`. */
  function LogFilePaths(baseDir: string): (r: seq<string>)
    ensures |r| == 7
    ensures forall i, j :: 0 <= i < j < 7 ==> r[i] != r[j]
    ensures forall i :: 0 <= i < 7 ==> LogFilePathIs(baseDir, r[i], i)
  {
    var dir := PathJoin(baseDir, "logs");
    var names := LogFileNames(Identifier(baseDir));
    var r := seq(7, i requires 0 <= i < 7 => PathJoin(dir, names[i]));
    assert forall i, j :: 0 <= i < j < 7 ==> r[i] != r[j] by {
      forall i, j | 0 <= i < j < 7 ensures r[i] != r[j] {
        PathJoinInjective(dir, names[i], names[j]);
      }
    }
    r
  }

  /** The manager with the given directories and identifier whose seven log files are `paths`, in the order of `LogFileNames`. */
  function WithLogFiles(baseDir: string, logDir: string, identifier: string, paths: seq<string>): (fm: FileManager)
    requires |paths| == 7
    ensures fm.baseDir == baseDir && fm.logDir == logDir && fm.identifier == identifier
    ensures forall i :: 0 <= i < 7 ==> fm.File(i) == paths[i]
  {
    FileManager(baseDir, logDir, identifier, paths[0], paths[1], paths[2], paths[3], paths[4], paths[5], paths[6])
  }

  /** `FileManager(base_dir)`; creating the log directory on disk is not modelled. */
  function NewFileManager(baseDir: string): (fm: FileManager)
    ensures fm.baseDir == baseDir && fm.logDir == PathJoin(baseDir, "logs") && fm.identifier == Identifier(baseDir)
    ensures forall i :: 0 <= i < 7 ==> fm.File(i) == LogFilePaths(baseDir)[i]
  {
    WithLogFiles(baseDir, PathJoin(baseDir, "logs"), Identifier(baseDir), LogFilePaths(baseDir))
  }
}
