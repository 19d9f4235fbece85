/**
 * The app's callbacks that compute rather than wire widgets together: the
 * 36-hour graph of `create_graph` (the second half of a day followed by the
 * whole next day, its non-wear change scan and its rectangles), the three
 * switches of `update_switches`, and `_toggle_vector_value`, which sets one
 * entry of a stored flag vector.
 */
module Callbacks {
  import opened Wrappers
  import opened PyOps
  import opened DateTimes
  import opened CoreUtils
  import opened DataImport
  import opened GraphComponent
  import Runs

  /**
   * What `create_graph` hands to the plot: the 1-based day number and date of
   * the title, the date of every point, the two traces as the source names
   * them, and the rectangles drawn on top.
   */
  datatype Figure = Figure(
    dayNumber: int,
    date: int,
    timestampDates: seq<int>,
    sensorAngle: seq<real>,
    armMovement: seq<real>,
    rectangles: seq<Rectangle>)

  /**
   * The three lists `create_graph` puts in place of a day after the last date:
   * `n` zeros, `n` values of -210 and `n` zeros.  `data_import.create_graph`
   * returns its series in the order acceleration, angle, non-wear, and the
   * callback unpacks both days by position, so these take the same positions.
   */
  function Fallback(n: int): (g: DayGraph)
    ensures |g.acceleration| == |g.angle| == |g.nonWear| == if n < 0 then 0 else n
    ensures forall i :: 0 <= i < |g.nonWear| ==> g.acceleration[i] == 0.0 && g.angle[i] == -210.0 && g.nonWear[i] == 0
  {
    DayGraph(Repeat(0.0, n), Repeat(-210.0, n), Repeat(0, n))
  }

  /** `n_ticks`, the number of x-axis ticks the sensor plot is built with. */
  const TickCount := 36

  /**
   * The figure drawn from the stitched series: an empty non-wear series raises
   * IndexError at `nonwear[0]`, traces whose lengths differ from the
   * timestamps' raise ValueError in the plot, fewer timestamps than ticks make
   * the tick step `len(timestamps) // n_ticks` zero, which `range` refuses with
   * ValueError, and fewer than two slider values raise IndexError; otherwise the sleep rectangle comes first, then one
   * rectangle per pair of non-wear boundaries closed with the last timestamp
   * index.
   */
  function Plot(day: int, date: int, stamps: seq<int>, angle: seq<real>, arm: seq<real>, nonwear: seq<int>,
                n: int, dragValue: seq<int>): (r: Result<Figure>)
    ensures r.Ok? ==> |r.value.sensorAngle| == |r.value.armMovement| == |r.value.timestampDates| >= TickCount
    ensures 0 < |nonwear| && |stamps| < TickCount ==> r == Err(ValueError)
  {
    if |nonwear| == 0 then Err(IndexError)
    else if |angle| != |arm| || |angle| != |stamps| then Err(ValueError)
    else if |stamps| / TickCount == 0 then Err(ValueError)
    else if |dragValue| < 2 then Err(IndexError)
    else
      var rectangles := SleepRectangle(SliderValuesToGraphValues(dragValue, n))
        + NonwearRectangles(Runs.RunBoundaries(nonwear, |stamps| - 1));
      Ok(Figure(day + 1, date, stamps, angle, arm, rectangles))
  }

  /** The window of two days' series: the second half of the first day followed by the second day. */
  function Window(day1: DayGraph, day2: DayGraph, n: nat, date: int, day: int, dragValue: seq<int>): (r: Result<Figure>)
  {
    Plot(day, date, DayTimestamps(date, n), Stitch(day1.acceleration, day2.acceleration, n),
         Stitch(day1.angle, day2.angle, n), Stitch(day1.nonWear, day2.nonWear, n), n, dragValue)
  }

  /** The next day's series: loaded when `day` is below the number of dates, else the flat fallback. */
  function SecondDay(enmo: seq<real>, anglez: seq<real>, scores: seq<real>, windowSizes: seq<int>, midnights: seq<int>,
                     day: int, dateCount: nat, n: int): (r: Result<DayGraph>)
    requires |windowSizes| > 0 && windowSizes[0] != 0 ==> DividesHour(windowSizes[0])
    ensures day >= dateCount ==> r == Ok(Fallback(n))
  {
    if day < dateCount then GraphOfDay(enmo, anglez, scores, windowSizes, midnights, day + 1) else Ok(Fallback(n))
  }

  /**
   * The part of `create_graph` after the series are loaded: the first error of
   * either day, IndexError when `dates[day]` is out of range, else the window
   * titled with that date.
   */
  function Assemble(day: int, dragValue: seq<int>, dates: seq<int>, n: nat, day1: Result<DayGraph>, day2: Result<DayGraph>)
    : (r: Result<Figure>)
    ensures day1.Err? ==> r == Err(day1.error)
    ensures day1.Ok? && day2.Err? ==> r == Err(day2.error)
    ensures day1.Ok? && day2.Ok? && PyIndex(|dates|, day).None? ==> r == Err(IndexError)
  {
    if day1.Err? then Err(day1.error)
    else if day2.Err? then Err(day2.error)
    else match PyIndex(|dates|, day)
      case None => Err(IndexError)
      case Some(k) => Window(day1.value, day2.value, n, dates[k], day, dragValue)
  }

  /**
   * `create_graph` of the callbacks module: the dates, the points per day, the
   * day's series and the next day's (or the flat fallback when `day` is not
   * below the number of dates), then the window titled with `dates[day]`.
   */
  function GraphWindow(day: int, dragValue: seq<int>, ts: seq<DateTime>, enmo: seq<real>, anglez: seq<real>,
                       scores: seq<real>, windowSizes: seq<int>): (r: Result<Figure>)
    requires |windowSizes| > 0 && windowSizes[0] != 0 ==> DividesHour(windowSizes[0])
  {
    var dates := GetDates(ts);
    var n := GetNPointsPerDay(windowSizes);
    var midnights := Midnights(ts, |ts|);
    if n.Err? then Err(n.error)
    else
      PointsPerDayEven(windowSizes[0]);
      assert n == GetNPointsPerDay([windowSizes[0]]);
      Assemble(day, dragValue, dates, n.value,
               GraphOfDay(enmo, anglez, scores, windowSizes, midnights, day),
               SecondDay(enmo, anglez, scores, windowSizes, midnights, day, |dates|, n.value))
  }

  /**
   * The loop of `create_graph` that lists the indices where the non-wear value
   * changes, then puts 0 in front when the series starts truthy and appends
   * `close` when the count is odd.
   */
  method NonwearChanges(nonwear: seq<int>, close: int) returns (r: Result<seq<int>>)
    ensures r.Err? <==> |nonwear| == 0
    ensures r.Err? ==> r.error == IndexError
    ensures r.Ok? ==> r.value == Runs.RunBoundaries(nonwear, close)
  {
    if |nonwear| == 0 {
      return Err(IndexError);
    }
    var changes := [];
    var index := 1;
    while index < |nonwear|
      invariant 1 <= index <= |nonwear|
      invariant changes == Runs.ChangeIndices(nonwear, index)
    {
      if nonwear[index] != nonwear[index - 1] {
        changes := changes + [index];
      }
      index := index + 1;
    }
    assert changes == Runs.ChangeIndices(nonwear, |nonwear|);
    if nonwear[0] != 0 {
      changes := [0] + changes;
    }
    assert changes == Runs.Opening(nonwear) + Runs.ChangeIndices(nonwear, |nonwear|);
    if |changes| % 2 != 0 {
      changes := changes + [close];
    }
    return Ok(changes);
  }

  /** `create_graph`, step by step in the source's order. */
  method CreateGraph(day: int, dragValue: seq<int>, ts: seq<DateTime>, enmo: seq<real>, anglez: seq<real>,
                     scores: seq<real>, windowSizes: seq<int>) returns (r: Result<Figure>)
    requires |windowSizes| > 0 && windowSizes[0] != 0 ==> DividesHour(windowSizes[0])
    ensures r == GraphWindow(day, dragValue, ts, enmo, anglez, scores, windowSizes)
  {
    var dates := GetDates(ts);
    var n := GetNPointsPerDay(windowSizes);
    if n.Err? {
      return Err(n.error);
    }
    PointsPerDayEven(windowSizes[0]);
    assert n == GetNPointsPerDay([windowSizes[0]]);
    var midnights := GetMidnights(ts);
    var day1 := DataImport.CreateGraph(enmo, anglez, scores, windowSizes, midnights, day);
    var day2 := LoadSecondDay(enmo, anglez, scores, windowSizes, midnights, day, |dates|, n.value);
    r := DrawWindow(day, dragValue, dates, n.value, day1, day2);
  }

  /** The branch of `create_graph` that loads the next day or builds the fallback. */
  method LoadSecondDay(enmo: seq<real>, anglez: seq<real>, scores: seq<real>, windowSizes: seq<int>, midnights: seq<int>,
                       day: int, dateCount: nat, n: int) returns (r: Result<DayGraph>)
    requires |windowSizes| > 0 && windowSizes[0] != 0 ==> DividesHour(windowSizes[0])
    ensures r == SecondDay(enmo, anglez, scores, windowSizes, midnights, day, dateCount, n)
  {
    if day < dateCount {
      r := DataImport.CreateGraph(enmo, anglez, scores, windowSizes, midnights, day + 1);
      assert SecondDay(enmo, anglez, scores, windowSizes, midnights, day, dateCount, n) == GraphOfDay(enmo, anglez, scores, windowSizes, midnights, day + 1);
    } else {
      r := Ok(Fallback(n));
      assert SecondDay(enmo, anglez, scores, windowSizes, midnights, day, dateCount, n) == r;
    }
  }

  /** The statements of `create_graph` from the error checks of the loaded days to the rectangles. */
  method DrawWindow(day: int, dragValue: seq<int>, dates: seq<int>, n: nat, day1: Result<DayGraph>, day2: Result<DayGraph>)
    returns (r: Result<Figure>)
    ensures r == Assemble(day, dragValue, dates, n, day1, day2)
  {
    if day1.Err? {
      return Err(day1.error);
    }
    if day2.Err? {
      return Err(day2.error);
    }
    var k := PyIndex(|dates|, day);
    if k.None? {
      return Err(IndexError);
    }
    var date := dates[k.value];
    var sensorAngle := Stitch(day1.value.acceleration, day2.value.acceleration, n);
    var armMovement := Stitch(day1.value.angle, day2.value.angle, n);
    var nonwear := Stitch(day1.value.nonWear, day2.value.nonWear, n);
    var timestamps := DayTimestamps(date, n);
    r := DrawPlot(day, date, timestamps, sensorAngle, armMovement, nonwear, n, dragValue);
  }

  /** The statements of `create_graph` from the non-wear change scan to the rectangles. */
  method DrawPlot(day: int, date: int, stamps: seq<int>, angle: seq<real>, arm: seq<real>, nonwear: seq<int>,
                  n: int, dragValue: seq<int>) returns (r: Result<Figure>)
    ensures r == Plot(day, date, stamps, angle, arm, nonwear, n, dragValue)
  {
    var changes := NonwearChanges(nonwear, |stamps| - 1);
    if changes.Err? {
      return Err(changes.error);
    }
    if |angle| != |arm| || |angle| != |stamps| {
      return Err(ValueError);
    }
    if |stamps| / TickCount == 0 {
      return Err(ValueError);
    }
    var rectangles := BuildRectangles(dragValue, n, changes.value);
    if rectangles.Err? {
      return Err(rectangles.error);
    }
    r := Ok(Figure(day + 1, date, stamps, angle, arm, rectangles.value));
  }

  /**
   * Two days of `n` points each (with `n` even and at least 24, as every
   * window that divides an hour gives) always make a window of `n / 2 + n`
   * points, never fewer than the plot's ticks, titled with the 1-based day
   * number.
   */
  lemma FullDaysMakeAWindow(day1: DayGraph, day2: DayGraph, n: nat, date: int, day: int, dragValue: seq<int>)
    requires n >= 24 && n % 2 == 0 && |dragValue| >= 2
    requires |day1.acceleration| == |day1.angle| == |day1.nonWear| == n
    requires |day2.acceleration| == |day2.angle| == |day2.nonWear| == n
    ensures Window(day1, day2, n, date, day, dragValue).Ok?
    ensures var f := Window(day1, day2, n, date, day, dragValue).value;
      && f.dayNumber == day + 1 && f.date == date
      && |f.sensorAngle| == |f.armMovement| == |f.timestampDates| == n / 2 + n
  {
    assert n - n / 2 == n / 2;
    assert |Stitch(day1.nonWear, day2.nonWear, n)| > 0;
  }

  /**
   * The layout of a window: the traces hold the second half of the first day
   * and then the whole second day, the first `n / 2` points carry the date
   * and the rest the next date.
   */
  lemma WindowLayout(day1: DayGraph, day2: DayGraph, n: nat, date: int, day: int, dragValue: seq<int>)
    requires Window(day1, day2, n, date, day, dragValue).Ok?
    requires n / 2 <= |day1.acceleration| && n / 2 <= |day1.angle|
    ensures var f := Window(day1, day2, n, date, day, dragValue).value;
      var h, g := |day1.acceleration| - n / 2, |day1.angle| - n / 2;
      && |f.sensorAngle| == h + |day2.acceleration| && |f.armMovement| == g + |day2.angle|
      && (forall i :: 0 <= i < h ==> f.sensorAngle[i] == day1.acceleration[n / 2 + i])
      && (forall j :: 0 <= j < |day2.acceleration| ==> f.sensorAngle[h + j] == day2.acceleration[j])
      && (forall i :: 0 <= i < g ==> f.armMovement[i] == day1.angle[n / 2 + i])
      && (forall j :: 0 <= j < |day2.angle| ==> f.armMovement[g + j] == day2.angle[j])
      && (forall i :: 0 <= i < |f.timestampDates| ==> f.timestampDates[i] == if i < n / 2 then date else date + 1)
  {
    var f := Window(day1, day2, n, date, day, dragValue).value;
    assert f.sensorAngle == Stitch(day1.acceleration, day2.acceleration, n);
    assert f.armMovement == Stitch(day1.angle, day2.angle, n);
    assert f.timestampDates == DayTimestamps(date, n);
  }

  /**
   * The flat fallback never reaches the plot: a `day` that is not below the
   * number of dates (the condition for the fallback) also fails the title's
   * `dates[day]`, so the callback raises.
   */
  lemma FallbackNeverShown(day: int, dragValue: seq<int>, ts: seq<DateTime>, enmo: seq<real>, anglez: seq<real>,
                           scores: seq<real>, windowSizes: seq<int>)
    requires |windowSizes| > 0 && windowSizes[0] != 0 ==> DividesHour(windowSizes[0])
    requires day >= |GetDates(ts)|
    ensures GraphWindow(day, dragValue, ts, enmo, anglez, scores, windowSizes).Err?
  {
    assert PyIndex(|GetDates(ts)|, day).None?;
  }

  /** `x` is a position of `v` holding 1. */
  predicate OneAt(v: seq<int>, x: int) {
    0 <= x < |v| && v[x] == 1
  }

  /** Every position of `v` in `lo..hi-1` holds 1. */
  predicate OnesBetween(v: seq<int>, lo: int, hi: int) {
    forall k :: lo <= k < hi ==> OneAt(v, k)
  }

  /**
   * Over a 0/1 non-wear series as long as the timestamps, the non-wear
   * rectangles of a figure start on a 1, cover only 1s, and cover every 1
   * before the last point.
   */
  lemma PlotRectanglesMarkRuns(day: int, date: int, stamps: seq<int>, angle: seq<real>, arm: seq<real>, nonwear: seq<int>,
                               n: int, dragValue: seq<int>)
    requires Plot(day, date, stamps, angle, arm, nonwear, n, dragValue).Ok?
    requires |nonwear| == |stamps| && Runs.Binary(nonwear)
    ensures var f := Plot(day, date, stamps, angle, arm, nonwear, n, dragValue).value;
      var s := |SleepRectangle(SliderValuesToGraphValues(dragValue, n))|;
      && s <= |f.rectangles|
      && (forall m :: s <= m < |f.rectangles| ==>
            && f.rectangles[m].kind == NonWear
            && OneAt(nonwear, f.rectangles[m].x0)
            && OnesBetween(nonwear, f.rectangles[m].x0, f.rectangles[m].x1))
      && (forall k :: 0 <= k < |nonwear| - 1 && nonwear[k] == 1 ==>
            exists m :: s <= m < |f.rectangles| && f.rectangles[m].x0 <= k < f.rectangles[m].x1)
  {
    var f := Plot(day, date, stamps, angle, arm, nonwear, n, dragValue).value;
    var sleep := SleepRectangle(SliderValuesToGraphValues(dragValue, n));
    assert f.rectangles == sleep + NonwearRectangles(Runs.RunBoundaries(nonwear, |nonwear| - 1));
    RectanglesAfterMarkRuns(nonwear, sleep, f.rectangles);
  }

  /** The run facts of `NonwearRectanglesCoverRuns`, for non-wear rectangles drawn after other ones. */
  lemma RectanglesAfterMarkRuns(v: seq<int>, before: seq<Rectangle>, rectangles: seq<Rectangle>)
    requires |v| > 0 && Runs.Binary(v)
    requires rectangles == before + NonwearRectangles(Runs.RunBoundaries(v, |v| - 1))
    ensures forall m :: |before| <= m < |rectangles| ==>
      && rectangles[m].kind == NonWear
      && OneAt(v, rectangles[m].x0)
      && OnesBetween(v, rectangles[m].x0, rectangles[m].x1)
    ensures forall k :: 0 <= k < |v| - 1 && v[k] == 1 ==>
      exists m :: |before| <= m < |rectangles| && rectangles[m].x0 <= k < rectangles[m].x1
  {
    var rs := NonwearRectangles(Runs.RunBoundaries(v, |v| - 1));
    NonwearRectanglesCoverRuns(v, rs);
    Runs.RunBoundariesBounds(v);
    RectanglesAfterAreRuns(v, before, rs, rectangles);
    RectanglesAfterCoverOnes(v, before, rs, rectangles);
  }

  lemma RectanglesAfterAreRuns(v: seq<int>, before: seq<Rectangle>, rs: seq<Rectangle>, rectangles: seq<Rectangle>)
    requires rectangles == before + rs
    requires forall m :: 0 <= m < |rs| ==> rs[m].kind == NonWear && 0 <= rs[m].x0 < |v| && v[rs[m].x0] == 1
    requires forall m, k :: 0 <= m < |rs| && rs[m].x0 <= k < rs[m].x1 ==> 0 <= k < |v| && v[k] == 1
    ensures forall m :: |before| <= m < |rectangles| ==>
      && rectangles[m].kind == NonWear
      && OneAt(v, rectangles[m].x0)
      && OnesBetween(v, rectangles[m].x0, rectangles[m].x1)
  {
    forall m | |before| <= m < |rectangles|
      ensures rectangles[m].kind == NonWear && OneAt(v, rectangles[m].x0)
      ensures OnesBetween(v, rectangles[m].x0, rectangles[m].x1)
    {
      assert rectangles[m] == rs[m - |before|];
    }
  }

  lemma RectanglesAfterCoverOnes(v: seq<int>, before: seq<Rectangle>, rs: seq<Rectangle>, rectangles: seq<Rectangle>)
    requires rectangles == before + rs
    requires forall k :: 0 <= k < |v| - 1 && v[k] == 1 ==> exists m :: 0 <= m < |rs| && rs[m].x0 <= k < rs[m].x1
    ensures forall k :: 0 <= k < |v| - 1 && v[k] == 1 ==>
      exists m :: |before| <= m < |rectangles| && rectangles[m].x0 <= k < rectangles[m].x1
  {
    forall k | 0 <= k < |v| - 1 && v[k] == 1
      ensures exists m :: |before| <= m < |rectangles| && rectangles[m].x0 <= k < rectangles[m].x1
    {
      var m :| 0 <= m < |rs| && rs[m].x0 <= k < rs[m].x1;
      assert rectangles[|before| + m] == rs[m];
    }
  }

  /**
   * `update_switches`: the truthiness of the nap, missing-sleep and
   * reviewed-night vectors at `day` (negative days count from the end); a day
   * outside any of them raises IndexError.
   */
  function UpdateSwitches(day: int, naps: seq<int>, missing: seq<int>, nights: seq<int>): (r: Result<(bool, bool, bool)>)
    ensures r.Err? <==> PyIndex(|naps|, day).None? || PyIndex(|missing|, day).None? || PyIndex(|nights|, day).None?
    ensures r.Err? ==> r.error == IndexError
    ensures r.Ok? ==> r.value == (naps[PyIndex(|naps|, day).value] != 0,
                                  missing[PyIndex(|missing|, day).value] != 0,
                                  nights[PyIndex(|nights|, day).value] != 0)
  {
    match (PyIndex(|naps|, day), PyIndex(|missing|, day), PyIndex(|nights|, day))
    case (Some(a), Some(b), Some(c)) => Ok((naps[a] != 0, missing[b] != 0, nights[c] != 0))
    case _ => Err(IndexError)
  }

  /** The stored value of a switch position. */
  function SwitchValue(on: bool): int {
    if on then 1 else 0
  }

  /**
   * `vector[index] = new_value` on a list of integers: the entry at the
   * position `index` names is replaced and every other entry kept; an index
   * outside the list raises IndexError.
   */
  function Toggled(v: seq<int>, newValue: int, index: int): (r: Result<seq<int>>)
    ensures r.Err? <==> PyIndex(|v|, index).None?
    ensures r.Err? ==> r.error == IndexError
    ensures r.Ok? ==>
      && |r.value| == |v|
      && r.value[PyIndex(|v|, index).value] == newValue
      && forall i :: 0 <= i < |v| && i != PyIndex(|v|, index).value ==> r.value[i] == v[i]
  {
    match PyIndex(|v|, index)
    case None => Err(IndexError)
    case Some(k) => Ok(v[k := newValue])
  }

  /**
   * `_toggle_vector_value`, with the vector read from and written back to its
   * file held in an array: only the entry at `index` changes.
   */
  method ToggleVectorValue(vector: array<int>, newValue: int, index: int) returns (r: Result<()>)
    modifies vector
    ensures r.Err? <==> PyIndex(vector.Length, index).None?
    ensures r.Err? ==> r.error == IndexError && vector[..] == old(vector[..])
    ensures r.Ok? ==> vector[..] == Toggled(old(vector[..]), newValue, index).value
  {
    var k := PyIndex(vector.Length, index);
    if k.None? {
      return Err(IndexError);
    }
    vector[k.value] := newValue;
    return Ok(());
  }

  /**
   * Toggling a switch for a day and then reading the switches back for that
   * day shows the new position of that switch and leaves the other two as
   * they were.
   */
  lemma ToggleThenUpdateSwitches(day: int, naps: seq<int>, missing: seq<int>, nights: seq<int>, on: bool)
    requires UpdateSwitches(day, naps, missing, nights).Ok?
    ensures var s := UpdateSwitches(day, naps, missing, nights).value;
      && UpdateSwitches(day, Toggled(naps, SwitchValue(on), day).value, missing, nights) == Ok((on, s.1, s.2))
      && UpdateSwitches(day, naps, Toggled(missing, SwitchValue(on), day).value, nights) == Ok((s.0, on, s.2))
      && UpdateSwitches(day, naps, missing, Toggled(nights, SwitchValue(on), day).value) == Ok((s.0, s.1, on))
  {
  }
}
