/**
 * The graph of one night: the 36-hour window stitched from the second half of
 * day `d` and all of day `d + 1`, the rectangles drawn over it (the sleep window
 * chosen on the range slider and the runs of non-wear), the labels of the range
 * slider, and the conversions between the slider and the stored sleep window.
 */
module GraphComponent {
  import opened Wrappers
  import opened Text
  import opened PyOps
  import opened DateTimes
  import opened CoreUtils
  import opened DbModels
  import Runs

  /** The range slider runs over 36 hours, in minutes from noon of the day. */
  const SliderMin: int := 0
  const SliderMax: int := 36 * 60

  /** The label of the slider mark at `hour` hours after noon: the clock hour, `HH:00`. */
  function MarkLabel(hour: int): (s: string)
    requires hour >= 0
    ensures |s| == 5 && s[2] == ':' && s[3] == '0' && s[4] == '0'
    ensures AllDigits(s[..2]) && DigitsValue(s[..2]) == (hour + 12) % 24
  {
    var h := Format02((hour + 12) % 24);
    assert (h + ":00")[..2] == h;
    h + ":00"
  }

  /** `{hour * 60: label for hour in range(0, 37, 2)}`: the marks of the range slider, one every two hours. */
  function SliderMarks(): (m: map<int, string>)
  {
    map k | SliderMin <= k <= SliderMax && k % 120 == 0 :: MarkLabel(k / 60)
  }

  /** Every two hours of the slider has a mark, each reading as the clock hour twelve hours later, and there are no others. */
  lemma SliderMarksLabels()
    ensures forall hour :: 0 <= hour <= 36 && hour % 2 == 0 ==> hour * 60 in SliderMarks()
    ensures forall k :: k in SliderMarks() ==>
      && SliderMin <= k <= SliderMax && k % 120 == 0
      && var s := SliderMarks()[k];
         |s| == 5 && s[2..] == ":00" && DigitsValue(s[..2]) == (k / 60 + 12) % 24
  {
    var m := SliderMarks();
    forall hour | 0 <= hour <= 36 && hour % 2 == 0 ensures hour * 60 in m {
      assert (hour * 60) % 120 == 0;
    }
    forall k | k in m ensures m[k][2..] == ":00" {
      assert m[k] == MarkLabel(k / 60);
    }
  }

  /** The slider starts at noon of the day, passes midnight at 12 hours and ends at midnight after the next day's noon. */
  lemma SliderMarksExamples()
    ensures SliderMarks()[0] == "12:00" && SliderMarks()[720] == "00:00" && SliderMarks()[2160] == "00:00"
  {
    SliderMarkAt(0);
    SliderMarkAt(12);
    SliderMarkAt(36);
    MarkLabelText(0);
    MarkLabelText(12);
    MarkLabelText(36);
  }

  /** The mark at `hour` hours after noon. */
  lemma SliderMarkAt(hour: int)
    requires 0 <= hour <= 36 && hour % 2 == 0
    ensures hour * 60 in SliderMarks() && SliderMarks()[hour * 60] == MarkLabel(hour)
  {
    assert (hour * 60) % 120 == 0 && hour * 60 / 60 == hour;
  }

  /** The label at `hour` spelled out digit by digit. */
  lemma MarkLabelText(hour: int)
    requires hour >= 0
    ensures var c := (hour + 12) % 24;
      MarkLabel(hour) == [DigitChar(c / 10), DigitChar(c % 10), ':', '0', '0']
  {
    TwoDigits((hour + 12) % 24);
  }

  /** `day1[n // 2:] + day2`: the second half of one day followed by the next day. */
  function Stitch<T>(day1: seq<T>, day2: seq<T>, n: int): (r: seq<T>)
    ensures 0 <= n && n / 2 <= |day1| ==>
      && |r| == |day1| - n / 2 + |day2|
      && (forall i :: 0 <= i < |day1| - n / 2 ==> r[i] == day1[n / 2 + i])
      && (forall j :: 0 <= j < |day2| ==> r[|day1| - n / 2 + j] == day2[j])
  {
    Slice(day1, FloorDiv(n, 2), None) + day2
  }

  /** The date of each point of the window: `n // 2` times `date`, then `n` times the next date. */
  function DayTimestamps(date: int, n: int): (r: seq<int>)
    requires n >= 0
    ensures |r| == n / 2 + n
    ensures forall i :: 0 <= i < |r| ==> r[i] == if i < n / 2 then date else date + 1
  {
    Repeat(date, n / 2) + Repeat(date + 1, n)
  }

  /**
   * Two full days stitch to a window with one date per point when `n` is even
   * (for an odd `n` the window is one point longer than its dates).
   */
  lemma StitchMatchesTimestamps<T>(day1: seq<T>, day2: seq<T>, n: int, date: int)
    requires n >= 0 && n % 2 == 0 && |day1| == n && |day2| == n
    ensures |Stitch(day1, day2, n)| == |DayTimestamps(date, n)|
    ensures forall i :: n - n / 2 <= i < |Stitch(day1, day2, n)| ==> DayTimestamps(date, n)[i] == date + 1
  {
  }

  /** What `_get_day_data` returns: the day's three series, or a flat day when there is none. */
  datatype DayData = DayData(sensorAngles: seq<real>, armMovement: seq<real>, nonWear: seq<int>)

  /**
   * `_get_day_data`: the loaded data of day `dayIndex` when the subject has that
   * many days, else `n` angles of 0, `n` movements of -210 and `n` non-wear 0s.
   */
  function GetDayData(dayIndex: int, dayCount: nat, n: int, loaded: DayData): (r: DayData)
    ensures dayIndex < dayCount ==> r == loaded
    ensures dayIndex >= dayCount ==>
      && |r.sensorAngles| == |r.armMovement| == |r.nonWear| == (if n < 0 then 0 else n)
      && (forall i :: 0 <= i < |r.nonWear| ==> r.sensorAngles[i] == 0.0 && r.armMovement[i] == -210.0 && r.nonWear[i] == 0)
  {
    if dayIndex < dayCount then loaded
    else DayData(Repeat(0.0, n), Repeat(-210.0, n), Repeat(0, n))
  }

  /** A missing day shows no non-wear. */
  lemma MissingDayHasNoNonwear(dayIndex: int, dayCount: nat, n: int, loaded: DayData)
    requires dayIndex >= dayCount && n > 0
    ensures Runs.RunBoundaries(GetDayData(dayIndex, dayCount, n, loaded).nonWear, n - 1) == []
  {
    Runs.ZerosHaveNoRuns(GetDayData(dayIndex, dayCount, n, loaded).nonWear);
  }

  /**
   * `_get_nonwear_changes`: the indices where the value changes, with 0 inserted
   * in front when the vector starts truthy and the last index appended when
   * their number is odd; an empty vector raises IndexError at `nonwear[0]`.
   */
  method GetNonwearChanges(nonwear: seq<int>) returns (r: Result<seq<int>>)
    ensures r.Err? <==> |nonwear| == 0
    ensures r.Err? ==> r.error == IndexError
    ensures r.Ok? ==> r.value == Runs.RunBoundaries(nonwear, |nonwear| - 1)
  {
    if |nonwear| == 0 {
      return Err(IndexError);
    }
    var changes := Runs.ChangeIndices(nonwear, |nonwear|);
    if nonwear[0] != 0 {
      changes := [0] + changes;
    }
    assert changes == Runs.Opening(nonwear) + Runs.ChangeIndices(nonwear, |nonwear|);
    if |changes| % 2 != 0 {
      changes := changes + [|nonwear| - 1];
    }
    return Ok(changes);
  }

  datatype Kind = SleepWindow | NonWear

  /** A rectangle drawn over the points `x0..x1` of the graph. */
  datatype Rectangle = Rectangle(x0: int, x1: int, kind: Kind)

  /** The sleep-window rectangle over the two graph points, drawn only when they differ. */
  function SleepRectangle(points: seq<int>): (r: seq<Rectangle>)
    requires |points| >= 2
    ensures |r| == (if points[0] != points[1] then 1 else 0)
    ensures |r| == 1 ==> r[0] == Rectangle(points[0], points[1], SleepWindow)
  {
    if points[0] != points[1] then [Rectangle(points[0], points[1], SleepWindow)] else []
  }

  /** One non-wear rectangle per consecutive pair of change indices. */
  function NonwearRectangles(changes: seq<int>): (r: seq<Rectangle>)
    ensures |r| == |changes| / 2
    ensures forall m :: 0 <= m < |r| ==> r[m] == Rectangle(changes[2 * m], changes[2 * m + 1], NonWear)
    decreases |changes|
  {
    if |changes| < 2 then [] else [Rectangle(changes[0], changes[1], NonWear)] + NonwearRectangles(changes[2..])
  }

  /**
   * The rectangle selection of `_build_figure`: the sleep window from the first
   * two slider values, then the non-wear pairs.  Fewer than two slider values or
   * an odd number of changes raise IndexError.
   */
  method BuildRectangles(dragValue: seq<int>, n: int, changes: seq<int>) returns (r: Result<seq<Rectangle>>)
    ensures r.Err? <==> |dragValue| < 2 || |changes| % 2 != 0
    ensures r.Err? ==> r.error == IndexError
    ensures r.Ok? ==> r.value == SleepRectangle(SliderValuesToGraphValues(dragValue, n)) + NonwearRectangles(changes)
  {
    var points := SliderValuesToGraphValues(dragValue, n);
    if |points| < 2 {
      return Err(IndexError);
    }
    var rectangles := SleepRectangle(points);
    var index := 0;
    while index < |changes|
      invariant 0 <= index <= |changes| && index % 2 == 0
      invariant rectangles == SleepRectangle(points) + NonwearRectangles(changes[..index])
    {
      if index + 1 >= |changes| {
        return Err(IndexError);
      }
      NonwearRectanglesAppend(changes, index);
      var pair := [Rectangle(changes[index], changes[index + 1], NonWear)];
      AppendAssoc(SleepRectangle(points), NonwearRectangles(changes[..index]), pair);
      rectangles := rectangles + pair;
      index := index + 2;
    }
    assert changes[..index] == changes;
    return Ok(rectangles);
  }

  lemma NonwearRectanglesAppend(changes: seq<int>, index: int)
    requires 0 <= index && index + 1 < |changes| && index % 2 == 0
    ensures NonwearRectangles(changes[..index + 2])
         == NonwearRectangles(changes[..index]) + [Rectangle(changes[index], changes[index + 1], NonWear)]
  {
    var a, b := NonwearRectangles(changes[..index + 2]), NonwearRectangles(changes[..index]) + [Rectangle(changes[index], changes[index + 1], NonWear)];
    assert |a| == |b|;
    forall m | 0 <= m < |a| ensures a[m] == b[m] {
    }
  }

  /**
   * Over a 0/1 non-wear vector, every non-wear rectangle starts on a 1 and covers
   * only 1s, and every 1 before the last point lies in one of them.
   */
  lemma NonwearRectanglesCoverRuns(v: seq<int>, rs: seq<Rectangle>)
    requires |v| > 0 && Runs.Binary(v)
    requires rs == NonwearRectangles(Runs.RunBoundaries(v, |v| - 1))
    ensures forall m :: 0 <= m < |rs| ==> v[rs[m].x0] == 1
    ensures forall m, k :: 0 <= m < |rs| && rs[m].x0 <= k < rs[m].x1 ==> v[k] == 1
    ensures forall k :: 0 <= k < |v| - 1 && v[k] == 1 ==> exists m :: 0 <= m < |rs| && rs[m].x0 <= k < rs[m].x1
  {
    RectanglesStartOnOnes(v, rs);
    RectanglesCoverOnlyOnes(v, rs);
    OnesLieInRectangles(v, rs);
  }

  lemma RectanglesStartOnOnes(v: seq<int>, rs: seq<Rectangle>)
    requires |v| > 0 && Runs.Binary(v)
    requires rs == NonwearRectangles(Runs.RunBoundaries(v, |v| - 1))
    ensures forall m :: 0 <= m < |rs| ==> v[rs[m].x0] == 1
  {
    Runs.RunStartsAreOnes(v);
  }

  lemma RectanglesCoverOnlyOnes(v: seq<int>, rs: seq<Rectangle>)
    requires |v| > 0 && Runs.Binary(v)
    requires rs == NonwearRectangles(Runs.RunBoundaries(v, |v| - 1))
    ensures forall m, k :: 0 <= m < |rs| && rs[m].x0 <= k < rs[m].x1 ==> v[k] == 1
  {
    var r := Runs.RunBoundaries(v, |v| - 1);
    Runs.RunsAreOnes(v);
    forall m, k | 0 <= m < |rs| && rs[m].x0 <= k < rs[m].x1 ensures v[k] == 1 {
      assert r[2 * m] <= k < r[2 * m + 1];
    }
  }

  lemma OnesLieInRectangles(v: seq<int>, rs: seq<Rectangle>)
    requires |v| > 0 && Runs.Binary(v)
    requires rs == NonwearRectangles(Runs.RunBoundaries(v, |v| - 1))
    ensures forall k :: 0 <= k < |v| - 1 && v[k] == 1 ==> exists m :: 0 <= m < |rs| && rs[m].x0 <= k < rs[m].x1
  {
    var r := Runs.RunBoundaries(v, |v| - 1);
    Runs.OnesAreInRuns(v);
    forall k | 0 <= k < |v| - 1 && v[k] == 1 ensures exists m :: 0 <= m < |rs| && rs[m].x0 <= k < rs[m].x1 {
      var m :| 0 <= m < |r| / 2 && r[2 * m] <= k < r[2 * m + 1];
      assert rs[m].x0 <= k < rs[m].x1;
    }
  }

  /** With at least one point per minute, distinct slider values give a sleep rectangle and equal ones none. */
  lemma SleepRectangleDrawn(a: int, b: int, n: int)
    requires 0 <= a && 0 <= b && n >= 1440
    ensures |SleepRectangle(SliderValuesToGraphValues([a, b], n))| == (if a != b then 1 else 0)
  {
    var p := SliderValuesToGraphValues([a, b], n);
    assert [a, b][0] == a && [a, b][1] == b;
    ProductNonNegative(a, n);
    ProductNonNegative(b, n);
    if a < b {
      ScaledApart(a, b, n);
    } else if b < a {
      ScaledApart(b, a, n);
    }
  }

  lemma ProductNonNegative(a: int, n: int)
    requires 0 <= a && 0 <= n
    ensures 0 <= a * n
  {
  }

  /** Scaling by at least 1440 keeps distinct values at least 1440 apart. */
  lemma ScaledApart(a: int, b: int, n: int)
    requires a < b && n >= 1440
    ensures a * n + 1440 <= b * n
  {
    var d := b - a - 1;
    ProductNonNegative(d, n);
    assert b * n == a * n + n + d * n;
  }

  /**
   * `refresh_range_slider` (components): the slider points of the day's first
   * sleep window, its onset and wakeup as shown at the onset's offset, in whole
   * minutes from noon of the day.  A day without sleep windows raises IndexError.
   */
  function RefreshRangeSlider(day: Day): (r: Result<seq<int>>)
    ensures r.Err? <==> |day.sleepTimes| == 0
    ensures r.Ok? ==> var st, noon := day.sleepTimes[0], day.date * SecondsPerDay + Noon;
      && |r.value| == 2
      && noon + r.value[0] * 60 <= st.onset.local + st.onsetUtcOffset < noon + r.value[0] * 60 + 60
      && noon + r.value[1] * 60 <= st.wakeup.local + st.onsetUtcOffset < noon + r.value[1] * 60 + 60
  {
    if |day.sleepTimes| == 0 then Err(IndexError)
    else
      var st := day.sleepTimes[0];
      Ok([Time2Point(OnsetWithTz(st), day.date, true).value, Time2Point(WakeupWithTz(st), day.date, true).value])
  }

  /** The outcome of `adjust_range_slider`: the day with its new sleep window, and the duration text. */
  datatype Adjusted = Adjusted(day: Day, duration: string)

  /**
   * `adjust_range_slider` (components): the slider points become naive times
   * after noon of the day with `point2time`, given the stored offsets as its
   * `timezone` argument; they are stored converted to UTC (read as host-local
   * time, the host's offset being `hostOffset`), and the duration between them
   * is formatted `HH:MM`.  The errors come in the order the source meets them:
   * IndexError for a missing first point or sleep window, TypeError for a
   * non-zero onset offset, IndexError for a missing second point, TypeError
   * for a non-zero wakeup offset.  Writing the sleep log file and the onset and offset
   * texts are not modelled.
   */
  function AdjustRangeSlider(dragValue: seq<int>, day: Day, hostOffset: int): (r: Result<Adjusted>)
    ensures r.Err? <==> (|dragValue| < 2 || |day.sleepTimes| == 0
                         || day.sleepTimes[0].onsetUtcOffset != 0 || day.sleepTimes[0].wakeupUtcOffset != 0)
    ensures |dragValue| == 0 || |day.sleepTimes| == 0 ==> r == Err(IndexError)
    ensures 1 <= |dragValue| && 0 < |day.sleepTimes| && day.sleepTimes[0].onsetUtcOffset != 0 ==> r == Err(TypeError)
    ensures |dragValue| == 1 && 0 < |day.sleepTimes| && day.sleepTimes[0].onsetUtcOffset == 0 ==> r == Err(IndexError)
    ensures (2 <= |dragValue| && 0 < |day.sleepTimes| && day.sleepTimes[0].onsetUtcOffset == 0
             && day.sleepTimes[0].wakeupUtcOffset != 0) ==> r == Err(TypeError)
    ensures r.Ok? ==> var st, noon := day.sleepTimes[0], day.date * SecondsPerDay + Noon;
      && r.value.day == day.(sleepTimes := day.sleepTimes[0 := st.(onset := DateTime(noon + dragValue[0] * 60 - hostOffset, None),
                                                                   wakeup := DateTime(noon + dragValue[1] * 60 - hostOffset, None))])
      && r.value.duration == DeltaAsHhMm((dragValue[1] - dragValue[0]) * 60)
  {
    if |dragValue| < 1 || |day.sleepTimes| == 0 then Err(IndexError)
    else
      var st := day.sleepTimes[0];
      var sleep := Point2Time(Some(dragValue[0]), day.date, IntOffset(st.onsetUtcOffset), hostOffset);
      if sleep.Err? then Err(sleep.error)
      else if |dragValue| < 2 then Err(IndexError)
      else
        var wake := Point2Time(Some(dragValue[1]), day.date, IntOffset(st.wakeupUtcOffset), hostOffset);
        if wake.Err? then Err(wake.error)
        else
          StoredPoint(dragValue[0], day.date, IntOffset(st.onsetUtcOffset), hostOffset);
          StoredPoint(dragValue[1], day.date, IntOffset(st.wakeupUtcOffset), hostOffset);
          PointsApart(dragValue[0], dragValue[1], day.date, IntOffset(st.onsetUtcOffset), IntOffset(st.wakeupUtcOffset), hostOffset);
          var st' := st.(onset := DbModels.Stored(AsTimezone(sleep.value, 0, hostOffset)),
                         wakeup := DbModels.Stored(AsTimezone(wake.value, 0, hostOffset)));
          Ok(Adjusted(day.(sleepTimes := day.sleepTimes[0 := st']), DeltaAsHhMm(Sub(wake.value, sleep.value).value)))
  }

  /** A slider point as `point2time` gives it, stored in UTC: minutes after noon, shifted by the host's offset. */
  lemma StoredPoint(point: int, date: int, tz: TzArg, hostOffset: int)
    requires !(tz.IntOffset? && tz.seconds != 0)
    ensures Point2Time(Some(point), date, tz, hostOffset).Ok?
    ensures var t := Point2Time(Some(point), date, tz, hostOffset).value;
      DbModels.Stored(AsTimezone(t, 0, hostOffset)) == DateTime(date * SecondsPerDay + Noon + point * 60 - hostOffset, None)
  {
    Point2TimeIsMinutesAfterNoon(point, date, hostOffset);
    Point2TimeZeroInt(Some(point), date, hostOffset);
  }

  /** Two slider points converted alike lie their difference in minutes apart. */
  lemma PointsApart(p0: int, p1: int, date: int, tz0: TzArg, tz1: TzArg, hostOffset: int)
    requires !(tz0.IntOffset? && tz0.seconds != 0) && !(tz1.IntOffset? && tz1.seconds != 0) && tz0.Zone? == tz1.Zone?
    ensures Point2Time(Some(p0), date, tz0, hostOffset).Ok? && Point2Time(Some(p1), date, tz1, hostOffset).Ok?
    ensures Sub(Point2Time(Some(p1), date, tz1, hostOffset).value, Point2Time(Some(p0), date, tz0, hostOffset).value)
         == Ok((p1 - p0) * 60)
  {
    Point2TimeIsMinutesAfterNoon(p0, date, hostOffset);
    Point2TimeIsMinutesAfterNoon(p1, date, hostOffset);
    Point2TimeZeroInt(Some(p0), date, hostOffset);
    Point2TimeZeroInt(Some(p1), date, hostOffset);
  }

  /** A subject away from UTC cannot move its sleep window: the stored offset, an `int`, makes `point2time` raise TypeError. */
  lemma AdjustRangeSliderRejectsOffsets(dragValue: seq<int>, day: Day, hostOffset: int)
    requires |dragValue| >= 2 && |day.sleepTimes| > 0 && day.sleepTimes[0].onsetUtcOffset == 3600
    ensures AdjustRangeSlider(dragValue, day, hostOffset) == Err(TypeError)
  {
  }

  /** Moving the window and reading it back gives the slider points shifted by the host's UTC offset, in minutes. */
  lemma AdjustThenRefresh(dragValue: seq<int>, day: Day, hostOffset: int)
    requires AdjustRangeSlider(dragValue, day, hostOffset).Ok? && hostOffset % 60 == 0
    ensures RefreshRangeSlider(AdjustRangeSlider(dragValue, day, hostOffset).value.day)
         == Ok([dragValue[0] - hostOffset / 60, dragValue[1] - hostOffset / 60])
  {
    var moved := AdjustRangeSlider(dragValue, day, hostOffset).value.day;
    var r := RefreshRangeSlider(moved);
    assert moved.sleepTimes[0].onsetUtcOffset == 0;
    assert hostOffset == hostOffset / 60 * 60;
    assert r.value[0] == dragValue[0] - hostOffset / 60;
    assert r.value[1] == dragValue[1] - hostOffset / 60;
  }

  /** The duration text reads back as the minutes between the two slider points. */
  lemma AdjustDuration(dragValue: seq<int>, day: Day, hostOffset: int)
    requires AdjustRangeSlider(dragValue, day, hostOffset).Ok? && dragValue[0] <= dragValue[1]
    ensures var hm := ReadHhMm(AdjustRangeSlider(dragValue, day, hostOffset).value.duration);
      hm.Some? && hm.value.0 * 60 + hm.value.1 == dragValue[1] - dragValue[0] && hm.value.1 < 60
  {
    ReadHhMmOfDeltaAsHhMm((dragValue[1] - dragValue[0]) * 60);
  }

  /**
   * `adjust_range_slider` with the stored offsets passed as fixed-offset
   * `tzinfo`s, as `point2time` expects: the times are shown at those offsets
   * and stored as the same UTC instants.
   */
  function AdjustRangeSliderIntended(dragValue: seq<int>, day: Day, hostOffset: int): (r: Result<Adjusted>)
    ensures r.Err? <==> (|dragValue| < 2 || |day.sleepTimes| == 0)
    ensures r.Ok? ==> var st, noon := day.sleepTimes[0], day.date * SecondsPerDay + Noon;
      && r.value.day == day.(sleepTimes := day.sleepTimes[0 := st.(onset := DateTime(noon + dragValue[0] * 60 - hostOffset, None),
                                                                   wakeup := DateTime(noon + dragValue[1] * 60 - hostOffset, None))])
      && r.value.duration == DeltaAsHhMm((dragValue[1] - dragValue[0]) * 60)
  {
    if |dragValue| < 2 || |day.sleepTimes| == 0 then Err(IndexError)
    else
      var st := day.sleepTimes[0];
      var sleep := Point2Time(Some(dragValue[0]), day.date, Zone(st.onsetUtcOffset), hostOffset).value;
      var wake := Point2Time(Some(dragValue[1]), day.date, Zone(st.wakeupUtcOffset), hostOffset).value;
      StoredPoint(dragValue[0], day.date, Zone(st.onsetUtcOffset), hostOffset);
      StoredPoint(dragValue[1], day.date, Zone(st.wakeupUtcOffset), hostOffset);
      PointsApart(dragValue[0], dragValue[1], day.date, Zone(st.onsetUtcOffset), Zone(st.wakeupUtcOffset), hostOffset);
      var st' := st.(onset := DbModels.Stored(AsTimezone(sleep, 0, hostOffset)),
                     wakeup := DbModels.Stored(AsTimezone(wake, 0, hostOffset)));
      Ok(Adjusted(day.(sleepTimes := day.sleepTimes[0 := st']), DeltaAsHhMm(Sub(wake, sleep).value)))
  }

  /** On a host in the subject's time zone, moving the window and reading it back gives the slider points. */
  lemma AdjustIntendedThenRefresh(dragValue: seq<int>, day: Day, hostOffset: int)
    requires |dragValue| >= 2 && |day.sleepTimes| > 0 && hostOffset == day.sleepTimes[0].onsetUtcOffset
    ensures AdjustRangeSliderIntended(dragValue, day, hostOffset).Ok?
    ensures RefreshRangeSlider(AdjustRangeSliderIntended(dragValue, day, hostOffset).value.day)
         == Ok([dragValue[0], dragValue[1]])
  {
    var moved := AdjustRangeSliderIntended(dragValue, day, hostOffset).value.day;
    var st, noon := moved.sleepTimes[0], day.date * SecondsPerDay + Noon;
    assert st.onset.local + st.onsetUtcOffset == noon + dragValue[0] * 60;
    assert st.wakeup.local + st.onsetUtcOffset == noon + dragValue[1] * 60;
    var r := RefreshRangeSlider(moved);
    assert r.value[0] == dragValue[0];
    assert r.value[1] == dragValue[1];
  }
}
