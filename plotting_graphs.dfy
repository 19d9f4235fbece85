/**
 * The older, noon-anchored day segmentation: a day runs from one 12:00:00
 * timestamp to the next, every day becomes one row of three 2-D arrays
 * (acceleration, angle, non-wear) of width `n_points_per_day`, and 25- and
 * 23-hour days are corrected by one hour of points.
 */
module PlottingGraphs {
  import opened Wrappers
  import opened PyOps
  import opened DateTimes
  import opened DataImport

  /** The wall-clock time is exactly 12:00:00. */
  predicate IsNoon(t: DateTime) {
    Hour(t) == 12 && Minute(t) == 0 && Second(t) == 0
  }

  /**
   * `index + 1` for every index below `hi` whose timestamp is at noon, leaving
   * out the last timestamp of the series.
   */
  function NoonBoundaries(ts: seq<DateTime>, hi: nat): (r: seq<int>)
    requires hi <= |ts|
    ensures forall j :: 0 <= j < |r| ==> 1 <= r[j] <= hi && r[j] < |ts| && IsNoon(ts[r[j] - 1])
    ensures forall j, k :: 0 <= j < k < |r| ==> r[j] < r[k]
  {
    if hi == 0 then []
    else NoonBoundaries(ts, hi - 1) + (if IsNoon(ts[hi - 1]) && hi - 1 != |ts| - 1 then [hi] else [])
  }

  /** `get_midnights`: the index after each noon timestamp but the last one. */
  function GetMidnights(ts: seq<DateTime>): (r: seq<int>)
  {
    NoonBoundaries(ts, |ts|)
  }

  /** Every noon timestamp below `hi` that is not the last of the series is listed. */
  lemma {:induction false} NoonBoundariesComplete(ts: seq<DateTime>, hi: nat, i: nat)
    requires hi <= |ts| && i < hi && i != |ts| - 1 && IsNoon(ts[i])
    ensures i + 1 in NoonBoundaries(ts, hi)
    decreases hi
  {
    if i < hi - 1 {
      NoonBoundariesComplete(ts, hi - 1, i);
    } else {
      assert NoonBoundaries(ts, hi) == NoonBoundaries(ts, hi - 1) + [hi];
    }
  }

  /** No more boundaries than indices below `hi`. */
  lemma {:induction false} NoonBoundariesCount(ts: seq<DateTime>, hi: nat)
    requires hi <= |ts|
    ensures |NoonBoundaries(ts, hi)| <= hi
    decreases hi
  {
    if hi > 0 {
      NoonBoundariesCount(ts, hi - 1);
    }
  }

  /** `get_daycount`: one day more than there are boundaries. */
  function GetDaycount(ts: seq<DateTime>): (c: int)
    ensures c == |GetMidnights(ts)| + 1
  {
    |GetMidnights(ts)| + 1
  }

  /**
   * The boundaries are exactly the successors of the noon timestamps other than
   * the last one, so a series of `k` timestamps has at most `k` days (one when
   * it is empty).
   */
  lemma DaycountBounds(ts: seq<DateTime>)
    ensures forall i :: 0 <= i < |ts| - 1 ==> (i + 1 in GetMidnights(ts) <==> IsNoon(ts[i]))
    ensures 1 <= GetDaycount(ts) <= (if |ts| == 0 then 1 else |ts|)
  {
    forall i | 0 <= i < |ts| - 1 && IsNoon(ts[i]) ensures i + 1 in GetMidnights(ts) {
      NoonBoundariesComplete(ts, |ts|, i);
    }
    if |ts| > 0 {
      NoonBoundariesCount(ts, |ts| - 1);
      assert GetMidnights(ts) == NoonBoundaries(ts, |ts| - 1);
    }
  }

  /** `get_dates`: the distinct dates in ascending order, without the first (a partial day). */
  function GetGraphDates(ts: seq<DateTime>): (r: seq<int>)
    ensures Increasing(r)
  {
    var all := GetDates(ts);
    if |all| == 0 then [] else all[1..]
  }

  /** Some timestamp of the series falls on date `d`. */
  ghost predicate HasDate(ts: seq<DateTime>, d: int) {
    exists i :: 0 <= i < |ts| && Date(ts[i]) == d
  }

  /** Some timestamp of the series falls on a date before `d`. */
  ghost predicate HasEarlierDate(ts: seq<DateTime>, d: int) {
    exists i :: 0 <= i < |ts| && Date(ts[i]) < d
  }

  /** The first of the ascending dates is the earliest date of the series. */
  lemma FirstDateIsEarliest(ts: seq<DateTime>, i: int)
    requires 0 <= i < |ts|
    ensures |GetDates(ts)| > 0 && GetDates(ts)[0] <= Date(ts[i])
  {
    var all := GetDates(ts);
    assert Date(ts[i]) in all;
    var k :| 0 <= k < |all| && all[k] == Date(ts[i]);
    assert k == 0 || all[0] < all[k];
  }

  /** The dates kept are the dates of the series later than its earliest date. */
  lemma GraphDatesDropEarliest(ts: seq<DateTime>, d: int)
    ensures d in GetGraphDates(ts) <==> HasDate(ts, d) && HasEarlierDate(ts, d)
  {
    var all := GetDates(ts);
    assert d in all <==> HasDate(ts, d);
    if d in GetGraphDates(ts) {
      var k :| 1 <= k < |all| && all[k] == d;
      assert all[0] in all;
      var i :| 0 <= i < |ts| && Date(ts[i]) == all[0];
      assert Date(ts[i]) < d;
    }
    if HasDate(ts, d) && HasEarlierDate(ts, d) {
      var i :| 0 <= i < |ts| && Date(ts[i]) < d;
      FirstDateIsEarliest(ts, i);
      var k :| 0 <= k < |all| && all[k] == d;
      assert k != 0;
      assert all[1..][k - 1] == d;
    }
  }

  /**
   * Day `k` of `n_plots = |midnights| + 1`: `[0, m0)` for the first,
   * `[m(k-1), m(k))` in between, and `[m_last, total)` for the last.
   */
  function DayRange(midnights: seq<int>, k: nat, total: int): (r: (int, int))
    requires 0 < |midnights| && k <= |midnights|
    ensures k == 0 ==> r.0 == 0
    ensures k > 0 ==> r.0 == midnights[k - 1]
    ensures r.1 == if k < |midnights| then midnights[k] else total
  {
    if k == 0 then (0, midnights[0])
    else if k < |midnights| then (midnights[k - 1], midnights[k])
    else (midnights[k - 1], total)
  }

  /** Each day ends where the next one starts, and the days cover `[0, total)`. */
  lemma DayRangesTile(midnights: seq<int>, total: int, k: nat)
    requires 0 < |midnights| && k < |midnights|
    ensures DayRange(midnights, k, total).1 == DayRange(midnights, k + 1, total).0
    ensures DayRange(midnights, 0, total).0 == 0 && DayRange(midnights, |midnights|, total).1 == total
  {
  }

  /**
   * The two corrections of `create_graphs`, each recomputing the hour count:
   * a 25-hour day loses its last hour of points, then a 23-hour day gains one.
   */
  function CorrectedEnd(start: int, end: int, windowSize: int): (e: int)
    requires DividesHour(windowSize)
  {
    var hour := 3600 / windowSize;
    var e1 := if Hours(start, end, windowSize) == 25 then end - hour else end;
    if Hours(start, e1, windowSize) == 23 then e1 + hour else e1
  }

  /**
   * The recomputed corrections agree with the single-count rule of
   * `data_import`: at most one of them fires.
   */
  lemma CorrectedEndIsAdjustedEnd(start: int, end: int, windowSize: int)
    requires DividesHour(windowSize)
    ensures CorrectedEnd(start, end, windowSize) == AdjustedEnd(start, end, windowSize)
  {
    var hour := 3600 / windowSize;
    assert hour > 0;
    if Hours(start, end, windowSize) == 25 {
      FloorDivStep(end - start + 1, hour);
      assert Hours(start, end - hour, windowSize) == 24;
    }
  }

  /** `xs[range(start, end)]` for indices already known to exist: empty when `end <= start`. */
  function Picked<T>(xs: seq<T>, start: int, end: int): (r: seq<T>)
    requires start < end ==> 0 <= start && end <= |xs|
    ensures |r| == if start < end then end - start else 0
    ensures forall i :: 0 <= i < |r| ==> r[i] == xs[start + i]
  {
    if start < end then xs[start..end] else []
  }

  /**
   * One day's three series before they are stored: the scaled magnitudes, the
   * angles and the non-wear flags of `[start, end)`, padded in front on the
   * first day and at the back when the day ends at the last timestamp.  An
   * index missing from the acceleration or angle series raises KeyError.
   */
  function Row(enmo: seq<real>, anglez: seq<real>, nonwear: seq<int>, n: int, start: int, end: int, total: int)
    : (r: Result<DayGraph>)
    requires |nonwear| == |enmo|
    ensures r.Err? <==> start < end && (start < 0 || end > |enmo| || end > |anglez|)
    ensures r.Err? ==> r.error == KeyError
    ensures r.Ok? ==> |r.value.acceleration| == |r.value.angle| == |r.value.nonWear|
  {
    if start < end && (start < 0 || end > |enmo| || end > |anglez|) then Err(KeyError)
    else
      var acc := Magnitudes(Picked(enmo, start, end));
      var front, back := start == 0, start != 0 && end == total;
      Ok(DayGraph(Rescaled(Padded(acc, 0.0, |acc|, n, front, back)),
                  Padded(Picked(anglez, start, end), 0.0, |acc|, n, front, back),
                  Padded(Picked(nonwear, start, end), 0, |acc|, n, front, back)))
  }

  /**
   * The first day (`start == 0`): `n - len` padding points plotted at -210,
   * then the day's scaled magnitudes; its angles and non-wear flags carry the
   * same padding in front.
   */
  lemma RowFrontPadded(enmo: seq<real>, anglez: seq<real>, nonwear: seq<int>, n: int, end: int, total: int)
    requires |nonwear| == |enmo|
    requires Row(enmo, anglez, nonwear, n, 0, end, total).Ok?
    ensures var g := Row(enmo, anglez, nonwear, n, 0, end, total).value;
      var len := if 0 < end then end else 0;
      var pad := if len < n then n - len else 0;
      && |g.acceleration| == pad + len
      && (forall i :: 0 <= i < pad ==> g.acceleration[i] == -210.0)
      && (forall j :: pad <= j < |g.acceleration| ==> g.acceleration[j] == Plotted(enmo[j - pad]))
      && g.angle == Repeat(0.0, n - len) + Picked(anglez, 0, end)
      && g.nonWear == Repeat(0, n - len) + Picked(nonwear, 0, end)
  {
    var raw := Picked(enmo, 0, end);
    RescaledFrontPadding(Magnitudes(raw), n);
  }

  /**
   * A later day ending at the last timestamp: the day's scaled magnitudes,
   * then `n - len` padding points plotted at -210; its angles and non-wear
   * flags carry the same padding at the back.
   */
  lemma RowBackPadded(enmo: seq<real>, anglez: seq<real>, nonwear: seq<int>, n: int, start: int, total: int)
    requires |nonwear| == |enmo| && start != 0
    requires Row(enmo, anglez, nonwear, n, start, total, total).Ok?
    ensures var g := Row(enmo, anglez, nonwear, n, start, total, total).value;
      var len := if start < total then total - start else 0;
      var pad := if len < n then n - len else 0;
      && |g.acceleration| == len + pad
      && (forall i :: 0 <= i < len ==> g.acceleration[i] == Plotted(enmo[start + i]))
      && (forall i :: len <= i < |g.acceleration| ==> g.acceleration[i] == -210.0)
      && g.angle == Picked(anglez, start, total) + Repeat(0.0, n - len)
      && g.nonWear == Picked(nonwear, start, total) + Repeat(0, n - len)
  {
    var raw := Picked(enmo, start, total);
    RescaledBackPadding(Magnitudes(raw), n);
  }

  /** A day that neither starts at 0 nor ends at the last timestamp is its slice alone, unpadded. */
  lemma RowNotPadded(enmo: seq<real>, anglez: seq<real>, nonwear: seq<int>, n: int, start: int, end: int, total: int)
    requires |nonwear| == |enmo| && start != 0 && end != total
    requires Row(enmo, anglez, nonwear, n, start, end, total).Ok?
    ensures var g := Row(enmo, anglez, nonwear, n, start, end, total).value;
      var len := if start < end then end - start else 0;
      && |g.acceleration| == len
      && (forall i :: 0 <= i < len ==> g.acceleration[i] == Plotted(enmo[start + i]))
      && g.angle == Picked(anglez, start, end)
      && g.nonWear == Picked(nonwear, start, end)
  {
  }

  /**
   * Storing a day in a row of width `n`: a series of length `n` is stored as
   * it is, one of length 1 is broadcast over the row, any other length raises
   * ValueError.
   */
  function Fit(g: DayGraph, n: nat): (r: Result<DayGraph>)
    requires |g.acceleration| == |g.angle| == |g.nonWear|
    ensures r.Err? <==> |g.acceleration| != n && |g.acceleration| != 1
    ensures r.Err? ==> r.error == ValueError
    ensures r.Ok? ==> |r.value.acceleration| == |r.value.angle| == |r.value.nonWear| == n
    ensures r.Ok? && |g.acceleration| == n ==> r.value == g
  {
    if |g.acceleration| == n then Ok(g)
    else if |g.acceleration| == 1 then Ok(DayGraph(Repeat(g.acceleration[0], n), Repeat(g.angle[0], n), Repeat(g.nonWear[0], n)))
    else Err(ValueError)
  }

  /** Day `k`: its range, the corrected end, the series and the row they fill. */
  function GraphRow(ts: seq<DateTime>, enmo: seq<real>, anglez: seq<real>, nonwear: seq<int>, windowSize: int, n: nat,
                    midnights: seq<int>, k: nat): (r: Result<DayGraph>)
    requires DividesHour(windowSize) && |nonwear| == |enmo|
    requires 0 < |midnights| && k <= |midnights|
    ensures r.Ok? ==> |r.value.acceleration| == |r.value.angle| == |r.value.nonWear| == n
  {
    var range := DayRange(midnights, k, |ts|);
    var row := Row(enmo, anglez, nonwear, n, range.0, CorrectedEnd(range.0, range.1, windowSize), |ts|);
    if row.Err? then Err(row.error) else Fit(row.value, n)
  }

  /** The rows of days `0..count-1`, or the error of the first day that fails. */
  function RowsUpTo(ts: seq<DateTime>, enmo: seq<real>, anglez: seq<real>, nonwear: seq<int>, windowSize: int, n: nat,
                    midnights: seq<int>, count: nat): (r: Result<seq<DayGraph>>)
    requires DividesHour(windowSize) && |nonwear| == |enmo|
    requires 0 < |midnights| && count <= |midnights| + 1
    ensures r.Ok? ==> |r.value| == count
    ensures r.Ok? ==> forall d :: 0 <= d < count ==>
      GraphRow(ts, enmo, anglez, nonwear, windowSize, n, midnights, d) == Ok(r.value[d])
  {
    if count == 0 then Ok([])
    else
      var previous := RowsUpTo(ts, enmo, anglez, nonwear, windowSize, n, midnights, count - 1);
      var row := GraphRow(ts, enmo, anglez, nonwear, windowSize, n, midnights, count - 1);
      if previous.Err? then previous
      else if row.Err? then Err(row.error)
      else Ok(previous.value + [row.value])
  }

  /** Once a day fails, every longer prefix of days fails with the same error. */
  lemma {:induction false} RowsUpToErrPersists(ts: seq<DateTime>, enmo: seq<real>, anglez: seq<real>, nonwear: seq<int>,
                                               windowSize: int, n: nat, midnights: seq<int>, count: nat, later: nat)
    requires DividesHour(windowSize) && |nonwear| == |enmo|
    requires 0 < |midnights| && count <= later <= |midnights| + 1
    requires RowsUpTo(ts, enmo, anglez, nonwear, windowSize, n, midnights, count).Err?
    ensures RowsUpTo(ts, enmo, anglez, nonwear, windowSize, n, midnights, later)
         == RowsUpTo(ts, enmo, anglez, nonwear, windowSize, n, midnights, count)
    decreases later
  {
    if later > count {
      RowsUpToErrPersists(ts, enmo, anglez, nonwear, windowSize, n, midnights, count, later - 1);
    }
  }

  /** One more day: its row is appended, or its error ends the loop. */
  lemma RowsUpToStep(ts: seq<DateTime>, enmo: seq<real>, anglez: seq<real>, nonwear: seq<int>,
                     windowSize: int, n: nat, midnights: seq<int>, count: nat, rows: seq<DayGraph>, day: Result<DayGraph>)
    requires DividesHour(windowSize) && |nonwear| == |enmo|
    requires 0 < |midnights| && count <= |midnights|
    requires RowsUpTo(ts, enmo, anglez, nonwear, windowSize, n, midnights, count) == Ok(rows)
    requires day == GraphRow(ts, enmo, anglez, nonwear, windowSize, n, midnights, count)
    ensures day.Ok? ==> RowsUpTo(ts, enmo, anglez, nonwear, windowSize, n, midnights, count + 1) == Ok(rows + [day.value])
    ensures day.Err? ==> RowsUpTo(ts, enmo, anglez, nonwear, windowSize, n, midnights, count + 1) == Err(day.error)
  {
  }

  /**
   * `create_graphs`: the expanded non-wear vector, the points per day, the
   * boundaries (none raises ValueError) and one row per day.
   */
  function Graphs(ts: seq<DateTime>, enmo: seq<real>, anglez: seq<real>, scores: seq<real>, windowSizes: seq<int>)
    : (r: Result<seq<DayGraph>>)
    requires |windowSizes| > 0 && windowSizes[0] != 0 ==> DividesHour(windowSizes[0])
  {
    var midnights := GetMidnights(ts);
    var nonwear := NonwearVector(|enmo|, scores, windowSizes);
    var n := GetNPointsPerDay(windowSizes);
    if nonwear.Err? then Err(nonwear.error)
    else if n.Err? then Err(n.error)
    else if |midnights| == 0 then Err(ValueError)
    else
      PointsPerDayEven(windowSizes[0]);
      assert n == GetNPointsPerDay([windowSizes[0]]);
      RowsUpTo(ts, enmo, anglez, nonwear.value, windowSizes[0], n.value, midnights, |midnights| + 1)
  }

  /** The rows are one per day, each `n_points_per_day` wide. */
  lemma GraphsShape(ts: seq<DateTime>, enmo: seq<real>, anglez: seq<real>, scores: seq<real>, windowSizes: seq<int>)
    requires |windowSizes| > 0 && windowSizes[0] != 0 ==> DividesHour(windowSizes[0])
    requires Graphs(ts, enmo, anglez, scores, windowSizes).Ok?
    ensures GetNPointsPerDay(windowSizes).Ok?
    ensures var rows := Graphs(ts, enmo, anglez, scores, windowSizes).value;
      && |rows| == GetDaycount(ts)
      && forall d :: 0 <= d < |rows| ==>
           |rows[d].acceleration| == |rows[d].angle| == |rows[d].nonWear| == GetNPointsPerDay(windowSizes).value
  {
    var rows := Graphs(ts, enmo, anglez, scores, windowSizes).value;
    var midnights := GetMidnights(ts);
    var nonwear := NonwearVector(|enmo|, scores, windowSizes).value;
    var n := GetNPointsPerDay(windowSizes).value;
    assert rows == RowsUpTo(ts, enmo, anglez, nonwear, windowSizes[0], n, midnights, |midnights| + 1).value;
    forall d | 0 <= d < |rows|
      ensures |rows[d].acceleration| == |rows[d].angle| == |rows[d].nonWear| == n
    {
      assert GraphRow(ts, enmo, anglez, nonwear, windowSizes[0], n, midnights, d) == Ok(rows[d]);
    }
  }

  /** A recording with no noon timestamp before its last one has no boundaries and raises ValueError. */
  lemma NoNoonRaises(ts: seq<DateTime>, enmo: seq<real>, anglez: seq<real>, scores: seq<real>, windowSizes: seq<int>)
    requires |windowSizes| > 0 && windowSizes[0] != 0 ==> DividesHour(windowSizes[0])
    requires forall i :: 0 <= i < |ts| - 1 ==> !IsNoon(ts[i])
    requires NonwearVector(|enmo|, scores, windowSizes).Ok? && GetNPointsPerDay(windowSizes).Ok?
    ensures Graphs(ts, enmo, anglez, scores, windowSizes) == Err(ValueError)
  {
  }

  /**
   * A last day of 25 hours loses its last hour and is not padded at the back
   * (it no longer ends at the last timestamp), so it fits its row only when it
   * held exactly one hour more than a day.
   */
  lemma LongLastDayFitsOnlyExactly(ts: seq<DateTime>, enmo: seq<real>, anglez: seq<real>, nonwear: seq<int>,
                                   ws: int, n: nat, midnights: seq<int>)
    requires DividesHour(ws) && GetNPointsPerDay([ws]) == Ok(n)
    requires |nonwear| == |enmo| && 0 < |midnights|
    requires |ts| <= |enmo| && |ts| <= |anglez|
    requires 0 < midnights[|midnights| - 1] && Hours(midnights[|midnights| - 1], |ts|, ws) == 25
    ensures GraphRow(ts, enmo, anglez, nonwear, ws, n, midnights, |midnights|).Ok?
        <==> |ts| - midnights[|midnights| - 1] == n + 3600 / ws
  {
    PointsPerDayEven(ws);
    var q, last := 3600 / ws, midnights[|midnights| - 1];
    assert 25 * q <= |ts| - last + 1;
    CorrectedEndIsAdjustedEnd(last, |ts|, ws);
    assert DayRange(midnights, |midnights|, |ts|) == (last, |ts|);
    var row := Row(enmo, anglez, nonwear, n, last, |ts| - q, |ts|);
    assert row.Ok? && |row.value.acceleration| == |ts| - q - last;
  }

  /**
   * A last day of 23 hours is extended by an hour past the end of the
   * recording, so reading it raises KeyError and the graphs are not built.
   */
  lemma ShortLastDayRaises(ts: seq<DateTime>, enmo: seq<real>, anglez: seq<real>, nonwear: seq<int>,
                           ws: int, n: nat, midnights: seq<int>)
    requires DividesHour(ws) && |nonwear| == |enmo| && 0 < |midnights|
    requires |enmo| == |ts| && 0 <= midnights[|midnights| - 1] && Hours(midnights[|midnights| - 1], |ts|, ws) == 23
    ensures GraphRow(ts, enmo, anglez, nonwear, ws, n, midnights, |midnights|) == Err(KeyError)
    ensures RowsUpTo(ts, enmo, anglez, nonwear, ws, n, midnights, |midnights| + 1).Err?
  {
    var q, last := 3600 / ws, midnights[|midnights| - 1];
    assert q >= 1;
    assert 23 * q <= |ts| - last + 1;
    CorrectedEndIsAdjustedEnd(last, |ts|, ws);
    assert DayRange(midnights, |midnights|, |ts|) == (last, |ts|);
  }

  /** The three arrays `create_graphs` returns. */
  datatype GraphOutput = GraphOutput(acc: array2<real>, ang: array2<real>, nonwear: array2<int>)

  /** The three arrays have `count` rows of `n` points each. */
  ghost predicate Shaped(out: GraphOutput, count: nat, n: nat) {
    && out.acc.Length0 == out.ang.Length0 == out.nonwear.Length0 == count
    && out.acc.Length1 == out.ang.Length1 == out.nonwear.Length1 == n
  }

  /** Row `d` of the three arrays holds day `g`. */
  ghost predicate RowStored(out: GraphOutput, d: int, g: DayGraph)
    reads out.acc, out.ang, out.nonwear
  {
    && 0 <= d < out.acc.Length0 && d < out.ang.Length0 && d < out.nonwear.Length0
    && |g.acceleration| == out.acc.Length1 && |g.angle| == out.ang.Length1 && |g.nonWear| == out.nonwear.Length1
    && (forall j :: 0 <= j < out.acc.Length1 ==> out.acc[d, j] == g.acceleration[j])
    && (forall j :: 0 <= j < out.ang.Length1 ==> out.ang[d, j] == g.angle[j])
    && (forall j :: 0 <= j < out.nonwear.Length1 ==> out.nonwear[d, j] == g.nonWear[j])
  }

  /** The first `|rows|` rows of the three arrays hold the days' series. */
  ghost predicate Filled(out: GraphOutput, rows: seq<DayGraph>)
    reads out.acc, out.ang, out.nonwear
  {
    forall d :: 0 <= d < |rows| ==> RowStored(out, d, rows[d])
  }

  /** `a[i] = row` on a 2-D array: row `i` becomes `row`, the other rows keep their values. */
  method SetRow<T>(a: array2<T>, i: nat, row: seq<T>)
    requires i < a.Length0 && |row| == a.Length1
    modifies a
    ensures forall j :: 0 <= j < a.Length1 ==> a[i, j] == row[j]
    ensures forall d, j :: 0 <= d < a.Length0 && d != i && 0 <= j < a.Length1 ==> a[d, j] == old(a[d, j])
  {
    var j := 0;
    while j < a.Length1
      invariant 0 <= j <= a.Length1
      invariant forall l :: 0 <= l < j ==> a[i, l] == row[l]
      invariant forall d, l :: 0 <= d < a.Length0 && d != i && 0 <= l < a.Length1 ==> a[d, l] == old(a[d, l])
    {
      a[i, j] := row[j];
      j := j + 1;
    }
  }

  /** The three row assignments of one day: row `k` holds `g`, the earlier rows keep theirs. */
  method StoreDay(out: GraphOutput, k: nat, ghost rows: seq<DayGraph>, g: DayGraph)
    requires out.acc != out.ang
    requires k == |rows| < out.acc.Length0 && Shaped(out, out.acc.Length0, out.acc.Length1)
    requires |g.acceleration| == |g.angle| == |g.nonWear| == out.acc.Length1
    requires Filled(out, rows)
    modifies out.acc, out.ang, out.nonwear
    ensures Filled(out, rows + [g])
  {
    SetRow(out.acc, k, g.acceleration);
    SetRow(out.ang, k, g.angle);
    SetRow(out.nonwear, k, g.nonWear);
    forall d | 0 <= d < |rows| + 1 ensures RowStored(out, d, (rows + [g])[d]) {
      if d < k {
        assert old(RowStored(out, d, rows[d]));
      }
    }
  }

  /** One pass of the day loop: the day's range, the two corrections, the series and the fitted row. */
  method BuildDay(ts: seq<DateTime>, enmo: seq<real>, anglez: seq<real>, nonwear: seq<int>, ws: int, n: nat,
                  midnights: seq<int>, k: nat) returns (r: Result<DayGraph>)
    requires DividesHour(ws) && |nonwear| == |enmo| && 0 < |midnights| && k <= |midnights|
    ensures r == GraphRow(ts, enmo, anglez, nonwear, ws, n, midnights, k)
  {
    var start, end;
    if k == 0 {
      start, end := 0, midnights[k];
    } else if k < |midnights| {
      start, end := midnights[k - 1], midnights[k];
    } else {
      start, end := midnights[k - 1], |ts|;
    }
    if Hours(start, end, ws) == 25 {
      end := end - 3600 / ws;
    }
    if Hours(start, end, ws) == 23 {
      end := end + 3600 / ws;
    }
    assert end == CorrectedEnd(start, DayRange(midnights, k, |ts|).1, ws);
    var row := Row(enmo, anglez, nonwear, n, start, end, |ts|);
    if row.Err? {
      return Err(row.error);
    }
    r := Fit(row.value, n);
  }

  /** The loop of `create_graphs` over the days, writing each day's row into the three arrays. */
  method FillRows(ts: seq<DateTime>, enmo: seq<real>, anglez: seq<real>, nonwear: seq<int>, ws: int, n: nat,
                  midnights: seq<int>, out: GraphOutput) returns (r: Result<GraphOutput>)
    requires DividesHour(ws) && |nonwear| == |enmo| && 0 < |midnights|
    requires Shaped(out, |midnights| + 1, n) && out.acc != out.ang
    modifies out.acc, out.ang, out.nonwear
    ensures var all := RowsUpTo(ts, enmo, anglez, nonwear, ws, n, midnights, |midnights| + 1);
      && (r.Err? <==> all.Err?)
      && (r.Err? ==> r.error == all.error)
      && (r.Ok? ==> r.value == out && Filled(out, all.value))
  {
    var nPlots := |midnights| + 1;
    var k := 0;
    ghost var rows: seq<DayGraph> := [];
    while k < nPlots
      invariant 0 <= k <= nPlots && |rows| == k
      invariant RowsUpTo(ts, enmo, anglez, nonwear, ws, n, midnights, k) == Ok(rows)
      invariant Filled(out, rows)
    {
      var day := BuildDay(ts, enmo, anglez, nonwear, ws, n, midnights, k);
      RowsUpToStep(ts, enmo, anglez, nonwear, ws, n, midnights, k, rows, day);
      if day.Err? {
        RowsUpToErrPersists(ts, enmo, anglez, nonwear, ws, n, midnights, k + 1, nPlots);
        return Err(day.error);
      }
      StoreDay(out, k, rows, day.value);
      rows := rows + [day.value];
      k := k + 1;
    }
    return Ok(out);
  }

  /**
   * `create_graphs`, step by step: the arrays are allocated before the check
   * for boundaries, then filled day by day; the first failing day's error is
   * the result.
   */
  method CreateGraphs(ts: seq<DateTime>, enmo: seq<real>, anglez: seq<real>, scores: seq<real>, windowSizes: seq<int>)
    returns (r: Result<GraphOutput>)
    requires |windowSizes| > 0 && windowSizes[0] != 0 ==> DividesHour(windowSizes[0])
    ensures r.Err? <==> Graphs(ts, enmo, anglez, scores, windowSizes).Err?
    ensures r.Err? ==> r.error == Graphs(ts, enmo, anglez, scores, windowSizes).error
    ensures r.Ok? ==> fresh(r.value.acc) && fresh(r.value.ang) && fresh(r.value.nonwear)
    ensures r.Ok? ==> GetNPointsPerDay(windowSizes).Ok?
    ensures r.Ok? ==> Shaped(r.value, |GetMidnights(ts)| + 1, GetNPointsPerDay(windowSizes).value)
    ensures r.Ok? ==> Filled(r.value, Graphs(ts, enmo, anglez, scores, windowSizes).value)
  {
    var midnights := GetMidnights(ts);
    var nonwear := ExpandNonwear(|enmo|, scores, windowSizes);
    if nonwear.Err? {
      return Err(nonwear.error);
    }
    assert nonwear.value == NonwearVector(|enmo|, scores, windowSizes).value;
    var n := GetNPointsPerDay(windowSizes);
    if n.Err? {
      return Err(n.error);
    }
    PointsPerDayEven(windowSizes[0]);
    assert n == GetNPointsPerDay([windowSizes[0]]);
    var accRows := new real[|midnights| + 1, n.value]((_, _) => 0.0);
    var angRows := new real[|midnights| + 1, n.value]((_, _) => 0.0);
    var nonwearRows := new int[|midnights| + 1, n.value]((_, _) => 0);
    if |midnights| == 0 {
      return Err(ValueError);
    }
    assert Graphs(ts, enmo, anglez, scores, windowSizes)
        == RowsUpTo(ts, enmo, anglez, nonwear.value, windowSizes[0], n.value, midnights, |midnights| + 1);
    r := FillRows(ts, enmo, anglez, nonwear.value, windowSizes[0], n.value, midnights,
                  GraphOutput(accRows, angRows, nonwearRows));
  }
}
