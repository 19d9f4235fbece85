/**
 * Day segmentation of the accelerometer stream, anchored at midnight: the
 * timestamps are parsed, the indices where the calendar day changes mark the
 * day boundaries, each day's `[start, end)` slice is corrected for 23- and
 * 25-hour days, the long-window non-wear flags are spread over the short-window
 * vector, and the first and last day are padded to a full day of points.
 */
module DataImport {
  import opened Wrappers
  import opened PyOps
  import opened DateTimes
  import Calendar
  import Runs

  /** Every option present, in order; otherwise the first absent one's error. */
  function AllSome<T>(opts: seq<Option<T>>, error: Error): (r: Result<seq<T>>)
    ensures r.Err? <==> exists i :: 0 <= i < |opts| && opts[i].None?
    ensures r.Err? ==> r.error == error
    ensures r.Ok? ==> |r.value| == |opts| && forall i :: 0 <= i < |opts| ==> opts[i] == Some(r.value[i])
  {
    if opts == [] then Ok([])
    else
      var rest := AllSome(opts[1..], error);
      if opts[0].None? then Err(error)
      else if rest.Err? then
        var j :| 0 <= j < |opts[1..]| && opts[1..][j].None?;
        assert opts[j + 1].None?;
        rest
      else
        Ok([opts[0].value] + rest.value)
  }

  /** Each text parsed with `%Y-%m-%dT%H:%M:%S%z`, or None where it does not parse. */
  function Parsed(times: seq<string>): (r: seq<Option<DateTime>>)
    ensures |r| == |times|
  {
    if times == [] then [] else Parsed(times[..|times| - 1]) + [Parse(times[|times| - 1], 'T', false)]
  }

  lemma {:induction false} ParsedAt(times: seq<string>, i: int)
    requires 0 <= i < |times|
    ensures Parsed(times)[i] == Parse(times[i], 'T', false)
  {
    if i < |times| - 1 {
      ParsedAt(times[..|times| - 1], i);
    }
  }

  /** `get_time`: every text parsed; one that does not parse raises ValueError. */
  function GetTime(times: seq<string>): (r: Result<seq<DateTime>>)
    ensures r.Err? <==> exists i :: 0 <= i < |times| && Parsed(times)[i].None?
    ensures r.Err? ==> r.error == ValueError
    ensures r.Ok? ==> |r.value| == |times| && forall i :: 0 <= i < |times| ==> Parsed(times)[i] == Some(r.value[i])
  {
    var parsed := Parsed(times);
    var r := AllSome(parsed, ValueError);
    assert r.Err? ==> exists i :: 0 <= i < |times| && parsed[i].None?;
    assert (exists i :: 0 <= i < |times| && parsed[i].None?) ==> r.Err?;
    assert parsed == Parsed(times);
    r
  }

  /** Timestamps the metadata can hold: aware, in range, offsets in whole minutes. */
  predicate Storable(ts: seq<DateTime>) {
    forall i :: 0 <= i < |ts| ==> InRange(ts[i]) && IsAware(ts[i]) && ts[i].offset.value % 60 == 0
  }

  /** Each timestamp written in the `%Y-%m-%dT%H:%M:%S%z` layout. */
  function Rendered(ts: seq<DateTime>): (r: seq<string>)
    requires Storable(ts)
    ensures |r| == |ts|
  {
    seq(|ts|, i requires 0 <= i < |ts| => Render(ts[i], 'T', false))
  }

  /** The timestamps the metadata holds, written out, parse back to themselves. */
  lemma GetTimeOfRender(ts: seq<DateTime>)
    requires Storable(ts)
    ensures GetTime(Rendered(ts)) == Ok(ts)
  {
    var times := Rendered(ts);
    ParsedRendered(ts);
    assert GetTime(times).value == ts;
  }

  lemma ParsedRendered(ts: seq<DateTime>)
    requires Storable(ts)
    ensures forall i :: 0 <= i < |ts| ==> Parsed(Rendered(ts))[i] == Some(ts[i])
  {
    forall i | 0 <= i < |ts| ensures Parsed(Rendered(ts))[i] == Some(ts[i]) {
      ParsedAt(Rendered(ts), i);
      ParseOfRender(ts[i], 'T', false);
    }
  }

  /** The first position below `hi` holding a datetime equal (`==`) to `x`. */
  function FirstEqualBelow(ts: seq<DateTime>, x: DateTime, hi: nat): (r: Option<nat>)
    requires hi <= |ts|
    ensures r.Some? ==> r.value < hi && PyEq(ts[r.value], x) && forall j :: 0 <= j < r.value ==> !PyEq(ts[j], x)
    ensures r.None? ==> forall j :: 0 <= j < hi ==> !PyEq(ts[j], x)
  {
    if hi == 0 then None
    else
      var e := FirstEqualBelow(ts, x, hi - 1);
      if e.Some? then e else if PyEq(ts[hi - 1], x) then Some(hi - 1) else None
  }

  /** `timestamps.index(timestamps[k])`: the first position of a datetime equal to the one at `k`. */
  function IndexOf(ts: seq<DateTime>, k: nat): (i: nat)
    requires k < |ts|
    ensures i <= k && PyEq(ts[i], ts[k]) && forall j :: 0 <= j < i ==> !PyEq(ts[j], ts[k])
  {
    FirstEqualBelow(ts, ts[k], k + 1).value
  }

  /** The day of the month of each timestamp, `t.day`. */
  function DaysOfMonth(ts: seq<DateTime>): (r: seq<int>)
    ensures |r| == |ts|
  {
    if ts == [] then [] else DaysOfMonth(ts[..|ts| - 1]) + [Calendar.DayOfMonth(Date(ts[|ts| - 1]))]
  }

  lemma {:induction false} DaysOfMonthAt(ts: seq<DateTime>, i: int)
    requires 0 <= i < |ts|
    ensures DaysOfMonth(ts)[i] == Calendar.DayOfMonth(Date(ts[i]))
  {
    if i < |ts| - 1 {
      DaysOfMonthAt(ts[..|ts| - 1], i);
    }
  }

  /** The midnight indices found among the pairs `(ts[k-1], ts[k])` with `k < hi`, `days` being the days of the month. */
  function MidnightsOf(ts: seq<DateTime>, days: seq<int>, hi: nat): seq<int>
    requires hi <= |ts| == |days|
  {
    if hi <= 1 then []
    else MidnightsOf(ts, days, hi - 1) + (if days[hi - 2] != days[hi - 1] then [IndexOf(ts, hi - 1) + 1] else [])
  }

  function Midnights(ts: seq<DateTime>, hi: nat): seq<int>
    requires hi <= |ts|
  {
    MidnightsOf(ts, DaysOfMonth(ts), hi)
  }

  /**
   * `get_midnights`: for each consecutive pair of timestamps on different days
   * of the month, the position of the pair's second timestamp (found with
   * `index`) plus one.
   */
  method GetMidnights(ts: seq<DateTime>) returns (midnights: seq<int>)
    ensures midnights == Midnights(ts, |ts|)
  {
    midnights := [];
    if |ts| < 2 {
      return;
    }
    var days := DaysOfMonth(ts);
    var k := 1;
    while k < |ts|
      invariant 1 <= k <= |ts|
      invariant midnights == MidnightsOf(ts, days, k)
    {
      if days[k - 1] != days[k] {
        midnights := midnights + [IndexOf(ts, k) + 1];
      }
      k := k + 1;
    }
  }

  /** No two timestamps are equal. */
  predicate Distinct(ts: seq<DateTime>) {
    forall i, j :: 0 <= i < j < |ts| ==> !PyEq(ts[i], ts[j])
  }

  /** Each element plus one. */
  function Successors(s: seq<int>): (r: seq<int>)
    ensures |r| == |s| && forall i :: 0 <= i < |s| ==> r[i] == s[i] + 1
  {
    seq(|s|, i requires 0 <= i < |s| => s[i] + 1)
  }

  /**
   * With distinct timestamps, the midnights are one past each index where the
   * day of the month changes: strictly increasing, in `[2, |ts|]`.
   */
  lemma {:induction false} MidnightsOfDistinct(ts: seq<DateTime>, hi: nat)
    requires hi <= |ts| && Distinct(ts)
    ensures Midnights(ts, hi) == Successors(Runs.ChangeIndices(DaysOfMonth(ts), hi))
    decreases hi
  {
    if hi > 1 {
      MidnightsOfDistinct(ts, hi - 1);
      var d := DaysOfMonth(ts);
      assert Midnights(ts, hi) == MidnightsOf(ts, d, hi);
      var c := Runs.ChangeIndices(d, hi - 1);
      assert IndexOf(ts, hi - 1) == hi - 1;
      if d[hi - 1] != d[hi - 2] {
        assert Successors(c + [hi - 1]) == Successors(c) + [hi];
      } else {
        assert c + [] == c;
      }
    }
  }

  /** With distinct timestamps the midnights strictly increase and lie in `[2, |ts|]`. */
  lemma MidnightsIncrease(ts: seq<DateTime>)
    requires Distinct(ts)
    ensures var m := Midnights(ts, |ts|);
      && (forall i, j :: 0 <= i < j < |m| ==> m[i] < m[j])
      && (forall i :: 0 <= i < |m| ==> 2 <= m[i] <= |ts|)
  {
    MidnightsOfDistinct(ts, |ts|);
  }

  /** `get_daycount`: one more day than there are midnights. */
  function GetDaycount(ts: seq<DateTime>): (n: nat)
    ensures n == |Midnights(ts, |ts|)| + 1
  {
    |Midnights(ts, |ts|)| + 1
  }

  /** The test's three timestamps, one second before midnight and two after it, give the single midnight 2. */
  lemma GetMidnightsExample(date: int)
    requires Calendar.DayOfMonth(date) != Calendar.DayOfMonth(date + 1)
    ensures Midnights([DateTime(date * SecondsPerDay + SecondsPerDay - 1, Some(0)), DateTime((date + 1) * SecondsPerDay, Some(0)),
                       DateTime((date + 1) * SecondsPerDay + 1, Some(0))], 3) == [2]
  {
    var ts := [DateTime(date * SecondsPerDay + SecondsPerDay - 1, Some(0)), DateTime((date + 1) * SecondsPerDay, Some(0)),
               DateTime((date + 1) * SecondsPerDay + 1, Some(0))];
    var d := DaysOfMonth(ts);
    assert Date(ts[0]) == date && Date(ts[1]) == date + 1 && Date(ts[2]) == date + 1;
    DaysOfMonthAt(ts, 0);
    DaysOfMonthAt(ts, 1);
    DaysOfMonthAt(ts, 2);
    assert IndexOf(ts, 1) == 1 by {
      assert !PyEq(ts[0], ts[1]);
    }
    assert MidnightsOf(ts, d, 2) == [2];
    assert MidnightsOf(ts, d, 3) == [2];
  }

  /** The day after a date that is not the last of its month is the next day of the month: 15 and 16 October 2022 differ. */
  lemma NextDayOfMonth(d: Calendar.Ymd)
    requires Calendar.ValidDate(d) && d.day < Calendar.DaysInMonth(d.year, d.month)
    ensures Calendar.DayOfMonth(Calendar.YmdToOrd(d)) == d.day
    ensures Calendar.DayOfMonth(Calendar.YmdToOrd(d) + 1) == d.day + 1
  {
    var e := Calendar.Ymd(d.year, d.month, d.day + 1);
    Calendar.OrdToYmdOfYmdToOrd(d);
    Calendar.OrdToYmdOfYmdToOrd(e);
    assert Calendar.YmdToOrd(e) == Calendar.YmdToOrd(d) + 1;
  }

  /** `86400 // windowsizes[0]`: IndexError without window sizes, ZeroDivisionError for a zero one. */
  function GetNPointsPerDay(windowSizes: seq<int>): (r: Result<int>)
    ensures r.Err? <==> |windowSizes| == 0 || windowSizes[0] == 0
    ensures |windowSizes| == 0 ==> r == Err(IndexError)
    ensures |windowSizes| > 0 && windowSizes[0] == 0 ==> r == Err(ZeroDivisionError)
    ensures r.Ok? && windowSizes[0] > 0 ==> r.value * windowSizes[0] <= SecondsPerDay < (r.value + 1) * windowSizes[0]
  {
    if |windowSizes| == 0 then Err(IndexError)
    else if windowSizes[0] == 0 then Err(ZeroDivisionError)
    else Ok(FloorDiv(SecondsPerDay, windowSizes[0]))
  }

  /** A window that divides the day gives exactly that many points per day; five-second windows give 17280. */
  lemma PointsPerDayExact(ws: int)
    requires ws > 0 && SecondsPerDay % ws == 0
    ensures GetNPointsPerDay([ws]) == Ok(SecondsPerDay / ws)
    ensures GetNPointsPerDay([5]) == Ok(17280)
  {
  }

  /**
   * A window that divides the hour divides the day into 24 hours of whole
   * points: an even number of points, at least 24.
   */
  lemma PointsPerDayEven(ws: int)
    requires DividesHour(ws)
    ensures GetNPointsPerDay([ws]).Ok?
    ensures var n := GetNPointsPerDay([ws]).value; n == 24 * (3600 / ws) && 3600 / ws >= 1
    ensures var n := GetNPointsPerDay([ws]).value; n >= 24 && n % 2 == 0
  {
    var q := 3600 / ws;
    assert q * ws == 3600;
    assert q >= 1 by {
      if q <= 0 {
        ProductNonPositive(q, ws);
      }
    }
    var n := GetNPointsPerDay([ws]).value;
    assert (24 * q) * ws == SecondsPerDay;
    FloorDivUnique(SecondsPerDay, ws, n, 24 * q);
  }

  lemma ProductNonPositive(q: int, b: int)
    requires q <= 0 && b > 0
    ensures q * b <= 0
  {
  }

  predicate Increasing(s: seq<int>) {
    forall i, j :: 0 <= i < j < |s| ==> s[i] < s[j]
  }

  /** `x` added to an increasing sequence, where it belongs, unless it is already there. */
  function Insert(s: seq<int>, x: int): (r: seq<int>)
    requires Increasing(s)
    ensures Increasing(r)
    ensures forall y :: y in r <==> y in s || y == x
    ensures forall i :: 0 <= i < |r| ==> x <= r[i] || (|s| > 0 && s[0] <= r[i])
  {
    if s == [] then [x]
    else if x < s[0] then [x] + s
    else if x == s[0] then s
    else
      var rest := Insert(s[1..], x);
      assert forall i :: 0 <= i < |rest| ==> s[0] < rest[i];
      assert s == [s[0]] + s[1..];
      [s[0]] + rest
  }

  /** `get_dates`: the distinct calendar dates of the timestamps, in increasing order (`sorted` of the set of dates). */
  function GetDates(ts: seq<DateTime>): (r: seq<int>)
    ensures Increasing(r)
    ensures forall d :: d in r <==> exists i :: 0 <= i < |ts| && Date(ts[i]) == d
  {
    if ts == [] then []
    else
      var r := Insert(GetDates(ts[..|ts| - 1]), Date(ts[|ts| - 1]));
      assert forall d :: d in r ==> exists i :: 0 <= i < |ts| && Date(ts[i]) == d by {
        forall d | d in r ensures exists i :: 0 <= i < |ts| && Date(ts[i]) == d {
          if d != Date(ts[|ts| - 1]) {
            var i :| 0 <= i < |ts| - 1 && Date(ts[..|ts| - 1][i]) == d;
            assert Date(ts[i]) == d;
          }
        }
      }
      r
  }

  /** A window size that divides the hour; the daylight-saving rule counts hours with it. */
  predicate DividesHour(windowSize: int) {
    windowSize > 0 && 3600 % windowSize == 0
  }

  /** Whole hours in `[start, end]`: `(end - start + 1) // (3600 / window_size)`. */
  function Hours(start: int, end: int, windowSize: int): int
    requires DividesHour(windowSize)
  {
    FloorDiv(end - start + 1, 3600 / windowSize)
  }

  /** The end of the day after the daylight-saving rule: a 25-hour day loses an hour of points, a 23-hour day gains one. */
  function AdjustedEnd(start: int, end: int, windowSize: int): (r: int)
    requires DividesHour(windowSize)
    ensures Hours(start, end, windowSize) == 25 ==> r == end - 3600 / windowSize
    ensures Hours(start, end, windowSize) == 23 ==> r == end + 3600 / windowSize
    ensures Hours(start, end, windowSize) != 23 && Hours(start, end, windowSize) != 25 ==> r == end
  {
    var perHour := 3600 / windowSize;
    var hours := FloorDiv(end - start + 1, perHour);
    if hours == 25 then end - perHour else if hours == 23 then end + perHour else end
  }

  /**
   * `_adjust_timepoint_for_daylight_savings`: both tests read the day length
   * computed before either correction, so at most one of them fires.
   */
  method AdjustForDaylightSavings(start: int, end: int, windowSize: int) returns (adjusted: int)
    requires DividesHour(windowSize)
    ensures adjusted == AdjustedEnd(start, end, windowSize)
  {
    var dayLength := end - start;
    var perHour := 3600 / windowSize;
    adjusted := end;
    if FloorDiv(dayLength + 1, perHour) == 25 {
      adjusted := adjusted - perHour;
    }
    if FloorDiv(dayLength + 1, perHour) == 23 {
      adjusted := adjusted + perHour;
    }
  }

  lemma FloorDivStep(a: int, b: int)
    requires b > 0
    ensures FloorDiv(a - b, b) == FloorDiv(a, b) - 1 && FloorDiv(a + b, b) == FloorDiv(a, b) + 1
  {
    var q := FloorDiv(a, b);
    var p, r := FloorDiv(a - b, b), FloorDiv(a + b, b);
    assert (p + 1) * b <= a < (p + 1) * b + b;
    assert (r - 1) * b <= a < (r - 1) * b + b;
    FloorDivUnique(a, b, q, p + 1);
    FloorDivUnique(a, b, q, r - 1);
  }

  lemma FloorDivUnique(a: int, b: int, q: int, q': int)
    requires b > 0 && q * b <= a < q * b + b && q' * b <= a < q' * b + b
    ensures q == q'
  {
    MultipleOfPositive(q' - q, b);
    assert (q' - q) * b == q' * b - q * b;
  }

  /** A multiple of a positive `b` by a non-zero factor is at least `b` away from zero. */
  lemma MultipleOfPositive(d: int, b: int)
    requires b > 0
    ensures d >= 1 ==> d * b >= b
    ensures d <= -1 ==> d * b <= -b
  {
    if d >= 1 {
      assert d * b == b + (d - 1) * b;
      ProductNonNegative(d - 1, b);
    } else if d <= -1 {
      assert d * b == -b - (-d - 1) * b;
      ProductNonNegative(-d - 1, b);
    }
  }

  lemma ProductNonNegative(x: int, b: int)
    requires x >= 0 && b >= 0
    ensures x * b >= 0
  {
  }

  /** A day the rule corrects spans 24 hours afterwards; any other day is left as it is. */
  lemma AdjustedDayHas24Hours(start: int, end: int, windowSize: int)
    requires DividesHour(windowSize)
    ensures var h := Hours(start, end, windowSize);
      (h == 23 || h == 25) ==> Hours(start, AdjustedEnd(start, end, windowSize), windowSize) == 24
    ensures var h := Hours(start, end, windowSize);
      h != 23 && h != 25 ==> AdjustedEnd(start, end, windowSize) == end
  {
    FloorDivStep(end - start + 1, 3600 / windowSize);
  }

  /** With five-second windows an hour is 720 points: a day of 18000 points (25 hours) ends 720 points earlier. */
  lemma AdjustedEndExample()
    ensures AdjustedEnd(0, 17999, 5) == 17279
    ensures AdjustedEnd(0, 16559, 5) == 17279
    ensures AdjustedEnd(0, 17279, 5) == 17279
  {
    assert FloorDiv(18000, 720) == 25 && FloorDiv(16560, 720) == 23 && FloorDiv(17280, 720) == 24;
  }

  /** `[0] + midnights + [None]`. */
  function Targets(midnights: seq<int>): (r: seq<Option<int>>)
    ensures |r| == |midnights| + 2 && r[0] == Some(0) && r[|r| - 1] == None
    ensures forall i :: 0 <= i < |midnights| ==> r[i + 1] == Some(midnights[i])
  {
    [Some(0)] + seq(|midnights|, i requires 0 <= i < |midnights| => Some(midnights[i])) + [None]
  }

  /** `list(itertools.pairwise(s))`. */
  function Pairwise<T>(s: seq<T>): (r: seq<(T, T)>)
    ensures |r| == if |s| == 0 then 0 else |s| - 1
    ensures forall i :: 0 <= i < |r| ==> r[i] == (s[i], s[i + 1])
  {
    if |s| == 0 then [] else seq(|s| - 1, i requires 0 <= i < |s| - 1 => (s[i], s[i + 1]))
  }

  /**
   * The `[start, end)` points of day `day` (negative counting from the end):
   * day `k` runs from the previous midnight (0 for the first) to the next one,
   * corrected for daylight saving, and the last day has no end.
   */
  function DayBounds(midnights: seq<int>, day: int, windowSize: int): (r: Result<(int, Option<int>)>)
    requires DividesHour(windowSize)
    ensures r.Err? <==> PyIndex(|midnights| + 1, day).None?
    ensures r.Err? ==> r.error == IndexError
    ensures r.Ok? ==> var k := PyIndex(|midnights| + 1, day).value;
      && r.value.0 == (if k == 0 then 0 else midnights[k - 1])
      && (k == |midnights| ==> r.value.1 == None)
      && (k < |midnights| && midnights[k] == 0 ==> r.value.1 == Some(0))
      && (k < |midnights| && midnights[k] != 0 ==> r.value.1 == Some(AdjustedEnd(r.value.0, midnights[k], windowSize)))
  {
    var pairs := Pairwise(Targets(midnights));
    var k := PyIndex(|pairs|, day);
    if k.None? then Err(IndexError)
    else
      var (start, end) := pairs[k.value];
      if end.Some? && end.value != 0 then Ok((start.value, Some(AdjustedEnd(start.value, end.value, windowSize))))
      else Ok((start.value, end))
  }

  /** `_day_start_and_end_time_points`: the start is never None, so its ValueError cannot be raised. */
  method DayStartAndEnd(midnights: seq<int>, day: int, windowSize: int) returns (r: Result<(int, Option<int>)>)
    requires DividesHour(windowSize)
    ensures r == DayBounds(midnights, day, windowSize)
  {
    var pairs := Pairwise(Targets(midnights));
    var k := PyIndex(|pairs|, day);
    if k.None? {
      return Err(IndexError);
    }
    var (start, end) := pairs[k.value];
    if end.Some? && end.value != 0 {
      var adjusted := AdjustForDaylightSavings(start.value, end.value, windowSize);
      r := Ok((start.value, Some(adjusted)));
    } else {
      r := Ok((start.value, end));
    }
  }

  /** Day `k + 1` starts where day `k` ended before the daylight-saving correction: consecutive days share their midnight. */
  lemma ConsecutiveDaysMeet(midnights: seq<int>, k: nat, windowSize: int)
    requires DividesHour(windowSize) && k < |midnights| && midnights[k] != 0
    ensures DayBounds(midnights, k, windowSize).Ok? && DayBounds(midnights, k + 1, windowSize).Ok?
    ensures DayBounds(midnights, k + 1, windowSize).value.0 == midnights[k]
    ensures var b := DayBounds(midnights, k, windowSize).value;
      b.1 == Some(AdjustedEnd(b.0, midnights[k], windowSize))
  {
  }

  /** `np.where(scores > 1)[0]`: the positions of the flagged long windows, ascending. */
  function FlaggedIndices(scores: seq<real>): (r: seq<nat>)
    ensures forall k :: 0 <= k < |r| ==> r[k] < |scores| && scores[r[k]] > 1.0
    ensures forall i :: 0 <= i < |scores| && scores[i] > 1.0 ==> i in r
    ensures forall j, k :: 0 <= j < k < |r| ==> r[j] < r[k]
  {
    if scores == [] then []
    else
      var rest := FlaggedIndices(scores[..|scores| - 1]);
      if scores[|scores| - 1] > 1.0 then rest + [|scores| - 1] else rest
  }

  /** Position `j` lies in the slice `nonwear[i : i + span - 1]` of a vector of length `n`. */
  predicate InSlice(n: nat, i: nat, span: int, j: int) {
    SliceBound(n, i) <= j < SliceBound(n, i + span - 1)
  }

  /** Position `j` lies in one of the slices that start at the positions `starts`. */
  predicate Covered(n: nat, starts: seq<nat>, span: int, j: int)
    decreases |starts|
  {
    |starts| > 0 && (Covered(n, starts[..|starts| - 1], span, j) || InSlice(n, starts[|starts| - 1], span, j))
  }

  lemma {:induction false} CoveredWitness(n: nat, starts: seq<nat>, span: int, j: int) returns (k: nat)
    requires Covered(n, starts, span, j)
    ensures k < |starts| && InSlice(n, starts[k], span, j)
    decreases |starts|
  {
    var init := starts[..|starts| - 1];
    if InSlice(n, starts[|starts| - 1], span, j) {
      k := |starts| - 1;
    } else {
      k := CoveredWitness(n, init, span, j);
      assert starts[k] == init[k];
    }
  }

  lemma {:induction false} CoveredByMember(n: nat, starts: seq<nat>, span: int, j: int, k: nat)
    requires k < |starts| && InSlice(n, starts[k], span, j)
    ensures Covered(n, starts, span, j)
    decreases |starts|
  {
    if k < |starts| - 1 {
      var init := starts[..|starts| - 1];
      assert init[k] == starts[k];
      CoveredByMember(n, init, span, j, k);
    }
  }

  /** The expansion reads `windowsizes[1] // windowsizes[0]`, which needs two window sizes and a non-zero first one. */
  predicate HasSpan(windowSizes: seq<int>) {
    |windowSizes| >= 2 && windowSizes[0] != 0
  }

  function Span(windowSizes: seq<int>): int
    requires HasSpan(windowSizes)
  {
    FloorDiv(windowSizes[1], windowSizes[0])
  }

  /** The short-window point `j` is marked as non-wear. */
  predicate NonwearAt(n: nat, scores: seq<real>, windowSizes: seq<int>, j: int) {
    HasSpan(windowSizes) && Covered(n, FlaggedIndices(scores), Span(windowSizes), j)
  }

  /** `a[lo:hi] = 1` for bounds already clipped to the array. */
  method MarkSlice(a: array<int>, lo: nat, hi: nat)
    requires hi <= a.Length
    modifies a
    ensures forall j :: 0 <= j < a.Length ==> a[j] == if lo <= j < hi then 1 else old(a[j])
  {
    var x := lo;
    while x < hi
      invariant lo <= x && (x <= hi || hi < lo == x)
      invariant forall j :: 0 <= j < a.Length ==> a[j] == if lo <= j < x then 1 else old(a[j])
    {
      a[x] := 1;
      x := x + 1;
    }
  }

  /**
   * The non-wear vector of `create_graph`: `n` zeros, then `1` on
   * `nonwear[i : i + ws[1] // ws[0] - 1]` for every flagged long window `i`.
   * The span is only read when some window is flagged.
   */
  method ExpandNonwear(n: nat, scores: seq<real>, windowSizes: seq<int>) returns (r: Result<seq<int>>)
    ensures r.Err? <==> FlaggedIndices(scores) != [] && !HasSpan(windowSizes)
    ensures r.Err? ==> r.error == if |windowSizes| < 2 then IndexError else ZeroDivisionError
    ensures r.Ok? ==> |r.value| == n && forall j :: 0 <= j < n ==> r.value[j] == if NonwearAt(n, scores, windowSizes, j) then 1 else 0
  {
    var flagged := FlaggedIndices(scores);
    var nonwear := new int[n](_ => 0);
    if flagged == [] {
      forall j | 0 <= j < n ensures !NonwearAt(n, scores, windowSizes, j) {
      }
      return Ok(nonwear[..]);
    }
    if |windowSizes| < 2 {
      return Err(IndexError);
    }
    if windowSizes[0] == 0 {
      return Err(ZeroDivisionError);
    }
    MarkWindows(nonwear, flagged, FloorDiv(windowSizes[1], windowSizes[0]));
    return Ok(nonwear[..]);
  }

  /** The loop of `create_graph` over the flagged windows: `a[i : i + span - 1] = 1` for each start `i`. */
  method MarkWindows(a: array<int>, starts: seq<nat>, span: int)
    modifies a
    ensures forall j :: 0 <= j < a.Length ==> a[j] == if Covered(a.Length, starts, span, j) then 1 else old(a[j])
  {
    var k := 0;
    while k < |starts|
      invariant 0 <= k <= |starts|
      invariant forall j :: 0 <= j < a.Length ==> a[j] == if Covered(a.Length, starts[..k], span, j) then 1 else old(a[j])
    {
      MarkSlice(a, SliceBound(a.Length, starts[k]), SliceBound(a.Length, starts[k] + span - 1));
      assert starts[..k + 1][..k] == starts[..k];
      k := k + 1;
    }
    assert starts[..k] == starts;
  }

  /** Every short-window point from a flagged window `i` up to `i + span - 1` is marked, when that range lies in the vector. */
  lemma FlaggedWindowIsMarked(n: nat, scores: seq<real>, windowSizes: seq<int>, i: nat, j: int)
    requires HasSpan(windowSizes) && i < |scores| && scores[i] > 1.0
    requires i <= j < i + Span(windowSizes) - 1 <= n
    ensures NonwearAt(n, scores, windowSizes, j)
  {
    var f := FlaggedIndices(scores);
    var k :| 0 <= k < |f| && f[k] == i;
    CoveredByMember(n, f, Span(windowSizes), j, k);
  }

  /** A marked point lies at or after a flagged window and before that window's end, when the span is positive. */
  lemma MarkedPointHasFlaggedWindow(n: nat, scores: seq<real>, windowSizes: seq<int>, j: int) returns (i: nat)
    requires NonwearAt(n, scores, windowSizes, j) && Span(windowSizes) >= 1
    ensures i < |scores| && scores[i] > 1.0 && i <= j < i + Span(windowSizes) - 1 && j < n
  {
    var f := FlaggedIndices(scores);
    var k := CoveredWitness(n, f, Span(windowSizes), j);
    i := f[k];
  }

  /** The non-wear vector `ExpandNonwear` fills in, as a value. */
  function NonwearVector(n: nat, scores: seq<real>, windowSizes: seq<int>): (r: Result<seq<int>>)
    ensures r.Err? <==> FlaggedIndices(scores) != [] && !HasSpan(windowSizes)
  {
    if FlaggedIndices(scores) != [] && !HasSpan(windowSizes) then
      Err(if |windowSizes| < 2 then IndexError else ZeroDivisionError)
    else
      Ok(seq(n, j requires 0 <= j < n => if NonwearAt(n, scores, windowSizes, j) then 1 else 0))
  }

  /** The three series of one day as `create_graph` returns them. */
  datatype DayGraph = DayGraph(acceleration: seq<real>, angle: seq<real>, nonWear: seq<int>)

  /** `abs(x * 1000)`. */
  function Magnitude(x: real): (m: real)
    ensures m >= 0.0 && (m == x * 1000.0 || m == -x * 1000.0)
  {
    if x < 0.0 then -x * 1000.0 else x * 1000.0
  }

  function Magnitudes(xs: seq<real>): (r: seq<real>)
    ensures |r| == |xs| && forall i :: 0 <= i < |xs| ==> r[i] == Magnitude(xs[i])
  {
    seq(|xs|, i requires 0 <= i < |xs| => Magnitude(xs[i]))
  }

  /** `np.array(acc) / 14 - 210`. */
  function Rescaled(xs: seq<real>): (r: seq<real>)
    ensures |r| == |xs| && forall i :: 0 <= i < |xs| ==> r[i] == xs[i] / 14.0 - 210.0
  {
    seq(|xs|, i requires 0 <= i < |xs| => xs[i] / 14.0 - 210.0)
  }

  /**
   * `extension + xs` for the first day, `xs + extension` for the last, `xs`
   * otherwise, where the extension is `n - width` copies of `fill`.
   */
  function Padded<T>(xs: seq<T>, fill: T, width: int, n: int, front: bool, back: bool): (r: seq<T>)
    ensures front ==> r == Repeat(fill, n - width) + xs
    ensures !front && back ==> r == xs + Repeat(fill, n - width)
    ensures !front && !back ==> r == xs
  {
    var extension := Repeat(fill, n - width);
    if front then extension + xs else if back then xs + extension else xs
  }

  /**
   * The day's three series from the `[start, end)` slices: the first day
   * (`start == 0`) is padded at the front, the last (`end` None) at the back,
   * by `n` less the acceleration slice's length.
   */
  function DayRow(enmo: seq<real>, anglez: seq<real>, nonwear: seq<int>, n: int, start: int, end: Option<int>): DayGraph {
    var acc := Magnitudes(Slice(enmo, start, end));
    var front, back := start == 0, start != 0 && end.None?;
    DayGraph(Rescaled(Padded(acc, 0.0, |acc|, n, front, back)),
             Padded(Slice(anglez, start, end), 0.0, |acc|, n, front, back),
             Padded(Slice(nonwear, start, end), 0, |acc|, n, front, back))
  }

  /** The day's series, following `create_graph` step by step; errors come in the order the source raises them. */
  function GraphOfDay(enmo: seq<real>, anglez: seq<real>, scores: seq<real>, windowSizes: seq<int>, midnights: seq<int>, day: int): (r: Result<DayGraph>)
    requires |windowSizes| > 0 && windowSizes[0] != 0 ==> DividesHour(windowSizes[0])
  {
    var nonwear := NonwearVector(|enmo|, scores, windowSizes);
    var n := GetNPointsPerDay(windowSizes);
    if nonwear.Err? then Err(nonwear.error)
    else if n.Err? then Err(n.error)
    else if |midnights| == 0 then Err(ValueError)
    else
      var bounds := DayBounds(midnights, day, windowSizes[0]);
      if bounds.Err? then Err(bounds.error)
      else Ok(DayRow(enmo, anglez, nonwear.value, n.value, bounds.value.0, bounds.value.1))
  }

  /**
   * `create_graph` for one day: the expanded non-wear vector, the number of
   * points per day, the day's bounds, the three slices and their padding.
   */
  method CreateGraph(enmo: seq<real>, anglez: seq<real>, scores: seq<real>, windowSizes: seq<int>, midnights: seq<int>, day: int)
    returns (r: Result<DayGraph>)
    requires |windowSizes| > 0 && windowSizes[0] != 0 ==> DividesHour(windowSizes[0])
    ensures r == GraphOfDay(enmo, anglez, scores, windowSizes, midnights, day)
  {
    var nonwear := ExpandNonwear(|enmo|, scores, windowSizes);
    if nonwear.Err? {
      return Err(nonwear.error);
    }
    assert nonwear.value == NonwearVector(|enmo|, scores, windowSizes).value;
    var n := GetNPointsPerDay(windowSizes);
    if n.Err? {
      return Err(n.error);
    }
    if |midnights| == 0 {
      return Err(ValueError);
    }
    var bounds := DayStartAndEnd(midnights, day, windowSizes[0]);
    if bounds.Err? {
      return Err(bounds.error);
    }
    var (start, end) := bounds.value;
    var acc := Magnitudes(Slice(enmo, start, end));
    var ang := Slice(anglez, start, end);
    var nonWear := Slice(nonwear.value, start, end);
    var extension := n.value - |acc|;
    if start == 0 {
      acc, ang, nonWear := Repeat(0.0, extension) + acc, Repeat(0.0, extension) + ang, Repeat(0, extension) + nonWear;
    } else if end.None? {
      acc, ang, nonWear := acc + Repeat(0.0, extension), ang + Repeat(0.0, extension), nonWear + Repeat(0, extension);
    }
    assert DayGraph(Rescaled(acc), ang, nonWear) == DayRow(enmo, anglez, nonwear.value, n.value, start, end);
    return Ok(DayGraph(Rescaled(acc), ang, nonWear));
  }

  /** One plotted acceleration point: `abs(x * 1000) / 14 - 210`. */
  function Plotted(x: real): real {
    Magnitude(x) / 14.0 - 210.0
  }

  /** Front padding: `n - |xs|` zeros, then `xs`, all rescaled. */
  lemma RescaledFrontPadding(xs: seq<real>, n: int)
    ensures var acc := Rescaled(Padded(xs, 0.0, |xs|, n, true, false));
      var pad := if |xs| < n then n - |xs| else 0;
      && |acc| == pad + |xs|
      && (forall i :: 0 <= i < pad ==> acc[i] == -210.0)
      && (forall j :: pad <= j < |acc| ==> acc[j] == xs[j - pad] / 14.0 - 210.0)
  {
    var extension := Repeat(0.0, n - |xs|);
    var padded := extension + xs;
    assert forall j :: 0 <= j < |extension| ==> padded[j] == 0.0;
    assert forall j :: |extension| <= j < |padded| ==> padded[j] == xs[j - |extension|];
  }

  /** Back padding: `xs`, then `n - |xs|` zeros, all rescaled. */
  lemma RescaledBackPadding(xs: seq<real>, n: int)
    ensures var acc := Rescaled(Padded(xs, 0.0, |xs|, n, false, true));
      var pad := if |xs| < n then n - |xs| else 0;
      && |acc| == |xs| + pad
      && (forall i :: 0 <= i < |xs| ==> acc[i] == xs[i] / 14.0 - 210.0)
      && (forall i :: |xs| <= i < |acc| ==> acc[i] == -210.0)
  {
    var padded := xs + Repeat(0.0, n - |xs|);
    assert forall i :: 0 <= i < |xs| ==> padded[i] == xs[i];
    assert forall i :: |xs| <= i < |padded| ==> padded[i] == 0.0;
  }

  /**
   * The points of the first day sit at the end of its row, after `n - len`
   * padding points plotted at -210; its angles and non-wear flags carry the
   * same padding in front.
   */
  lemma FirstDayIsFrontPadded(enmo: seq<real>, anglez: seq<real>, nonwear: seq<int>, n: int, end: Option<int>)
    ensures var acc := DayRow(enmo, anglez, nonwear, n, 0, end).acceleration;
      var raw := Slice(enmo, 0, end);
      var pad := if |raw| < n then n - |raw| else 0;
      && |acc| == pad + |raw|
      && (forall i :: 0 <= i < pad ==> acc[i] == -210.0)
      && (forall j :: pad <= j < |acc| ==> acc[j] == Plotted(raw[j - pad]))
    ensures var row := DayRow(enmo, anglez, nonwear, n, 0, end);
      var extension := n - |Slice(enmo, 0, end)|;
      && row.angle == Repeat(0.0, extension) + Slice(anglez, 0, end)
      && row.nonWear == Repeat(0, extension) + Slice(nonwear, 0, end)
  {
    var raw := Slice(enmo, 0, end);
    var mags := Magnitudes(raw);
    assert DayRow(enmo, anglez, nonwear, n, 0, end).acceleration == Rescaled(Padded(mags, 0.0, |mags|, n, true, false));
    RescaledFrontPadding(mags, n);
  }

  /**
   * The points of the last day sit at the start of its row, followed by
   * padding points plotted at -210; its angles and non-wear flags carry the
   * same padding at the back.
   */
  lemma LastDayIsBackPadded(enmo: seq<real>, anglez: seq<real>, nonwear: seq<int>, n: int, start: int)
    requires start != 0
    ensures var acc := DayRow(enmo, anglez, nonwear, n, start, None).acceleration;
      var raw := Slice(enmo, start, None);
      var pad := if |raw| < n then n - |raw| else 0;
      && |acc| == |raw| + pad
      && (forall i :: 0 <= i < |raw| ==> acc[i] == Plotted(raw[i]))
      && (forall i :: |raw| <= i < |acc| ==> acc[i] == -210.0)
    ensures var row := DayRow(enmo, anglez, nonwear, n, start, None);
      var extension := n - |Slice(enmo, start, None)|;
      && row.angle == Slice(anglez, start, None) + Repeat(0.0, extension)
      && row.nonWear == Slice(nonwear, start, None) + Repeat(0, extension)
  {
    var raw := Slice(enmo, start, None);
    var mags := Magnitudes(raw);
    assert DayRow(enmo, anglez, nonwear, n, start, None).acceleration == Rescaled(Padded(mags, 0.0, |mags|, n, false, true));
    RescaledBackPadding(mags, n);
  }

  /** A day between two midnights is its slice alone, unpadded, whatever `n` is. */
  lemma MiddleDayIsNotPadded(enmo: seq<real>, anglez: seq<real>, nonwear: seq<int>, n: int, start: int, end: int)
    requires start != 0
    ensures var row := DayRow(enmo, anglez, nonwear, n, start, Some(end));
      var raw := Slice(enmo, start, Some(end));
      && |row.acceleration| == |raw|
      && (forall i :: 0 <= i < |raw| ==> row.acceleration[i] == Plotted(raw[i]))
      && row.angle == Slice(anglez, start, Some(end))
      && row.nonWear == Slice(nonwear, start, Some(end))
  {
  }

  /** In the day's row the slice bounds come from `DayBounds`: the first day starts at 0 and the last has no end. */
  lemma GraphOfDayRow(enmo: seq<real>, anglez: seq<real>, scores: seq<real>, windowSizes: seq<int>, midnights: seq<int>, day: int)
    requires |windowSizes| > 0 && windowSizes[0] != 0 ==> DividesHour(windowSizes[0])
    requires GraphOfDay(enmo, anglez, scores, windowSizes, midnights, day).Ok?
    ensures |midnights| > 0 && PyIndex(|midnights| + 1, day).Some?
    ensures var b := DayBounds(midnights, day, windowSizes[0]).value;
      var k := PyIndex(|midnights| + 1, day).value;
      && GraphOfDay(enmo, anglez, scores, windowSizes, midnights, day).value
         == DayRow(enmo, anglez, NonwearVector(|enmo|, scores, windowSizes).value, SecondsPerDay / windowSizes[0], b.0, b.1)
      && (b.0 == 0 <==> k == 0 || midnights[k - 1] == 0)
      && (b.1.None? <==> k == |midnights|)
  {
  }
}
