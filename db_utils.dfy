/**
 * Creating a subject's records from its accelerometer timestamps: one datetime
 * per calendar date (the first one seen), sorted, and one `Day` per night with a
 * single default sleep window at the start of the next date.
 */
module DbUtils {
  import opened Wrappers
  import opened DateTimes
  import opened DbModels
  import DataImport

  /** No earlier datetime of the series falls on the date of `ts[i]`. */
  predicate IsFirstOfDate(ts: seq<DateTime>, i: nat)
    requires i < |ts|
  {
    forall j :: 0 <= j < i ==> Date(ts[j]) != Date(ts[i])
  }

  /** The positions below `hi` whose datetime is the first of its date, ascending. */
  function KeptIndices(ts: seq<DateTime>, hi: nat): (r: seq<nat>)
    requires hi <= |ts|
    ensures forall k :: 0 <= k < |r| ==> r[k] < hi && IsFirstOfDate(ts, r[k])
    ensures forall k, l :: 0 <= k < l < |r| ==> r[k] < r[l]
  {
    if hi == 0 then []
    else KeptIndices(ts, hi - 1) + (if IsFirstOfDate(ts, hi - 1) then [hi - 1] else [])
  }

  /** The datetimes below `hi` that are the first of their date, in input order. */
  function KeepFirst(ts: seq<DateTime>, hi: nat): (r: seq<DateTime>)
    requires hi <= |ts|
    ensures |r| == |KeptIndices(ts, hi)|
    ensures forall k :: 0 <= k < |r| ==> r[k] == ts[KeptIndices(ts, hi)[k]]
  {
    if hi == 0 then []
    else KeepFirst(ts, hi - 1) + (if IsFirstOfDate(ts, hi - 1) then [ts[hi - 1]] else [])
  }

  /** The dates of `ts[..hi]`. */
  function DatesBelow(ts: seq<DateTime>, hi: nat): (r: set<int>)
    requires hi <= |ts|
    ensures forall d :: d in r <==> exists j :: 0 <= j < hi && Date(ts[j]) == d
  {
    set j | 0 <= j < hi :: Date(ts[j])
  }

  /**
   * `_keep_first_unique_dates`: a set of the dates seen so far and the list of
   * kept datetimes, grown in one pass.
   */
  method KeepFirstUniqueDates(datetimes: seq<DateTime>) returns (result: seq<DateTime>)
    ensures result == KeepFirst(datetimes, |datetimes|)
  {
    var uniqueDates: set<int> := {};
    result := [];
    for i := 0 to |datetimes|
      invariant uniqueDates == DatesBelow(datetimes, i)
      invariant result == KeepFirst(datetimes, i)
    {
      var dt := datetimes[i];
      var dtDate := Date(dt);
      if dtDate !in uniqueDates {
        uniqueDates := uniqueDates + {dtDate};
        result := result + [dt];
      }
    }
  }

  /** Pairwise-distinct calendar dates. */
  predicate DistinctDates(s: seq<DateTime>) {
    forall i, j :: 0 <= i < j < |s| ==> Date(s[i]) != Date(s[j])
  }

  /** The kept datetimes have pairwise-distinct dates. */
  lemma KeepFirstDistinct(ts: seq<DateTime>)
    ensures DistinctDates(KeepFirst(ts, |ts|))
  {
    var r, idx := KeepFirst(ts, |ts|), KeptIndices(ts, |ts|);
    forall i, j | 0 <= i < j < |r| ensures Date(r[i]) != Date(r[j]) {
      assert idx[i] < idx[j] && IsFirstOfDate(ts, idx[j]);
    }
  }

  /** A first-of-date position below `hi` is kept. */
  lemma {:induction false} KeptIndicesComplete(ts: seq<DateTime>, hi: nat, i: nat)
    requires hi <= |ts| && i < hi && IsFirstOfDate(ts, i)
    ensures i in KeptIndices(ts, hi)
    decreases hi
  {
    if i < hi - 1 {
      KeptIndicesComplete(ts, hi - 1, i);
    } else {
      assert KeptIndices(ts, hi) == KeptIndices(ts, hi - 1) + [i];
    }
  }

  /** Every date of the series has a first occurrence at or before any of its positions. */
  lemma {:induction false} FirstOccurrence(ts: seq<DateTime>, i: nat) returns (f: nat)
    requires i < |ts|
    ensures f <= i && Date(ts[f]) == Date(ts[i]) && IsFirstOfDate(ts, f)
    decreases i
  {
    if IsFirstOfDate(ts, i) {
      f := i;
    } else {
      var j :| 0 <= j < i && Date(ts[j]) == Date(ts[i]);
      f := FirstOccurrence(ts, j);
    }
  }

  /** Every date of the input is the date of exactly one kept datetime, the first of that date. */
  lemma KeepFirstCovers(ts: seq<DateTime>, i: nat)
    requires i < |ts|
    ensures exists k :: (0 <= k < |KeepFirst(ts, |ts|)| && Date(KeepFirst(ts, |ts|)[k]) == Date(ts[i])
                         && KeptIndices(ts, |ts|)[k] <= i)
  {
    var f := FirstOccurrence(ts, i);
    KeptIndicesComplete(ts, |ts|, f);
    var idx := KeptIndices(ts, |ts|);
    var k :| 0 <= k < |idx| && idx[k] == f;
    assert KeepFirst(ts, |ts|)[k] == ts[f];
  }

  /** Every datetime carries a UTC offset, as `%z` timestamps do. */
  predicate AllAware(s: seq<DateTime>) {
    forall i :: 0 <= i < |s| ==> IsAware(s[i])
  }

  /** What Python compares datetimes of one kind by: the instant of aware ones, the wall clock of naive ones. */
  function SortKey(t: DateTime): (k: int)
    ensures IsAware(t) ==> k == Instant(t)
  {
    if IsAware(t) then Instant(t) else t.local
  }

  /** Ascending by `SortKey`. */
  predicate SortedByKey(s: seq<DateTime>) {
    forall i, j :: 0 <= i < j < |s| ==> SortKey(s[i]) <= SortKey(s[j])
  }

  /** `x` placed after every element not later than it: one step of a stable insertion sort. */
  function InsertByKey(s: seq<DateTime>, x: DateTime): (r: seq<DateTime>)
    ensures multiset(r) == multiset(s) + multiset{x}
  {
    if s == [] then [x]
    else if SortKey(x) < SortKey(s[0]) then [x] + s
    else
      assert s == [s[0]] + s[1..];
      [s[0]] + InsertByKey(s[1..], x)
  }

  /** Each element after an insertion is the inserted one or was there before. */
  lemma InsertMembers(s: seq<DateTime>, x: DateTime, y: DateTime)
    requires y in InsertByKey(s, x)
    ensures y == x || exists j :: 0 <= j < |s| && s[j] == y
  {
    assert y in multiset(InsertByKey(s, x));
    if y != x {
      assert y in multiset(s);
    }
  }

  /** Inserting into a sorted sequence keeps it sorted. */
  lemma {:induction false} InsertKeepsSorted(s: seq<DateTime>, x: DateTime)
    requires SortedByKey(s)
    ensures SortedByKey(InsertByKey(s, x))
  {
    if s != [] && SortKey(x) >= SortKey(s[0]) {
      var rest := InsertByKey(s[1..], x);
      InsertKeepsSorted(s[1..], x);
      forall j | 0 <= j < |rest| ensures SortKey(s[0]) <= SortKey(rest[j]) {
        InsertMembers(s[1..], x, rest[j]);
      }
      ConsSorted(s[0], rest);
    }
  }

  lemma ConsSorted(a: DateTime, rest: seq<DateTime>)
    requires SortedByKey(rest) && forall j :: 0 <= j < |rest| ==> SortKey(a) <= SortKey(rest[j])
    ensures SortedByKey([a] + rest)
  {
    var r := [a] + rest;
    forall i, j | 0 <= i < j < |r| ensures SortKey(r[i]) <= SortKey(r[j]) {
      assert r[j] == rest[j - 1];
      if i > 0 {
        assert r[i] == rest[i - 1];
      }
    }
  }

  /** `sorted(...)`: a permutation of the datetimes in ascending order. */
  function SortByKey(s: seq<DateTime>): (r: seq<DateTime>)
    ensures multiset(r) == multiset(s) && SortedByKey(r)
  {
    if s == [] then []
    else
      assert s == s[..|s| - 1] + [s[|s| - 1]];
      var init := SortByKey(s[..|s| - 1]);
      InsertKeepsSorted(init, s[|s| - 1]);
      InsertByKey(init, s[|s| - 1])
  }

  /** Inserting a datetime of a new date keeps the dates distinct. */
  lemma {:induction false} InsertKeepsDistinct(s: seq<DateTime>, x: DateTime)
    requires DistinctDates(s)
    requires forall y :: y in s ==> Date(y) != Date(x)
    ensures DistinctDates(InsertByKey(s, x))
  {
    if s != [] && SortKey(x) >= SortKey(s[0]) {
      var rest := InsertByKey(s[1..], x);
      InsertKeepsDistinct(s[1..], x);
      forall j | 0 <= j < |rest| ensures Date(s[0]) != Date(rest[j]) {
        InsertMembers(s[1..], x, rest[j]);
      }
      ConsDistinct(s[0], rest);
    }
  }

  lemma ConsDistinct(a: DateTime, rest: seq<DateTime>)
    requires DistinctDates(rest) && forall j :: 0 <= j < |rest| ==> Date(a) != Date(rest[j])
    ensures DistinctDates([a] + rest)
  {
    var r := [a] + rest;
    forall i, j | 0 <= i < j < |r| ensures Date(r[i]) != Date(r[j]) {
      assert r[j] == rest[j - 1];
      if i > 0 {
        assert r[i] == rest[i - 1];
      }
    }
  }

  /** Sorting keeps the dates distinct. */
  lemma {:induction false} SortKeepsDistinct(s: seq<DateTime>)
    requires DistinctDates(s)
    ensures DistinctDates(SortByKey(s))
  {
    if s != [] {
      var init := s[..|s| - 1];
      SortKeepsDistinct(init);
      var sorted := SortByKey(init);
      forall y | y in sorted ensures Date(y) != Date(s[|s| - 1]) {
        assert y in multiset(init);
        var j :| 0 <= j < |init| && init[j] == y;
      }
      InsertKeepsDistinct(sorted, s[|s| - 1]);
    }
  }

  /** `t.utcoffset() or timedelta()`, in seconds. */
  function OffsetOrZero(t: DateTime): int {
    if t.offset.Some? then t.offset.value else 0
  }

  /**
   * The default sleep window of a night: `DEFAULT_SLEEP_TIME` UTC on the next
   * date, plus the next kept datetime's offset, which both offset columns store.
   */
  function DefaultSleep(day: DateTime, next: DateTime, sleepTime: nat): (st: SleepTime)
    requires sleepTime < SecondsPerDay
    ensures st.onset == st.wakeup && st.onset.offset == Some(0)
    ensures st.onsetUtcOffset == st.wakeupUtcOffset == OffsetOrZero(next)
    ensures Instant(st.onset) == (Date(day) + 1) * SecondsPerDay + sleepTime + OffsetOrZero(next)
  {
    var offset := OffsetOrZero(next);
    var at := AddSeconds(Combine(Date(day) + 1, sleepTime, Some(0)), offset);
    SleepTime(at, offset, at, offset)
  }

  /** The `Day` of a night: its date and its one default sleep window. */
  function NightOf(day: DateTime, next: DateTime, sleepTime: nat): Day
    requires sleepTime < SecondsPerDay
  {
    NewDay(Date(day), [DefaultSleep(day, next, sleepTime)])
  }

  /** The nights of `dates[..count]`, each paired with the datetime after it. */
  function NightsUpTo(dates: seq<DateTime>, count: nat, sleepTime: nat): (r: seq<Day>)
    requires count < |dates| && sleepTime < SecondsPerDay
    ensures |r| == count
    ensures forall i :: 0 <= i < count ==> r[i] == NightOf(dates[i], dates[i + 1], sleepTime)
  {
    if count == 0 then [] else NightsUpTo(dates, count - 1, sleepTime) + [NightOf(dates[count - 1], dates[count], sleepTime)]
  }

  /** `day_models[:-1]` of the `len(dates) - 1` nights built: every date but the last two opens a night. */
  function SubjectDays(dates: seq<DateTime>, sleepTime: nat): (r: seq<Day>)
    requires sleepTime < SecondsPerDay
    ensures |r| == if |dates| >= 2 then |dates| - 2 else 0
    ensures forall i :: 0 <= i < |r| ==> r[i] == NightOf(dates[i], dates[i + 1], sleepTime)
  {
    if |dates| <= 1 then [] else
      var built := NightsUpTo(dates, |dates| - 1, sleepTime);
      built[..|built| - 1]
  }

  /** `initialize_subject`, with the metadata's timestamps and window sizes given. */
  function SubjectFor(identifier: string, rawDates: seq<DateTime>, windowSizes: seq<int>, sleepTime: nat): (r: Result<Subject>)
    requires AllAware(rawDates) && sleepTime < SecondsPerDay
  {
    var n := DataImport.GetNPointsPerDay(windowSizes);
    if n.Err? then Err(n.error)
    else Ok(NewSubject(identifier, SubjectDays(SortByKey(KeepFirst(rawDates, |rawDates|)), sleepTime), n.value))
  }

  /**
   * `initialize_subject`: the distinct dates, sorted, one `Day` appended per
   * consecutive pair, the last one dropped, and `86400 // windowsizes[0]` points
   * per day.
   */
  method InitializeSubject(identifier: string, rawDates: seq<DateTime>, windowSizes: seq<int>, sleepTime: nat)
    returns (r: Result<Subject>)
    requires AllAware(rawDates) && sleepTime < SecondsPerDay
    ensures r == SubjectFor(identifier, rawDates, windowSizes, sleepTime)
  {
    var unique := KeepFirstUniqueDates(rawDates);
    var dates := SortByKey(unique);
    var dayModels := BuildNights(dates, sleepTime);
    var n := DataImport.GetNPointsPerDay(windowSizes);
    if n.Err? {
      return Err(n.error);
    }
    var days := if |dayModels| == 0 then [] else dayModels[..|dayModels| - 1];
    assert days == SubjectDays(dates, sleepTime);
    r := Ok(NewSubject(identifier, days, n.value));
  }

  /** The loop of `initialize_subject`: one `Day` appended per consecutive pair of dates. */
  method BuildNights(dates: seq<DateTime>, sleepTime: nat) returns (dayModels: seq<Day>)
    requires sleepTime < SecondsPerDay
    ensures |dates| == 0 ==> dayModels == []
    ensures |dates| > 0 ==> dayModels == NightsUpTo(dates, |dates| - 1, sleepTime)
  {
    dayModels := [];
    var dayIndex := 0;
    while dayIndex < |dates| - 1
      invariant 0 <= dayIndex <= if |dates| == 0 then 0 else |dates| - 1
      invariant dayModels == if |dates| == 0 then [] else NightsUpTo(dates, dayIndex, sleepTime)
    {
      var dayModel := NewNight(dates[dayIndex], dates[dayIndex + 1], sleepTime);
      dayModels := dayModels + [dayModel];
      dayIndex := dayIndex + 1;
    }
  }

  /** The body of that loop: the day's record and its default sleep window. */
  method NewNight(day: DateTime, next: DateTime, sleepTime: nat) returns (dayModel: Day)
    requires sleepTime < SecondsPerDay
    ensures dayModel == NightOf(day, next, sleepTime)
  {
    var utcOffset := if next.offset.Some? then next.offset.value else 0;
    var at := AddSeconds(Combine(Date(day) + 1, sleepTime, Some(0)), utcOffset);
    dayModel := NewDay(Date(day), [SleepTime(at, utcOffset, at, utcOffset)]);
  }

  /** One `Day` per distinct date but the last two: `max(0, len(dates) - 2)` of them. */
  lemma SubjectDayCount(identifier: string, rawDates: seq<DateTime>, windowSizes: seq<int>, sleepTime: nat)
    requires AllAware(rawDates) && sleepTime < SecondsPerDay
    requires SubjectFor(identifier, rawDates, windowSizes, sleepTime).Ok?
    ensures var dates := KeepFirst(rawDates, |rawDates|);
      |SubjectFor(identifier, rawDates, windowSizes, sleepTime).value.days| == if |dates| >= 2 then |dates| - 2 else 0
  {
    var kept := KeepFirst(rawDates, |rawDates|);
    assert |SortByKey(kept)| == |kept| by {
      assert |multiset(SortByKey(kept))| == |multiset(kept)|;
    }
  }

  /**
   * Night `i` is the `i`-th sorted distinct date: its date, its flags at their
   * defaults, one sleep window whose onset equals its wakeup at
   * `DEFAULT_SLEEP_TIME` UTC on the next date plus the offset of the next
   * datetime, which both offsets store.
   */
  lemma SubjectNights(dates: seq<DateTime>, sleepTime: nat, i: nat)
    requires sleepTime < SecondsPerDay && i + 2 < |dates|
    ensures var days := SubjectDays(dates, sleepTime);
      && i < |days|
      && days[i].date == Date(dates[i])
      && !days[i].isMissingSleep && !days[i].isMultipleSleep && !days[i].isReviewed
      && |days[i].sleepTimes| == 1
      && days[i].sleepTimes[0].onset == days[i].sleepTimes[0].wakeup
      && days[i].sleepTimes[0].onset.offset == Some(0)
      && Instant(days[i].sleepTimes[0].onset) == (Date(dates[i]) + 1) * SecondsPerDay + sleepTime + OffsetOrZero(dates[i + 1])
      && days[i].sleepTimes[0].onsetUtcOffset == days[i].sleepTimes[0].wakeupUtcOffset == OffsetOrZero(dates[i + 1])
  {
    var days := SubjectDays(dates, sleepTime);
    assert days[i] == NightOf(dates[i], dates[i + 1], sleepTime);
  }

  /**
   * Once stored (wall clock kept, zone dropped) and shown by `onset_with_tz`,
   * the default onset reads `DEFAULT_SLEEP_TIME` on the next date shifted by
   * twice the next date's offset: once when it was built, once when shown.
   */
  lemma DefaultSleepShown(day: DateTime, next: DateTime, sleepTime: nat)
    requires sleepTime < SecondsPerDay
    ensures var st := DefaultSleep(day, next, sleepTime);
      var stored := SleepTime(Stored(st.onset), st.onsetUtcOffset, Stored(st.wakeup), st.wakeupUtcOffset);
      OnsetWithTz(stored).local == (Date(day) + 1) * SecondsPerDay + sleepTime + 2 * OffsetOrZero(next)
  {
  }

  /** Datetimes of one offset in ascending order with distinct dates have ascending dates. */
  lemma {:induction false} SameOffsetDatesAscend(dates: seq<DateTime>, offset: int, i: nat, j: nat)
    requires SortedByKey(dates) && DistinctDates(dates)
    requires forall k :: 0 <= k < |dates| ==> dates[k].offset == Some(offset)
    requires i < j < |dates|
    ensures Date(dates[i]) < Date(dates[j])
  {
    assert SortKey(dates[i]) <= SortKey(dates[j]);
    assert dates[i].local <= dates[j].local;
  }

  /** The sorted kept datetimes of a series with one offset: ascending, distinct dates, that offset. */
  lemma SortedKeptOfOneOffset(rawDates: seq<DateTime>, offset: int)
    requires forall i :: 0 <= i < |rawDates| ==> rawDates[i].offset == Some(offset)
    ensures var dates := SortByKey(KeepFirst(rawDates, |rawDates|));
      && SortedByKey(dates) && DistinctDates(dates)
      && forall k :: 0 <= k < |dates| ==> dates[k].offset == Some(offset)
  {
    var kept := KeepFirst(rawDates, |rawDates|);
    forall k | 0 <= k < |kept| ensures kept[k].offset == Some(offset) {
      assert kept[k] == rawDates[KeptIndices(rawDates, |rawDates|)[k]];
    }
    var dates := SortByKey(kept);
    KeepFirstDistinct(rawDates);
    SortKeepsDistinct(kept);
    forall k | 0 <= k < |dates| ensures dates[k].offset == Some(offset) {
      assert dates[k] in multiset(kept);
      var l :| 0 <= l < |kept| && kept[l] == dates[k];
    }
  }

  /** With one offset throughout, the nights' dates ascend strictly. */
  lemma NightsAscend(identifier: string, rawDates: seq<DateTime>, windowSizes: seq<int>, sleepTime: nat, offset: int)
    requires forall i :: 0 <= i < |rawDates| ==> rawDates[i].offset == Some(offset)
    requires sleepTime < SecondsPerDay
    requires SubjectFor(identifier, rawDates, windowSizes, sleepTime).Ok?
    ensures var days := SubjectFor(identifier, rawDates, windowSizes, sleepTime).value.days;
      forall i, j :: 0 <= i < j < |days| ==> days[i].date < days[j].date
  {
    var dates := SortByKey(KeepFirst(rawDates, |rawDates|));
    SortedKeptOfOneOffset(rawDates, offset);
    var days := SubjectDays(dates, sleepTime);
    assert days == SubjectFor(identifier, rawDates, windowSizes, sleepTime).value.days;
    forall i, j | 0 <= i < j < |days| ensures days[i].date < days[j].date {
      assert days[i] == NightOf(dates[i], dates[i + 1], sleepTime);
      assert days[j] == NightOf(dates[j], dates[j + 1], sleepTime);
      SameOffsetDatesAscend(dates, offset, i, j);
    }
  }
}
