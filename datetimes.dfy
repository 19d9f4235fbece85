/**
 * Python `datetime` values at one-second resolution.  A datetime is its wall-clock
 * reading, in seconds since midnight of the day before 0001-01-01 (so its date is the
 * ordinal `local / 86400`), together with its UTC offset in seconds when it is aware
 * (`tzinfo` a fixed-offset timezone) or `None` when it is naive.
 */
module DateTimes {
  import opened Wrappers
  import opened Text
  import Calendar

  const SecondsPerDay: int := 86400

  datatype DateTime = DateTime(local: int, offset: Option<int>)

  /** `t.date().toordinal()`. */
  function Date(t: DateTime): int {
    t.local / SecondsPerDay
  }

  /** Seconds since midnight of the wall-clock reading. */
  function TimeOfDay(t: DateTime): (s: nat)
    ensures s < SecondsPerDay
    ensures Date(t) * SecondsPerDay + s == t.local
  {
    t.local % SecondsPerDay
  }

  function Hour(t: DateTime): (h: nat)
    ensures h < 24
  {
    TimeOfDay(t) / 3600
  }

  function Minute(t: DateTime): (m: nat)
    ensures m < 60
  {
    TimeOfDay(t) % 3600 / 60
  }

  function Second(t: DateTime): (s: nat)
    ensures s < 60
  {
    TimeOfDay(t) % 60
  }

  function Year(t: DateTime): int {
    Calendar.OrdToYmd(Date(t)).year
  }

  predicate IsAware(t: DateTime) {
    t.offset.Some?
  }

  /** The UTC reading, in seconds, of an aware datetime. */
  function Instant(t: DateTime): int
    requires IsAware(t)
  {
    t.local - t.offset.value
  }

  /** What Python can represent: years 1 to 9999, offsets strictly within a day. */
  predicate InRange(t: DateTime) {
    1 <= Year(t) <= 9999 && (t.offset.Some? ==> -SecondsPerDay < t.offset.value < SecondsPerDay)
  }

  /** `datetime.combine(date, time, tzinfo)` for a time given in seconds since midnight. */
  function Combine(date: int, timeOfDay: int, tz: Option<int>): (t: DateTime)
    requires 0 <= timeOfDay < SecondsPerDay
    ensures Date(t) == date && TimeOfDay(t) == timeOfDay && t.offset == tz
  {
    DateTime(date * SecondsPerDay + timeOfDay, tz)
  }

  /** `t + timedelta(seconds=s)`: wall-clock arithmetic that keeps the `tzinfo`. */
  function AddSeconds(t: DateTime, s: int): (r: DateTime)
    ensures r.offset == t.offset && r.local - t.local == s
    ensures IsAware(t) ==> Instant(r) == Instant(t) + s
  {
    DateTime(t.local + s, t.offset)
  }

  /** `t.replace(tzinfo=tz)`: the same wall-clock reading with another zone. */
  function ReplaceTz(t: DateTime, tz: Option<int>): (r: DateTime)
    ensures r.local == t.local && r.offset == tz
  {
    DateTime(t.local, tz)
  }

  /**
   * `t.astimezone(timezone(timedelta(seconds=target)))`.  A naive `t` is read as
   * local time of the host, whose UTC offset is `hostOffset`.
   */
  function AsTimezone(t: DateTime, target: int, hostOffset: int): (r: DateTime)
    ensures r.offset == Some(target)
    ensures Instant(r) == if IsAware(t) then Instant(t) else t.local - hostOffset
  {
    var instant := if IsAware(t) then Instant(t) else t.local - hostOffset;
    DateTime(instant + target, Some(target))
  }

  /** `a == b`: aware datetimes compare instants, naive ones wall-clock readings, and a naive one never equals an aware one. */
  predicate PyEq(a: DateTime, b: DateTime) {
    if IsAware(a) && IsAware(b) then Instant(a) == Instant(b)
    else if !IsAware(a) && !IsAware(b) then a.local == b.local
    else false
  }

  /** `(a - b).total_seconds()`; mixing a naive and an aware datetime raises TypeError. */
  function Sub(a: DateTime, b: DateTime): (r: Result<int>)
    ensures r.Err? <==> IsAware(a) != IsAware(b)
    ensures r.Ok? ==> (r.value == 0 <==> PyEq(a, b))
  {
    if IsAware(a) != IsAware(b) then Err(TypeError)
    else if IsAware(a) then Ok(Instant(a) - Instant(b))
    else Ok(a.local - b.local)
  }

  /** `YYYY-MM-DD<sep>HH:MM:SS`. */
  function ClockText(year: nat, month: nat, day: nat, hour: nat, minute: nat, second: nat, sep: char): string {
    DateText(year, month, day) + [sep] + TimeText(hour, minute, second)
  }

  /** `YYYY-MM-DD`. */
  function DateText(year: nat, month: nat, day: nat): string {
    PaddedNat(year, 4) + "-" + PaddedNat(month, 2) + "-" + PaddedNat(day, 2)
  }

  /** `HH:MM:SS`. */
  function TimeText(hour: nat, minute: nat, second: nat): string {
    PaddedNat(hour, 2) + ":" + PaddedNat(minute, 2) + ":" + PaddedNat(second, 2)
  }

  /** `±HHMM`, or `±HH:MM` with `colon`. */
  function ZoneText(negative: bool, hours: nat, minutes: nat, colon: bool): string {
    (if negative then "-" else "+") + PaddedNat(hours, 2) + (if colon then ":" else "") + PaddedNat(minutes, 2)
  }

  /** A UTC offset as `%z` writes it, seconds appended when it has any. */
  function OffsetText(offset: int, colon: bool): string
    requires -SecondsPerDay < offset < SecondsPerDay
  {
    var a := if offset < 0 then -offset else offset;
    ZoneText(offset < 0, a / 3600, a % 3600 / 60, colon)
    + (if a % 60 != 0 then (if colon then ":" else "") + PaddedNat(a % 60, 2) else "")
  }

  /**
   * `YYYY-MM-DD<sep>HH:MM:SS` followed by the UTC offset of an aware datetime as
   * `±HHMM` (or `±HH:MM` with `colon`), seconds appended when the offset has any.
   * With `sep == 'T'` and no colon this is the `%Y-%m-%dT%H:%M:%S%z` timestamp
   * format of the accelerometer metadata; with `' '` and a colon it is `str(t)`.
   */
  function Render(t: DateTime, sep: char, colon: bool): (s: string)
    requires InRange(t)
  {
    var d := Calendar.OrdToYmd(Date(t));
    ClockText(d.year, d.month, d.day, Hour(t), Minute(t), Second(t), sep)
    + (if t.offset.Some? then OffsetText(t.offset.value, colon) else "")
  }

  /** The fields of a timestamp text, as written. */
  datatype Stamp = Stamp(year: nat, month: nat, day: nat, hour: nat, minute: nat, second: nat,
                         negative: bool, offsetHours: nat, offsetMinutes: nat)

  /** The number written in `s[lo..hi]`, when that is all decimal digits. */
  function Field(s: string, lo: nat, hi: nat): (r: Option<nat>)
    requires lo <= hi <= |s|
    ensures r.Some? <==> AllDigits(s[lo..hi])
    ensures r.Some? ==> r.value == DigitsValue(s[lo..hi])
  {
    if AllDigits(s[lo..hi]) then Some(DigitsValue(s[lo..hi])) else None
  }

  /** Whether `s` has the separators of `YYYY-MM-DD<sep>HH:MM:SS±HHMM` (`±HH:MM` with `colon`). */
  predicate Layout(s: string, sep: char, colon: bool) {
    |s| == (if colon then 25 else 24) && s[4] == '-' && s[7] == '-' && s[10] == sep && s[13] == ':'
    && s[16] == ':' && (s[19] == '+' || s[19] == '-') && (colon ==> s[22] == ':')
  }

  /** Reads the numeric fields of a text with the timestamp layout. */
  function Scan(s: string, sep: char, colon: bool): (r: Option<Stamp>)
  {
    if !Layout(s, sep, colon) then None
    else
      var year, month, day := Field(s, 0, 4), Field(s, 5, 7), Field(s, 8, 10);
      var hour, minute, second := Field(s, 11, 13), Field(s, 14, 16), Field(s, 17, 19);
      var offsetHours, offsetMinutes := Field(s, 20, 22), Field(s, |s| - 2, |s|);
      if year == None || month == None || day == None || hour == None || minute == None
         || second == None || offsetHours == None || offsetMinutes == None then None
      else
        Some(Stamp(year.value, month.value, day.value, hour.value, minute.value, second.value,
                   s[19] == '-', offsetHours.value, offsetMinutes.value))
  }

  /** The datetime the fields denote; None where `strptime` rejects a field as out of range. */
  function FromStamp(st: Stamp): (r: Option<DateTime>)
    ensures r.Some? ==> IsAware(r.value) && InRange(r.value) && r.value.offset.value % 60 == 0
  {
    var d := Calendar.Ymd(st.year, st.month, st.day);
    if !(1 <= st.year <= 9999 && 1 <= st.month <= 12) || !Calendar.ValidDate(d) || st.hour >= 24
       || st.minute >= 60 || st.second >= 60 || st.offsetHours >= 24 || st.offsetMinutes >= 60 then None
    else
      var a := (st.offsetHours * 60 + st.offsetMinutes) * 60;
      var date := Calendar.YmdToOrd(d);
      var t := Combine(date, st.hour * 3600 + st.minute * 60 + st.second, Some(if st.negative then -a else a));
      Calendar.OrdToYmdOfYmdToOrd(d);
      WholeMinutes(st.offsetHours * 60 + st.offsetMinutes);
      Some(t)
  }

  /**
   * Parses the fixed-width form `YYYY-MM-DD<sep>HH:MM:SS±HHMM` (`±HH:MM` with
   * `colon`): None for anything else and for a field out of range, as `strptime`
   * raises ValueError for them.
   */
  function Parse(s: string, sep: char, colon: bool): (r: Option<DateTime>)
    ensures r.Some? ==> IsAware(r.value) && InRange(r.value) && r.value.offset.value % 60 == 0
  {
    var st := Scan(s, sep, colon);
    if st.Some? then FromStamp(st.value) else None
  }

  /** The fields of an aware datetime. */
  function ToStamp(t: DateTime): Stamp
    requires InRange(t) && IsAware(t)
  {
    var d := Calendar.OrdToYmd(Date(t));
    var o := t.offset.value;
    var a := if o < 0 then -o else o;
    Stamp(d.year, d.month, d.day, Hour(t), Minute(t), Second(t), o < 0, a / 3600, a % 3600 / 60)
  }

  /** The text of the fields in the timestamp layout. */
  function StampText(st: Stamp, sep: char, colon: bool): string {
    ClockText(st.year, st.month, st.day, st.hour, st.minute, st.second, sep)
    + ZoneText(st.negative, st.offsetHours, st.offsetMinutes, colon)
  }

  lemma RenderAsStamp(t: DateTime, sep: char, colon: bool)
    requires InRange(t) && IsAware(t) && t.offset.value % 60 == 0
    ensures Render(t, sep, colon) == StampText(ToStamp(t), sep, colon)
  {
    var st := ToStamp(t);
    OffsetTextOfWholeMinutes(t.offset.value, colon);
    assert OffsetText(t.offset.value, colon) == ZoneText(st.negative, st.offsetHours, st.offsetMinutes, colon);
  }

  /** A whole-minute offset is written without seconds. */
  lemma OffsetTextOfWholeMinutes(o: int, colon: bool)
    requires -SecondsPerDay < o < SecondsPerDay && o % 60 == 0
    ensures var a := if o < 0 then -o else o;
      OffsetText(o, colon) == ZoneText(o < 0, a / 3600, a % 3600 / 60, colon)
  {
    var a := if o < 0 then -o else o;
    assert a % 60 == 0;
    assert OffsetText(o, colon) == ZoneText(o < 0, a / 3600, a % 3600 / 60, colon) + "";
  }

  /** Where each field sits in the text of a clock reading whose fields fit their widths. */
  lemma ClockTextLayout(year: nat, month: nat, day: nat, hour: nat, minute: nat, second: nat, sep: char)
    requires year < 10000 && month < 100 && day < 100 && hour < 100 && minute < 100 && second < 100
    ensures var c := ClockText(year, month, day, hour, minute, second, sep);
      && |c| == 19 && c[4] == '-' && c[7] == '-' && c[10] == sep && c[13] == ':' && c[16] == ':'
      && c[0..4] == PaddedNat(year, 4) && c[5..7] == PaddedNat(month, 2) && c[8..10] == PaddedNat(day, 2)
      && c[11..13] == PaddedNat(hour, 2) && c[14..16] == PaddedNat(minute, 2) && c[17..19] == PaddedNat(second, 2)
  {
    var d, t := DateText(year, month, day), TimeText(hour, minute, second);
    DateTextLayout(year, month, day);
    TimeTextLayout(hour, minute, second);
    var c := d + [sep] + t;
    assert c[0..10] == d && c[11..19] == t;
    SubSlice(c, 0, 10, 0, 4);
    SubSlice(c, 0, 10, 5, 7);
    SubSlice(c, 0, 10, 8, 10);
    SubSlice(c, 11, 19, 0, 2);
    SubSlice(c, 11, 19, 3, 5);
    SubSlice(c, 11, 19, 6, 8);
  }

  /** Where the fields sit in `YYYY-MM-DD`. */
  lemma DateTextLayout(year: nat, month: nat, day: nat)
    requires year < 10000 && month < 100 && day < 100
    ensures var d := DateText(year, month, day);
      && |d| == 10 && d[4] == '-' && d[7] == '-'
      && d[0..4] == PaddedNat(year, 4) && d[5..7] == PaddedNat(month, 2) && d[8..10] == PaddedNat(day, 2)
  {
    assert Power10(2) == 100 && Power10(4) == 10000;
    FieldsOfThree(PaddedNat(year, 4), '-', PaddedNat(month, 2), '-', PaddedNat(day, 2), 4, 2, 2);
  }

  /** Where the fields sit in `HH:MM:SS`. */
  lemma TimeTextLayout(hour: nat, minute: nat, second: nat)
    requires hour < 100 && minute < 100 && second < 100
    ensures var t := TimeText(hour, minute, second);
      && |t| == 8 && t[2] == ':' && t[5] == ':'
      && t[0..2] == PaddedNat(hour, 2) && t[3..5] == PaddedNat(minute, 2) && t[6..8] == PaddedNat(second, 2)
  {
    assert Power10(2) == 100;
    FieldsOfThree(PaddedNat(hour, 2), ':', PaddedNat(minute, 2), ':', PaddedNat(second, 2), 2, 2, 2);
  }

  /** Where the parts of `a + [x] + b + [y] + c` sit, for parts of the given lengths. */
  lemma FieldsOfThree(a: string, x: char, b: string, y: char, c: string, la: nat, lb: nat, lc: nat)
    requires |a| == la && |b| == lb && |c| == lc
    ensures var s := a + [x] + b + [y] + c;
      && |s| == la + lb + lc + 2 && s[la] == x && s[la + 1 + lb] == y
      && s[0..la] == a && s[la + 1..la + 1 + lb] == b && s[la + lb + 2..] == c
  {
    var s := a + [x] + b + [y] + c;
    assert s[0..la] == a;
    assert s[la + 1..la + 1 + lb] == b;
    assert s[la + lb + 2..] == c;
  }

  /** A slice of a slice is a slice. */
  lemma SubSlice(s: string, i: nat, j: nat, k: nat, l: nat)
    requires i <= j <= |s| && k <= l <= j - i
    ensures s[i..j][k..l] == s[i + k..i + l]
  {
    assert forall m :: 0 <= m < l - k ==> s[i..j][k..l][m] == s[i + k + m];
  }

  /** Where each field sits in the text of an offset whose fields fit their widths. */
  lemma ZoneTextLayout(negative: bool, hours: nat, minutes: nat, colon: bool)
    requires hours < 100 && minutes < 100
    ensures var z := ZoneText(negative, hours, minutes, colon);
      && |z| == (if colon then 6 else 5) && z[0] == (if negative then '-' else '+')
      && (colon ==> z[3] == ':') && z[1..3] == PaddedNat(hours, 2) && z[|z| - 2..] == PaddedNat(minutes, 2)
  {
    assert Power10(2) == 100;
  }

  /** Scanning the text of fields that fit their widths gives the fields back. */
  lemma ScanOfStampText(st: Stamp, sep: char, colon: bool)
    requires st.year < 10000 && st.month < 100 && st.day < 100 && st.hour < 100 && st.minute < 100
    requires st.second < 100 && st.offsetHours < 100 && st.offsetMinutes < 100
    ensures Scan(StampText(st, sep, colon), sep, colon) == Some(st)
  {
    StampTextLayout(st, sep, colon);
  }

  /** Where each field sits in the text of fields that fit their widths. */
  lemma StampTextLayout(st: Stamp, sep: char, colon: bool)
    requires st.year < 10000 && st.month < 100 && st.day < 100 && st.hour < 100 && st.minute < 100
    requires st.second < 100 && st.offsetHours < 100 && st.offsetMinutes < 100
    ensures var s := StampText(st, sep, colon);
      && Layout(s, sep, colon) && s[19] == (if st.negative then '-' else '+')
      && s[0..4] == PaddedNat(st.year, 4) && s[5..7] == PaddedNat(st.month, 2) && s[8..10] == PaddedNat(st.day, 2)
      && s[11..13] == PaddedNat(st.hour, 2) && s[14..16] == PaddedNat(st.minute, 2) && s[17..19] == PaddedNat(st.second, 2)
      && s[20..22] == PaddedNat(st.offsetHours, 2) && s[|s| - 2..|s|] == PaddedNat(st.offsetMinutes, 2)
  {
    var c := ClockText(st.year, st.month, st.day, st.hour, st.minute, st.second, sep);
    var z := ZoneText(st.negative, st.offsetHours, st.offsetMinutes, colon);
    ClockTextLayout(st.year, st.month, st.day, st.hour, st.minute, st.second, sep);
    ZoneTextLayout(st.negative, st.offsetHours, st.offsetMinutes, colon);
    SliceOfLeft(c, z, 0, 4);
    SliceOfLeft(c, z, 5, 7);
    SliceOfLeft(c, z, 8, 10);
    SliceOfLeft(c, z, 11, 13);
    SliceOfLeft(c, z, 14, 16);
    SliceOfLeft(c, z, 17, 19);
    SliceOfRight(c, z, 20, 22);
    SliceOfRight(c, z, |c| + |z| - 2, |c| + |z|);
  }

  /** A slice within the left part of a concatenation. */
  lemma SliceOfLeft(a: string, b: string, lo: nat, hi: nat)
    requires lo <= hi <= |a|
    ensures (a + b)[lo..hi] == a[lo..hi]
  {
  }

  /** A slice within the right part of a concatenation. */
  lemma SliceOfRight(a: string, b: string, lo: nat, hi: nat)
    requires |a| <= lo <= hi <= |a| + |b|
    ensures (a + b)[lo..hi] == b[lo - |a|..hi - |a|]
  {
  }

  lemma WholeMinutes(k: int)
    ensures (k * 60) % 60 == 0 && (-(k * 60)) % 60 == 0
  {
    assert -(k * 60) == (-k) * 60;
  }

  /** The fields of an aware datetime are in range and recombine to its time of day and offset. */
  lemma ToStampRecombines(t: DateTime)
    requires InRange(t) && IsAware(t) && t.offset.value % 60 == 0
    ensures var st := ToStamp(t);
      && st.hour * 3600 + st.minute * 60 + st.second == TimeOfDay(t)
      && st.offsetHours < 24 && st.offsetMinutes < 60
      && (if st.negative then -((st.offsetHours * 60 + st.offsetMinutes) * 60)
          else (st.offsetHours * 60 + st.offsetMinutes) * 60) == t.offset.value
  {
    var o := t.offset.value;
    var a := if o < 0 then -o else o;
    SplitSeconds(TimeOfDay(t));
    SplitSeconds(a);
  }

  /** Building the datetime from its own fields gives it back. */
  lemma FromStampOfToStamp(t: DateTime)
    requires InRange(t) && IsAware(t) && t.offset.value % 60 == 0
    ensures FromStamp(ToStamp(t)) == Some(t)
  {
    var st := ToStamp(t);
    ToStampRecombines(t);
    var d := Calendar.Ymd(st.year, st.month, st.day);
    assert d == Calendar.OrdToYmd(Date(t));
    Calendar.YmdToOrdOfOrdToYmd(Date(t));
    var a := (st.offsetHours * 60 + st.offsetMinutes) * 60;
    var u := Combine(Date(t), st.hour * 3600 + st.minute * 60 + st.second, Some(if st.negative then -a else a));
    assert u.local == t.local;
    assert FromStamp(st) == Some(u);
  }

  /** Hours, minutes and seconds recombine to the seconds they were taken from. */
  lemma SplitSeconds(x: nat)
    ensures x / 3600 * 3600 + x % 3600 / 60 * 60 + x % 60 == x
    ensures x % 60 == 0 ==> (x / 3600 * 60 + x % 3600 / 60) * 60 == x
  {
    var h, r := x / 3600, x % 3600;
    var m, sec := r / 60, r % 60;
    assert x == (h * 60 + m) * 60 + sec;
    DivMod60(h * 60 + m, sec);
  }

  lemma DivMod60(q: int, r: int)
    requires 0 <= r < 60
    ensures (q * 60 + r) / 60 == q && (q * 60 + r) % 60 == r
  {
  }

  /** Rendering an aware datetime with a whole-minute offset and parsing the text gives it back. */
  lemma ParseOfRender(t: DateTime, sep: char, colon: bool)
    requires InRange(t) && IsAware(t) && t.offset.value % 60 == 0
    ensures Parse(Render(t, sep, colon), sep, colon) == Some(t)
  {
    RenderAsStamp(t, sep, colon);
    ToStampFits(t);
    ScanOfStampText(ToStamp(t), sep, colon);
    FromStampOfToStamp(t);
  }

  /** The fields of an aware datetime fit the widths of the timestamp layout. */
  lemma ToStampFits(t: DateTime)
    requires InRange(t) && IsAware(t)
    ensures var st := ToStamp(t);
      && st.year < 10000 && st.month < 100 && st.day < 100 && st.hour < 100 && st.minute < 100
      && st.second < 100 && st.offsetHours < 100 && st.offsetMinutes < 100
  {
  }
}
