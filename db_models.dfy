/**
 * The records of the actigraphy database: a subject has days, a day has sleep
 * windows.  The objects the application builds are `Subject`, `Day` and
 * `SleepTime`; the tables they are stored in are a `Store` of rows keyed by
 * their auto-incremented ids, whose unique and foreign-key constraints and
 * cascading deletes the operations below keep.
 */
module DbModels {
  import opened Wrappers
  import opened DateTimes

  /**
   * A sleep window.  `onset` and `wakeup` are stored in columns without a zone,
   * so what is kept is their wall-clock reading, which the application writes in
   * UTC; the offsets are in seconds.
   */
  datatype SleepTime = SleepTime(onset: DateTime, onsetUtcOffset: int, wakeup: DateTime, wakeupUtcOffset: int)

  datatype Day = Day(date: int, isMissingSleep: bool, isMultipleSleep: bool, isReviewed: bool, sleepTimes: seq<SleepTime>)

  datatype Subject = Subject(name: string, nPointsPerDay: int, isFinished: bool, days: seq<Day>)

  /** A datetime as a zone-less column keeps it: its wall-clock reading. */
  function Stored(t: DateTime): (r: DateTime)
    ensures !IsAware(r) && r.local == t.local
  {
    ReplaceTz(t, None)
  }

  /** `onset_with_tz`: the stored onset read as UTC and shown at `onset_utc_offset`. */
  function OnsetWithTz(st: SleepTime): (r: DateTime)
    ensures r.offset == Some(st.onsetUtcOffset)
    ensures Instant(r) == st.onset.local
  {
    AsTimezone(ReplaceTz(st.onset, Some(0)), st.onsetUtcOffset, 0)
  }

  /** `wakeup_with_tz`: the stored wakeup read as UTC and shown at the ONSET's offset. */
  function WakeupWithTz(st: SleepTime): (r: DateTime)
    ensures r.offset == Some(st.onsetUtcOffset)
    ensures Instant(r) == st.wakeup.local
  {
    AsTimezone(ReplaceTz(st.wakeup, Some(0)), st.onsetUtcOffset, 0)
  }

  /** Converting the shown onset back to UTC and storing it gives the stored onset again. */
  lemma OnsetWithTzStoresBack(st: SleepTime, hostOffset: int)
    requires !IsAware(st.onset)
    ensures Stored(AsTimezone(OnsetWithTz(st), 0, hostOffset)) == st.onset
  {
  }

  /** Converting the shown wakeup back to UTC and storing it gives the stored wakeup again. */
  lemma WakeupWithTzStoresBack(st: SleepTime, hostOffset: int)
    requires !IsAware(st.wakeup)
    ensures Stored(AsTimezone(WakeupWithTz(st), 0, hostOffset)) == st.wakeup
  {
  }

  /** A new `Day`: the three flags take their column default, False. */
  function NewDay(date: int, sleepTimes: seq<SleepTime>): (d: Day)
    ensures d.date == date && d.sleepTimes == sleepTimes
    ensures !d.isMissingSleep && !d.isMultipleSleep && !d.isReviewed
  {
    Day(date, false, false, false, sleepTimes)
  }

  /** A new `Subject`: `is_finished` takes its column default, False. */
  function NewSubject(name: string, days: seq<Day>, nPointsPerDay: int): (s: Subject)
    ensures s.name == name && s.days == days && s.nPointsPerDay == nPointsPerDay
    ensures !s.isFinished
  {
    Subject(name, nPointsPerDay, false, days)
  }

  datatype SubjectRow = SubjectRow(name: string, nPointsPerDay: int, isFinished: bool)
  datatype DayRow = DayRow(subjectId: nat, date: int, isMissingSleep: bool, isMultipleSleep: bool, isReviewed: bool)
  datatype SleepRow = SleepRow(dayId: nat, sleep: SleepTime)

  /** The three tables, each keyed by its rows' ids. */
  datatype Store = Store(subjects: map<nat, SubjectRow>, days: map<nat, DayRow>, sleepTimes: map<nat, SleepRow>)

  /** Subject names are unique. */
  predicate UniqueNames(s: Store) {
    forall a, b :: a in s.subjects && b in s.subjects && a != b ==> s.subjects[a].name != s.subjects[b].name
  }

  /** A (subject, date) pair occurs in at most one day (`uq_subject_date`). */
  predicate UniqueSubjectDates(s: Store) {
    forall a, b :: a in s.days && b in s.days && a != b && s.days[a].subjectId == s.days[b].subjectId
      ==> s.days[a].date != s.days[b].date
  }

  /** Every day's subject and every sleep window's day exist. */
  predicate ForeignKeys(s: Store) {
    && (forall d :: d in s.days ==> s.days[d].subjectId in s.subjects)
    && (forall k :: k in s.sleepTimes ==> s.sleepTimes[k].dayId in s.days)
  }

  predicate Valid(s: Store) {
    UniqueNames(s) && UniqueSubjectDates(s) && ForeignKeys(s)
  }

  /** The id an auto-incremented key column gives the next row: one past the largest in use. */
  function NextId(keys: set<nat>): (k: nat)
    ensures forall j :: j in keys ==> j < k
  {
    if keys == {} then 0
    else
      LargestExists(keys);
      var x :| x in keys && forall y :: y in keys ==> y <= x;
      x + 1
  }

  lemma {:induction false} LargestExists(keys: set<nat>)
    requires keys != {}
    ensures exists x :: x in keys && forall y :: y in keys ==> y <= x
    decreases keys
  {
    var x :| x in keys;
    var rest := keys - {x};
    if rest != {} {
      LargestExists(rest);
      var m :| m in rest && forall y :: y in rest ==> y <= m;
      var top := if x <= m then m else x;
      forall y | y in keys ensures y <= top {
        if y != x { assert y in rest; }
      }
      assert top in keys;
    } else {
      forall y | y in keys ensures y <= x {
        assert y !in rest;
      }
    }
  }

  /** Adds a subject; a name already in use violates the unique constraint. */
  function AddSubject(s: Store, row: SubjectRow): (r: Result<(Store, nat)>)
    requires Valid(s)
    ensures r.Err? <==> exists a :: a in s.subjects && s.subjects[a].name == row.name
    ensures r.Ok? ==> var (t, id) := r.value;
      && Valid(t) && id !in s.subjects
      && t == s.(subjects := s.subjects[id := row])
  {
    if exists a :: a in s.subjects && s.subjects[a].name == row.name then Err(IntegrityError)
    else
      var id := NextId(s.subjects.Keys);
      Ok((s.(subjects := s.subjects[id := row]), id))
  }

  /** Adds a day of an existing subject; a missing subject or a date the subject already has is refused. */
  function AddDay(s: Store, row: DayRow): (r: Result<(Store, nat)>)
    requires Valid(s)
    ensures r.Err? <==> (row.subjectId !in s.subjects
                         || exists a :: a in s.days && s.days[a].subjectId == row.subjectId && s.days[a].date == row.date)
    ensures r.Ok? ==> var (t, id) := r.value;
      && Valid(t) && id !in s.days
      && t == s.(days := s.days[id := row])
  {
    if row.subjectId !in s.subjects then Err(IntegrityError)
    else if exists a :: a in s.days && s.days[a].subjectId == row.subjectId && s.days[a].date == row.date then Err(IntegrityError)
    else
      var id := NextId(s.days.Keys);
      Ok((s.(days := s.days[id := row]), id))
  }

  /** Adds a sleep window of an existing day. */
  function AddSleepTime(s: Store, row: SleepRow): (r: Result<(Store, nat)>)
    requires Valid(s)
    ensures r.Err? <==> row.dayId !in s.days
    ensures r.Ok? ==> var (t, id) := r.value;
      && Valid(t) && id !in s.sleepTimes
      && t == s.(sleepTimes := s.sleepTimes[id := row])
  {
    if row.dayId !in s.days then Err(IntegrityError)
    else
      var id := NextId(s.sleepTimes.Keys);
      Ok((s.(sleepTimes := s.sleepTimes[id := row]), id))
  }

  /** Deletes a day and, by the cascade on `Day.sleep_times`, its sleep windows. */
  function DeleteDay(s: Store, id: nat): (t: Store)
    requires Valid(s)
    ensures Valid(t)
    ensures t.subjects == s.subjects
    ensures forall d :: d in t.days <==> d in s.days && d != id
    ensures forall d :: d in t.days ==> t.days[d] == s.days[d]
    ensures forall k :: k in t.sleepTimes <==> k in s.sleepTimes && s.sleepTimes[k].dayId != id
    ensures forall k :: k in t.sleepTimes ==> t.sleepTimes[k] == s.sleepTimes[k]
  {
    Store(s.subjects,
          map d | d in s.days && d != id :: s.days[d],
          map k | k in s.sleepTimes && s.sleepTimes[k].dayId != id :: s.sleepTimes[k])
  }

  /** Deletes a subject and, by the cascades, its days and their sleep windows. */
  function DeleteSubject(s: Store, id: nat): (t: Store)
    requires Valid(s)
    ensures Valid(t)
    ensures forall a :: a in t.subjects <==> a in s.subjects && a != id
    ensures forall a :: a in t.subjects ==> t.subjects[a] == s.subjects[a]
    ensures forall d :: d in t.days <==> d in s.days && s.days[d].subjectId != id
    ensures forall d :: d in t.days ==> t.days[d] == s.days[d]
    ensures forall k :: k in t.sleepTimes <==> k in s.sleepTimes && s.days[s.sleepTimes[k].dayId].subjectId != id
    ensures forall k :: k in t.sleepTimes ==> t.sleepTimes[k] == s.sleepTimes[k]
  {
    var days := map d | d in s.days && s.days[d].subjectId != id :: s.days[d];
    Store(map a | a in s.subjects && a != id :: s.subjects[a],
          days,
          map k | k in s.sleepTimes && s.sleepTimes[k].dayId in days :: s.sleepTimes[k])
  }
}
