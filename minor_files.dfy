/**
 * The small files written for GGIR: a CSV line of a flag vector and the
 * two-line sleep log (a header of `onset_N<k>`/`wakeup_N<k>` names and one data
 * row of the subject's sleep windows), with the flattening of nested lists they
 * use.
 */
module MinorFiles {
  import opened Wrappers
  import opened Text
  import opened DateTimes
  import opened DbModels

  /**
   * The values the flattening sees: numbers, `str`, `bytes` and datetimes are
   * atoms; lists (and tuples) are nested.
   */
  datatype Item =
    | Num(n: int)
    | Str(s: string)
    | Bytes(b: seq<bv8>)
    | Time(t: DateTime)
    | List(items: seq<Item>)

  predicate IsAtom(x: Item) {
    !x.List?
  }

  /** The atoms of `items` in left-to-right order, nested lists spliced in place. */
  function Leaves(items: seq<Item>): (r: seq<Item>)
    ensures forall k :: 0 <= k < |r| ==> IsAtom(r[k])
    decreases items
  {
    if items == [] then []
    else
      var last := items[|items| - 1];
      Leaves(items[..|items| - 1]) + (if last.List? then Leaves(last.items) else [last])
  }

  /**
   * `_flatten`: a loop over the items, extending the new list with the
   * flattened nested lists and appending the atoms (strings and bytes included).
   */
  method Flatten(iterableOfIterables: seq<Item>) returns (newList: seq<Item>)
    ensures newList == Leaves(iterableOfIterables)
    decreases iterableOfIterables
  {
    newList := [];
    for i := 0 to |iterableOfIterables|
      invariant newList == Leaves(iterableOfIterables[..i])
    {
      var item := iterableOfIterables[i];
      assert iterableOfIterables[..i + 1][..i] == iterableOfIterables[..i];
      if item.List? {
        var nested := Flatten(item.items);
        newList := newList + nested;
      } else {
        newList := newList + [item];
      }
    }
    assert iterableOfIterables[..|iterableOfIterables|] == iterableOfIterables;
  }

  /** Flattening a concatenation flattens each part. */
  lemma {:induction false} LeavesAppend(a: seq<Item>, b: seq<Item>)
    ensures Leaves(a + b) == Leaves(a) + Leaves(b)
    decreases |b|
  {
    if b == [] {
      assert a + b == a;
    } else {
      var init := b[..|b| - 1];
      assert (a + b)[..|a + b| - 1] == a + init;
      LeavesAppend(a, init);
    }
  }

  /** A list of atoms flattens to itself. */
  lemma {:induction false} LeavesOfAtoms(items: seq<Item>)
    requires forall k :: 0 <= k < |items| ==> IsAtom(items[k])
    ensures Leaves(items) == items
    decreases |items|
  {
    if items != [] {
      LeavesOfAtoms(items[..|items| - 1]);
    }
  }

  /** Flattening twice is flattening once. */
  lemma LeavesIdempotent(items: seq<Item>)
    ensures Leaves(Leaves(items)) == Leaves(items)
  {
    LeavesOfAtoms(Leaves(items));
  }

  /** A one-item list flattens to the item's atoms. */
  lemma LeavesOfOne(x: Item)
    ensures Leaves([x]) == if x.List? then Leaves(x.items) else [x]
  {
    assert [x][..0] == [];
  }

  /**
   * The shape of `[[1, 2], [["abc", b"abc"], [5, 6]]]`: whatever the six atoms
   * (strings and bytes included), they come out in order.
   */
  lemma FlattenNested(p: Item, q: Item, r: Item, s: Item, t: Item, u: Item)
    requires IsAtom(p) && IsAtom(q) && IsAtom(r) && IsAtom(s) && IsAtom(t) && IsAtom(u)
    ensures Leaves([List([p, q]), List([List([r, s]), List([t, u])])]) == [p, q, r, s, t, u]
  {
    var a, b, c := [p, q], [r, s], [t, u];
    LeavesOfAtoms(a);
    LeavesOfAtoms(b);
    LeavesOfAtoms(c);
    LeavesOfTwo(List(b), List(c));
    LeavesOfTwo(List(a), List([List(b), List(c)]));
    SixInOrder(p, q, r, s, t, u);
  }

  /** A two-item list flattens to the atoms of each item in turn. */
  lemma LeavesOfTwo(x: Item, y: Item)
    ensures Leaves([x, y]) == (if x.List? then Leaves(x.items) else [x]) + (if y.List? then Leaves(y.items) else [y])
  {
    LeavesAppend([x], [y]);
    assert [x] + [y] == [x, y];
    LeavesOfOne(x);
    LeavesOfOne(y);
  }

  lemma SixInOrder(p: Item, q: Item, r: Item, s: Item, t: Item, u: Item)
    ensures [p, q] + ([r, s] + [t, u]) == [p, q, r, s, t, u]
  {
  }

  /** `zip(xs, ys)`: the pairs, as two-element tuples. */
  function Zip(xs: seq<Item>, ys: seq<Item>): (r: seq<Item>)
    requires |xs| == |ys|
    ensures |r| == |xs| && forall i :: 0 <= i < |xs| ==> r[i] == List([xs[i], ys[i]])
  {
    seq(|xs|, i requires 0 <= i < |xs| => List([xs[i], ys[i]]))
  }

  /** Flattening the pairs of two lists of atoms interleaves them. */
  lemma {:induction false} LeavesOfZip(xs: seq<Item>, ys: seq<Item>)
    requires |xs| == |ys|
    requires forall k :: 0 <= k < |xs| ==> IsAtom(xs[k]) && IsAtom(ys[k])
    ensures |Leaves(Zip(xs, ys))| == 2 * |xs|
    ensures forall i :: 0 <= i < |xs| ==> Leaves(Zip(xs, ys))[2 * i] == xs[i] && Leaves(Zip(xs, ys))[2 * i + 1] == ys[i]
    decreases |xs|
  {
    if xs != [] {
      var n := |xs|;
      var init := Zip(xs[..n - 1], ys[..n - 1]);
      ZipSnoc(xs, ys);
      LeavesOfZip(xs[..n - 1], ys[..n - 1]);
      LeavesAppend(init, [List([xs[n - 1], ys[n - 1]])]);
      LeavesOfOne(List([xs[n - 1], ys[n - 1]]));
      LeavesOfAtoms([xs[n - 1], ys[n - 1]]);
    }
  }

  /** The pairs of two lists are the pairs of their fronts, then the last pair. */
  lemma ZipSnoc(xs: seq<Item>, ys: seq<Item>)
    requires |xs| == |ys| > 0
    ensures Zip(xs, ys) == Zip(xs[..|xs| - 1], ys[..|ys| - 1]) + [List([xs[|xs| - 1], ys[|ys| - 1]])]
  {
  }

  /** A CSV field that the default dialect has to quote. */
  predicate NeedsQuotes(s: string) {
    exists k :: 0 <= k < |s| && (s[k] == ',' || s[k] == '"' || s[k] == '\r' || s[k] == '\n')
  }

  /** Every quote character doubled. */
  function DoubledQuotes(s: string): (r: string)
    ensures |r| >= |s|
  {
    if s == [] then [] else (if s[0] == '"' then "\"\"" else [s[0]]) + DoubledQuotes(s[1..])
  }

  /** One field as `csv.writer` writes it with minimal quoting. */
  function CsvField(s: string): (r: string)
    ensures !NeedsQuotes(s) ==> r == s
    ensures NeedsQuotes(s) ==> |r| >= 2 && r[0] == '"' && r[|r| - 1] == '"'
  {
    if NeedsQuotes(s) then "\"" + DoubledQuotes(s) + "\"" else s
  }

  /**
   * `writer.writerow(fields)`: the fields joined by commas and ended by the
   * dialect's `\r\n`; a row of one empty field is written as `""` so that it
   * reads back as a field.
   */
  function CsvRow(fields: seq<string>): (r: string)
    ensures |r| >= 2 && r[|r| - 2..] == "\r\n"
  {
    var body := if fields == [""] then "\"\"" else Join(seq(|fields|, i requires 0 <= i < |fields| => CsvField(fields[i])), ",");
    body + "\r\n"
  }

  lemma PlainHasNoComma(s: string)
    requires !NeedsQuotes(s)
    ensures ',' !in s
  {
    forall j | 0 <= j < |s| ensures s[j] != ',' {
      assert !(s[j] == ',' || s[j] == '"' || s[j] == '\r' || s[j] == '\n');
    }
  }

  /** `str(i)` holds only digits and a sign, so it is never quoted. */
  lemma IntToStringPlain(i: int)
    ensures !NeedsQuotes(IntToString(i))
  {
    var s := IntToString(i);
    forall k | 0 <= k < |s| ensures IsDigit(s[k]) || s[k] == '-' {
      if i < 0 && k > 0 {
        assert s[k] == s[1..][k - 1];
      }
    }
  }

  /** A row of fields needing no quotes is the fields joined by commas, then the line end. */
  lemma CsvRowOfPlain(fields: seq<string>)
    requires fields != [""]
    requires forall i :: 0 <= i < |fields| ==> !NeedsQuotes(fields[i])
    ensures CsvRow(fields) == Join(fields, ",") + "\r\n"
  {
    UnquotedFields(fields);
  }

  lemma UnquotedFields(fields: seq<string>)
    requires forall i :: 0 <= i < |fields| ==> !NeedsQuotes(fields[i])
    ensures seq(|fields|, i requires 0 <= i < |fields| => CsvField(fields[i])) == fields
  {
    var quoted := seq(|fields|, i requires 0 <= i < |fields| => CsvField(fields[i]));
    assert forall i :: 0 <= i < |fields| ==> quoted[i] == fields[i];
  }

  /** A row of fields needing no quotes reads back, split at the commas, as those fields. */
  lemma CsvRowReadsBack(fields: seq<string>)
    requires |fields| > 0 && fields != [""]
    requires forall i :: 0 <= i < |fields| ==> !NeedsQuotes(fields[i])
    ensures var r := CsvRow(fields); Split(r[..|r| - 2], ',') == fields
  {
    CsvRowOfPlain(fields);
    forall k | 0 <= k < |fields| ensures ',' !in fields[k] {
      PlainHasNoComma(fields[k]);
    }
    SplitJoin(fields, ',');
    var r := CsvRow(fields);
    assert r[..|r| - 2] == Join(fields, ",");
  }

  /** `write_vector`: the values of the vector on one CSV line. */
  function WriteVector(vector: seq<int>): (line: string)
  {
    CsvRow(seq(|vector|, i requires 0 <= i < |vector| => IntToString(vector[i])))
  }

  /** The written line, split at its commas, parses back to the vector. */
  lemma WriteVectorReadsBack(vector: seq<int>)
    requires |vector| > 0
    ensures var line := WriteVector(vector);
      var fields := Split(line[..|line| - 2], ',');
      |fields| == |vector| && forall i :: 0 <= i < |vector| ==> ParseInt(fields[i]) == Some(vector[i])
  {
    var fields := seq(|vector|, i requires 0 <= i < |vector| => IntToString(vector[i]));
    forall i | 0 <= i < |vector| ensures !NeedsQuotes(fields[i]) && ParseInt(fields[i]) == Some(vector[i]) {
      ParseIntOfIntToString(vector[i]);
      IntToStringPlain(vector[i]);
    }
    assert fields != [""] by {
      assert |fields[0]| > 0;
    }
    CsvRowReadsBack(fields);
  }

  /** `[1, 2, 3, 4, 5]` is written as `1,2,3,4,5` and the line end. */
  lemma WriteVectorExample()
    ensures WriteVector([1, 2, 3, 4, 5]) == "1,2,3,4,5\r\n"
  {
    var fields := seq(5, i requires 0 <= i < 5 => IntToString([1, 2, 3, 4, 5][i]));
    ExampleFields();
    forall i | 0 <= i < 5 ensures !NeedsQuotes(fields[i]) {
      IntToStringPlain(i + 1);
    }
    CsvRowOfPlain(fields);
    ExampleJoin();
  }

  lemma ExampleFields()
    ensures seq(5, i requires 0 <= i < 5 => IntToString([1, 2, 3, 4, 5][i])) == ["1", "2", "3", "4", "5"]
  {
  }

  lemma ExampleJoin()
    ensures Join(["1", "2", "3", "4", "5"], ",") == "1,2,3,4,5"
  {
    assert Join(["4", "5"], ",") == "4,5";
    assert Join(["3", "4", "5"], ",") == "3,4,5";
    assert Join(["2", "3", "4", "5"], ",") == "2,3,4,5";
  }

  /** The two rows of the sleep log. */
  datatype Sleeplog = Sleeplog(header: seq<string>, data: seq<string>)

  /** The day's first sleep window, if it has one, can be shown as `str` writes an aware datetime. */
  predicate ShowableDay(day: Day) {
    |day.sleepTimes| > 0 ==> InRange(OnsetWithTz(day.sleepTimes[0])) && InRange(WakeupWithTz(day.sleepTimes[0]))
  }

  /** Every day is showable. */
  predicate Showable(days: seq<Day>) {
    forall i {:trigger ShowableDay(days[i])} :: 0 <= i < |days| ==> ShowableDay(days[i])
  }

  lemma ShowableAt(days: seq<Day>, i: nat)
    requires Showable(days) && i < |days|
    ensures ShowableDay(days[i])
  {
  }

  /** `onset_N<k>`, `wakeup_N<k>`. */
  function OnsetName(k: nat): string { "onset_N" + NatToString(k) }
  function WakeupName(k: nat): string { "wakeup_N" + NatToString(k) }

  /**
   * `_flatten(zip(onset_times, wakeup_times))`: each day's onset then its wakeup,
   * both shown at the onset's offset.
   */
  function SleepDates(days: seq<Day>): (r: seq<Item>)
    requires forall i :: 0 <= i < |days| ==> |days[i].sleepTimes| > 0
    ensures |r| == 2 * |days|
    ensures forall d :: 0 <= d < |days| ==>
      r[2 * d] == Time(OnsetWithTz(days[d].sleepTimes[0])) && r[2 * d + 1] == Time(WakeupWithTz(days[d].sleepTimes[0]))
  {
    var onsets := seq(|days|, i requires 0 <= i < |days| => Time(OnsetWithTz(days[i].sleepTimes[0])));
    var wakeups := seq(|days|, i requires 0 <= i < |days| => Time(WakeupWithTz(days[i].sleepTimes[0])));
    assert forall d :: 0 <= d < |days| ==>
      onsets[d] == Time(OnsetWithTz(days[d].sleepTimes[0])) && wakeups[d] == Time(WakeupWithTz(days[d].sleepTimes[0]));
    LeavesOfZip(onsets, wakeups);
    Leaves(Zip(onsets, wakeups))
  }

  /**
   * `_flatten([[f"onset_N{d + 1}", f"wakeup_N{d + 1}"] for d in range(count)])`;
   * the list of pairs is built as the pairs of the two name lists, the same value.
   */
  function SleepNames(count: nat): (r: seq<Item>)
    ensures |r| == 2 * count
    ensures forall d :: 0 <= d < count ==> r[2 * d] == Str(OnsetName(d + 1)) && r[2 * d + 1] == Str(WakeupName(d + 1))
  {
    var onsetNames := seq(count, d requires 0 <= d < count => Str(OnsetName(d + 1)));
    var wakeupNames := seq(count, d requires 0 <= d < count => Str(WakeupName(d + 1)));
    assert forall d :: 0 <= d < count ==> onsetNames[d] == Str(OnsetName(d + 1)) && wakeupNames[d] == Str(WakeupName(d + 1));
    LeavesOfZip(onsetNames, wakeupNames);
    Leaves(Zip(onsetNames, wakeupNames))
  }

  /** Entry `k` of the flattened dates is day `k / 2`'s onset or wakeup. */
  lemma SleepDateAt(days: seq<Day>, k: nat)
    requires forall i :: 0 <= i < |days| ==> |days[i].sleepTimes| > 0
    requires k < 2 * |days|
    ensures k / 2 < |days|
    ensures SleepDates(days)[k] == Time(if k % 2 == 0 then OnsetWithTz(days[k / 2].sleepTimes[0]) else WakeupWithTz(days[k / 2].sleepTimes[0]))
  {
    assert k == 2 * (k / 2) || k == 2 * (k / 2) + 1;
  }

  /** Entry `k` of the flattened names is a name. */
  lemma SleepNameAt(count: nat, k: nat)
    requires k < 2 * count
    ensures SleepNames(count)[k].Str?
  {
    assert k == 2 * (k / 2) || k == 2 * (k / 2) + 1;
  }

  /** The header: `ID`, then `onset_N<d>` and `wakeup_N<d>` for each of `count` pairs. */
  function HeaderLine(count: nat): (r: seq<string>)
    ensures |r| == 1 + 2 * count && r[0] == "ID"
    ensures forall d :: 0 <= d < count ==> r[1 + 2 * d] == OnsetName(d + 1) && r[2 + 2 * d] == WakeupName(d + 1)
  {
    var names := SleepNames(count);
    var line := ["ID"] + seq(|names|, k requires 0 <= k < |names| =>
      SleepNameAt(count, k);
      names[k].s);
    assert forall d :: 0 <= d < count ==> line[1 + 2 * d] == OnsetName(d + 1) && line[2 + 2 * d] == WakeupName(d + 1) by {
      forall d | 0 <= d < count
        ensures line[1 + 2 * d] == OnsetName(d + 1) && line[2 + 2 * d] == WakeupName(d + 1)
      {
      }
    }
    line
  }

  /** `str()` of each datetime item, as `csv.writer` writes it. */
  function Texts(items: seq<Item>): (r: seq<string>)
    requires forall k :: 0 <= k < |items| ==> items[k].Time? && InRange(items[k].t)
    ensures |r| == |items|
    ensures forall k :: 0 <= k < |items| ==> r[k] == Render(items[k].t, ' ', true)
  {
    seq(|items|, k requires 0 <= k < |items| => Render(items[k].t, ' ', true))
  }

  /** Every flattened date of showable days is a datetime `str` can write. */
  lemma SleepDatesShowable(days: seq<Day>)
    requires Showable(days)
    requires forall i :: 0 <= i < |days| ==> |days[i].sleepTimes| > 0
    ensures forall k :: 0 <= k < |SleepDates(days)| ==> SleepDates(days)[k].Time? && InRange(SleepDates(days)[k].t)
  {
    var dates := SleepDates(days);
    forall k | 0 <= k < |dates|
      ensures dates[k].Time? && InRange(dates[k].t)
    {
      SleepDateAt(days, k);
      ShowableAt(days, k / 2);
    }
  }

  /** Day `d`'s onset and wakeup are written at positions `2d` and `2d + 1`. */
  lemma SleepTextsAt(days: seq<Day>, d: nat)
    requires Showable(days)
    requires forall i :: 0 <= i < |days| ==> |days[i].sleepTimes| > 0
    requires d < |days|
    requires forall k :: 0 <= k < |SleepDates(days)| ==> SleepDates(days)[k].Time? && InRange(SleepDates(days)[k].t)
    ensures ShowableDay(days[d])
    ensures Texts(SleepDates(days))[2 * d] == Render(OnsetWithTz(days[d].sleepTimes[0]), ' ', true)
    ensures Texts(SleepDates(days))[2 * d + 1] == Render(WakeupWithTz(days[d].sleepTimes[0]), ' ', true)
  {
    ShowableAt(days, d);
  }

  /** The data line: `identifier`, then each flattened date as `str` writes it. */
  function DataLine(days: seq<Day>): (r: seq<string>)
    requires Showable(days)
    requires forall i :: 0 <= i < |days| ==> |days[i].sleepTimes| > 0
    ensures forall k :: 0 <= k < |SleepDates(days)| ==> SleepDates(days)[k].Time? && InRange(SleepDates(days)[k].t)
    ensures |r| == 1 + 2 * |days| && r[0] == "identifier" && r[1..] == Texts(SleepDates(days))
  {
    SleepDatesShowable(days);
    ["identifier"] + Texts(SleepDates(days))
  }

  /**
   * `write_sleeplog` without the file: the first sleep window of each day (a day
   * without one raises IndexError), the onsets and wakeups zipped, flattened
   * and written with `str` after the literal `identifier`; the header names
   * `len(dates) // 2` pairs after `ID`.
   */
  function SleeplogRows(days: seq<Day>): (r: Result<Sleeplog>)
    requires Showable(days)
    ensures r.Err? <==> exists i :: 0 <= i < |days| && |days[i].sleepTimes| == 0
    ensures r.Err? ==> r.error == IndexError
  {
    if exists i :: 0 <= i < |days| && |days[i].sleepTimes| == 0 then Err(IndexError)
    else
      Ok(Sleeplog(HeaderLine(|SleepDates(days)| / 2), DataLine(days)))
  }

  /**
   * The header has `1 + 2 * days` cells: `ID`, then `onset_N<d>` and
   * `wakeup_N<d>` for each day `d` counted from one.
   */
  lemma SleeplogHeader(days: seq<Day>, d: nat)
    requires Showable(days) && SleeplogRows(days).Ok? && d < |days|
    ensures var log := SleeplogRows(days).value;
      && |log.header| == 1 + 2 * |days| && log.header[0] == "ID"
      && log.header[1 + 2 * d] == OnsetName(d + 1) && log.header[2 + 2 * d] == WakeupName(d + 1)
  {
    var n := |SleepDates(days)|;
    assert n == 2 * |days|;
    assert n / 2 == |days|;
    assert SleeplogRows(days).value.header == HeaderLine(n / 2);
  }

  /**
   * The data row has `1 + 2 * days` cells: `identifier`, then day `d`'s onset
   * and wakeup, both shown at the onset's offset, as `str` writes them.
   */
  lemma SleeplogData(days: seq<Day>, d: nat)
    requires Showable(days) && SleeplogRows(days).Ok? && d < |days|
    ensures ShowableDay(days[d])
    ensures var log := SleeplogRows(days).value;
      && |log.data| == 1 + 2 * |days| && log.data[0] == "identifier"
      && log.data[1 + 2 * d] == Render(OnsetWithTz(days[d].sleepTimes[0]), ' ', true)
      && log.data[2 + 2 * d] == Render(WakeupWithTz(days[d].sleepTimes[0]), ' ', true)
  {
    var line := DataLine(days);
    SleepTextsAt(days, d);
    assert line[1 + 2 * d] == line[1..][2 * d] && line[2 + 2 * d] == line[1..][2 * d + 1];
  }

  /** The sleep log file: the header line, then the data line. */
  function SleeplogFile(log: Sleeplog): string {
    CsvRow(log.header) + CsvRow(log.data)
  }
}
