/**
 * Non-wear runs: the boundary indices drawn as rectangles over a 0/1 non-wear
 * vector.  `ChangeIndices` lists where consecutive values differ, `RunBoundaries`
 * adds 0 when the vector starts inside a run and closes a run still open at the
 * end, and the lemmas show that the result pairs up into the runs of ones.
 */
module Runs {

  /** The value at `i` differs from the one before it. */
  predicate IsChange(v: seq<int>, i: int) {
    1 <= i < |v| && v[i] != v[i - 1]
  }

  /** The indices `i` in `1..hi-1`, ascending, where `v[i] != v[i-1]`. */
  function ChangeIndices(v: seq<int>, hi: nat): (r: seq<int>)
    requires hi <= |v|
    ensures forall j :: 0 <= j < |r| ==> r[j] < hi && IsChange(v, r[j])
    ensures forall j, k :: 0 <= j < k < |r| ==> r[j] < r[k]
  {
    if hi <= 1 then []
    else ChangeIndices(v, hi - 1) + (if v[hi - 1] != v[hi - 2] then [hi - 1] else [])
  }

  /** Every change before `hi` is listed: `j` is its position in the list. */
  lemma {:induction false} ChangeIndicesComplete(v: seq<int>, hi: nat, i: int) returns (j: nat)
    requires hi <= |v| && i < hi && IsChange(v, i)
    ensures j < |ChangeIndices(v, hi)| && ChangeIndices(v, hi)[j] == i
    decreases hi
  {
    var c := ChangeIndices(v, hi - 1);
    if i < hi - 1 {
      j := ChangeIndicesComplete(v, hi - 1, i);
      assert ChangeIndices(v, hi)[j] == c[j];
    } else {
      assert ChangeIndices(v, hi) == c + [hi - 1];
      j := |c|;
    }
  }

  /** `[0]` when the vector starts truthy, else nothing. */
  function Opening(v: seq<int>): (r: seq<int>)
    requires |v| > 0
  {
    if v[0] != 0 then [0] else []
  }

  /**
   * The change indices of a non-empty vector, with 0 in front when it starts
   * truthy and `close` appended when their number is odd.
   */
  function RunBoundaries(v: seq<int>, close: int): (r: seq<int>)
    requires |v| > 0
    ensures |r| % 2 == 0
  {
    var b := Opening(v) + ChangeIndices(v, |v|);
    if |b| % 2 != 0 then b + [close] else b
  }

  predicate Binary(v: seq<int>) {
    forall i :: 0 <= i < |v| ==> v[i] == 0 || v[i] == 1
  }

  /** How many elements of `b` are at most `k`. */
  function CountAtMost(b: seq<int>, k: int): nat {
    if b == [] then 0 else CountAtMost(b[..|b| - 1], k) + (if b[|b| - 1] <= k then 1 else 0)
  }

  predicate StrictlyIncreasing(b: seq<int>) {
    forall j, k :: 0 <= j < k < |b| ==> b[j] < b[k]
  }

  /** In a strictly increasing sequence, the elements at most `k` are exactly its first `CountAtMost(b, k)`. */
  lemma {:induction false} CountAtMostSplits(b: seq<int>, k: int)
    requires StrictlyIncreasing(b)
    ensures CountAtMost(b, k) <= |b|
    ensures forall j :: 0 <= j < |b| ==> (b[j] <= k <==> j < CountAtMost(b, k))
  {
    if b != [] {
      var p := b[..|b| - 1];
      CountAtMostSplits(p, k);
      if b[|b| - 1] <= k {
        assert forall j :: 0 <= j < |p| ==> b[j] < b[|b| - 1];
      }
    }
  }

  /** Appending a value above `k` leaves the count at `k` unchanged. */
  lemma CountAtMostAppendAbove(b: seq<int>, x: int, k: int)
    requires k < x
    ensures CountAtMost(b + [x], k) == CountAtMost(b, k)
  {
    assert (b + [x])[..|b|] == b;
  }

  /** Every element of `b` is at most `k`: the count is the length. */
  lemma {:induction false} CountAtMostAll(b: seq<int>, k: int)
    requires forall j :: 0 <= j < |b| ==> b[j] <= k
    ensures CountAtMost(b, k) == |b|
  {
    if b != [] {
      CountAtMostAll(b[..|b| - 1], k);
    }
  }

  /** The boundaries read so far, up to (not including) index `hi`. */
  function Prefix(v: seq<int>, hi: nat): seq<int>
    requires 1 <= hi <= |v|
  {
    Opening(v) + ChangeIndices(v, hi)
  }

  /** The boundaries before `hi` increase strictly and lie in `[0, hi)`. */
  lemma PrefixShape(v: seq<int>, hi: nat)
    requires 1 <= hi <= |v|
    ensures StrictlyIncreasing(Prefix(v, hi))
    ensures forall j :: 0 <= j < |Prefix(v, hi)| ==> 0 <= Prefix(v, hi)[j] < hi
  {
    var o, c := Opening(v), ChangeIndices(v, hi);
    var b := o + c;
    forall j, k | 0 <= j < k < |b| ensures b[j] < b[k] {
      if j < |o| {
        assert b[j] == 0 && b[k] == c[k - |o|];
      } else {
        assert b[j] == c[j - |o|] && b[k] == c[k - |o|];
      }
    }
    PrefixBelow(v, hi);
  }

  /** The boundaries before `hi` lie in `[0, hi)`. */
  lemma PrefixBelow(v: seq<int>, hi: nat)
    requires 1 <= hi <= |v|
    ensures forall j :: 0 <= j < |Prefix(v, hi)| ==> 0 <= Prefix(v, hi)[j] < hi
  {
    var o, c := Opening(v), ChangeIndices(v, hi);
    var b := o + c;
    forall j | 0 <= j < |b| ensures 0 <= b[j] < hi {
      if j >= |o| { assert b[j] == c[j - |o|]; }
    }
  }

  /** Every position `k < hi` of `v` holds a 1 exactly when an odd number of the boundaries `b` are at most `k`. */
  predicate ParityBelow(v: seq<int>, b: seq<int>, hi: int)
    requires hi <= |v|
  {
    forall k :: 0 <= k < hi ==> (v[k] == 1 <==> CountAtMost(b, k) % 2 == 1)
  }

  /**
   * For a 0/1 vector, position `k < hi` holds a 1 exactly when an odd number
   * of the boundaries before `hi` are at most `k`.
   */
  lemma {:induction false} PrefixParity(v: seq<int>, hi: nat)
    requires Binary(v) && 1 <= hi <= |v|
    ensures ParityBelow(v, Prefix(v, hi), hi)
    decreases hi
  {
    if hi == 1 {
      PrefixParityFirst(v);
    } else {
      PrefixParity(v, hi - 1);
      PrefixParityNext(v, hi);
    }
  }

  lemma PrefixParityNext(v: seq<int>, hi: nat)
    requires Binary(v) && 2 <= hi <= |v|
    requires ParityBelow(v, Prefix(v, hi - 1), hi - 1)
    ensures ParityBelow(v, Prefix(v, hi), hi)
  {
    PrefixBelow(v, hi - 1);
    PrefixStep(v, hi);
    ParityStep(v, hi, Prefix(v, hi - 1), Prefix(v, hi));
  }

  lemma PrefixParityFirst(v: seq<int>)
    requires Binary(v) && 1 <= |v|
    ensures ParityBelow(v, Prefix(v, 1), 1)
  {
    var b := Prefix(v, 1);
    assert b == Opening(v) by { assert ChangeIndices(v, 1) == []; }
    if v[0] != 0 { assert b[..0] == []; }
  }

  /** Extending the prefix by one index adds that index exactly when the value changes there. */
  lemma PrefixStep(v: seq<int>, hi: nat)
    requires 2 <= hi <= |v|
    ensures Prefix(v, hi) == if v[hi - 1] != v[hi - 2] then Prefix(v, hi - 1) + [hi - 1] else Prefix(v, hi - 1)
  {
    var o, c := Opening(v), ChangeIndices(v, hi - 1);
    if v[hi - 1] != v[hi - 2] {
      assert ChangeIndices(v, hi) == c + [hi - 1];
      assert o + (c + [hi - 1]) == (o + c) + [hi - 1];
    } else {
      assert ChangeIndices(v, hi) == c + [];
      assert c + [] == c;
    }
  }

  /** One step of `PrefixParity`: from the boundaries before `hi - 1` to those before `hi`. */
  lemma ParityStep(v: seq<int>, hi: nat, p: seq<int>, b: seq<int>)
    requires Binary(v) && 2 <= hi <= |v|
    requires b == if v[hi - 1] != v[hi - 2] then p + [hi - 1] else p
    requires forall j :: 0 <= j < |p| ==> p[j] < hi - 1
    requires ParityBelow(v, p, hi - 1)
    ensures ParityBelow(v, b, hi)
  {
    CountAtMostAll(p, hi - 2);
    if v[hi - 1] != v[hi - 2] {
      ParityAppend(v, hi, p);
    } else {
      ParityKeep(v, hi, p);
    }
  }

  /** A change at `hi - 1`: appending it keeps the parity of every earlier position and flips the last one. */
  lemma ParityAppend(v: seq<int>, hi: nat, p: seq<int>)
    requires Binary(v) && 2 <= hi <= |v| && v[hi - 1] != v[hi - 2]
    requires forall j :: 0 <= j < |p| ==> p[j] < hi - 1
    requires CountAtMost(p, hi - 2) == |p|
    requires ParityBelow(v, p, hi - 1)
    ensures ParityBelow(v, p + [hi - 1], hi)
  {
    var b := p + [hi - 1];
    forall k | 0 <= k < hi ensures v[k] == 1 <==> CountAtMost(b, k) % 2 == 1 {
      if k < hi - 1 {
        CountAtMostAppendAbove(p, hi - 1, k);
      } else {
        CountAtMostAppendLast(p, hi - 1);
      }
    }
  }

  /** No change at `hi - 1`: the last position has the parity of the one before. */
  lemma ParityKeep(v: seq<int>, hi: nat, p: seq<int>)
    requires Binary(v) && 2 <= hi <= |v| && v[hi - 1] == v[hi - 2]
    requires forall j :: 0 <= j < |p| ==> p[j] < hi - 1
    requires CountAtMost(p, hi - 2) == |p|
    requires ParityBelow(v, p, hi - 1)
    ensures ParityBelow(v, p, hi)
  {
    CountAtMostAll(p, hi - 1);
  }

  /** Appending `x` above every element: the count at `x` is the new length. */
  lemma CountAtMostAppendLast(p: seq<int>, x: int)
    requires forall j :: 0 <= j < |p| ==> p[j] < x
    ensures CountAtMost(p + [x], x) == |p| + 1
  {
    CountAtMostAll(p, x);
    assert (p + [x])[..|p|] == p;
  }

  /** Position `k` of `v` holds a 1 exactly when an odd number of the boundaries `b` are at most `k`. */
  predicate ParityMarks(v: seq<int>, b: seq<int>) {
    ParityBelow(v, b, |v|)
  }

  /** The facts about `b = Prefix(v, |v|)` the run lemmas below rely on, and `r` closing it with `|v| - 1`. */
  predicate Closed(v: seq<int>, b: seq<int>, r: seq<int>) {
    |v| > 0 && Binary(v) && StrictlyIncreasing(b) && ParityMarks(v, b)
    && (forall j :: 0 <= j < |b| ==> 0 <= b[j] < |v|)
    && r == if |b| % 2 != 0 then b + [|v| - 1] else b
  }

  lemma RunBoundariesClosed(v: seq<int>)
    requires |v| > 0 && Binary(v)
    ensures Closed(v, Prefix(v, |v|), RunBoundaries(v, |v| - 1))
  {
    PrefixParity(v, |v|);
    PrefixShape(v, |v|);
  }

  lemma PairStartIsOne(v: seq<int>, b: seq<int>, r: seq<int>, m: int)
    requires Closed(v, b, r) && 0 <= m < |r| / 2
    ensures v[r[2 * m]] == 1
  {
    assert 2 * m < |b|;
    assert r[2 * m] == b[2 * m];
    CountAtMostSplits(b, b[2 * m]);
    var c := CountAtMost(b, b[2 * m]);
    if 2 * m + 1 < |b| {
      assert b[2 * m] < b[2 * m + 1];
    }
    assert c == 2 * m + 1;
  }

  lemma PairInsideIsOne(v: seq<int>, b: seq<int>, r: seq<int>, m: int, k: int)
    requires Closed(v, b, r) && 0 <= m < |r| / 2 && r[2 * m] <= k < r[2 * m + 1]
    ensures v[k] == 1
  {
    assert 2 * m < |b|;
    assert r[2 * m] == b[2 * m];
    assert k < |v| by {
      if 2 * m + 1 < |b| { assert r[2 * m + 1] == b[2 * m + 1]; }
    }
    CountAtMostSplits(b, k);
    var c := CountAtMost(b, k);
    if 2 * m + 1 < |b| {
      assert r[2 * m + 1] == b[2 * m + 1];
    }
    assert c == 2 * m + 1;
  }

  lemma OneIsInsidePair(v: seq<int>, b: seq<int>, r: seq<int>, k: int) returns (m: int)
    requires Closed(v, b, r) && 0 <= k < |v| - 1 && v[k] == 1
    ensures 0 <= m < |r| / 2 && r[2 * m] <= k < r[2 * m + 1]
  {
    CountAtMostSplits(b, k);
    var c := CountAtMost(b, k);
    assert c % 2 == 1;
    m := (c - 1) / 2;
    assert r[2 * m] == b[2 * m];
    if 2 * m + 1 < |b| {
      assert r[2 * m + 1] == b[2 * m + 1];
    } else {
      assert r[2 * m + 1] == |v| - 1;
    }
  }

  lemma LastOneCloses(v: seq<int>, b: seq<int>, r: seq<int>)
    requires Closed(v, b, r) && v[|v| - 1] == 1
    ensures |r| > 0 && r[|r| - 1] == |v| - 1
  {
    CountAtMostAll(b, |v| - 1);
    assert |b| % 2 == 1;
  }

  /*
   * The run property: for a 0/1 vector, consecutive pairs `(r[2m], r[2m+1])` of
   * `r = RunBoundaries(v, |v| - 1)` mark the runs of ones.  The four lemmas below
   * state that `r[2m]` holds a 1, that every position in `[r[2m], r[2m+1])` does,
   * that every 1 before the last position lies in such a pair, and that a 1 in the
   * last position closes a pair there.
   */

  lemma RunStartsAreOnes(v: seq<int>)
    requires |v| > 0 && Binary(v)
    ensures var r := RunBoundaries(v, |v| - 1);
      forall m :: 0 <= m < |r| / 2 ==> v[r[2 * m]] == 1
  {
    var b, r := Prefix(v, |v|), RunBoundaries(v, |v| - 1);
    RunBoundariesClosed(v);
    forall m | 0 <= m < |r| / 2 ensures v[r[2 * m]] == 1 {
      PairStartIsOne(v, b, r, m);
    }
  }

  lemma RunsAreOnes(v: seq<int>)
    requires |v| > 0 && Binary(v)
    ensures var r := RunBoundaries(v, |v| - 1);
      forall m, k :: 0 <= m < |r| / 2 && r[2 * m] <= k < r[2 * m + 1] ==> v[k] == 1
  {
    var b, r := Prefix(v, |v|), RunBoundaries(v, |v| - 1);
    RunBoundariesClosed(v);
    forall m, k | 0 <= m < |r| / 2 && r[2 * m] <= k < r[2 * m + 1] ensures v[k] == 1 {
      PairInsideIsOne(v, b, r, m, k);
    }
  }

  lemma OnesAreInRuns(v: seq<int>)
    requires |v| > 0 && Binary(v)
    ensures var r := RunBoundaries(v, |v| - 1);
      forall k :: 0 <= k < |v| - 1 && v[k] == 1 ==> exists m :: 0 <= m < |r| / 2 && r[2 * m] <= k < r[2 * m + 1]
  {
    var b, r := Prefix(v, |v|), RunBoundaries(v, |v| - 1);
    RunBoundariesClosed(v);
    forall k | 0 <= k < |v| - 1 && v[k] == 1
      ensures exists m :: 0 <= m < |r| / 2 && r[2 * m] <= k < r[2 * m + 1]
    {
      var m := OneIsInsidePair(v, b, r, k);
    }
  }

  lemma LastOneClosesRun(v: seq<int>)
    requires |v| > 0 && Binary(v) && v[|v| - 1] == 1
    ensures var r := RunBoundaries(v, |v| - 1);
      |r| > 0 && r[|r| - 1] == |v| - 1
  {
    RunBoundariesClosed(v);
    LastOneCloses(v, Prefix(v, |v|), RunBoundaries(v, |v| - 1));
  }

  /** `[0, 0, 1]` gives `[2, 2]`: the last index can appear twice. */
  lemma RunBoundariesRepeatsLast()
    ensures RunBoundaries([0, 0, 1], 2) == [2, 2]
  {
    var v := [0, 0, 1];
    assert Opening(v) == [];
    assert ChangeIndices(v, 1) == [];
    assert ChangeIndices(v, 2) == [] + [];
    assert ChangeIndices(v, 3) == [] + [2];
    assert Opening(v) + ChangeIndices(v, 3) == [2];
  }

  /** For every close index within the vector, the boundaries are non-decreasing and within `[0, |v| - 1]`. */
  lemma {:induction false} RunBoundariesBounds(v: seq<int>)
    requires |v| > 0
    ensures var r := RunBoundaries(v, |v| - 1);
      && (forall j :: 0 <= j < |r| ==> 0 <= r[j] < |v|)
      && (forall j, k :: 0 <= j < k < |r| ==> r[j] <= r[k])
  {
    PrefixShape(v, |v|);
  }

  /** A vector of zeros has no changes before any `hi`. */
  lemma {:induction false} ZerosHaveNoChanges(v: seq<int>, hi: nat)
    requires hi <= |v| && forall i :: 0 <= i < |v| ==> v[i] == 0
    ensures ChangeIndices(v, hi) == []
    decreases hi
  {
    if hi > 1 {
      ZerosHaveNoChanges(v, hi - 1);
    }
  }

  /** A vector of zeros has no runs. */
  lemma ZerosHaveNoRuns(v: seq<int>)
    requires |v| > 0 && forall i :: 0 <= i < |v| ==> v[i] == 0
    ensures RunBoundaries(v, |v| - 1) == []
  {
    ZerosHaveNoChanges(v, |v|);
  }
}
