/** Python's integer division, list indexing, slicing and repetition, which differ from Dafny's. */
module PyOps {
  import opened Wrappers

  /** `a // b` (floor division) for a non-zero divisor of either sign. */
  function FloorDiv(a: int, b: int): (q: int)
    requires b != 0
    ensures b > 0 ==> q * b <= a < q * b + b
    ensures b < 0 ==> q * b >= a > q * b + b
  {
    if b > 0 then a / b else -(a / -b) - (if a % -b == 0 then 0 else 1)
  }

  /** `int(a / b)`: the quotient truncated towards zero, for a positive divisor. */
  function TruncDiv(a: int, b: int): (q: int)
    requires b > 0
    ensures a >= 0 ==> 0 <= q && q * b <= a < q * b + b
    ensures a < 0 ==> q <= 0 && q * b >= a > q * b - b
  {
    if a >= 0 then a / b else -((-a) / b)
  }

  /** The position `s[i]` reads for a list of length `n`, negative `i` counting from the end; None where Python raises IndexError. */
  function PyIndex(n: nat, i: int): (r: Option<nat>)
    ensures r.Some? <==> -(n as int) <= i < n
    ensures r.Some? ==> r.value < n && (r.value == i || r.value == i + n)
  {
    if 0 <= i < n then Some(i) else if -(n as int) <= i < 0 then Some(i + n) else None
  }

  /** Where a slice bound `i` lands in a list of length `n` (negative counts from the end, clipped to `0..n`). */
  function SliceBound(n: nat, i: int): (b: nat)
    ensures b <= n
    ensures 0 <= i <= n ==> b == i
  {
    if i < 0 then (if i + n < 0 then 0 else i + n) else if i > n then n else i
  }

  /** `s[start:stop]`, with `None` for an omitted stop. */
  function Slice<T>(s: seq<T>, start: int, stop: Option<int>): (r: seq<T>)
    ensures 0 <= start && stop == None ==> r == if start <= |s| then s[start..] else []
    ensures 0 <= start <= |s| && stop.Some? && start <= stop.value <= |s| ==> r == s[start..stop.value]
  {
    var lo := SliceBound(|s|, start);
    var hi := if stop.Some? then SliceBound(|s|, stop.value) else |s|;
    if lo <= hi then s[lo..hi] else []
  }

  /** `[x] * n`: empty for a negative `n`. */
  function Repeat<T>(x: T, n: int): (r: seq<T>)
    ensures |r| == if n < 0 then 0 else n
    ensures forall i :: 0 <= i < |r| ==> r[i] == x
  {
    seq(if n < 0 then 0 else n, _ => x)
  }

  /** List concatenation regroups freely (stated once, so that long proofs need not rediscover it). */
  lemma AppendAssoc<T>(x: seq<T>, y: seq<T>, z: seq<T>)
    ensures x + (y + z) == x + y + z
  {
  }
}
