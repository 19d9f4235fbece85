/**
 * `re.sub(pattern, "_", s)` for a pattern made only of anchors and
 * lookarounds: every match is empty, so the substitution inserts "_" at
 * each position 0..|s| where the pattern matches and keeps every character.
 */
module RegexSub {
  import opened PyOps

  /** `s[::-1]`. */
  function Reverse<T>(s: seq<T>): (r: seq<T>)
    ensures |r| == |s|
    ensures forall i :: 0 <= i < |s| ==> r[i] == s[|s| - 1 - i]
  {
    if s == [] then [] else Reverse(s[1..]) + [s[0]]
  }

  /** What an empty match at one position contributes. */
  function Mark(hit: bool): (r: string)
    ensures |r| == (if hit then 1 else 0)
  {
    if hit then "_" else ""
  }

  /** Number of positions at which the pattern matches. */
  function Hits(at: seq<bool>): (n: nat)
    ensures n <= |at|
  {
    if at == [] then 0 else (if at[0] then 1 else 0) + Hits(at[1..])
  }

  /**
   * The substitution result: `at[p]` says whether the pattern matches at
   * position `p` (before `s[p]`, or at the end when `p == |s|`).
   */
  function Splice(s: string, at: seq<bool>): (r: string)
    requires |at| == |s| + 1
    ensures |r| == |s| + Hits(at)
  {
    if s == [] then Mark(at[0]) else Mark(at[0]) + [s[0]] + Splice(s[1..], at[1..])
  }

  /** No match anywhere leaves the string as it is. */
  lemma {:induction false} SpliceNoHits(s: string, at: seq<bool>)
    requires |at| == |s| + 1
    requires forall p :: 0 <= p < |at| ==> !at[p]
    ensures Splice(s, at) == s
  {
    if s != [] {
      SpliceNoHits(s[1..], at[1..]);
    }
  }

  /** A character kept by the substitution comes right after the mark of its own position. */
  lemma {:induction false} SpliceHead(s: string, at: seq<bool>)
    requires |at| == |s| + 1 && |s| > 0
    ensures !at[0] ==> Splice(s, at)[0] == s[0]
    ensures at[0] ==> Splice(s, at)[0] == '_' && Splice(s, at)[1] == s[0]
  {
  }

  lemma {:induction false} ReverseAppend<T>(a: seq<T>, b: seq<T>)
    ensures Reverse(a + b) == Reverse(b) + Reverse(a)
  {
    var l, r := Reverse(a + b), Reverse(b) + Reverse(a);
    assert |l| == |r|;
    forall i | 0 <= i < |l| ensures l[i] == r[i] {
      if i < |b| {
        assert (a + b)[|a + b| - 1 - i] == b[|b| - 1 - i];
      } else {
        assert (a + b)[|a + b| - 1 - i] == a[|a| - 1 - (i - |b|)];
      }
    }
  }

  /** Appending one character and its trailing mark. */
  lemma {:induction false} SpliceSnoc(s: string, c: char, at: seq<bool>, hit: bool)
    requires |at| == |s| + 1
    ensures Splice(s + [c], at + [hit]) == Splice(s, at) + [c] + Mark(hit)
    decreases |s|
  {
    if s == [] {
      assert at + [hit] == [at[0], hit];
    } else {
      assert (s + [c])[1..] == s[1..] + [c];
      assert (at + [hit])[1..] == at[1..] + [hit];
      SpliceSnoc(s[1..], c, at[1..], hit);
    }
  }

  /** Substituting then reversing is substituting into the reversed string at the mirrored positions. */
  lemma {:induction false} ReverseSplice(s: string, at: seq<bool>)
    requires |at| == |s| + 1
    ensures Reverse(Splice(s, at)) == Splice(Reverse(s), Reverse(at))
    decreases |s|
  {
    if s == [] {
    } else {
      var m, rest := Mark(at[0]), Splice(s[1..], at[1..]);
      ReverseSplice(s[1..], at[1..]);
      ReverseAppend(m + [s[0]], rest);
      ReverseAppend(m, [s[0]]);
      assert Reverse(m) == m;
      assert Reverse(at) == Reverse(at[1..]) + [at[0]];
      SpliceSnoc(Reverse(s[1..]), s[0], Reverse(at[1..]), at[0]);
      AppendAssoc(Reverse(rest), [s[0]], m);
    }
  }

  lemma HitsPrefix(at: seq<bool>, q: int)
    requires 0 <= q < |at|
    ensures Hits(at[..q + 1]) == (if at[0] then 1 else 0) + Hits(at[1..][..q])
  {
    assert at[..q + 1][1..] == at[1..][..q];
  }

  /**
   * Each character of `s` lands shifted right by the matches up to its own
   * position; right before it stands "_" when its position matches, and the
   * previous character otherwise.
   */
  lemma {:induction false} SpliceAt(s: string, at: seq<bool>, q: int)
    requires |at| == |s| + 1 && 0 <= q < |s|
    ensures var o, j := Splice(s, at), q + Hits(at[..q + 1]);
      && j < |o|
      && o[j] == s[q]
      && (at[q] ==> o[j - 1] == '_')
      && (!at[q] && 0 < q ==> o[j - 1] == s[q - 1])
    decreases q
  {
    var b0 := if at[0] then 1 else 0;
    HitsPrefix(at, q);
    var o, rest := Splice(s, at), Splice(s[1..], at[1..]);
    assert o == Mark(at[0]) + [s[0]] + rest;
    if q > 0 {
      SpliceAt(s[1..], at[1..], q - 1);
      var j' := q - 1 + Hits(at[1..][..q]);
      assert o[b0 + 1 + j'] == rest[j'];
      if j' > 0 {
        assert o[b0 + j'] == rest[j' - 1];
      } else {
        assert o[b0] == s[0];
      }
    }
  }

  /** Substituting into a concatenation: the join position belongs to the right part. */
  lemma {:induction false} SpliceAppend(a: string, b: string, at: seq<bool>)
    requires |at| == |a| + |b| + 1
    ensures Splice(a + b, at) == Splice(a, at[..|a|] + [false]) + Splice(b, at[|a|..])
    decreases |a|
  {
    if a == [] {
      assert a + b == b;
      assert at[|a|..] == at;
    } else {
      assert (a + b)[1..] == a[1..] + b;
      assert (at[..|a|] + [false])[1..] == at[1..][..|a| - 1] + [false];
      assert at[1..][|a| - 1..] == at[|a|..];
      SpliceAppend(a[1..], b, at[1..]);
      var head, x, y := Mark(at[0]) + [a[0]], Splice(a[1..], at[1..][..|a| - 1] + [false]), Splice(b, at[|a|..]);
      assert Splice(a + b, at) == head + (x + y);
      assert Splice(a, at[..|a|] + [false]) == head + x;
      AppendAssoc(head, x, y);
    }
  }

  /** A match before the first character only adds its mark in front. */
  lemma SpliceMarkFirst(s: string, at: seq<bool>, hit: bool)
    requires |at| == |s| + 1 && |s| > 0 && !at[0]
    ensures Splice(s, at[0 := hit]) == Mark(hit) + Splice(s, at)
  {
    assert at[0 := hit][1..] == at[1..];
  }

  /** The substitution adds nothing but underscores. */
  lemma {:induction false} SpliceChars(s: string, at: seq<bool>)
    requires |at| == |s| + 1
    ensures forall c :: c in Splice(s, at) ==> c in s || c == '_'
    decreases |s|
  {
    if s != [] {
      SpliceChars(s[1..], at[1..]);
      forall c | c in s[1..] ensures c in s {
        var i :| 0 <= i < |s[1..]| && s[1..][i] == c;
        assert s[i + 1] == c;
      }
    }
  }
}
