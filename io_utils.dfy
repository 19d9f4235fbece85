/** `actigraphy.io.utils`: the regular-expression snake-caser and the recursive `flatten`. */
module IoUtils {
  import opened Wrappers
  import opened Text
  import opened PyOps
  import opened RegexSub
  import opened MinorFiles

  // ---------------------------------------------------------------- snakecase

  /** `$` at position `p`: the end of the string, or just before a final newline. */
  predicate AtEnd(r: string, p: int)
    requires 0 <= p <= |r|
  {
    p == |r| || (p == |r| - 1 && r[p] == '\n')
  }

  /** The pattern `(?<=[A-Z])(?!$)(?!_)(?![A-Z])` matches at position `p` of `r`. */
  predicate ReversedMatch(r: string, p: int)
    requires 0 <= p <= |r|
  {
    0 < p && IsUpper(r[p - 1]) && !AtEnd(r, p) && r[p] != '_' && !IsUpper(r[p])
  }

  function ReversedMatches(r: string): (at: seq<bool>)
    ensures |at| == |r| + 1
    ensures forall p :: 0 <= p <= |r| ==> at[p] == ReversedMatch(r, p)
  {
    seq(|r| + 1, p requires 0 <= p <= |r| => ReversedMatch(r, p))
  }

  /**
   * `snakecase` as written: the substitution runs on the reversed string,
   * which is then lowercased and reversed back.
   */
  function Snakecase(s: string): string {
    var r := Reverse(s);
    Reverse(LowerStr(Splice(r, ReversedMatches(r))))
  }

  /**
   * Where the documented behaviour puts "_": before `s[q]` when `s[q]` is
   * uppercase and `s[q - 1]` is neither uppercase nor "_". The one exception
   * is the gap after a leading newline, because `$` also matches just before
   * a final newline of the reversed string.
   */
  predicate Boundary(s: string, q: int)
    requires 0 <= q <= |s|
  {
    0 < q < |s| && IsUpper(s[q]) && !IsUpper(s[q - 1]) && s[q - 1] != '_' && !(q == 1 && s[0] == '\n')
  }

  function Boundaries(s: string): (at: seq<bool>)
    ensures |at| == |s| + 1
    ensures forall q :: 0 <= q <= |s| ==> at[q] == Boundary(s, q)
  {
    seq(|s| + 1, q requires 0 <= q <= |s| => Boundary(s, q))
  }

  /** The behaviour read forwards: "_" at every boundary, then lowercase. */
  function SnakecaseRef(s: string): string {
    LowerStr(Splice(s, Boundaries(s)))
  }

  lemma {:induction false} ReverseReverse<T>(s: seq<T>)
    ensures Reverse(Reverse(s)) == s
  {
    var r := Reverse(Reverse(s));
    assert |r| == |s|;
    forall i | 0 <= i < |s| ensures r[i] == s[i] {
      assert Reverse(s)[|s| - 1 - i] == s[i];
    }
  }

  lemma {:induction false} ReverseLower(s: string)
    ensures Reverse(LowerStr(s)) == LowerStr(Reverse(s))
  {
    var l, r := Reverse(LowerStr(s)), LowerStr(Reverse(s));
    assert |l| == |r|;
    forall i | 0 <= i < |s| ensures l[i] == r[i] {
      var j := |s| - 1 - i;
      assert l[i] == LowerStr(s)[j] == Lower(s[j]);
      assert r[i] == Lower(Reverse(s)[i]);
    }
  }

  /** The matches in the reversed string are the mirrored boundaries of the original. */
  lemma {:induction false} MirroredMatches(s: string)
    ensures Reverse(ReversedMatches(Reverse(s))) == Boundaries(s)
  {
    var r := Reverse(s);
    var m, b := Reverse(ReversedMatches(r)), Boundaries(s);
    assert |m| == |b|;
    forall q | 0 <= q <= |s| ensures m[q] == b[q] {
      var p := |s| - q;
      assert m[q] == ReversedMatch(r, p);
      if 0 < p && p < |s| {
        assert r[p - 1] == s[q];
        assert r[p] == s[q - 1];
      }
    }
  }

  /** The regular expression on the reversed string inserts "_" exactly at the boundaries. */
  lemma {:induction false} SnakecaseForward(s: string)
    ensures Snakecase(s) == SnakecaseRef(s)
  {
    var r := Reverse(s);
    var spliced := Splice(r, ReversedMatches(r));
    ReverseLower(spliced);
    ReverseSplice(r, ReversedMatches(r));
    ReverseReverse(s);
    MirroredMatches(s);
  }

  /** The output is the input plus one character per inserted "_". */
  lemma SnakecaseLength(s: string)
    ensures |Snakecase(s)| == |s| + Hits(Boundaries(s))
  {
    SnakecaseForward(s);
  }

  /**
   * Each input character keeps its place, shifted right by the underscores
   * inserted up to it; right before it stands "_" exactly at a boundary, and
   * the previous character otherwise.
   */
  lemma SnakecaseAt(s: string, q: int)
    requires 0 <= q < |s|
    ensures var o, j := Snakecase(s), q + Hits(Boundaries(s)[..q + 1]);
      && j < |o|
      && o[j] == Lower(s[q])
      && (Boundary(s, q) ==> o[j - 1] == '_')
      && (!Boundary(s, q) && 0 < q ==> o[j - 1] == Lower(s[q - 1]))
  {
    SnakecaseForward(s);
    SpliceAt(s, Boundaries(s), q);
  }

  lemma RefNoBoundary(s: string)
    requires forall q :: 0 <= q <= |s| ==> !Boundary(s, q)
    ensures SnakecaseRef(s) == LowerStr(s)
  {
    var at := Boundaries(s);
    forall p | 0 <= p < |at| ensures !at[p] {
      assert at[p] == Boundary(s, p);
    }
    SpliceNoHits(s, at);
  }

  /** Without any boundary the string is only lowercased. */
  lemma SnakecaseNoBoundary(s: string)
    requires forall q :: 0 <= q <= |s| ==> !Boundary(s, q)
    ensures Snakecase(s) == LowerStr(s)
  {
    SnakecaseForward(s);
    RefNoBoundary(s);
  }

  /** No uppercase letter: the string comes back unchanged. */
  lemma SnakecaseNoCapitals(s: string)
    requires forall i :: 0 <= i < |s| ==> !IsUpper(s[i])
    ensures Snakecase(s) == s
  {
    SnakecaseNoBoundary(s);
    assert LowerStr(s) == s;
  }

  /** A run of capitals gets no underscore between its letters; it is only lowercased. */
  lemma SnakecaseCapitalRun(s: string)
    requires forall i :: 0 <= i < |s| ==> IsUpper(s[i])
    ensures Snakecase(s) == LowerStr(s)
  {
    SnakecaseNoBoundary(s);
  }

  /** The output never starts with an inserted underscore. */
  lemma SnakecaseHead(s: string)
    requires |s| > 0
    ensures Snakecase(s)[0] == Lower(s[0])
  {
    SnakecaseForward(s);
    SpliceHead(s, Boundaries(s));
  }

  /**
   * Snake-casing a concatenation snake-cases both parts and puts "_" at the
   * join exactly when the join is a boundary.
   */
  lemma SnakecaseConcat(a: string, b: string)
    requires |a| > 0 && |b| > 0 && b[0] != '\n'
    ensures Snakecase(a + b) == Snakecase(a) + Mark(Boundary(a + b, |a|)) + Snakecase(b)
  {
    SnakecaseForward(a + b);
    SnakecaseForward(a);
    SnakecaseForward(b);
    RefConcat(a, b);
  }

  lemma {:induction false} RefConcat(a: string, b: string)
    requires |a| > 0 && |b| > 0 && b[0] != '\n'
    ensures SnakecaseRef(a + b) == SnakecaseRef(a) + Mark(Boundary(a + b, |a|)) + SnakecaseRef(b)
  {
    var m := Mark(Boundary(a + b, |a|));
    var sa, sb := Splice(a, Boundaries(a)), Splice(b, Boundaries(b));
    SpliceConcat(a, b);
    LowerStrAppend(sa + m, sb);
    LowerStrAppend(sa, m);
    LowerMark(Boundary(a + b, |a|));
  }

  lemma LowerMark(hit: bool)
    ensures LowerStr(Mark(hit)) == Mark(hit)
  {
    if hit {
      assert LowerStr("_") == [Lower('_')] + LowerStr("");
    }
  }

  lemma {:induction false} SpliceConcat(a: string, b: string)
    requires |a| > 0 && |b| > 0 && b[0] != '\n'
    ensures Splice(a + b, Boundaries(a + b))
      == Splice(a, Boundaries(a)) + Mark(Boundary(a + b, |a|)) + Splice(b, Boundaries(b))
  {
    var at := Boundaries(a + b);
    var m := Mark(Boundary(a + b, |a|));
    SpliceAppend(a, b, at);
    BoundariesLeft(a, b);
    BoundariesRight(a, b);
    SpliceMarkFirst(b, Boundaries(b), Boundary(a + b, |a|));
    AppendAssoc(Splice(a, Boundaries(a)), m, Splice(b, Boundaries(b)));
  }

  lemma BoundariesLeft(a: string, b: string)
    ensures Boundaries(a + b)[..|a|] + [false] == Boundaries(a)
  {
    var l, r := Boundaries(a + b)[..|a|] + [false], Boundaries(a);
    forall q | 0 <= q < |a| ensures l[q] == r[q] {
      if 0 < q {
        assert (a + b)[q] == a[q] && (a + b)[q - 1] == a[q - 1];
      }
      if 0 < |a| {
        assert (a + b)[0] == a[0];
      }
    }
  }

  lemma BoundariesRight(a: string, b: string)
    requires |a| > 0 && |b| > 0 && b[0] != '\n'
    ensures Boundaries(a + b)[|a|..] == Boundaries(b)[0 := Boundary(a + b, |a|)]
  {
    var l, r := Boundaries(a + b)[|a|..], Boundaries(b)[0 := Boundary(a + b, |a|)];
    forall i | 1 <= i <= |b| ensures l[i] == r[i] {
      if i < |b| {
        assert (a + b)[|a| + i] == b[i] && (a + b)[|a| + i - 1] == b[i - 1];
      }
    }
  }


  /** A run of capitals followed by a part without capitals: no underscore at all. */
  lemma RefCapitalsThenPlain(u: string, w: string)
    requires forall i :: 0 <= i < |u| ==> IsUpper(u[i])
    requires forall i :: 0 <= i < |w| ==> !IsUpper(w[i])
    ensures SnakecaseRef(u + w) == LowerStr(u) + w
  {
    var s := u + w;
    forall q | 0 <= q <= |s| ensures !Boundary(s, q) {
      if 0 < q < |s| && IsUpper(s[q]) {
        assert q < |u| && s[q - 1] == u[q - 1];
      }
    }
    RefNoBoundary(s);
    LowerStrAppend(u, w);
    assert LowerStr(w) == w;
  }

  lemma SnakecaseCapitalsThenPlain(u: string, w: string)
    requires forall i :: 0 <= i < |u| ==> IsUpper(u[i])
    requires forall i :: 0 <= i < |w| ==> !IsUpper(w[i])
    ensures Snakecase(u + w) == LowerStr(u) + w
  {
    SnakecaseForward(u + w);
    RefCapitalsThenPlain(u, w);
  }

  /**
   * A run of capitals, a word without capitals, then a capitalised word:
   * the only underscore goes before the capital that starts the last word.
   */
  lemma SnakecaseWords(u: string, w: string, c: char, v: string)
    requires forall i :: 0 <= i < |u| ==> IsUpper(u[i])
    requires |w| > 0 && w[|w| - 1] != '_' && forall i :: 0 <= i < |w| ==> !IsUpper(w[i]) && w[i] != '\n'
    requires IsUpper(c)
    requires forall i :: 0 <= i < |v| ==> !IsUpper(v[i])
    ensures Snakecase(u + w + ([c] + v)) == LowerStr(u) + w + "_" + ([Lower(c)] + v)
  {
    RefWords(u, w, c, v);
    SnakecaseForward(u + w + ([c] + v));
  }

  lemma RefWords(u: string, w: string, c: char, v: string)
    requires forall i :: 0 <= i < |u| ==> IsUpper(u[i])
    requires |w| > 0 && w[|w| - 1] != '_' && forall i :: 0 <= i < |w| ==> !IsUpper(w[i]) && w[i] != '\n'
    requires IsUpper(c)
    requires forall i :: 0 <= i < |v| ==> !IsUpper(v[i])
    ensures SnakecaseRef((u + w) + ([c] + v)) == LowerStr(u) + w + "_" + ([Lower(c)] + v)
  {
    WordsJoin(u, w, c, v);
    RefConcat(u + w, [c] + v);
    RefCapitalsThenPlain(u, w);
    RefCapital(c, v);
  }

  lemma RefCapital(c: char, v: string)
    requires IsUpper(c)
    requires forall i :: 0 <= i < |v| ==> !IsUpper(v[i])
    ensures SnakecaseRef([c] + v) == [Lower(c)] + v
  {
    RefCapitalsThenPlain([c], v);
    assert LowerStr([c]) == [Lower(c)];
  }

  lemma WordsJoin(u: string, w: string, c: char, v: string)
    requires |w| > 0 && w[|w| - 1] != '_' && forall i :: 0 <= i < |w| ==> !IsUpper(w[i]) && w[i] != '\n'
    requires IsUpper(c)
    ensures Boundary(u + w + ([c] + v), |u + w|)
  {
    var a, b := u + w, [c] + v;
    assert (a + b)[|a|] == c && (a + b)[|a| - 1] == w[|w| - 1];
    assert (a + b)[0] == if |u| > 0 then u[0] else w[0];
  }

  // ---------------------------------------------------------------- flatten

  /** A bytes object iterates as its byte values. */
  function ByteValues(b: seq<bv8>): (r: seq<Item>)
    ensures |r| == |b|
    ensures forall i :: 0 <= i < |b| ==> r[i] == Num(b[i] as int)
  {
    seq(|b|, i requires 0 <= i < |b| => Num(b[i] as int))
  }

  /** A non-empty string: iterating it yields one-character strings, whose own iteration never ends. */
  predicate IsText(x: Item) {
    x.Str? && x.s != ""
  }

  /**
   * `flatten`: every iterable is recursed into. Lists splice their
   * flattened elements, bytes their byte values, the empty string nothing;
   * a non-empty string recurses without end and raises `RecursionError`.
   */
  function FlattenSpec(items: seq<Item>): Result<seq<Item>>
    decreases items
  {
    if items == [] then Ok([])
    else
      var last := items[|items| - 1];
      match FlattenSpec(items[..|items| - 1])
      case Err(e) => Err(e)
      case Ok(front) =>
        var tail :=
          if last.List? then FlattenSpec(last.items)
          else if IsText(last) then Err(RecursionError)
          else if last.Str? then Ok([])
          else if last.Bytes? then Ok(ByteValues(last.b))
          else Ok([last]);
        match tail
        case Err(e) => Err(e)
        case Ok(t) => Ok(front + t)
  }

  /** The leaves in order, each with its own iteration spliced in. */
  function Spread(leaves: seq<Item>): (r: seq<Item>)
    ensures forall k :: 0 <= k < |r| ==> IsAtom(r[k]) && !r[k].Str? && !r[k].Bytes?
  {
    if leaves == [] then []
    else
      Spread(leaves[..|leaves| - 1]) + SpreadOne(leaves[|leaves| - 1])
  }

  /** What one leaf contributes: nothing for text, its byte values for bytes, itself otherwise. */
  function SpreadOne(x: Item): (r: seq<Item>)
    ensures forall k :: 0 <= k < |r| ==> IsAtom(r[k]) && !r[k].Str? && !r[k].Bytes?
  {
    if x.Str? || x.List? then [] else if x.Bytes? then ByteValues(x.b) else [x]
  }

  /** No text among `leaves`. */
  predicate NoTextIn(leaves: seq<Item>) {
    forall k :: 0 <= k < |leaves| ==> !IsText(leaves[k])
  }

  /** No text among the leaves of `items`. */
  predicate NoText(items: seq<Item>) {
    NoTextIn(Leaves(items))
  }

  lemma {:induction false} SpreadAppend(a: seq<Item>, b: seq<Item>)
    ensures Spread(a + b) == Spread(a) + Spread(b)
    decreases |b|
  {
    if b == [] {
      assert a + b == a;
    } else {
      var n := |b| - 1;
      assert (a + b)[..|a + b| - 1] == a + b[..n];
      assert (a + b)[|a + b| - 1] == b[n];
      SpreadAppend(a, b[..n]);
      var x, y, z := Spread(a), Spread(b[..n]), SpreadOne(b[n]);
      assert Spread(a + b) == x + y + z;
      assert Spread(b) == y + z;
      AppendAssoc(x, y, z);
    }
  }

  lemma NoTextAppend(a: seq<Item>, b: seq<Item>)
    ensures NoText(a + b) <==> NoText(a) && NoText(b)
  {
    LeavesAppend(a, b);
    NoTextInAppend(Leaves(a), Leaves(b));
  }

  lemma NoTextInAppend(la: seq<Item>, lb: seq<Item>)
    ensures NoTextIn(la + lb) <==> NoTextIn(la) && NoTextIn(lb)
  {
    if NoTextIn(la) && NoTextIn(lb) {
      forall k | 0 <= k < |la + lb| ensures !IsText((la + lb)[k]) {
        if k < |la| {
          assert (la + lb)[k] == la[k];
        } else {
          assert (la + lb)[k] == lb[k - |la|];
        }
      }
    }
    if NoTextIn(la + lb) {
      forall k | 0 <= k < |la| ensures !IsText(la[k]) {
        assert (la + lb)[k] == la[k];
      }
      forall k | 0 <= k < |lb| ensures !IsText(lb[k]) {
        assert (la + lb)[|la| + k] == lb[k];
      }
    }
  }

  /**
   * `flatten` fails exactly when a non-empty string sits somewhere in the
   * nesting; otherwise it returns the leaves in order, with bytes spread
   * into their values and empty strings dropped.
   */
  lemma {:induction false} FlattenSpecLeaves(items: seq<Item>)
    ensures FlattenSpec(items) == if NoText(items) then Ok(Spread(Leaves(items))) else Err(RecursionError)
    decreases items
  {
    if items != [] {
      var n := |items| - 1;
      var init, last := items[..n], items[n];
      assert items == init + [last];
      FlattenSpecLeaves(init);
      NoTextAppend(init, [last]);
      LeavesOfOne(last);
      if last.List? {
        FlattenSpecLeaves(last.items);
        assert NoText([last]) == NoText(last.items);
        SpreadAppend(Leaves(init), Leaves(last.items));
      } else {
        assert Leaves([last]) == [last];
        SpreadAppend(Leaves(init), [last]);
      }
    }
  }

  /** Nested lists of plain atoms (no strings, no bytes) flatten to their leaves in order. */
  lemma FlattenPlainAtoms(items: seq<Item>)
    requires forall k :: 0 <= k < |Leaves(items)| ==> !Leaves(items)[k].Str? && !Leaves(items)[k].Bytes?
    ensures FlattenSpec(items) == Ok(Leaves(items))
  {
    FlattenSpecLeaves(items);
    SpreadPlain(Leaves(items));
  }

  lemma {:induction false} SpreadPlain(leaves: seq<Item>)
    requires forall k :: 0 <= k < |leaves| ==> IsAtom(leaves[k]) && !leaves[k].Str? && !leaves[k].Bytes?
    ensures Spread(leaves) == leaves
  {
    if leaves != [] {
      SpreadPlain(leaves[..|leaves| - 1]);
    }
  }

  /** A failure in a prefix is a failure of the whole. */
  lemma {:induction false} FlattenSpecErrExtends(items: seq<Item>, i: int)
    requires 0 <= i <= |items| && FlattenSpec(items[..i]).Err?
    ensures FlattenSpec(items) == Err(RecursionError)
  {
    FlattenSpecLeaves(items[..i]);
    FlattenSpecLeaves(items);
    assert items == items[..i] + items[i..];
    NoTextAppend(items[..i], items[i..]);
  }

  /** `flatten`: extends the new list item by item, recursing into every iterable. */
  method Flatten(iterableOfIterables: seq<Item>) returns (r: Result<seq<Item>>)
    ensures r == FlattenSpec(iterableOfIterables)
    decreases iterableOfIterables
  {
    var newList: seq<Item> := [];
    for i := 0 to |iterableOfIterables|
      invariant FlattenSpec(iterableOfIterables[..i]) == Ok(newList)
    {
      var item := iterableOfIterables[i];
      assert iterableOfIterables[..i + 1][..i] == iterableOfIterables[..i];
      if item.List? {
        var nested := Flatten(item.items);
        if nested.Err? {
          FlattenSpecErrExtends(iterableOfIterables, i + 1);
          return Err(RecursionError);
        }
        newList := newList + nested.value;
      } else if item.Str? {
        // A string is iterable: each of its one-character strings is
        // iterable again and yields itself, so the recursion only ends
        // for the empty string.
        if item.s != "" {
          FlattenSpecErrExtends(iterableOfIterables, i + 1);
          return Err(RecursionError);
        }
        assert newList + [] == newList;
      } else if item.Bytes? {
        newList := newList + ByteValues(item.b);
      } else {
        newList := newList + [item];
      }
    }
    assert iterableOfIterables[..|iterableOfIterables|] == iterableOfIterables;
    r := Ok(newList);
  }

  /**
   * The nesting `[[p, q], [["abc", b"abc"], [t, u]]]` of the unit test: any
   * non-empty string in the third place makes `flatten` raise instead of
   * returning the six leaves.
   */
  lemma FlattenRejectsTestInput(p: Item, q: Item, s: string, y: Item, t: Item, u: Item)
    requires IsAtom(p) && IsAtom(q) && IsAtom(y) && IsAtom(t) && IsAtom(u) && s != ""
    ensures FlattenSpec([List([p, q]), List([List([Str(s), y]), List([t, u])])]) == Err(RecursionError)
  {
    var items := [List([p, q]), List([List([Str(s), y]), List([t, u])])];
    FlattenNested(p, q, Str(s), y, t, u);
    assert Leaves(items)[2] == Str(s);
    FlattenSpecLeaves(items);
  }
}
