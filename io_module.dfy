/**
 * `actigraphy.io`: its own `_snakecase` (with the all-capitals shortcut and
 * a pattern that splits runs of capitals) and the single-key check that ends
 * `_rdata_to_dataframe`.
 */
module Io {
  import opened Wrappers
  import opened Text
  import opened RegexSub
  import IoUtils

  // ---------------------------------------------------------------- _snakecase

  /** `all(c.isupper() for c in s)`: true of the empty string too. */
  predicate AllUpper(s: string) {
    forall i :: 0 <= i < |s| ==> IsUpper(s[i])
  }

  /** The pattern `(?<!^)(?<!_)(?=[A-Z])` matches at position `q` of `s`. */
  predicate CamelMatch(s: string, q: int)
    requires 0 <= q <= |s|
  {
    0 < q < |s| && s[q - 1] != '_' && IsUpper(s[q])
  }

  function CamelMatches(s: string): (at: seq<bool>)
    ensures |at| == |s| + 1
    ensures forall q :: 0 <= q <= |s| ==> at[q] == CamelMatch(s, q)
  {
    seq(|s| + 1, q requires 0 <= q <= |s| => CamelMatch(s, q))
  }

  /** `_snakecase`: all capitals are only lowercased; otherwise "_" goes before every matched capital. */
  function Snakecase(s: string): string {
    if AllUpper(s) then LowerStr(s) else LowerStr(Splice(s, CamelMatches(s)))
  }

  /** An all-capitals string (the empty one included) comes back in lower case, with nothing inserted. */
  lemma SnakecaseAllUpper(s: string)
    requires AllUpper(s)
    ensures |Snakecase(s)| == |s|
    ensures forall i :: 0 <= i < |s| ==> Snakecase(s)[i] as int == s[i] as int + 32
  {
  }

  /** A string without capitals comes back unchanged. */
  lemma SnakecaseNoCapitals(s: string)
    requires forall i :: 0 <= i < |s| ==> !IsUpper(s[i])
    ensures Snakecase(s) == s
  {
    if s != [] {
      assert !IsUpper(s[0]);
      SpliceNoHits(s, CamelMatches(s));
    }
    assert LowerStr(s) == s;
  }

  /**
   * Outside the shortcut, each input character keeps its place shifted right by
   * the underscores inserted up to it, and right before it stands "_" exactly
   * when it is a capital that neither opens the string nor follows "_".
   */
  lemma SnakecaseAt(s: string, q: int)
    requires !AllUpper(s) && 0 <= q < |s|
    ensures var o, j := Snakecase(s), q + Hits(CamelMatches(s)[..q + 1]);
      && j < |o|
      && o[j] == Lower(s[q])
      && (0 < q && IsUpper(s[q]) && s[q - 1] != '_' ==> o[j - 1] == '_')
      && (0 < q && !(IsUpper(s[q]) && s[q - 1] != '_') ==> o[j - 1] == Lower(s[q - 1]))
  {
    SpliceAt(s, CamelMatches(s), q);
  }

  /** Two capitals in a row are split, unlike the `actigraphy.io.utils` snake-caser, which keeps "ABc" together. */
  lemma SnakecaseSplitsCapitals(s: string)
    requires s == "ABc"
    ensures Snakecase(s) == "a_bc"
    ensures IoUtils.Snakecase(s) == "abc"
  {
    assert !IsUpper(s[2]);
    var at := CamelMatches(s);
    assert at == [false, true, false, false];
    SpliceSecondMark(s, at);
    assert LowerStr([s[0]] + "_" + [s[1], s[2]]) == "a_bc";
    assert s == "AB" + "c";
    IoUtils.SnakecaseCapitalsThenPlain("AB", "c");
    assert LowerStr("AB") == "ab";
  }

  /** Three characters with a match only before the second. */
  lemma SpliceSecondMark(s: string, at: seq<bool>)
    requires |s| == 3 && at == [false, true, false, false]
    ensures Splice(s, at) == [s[0]] + "_" + [s[1], s[2]]
  {
    assert Splice(s[2..], at[2..]) == [s[2]] by {
      assert Splice(s[3..], at[3..]) == "";
    }
    assert Splice(s[1..], at[1..]) == "_" + [s[1], s[2]];
  }

  /** A digit turns the shortcut off, so capitals before it are split. */
  lemma SnakecaseDigitDisablesShortcut(s: string)
    requires s == "AB4"
    ensures Snakecase(s) == "a_b4"
  {
    assert !IsUpper(s[2]);
    var at := CamelMatches(s);
    assert at == [false, true, false, false];
    SpliceSecondMark(s, at);
    assert LowerStr([s[0]] + "_" + [s[1], s[2]]) == "a_b4";
  }

  /** On all capitals both snake-casers lowercase. */
  lemma SnakecaseAgreesAllUpper(s: string)
    requires AllUpper(s)
    ensures Snakecase(s) == IoUtils.Snakecase(s)
  {
    IoUtils.SnakecaseCapitalsThenPlain(s, "");
    assert s + "" == s;
  }

  /**
   * Without two capitals in a row (and without a newline before a capital at
   * the start, where the other snake-caser inserts nothing), both snake-casers
   * insert "_" at the same places.
   */
  lemma SnakecaseAgrees(s: string)
    requires forall q :: 0 < q < |s| && IsUpper(s[q]) ==> !IsUpper(s[q - 1])
    requires !(2 <= |s| && s[0] == '\n' && IsUpper(s[1]))
    ensures Snakecase(s) == IoUtils.Snakecase(s)
  {
    if AllUpper(s) {
      SnakecaseAgreesAllUpper(s);
    } else {
      var a, b := CamelMatches(s), IoUtils.Boundaries(s);
      forall q | 0 <= q <= |s| ensures a[q] == b[q] {
        if 0 < q < |s| && IsUpper(s[q]) {
          assert !IsUpper(s[q - 1]);
        }
      }
      assert a == b;
      IoUtils.SnakecaseForward(s);
    }
  }

  // ---------------------------------------------------------------- _rdata_to_dataframe

  predicate DistinctKeys<V>(items: seq<(string, V)>) {
    forall i, j :: 0 <= i < j < |items| ==> items[i].0 != items[j].0
  }

  /**
   * The end of `_rdata_to_dataframe`: the converted file as its `(key, value)`
   * items in order; the sole value when there is exactly one key, ValueError
   * otherwise.
   */
  function RdataToDataframe<V>(datadict: seq<(string, V)>): (r: Result<V>)
    requires DistinctKeys(datadict)
    ensures r.Ok? <==> |datadict| == 1
    ensures r.Ok? ==> datadict == [(datadict[0].0, r.value)]
    ensures r.Err? ==> r.error == ValueError
  {
    if |datadict| == 1 then Ok(datadict[0].1) else Err(ValueError)
  }
}
