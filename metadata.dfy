/**
 * `actigraphy.io.metadata`: cleaning the nested dictionary read from a
 * metadata file before it becomes a `MetaData` object.
 */
module Metadata {
  import opened Wrappers
  import opened Text
  import opened RegexSub
  import opened IoUtils

  /** A value of the converted file. */
  datatype RValue =
    | Scalar(text: string)                   // numbers, strings, data frames: neither a list nor a dict
    | ListOf(elems: seq<RValue>)
    | DictOf(entries: seq<Entry>)            // items in insertion order

  /** One `key: value` item of a dict. */
  datatype Entry = Entry(key: string, value: RValue)

  /**
   * A value of the cleaned dict: a nested dict that was cleaned itself, or
   * any other value after `_clean_value`. The cleaned dict is a mapping; the
   * order of its keys is not modelled.
   */
  datatype Cleaned =
    | Kept(value: RValue)
    | CleanedDict(fields: map<string, Cleaned>)

  // ---------------------------------------------------------------- keys and values

  /** `key.replace(".", "_")`. */
  function ReplaceDots(key: string): (r: string)
    ensures |r| == |key|
    ensures forall i :: 0 <= i < |key| ==> r[i] == if key[i] == '.' then '_' else key[i]
  {
    seq(|key|, i requires 0 <= i < |key| => if key[i] == '.' then '_' else key[i])
  }

  /** A legal attribute name as `_clean_key` makes it: no dot and no capital letter. */
  predicate IsCleanKey(key: string) {
    '.' !in key && forall i :: 0 <= i < |key| ==> !IsUpper(key[i])
  }

  /** `_clean_key`: dots become underscores, then the key is snake-cased. */
  function CleanKey(key: string): (r: string)
    ensures IsCleanKey(r)
  {
    var dotless := ReplaceDots(key);
    SnakecaseNoDot(dotless);
    Snakecase(dotless)
  }

  lemma SnakecaseNoDot(s: string)
    requires '.' !in s
    ensures IsCleanKey(Snakecase(s))
  {
    SnakecaseForward(s);
    var spliced := Splice(s, Boundaries(s));
    SpliceChars(s, Boundaries(s));
    var o := LowerStr(spliced);
    forall i | 0 <= i < |o| ensures o[i] != '.' {
      assert spliced[i] in spliced;
    }
  }

  /** A key that is already clean is kept, so cleaning twice is cleaning once. */
  lemma CleanKeyOfCleanKey(key: string)
    requires IsCleanKey(key)
    ensures CleanKey(key) == key
  {
    assert ReplaceDots(key) == key;
    SnakecaseNoCapitals(key);
  }

  lemma CleanKeyIdempotent(key: string)
    ensures CleanKey(CleanKey(key)) == CleanKey(key)
  {
    CleanKeyOfCleanKey(CleanKey(key));
  }

  /** `_clean_value`: a list of exactly one element is replaced by that element. */
  function CleanValue(value: RValue): (r: RValue)
    ensures value == ListOf([r]) <==> value.ListOf? && |value.elems| == 1
    ensures value != ListOf([r]) ==> r == value
  {
    if value.ListOf? && |value.elems| == 1 then value.elems[0] else value
  }

  // ---------------------------------------------------------------- `_snakecase` on the keys of the unit tests

  // `_snakecase` is the same expression as `IoUtils.Snakecase`; the lemmas
  // below work out the six keys the unit tests give it.

  lemma LowersTo(s: string, t: string)
    requires |s| == |t| && forall i :: 0 <= i < |s| ==> Lower(s[i]) == t[i]
    ensures LowerStr(s) == t
  {
  }

  lemma SnakecaseAllUppercase(s: string)
    requires s == "ALLUPPERCASE"
    ensures Snakecase(s) == "alluppercase"
  {
    SnakecaseForward(s);
    RefAllUppercase(s);
  }

  lemma RefAllUppercase(s: string)
    requires s == "ALLUPPERCASE"
    ensures SnakecaseRef(s) == "alluppercase"
  {
    LowerAllUppercase(s, "alluppercase");
    RefCapitalsThenPlain(s, "");
    assert s + "" == s;
  }

  /** The word of the first two cases, character by character. */
  lemma LowerAllUppercase(u: string, t: string)
    requires u == "ALLUPPERCASE" && t == "alluppercase"
    ensures forall i :: 0 <= i < |u| ==> IsUpper(u[i])
    ensures LowerStr(u) == t
  {
    forall i | 0 <= i < |u| ensures IsUpper(u[i]) && Lower(u[i]) == t[i] {
      if i < 6 {
        if i < 3 { } else { }
      } else {
        if i < 9 { } else { }
      }
    }
    LowersTo(u, t);
  }

  lemma SnakecaseAllUppercaseWithDigit(s: string)
    requires s == "ALLUPPERCASE4"
    ensures Snakecase(s) == "alluppercase4"
  {
    SnakecaseForward(s);
    RefAllUppercaseWithDigit(s);
  }

  lemma RefAllUppercaseWithDigit(s: string)
    requires s == "ALLUPPERCASE4"
    ensures SnakecaseRef(s) == "alluppercase4"
  {
    var u, w := s[..12], s[12..];
    assert u == "ALLUPPERCASE";
    LowerAllUppercase(u, "alluppercase");
    assert s == u + w;
    RefCapitalsThenPlain(u, w);
    assert w == "4";
  }

  lemma SnakecaseCamelCase(s: string)
    requires s == "camelCase"
    ensures Snakecase(s) == "camel_case"
  {
    SnakecaseForward(s);
    RefCamelCase(s);
  }

  lemma RefCamelCase(s: string)
    requires s == "camelCase"
    ensures SnakecaseRef(s) == "camel_case"
  {
    CamelCaseParts(s);
    RefWords("", "camel", 'C', "ase");
    assert LowerStr("") == "";
  }

  lemma CamelCaseParts(s: string)
    requires s == "camelCase"
    ensures s == "" + "camel" + (['C'] + "ase")
    ensures "" + "camel" + "_" + (['c'] + "ase") == "camel_case"
  {
  }

  lemma SnakecaseSnakeCase(s: string)
    requires s == "snake_case"
    ensures Snakecase(s) == "snake_case"
  {
    SnakecaseForward(s);
    RefSnakeCase(s);
  }

  lemma RefSnakeCase(s: string)
    requires s == "snake_case"
    ensures SnakecaseRef(s) == "snake_case"
  {
    SnakeCaseParts(s);
    RefCapitalsThenPlain("", "snake_case");
    assert LowerStr("") == "";
  }

  lemma SnakeCaseParts(s: string)
    requires s == "snake_case"
    ensures s == "" + "snake_case"
    ensures "" + "snake_case" == "snake_case"
  {
  }

  lemma SnakecasePascalCase(s: string)
    requires s == "PascalCase"
    ensures Snakecase(s) == "pascal_case"
  {
    SnakecaseForward(s);
    RefPascalCase(s);
  }

  lemma RefPascalCase(s: string)
    requires s == "PascalCase"
    ensures SnakecaseRef(s) == "pascal_case"
  {
    PascalCaseParts(s);
    RefWords("P", "ascal", 'C', "ase");
    assert LowerStr("P") == "p";
  }

  lemma PascalCaseParts(s: string)
    requires s == "PascalCase"
    ensures s == "P" + "ascal" + (['C'] + "ase")
    ensures "p" + "ascal" + "_" + (['c'] + "ase") == "pascal_case"
  {
  }

  lemma SnakecaseConsecutiveUppercase(s: string)
    requires s == "COnsecutiveUppercase"
    ensures Snakecase(s) == "consecutive_uppercase"
  {
    SnakecaseForward(s);
    RefConsecutiveUppercase(s);
  }

  lemma RefConsecutiveUppercase(s: string)
    requires s == "COnsecutiveUppercase"
    ensures SnakecaseRef(s) == "consecutive_uppercase"
  {
    ConsecutiveUppercaseParts(s);
    RefWords("CO", "nsecutive", 'U', "ppercase");
    assert LowerStr("CO") == "co";
  }

  lemma ConsecutiveUppercaseParts(s: string)
    requires s == "COnsecutiveUppercase"
    ensures s == "CO" + "nsecutive" + (['U'] + "ppercase")
    ensures "co" + "nsecutive" + "_" + (['u'] + "ppercase") == "consecutive_uppercase"
  {
  }

  // ---------------------------------------------------------------- filling a dict

  /** `d = {}` followed by `d[k] = v` for each pair in order: the later pair wins a shared key. */
  function Fill<V>(pairs: seq<(string, V)>): map<string, V> {
    if pairs == [] then map[]
    else
      var n := |pairs| - 1;
      Fill(pairs[..n])[pairs[n].0 := pairs[n].1]
  }

  lemma FillStep<V>(pairs: seq<(string, V)>, i: int)
    requires 0 <= i < |pairs|
    ensures Fill(pairs[..i + 1]) == Fill(pairs[..i])[pairs[i].0 := pairs[i].1]
  {
    assert pairs[..i + 1][..i] == pairs[..i];
  }

  /** The keys of the filled dict are the keys of the pairs. */
  lemma {:induction false} FillKeys<V>(pairs: seq<(string, V)>)
    ensures Fill(pairs).Keys == set i | 0 <= i < |pairs| :: pairs[i].0
  {
    if pairs != [] {
      var n := |pairs| - 1;
      FillKeys(pairs[..n]);
      var all, front := set i | 0 <= i < |pairs| :: pairs[i].0, set i | 0 <= i < n :: pairs[..n][i].0;
      forall k | k in all ensures k in front + {pairs[n].0} {
        var i :| 0 <= i < |pairs| && pairs[i].0 == k;
        if i < n {
          assert pairs[..n][i] == pairs[i];
        }
      }
      forall k | k in front ensures k in all {
        var i :| 0 <= i < n && pairs[..n][i].0 == k;
        assert pairs[..n][i] == pairs[i];
      }
    }
  }

  /** A key that no later pair shares holds its own pair's value. */
  lemma {:induction false} FillLastWins<V>(pairs: seq<(string, V)>, i: int)
    requires 0 <= i < |pairs|
    requires forall j :: i < j < |pairs| ==> pairs[j].0 != pairs[i].0
    ensures pairs[i].0 in Fill(pairs) && Fill(pairs)[pairs[i].0] == pairs[i].1
  {
    var n := |pairs| - 1;
    if i < n {
      assert pairs[..n][i] == pairs[i];
      FillLastWins(pairs[..n], i);
    }
  }

  // ---------------------------------------------------------------- the recursive clean

  /**
   * The value stored for one entry: a dict is cleaned recursively, every
   * other value goes through `CleanValue`. The dict test looks at the value
   * before `CleanValue`, so a dict inside a one-element list is unwrapped but
   * its keys stay as they were.
   */
  function CleanEntry(value: RValue): Cleaned
    decreases value
  {
    if value.DictOf? then CleanedDict(CleanSpec(value.entries)) else Kept(CleanValue(value))
  }

  /** The `(clean_key, clean_value)` pair of every entry, in order. */
  function CleanPairs(rData: seq<Entry>): (pairs: seq<(string, Cleaned)>)
    ensures |pairs| == |rData|
    decreases rData, 0
  {
    seq(|rData|, i requires 0 <= i < |rData| => (CleanKey(rData[i].key), CleanEntry(rData[i].value)))
  }

  /** `_recursive_clean_rdata`. */
  function CleanSpec(rData: seq<Entry>): map<string, Cleaned>
    decreases rData, 1
  {
    Fill(CleanPairs(rData))
  }

  /** `_recursive_clean_rdata`: fills the cleaned dict in a loop, recursing into dict values. */
  method RecursiveCleanRdata(rData: seq<Entry>) returns (cleanedRdata: map<string, Cleaned>)
    ensures cleanedRdata == CleanSpec(rData)
    decreases rData
  {
    cleanedRdata := map[];
    ghost var pairs := CleanPairs(rData);
    for i := 0 to |rData|
      invariant cleanedRdata == Fill(pairs[..i])
    {
      var key, value := rData[i].key, rData[i].value;
      var cleanKey := CleanKey(key);
      var cleanValue := Kept(CleanValue(value));
      if value.DictOf? {
        var nested := RecursiveCleanRdata(value.entries);
        cleanValue := CleanedDict(nested);
      }
      assert cleanValue == CleanEntry(value);
      assert pairs[i] == (cleanKey, cleanValue);
      FillStep(pairs, i);
      cleanedRdata := cleanedRdata[cleanKey := cleanValue];
    }
    assert pairs[..|rData|] == pairs;
  }

  /** The cleaned input keys. */
  function CleanKeys(rData: seq<Entry>): set<string> {
    set i | 0 <= i < |rData| :: CleanKey(rData[i].key)
  }

  /** The keys of the result are exactly the cleaned input keys, and all are clean. */
  lemma CleanSpecKeys(rData: seq<Entry>)
    ensures CleanSpec(rData).Keys == CleanKeys(rData)
    ensures forall k :: k in CleanSpec(rData) ==> IsCleanKey(k)
  {
    var pairs := CleanPairs(rData);
    FillKeys(pairs);
    var keys := set i | 0 <= i < |pairs| :: pairs[i].0;
    forall k | k in keys ensures k in CleanKeys(rData) {
      var i :| 0 <= i < |pairs| && pairs[i].0 == k;
      assert CleanKey(rData[i].key) == k;
    }
    forall k | k in CleanKeys(rData) ensures k in keys {
      var i :| 0 <= i < |rData| && CleanKey(rData[i].key) == k;
      assert pairs[i].0 == k;
    }
  }

  /** A key that no later entry shares holds that entry's cleaned value. */
  lemma CleanSpecLastWins(rData: seq<Entry>, i: int)
    requires 0 <= i < |rData|
    requires forall j :: i < j < |rData| ==> CleanKey(rData[j].key) != CleanKey(rData[i].key)
    ensures CleanKey(rData[i].key) in CleanSpec(rData)
    ensures CleanSpec(rData)[CleanKey(rData[i].key)] == CleanEntry(rData[i].value)
  {
    var pairs := CleanPairs(rData);
    FillLastWins(pairs, i);
  }

  /** A dict inside a one-element list is unwrapped but not cleaned. */
  lemma WrappedDictNotCleaned(entries: seq<Entry>)
    ensures CleanEntry(ListOf([DictOf(entries)])) == Kept(DictOf(entries))
    ensures CleanEntry(DictOf(entries)) == CleanedDict(CleanSpec(entries))
  {
  }
}
