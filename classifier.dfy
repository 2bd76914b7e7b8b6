/** Matching a file name against the company keys (main.py:101-104). */
module Classifier {
  import opened Outcomes
  import opened Text
  import opened Fs
  import opened Normalizer
  import opened AliasTable

  /** Key `keys[i]` is the first of `keys` that occurs in `fileName`. */
  predicate FirstMatchAt(keys: seq<string>, fileName: string, i: int) {
    && 0 <= i < |keys|
    && Contains(fileName, keys[i])
    && forall j :: 0 <= j < i ==> !Contains(fileName, keys[j])
  }

  /** `for key in sorted_keys: if key in file_name: matched_key = key; break`.
      The result is the first key that occurs in the file name, and there is
      none exactly when no key occurs in it. */
  function Classify(keys: seq<string>, fileName: string): (r: Option<string>)
    ensures r.None? <==> forall i :: 0 <= i < |keys| ==> !Contains(fileName, keys[i])
    ensures r.Some? ==> exists i :: FirstMatchAt(keys, fileName, i) && keys[i] == r.value
  {
    if keys == [] then None
    else if Contains(fileName, keys[0]) then
      assert FirstMatchAt(keys, fileName, 0);
      Some(keys[0])
    else
      var r := Classify(keys[1..], fileName);
      assert forall i :: 0 <= i < |keys[1..]| ==> keys[1..][i] == keys[i + 1];
      if r.Some? then
        var i :| FirstMatchAt(keys[1..], fileName, i) && keys[1..][i] == r.value;
        assert FirstMatchAt(keys, fileName, i + 1);
        r
      else r
  }

  /** The key found is the one at the first matching position. */
  lemma ClassifyFirstMatch(keys: seq<string>, fileName: string, i: int)
    requires FirstMatchAt(keys, fileName, i)
    ensures Classify(keys, fileName) == Some(keys[i])
  {
    var r := Classify(keys, fileName);
    var i' :| FirstMatchAt(keys, fileName, i') && keys[i'] == r.value;
  }

  /** Longest match wins: when the keys are in `sorted_keys` order, no key
      strictly longer than the matched one occurs in the file name. */
  lemma LongestKeyWins(keys: seq<string>, fileName: string)
    requires LengthsNonIncreasing(keys)
    requires Classify(keys, fileName).Some?
    ensures forall k :: k in keys && |k| > |Classify(keys, fileName).value| ==> !Contains(fileName, k)
  {
    var m := Classify(keys, fileName).value;
    var i :| FirstMatchAt(keys, fileName, i) && keys[i] == m;
    forall k | k in keys && |k| > |m| ensures !Contains(fileName, k) {
      var j :| 0 <= j < |keys| && keys[j] == k;
    }
  }

  /** A target root listing a folder and then a folder with a longer name
      (say "Alpha", then "AlphaBeta") gives the keys longest first, so a file
      whose name holds the longer key (say "AlphaBeta_invoice.pdf") is filed
      under it, although the shorter folder was listed first and its key may
      occur in the name too. */
  lemma LongestKeyExample(short: string, long: string, fileName: string)
    requires short != [] && !IsDigit(short[0]) && !IsSpace(short[0]) && !IsSpace(short[|short| - 1])
    requires long != [] && !IsDigit(long[0]) && !IsSpace(long[0]) && !IsSpace(long[|long| - 1])
    requires '原' !in short && '原' !in long && |short| < |long|
    requires Contains(fileName, long)
    ensures var keys := SortedKeys(TableOf([Entry(short, true, []), Entry(long, true, [])]));
      && keys == [long, short]
      && Classify(keys, fileName) == Some(long)
  {
    var listing := [Entry(short, true, []), Entry(long, true, [])];
    NormalizePlainName(short);
    NormalizePlainName(long);
    TwoEntryOrder(listing[0], listing[1], Alias);
    SortTwoByLength(short, long);
  }
}
