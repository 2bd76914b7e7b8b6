/** The company table: every folder directly under the target root, keyed by
    its normalised name, and the keys in the order they are tried when
    matching file names, longest first (main.py:49-67). */
module AliasTable {
  import opened Fs
  import opened Normalizer

  /** `company_map`: a dict from alias to company folder. `order` is the
      dict's key order, the order in which each key was first inserted; an
      overwritten key keeps its place. */
  datatype CompanyMap = CompanyMap(folders: map<string, Entry>, order: seq<string>)

  const EmptyMap := CompanyMap(map[], [])

  predicate Distinct(s: seq<string>) {
    forall i, j :: 0 <= i < j < |s| ==> s[i] != s[j]
  }

  /** The key order lists every key of the dict exactly once. */
  ghost predicate WellFormed(m: CompanyMap) {
    && Distinct(m.order)
    && forall k :: k in m.folders <==> k in m.order
  }

  /** `company_map[key] = folder`. */
  function Put(m: CompanyMap, key: string, folder: Entry): (r: CompanyMap)
    requires WellFormed(m)
    ensures WellFormed(r)
    ensures r.folders == m.folders[key := folder]
  {
    if key in m.folders then CompanyMap(m.folders[key := folder], m.order)
    else CompanyMap(m.folders[key := folder], m.order + [key])
  }

  /** The alias a listed entry contributes: its normalised name when it is a
      directory, and nothing ("") otherwise. */
  function Alias(e: Entry): string {
    if e.isDir then Normalize(e.name) else ""
  }

  /** The table the loop of main.py:52-65 builds from `listing`, in order,
      when each entry contributes the key `key(entry)`; empty keys are
      skipped. Stated for any key function so that the facts about the fold
      do not depend on the normaliser. */
  function TableBy(listing: seq<Entry>, key: Entry -> string): (m: CompanyMap)
    ensures WellFormed(m)
  {
    if listing == [] then EmptyMap
    else
      var m := TableBy(listing[..|listing| - 1], key);
      var folder := listing[|listing| - 1];
      if key(folder) != "" then Put(m, key(folder), folder) else m
  }

  /** `company_map` after the scan of the target root's listing. */
  function TableOf(listing: seq<Entry>): CompanyMap {
    TableBy(listing, Alias)
  }

  /** Builds `company_map` from the target root's listing, one folder at a
      time, as main.py:52-65 does. */
  method BuildCompanyMap(listing: seq<Entry>) returns (companyMap: CompanyMap)
    ensures companyMap == TableOf(listing)
  {
    companyMap := EmptyMap;
    var i := 0;
    while i < |listing|
      invariant i <= |listing|
      invariant companyMap == TableOf(listing[..i])
    {
      var folder := listing[i];
      ghost var before := companyMap;
      if folder.isDir {
        var cleanName := CleanName(folder.name);
        if cleanName != "" {
          companyMap := Put(companyMap, cleanName, folder);
        }
      }
      TableOfStep(listing, i);
      i := i + 1;
    }
    assert listing[..i] == listing;
  }

  /** `company_map` after one more entry of the target root's listing. */
  lemma TableOfStep(listing: seq<Entry>, i: nat)
    requires i < |listing|
    ensures TableOf(listing[..i + 1]) ==
              if Alias(listing[i]) != "" then Put(TableOf(listing[..i]), Alias(listing[i]), listing[i])
              else TableOf(listing[..i])
  {
    TablePrefixStep(listing, Alias, i);
  }

  /** The table after one more entry of the listing. */
  lemma TablePrefixStep(listing: seq<Entry>, key: Entry -> string, i: nat)
    requires i < |listing|
    ensures TableBy(listing[..i + 1], key) ==
              if key(listing[i]) != "" then Put(TableBy(listing[..i], key), key(listing[i]), listing[i])
              else TableBy(listing[..i], key)
  {
    assert listing[..i + 1][..i] == listing[..i];
  }

  /** Two entries with distinct non-empty keys give a table whose key order
      is their listing order. */
  lemma TwoEntryOrder(first: Entry, second: Entry, key: Entry -> string)
    requires key(first) != "" && key(second) != "" && key(first) != key(second)
    ensures TableBy([first, second], key).order == [key(first), key(second)]
  {
    assert [first, second][..1] == [first];
    assert [first][..0] == [];
    var m := TableBy([first], key);
    assert TableBy([first][..0], key) == EmptyMap;
    assert m.folders == map[key(first) := first];
    assert m.order == [] + [key(first)] == [key(first)];
    assert key(second) !in m.folders;
  }

  /** Entry `i` contributes a key that no later entry contributes. */
  predicate LastWithKey(listing: seq<Entry>, key: Entry -> string, i: int) {
    && 0 <= i < |listing|
    && key(listing[i]) != ""
    && forall j :: i < j < |listing| ==> key(listing[j]) != key(listing[i])
  }

  /** One step of the fold. */
  lemma TableStep(listing: seq<Entry>, key: Entry -> string)
    requires listing != []
    ensures var init := TableBy(listing[..|listing| - 1], key).folders;
            var last := listing[|listing| - 1];
            TableBy(listing, key).folders ==
              if key(last) != "" then init[key(last) := last] else init
  {
  }

  /** Every key is the non-empty key of some listed entry. */
  lemma {:induction false} TableKeysFromListing(listing: seq<Entry>, key: Entry -> string)
    ensures forall k :: k in TableBy(listing, key).folders ==>
              k != "" && exists i :: 0 <= i < |listing| && key(listing[i]) == k
  {
    if listing != [] {
      var init := listing[..|listing| - 1];
      TableKeysFromListing(init, key);
      TableStep(listing, key);
      forall k | k in TableBy(listing, key).folders
        ensures k != "" && exists i :: 0 <= i < |listing| && key(listing[i]) == k
      {
        if k in TableBy(init, key).folders {
          var i :| 0 <= i < |init| && key(init[i]) == k;
          assert listing[i] == init[i];
        } else {
          assert key(listing[|listing| - 1]) == k;
        }
      }
    }
  }

  /** Every non-empty key is in the table, and its folder is the LAST listed
      entry with that key: on a collision the later folder wins. */
  lemma {:induction false} LastFolderWins(listing: seq<Entry>, key: Entry -> string, i: int)
    requires LastWithKey(listing, key, i)
    ensures key(listing[i]) in TableBy(listing, key).folders
    ensures TableBy(listing, key).folders[key(listing[i])] == listing[i]
  {
    var init := listing[..|listing| - 1];
    TableStep(listing, key);
    if i < |init| {
      assert listing[i] == init[i];
      assert key(listing[|listing| - 1]) != key(listing[i]);
      assert LastWithKey(init, key, i) by {
        forall j | i < j < |init| ensures key(init[j]) != key(init[i]) {
          assert init[j] == listing[j];
        }
      }
      LastFolderWins(init, key, i);
    }
  }

  /** Later insertions never move a key: the key order of the table built
      from any prefix of the listing is a prefix of the final key order. */
  lemma {:induction false} InsertionOrderKept(listing: seq<Entry>, key: Entry -> string, n: nat)
    requires n <= |listing|
    ensures TableBy(listing[..n], key).order <= TableBy(listing, key).order
  {
    if n < |listing| {
      var init := listing[..|listing| - 1];
      assert listing[..n] == init[..n];
      InsertionOrderKept(init, key, n);
    } else {
      assert listing[..n] == listing;
    }
  }

  /** For the company table: a key is the normalised name of a listed
      directory, never empty; a file or other non-directory entry never
      contributes one. */
  lemma CompanyKeysAreFolderAliases(listing: seq<Entry>)
    ensures forall k :: k in TableOf(listing).folders ==>
              k != "" && exists i :: 0 <= i < |listing| && listing[i].isDir && Normalize(listing[i].name) == k
  {
    TableKeysFromListing(listing, Alias);
    forall k | k in TableOf(listing).folders
      ensures exists i :: 0 <= i < |listing| && listing[i].isDir && Normalize(listing[i].name) == k
    {
      var i :| 0 <= i < |listing| && Alias(listing[i]) == k;
      assert listing[i].isDir;
    }
  }

  /** Inserts `x` before the first element no longer than it: a stable
      insertion for a sort by length, descending. */
  function InsertByLength(x: string, s: seq<string>): seq<string> {
    if s == [] || |s[0]| <= |x| then [x] + s
    else [s[0]] + InsertByLength(x, s[1..])
  }

  /** `sorted(keys, key=len, reverse=True)`: Python's sort is stable, and
      stays stable with `reverse=True`, so keys of equal length keep their
      relative order. */
  function SortByLength(s: seq<string>): seq<string> {
    if s == [] then [] else InsertByLength(s[0], SortByLength(s[1..]))
  }

  /** Two keys, the shorter first, are swapped by the sort. */
  lemma SortTwoByLength(shorter: string, longer: string)
    requires |shorter| < |longer|
    ensures SortByLength([shorter, longer]) == [longer, shorter]
  {
    assert [shorter, longer][1..] == [longer];
    assert [longer][1..] == [];
    assert SortByLength([longer]) == [longer];
    assert InsertByLength(shorter, [longer]) == [longer] + InsertByLength(shorter, []);
  }

  predicate LengthsNonIncreasing(s: seq<string>) {
    forall i, j :: 0 <= i < j < |s| ==> |s[i]| >= |s[j]|
  }

  /** The elements of `s` of length `n`, in order. */
  function OfLength(s: seq<string>, n: nat): seq<string> {
    if s == [] then []
    else if |s[0]| == n then [s[0]] + OfLength(s[1..], n)
    else OfLength(s[1..], n)
  }

  lemma {:induction false} InsertMultiset(x: string, s: seq<string>)
    ensures multiset(InsertByLength(x, s)) == multiset(s) + multiset{x}
  {
    if s != [] && |s[0]| > |x| {
      InsertMultiset(x, s[1..]);
      assert s == [s[0]] + s[1..];
    }
  }

  lemma {:induction false} InsertSorted(x: string, s: seq<string>)
    requires LengthsNonIncreasing(s)
    ensures LengthsNonIncreasing(InsertByLength(x, s))
  {
    if s != [] && |s[0]| > |x| {
      InsertSorted(x, s[1..]);
      InsertMultiset(x, s[1..]);
      var t := InsertByLength(x, s[1..]);
      var r := [s[0]] + t;
      forall j | 0 < j < |r| ensures |r[0]| >= |r[j]| {
        assert r[j] == t[j - 1];
        assert r[j] in multiset(s[1..]) + multiset{x};
        if r[j] != x {
          assert r[j] in s[1..];
          var k :| 0 <= k < |s[1..]| && s[1..][k] == r[j];
          assert s[k + 1] == r[j];
        }
      }
    }
  }

  lemma {:induction false} InsertOfLength(x: string, s: seq<string>, n: nat)
    ensures OfLength(InsertByLength(x, s), n) ==
            if |x| == n then [x] + OfLength(s, n) else OfLength(s, n)
  {
    if s == [] || |s[0]| <= |x| {
      assert ([x] + s)[1..] == s;
    } else {
      InsertOfLength(x, s[1..], n);
      assert ([s[0]] + InsertByLength(x, s[1..]))[1..] == InsertByLength(x, s[1..]);
    }
  }

  /** The match order is sorted by length, descending, holds exactly the
      same keys, and keeps keys of equal length in their original order. */
  lemma {:induction false} SortByLengthCorrect(s: seq<string>)
    ensures LengthsNonIncreasing(SortByLength(s))
    ensures multiset(SortByLength(s)) == multiset(s)
    ensures forall n: nat :: OfLength(SortByLength(s), n) == OfLength(s, n)
  {
    if s != [] {
      SortByLengthCorrect(s[1..]);
      InsertSorted(s[0], SortByLength(s[1..]));
      InsertMultiset(s[0], SortByLength(s[1..]));
      forall n: nat ensures OfLength(SortByLength(s), n) == OfLength(s, n) {
        InsertOfLength(s[0], SortByLength(s[1..]), n);
      }
      assert s == [s[0]] + s[1..];
    }
  }

  /** `sorted_keys` for a table. */
  function SortedKeys(m: CompanyMap): seq<string> {
    SortByLength(m.order)
  }

  lemma {:induction false} DistinctByMultiset(s: seq<string>, t: seq<string>)
    requires multiset(s) == multiset(t) && Distinct(s)
    ensures Distinct(t)
  {
    forall i, j | 0 <= i < j < |t| ensures t[i] != t[j] {
      if t[i] == t[j] {
        var x := t[i];
        assert t == t[..j] + [x] + t[j + 1..];
        assert x in multiset(t[..j]);
        assert multiset(t)[x] >= 2;
        DistinctCount(s, x);
      }
    }
  }

  lemma {:induction false} DistinctCount(s: seq<string>, x: string)
    requires Distinct(s)
    ensures multiset(s)[x] <= 1
  {
    if s != [] {
      assert s == [s[0]] + s[1..];
      assert Distinct(s[1..]) by {
        forall i, j | 0 <= i < j < |s[1..]| ensures s[1..][i] != s[1..][j] {
          assert s[1..][i] == s[i + 1] && s[1..][j] == s[j + 1];
        }
      }
      DistinctCount(s[1..], x);
      if s[0] == x {
        assert x !in s[1..] by {
          forall k | 0 <= k < |s[1..]| ensures s[1..][k] != x {
            assert s[1..][k] == s[k + 1];
          }
        }
      }
    }
  }

  /** `sorted_keys` holds every key of `company_map` exactly once, longest
      first, with equal lengths in dict insertion order. */
  lemma SortedKeysCorrect(m: CompanyMap)
    requires WellFormed(m)
    ensures forall k :: k in SortedKeys(m) <==> k in m.folders
    ensures Distinct(SortedKeys(m))
    ensures LengthsNonIncreasing(SortedKeys(m))
    ensures forall n: nat :: OfLength(SortedKeys(m), n) == OfLength(m.order, n)
  {
    SortByLengthCorrect(m.order);
    DistinctByMultiset(m.order, SortedKeys(m));
    forall k ensures k in SortedKeys(m) <==> k in m.order {
      assert k in SortedKeys(m) <==> k in multiset(SortedKeys(m));
      assert k in m.order <==> k in multiset(m.order);
    }
  }
}
