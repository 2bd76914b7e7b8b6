/** The alias normaliser: how a folder name under the target root becomes the
    company alias that file names are matched against (main.py:50-62). */
module Normalizer {
  import opened Outcomes
  import opened Text

  /** The "original name" markers, full-width colon and ASCII colon. */
  const FullMarker: string := "原："
  const AsciiMarker: string := "原:"

  /** `[^a-zA-Z一-龥]`: neither a Latin letter nor a CJK ideograph. */
  predicate IsOther(c: char) {
    !IsLatin(c) && !IsCJK(c)
  }

  predicate AllOther(s: string) {
    forall i :: 0 <= i < |s| ==> IsOther(s[i])
  }

  predicate AllSpace(s: string) {
    forall i :: 0 <= i < |s| ==> IsSpace(s[i])
  }

  /** The length of the longest prefix of `s` made of IsOther characters. */
  function OtherRunLength(s: string): (k: nat)
    ensures k <= |s|
    ensures AllOther(s[..k])
    ensures k == |s| || !IsOther(s[k])
  {
    if s == [] || !IsOther(s[0]) then 0
    else
      var k := 1 + OtherRunLength(s[1..]);
      assert s[..k] == [s[0]] + s[1..][..k - 1];
      k
  }

  /** Step 1: `re.sub(r'^\d+[^a-zA-Z一-龥]*', '', name)`. The digits are
      themselves IsOther, so the match is the longest IsOther prefix,
      provided the name starts with a digit. */
  function StripNumericPrefix(name: string): (r: string)
    ensures |r| <= |name| && r == name[|name| - |r|..]
    ensures name == [] || !IsDigit(name[0]) ==> r == name
    ensures name != [] && IsDigit(name[0]) ==> AllOther(name[..|name| - |r|])
    ensures name != [] && IsDigit(name[0]) ==> r == [] || IsLatin(r[0]) || IsCJK(r[0])
  {
    if name != [] && IsDigit(name[0]) then name[OtherRunLength(name)..] else name
  }

  /** `s.split(marker)[0]`: the part of `s` before the first occurrence of
      `marker`, or all of `s` when it does not occur. */
  function CutAt(s: string, marker: string): (r: string)
    requires marker != []
    ensures |r| <= |s| && r == s[..|r|]
    ensures !Contains(r, marker)
    ensures Contains(s, marker) ==> OccursAt(s, marker, |r|)
    ensures forall j: nat :: j < |r| ==> !OccursAt(s, marker, j)
    ensures !Contains(s, marker) ==> r == s
  {
    match Find(s, marker)
    case None => s
    case Some(i) =>
      CutBeforeFirst(s, marker, i);
      s[..i]
  }

  /** Nothing before the first occurrence of `marker` contains it. */
  lemma CutBeforeFirst(s: string, marker: string, i: nat)
    requires marker != [] && i <= |s|
    requires forall j: nat :: j < i ==> !OccursAt(s, marker, j)
    ensures !Contains(s[..i], marker)
  {
    forall j: nat | j <= i ensures !OccursAt(s[..i], marker, j) {
      if j + |marker| <= i {
        assert s[..i][j..j + |marker|] == s[j..j + |marker|];
        assert !OccursAt(s, marker, j);
      }
    }
  }

  /** `n` is the first position at which `marker` occurs in `s`. */
  predicate FirstOccurrence(s: string, marker: string, n: nat) {
    OccursAt(s, marker, n) && forall j: nat :: j < n ==> !OccursAt(s, marker, j)
  }

  /** Where step 2 cuts `s`: at the first full-width marker; failing that, at
      the first ASCII marker; failing that, nowhere (at the end). */
  predicate CutPosition(s: string, n: nat) {
    && n <= |s|
    && (Contains(s, FullMarker) ==> FirstOccurrence(s, FullMarker, n))
    && (!Contains(s, FullMarker) && Contains(s, AsciiMarker) ==> FirstOccurrence(s, AsciiMarker, n))
    && (!Contains(s, FullMarker) && !Contains(s, AsciiMarker) ==> n == |s|)
  }

  /** Step 2: the full-width marker is looked for first; only when it is
      absent is the ASCII one looked for. The result is the part of `s`
      before the cut position. */
  function CutMarkers(s: string): (r: string)
    ensures |r| <= |s| && r == s[..|r|]
    ensures CutPosition(s, |r|)
    ensures !Contains(r, FullMarker)
    ensures !Contains(s, FullMarker) ==> !Contains(r, AsciiMarker)
  {
    if Contains(s, FullMarker) then CutAt(s, FullMarker)
    else if Contains(s, AsciiMarker) then
      var r := CutAt(s, AsciiMarker);
      NoMarkerInPrefix(s, |r|, FullMarker);
      r
    else s
  }

  lemma NoMarkerInPrefix(s: string, n: nat, marker: string)
    requires n <= |s| && !Contains(s, marker)
    ensures !Contains(s[..n], marker)
  {
    if Contains(s[..n], marker) {
      ContainsInSlice(s, 0, n, marker);
    }
  }

  function LeadingSpaceCount(s: string): (k: nat)
    ensures k <= |s| && AllSpace(s[..k])
    ensures k == |s| || !IsSpace(s[k])
  {
    if s == [] || !IsSpace(s[0]) then 0
    else
      var k := 1 + LeadingSpaceCount(s[1..]);
      assert s[..k] == [s[0]] + s[1..][..k - 1];
      k
  }

  function TrailingSpaceCount(s: string): (k: nat)
    ensures k <= |s| && AllSpace(s[|s| - k..])
    ensures k == |s| || !IsSpace(s[|s| - 1 - k])
  {
    if s == [] || !IsSpace(s[|s| - 1]) then 0
    else
      var t := s[..|s| - 1];
      var k := 1 + TrailingSpaceCount(t);
      assert s[|s| - k..] == t[|t| - (k - 1)..] + [s[|s| - 1]];
      k
  }

  /** `s` is `r` with the whitespace `s[..a]` before it and whitespace after it. */
  predicate StripSplit(r: string, s: string, a: nat) {
    a + |r| <= |s| && s[a..a + |r|] == r && AllSpace(s[..a]) && AllSpace(s[a + |r|..])
  }

  /** `r` is `s` with whitespace removed from both ends and nowhere else. */
  predicate StrippedFrom(r: string, s: string) {
    && (r == [] || (!IsSpace(r[0]) && !IsSpace(r[|r| - 1])))
    && exists a: nat | a <= |s| :: StripSplit(r, s, a)
  }

  /** Step 3: str.strip(). */
  function Strip(s: string): (r: string)
    ensures StrippedFrom(r, s)
  {
    var a := LeadingSpaceCount(s);
    var t := s[a..];
    var b := TrailingSpaceCount(t);
    assert t[|t| - b..] == s[|s| - b..];
    assert b < |t| ==> t[|t| - 1 - b] == s[|s| - 1 - b];
    StripSplitOf(s, a, b);
    s[a..|s| - b]
  }

  /** Dropping a whitespace run of length `a` in front and `b` at the back,
      each ending at a non-whitespace character, strips `s`. */
  lemma StripSplitOf(s: string, a: nat, b: nat)
    requires a + b <= |s| && AllSpace(s[..a]) && AllSpace(s[|s| - b..])
    requires a + b == |s| || (!IsSpace(s[a]) && !IsSpace(s[|s| - 1 - b]))
    ensures StrippedFrom(s[a..|s| - b], s)
  {
    var r := s[a..|s| - b];
    assert StripSplit(r, s, a);
    if r != [] {
      assert r[0] == s[a];
      assert r[|r| - 1] == s[|s| - 1 - b];
    }
  }

  /** The whole normaliser: steps 1, 2 and 3 in turn. */
  function Normalize(name: string): string {
    Strip(CutMarkers(StripNumericPrefix(name)))
  }

  /** main.py:55-62 as written: `clean_name` reassigned by each step in turn. */
  method CleanName(name: string) returns (cleanName: string)
    ensures cleanName == Normalize(name)
  {
    cleanName := StripNumericPrefix(name);
    if Contains(cleanName, FullMarker) {
      cleanName := CutAt(cleanName, FullMarker);
    } else if Contains(cleanName, AsciiMarker) {
      cleanName := CutAt(cleanName, AsciiMarker);
    }
    cleanName := Strip(cleanName);
  }

  /** The alias is the stripped part of the step-1 output before its cut
      position (the first `原：`, else the first `原:`, else the end). It
      never holds the full-width marker, holds the ASCII marker only if
      step 1 left a full-width one, and has no surrounding whitespace. */
  lemma NormalizeSpec(name: string)
    ensures var t := StripNumericPrefix(name);
      var r := Normalize(name);
      && (exists n: nat | CutPosition(t, n) :: r == Strip(t[..n]))
      && !Contains(r, FullMarker)
      && (!Contains(t, FullMarker) ==> !Contains(r, AsciiMarker))
      && (r == [] || (!IsSpace(r[0]) && !IsSpace(r[|r| - 1])))
  {
    var t := StripNumericPrefix(name);
    var c := CutMarkers(t);
    var r := Strip(c);
    assert t[..|c|] == c;
    StrippedHasNoMarker(r, c, FullMarker);
    StrippedHasNoMarker(r, c, AsciiMarker);
  }

  /** The cut position is unique: it determines step 2's result. */
  lemma CutPositionUnique(s: string, n: nat, m: nat)
    requires CutPosition(s, n) && CutPosition(s, m)
    ensures n == m
  {
    if Contains(s, FullMarker) {
      FirstOccurrenceUnique(s, FullMarker, n, m);
    } else if Contains(s, AsciiMarker) {
      FirstOccurrenceUnique(s, AsciiMarker, n, m);
    }
  }

  lemma FirstOccurrenceUnique(s: string, marker: string, n: nat, m: nat)
    requires FirstOccurrence(s, marker, n) && FirstOccurrence(s, marker, m)
    ensures n == m
  {
  }

  lemma StrippedHasNoMarker(r: string, s: string, marker: string)
    requires StrippedFrom(r, s)
    ensures !Contains(s, marker) ==> !Contains(r, marker)
  {
    var a: nat :| a <= |s| && StripSplit(r, s, a);
    if !Contains(s, marker) && Contains(r, marker) {
      ContainsInSlice(s, a, a + |r|, marker);
    }
  }

  /** The cut is made at the first occurrence of the marker. */
  lemma CutAtFirstOccurrence(s: string, marker: string, i: nat)
    requires marker != [] && OccursAt(s, marker, i)
    requires forall j: nat :: j < i ==> !OccursAt(s, marker, j)
    ensures CutAt(s, marker) == s[..i]
  {
    assert Contains(s, marker);
  }

  /** A string without the marker's first character cannot contain it. */
  lemma NoMarkerWithoutHead(s: string, marker: string)
    requires marker != [] && marker[0] !in s
    ensures !Contains(s, marker)
  {
  }

  /** Stripping a string without surrounding whitespace changes nothing. */
  lemma StripTrimmed(s: string)
    requires s == [] || (!IsSpace(s[0]) && !IsSpace(s[|s| - 1]))
    ensures Strip(s) == s
  {
  }

  /** When the marker's first character first appears where the marker
      occurs, the cut is made there. */
  lemma CutAtFirstHead(s: string, marker: string, i: nat)
    requires marker != [] && OccursAt(s, marker, i) && marker[0] !in s[..i]
    ensures CutAt(s, marker) == s[..i]
  {
  }

  /** The IsOther run of `s` ends at `n` when `s[..n]` is all IsOther and
      `s[n]`, if any, is not. */
  lemma {:induction false} OtherRunLengthIs(s: string, n: nat)
    requires n <= |s| && AllOther(s[..n]) && (n == |s| || !IsOther(s[n]))
    ensures OtherRunLength(s) == n
  {
    if n > 0 {
      assert s[..n][0] == s[0];
      assert s[1..][..n - 1] == s[..n][1..];
      assert n - 1 < |s[1..]| ==> s[1..][n - 1] == s[n];
      OtherRunLengthIs(s[1..], n - 1);
    }
  }

  /** A numeric prefix, digits followed by a separator holding neither a
      Latin letter nor a CJK ideograph, is removed up to the first letter or
      ideograph. */
  lemma StripNumericPrefixOf(digits: string, sep: string, rest: string)
    requires digits != [] && forall i :: 0 <= i < |digits| ==> IsDigit(digits[i])
    requires AllOther(sep)
    requires rest == [] || IsLatin(rest[0]) || IsCJK(rest[0])
    ensures StripNumericPrefix(digits + sep + rest) == rest
  {
    var name := digits + sep + rest;
    var n := |digits| + |sep|;
    assert AllOther(name[..n]) by {
      forall i | 0 <= i < n ensures IsOther(name[..n][i]) {
        if i < |digits| {
          assert name[..n][i] == digits[i];
        } else {
          assert name[..n][i] == sep[i - |digits|];
        }
      }
    }
    assert n < |name| ==> name[n] == rest[0];
    OtherRunLengthIs(name, n);
    assert name[0] == digits[0];
    assert name[n..] == rest;
  }

  /** Cutting `head + marker + tail` at the marker gives `head` when the
      marker's first character is not in `head`. */
  lemma CutAfterHead(head: string, marker: string, tail: string)
    requires marker != [] && marker[0] !in head
    ensures CutAt(head + marker + tail, marker) == head
  {
    var t := head + marker + tail;
    assert t[|head|..|head| + |marker|] == marker;
    assert t[..|head|] == head;
    CutAtFirstHead(t, marker, |head|);
  }

  /** The usual folder name "<digits><separator><company>原：<original name>"
      normalises to the company alone, e.g. "2.ACME原：FooCo" to "ACME". */
  lemma NormalizePrefixedAlias(digits: string, sep: string, company: string, original: string)
    requires digits != [] && forall i :: 0 <= i < |digits| ==> IsDigit(digits[i])
    requires AllOther(sep)
    requires company != [] && (IsLatin(company[0]) || IsCJK(company[0]))
    requires !IsSpace(company[|company| - 1]) && '原' !in company
    ensures Normalize(digits + sep + company + FullMarker + original) == company
  {
    var t := company + FullMarker + original;
    assert digits + sep + company + FullMarker + original == digits + sep + t;
    assert t[0] == company[0];
    StripNumericPrefixOf(digits, sep, t);
    assert OccursAt(t, FullMarker, |company|);
    CutAfterHead(company, FullMarker, original);
    StripTrimmed(company);
  }

  /** A prefixed name without a marker keeps everything after the prefix,
      e.g. "4、BetaCorp" becomes "BetaCorp". */
  lemma NormalizePrefixedName(digits: string, sep: string, company: string)
    requires digits != [] && forall i :: 0 <= i < |digits| ==> IsDigit(digits[i])
    requires AllOther(sep)
    requires company != [] && (IsLatin(company[0]) || IsCJK(company[0]))
    requires !IsSpace(company[|company| - 1]) && '原' !in company
    ensures Normalize(digits + sep + company) == company
  {
    StripNumericPrefixOf(digits, sep, company);
    NoMarkerWithoutHead(company, FullMarker);
    NoMarkerWithoutHead(company, AsciiMarker);
    StripTrimmed(company);
  }

  /** A name that does not start with a digit and has no marker and no
      surrounding whitespace is its own alias. */
  lemma NormalizePlainName(name: string)
    requires name == [] || (!IsDigit(name[0]) && !IsSpace(name[0]) && !IsSpace(name[|name| - 1]))
    requires '原' !in name
    ensures Normalize(name) == name
  {
    NoMarkerWithoutHead(name, FullMarker);
    NoMarkerWithoutHead(name, AsciiMarker);
    StripTrimmed(name);
  }

  /** A name made of digits alone normalises to the empty alias, which the
      table then skips: "123" gives "". */
  lemma DigitsOnlyNormalizeEmpty(digits: string)
    requires digits != [] && forall i :: 0 <= i < |digits| ==> IsDigit(digits[i])
    ensures Normalize(digits) == ""
  {
    StripNumericPrefixOf(digits, "", "");
    assert digits + "" + "" == digits;
    NoMarkerWithoutHead("", FullMarker);
    NoMarkerWithoutHead("", AsciiMarker);
  }

  /** A name with only the ASCII marker is cut there: "<company>原:<original
      name>", where the original name holds no full-width marker (it may hold
      `原` or further `原:`), normalises to the company name, e.g.
      "ACME原:FooCo" to "ACME" and "ACME原:原野贸易" to "ACME". */
  lemma NormalizeAsciiMarker(company: string, original: string)
    requires company != [] && (IsLatin(company[0]) || IsCJK(company[0]))
    requires !IsSpace(company[|company| - 1]) && '原' !in company && !Contains(original, FullMarker)
    ensures Normalize(company + AsciiMarker + original) == company
  {
    var t := company + AsciiMarker + original;
    assert t[0] == company[0];
    forall j: nat | j <= |t| ensures !OccursAt(t, FullMarker, j) {
      if j + 2 <= |t| {
        if j < |company| {
          assert t[j] == company[j];
        } else if j == |company| {
          assert t[j + 1] == ':';
        } else if j == |company| + 1 {
          assert t[j] == ':';
        } else {
          var k := j - |company| - 2;
          assert t[j..j + 2] == original[k..k + 2];
          assert !OccursAt(original, FullMarker, k);
        }
      }
    }
    CutAfterHead(company, AsciiMarker, original);
    StripTrimmed(company);
  }

  /** The full-width marker is looked for first, so a name holding both is
      cut at the full-width one even when the ASCII one comes earlier:
      "A原:B原：C" becomes "A原:B". */
  lemma FullMarkerTakesPrecedence(company: string, note: string, original: string)
    requires company != [] && (IsLatin(company[0]) || IsCJK(company[0])) && '原' !in company
    requires note != [] && !IsSpace(note[|note| - 1]) && '原' !in note
    ensures Normalize(company + AsciiMarker + note + FullMarker + original) == company + AsciiMarker + note
  {
    var head := company + AsciiMarker + note;
    var t := head + FullMarker + original;
    assert t[0] == company[0];
    forall j: nat | j < |head| ensures !OccursAt(t, FullMarker, j) {
      if j < |company| {
        assert t[j] == company[j];
      } else if j == |company| {
        assert t[j + 1] == ':';
      } else if j == |company| + 1 {
        assert t[j] == ':';
      } else {
        assert t[j] == note[j - |company| - 2];
      }
    }
    assert t[|head|..|head| + 2] == FullMarker;
    CutAtFirstOccurrence(t, FullMarker, |head|);
    assert t[..|head|] == head;
    assert head[|head| - 1] == note[|note| - 1];
    StripTrimmed(head);
  }
}
