/** The string operations the stored-record normalisation and the catalog
    search rely on: case folding (modelled on ASCII letters), the whitespace
    trim of JavaScript's `String.prototype.trim`, and substring search. */
module Text {

  // ---------------------------------------------------------------------
  // Case folding
  // ---------------------------------------------------------------------

  predicate IsUpper(c: char) {
    'A' <= c <= 'Z'
  }

  /** Lower-cases one character; only ASCII letters change. */
  function LowerChar(c: char): char {
    if IsUpper(c) then (c as int + 32) as char else c
  }

  /** `c` and `d` are the same letter up to case: equal, or an ASCII
      upper-case letter and its lower-case partner (in either order).
      This is stated without reference to `LowerChar`. */
  predicate SameLetter(c: char, d: char) {
    || c == d
    || (IsUpper(c) && d as int == c as int + 32)
    || (IsUpper(d) && c as int == d as int + 32)
  }

  predicate IsLowercase(s: string) {
    forall i :: 0 <= i < |s| ==> !IsUpper(s[i])
  }

  /** Two strings that agree letter by letter, ignoring case. */
  predicate EqualIgnoringCase(a: string, b: string) {
    |a| == |b| && forall i :: 0 <= i < |a| ==> SameLetter(a[i], b[i])
  }

  /** `toLowerCase()` restricted to ASCII: the result has no upper-case
      letter, agrees with the input up to case at every position, and leaves
      an already lower-case string alone. */
  function Lower(s: string): (r: string)
    ensures |r| == |s| && IsLowercase(r)
    ensures IsLowercase(s) ==> r == s
  {
    seq(|s|, i requires 0 <= i < |s| => LowerChar(s[i]))
  }

  /** Lower-casing changes letters only up to case. */
  lemma LowerSameLetters(s: string)
    ensures EqualIgnoringCase(Lower(s), s)
  {
  }

  lemma LowerIdempotent(s: string)
    ensures Lower(Lower(s)) == Lower(s)
  {
  }

  lemma SameLetterIffLowerEqual(c: char, d: char)
    ensures SameLetter(c, d) <==> LowerChar(c) == LowerChar(d)
  {
  }

  /** Comparing lower-cased forms is exactly case-insensitive equality. */
  lemma LowerEqualIff(a: string, b: string)
    ensures Lower(a) == Lower(b) <==> EqualIgnoringCase(a, b)
  {
    if EqualIgnoringCase(a, b) {
      forall i | 0 <= i < |a|
        ensures Lower(a)[i] == Lower(b)[i]
      {
        SameLetterIffLowerEqual(a[i], b[i]);
      }
    }
    if Lower(a) == Lower(b) {
      forall i | 0 <= i < |a|
        ensures SameLetter(a[i], b[i])
      {
        assert Lower(a)[i] == Lower(b)[i];
        SameLetterIffLowerEqual(a[i], b[i]);
      }
    }
  }

  // ---------------------------------------------------------------------
  // Whitespace trimming
  // ---------------------------------------------------------------------

  /** The characters `String.prototype.trim` removes: the ECMAScript
      WhiteSpace set (tab, vertical tab, form feed, the Zs space separators
      and the byte-order mark) and the LineTerminator set. */
  predicate IsSpace(c: char) {
    || c == '\t' || c == '\n' || c == '\U{000B}' || c == '\U{000C}' || c == '\r'
    || c == ' ' || c == '\U{00A0}' || c == '\U{1680}'
    || ('\U{2000}' <= c <= '\U{200A}')
    || c == '\U{2028}' || c == '\U{2029}' || c == '\U{202F}' || c == '\U{205F}'
    || c == '\U{3000}' || c == '\U{FEFF}'
  }

  predicate AllSpace(s: string) {
    forall i :: 0 <= i < |s| ==> IsSpace(s[i])
  }

  /** Neither end of `s` is whitespace. */
  predicate IsTrimmed(s: string) {
    s == [] || (!IsSpace(s[0]) && !IsSpace(s[|s| - 1]))
  }

  /** The first index at or after `i` that does not hold whitespace, or
      `|s|` when there is none. */
  function SkipSpaceFrom(s: string, i: nat): (j: nat)
    requires i <= |s|
    ensures i <= j <= |s|
    ensures forall k :: i <= k < j ==> IsSpace(s[k])
    ensures j < |s| ==> !IsSpace(s[j])
    decreases |s| - i
  {
    if i < |s| && IsSpace(s[i]) then SkipSpaceFrom(s, i + 1) else i
  }

  /** Walking back from `j`, the end of `s[lo..j]` once its trailing
      whitespace is dropped. */
  function SkipSpaceBack(s: string, lo: nat, j: nat): (e: nat)
    requires lo <= j <= |s|
    ensures lo <= e <= j
    ensures forall k :: e <= k < j ==> IsSpace(s[k])
    ensures e > lo ==> !IsSpace(s[e - 1])
    decreases j
  {
    if j > lo && IsSpace(s[j - 1]) then SkipSpaceBack(s, lo, j - 1) else j
  }

  /** Where the text of `s` starts once leading whitespace is skipped. */
  function TrimStart(s: string): nat {
    SkipSpaceFrom(s, 0)
  }

  /** Where the text of `s` ends once trailing whitespace is dropped. */
  function TrimEnd(s: string): nat {
    SkipSpaceBack(s, TrimStart(s), |s|)
  }

  /** `String.prototype.trim`: the result is trimmed, and a trimmed string
      is returned unchanged. */
  function Trim(s: string): (r: string)
    ensures IsTrimmed(r)
    ensures IsTrimmed(s) ==> r == s
  {
    s[TrimStart(s)..TrimEnd(s)]
  }

  /** What `Trim` removes is whitespace at the two ends and nothing else:
      the result is a contiguous slice of `s` with only whitespace around
      it. */
  lemma TrimIsSlice(s: string)
    ensures exists i, j :: 0 <= i <= j <= |s| && Trim(s) == s[i..j] && AllSpace(s[..i]) && AllSpace(s[j..])
  {
    var i, j := TrimStart(s), TrimEnd(s);
    assert AllSpace(s[..i]) by {
      forall k | 0 <= k < i ensures IsSpace(s[..i][k]) {
        assert s[..i][k] == s[k];
      }
    }
    assert AllSpace(s[j..]) by {
      forall k | 0 <= k < |s| - j ensures IsSpace(s[j..][k]) {
        assert s[j..][k] == s[j + k];
      }
    }
  }

  lemma TrimIdempotent(s: string)
    ensures Trim(Trim(s)) == Trim(s)
  {
  }

  /** Case folding never turns whitespace into non-whitespace or back. */
  lemma LowerCharKeepsSpace(c: char)
    ensures IsSpace(LowerChar(c)) <==> IsSpace(c)
  {
  }

  lemma {:induction false} LowerSkipSpaceFrom(s: string, i: nat)
    requires i <= |s|
    ensures SkipSpaceFrom(Lower(s), i) == SkipSpaceFrom(s, i)
    decreases |s| - i
  {
    if i < |s| {
      LowerCharKeepsSpace(s[i]);
      if IsSpace(s[i]) {
        LowerSkipSpaceFrom(s, i + 1);
      }
    }
  }

  lemma {:induction false} LowerSkipSpaceBack(s: string, lo: nat, j: nat)
    requires lo <= j <= |s|
    ensures SkipSpaceBack(Lower(s), lo, j) == SkipSpaceBack(s, lo, j)
    decreases j
  {
    if j > lo {
      LowerCharKeepsSpace(s[j - 1]);
      if IsSpace(s[j - 1]) {
        LowerSkipSpaceBack(s, lo, j - 1);
      }
    }
  }

  /** Trimming and lower-casing commute, so a field carrying both the trim
      and the lowercase setter is normalised the same in either order. */
  lemma LowerTrimCommute(s: string)
    ensures Lower(Trim(s)) == Trim(Lower(s))
  {
    var i, j := TrimStart(s), TrimEnd(s);
    LowerSkipSpaceFrom(s, 0);
    assert TrimStart(Lower(s)) == i;
    LowerSkipSpaceBack(s, i, |s|);
    assert TrimEnd(Lower(s)) == j;
    LowerSlice(s, i, j);
  }

  /** Lower-casing before a trim-and-lowercase step makes no difference:
      the service lower-cases a breed criterion that the store's query cast
      then trims and lower-cases again. */
  lemma LowerTrimLower(s: string)
    ensures Lower(Trim(Lower(s))) == Lower(Trim(s))
  {
    LowerTrimCommute(Lower(s));
    LowerIdempotent(s);
    LowerTrimCommute(s);
  }

  /** Lower-casing commutes with taking a slice. */
  lemma LowerSlice(s: string, i: nat, j: nat)
    requires i <= j <= |s|
    ensures Lower(s[i..j]) == Lower(s)[i..j]
  {
  }

  /** Lower-casing a trimmed string keeps it trimmed. */
  lemma LowerKeepsTrimmed(s: string)
    requires IsTrimmed(s)
    ensures IsTrimmed(Lower(s))
  {
    if s != [] {
      LowerCharKeepsSpace(s[0]);
      LowerCharKeepsSpace(s[|s| - 1]);
    }
  }

  // ---------------------------------------------------------------------
  // Substring search
  // ---------------------------------------------------------------------

  /** `needle` occurs in `hay` starting at position `k`. */
  predicate OccursAt(needle: string, hay: string, k: int) {
    0 <= k && k + |needle| <= |hay| && hay[k..k + |needle|] == needle
  }

  lemma OccursAtShift(needle: string, hay: string, k: int)
    requires hay != [] && 0 <= k
    ensures OccursAt(needle, hay[1..], k) <==> OccursAt(needle, hay, k + 1)
  {
    if 0 <= k && k + |needle| <= |hay| - 1 {
      assert hay[1..][k..k + |needle|] == hay[k + 1..k + 1 + |needle|];
    }
  }

  /** Literal substring test, scanning `hay` from the left. */
  function Occurs(needle: string, hay: string): (r: bool)
    ensures r <==> exists k :: OccursAt(needle, hay, k)
    decreases |hay|
  {
    if |needle| > |hay| then
      assert forall k :: !OccursAt(needle, hay, k);
      false
    else if hay[..|needle|] == needle then
      assert OccursAt(needle, hay, 0);
      true
    else
      var r := Occurs(needle, hay[1..]);
      assert r ==> exists k :: OccursAt(needle, hay, k) by {
        if r {
          var k :| OccursAt(needle, hay[1..], k);
          OccursAtShift(needle, hay, k);
        }
      }
      assert (exists k :: OccursAt(needle, hay, k)) ==> r by {
        if exists k :: OccursAt(needle, hay, k) {
          var k :| OccursAt(needle, hay, k);
          assert k != 0;
          OccursAtShift(needle, hay, k - 1);
        }
      }
      r
  }

  /** `needle` occurs in `hay` at position `k`, ignoring case. */
  predicate OccursAtIgnoringCase(needle: string, hay: string, k: int) {
    0 <= k && k + |needle| <= |hay| && EqualIgnoringCase(hay[k..k + |needle|], needle)
  }

  /** Case-insensitive substring test (a `$regex` with the `i` option whose
      pattern has no metacharacters): true exactly when some window of `hay`
      equals `needle` up to case. */
  function ContainsIgnoringCase(hay: string, needle: string): (r: bool)
    ensures r <==> exists k :: OccursAtIgnoringCase(needle, hay, k)
  {
    var r := Occurs(Lower(needle), Lower(hay));
    forall k | 0 <= k && k + |needle| <= |hay|
      ensures OccursAt(Lower(needle), Lower(hay), k) <==> OccursAtIgnoringCase(needle, hay, k)
    {
      assert Lower(hay)[k..k + |needle|] == Lower(hay[k..k + |needle|]);
      LowerEqualIff(hay[k..k + |needle|], needle);
    }
    r
  }

  /** The search text's own case is irrelevant. */
  lemma ContainsIgnoresNeedleCase(hay: string, needle: string)
    ensures ContainsIgnoringCase(hay, Lower(needle)) == ContainsIgnoringCase(hay, needle)
  {
    LowerIdempotent(needle);
  }
}
