/** Column-header cleanup of the dashboard script: every header is first
    stripped of surrounding whitespace (Python's `str.strip()` with no
    argument) and then loses every character outside `[A-Za-z0-9 ]`. */
module Headers {

  /** Python's `str.isspace()`: the characters `str.strip()` removes by default. */
  predicate IsSpace(c: char) {
    || ('\t' <= c <= '\r')
    || ('\U{1C}' <= c <= '\U{1F}')
    || c == ' '
    || c == '\U{85}'
    || c == '\U{A0}'
    || c == '\U{1680}'
    || ('\U{2000}' <= c <= '\U{200A}')
    || c == '\U{2028}'
    || c == '\U{2029}'
    || c == '\U{202F}'
    || c == '\U{205F}'
    || c == '\U{3000}'
  }

  /** The characters the pattern `[^A-Za-z0-9 ]` does not match: the ones cleanup keeps. */
  predicate Kept(c: char) {
    || ('A' <= c <= 'Z')
    || ('a' <= c <= 'z')
    || ('0' <= c <= '9')
    || c == ' '
  }

  predicate AllSpace(s: string) {
    forall i :: 0 <= i < |s| ==> IsSpace(s[i])
  }

  predicate AllKept(s: string) {
    forall i :: 0 <= i < |s| ==> Kept(s[i])
  }

  /** `r` is what stripping whitespace from both ends of `s` must give: a
      contiguous piece of `s`, with only whitespace cut away on either side,
      that neither starts nor ends with whitespace. */
  ghost predicate StripsTo(s: string, r: string) {
    exists lo :: StripsAt(s, r, lo)
  }

  ghost predicate StripsAt(s: string, r: string, lo: int) {
    && 0 <= lo <= lo + |r| <= |s|
    && r == s[lo..lo + |r|]
    && (forall i :: 0 <= i < lo ==> IsSpace(s[i]))
    && (forall i :: lo + |r| <= i < |s| ==> IsSpace(s[i]))
    && (r != [] ==> !IsSpace(r[0]) && !IsSpace(r[|r| - 1]))
  }

  /** Number of whitespace characters at the front of `s`. */
  function LeadingSpace(s: string): (n: nat)
    ensures n <= |s|
    ensures forall i :: 0 <= i < n ==> IsSpace(s[i])
    ensures n < |s| ==> !IsSpace(s[n])
  {
    if |s| > 0 && IsSpace(s[0]) then 1 + LeadingSpace(s[1..]) else 0
  }

  /** Number of whitespace characters at the back of `s`. */
  function TrailingSpace(s: string): (n: nat)
    ensures n <= |s|
    ensures forall i :: |s| - n <= i < |s| ==> IsSpace(s[i])
    ensures n < |s| ==> !IsSpace(s[|s| - 1 - n])
  {
    if |s| > 0 && IsSpace(s[|s| - 1]) then 1 + TrailingSpace(s[..|s| - 1]) else 0
  }

  /** Python's `str.strip()` with no argument. */
  function Strip(s: string): (r: string)
    ensures StripsTo(s, r)
    ensures r == [] <==> AllSpace(s)
  {
    var lead := LeadingSpace(s);
    if lead == |s| then
      assert StripsAt(s, [], |s|);
      []
    else
      var trail := TrailingSpace(s);
      var r := s[lead..|s| - trail];
      assert StripsAt(s, r, lead);
      r
  }

  /** Stripping is determined by its description: two results that both
      satisfy `StripsTo` are the same string. */
  lemma StripsToUnique(s: string, r1: string, r2: string)
    requires StripsTo(s, r1) && StripsTo(s, r2)
    ensures r1 == r2
  {
    StripsToEmptyIff(s, r1);
    StripsToEmptyIff(s, r2);
    var lo1 :| StripsAt(s, r1, lo1);
    var lo2 :| StripsAt(s, r2, lo2);
    if r1 != [] && r2 != [] {
      assert s[lo1] == r1[0] && s[lo2] == r2[0];
      assert lo1 == lo2;
      assert s[lo1 + |r1| - 1] == r1[|r1| - 1] && s[lo2 + |r2| - 1] == r2[|r2| - 1];
      assert |r1| == |r2|;
    }
  }

  /** Stripping gives the empty string exactly when `s` is all whitespace. */
  lemma StripsToEmptyIff(s: string, r: string)
    requires StripsTo(s, r)
    ensures r == [] <==> AllSpace(s)
  {
    var lo :| StripsAt(s, r, lo);
    if r != [] {
      assert s[lo] == r[0];
    }
  }

  /** Stripping twice is the same as stripping once. */
  lemma StripIdempotent(s: string)
    ensures Strip(Strip(s)) == Strip(s)
  {
    var r := Strip(s);
    assert StripsAt(r, r, 0) by {
      assert r[0..|r|] == r;
    }
    StripsToUnique(r, Strip(r), r);
  }

  /** Deletes every character the pattern `[^A-Za-z0-9 ]` matches. */
  function KeepOnly(s: string): (r: string)
    ensures AllKept(r)
    ensures IsSubsequence(r, s)
    ensures |r| <= |s|
  {
    if s == [] then []
    else
      var rest := KeepOnly(s[1..]);
      if Kept(s[0]) then [s[0]] + rest else rest
  }

  /** `r` can be obtained from `s` by deleting characters: nothing added, nothing reordered. */
  predicate IsSubsequence(r: string, s: string)
    decreases |s|
  {
    if r == [] then true
    else if s == [] then false
    else if r[0] == s[0] then IsSubsequence(r[1..], s[1..])
    else IsSubsequence(r, s[1..])
  }

  /** Deletion removes no occurrence of a kept character. */
  lemma {:induction false} KeepOnlyCounts(s: string)
    ensures forall c :: Kept(c) ==> multiset(KeepOnly(s))[c] == multiset(s)[c]
    decreases |s|
  {
    if s != [] {
      assert s == [s[0]] + s[1..];
      KeepOnlyCounts(s[1..]);
    }
  }

  /** Deletion distributes over concatenation. */
  lemma {:induction false} KeepOnlyAppend(a: string, b: string)
    ensures KeepOnly(a + b) == KeepOnly(a) + KeepOnly(b)
    decreases |a|
  {
    if a != [] {
      var ab := a + b;
      assert ab[0] == a[0];
      assert ab[1..] == a[1..] + b;
      KeepOnlyAppend(a[1..], b);
      assert KeepOnly(ab) == (if Kept(a[0]) then [a[0]] else []) + KeepOnly(a[1..] + b);
    } else {
      assert a + b == b;
    }
  }

  /** A string with nothing to delete is left as it is. */
  lemma {:induction false} KeepOnlyFixes(s: string)
    ensures KeepOnly(s) == s <==> AllKept(s)
    decreases |s|
  {
    if s != [] && AllKept(s) {
      KeepOnlyFixes(s[1..]);
    }
  }

  /** The header cleanup of line 6: strip first, then delete. */
  function CleanHeader(h: string): (r: string)
    ensures AllKept(r)
    ensures IsSubsequence(r, Strip(h))
    ensures forall c :: Kept(c) ==> multiset(r)[c] == multiset(Strip(h))[c]
  {
    KeepOnlyCounts(Strip(h));
    KeepOnly(Strip(h))
  }

  /** Cleanup of a whole header row: one cleaned name per column, same order. */
  function CleanHeaders(hs: seq<string>): (r: seq<string>)
    ensures |r| == |hs|
    ensures forall i :: 0 <= i < |hs| ==> r[i] == CleanHeader(hs[i])
  {
    seq(|hs|, i requires 0 <= i < |hs| => CleanHeader(hs[i]))
  }

  /** Because stripping comes first, a stripped header that starts with a
      kept character keeps it in front, and that character is not a space:
      a cleaned header can only start with a space when the character before
      it was deleted. */
  lemma KeptFrontSurvives(h: string)
    requires Strip(h) != [] && Kept(Strip(h)[0])
    ensures CleanHeader(h) != [] && CleanHeader(h)[0] == Strip(h)[0] != ' '
  {
    var s := Strip(h);
    var lo :| StripsAt(h, s, lo);
    assert !IsSpace(s[0]);
  }

  /** Symmetrically for the last character. */
  lemma KeptBackSurvives(h: string)
    requires Strip(h) != [] && Kept(Strip(h)[|Strip(h)| - 1])
    ensures CleanHeader(h) != [] && CleanHeader(h)[|CleanHeader(h)| - 1] == Strip(h)[|Strip(h)| - 1] != ' '
  {
    var s := Strip(h);
    var lo :| StripsAt(h, s, lo);
    var last := s[|s| - 1];
    assert !IsSpace(last);
    assert s == s[..|s| - 1] + [last];
    KeepOnlyAppend(s[..|s| - 1], [last]);
    assert KeepOnly([last]) == [last];
  }

  /** Cleaning an already cleaned header only strips it again: deletion has nothing left to do. */
  lemma CleanTwice(h: string)
    ensures CleanHeader(CleanHeader(h)) == Strip(CleanHeader(h))
  {
    var c := CleanHeader(h);
    var s := Strip(c);
    var lo :| StripsAt(c, s, lo);
    assert AllKept(s) by {
      forall i | 0 <= i < |s|
        ensures Kept(s[i])
      {
        assert s[i] == c[lo + i];
      }
    }
    KeepOnlyFixes(s);
  }

  /** A string with no whitespace at either end strips to itself. */
  lemma StripKeepsTrimmed(x: string)
    requires x != [] ==> !IsSpace(x[0]) && !IsSpace(x[|x| - 1])
    ensures Strip(x) == x
  {
    assert StripsAt(x, x, 0) by {
      assert x[0..|x|] == x;
    }
    StripsToUnique(x, Strip(x), x);
  }

  /** A header that cleanup leaves unchanged has no whitespace at its ends. */
  lemma CleanFixedHasNoEdgeSpace(x: string)
    requires CleanHeader(x) == x
    ensures x != [] ==> !IsSpace(x[0]) && !IsSpace(x[|x| - 1])
  {
    var s := Strip(x);
    var lo :| StripsAt(x, s, lo);
    assert |x| <= |s|;
    assert s == x;
  }

  /** The headers cleanup leaves unchanged are exactly the strings of kept
      characters that do not begin or end with a space. */
  lemma CleanFixes(x: string)
    ensures CleanHeader(x) == x <==> AllKept(x) && (x != [] ==> x[0] != ' ' && x[|x| - 1] != ' ')
  {
    if AllKept(x) && (x != [] ==> x[0] != ' ' && x[|x| - 1] != ' ') {
      assert x != [] ==> !IsSpace(x[0]) && !IsSpace(x[|x| - 1]);
      StripKeepsTrimmed(x);
      KeepOnlyFixes(x);
    }
    if CleanHeader(x) == x {
      CleanFixedHasNoEdgeSpace(x);
    }
  }

  /** `"# Rank"` cleans to `" Rank"`: the `#` is deleted after stripping, so its space stays. */
  lemma CleanRankExample()
    ensures CleanHeader("# Rank") == " Rank"
  {
    var h := "# Rank";
    assert !IsSpace(h[0]) && !IsSpace(h[|h| - 1]);
    StripKeepsTrimmed(h);
    KeepRankExample();
  }

  lemma KeepRankExample()
    ensures KeepOnly("# Rank") == " Rank"
  {
    assert "# Rank" == "#" + " Rank";
    KeepOnlyAppend("#", " Rank");
    assert KeepOnly("#") == [];
    assert AllKept(" Rank");
    KeepOnlyFixes(" Rank");
  }

  /** `" Rank"` strips to `"Rank"`. */
  lemma StripRankExample()
    ensures Strip(" Rank") == "Rank"
  {
    var g := " Rank";
    var r := "Rank";
    assert g == [' '] + r;
    assert r == g[1..5];
    assert !IsSpace(r[0]) && !IsSpace(r[3]);
    assert StripsAt(g, r, 1);
    StripsToUnique(g, Strip(g), r);
  }

  /** Line 6 is not idempotent: cleaning `" Rank"` again strips its space. */
  lemma CleanNotIdempotent()
    ensures CleanHeader(CleanHeader("# Rank")) == "Rank" != CleanHeader("# Rank")
  {
    CleanRankExample();
    StripRankExample();
    assert AllKept("Rank");
    KeepOnlyFixes("Rank");
  }
}
