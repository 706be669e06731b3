/**
 * The two pieces of JavaScript string behaviour the bootstrap script relies on:
 * a global replacement of a literal token (`s.replace(/token/g, value)`, the
 * way replace-in-file and the rename step use it) and trimming
 * (`String.prototype.trim`, applied to the output of `git config`), which
 * shares `Strip` with the removal of leading and trailing hyphens from a
 * suggested name.
 */
module Text {

  /** `pat` occurs in `s` starting at index `i`. */
  predicate OccursAt(s: string, pat: string, i: nat) {
    i + |pat| <= |s| && s[i..i + |pat|] == pat
  }

  predicate Contains(s: string, pat: string) {
    exists i: nat | i <= |s| :: OccursAt(s, pat, i)
  }

  /** Moving one character off the front shifts every occurrence one place left. */
  lemma OccursAtTail(s: string, pat: string, i: nat)
    requires s != []
    ensures OccursAt(s[1..], pat, i) <==> OccursAt(s, pat, i + 1)
  {
    if i + 1 + |pat| <= |s| {
      assert s[1..][i..i + |pat|] == s[i + 1..i + 1 + |pat|];
    }
  }

  /**
   * The global replacement of a token that holds no regular-expression
   * operator: the string is scanned from the left, the leftmost occurrence
   * is replaced, and scanning resumes after it, so the inserted text is never
   * rescanned and occurrences do not overlap.
   */
  function ReplaceAll(s: string, pat: string, rep: string): string
    requires pat != []
    decreases |s|
  {
    if |s| < |pat| then s
    else if s[..|pat|] == pat then rep + ReplaceAll(s[|pat|..], pat, rep)
    else [s[0]] + ReplaceAll(s[1..], pat, rep)
  }

  /** A string without the token is returned as it is. */
  lemma {:induction false} ReplaceAllWithoutToken(s: string, pat: string, rep: string)
    requires pat != [] && !Contains(s, pat)
    ensures ReplaceAll(s, pat, rep) == s
    decreases |s|
  {
    if |s| >= |pat| {
      assert !OccursAt(s, pat, 0);
      assert !Contains(s[1..], pat) by {
        if Contains(s[1..], pat) {
          var i: nat :| i <= |s[1..]| && OccursAt(s[1..], pat, i);
          OccursAtTail(s, pat, i);
        }
      }
      ReplaceAllWithoutToken(s[1..], pat, rep);
      assert s == [s[0]] + s[1..];
    }
  }

  /** Where the token does not start at the front, the first character is kept. */
  lemma ReplaceAllStep(s: string, pat: string, rep: string)
    requires pat != [] && s != [] && !OccursAt(s, pat, 0)
    ensures ReplaceAll(s, pat, rep) == [s[0]] + ReplaceAll(s[1..], pat, rep)
  {
    if |s| < |pat| {
      assert s == [s[0]] + s[1..];
    } else {
      assert s[..|pat|] != pat;
    }
  }

  /** `pat` starts nowhere before index `n` of `s`. */
  predicate NoneBefore(s: string, pat: string, n: nat) {
    forall i: nat :: i < n ==> !OccursAt(s, pat, i)
  }

  lemma NoneBeforeTail(s: string, pat: string, n: nat)
    requires s != [] && 0 < n && NoneBefore(s, pat, n)
    ensures !OccursAt(s, pat, 0) && NoneBefore(s[1..], pat, n - 1)
  {
    forall i: nat | i < n - 1
      ensures !OccursAt(s[1..], pat, i)
    {
      OccursAtTail(s, pat, i);
    }
  }

  /** Text in front of the first occurrence comes through untouched. */
  lemma {:induction false} ReplaceAllKeepsPrefix(x: string, y: string, pat: string, rep: string)
    requires pat != [] && NoneBefore(x + y, pat, |x|)
    ensures ReplaceAll(x + y, pat, rep) == x + ReplaceAll(y, pat, rep)
    decreases |x|
  {
    var s := x + y;
    if x == [] {
      assert s == y;
    } else {
      NoneBeforeTail(s, pat, |x|);
      ReplaceAllStep(s, pat, rep);
      assert s[1..] == x[1..] + y;
      ReplaceAllKeepsPrefix(x[1..], y, pat, rep);
      assert [x[0]] + x[1..] == x;
    }
  }

  /** The leftmost occurrence is replaced and the rest of the string is processed on its own. */
  lemma ReplaceAllFirstOccurrence(x: string, y: string, pat: string, rep: string)
    requires pat != []
    requires NoneBefore(x + pat + y, pat, |x|)
    ensures ReplaceAll(x + pat + y, pat, rep) == x + rep + ReplaceAll(y, pat, rep)
  {
    assert x + pat + y == x + (pat + y);
    ReplaceAllKeepsPrefix(x, pat + y, pat, rep);
    assert (pat + y)[..|pat|] == pat;
    assert (pat + y)[|pat|..] == y;
  }

  /** Length of the longest prefix of `s` whose characters all satisfy `p`. */
  function LeadingRun(s: string, p: char -> bool): (n: nat)
    ensures n <= |s|
    ensures forall i :: 0 <= i < n ==> p(s[i])
    ensures n < |s| ==> !p(s[n])
    decreases |s|
  {
    if s != [] && p(s[0]) then
      var n := 1 + LeadingRun(s[1..], p);
      assert forall i :: 1 <= i < n ==> s[i] == s[1..][i - 1];
      n
    else 0
  }

  /** Length of the longest suffix of `s` whose characters all satisfy `p`. */
  function TrailingRun(s: string, p: char -> bool): (n: nat)
    ensures n <= |s|
    ensures forall i :: |s| - n <= i < |s| ==> p(s[i])
    ensures n < |s| ==> !p(s[|s| - 1 - n])
    decreases |s|
  {
    if s != [] && p(s[|s| - 1]) then
      var n := 1 + TrailingRun(s[..|s| - 1], p);
      assert forall i :: |s| - n <= i < |s| - 1 ==> s[i] == s[..|s| - 1][i];
      n
    else 0
  }

  /**
   * The code points `String.prototype.trim` removes: the ECMAScript
   * WhiteSpace and LineTerminator characters.
   */
  const JsSpaceCodes: set<int> := {
    0x09, 0x0A, 0x0B, 0x0C, 0x0D, 0x20, 0xA0, 0x1680,
    0x2000, 0x2001, 0x2002, 0x2003, 0x2004, 0x2005, 0x2006, 0x2007, 0x2008, 0x2009, 0x200A,
    0x2028, 0x2029, 0x202F, 0x205F, 0x3000, 0xFEFF
  }

  predicate IsJsSpace(c: char) {
    c as int in JsSpaceCodes
  }

  /**
   * Removes the run of `p` characters at each end: the result is the stretch
   * of `s` after its leading run, it neither starts nor ends with such a
   * character, and everything after it is one.
   */
  function Strip(s: string, p: char -> bool): (r: string)
    ensures LeadingRun(s, p) + |r| <= |s|
    ensures r == s[LeadingRun(s, p)..LeadingRun(s, p) + |r|]
    ensures r == [] || (!p(r[0]) && !p(r[|r| - 1]))
    ensures forall i :: LeadingRun(s, p) + |r| <= i < |s| ==> p(s[i])
  {
    var k := LeadingRun(s, p);
    var j := TrailingRun(s, p);
    if k == |s| then []
    else
      assert j < |s| - k;
      s[k..|s| - j]
  }

  /** `s.trim()`. */
  function Trim(s: string): string {
    Strip(s, IsJsSpace)
  }

  /** A line of output with its line terminator trims to the line itself. */
  lemma TrimLine(x: string, c: char)
    requires x != [] && !IsJsSpace(x[0]) && !IsJsSpace(x[|x| - 1]) && IsJsSpace(c)
    ensures Trim(x + [c]) == x
  {
    var s := x + [c];
    assert s[..|s| - 1] == x;
    assert TrailingRun(x, IsJsSpace) == 0;
    assert TrailingRun(s, IsJsSpace) == 1;
    assert LeadingRun(s, IsJsSpace) == 0;
  }
}
