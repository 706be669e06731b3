/**
 * Chart names: the name suggested from the project directory
 * (`chartNameSuggested`), the check for the template's own directory name
 * (`chartNameSuggestedIsDefault`) and the two answer patterns of the prompt
 * schemas (a typed kebab-case name, a yes/no answer).
 */
module Names {
  import opened Text

  predicate IsLowerLetter(c: char) { 'a' <= c <= 'z' }

  predicate IsUpperLetter(c: char) { 'A' <= c <= 'Z' }

  predicate IsDigit(c: char) { '0' <= c <= '9' }

  predicate IsDash(c: char) { c == '-' }

  /**
   * The characters that survive `/[^\w\d]|_/g`: `\w` without the `u` flag is
   * ASCII letters, digits and underscore, and the underscore is matched by
   * the second alternative, so only ASCII letters and digits are kept.
   */
  predicate IsKept(c: char) { IsLowerLetter(c) || IsUpperLetter(c) || IsDigit(c) }

  /** The first rewrite of the directory name: each character that is not kept becomes one hyphen. */
  function Dashify(s: string): string {
    seq(|s|, i requires 0 <= i < |s| => if IsKept(s[i]) then s[i] else '-')
  }

  /**
   * The rewrite keeps the length: exactly the characters that are not kept
   * become hyphens, one each, and a second rewrite changes nothing.
   */
  lemma DashifyOneForOne(s: string)
    ensures |Dashify(s)| == |s|
    ensures forall i :: 0 <= i < |s| ==> (Dashify(s)[i] == '-' <==> !IsKept(s[i]))
    ensures forall i :: 0 <= i < |s| && IsKept(s[i]) ==> Dashify(s)[i] == s[i]
    ensures Dashify(Dashify(s)) == Dashify(s)
  {
  }

  /** ASCII lower-casing of one character. */
  function LowerChar(c: char): (d: char)
    ensures IsUpperLetter(c) ==> IsLowerLetter(d)
    ensures !IsUpperLetter(c) ==> d == c
  {
    if IsUpperLetter(c) then (c as int + 32) as char else c
  }

  /**
   * `toLowerCase` on ASCII text, which is all it is applied to once the
   * directory name has been rewritten.
   */
  function Lower(s: string): string {
    seq(|s|, i requires 0 <= i < |s| => LowerChar(s[i]))
  }

  /** One character of a suggestion: a lower-case ASCII letter, a digit or a hyphen. */
  predicate IsSuggestionChar(c: char) { IsLowerLetter(c) || IsDigit(c) || c == '-' }

  /**
   * `chartNameSuggested`, given the base name of the project directory:
   * non-kept characters become hyphens one for one, the hyphen runs at both
   * ends are removed and the rest is lower-cased. Runs inside are not
   * collapsed and digits are kept.
   */
  function Suggest(dirName: string): (r: string)
    ensures |r| <= |dirName|
    ensures forall i :: 0 <= i < |r| ==> IsSuggestionChar(r[i])
    ensures r != [] ==> r[0] != '-' && r[|r| - 1] != '-'
    ensures (forall i :: 0 <= i < |dirName| ==> !IsKept(dirName[i])) ==> r == []
  {
    var d := Dashify(dirName);
    var t := Strip(d, IsDash);
    var k := LeadingRun(d, IsDash);
    assert (forall i :: 0 <= i < |dirName| ==> !IsKept(dirName[i])) ==> k == |d|;
    assert forall i :: 0 <= i < |t| ==> t[i] == d[k + i];
    Lower(t)
  }

  /** The name of the template's own clone directory. */
  const DefaultChartName := "zoomdata-chart-webpack-starter"

  /** `chartNameSuggestedIsDefault`. */
  predicate IsDefault(dirName: string) {
    Suggest(dirName) == DefaultChartName
  }

  /**
   * A matcher for `[a-z]+(-[a-z]+)*` run from one of its two states:
   * `needLetter` holds at the start and right after a hyphen, where only a
   * letter may come; otherwise the input may end, continue the segment, or
   * start a new one with a single hyphen.
   */
  predicate KebabFrom(s: string, needLetter: bool)
    decreases |s|
  {
    if s == [] then !needLetter
    else if IsLowerLetter(s[0]) then KebabFrom(s[1..], false)
    else s[0] == '-' && !needLetter && KebabFrom(s[1..], true)
  }

  /** The typed-name pattern `^[a-z]+(-[a-z]+)*$`. */
  predicate IsKebabName(s: string) {
    KebabFrom(s, true)
  }

  /**
   * The same language described character by character: a non-empty string
   * of lower-case letters and hyphens that neither starts nor ends with a
   * hyphen and never has two in a row.
   */
  predicate KebabShaped(s: string) {
    && s != []
    && (forall i :: 0 <= i < |s| ==> IsLowerLetter(s[i]) || s[i] == '-')
    && s[0] != '-'
    && s[|s| - 1] != '-'
    && (forall i :: 0 <= i < |s| - 1 ==> s[i] == '-' ==> s[i + 1] != '-')
  }

  /** What is left after the matcher leaves its start state: nothing, or a name, or a hyphen and a name. */
  predicate KebabTail(s: string) {
    s == [] || KebabShaped(s) || (s[0] == '-' && KebabShaped(s[1..]))
  }

  /** A name preceded by one letter is still a name. */
  lemma {:induction false} KebabShapedCons(c: char, t: string)
    requires IsLowerLetter(c)
    ensures KebabShaped([c] + t) <==> KebabTail(t)
  {
    var s := [c] + t;
    assert s[1..] == t;
    if KebabShaped(s) && t != [] && t[0] == '-' {
      assert t[1..] == s[2..];
      assert KebabShaped(t[1..]) by {
        forall i | 0 <= i < |t[1..]| - 1
          ensures t[1..][i] == '-' ==> t[1..][i + 1] != '-'
        {
          assert s[i + 2] == '-' ==> s[i + 3] != '-';
        }
      }
    }
    if KebabTail(t) && t != [] {
      if t[0] == '-' {
        assert KebabShaped(t[1..]);
        assert KebabShaped(s) by {
          forall i | 0 <= i < |s| - 1
            ensures s[i] == '-' ==> s[i + 1] != '-'
          {
            if i >= 2 {
              assert s[i] == t[1..][i - 2] && s[i + 1] == t[1..][i - 1];
            }
          }
        }
      } else {
        assert KebabShaped(t);
        assert KebabShaped(s) by {
          forall i | 0 <= i < |s| - 1
            ensures s[i] == '-' ==> s[i + 1] != '-'
          {
            if i >= 1 {
              assert s[i] == t[i - 1] && s[i + 1] == t[i];
            }
          }
        }
      }
    }
  }

  /** The matcher's two states accept exactly the shaped names and the shaped tails. */
  lemma {:induction false} KebabFromShaped(s: string)
    ensures KebabFrom(s, true) <==> KebabShaped(s)
    ensures KebabFrom(s, false) <==> KebabTail(s)
    decreases |s|
  {
    if s != [] {
      var t := s[1..];
      assert s == [s[0]] + t;
      KebabFromShaped(t);
      if IsLowerLetter(s[0]) {
        KebabShapedCons(s[0], t);
      } else if s[0] == '-' {
        assert !KebabShaped(s);
      } else {
        assert !KebabShaped(s);
      }
    }
  }

  /** The typed-name pattern, both directions: the pattern accepts a string iff it has the kebab shape. */
  lemma KebabNameIff(s: string)
    ensures IsKebabName(s) <==> KebabShaped(s)
  {
    KebabFromShaped(s);
  }

  /** One segment of a typed name: one or more lower-case letters. */
  predicate IsSegment(w: string) {
    w != [] && forall i :: 0 <= i < |w| ==> IsLowerLetter(w[i])
  }

  /** Joins words with single hyphens. */
  function JoinWithDashes(words: seq<string>): string
    decreases |words|
  {
    if words == [] then []
    else if |words| == 1 then words[0]
    else words[0] + "-" + JoinWithDashes(words[1..])
  }

  predicate IsNotDash(c: char) { c != '-' }

  /** Splits at every hyphen; the inverse of `JoinWithDashes` (see `JoinSplitOnDashes`). */
  function SplitOnDashes(s: string): (words: seq<string>)
    ensures |words| > 0
    decreases |s|
  {
    var n := LeadingRun(s, IsNotDash);
    if n == |s| then [s] else [s[..n]] + SplitOnDashes(s[n + 1..])
  }

  lemma {:induction false} JoinSplitOnDashes(s: string)
    ensures JoinWithDashes(SplitOnDashes(s)) == s
    decreases |s|
  {
    var n := LeadingRun(s, IsNotDash);
    if n < |s| {
      JoinSplitOnDashes(s[n + 1..]);
      assert s == s[..n] + "-" + s[n + 1..];
    }
  }

  /** Once a prefix has been matched, the matcher goes on from the state after it. */
  lemma {:induction false} KebabFromAppend(a: string, t: string, needLetter: bool)
    requires KebabFrom(a, needLetter)
    ensures KebabFrom(a + t, needLetter) == KebabFrom(t, false)
    decreases |a|
  {
    if a != [] {
      assert (a + t)[0] == a[0] && (a + t)[1..] == a[1..] + t;
      KebabFromAppend(a[1..], t, !IsLowerLetter(a[0]));
    } else {
      assert a + t == t;
    }
  }

  /** Letters keep the matcher in a segment. */
  lemma {:induction false} KebabFromLetters(w: string, needLetter: bool)
    requires forall i :: 0 <= i < |w| ==> IsLowerLetter(w[i])
    ensures KebabFrom(w, needLetter) <==> (w != [] || !needLetter)
    decreases |w|
  {
    if w != [] {
      KebabFromLetters(w[1..], false);
    }
  }

  /** A character that is neither a letter nor a hyphen stops the matcher. */
  lemma {:induction false} KebabFromRejects(s: string, i: nat, needLetter: bool)
    requires i < |s| && !IsLowerLetter(s[i]) && s[i] != '-'
    ensures !KebabFrom(s, needLetter)
    decreases |s|
  {
    if i > 0 {
      KebabFromRejects(s[1..], i - 1, !IsLowerLetter(s[0]));
    }
  }

  /** Every word is a segment. */
  predicate AllSegments(words: seq<string>) {
    forall k :: 0 <= k < |words| ==> IsSegment(words[k])
  }

  lemma AllSegmentsCons(w: string, more: seq<string>)
    ensures AllSegments([w] + more) <==> IsSegment(w) && AllSegments(more)
  {
    var words := [w] + more;
    if IsSegment(w) && AllSegments(more) {
      forall k | 0 <= k < |words|
        ensures IsSegment(words[k])
      {
        if k > 0 {
          assert words[k] == more[k - 1];
        }
      }
    }
    if AllSegments(words) {
      assert IsSegment(words[0]);
      forall k | 0 <= k < |more|
        ensures IsSegment(more[k])
      {
        assert words[k + 1] == more[k];
      }
    }
  }

  /**
   * The typed-name pattern read as its grammar: a string matches exactly when
   * each of its hyphen-separated parts is a non-empty run of lower-case letters.
   */
  lemma {:induction false} KebabNameIffSegments(s: string)
    ensures IsKebabName(s) <==> AllSegments(SplitOnDashes(s))
    decreases |s|
  {
    var n := LeadingRun(s, IsNotDash);
    if n == |s| {
      KebabSingleSegment(s);
      assert SplitOnDashes(s) == [s];
      AllSegmentsCons(s, []);
    } else {
      var rest := s[n + 1..];
      KebabFirstSegment(s, n);
      KebabNameIffSegments(rest);
      assert SplitOnDashes(s) == [s[..n]] + SplitOnDashes(rest);
      AllSegmentsCons(s[..n], SplitOnDashes(rest));
    }
  }

  /** After a segment and a hyphen the matcher is back in its start state. */
  lemma KebabAfterSegment(w: string, rest: string)
    requires IsSegment(w)
    ensures IsKebabName(w + ("-" + rest)) <==> IsKebabName(rest)
  {
    KebabFromLetters(w, true);
    KebabFromAppend(w, "-" + rest, true);
    assert ("-" + rest)[1..] == rest;
  }

  /** A first part that is not a segment makes the matcher reject. */
  lemma KebabBadFirstPart(s: string, n: nat)
    requires n == LeadingRun(s, IsNotDash) && !IsSegment(s[..n])
    ensures !IsKebabName(s)
  {
    if n == 0 {
      if s != [] {
        assert s[0] == '-';
      }
    } else {
      var i :| 0 <= i < n && !IsLowerLetter(s[..n][i]);
      assert s[i] == s[..n][i] && IsNotDash(s[i]);
      KebabFromRejects(s, i, true);
    }
  }

  /** The matcher on a string without a hyphen: it must be one segment. */
  lemma KebabSingleSegment(s: string)
    requires LeadingRun(s, IsNotDash) == |s|
    ensures IsKebabName(s) <==> IsSegment(s)
  {
    if IsSegment(s) {
      KebabFromLetters(s, true);
    } else {
      assert s[..|s|] == s;
      KebabBadFirstPart(s, |s|);
    }
  }

  /** The matcher on a string split at its first hyphen: a segment, then a name. */
  lemma KebabFirstSegment(s: string, n: nat)
    requires n == LeadingRun(s, IsNotDash) && n < |s|
    ensures IsKebabName(s) <==> IsSegment(s[..n]) && IsKebabName(s[n + 1..])
  {
    var w := s[..n];
    if IsSegment(w) {
      assert IsKebabName(s) <==> IsKebabName(s[n + 1..]) by {
        SplitAtDash(s, n);
        KebabAfterSegment(w, s[n + 1..]);
      }
    } else {
      assert !IsKebabName(s) by {
        KebabBadFirstPart(s, n);
      }
    }
  }

  lemma SplitAtDash(s: string, n: nat)
    requires n == LeadingRun(s, IsNotDash) && n < |s|
    ensures s == s[..n] + ("-" + s[n + 1..])
  {
  }

  /** Lower-case segments joined by single hyphens always pass the typed-name pattern. */
  lemma {:induction false} JoinedSegmentsAreKebab(words: seq<string>)
    requires words != []
    requires AllSegments(words)
    ensures IsKebabName(JoinWithDashes(words))
    decreases |words|
  {
    KebabFromLetters(words[0], true);
    if |words| > 1 {
      var rest := JoinWithDashes(words[1..]);
      JoinedSegmentsAreKebab(words[1..]);
      assert JoinWithDashes(words) == words[0] + ("-" + rest);
      KebabFromAppend(words[0], "-" + rest, true);
      assert ("-" + rest)[1..] == rest;
    }
  }

  /** Case-insensitive comparison of one character with a lower-case letter, as the `i` flag does. */
  predicate SameLetter(c: char, lower: char) {
    LowerChar(c) == lower
  }

  /** `y(es)?`, ignoring case. */
  predicate MatchesYes(a: string) {
    && (|a| == 1 || |a| == 3)
    && SameLetter(a[0], 'y')
    && (|a| == 3 ==> SameLetter(a[1], 'e') && SameLetter(a[2], 's'))
  }

  /** `n(o)?`, ignoring case. */
  predicate MatchesNo(a: string) {
    && (|a| == 1 || |a| == 2)
    && SameLetter(a[0], 'n')
    && (|a| == 2 ==> SameLetter(a[1], 'o'))
  }

  /** The yes/no pattern `^(y(es)?|n(o)?)$` with the `i` flag. */
  predicate IsYesNo(a: string) {
    MatchesYes(a) || MatchesNo(a)
  }

  /** The accept test on a yes/no answer: its lower-cased first character is `y`. */
  predicate AcceptsSuggestion(a: string) {
    |a| > 0 && LowerChar(a[0]) == 'y'
  }

  /**
   * Separators at the ends are dropped and every other character is kept:
   * a directory name that is a kept character, anything, and a kept
   * character, wrapped in separators, is suggested as the middle part with
   * each inner separator turned into one hyphen.
   */
  lemma SuggestOfFramed(lead: string, x: string, trail: string)
    requires forall i :: 0 <= i < |lead| ==> !IsKept(lead[i])
    requires forall i :: 0 <= i < |trail| ==> !IsKept(trail[i])
    requires x != [] && IsKept(x[0]) && IsKept(x[|x| - 1])
    ensures Suggest(lead + x + trail) == Lower(Dashify(x))
  {
    var s := lead + x + trail;
    var d := Dashify(s);
    assert d == Dashify(lead) + Dashify(x) + Dashify(trail);
    var k := LeadingRun(d, IsDash);
    var j := TrailingRun(d, IsDash);
    assert d[|lead|] == x[0];
    assert d[|d| - 1 - |trail|] == x[|x| - 1];
    assert k == |lead|;
    assert j == |trail|;
    assert Strip(d, IsDash) == d[k..|d| - j];
    assert d[k..|d| - j] == Dashify(x);
  }

  /** `My_Cool_Chart` with its separator turned into hyphens and lower-cased. */
  lemma LowerDashifyExample()
    ensures Lower(Dashify("My_Cool_Chart")) == "my-cool-chart"
  {
  }

  /** The worked example: separators become hyphens one for one, and only the end runs are removed. */
  lemma SuggestExample()
    ensures Suggest("My_Cool_Chart!!") == "my-cool-chart"
  {
    assert "My_Cool_Chart!!" == "" + "My_Cool_Chart" + "!!";
    SuggestOfFramed("", "My_Cool_Chart", "!!");
    LowerDashifyExample();
  }

  /** A suggestion need not be a valid typed name: inner runs are not collapsed. */
  lemma SuggestNotAlwaysKebab()
    ensures Suggest("a__b") == "a--b" && !IsKebabName("a--b")
  {
    assert "a__b" == "" + "a__b" + "";
    SuggestOfFramed("", "a__b", "");
    assert Lower(Dashify("a__b")) == "a--b";
  }

  /** A string already in suggestion form is its own suggestion. */
  lemma SuggestOfSuggestionForm(x: string)
    requires forall i :: 0 <= i < |x| ==> IsSuggestionChar(x[i])
    requires x != [] ==> x[0] != '-' && x[|x| - 1] != '-'
    ensures Suggest(x) == x
  {
    var d := Dashify(x);
    assert d == x;
    if x != [] {
      assert LeadingRun(d, IsDash) == 0;
      assert TrailingRun(d, IsDash) == 0;
      assert Strip(d, IsDash) == x;
    }
    assert Lower(x) == x;
  }

  /** Suggesting is idempotent: the suggestion for a directory named after a suggestion is that suggestion. */
  lemma SuggestIdempotent(dirName: string)
    ensures Suggest(Suggest(dirName)) == Suggest(dirName)
  {
    SuggestOfSuggestionForm(Suggest(dirName));
  }

  /** The template's own directory name is its own suggestion, so a fresh clone counts as default. */
  lemma DefaultCloneIsDefault()
    ensures IsDefault(DefaultChartName)
  {
    SuggestOfSuggestionForm(DefaultChartName);
  }

  /**
   * When a suggestion passes the typed-name pattern: exactly when it is
   * non-empty, holds no digit and has no two hyphens in a row.
   */
  lemma SuggestKebabIff(dirName: string)
    ensures var r := Suggest(dirName);
      IsKebabName(r) <==>
        && r != []
        && (forall i :: 0 <= i < |r| ==> !IsDigit(r[i]))
        && (forall i :: 0 <= i < |r| - 1 ==> r[i] == '-' ==> r[i + 1] != '-')
  {
    KebabNameIff(Suggest(dirName));
  }

  /** The yes/no pattern, both directions: it accepts exactly `y`, `yes`, `n` and `no` in any case. */
  lemma YesNoIff(a: string)
    ensures IsYesNo(a) <==> Lower(a) in {"y", "yes", "n", "no"}
  {
    var l := Lower(a);
    if |a| == 1 {
      assert l == [LowerChar(a[0])];
    } else if |a| == 2 {
      assert l == [LowerChar(a[0]), LowerChar(a[1])];
    } else if |a| == 3 {
      assert l == [LowerChar(a[0]), LowerChar(a[1]), LowerChar(a[2])];
    } else {
      assert |l| == |a|;
    }
  }

  /** On a well-formed answer the suggestion is taken exactly for `y` and `yes`, in any case. */
  lemma AcceptsSuggestionIff(a: string)
    requires IsYesNo(a)
    ensures AcceptsSuggestion(a) <==> Lower(a) in {"y", "yes"}
  {
    YesNoIff(a);
    if |a| == 1 {
      assert Lower(a) == [LowerChar(a[0])];
    } else if |a| == 2 {
      assert Lower(a) == [LowerChar(a[0]), LowerChar(a[1])];
    } else {
      assert Lower(a) == [LowerChar(a[0]), LowerChar(a[1]), LowerChar(a[2])];
    }
  }
}
