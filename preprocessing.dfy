/**
 * Text cleaning and label remapping of the data-preparation step
 * (src/data_preprocessing.py): clean_text and the raw-to-class label map.
 *
 * clean_text runs its stages one after another, each on the result of
 * the one before:
 *   1. RemoveUrls deletes `http` and the maximal run of non-whitespace after it;
 *   2. RemoveMentions deletes `@` and the maximal run of word characters after it;
 *   3. RemoveDisallowed deletes every character that is not an ASCII letter,
 *      an ASCII digit or whitespace;
 *   4. Strip removes the whitespace at both ends, and Lower lowercases.
 */
module Preprocessing {
  import opened Wrappers
  import opened Subsequences

  // ------------------------------------------------------------------
  // Character classes
  // ------------------------------------------------------------------

  /**
   * Python's str.isspace. The same set is what `\s` matches in a str
   * pattern and what str.strip() removes when called without arguments.
   */
  predicate IsWhitespace(c: char) {
    var n := c as int;
    (0x09 <= n <= 0x0D) || (0x1C <= n <= 0x20) || n == 0x85 || n == 0xA0 || n == 0x1680
    || (0x2000 <= n <= 0x200A) || n == 0x2028 || n == 0x2029 || n == 0x202F || n == 0x205F
    || n == 0x3000
  }

  /** `\S` */
  predicate IsNonWhitespace(c: char) {
    !IsWhitespace(c)
  }

  predicate IsAsciiUpper(c: char) { 'A' <= c <= 'Z' }

  predicate IsAsciiLower(c: char) { 'a' <= c <= 'z' }

  predicate IsAsciiDigit(c: char) { '0' <= c <= '9' }

  predicate IsAsciiAlnum(c: char) {
    IsAsciiUpper(c) || IsAsciiLower(c) || IsAsciiDigit(c)
  }

  /** The class `[A-Za-z0-9\s]`: the characters stage three keeps. */
  predicate IsKept(c: char) {
    IsAsciiAlnum(c) || IsWhitespace(c)
  }

  /** What the cleaned text is made of: lowercase ASCII letters, ASCII digits and whitespace. */
  predicate IsCleanChar(c: char) {
    IsAsciiLower(c) || IsAsciiDigit(c) || IsWhitespace(c)
  }

  /**
   * Python's `\w` is Unicode-aware, so the word class is a parameter of
   * the mention stage. On ASCII, Python's class is exactly [A-Za-z0-9_].
   */
  ghost predicate AgreesWithPythonWordOnAscii(word: char -> bool) {
    forall c: char :: c as int < 128 ==> (word(c) <==> IsAsciiAlnum(c) || c == '_')
  }

  ghost predicate AllIn(s: string, cls: char -> bool) {
    forall i :: 0 <= i < |s| ==> cls(s[i])
  }

  // ------------------------------------------------------------------
  // Deleting every match of a literal followed by a run of a class
  // ------------------------------------------------------------------

  /** The length of the longest prefix of `s` made of characters of `cls`. */
  function RunLength(s: string, cls: char -> bool): (n: nat)
    ensures n <= |s|
    ensures forall i :: 0 <= i < n ==> cls(s[i])
    ensures n == |s| || !cls(s[n])
  {
    if s == [] || !cls(s[0]) then 0 else 1 + RunLength(s[1..], cls)
  }

  /** The pattern `lit cls+` matches at the front of `s`. */
  predicate MatchesAt(s: string, lit: string, cls: char -> bool) {
    |lit| < |s| && s[..|lit|] == lit && cls(s[|lit|])
  }

  /** How much a match at the front of `s` spans: the literal and the maximal run after it. */
  function MatchLength(s: string, lit: string, cls: char -> bool): (n: nat)
    requires MatchesAt(s, lit, cls)
    ensures |lit| < n <= |s|
    ensures forall i :: |lit| <= i < n ==> cls(s[i])
    ensures n == |s| || !cls(s[n])
  {
    var k := RunLength(s[|lit|..], cls);
    assert forall i :: |lit| <= i < |lit| + k ==> s[i] == s[|lit|..][i - |lit|];
    |lit| + k
  }

  /**
   * Deletes every match of the pattern "`lit`, then one or more characters
   * of `cls`", as regular-expression substitution with an empty
   * replacement does. The scan goes left to right: where the pattern matches, the literal and the maximal run of `cls` characters
   * after it (the greedy `+`) are deleted and the scan resumes behind them;
   * elsewhere one character is kept and the scan moves on by one.
   */
  function RemoveMatches(s: string, lit: string, cls: char -> bool): string
    decreases |s|
  {
    if s == [] then []
    else if MatchesAt(s, lit, cls) then
      RemoveMatches(s[MatchLength(s, lit, cls)..], lit, cls)
    else
      [s[0]] + RemoveMatches(s[1..], lit, cls)
  }

  /** Stage one: delete `http` and the maximal run of non-whitespace characters after it. */
  function RemoveUrls(s: string): string {
    RemoveMatches(s, "http", IsNonWhitespace)
  }

  /** Stage two: delete `@` and the maximal run of characters of the word class `word` after it. */
  function RemoveMentions(s: string, word: char -> bool): string {
    RemoveMatches(s, "@", word)
  }

  // ------------------------------------------------------------------
  // Stage three, strip and lower
  // ------------------------------------------------------------------

  /**
   * Stage three: delete every maximal run of characters that are neither
   * ASCII letters, ASCII digits nor whitespace. Deleting each such run is
   * deleting each such character. The result is
   * the subsequence of `s` made of exactly its kept characters.
   */
  function RemoveDisallowed(s: string): (r: string)
    ensures forall i :: 0 <= i < |r| ==> IsKept(r[i])
  {
    if s == [] then []
    else if IsKept(s[0]) then [s[0]] + RemoveDisallowed(s[1..])
    else RemoveDisallowed(s[1..])
  }

  /**
   * Stage three keeps every occurrence of every kept character and no
   * other character (with RemoveDisallowedIsSubsequence: it is exactly the
   * subsequence of kept characters).
   */
  lemma {:induction false} RemoveDisallowedCounts(s: string)
    ensures forall c :: IsKept(c) ==> multiset(RemoveDisallowed(s))[c] == multiset(s)[c]
    ensures forall c :: !IsKept(c) ==> multiset(RemoveDisallowed(s))[c] == 0
    decreases |s|
  {
    if s != [] {
      RemoveDisallowedCounts(s[1..]);
      assert s == [s[0]] + s[1..];
    }
  }

  /** The length of the longest suffix of `s` made of characters of `cls`. */
  function TrailingRunLength(s: string, cls: char -> bool): (n: nat)
    ensures n <= |s|
    ensures forall i :: |s| - n <= i < |s| ==> cls(s[i])
    ensures n == |s| || !cls(s[|s| - 1 - n])
  {
    if s == [] || !cls(s[|s| - 1]) then 0 else 1 + TrailingRunLength(s[..|s| - 1], cls)
  }

  /**
   * Stripping without arguments: the slice of `s` left after removing its leading and its
   * trailing whitespace. The two ensures together determine the result.
   */
  function Strip(s: string): (r: string)
    ensures r == [] || (!IsWhitespace(r[0]) && !IsWhitespace(r[|r| - 1]))
    ensures exists i, j :: 0 <= i <= j <= |s| && r == s[i..j]
              && AllIn(s[..i], IsWhitespace) && AllIn(s[j..], IsWhitespace)
  {
    var i := RunLength(s, IsWhitespace);
    var j := |s| - TrailingRunLength(s[i..], IsWhitespace);
    assert AllIn(s[j..], IsWhitespace) by {
      forall k | 0 <= k < |s| - j
        ensures IsWhitespace(s[j..][k])
      {
        assert s[j..][k] == s[i..][j - i + k];
      }
    }
    s[i..j]
  }

  /** Lowercasing one character, as Python does for ASCII: A-Z to a-z, every other character unchanged. */
  function LowerChar(c: char): (d: char)
    ensures IsAsciiUpper(c) ==> IsAsciiLower(d) && d as int == c as int + 32
    ensures !IsAsciiUpper(c) ==> d == c
    ensures IsWhitespace(d) <==> IsWhitespace(c)
    ensures IsKept(c) ==> IsCleanChar(d)
  {
    if IsAsciiUpper(c) then (c as int + 32) as char else c
  }

  /**
   * Lowercasing text whose letters are ASCII. Stage four lowers a string
   * that holds only ASCII letters, ASCII digits and whitespace, and Python's
   * whitespace characters have no lowercase form, so this is exact there.
   */
  function Lower(s: string): (r: string)
    ensures |r| == |s|
    ensures forall i :: 0 <= i < |s| ==> r[i] == LowerChar(s[i])
  {
    if s == [] then [] else [LowerChar(s[0])] + Lower(s[1..])
  }

  // ------------------------------------------------------------------
  // clean_text
  // ------------------------------------------------------------------

  /**
   * clean_text: URLs, then mentions, then every character outside
   * [A-Za-z0-9\s] are removed; the rest is stripped and lowercased.
   * The result holds only lowercase ASCII letters, digits and whitespace,
   * and neither starts nor ends with whitespace.
   */
  function CleanText(text: string, word: char -> bool): (r: string)
    ensures forall i :: 0 <= i < |r| ==> IsCleanChar(r[i])
    ensures r == [] || (!IsWhitespace(r[0]) && !IsWhitespace(r[|r| - 1]))
  {
    var kept := RemoveDisallowed(RemoveMentions(RemoveUrls(text), word));
    StripKeepsClass(kept, IsKept);
    LowerKeepsClean(Strip(kept));
    Lower(Strip(kept))
  }

  /** Strip only removes characters: a class every character of `s` is in, every character of the result is in. */
  lemma StripKeepsClass(s: string, cls: char -> bool)
    requires AllIn(s, cls)
    ensures AllIn(Strip(s), cls)
  {
    var r := Strip(s);
    var i, j :| 0 <= i <= j <= |s| && r == s[i..j];
    forall k | 0 <= k < |r| ensures cls(r[k]) {
      assert r[k] == s[i + k];
    }
  }

  /** Lowering text made of kept characters gives clean characters, and keeps whitespace where it was. */
  lemma LowerKeepsClean(s: string)
    requires AllIn(s, IsKept)
    ensures AllIn(Lower(s), IsCleanChar)
    ensures s == [] || (!IsWhitespace(s[0]) && !IsWhitespace(s[|s| - 1])) ==>
              Lower(s) == [] || (!IsWhitespace(Lower(s)[0]) && !IsWhitespace(Lower(s)[|s| - 1]))
  {
    var r := Lower(s);
    forall k | 0 <= k < |r| ensures IsCleanChar(r[k]) {
      assert r[k] == LowerChar(s[k]);
    }
  }

  // ------------------------------------------------------------------
  // What the stages do
  // ------------------------------------------------------------------

  /** Deleting matches only deletes: the result is a subsequence of the input. */
  lemma {:induction false} RemoveMatchesIsSubsequence(s: string, lit: string, cls: char -> bool)
    ensures IsSubsequence(RemoveMatches(s, lit, cls), s)
    decreases |s|
  {
    if s == [] {
      EmptyIsSubsequence(s);
    } else if MatchesAt(s, lit, cls) {
      var m := MatchLength(s, lit, cls);
      RemoveMatchesIsSubsequence(s[m..], lit, cls);
      DropSubsequence(RemoveMatches(s[m..], lit, cls), s, m);
    } else {
      RemoveMatchesIsSubsequence(s[1..], lit, cls);
      ConsSubsequence(s[0], RemoveMatches(s[1..], lit, cls), s[1..]);
      assert [s[0]] + s[1..] == s;
    }
  }

  /** Stage three only deletes. */
  lemma {:induction false} RemoveDisallowedIsSubsequence(s: string)
    ensures IsSubsequence(RemoveDisallowed(s), s)
    decreases |s|
  {
    if s == [] {
      EmptyIsSubsequence(s);
    } else {
      RemoveDisallowedIsSubsequence(s[1..]);
      if IsKept(s[0]) {
        ConsSubsequence(s[0], RemoveDisallowed(s[1..]), s[1..]);
        assert [s[0]] + s[1..] == s;
      } else {
        DropSubsequence(RemoveDisallowed(s), s, 1);
      }
    }
  }

  /** Strip only deletes. */
  lemma StripIsSubsequence(s: string)
    ensures IsSubsequence(Strip(s), s)
  {
    var i, j :| 0 <= i <= j <= |s| && Strip(s) == s[i..j];
    SliceSubsequence(s, i, j);
  }

  /**
   * clean_text deletes characters and lowercases A-Z: its result is the
   * lowercasing of a subsequence of its input, so it is never longer.
   */
  lemma CleanTextIsLoweredSubsequence(text: string, word: char -> bool)
    ensures exists t :: IsSubsequence(t, text) && CleanText(text, word) == Lower(t)
    ensures |CleanText(text, word)| <= |text|
  {
    var a := RemoveUrls(text);
    var b := RemoveMentions(a, word);
    var c := RemoveDisallowed(b);
    var d := Strip(c);
    RemoveMatchesIsSubsequence(text, "http", IsNonWhitespace);
    RemoveMatchesIsSubsequence(a, "@", word);
    RemoveDisallowedIsSubsequence(b);
    StripIsSubsequence(c);
    TransitiveSubsequence(d, c, b);
    TransitiveSubsequence(d, b, a);
    TransitiveSubsequence(d, a, text);
    SubsequenceLength(d, text);
    assert CleanText(text, word) == Lower(d);
  }

  /** A run of `cls` characters followed by a character outside `cls` (or by nothing) is a maximal run. */
  lemma RunLengthOfRun(run: string, rest: string, cls: char -> bool)
    requires AllIn(run, cls)
    requires rest == [] || !cls(rest[0])
    ensures RunLength(run + rest, cls) == |run|
  {
    var s := run + rest;
    assert forall i :: 0 <= i < |run| ==> s[i] == run[i];
    assert |rest| > 0 ==> s[|run|] == rest[0];
  }

  /** If the first `k` characters are in `cls`, the leading run is at least `k` long. */
  lemma RunLengthAtLeast(s: string, cls: char -> bool, k: nat)
    requires k <= |s|
    requires forall i :: 0 <= i < k ==> cls(s[i])
    ensures RunLength(s, cls) >= k
  {
  }

  /**
   * A match is deleted together with the whole run after the literal: a
   * literal, a nonempty maximal run of `cls` after it, and then the rest,
   * leaves only what the rest leaves.
   */
  lemma MatchIsRemovedWhole(lit: string, run: string, rest: string, cls: char -> bool)
    requires |run| > 0 && AllIn(run, cls)
    requires rest == [] || !cls(rest[0])
    ensures RemoveMatches(lit + run + rest, lit, cls) == RemoveMatches(rest, lit, cls)
  {
    var s := lit + run + rest;
    assert s[..|lit|] == lit;
    assert s[|lit|..] == run + rest;
    assert s[|lit|] == run[0];
    RunLengthOfRun(run, rest, cls);
    assert s[|lit| + |run|..] == rest;
  }

  /**
   * Stage one deletes `http` with the whole non-whitespace run after it:
   * whatever follows the run (whitespace or nothing) is where the scan resumes.
   */
  lemma UrlIsRemovedWhole(run: string, rest: string)
    requires |run| > 0 && AllIn(run, IsNonWhitespace)
    requires rest == [] || IsWhitespace(rest[0])
    ensures RemoveUrls("http" + run + rest) == RemoveUrls(rest)
  {
    MatchIsRemovedWhole("http", run, rest, IsNonWhitespace);
  }

  /** Where a match starts the text: re.sub deletes it and goes on behind it. */
  lemma SkipsMatch(s: string, lit: string, cls: char -> bool)
    requires MatchesAt(s, lit, cls)
    ensures RemoveMatches(s, lit, cls) == RemoveMatches(s[MatchLength(s, lit, cls)..], lit, cls)
  {
  }

  /** Splitting off the first character of the left operand of a concatenation. */
  lemma SplitHead(p: string, b: string)
    requires p != []
    ensures p + b == [p[0]] + (p[1..] + b)
  {
  }

  /** Concatenation after one character associates. */
  lemma ConsAssociates(x: char, a: string, b: string)
    ensures [x] + (a + b) == ([x] + a) + b
  {
  }

  /** Where the scan keeps the first character: re.sub copies it and goes on with the rest. */
  lemma KeepsHead(s: string, lit: string, cls: char -> bool)
    requires s != [] && !MatchesAt(s, lit, cls)
    ensures RemoveMatches(s, lit, cls) == [s[0]] + RemoveMatches(s[1..], lit, cls)
  {
  }

  /**
   * A prefix holding no first letter of the literal starts no match, so
   * re.sub copies it unchanged.
   */
  lemma {:induction false} KeepsPrefixWithoutLead(p: string, q: string, lit: string, cls: char -> bool)
    requires |lit| > 0
    requires forall i :: 0 <= i < |p| ==> p[i] != lit[0]
    ensures RemoveMatches(p + q, lit, cls) == p + RemoveMatches(q, lit, cls)
    decreases |p|
  {
    if p != [] {
      var s := p + q;
      assert s[0] == p[0];
      assert |lit| < |s| ==> s[..|lit|][0] == s[0];
      KeepsHead(s, lit, cls);
      assert s[1..] == p[1..] + q;
      KeepsPrefixWithoutLead(p[1..], q, lit, cls);
      SplitHead(p, RemoveMatches(q, lit, cls));
    } else {
      assert p + q == q;
    }
  }

  /** Stage one keeps a bare `http` that is followed by whitespace or by nothing. */
  lemma BareHttpIsKept(rest: string)
    requires rest == [] || IsWhitespace(rest[0])
    ensures RemoveUrls("http" + rest) == "http" + RemoveUrls(rest)
  {
    var s := "http" + rest;
    assert s[4..] == rest;
    assert !MatchesAt(s, "http", IsNonWhitespace) by {
      assert |rest| > 0 ==> s[4] == rest[0];
    }
    KeepsHead(s, "http", IsNonWhitespace);
    assert s[1..] == "ttp" + rest;
    KeepsPrefixWithoutLead("ttp", rest, "http", IsNonWhitespace);
    assert "http" + rest == [s[0]] + ("ttp" + rest);
  }

  /** An ASCII character of Python's `\w`: a letter, a digit or the underscore. */
  predicate IsAsciiWord(c: char) {
    IsAsciiAlnum(c) || c == '_'
  }

  /**
   * With Python's word class, an ASCII mention (`@` and a run of letters,
   * digits and underscores) standing before an ASCII character outside that
   * class, or before the end, is deleted whole.
   */
  lemma AsciiMentionIsRemovedWhole(name: string, rest: string, word: char -> bool)
    requires AgreesWithPythonWordOnAscii(word)
    requires |name| > 0 && forall i :: 0 <= i < |name| ==> IsAsciiWord(name[i])
    requires rest == [] || (rest[0] as int < 128 && !IsAsciiWord(rest[0]))
    ensures RemoveMentions("@" + name + rest, word) == RemoveMentions(rest, word)
  {
    assert AllIn(name, word) by {
      forall i | 0 <= i < |name| ensures word(name[i]) {
        assert IsAsciiWord(name[i]);
      }
    }
    assert rest == [] || !word(rest[0]);
    MatchIsRemovedWhole("@", name, rest, word);
  }

  /** With Python's word class, the mention in "@ab c" goes and the space after it stays. */
  lemma MentionExample(name: string, rest: string, word: char -> bool)
    requires AgreesWithPythonWordOnAscii(word)
    requires name == "ab" && rest == " c"
    ensures RemoveMentions("@" + name + rest, word) == " c"
  {
    AsciiMentionIsRemovedWhole(name, rest, word);
    KeepsPrefixWithoutLead(rest, "", "@", word);
    assert rest + "" == rest;
  }

  /**
   * A lone `@` (followed by a non-word character or by nothing) survives
   * stage two, and stage three then deletes it.
   */
  lemma BareAtSurvivesMentionStage(rest: string, word: char -> bool)
    requires rest == [] || !word(rest[0])
    ensures RemoveMentions("@" + rest, word) == "@" + RemoveMentions(rest, word)
    ensures RemoveDisallowed("@" + RemoveMentions(rest, word)) == RemoveDisallowed(RemoveMentions(rest, word))
  {
    var s := "@" + rest;
    assert s[1..] == rest;
    assert |rest| > 0 ==> s[1] == rest[0];
    assert !MatchesAt(s, "@", word);
    var t := "@" + RemoveMentions(rest, word);
    assert t[1..] == RemoveMentions(rest, word);
  }

  /** The leading run of `cls` characters of `r` also starts `s`, and is no longer than the leading run of `s`. */
  ghost predicate LeadingRunWithin(r: string, s: string, cls: char -> bool) {
    RunLength(r, cls) <= RunLength(s, cls) && r[..RunLength(r, cls)] == s[..RunLength(r, cls)]
  }

  /**
   * Removing matches never creates a longer leading run of `cls`
   * characters than the input had: the leading run of the result is a
   * prefix of the leading run of the input.
   */
  lemma {:induction false} RemovalKeepsLeadingRun(s: string, lit: string, cls: char -> bool)
    ensures LeadingRunWithin(RemoveMatches(s, lit, cls), s, cls)
    decreases |s|
  {
    var r := RemoveMatches(s, lit, cls);
    if s == [] {
    } else if MatchesAt(s, lit, cls) {
      var m := MatchLength(s, lit, cls);
      assert r == RemoveMatches(s[m..], lit, cls);
      RemovalKeepsLeadingRun(s[m..], lit, cls);
      assert m < |s| ==> s[m..][0] == s[|lit|..][m - |lit|];
      assert RunLength(s[m..], cls) == 0;
    } else if cls(s[0]) {
      var r1 := RemoveMatches(s[1..], lit, cls);
      RemovalKeepsLeadingRun(s[1..], lit, cls);
      assert r == [s[0]] + r1;
      HeadExtendsRun(s[0], r1, s[1..], cls);
      assert [s[0]] + s[1..] == s;
    }
  }

  /** A `cls` character put in front of both strings keeps one leading run within the other. */
  lemma HeadExtendsRun(x: char, r1: string, t: string, cls: char -> bool)
    requires cls(x)
    requires LeadingRunWithin(r1, t, cls)
    ensures LeadingRunWithin([x] + r1, [x] + t, cls)
  {
    var r := [x] + r1;
    var s := [x] + t;
    assert r[1..] == r1;
    assert s[1..] == t;
    var n1 := RunLength(r1, cls);
    assert RunLength(r, cls) == 1 + n1;
    assert RunLength(s, cls) == 1 + RunLength(t, cls);
    assert r[..1 + n1] == [x] + r1[..n1];
    assert s[..1 + n1] == [x] + t[..n1];
  }

  /**
   * Where the scan keeps the first character of `s`, no match can start
   * there in the result either: if what follows it in the result has its
   * leading `cls` run within that of the input, a match there would
   * already have been a match in the input.
   */
  lemma KeptHeadStartsNoMatch(s: string, r1: string, lit: string, cls: char -> bool)
    requires s != []
    requires forall k :: 1 <= k < |lit| ==> cls(lit[k])
    requires LeadingRunWithin(r1, s[1..], cls)
    ensures MatchesAt([s[0]] + r1, lit, cls) ==> MatchesAt(s, lit, cls)
  {
    var r := [s[0]] + r1;
    var n := |lit|;
    if MatchesAt(r, lit, cls) && n > 0 {
      MatchAfterHeadIsRun(s[0], r1, lit, cls);
      RunLengthAtLeast(r1, cls, n);
      var n1 := RunLength(r1, cls);
      assert r1[..n] == s[1..][..n] by {
        assert r1[..n] == r1[..n1][..n];
        assert s[1..][..n] == s[1..][..n1][..n];
      }
      SameHeadPrefix(s, r1, n);
      assert s[..n] == r[..n + 1][..n];
      assert s[n] == r[..n + 1][n];
    }
  }

  /** What follows the head of a match begins with the literal's later letters and the run, all of `cls`. */
  lemma MatchAfterHeadIsRun(x: char, r1: string, lit: string, cls: char -> bool)
    requires forall k :: 1 <= k < |lit| ==> cls(lit[k])
    requires |lit| > 0 && MatchesAt([x] + r1, lit, cls)
    ensures |lit| <= |r1| && forall k :: 0 <= k < |lit| ==> cls(r1[k])
  {
    var r := [x] + r1;
    var n := |lit|;
    forall k | 0 <= k < n ensures cls(r1[k]) {
      assert r1[k] == r[k + 1];
      if k + 1 < n {
        assert r[..n][k + 1] == r[k + 1];
      }
    }
  }

  /** Equal after the head, equal with it. */
  lemma SameHeadPrefix(s: string, r1: string, m: nat)
    requires s != [] && m < |s| && m <= |r1|
    requires r1[..m] == s[1..][..m]
    ensures ([s[0]] + r1)[..m + 1] == s[..m + 1]
  {
    assert ([s[0]] + r1)[..m + 1] == [s[0]] + r1[..m];
    assert s[..m + 1] == [s[0]] + s[1..][..m];
  }


  /** No position of `r` starts a match of `lit cls+`. */
  ghost predicate NoMatchIn(r: string, lit: string, cls: char -> bool) {
    forall i :: 0 <= i < |r| ==> !MatchesAt(r[i..], lit, cls)
  }

  /**
   * Scanning left to right with maximal runs leaves nothing for the
   * pattern to match: no position of the result starts a match. (Holds
   * when the letters of the literal after its first are themselves in
   * `cls`, as `ttp` is for `\S`; vacuous for a one-letter literal.)
   */
  lemma {:induction false} RemoveMatchesLeavesNoMatch(s: string, lit: string, cls: char -> bool)
    requires forall k :: 1 <= k < |lit| ==> cls(lit[k])
    ensures NoMatchIn(RemoveMatches(s, lit, cls), lit, cls)
    decreases |s|
  {
    var r := RemoveMatches(s, lit, cls);
    if s == [] {
    } else if MatchesAt(s, lit, cls) {
      var m := MatchLength(s, lit, cls);
      assert r == RemoveMatches(s[m..], lit, cls);
      RemoveMatchesLeavesNoMatch(s[m..], lit, cls);
    } else {
      var r1 := RemoveMatches(s[1..], lit, cls);
      RemoveMatchesLeavesNoMatch(s[1..], lit, cls);
      RemovalKeepsLeadingRun(s[1..], lit, cls);
      KeptHeadStartsNoMatch(s, r1, lit, cls);
      assert r == [s[0]] + r1;
      forall i | 0 <= i < |r| ensures !MatchesAt(r[i..], lit, cls) {
        if i == 0 {
          assert r[0..] == r;
        } else {
          assert r[i..] == r1[i - 1..];
        }
      }
    }
  }

  /** After stage one no `http` followed by a non-whitespace character is left. */
  lemma RemoveUrlsLeavesNoUrl(s: string)
    ensures NoMatchIn(RemoveUrls(s), "http", IsNonWhitespace)
  {
    RemoveMatchesLeavesNoMatch(s, "http", IsNonWhitespace);
  }

  /** After stage two no `@` followed by a word character is left. */
  lemma RemoveMentionsLeavesNoMention(s: string, word: char -> bool)
    ensures NoMatchIn(RemoveMentions(s, word), "@", word)
  {
    RemoveMatchesLeavesNoMatch(s, "@", word);
  }

  // ------------------------------------------------------------------
  // Strings clean_text leaves alone
  // ------------------------------------------------------------------

  /** Where the pattern matches nowhere, re.sub changes nothing. */
  lemma {:induction false} RemoveMatchesWithoutMatch(s: string, lit: string, cls: char -> bool)
    requires NoMatchIn(s, lit, cls)
    ensures RemoveMatches(s, lit, cls) == s
    decreases |s|
  {
    if s != [] {
      assert s[0..] == s;
      forall i | 0 <= i < |s[1..]| ensures !MatchesAt(s[1..][i..], lit, cls) {
        assert s[1..][i..] == s[i + 1..];
      }
      RemoveMatchesWithoutMatch(s[1..], lit, cls);
    }
  }

  /** Stage three changes nothing when every character is kept. */
  lemma {:induction false} RemoveDisallowedWithoutDisallowed(s: string)
    requires AllIn(s, IsKept)
    ensures RemoveDisallowed(s) == s
    decreases |s|
  {
    if s != [] {
      RemoveDisallowedWithoutDisallowed(s[1..]);
    }
  }

  /** Stage three works character by character, so it distributes over concatenation. */
  lemma {:induction false} RemoveDisallowedConcat(a: string, b: string)
    ensures RemoveDisallowed(a + b) == RemoveDisallowed(a) + RemoveDisallowed(b)
    decreases |a|
  {
    if a == [] {
      assert a + b == b;
    } else {
      assert (a + b)[1..] == a[1..] + b;
      RemoveDisallowedConcat(a[1..], b);
    }
  }

  /** Stage three deletes a string made only of characters outside [A-Za-z0-9\s]. */
  lemma {:induction false} RemoveDisallowedOnlyDisallowed(s: string)
    requires forall i :: 0 <= i < |s| ==> !IsKept(s[i])
    ensures RemoveDisallowed(s) == []
    decreases |s|
  {
    if s != [] {
      RemoveDisallowedOnlyDisallowed(s[1..]);
    }
  }

  /** Strip changes nothing when the string neither starts nor ends with whitespace. */
  lemma StripWithoutOuterWhitespace(s: string)
    requires s == [] || (!IsWhitespace(s[0]) && !IsWhitespace(s[|s| - 1]))
    ensures Strip(s) == s
  {
    assert RunLength(s, IsWhitespace) == 0;
    assert s[0..] == s;
    assert TrailingRunLength(s, IsWhitespace) == 0;
  }

  /** No clean character is an upper-case letter. */
  lemma CleanCharIsNotUpper(c: char)
    requires IsCleanChar(c)
    ensures !IsAsciiUpper(c)
  {
    assert IsWhitespace(c) ==> c as int < 65 || c as int > 90;
  }

  /** Lowering works character by character, so it distributes over concatenation. */
  lemma {:induction false} LowerConcat(a: string, b: string)
    ensures Lower(a + b) == Lower(a) + Lower(b)
    decreases |a|
  {
    if a == [] {
      assert a + b == b;
    } else {
      var s := a + b;
      assert s[0] == a[0];
      assert s[1..] == a[1..] + b;
      LowerConcat(a[1..], b);
      assert Lower(s) == [LowerChar(a[0])] + (Lower(a[1..]) + Lower(b));
      assert Lower(a) == [LowerChar(a[0])] + Lower(a[1..]);
      ConsAssociates(LowerChar(a[0]), Lower(a[1..]), Lower(b));
    }
  }

  /** Lowering changes nothing when there is no upper-case ASCII letter. */
  lemma LowerWithoutUpper(s: string)
    requires forall i :: 0 <= i < |s| ==> !IsAsciiUpper(s[i])
    ensures Lower(s) == s
  {
  }

  /**
   * The stages after the URL stage leave a string unchanged when it holds
   * only lowercase ASCII letters, digits and whitespace and neither starts
   * nor ends with whitespace.
   */
  lemma LaterStagesFixCleanStrings(s: string, word: char -> bool)
    requires AllIn(s, IsCleanChar)
    requires s == [] || (!IsWhitespace(s[0]) && !IsWhitespace(s[|s| - 1]))
    ensures Lower(Strip(RemoveDisallowed(RemoveMentions(s, word)))) == s
  {
    assert forall i :: 0 <= i < |s| ==> s[i] != '@';
    KeepsPrefixWithoutLead(s, "", "@", word);
    assert s + "" == s;
    assert RemoveMentions(s, word) == s;
    assert AllIn(s, IsKept);
    RemoveDisallowedWithoutDisallowed(s);
    StripWithoutOuterWhitespace(s);
    forall i | 0 <= i < |s| ensures !IsAsciiUpper(s[i]) {
      CleanCharIsNotUpper(s[i]);
    }
    LowerWithoutUpper(s);
  }

  /**
   * clean_text leaves a string unchanged when it holds only lowercase ASCII
   * letters, digits and whitespace, has no `http` followed by a
   * non-whitespace character, and neither starts nor ends with whitespace.
   */
  lemma CleanTextFixesCleanStrings(s: string, word: char -> bool)
    requires forall i :: 0 <= i < |s| ==> IsCleanChar(s[i])
    requires forall i :: 0 <= i < |s| ==> !MatchesAt(s[i..], "http", IsNonWhitespace)
    requires s == [] || (!IsWhitespace(s[0]) && !IsWhitespace(s[|s| - 1]))
    ensures CleanText(s, word) == s
  {
    RemoveMatchesWithoutMatch(s, "http", IsNonWhitespace);
    LaterStagesFixCleanStrings(s, word);
  }

  // ------------------------------------------------------------------
  // Worked examples
  // ------------------------------------------------------------------

  /**
   * A match at the front of `p + q`, where `p` ends with a character
   * outside `cls` and the literal is made of `cls` characters, lies
   * inside `p`, run included.
   */
  lemma MatchBeforeSeparator(p: string, q: string, lit: string, cls: char -> bool)
    requires AllIn(lit, cls)
    requires p != [] && !cls(p[|p| - 1])
    requires MatchesAt(p + q, lit, cls)
    ensures MatchesAt(p, lit, cls)
    ensures MatchLength(p + q, lit, cls) == MatchLength(p, lit, cls) < |p|
  {
    var s := p + q;
    var n := |lit|;
    LiteralBeforeSeparator(p, q, lit, cls);
    var t := p[n..];
    assert t[|t| - 1] == p[|p| - 1];
    RunStopsAtSeparator(t, q, cls);
    assert s[n..] == t + q;
  }

  /** The literal and the first run character of a match in `p + q` all lie before the last character of `p`. */
  lemma LiteralBeforeSeparator(p: string, q: string, lit: string, cls: char -> bool)
    requires AllIn(lit, cls)
    requires p != [] && !cls(p[|p| - 1])
    requires MatchesAt(p + q, lit, cls)
    ensures |lit| < |p| - 1 && MatchesAt(p, lit, cls)
  {
    var s := p + q;
    var n := |lit|;
    assert forall i :: 0 <= i < n ==> cls(s[i]) by {
      forall i | 0 <= i < n ensures cls(s[i]) {
        assert s[..n][i] == s[i];
      }
    }
    assert forall i :: 0 <= i < |p| ==> s[i] == p[i];
    assert n < |p| - 1;
    assert p[..n] == s[..n];
  }

  /** A maximal run cannot cross a character outside its class. */
  lemma RunStopsAtSeparator(t: string, q: string, cls: char -> bool)
    requires t != [] && !cls(t[|t| - 1])
    ensures RunLength(t + q, cls) == RunLength(t, cls) < |t|
  {
    var k := RunLength(t, cls);
    assert k < |t|;
    assert AllIn(t[..k], cls) by {
      forall i | 0 <= i < k ensures cls(t[..k][i]) {
        assert t[..k][i] == t[i];
      }
    }
    assert (t[k..] + q)[0] == t[k];
    RunLengthOfRun(t[..k], t[k..] + q, cls);
    assert t[..k] + t[k..] == t;
    assert t[..k] + (t[k..] + q) == (t[..k] + t[k..]) + q;
  }


  /**
   * A match cannot reach past a character outside `cls`: when `p` ends
   * with one (and the literal is made of `cls` characters), re.sub treats
   * `p` and `q` separately.
   */
  lemma {:induction false} RemoveMatchesConcat(p: string, q: string, lit: string, cls: char -> bool)
    requires AllIn(lit, cls)
    requires p == [] || !cls(p[|p| - 1])
    ensures RemoveMatches(p + q, lit, cls) == RemoveMatches(p, lit, cls) + RemoveMatches(q, lit, cls)
    decreases |p|, 1
  {
    if p == [] {
      assert p + q == q;
    } else if MatchesAt(p + q, lit, cls) {
      RemoveMatchesConcatAtMatch(p, q, lit, cls);
    } else {
      RemoveMatchesConcatAtKept(p, q, lit, cls);
    }
  }

  /** RemoveMatchesConcat, where a match starts at the front. */
  lemma {:induction false} RemoveMatchesConcatAtMatch(p: string, q: string, lit: string, cls: char -> bool)
    requires AllIn(lit, cls)
    requires p != [] && !cls(p[|p| - 1])
    requires MatchesAt(p + q, lit, cls)
    ensures RemoveMatches(p + q, lit, cls) == RemoveMatches(p, lit, cls) + RemoveMatches(q, lit, cls)
    decreases |p|, 0
  {
    var s := p + q;
    MatchBeforeSeparator(p, q, lit, cls);
    var m := MatchLength(p, lit, cls);
    SkipsMatch(s, lit, cls);
    SkipsMatch(p, lit, cls);
    var rest := p[m..];
    assert s[m..] == rest + q;
    assert rest[|rest| - 1] == p[|p| - 1];
    RemoveMatchesConcat(rest, q, lit, cls);
  }

  /** RemoveMatchesConcat, where the first character is kept. */
  lemma {:induction false} RemoveMatchesConcatAtKept(p: string, q: string, lit: string, cls: char -> bool)
    requires AllIn(lit, cls)
    requires p != [] && !cls(p[|p| - 1])
    requires !MatchesAt(p + q, lit, cls)
    ensures RemoveMatches(p + q, lit, cls) == RemoveMatches(p, lit, cls) + RemoveMatches(q, lit, cls)
    decreases |p|, 0
  {
    var s := p + q;
    var p1 := p[1..];
    var a := RemoveMatches(p1, lit, cls);
    var b := RemoveMatches(q, lit, cls);
    MatchExtends(p, q, lit, cls);
    KeepsHead(s, lit, cls);
    KeepsHead(p, lit, cls);
    assert s[0] == p[0];
    assert s[1..] == p1 + q;
    assert p1 == [] || !cls(p1[|p1| - 1]);
    RemoveMatchesConcat(p1, q, lit, cls);
    ConsAssociates(p[0], a, b);
  }

  /** A match at the front of `p` is still one after anything is appended. */
  lemma MatchExtends(p: string, q: string, lit: string, cls: char -> bool)
    ensures MatchesAt(p, lit, cls) ==> MatchesAt(p + q, lit, cls)
  {
    var n := |lit|;
    if n < |p| {
      assert (p + q)[..n] == p[..n];
      assert (p + q)[n] == p[n];
    }
  }

  /**
   * A URL written as a word of its own, between whitespace or the ends of
   * the text, disappears and leaves the text on both sides as it would be
   * on its own, whitespace included.
   */
  lemma UrlAsWordIsRemoved(head: string, run: string, tail: string)
    requires head == [] || IsWhitespace(head[|head| - 1])
    requires |run| > 0 && AllIn(run, IsNonWhitespace)
    requires tail == [] || IsWhitespace(tail[0])
    ensures RemoveUrls(head + "http" + run + tail) == RemoveUrls(head) + RemoveUrls(tail)
  {
    assert AllIn("http", IsNonWhitespace);
    assert head + "http" + run + tail == head + ("http" + run + tail);
    RemoveMatchesConcat(head, "http" + run + tail, "http", IsNonWhitespace);
    UrlIsRemovedWhole(run, tail);
  }

  /** The URL goes, the spaces on both sides of it stay: "see http://x.co now" becomes "see  now". */
  lemma UrlExample(head: string, run: string, tail: string, word: char -> bool)
    requires head == "see " && run == "://x.co" && tail == " now"
    ensures RemoveUrls(head + "http" + run + tail) == "see  now"
    ensures CleanText(head + "http" + run + tail, word) == "see  now"
  {
    assert forall i :: 0 <= i < |head| ==> head[i] != 'h';
    assert forall i :: 0 <= i < |tail| ==> tail[i] != 'h';
    assert AllIn(run, IsNonWhitespace);
    UrlAsWordIsRemoved(head, run, tail);
    KeepsPrefixWithoutLead(head, "", "http", IsNonWhitespace);
    KeepsPrefixWithoutLead(tail, "", "http", IsNonWhitespace);
    assert head + "" == head && tail + "" == tail;
    var kept := head + tail;
    assert kept == "see  now";
    assert AllIn(kept, IsCleanChar);
    LaterStagesFixCleanStrings(kept, word);
  }

  /**
   * clean_text is not idempotent: the URL stage is case-sensitive, so an
   * upper-case scheme survives it and is lowercased into a URL that a
   * second pass removes ("HTTPxco" becomes "httpxco", then "").
   */
  lemma CleanTextIsNotIdempotent(run: string, word: char -> bool)
    requires |run| > 0
    requires forall i :: 0 <= i < |run| ==> (IsAsciiLower(run[i]) || IsAsciiDigit(run[i])) && run[i] != 'h'
    ensures CleanText("HTTP" + run, word) == "http" + run
    ensures CleanText(CleanText("HTTP" + run, word), word) == ""
  {
    UpperSchemeSurvives(run, word);
    LowerSchemeIsUrl(run, word);
  }

  /** The first pass keeps the upper-case scheme and lowers it. */
  lemma UpperSchemeSurvives(run: string, word: char -> bool)
    requires |run| > 0
    requires forall i :: 0 <= i < |run| ==> (IsAsciiLower(run[i]) || IsAsciiDigit(run[i])) && run[i] != 'h'
    ensures CleanText("HTTP" + run, word) == "http" + run
  {
    var s := "HTTP" + run;
    UpperSchemeFirstStages(s, run, word);
    UpperSchemeLastStage(s, run);
  }

  /** Stages one to three keep "HTTP" followed by lowercase letters and digits without `h`. */
  lemma UpperSchemeFirstStages(s: string, run: string, word: char -> bool)
    requires s == "HTTP" + run
    requires forall i :: 0 <= i < |run| ==> (IsAsciiLower(run[i]) || IsAsciiDigit(run[i])) && run[i] != 'h'
    ensures RemoveDisallowed(RemoveMentions(RemoveUrls(s), word)) == s
  {
    assert forall i :: 0 <= i < |s| ==> s[i] != 'h' && s[i] != '@' && IsKept(s[i]) by {
      forall i | 0 <= i < |s|
        ensures s[i] != 'h' && s[i] != '@' && IsKept(s[i])
      {
        if i >= 4 {
          assert s[i] == run[i - 4];
        }
      }
    }
    KeepsPrefixWithoutLead(s, "", "http", IsNonWhitespace);
    KeepsPrefixWithoutLead(s, "", "@", word);
    assert s + "" == s;
    RemoveDisallowedWithoutDisallowed(s);
  }

  /** Strip leaves "HTTP" + run alone, and lower turns it into "http" + run. */
  lemma UpperSchemeLastStage(s: string, run: string)
    requires s == "HTTP" + run && |run| > 0
    requires forall i :: 0 <= i < |run| ==> IsAsciiLower(run[i]) || IsAsciiDigit(run[i])
    ensures Lower(Strip(s)) == "http" + run
  {
    var last := run[|run| - 1];
    assert s[|s| - 1] == last;
    assert IsAsciiLower(last) || IsAsciiDigit(last);
    assert !IsWhitespace(s[0]) && !IsWhitespace(last);
    StripWithoutOuterWhitespace(s);
    assert forall i :: 0 <= i < |run| ==> !IsAsciiUpper(run[i]);
    LowerWithoutUpper(run);
    LowerConcat("HTTP", run);
    LowerScheme();
  }

  /** Lowering the uppercase scheme. */
  lemma LowerScheme()
    ensures Lower("HTTP") == "http"
  {
    assert LowerChar('H') == 'h' && LowerChar('T') == 't' && LowerChar('P') == 'p';
  }

  /** The second pass sees `http` followed by a non-whitespace run: a URL, removed whole. */
  lemma LowerSchemeIsUrl(run: string, word: char -> bool)
    requires |run| > 0
    requires forall i :: 0 <= i < |run| ==> IsAsciiLower(run[i]) || IsAsciiDigit(run[i])
    ensures CleanText("http" + run, word) == ""
  {
    assert AllIn(run, IsNonWhitespace);
    assert "http" + run == "http" + run + "";
    UrlIsRemovedWhole(run, "");
  }

  // ------------------------------------------------------------------
  // The raw-to-class label map
  // ------------------------------------------------------------------

  /** The dictionary {0: 0, 2: 1, 4: 2} passed to Series.map. */
  const RawLabelMap: map<int, nat> := map[0 := 0, 2 := 1, 4 := 2]

  /**
   * Series.map(RawLabelMap) on one raw label: 0 (negative), 2 (neutral) and
   * 4 (positive) become the classes 0, 1 and 2, i.e. half the raw value;
   * every other raw value has no image and becomes a missing value.
   */
  function MapLabel(raw: int): (r: Option<nat>)
    ensures r.Some? <==> (raw == 0 || raw == 2 || raw == 4)
    ensures r.Some? ==> r.value == raw / 2 && r.value < 3
  {
    if raw in RawLabelMap then Some(RawLabelMap[raw]) else None
  }

  /** The three pairs of the dictionary: 0 to 0 (negative), 2 to 1 (neutral), 4 to 2 (positive). */
  lemma LabelMapPairs()
    ensures MapLabel(0) == Some(0) && MapLabel(2) == Some(1) && MapLabel(4) == Some(2)
  {
  }

  /** No two raw labels share a class. */
  lemma LabelMapInjective(a: int, b: int)
    requires MapLabel(a).Some? && MapLabel(a) == MapLabel(b)
    ensures a == b
  {
  }

  /** Every class 0, 1, 2 is the image of a raw label, namely twice the class. */
  lemma LabelMapOnto(c: nat)
    requires c < 3
    ensures MapLabel(2 * c) == Some(c)
  {
  }
}
