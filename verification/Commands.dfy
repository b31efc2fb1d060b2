/** How the terminal client reads one line of input: surrounding whitespace is removed
    (Python's `str.strip()`), a blank line is ignored, and `/quit`, `/exit` and `/reset`
    are recognised regardless of case. */
module Commands {

  /** The characters Python's `str.isspace()` accepts: tab, line feed, vertical tab, form
      feed, carriage return, the separator controls U+001C..U+001F, space, NEL, NO-BREAK
      SPACE, OGHAM SPACE MARK, the spaces U+2000..U+200A, LINE and PARAGRAPH SEPARATOR,
      NARROW NO-BREAK SPACE, MEDIUM MATHEMATICAL SPACE and IDEOGRAPHIC SPACE. */
  const Whitespace: set<char> :=
    {
      '\U{0009}', '\U{000A}', '\U{000B}', '\U{000C}', '\U{000D}', '\U{001C}', '\U{001D}', '\U{001E}',
      '\U{001F}', '\U{0020}', '\U{0085}', '\U{00A0}', '\U{1680}', '\U{2000}', '\U{2001}', '\U{2002}',
      '\U{2003}', '\U{2004}', '\U{2005}', '\U{2006}', '\U{2007}', '\U{2008}', '\U{2009}', '\U{200A}',
      '\U{2028}', '\U{2029}', '\U{202F}', '\U{205F}', '\U{3000}'
    }

  /** Every character of `s` is one of `chars`. */
  predicate AllIn(s: string, chars: set<char>) {
    forall k :: 0 <= k < |s| ==> s[k] in chars
  }

  predicate AllSpace(s: string) {
    AllIn(s, Whitespace)
  }

  /** The length of the run of `chars` at the start of `s`: the character just after
      it, if any, is not one of `chars` (`LeadingRunIn` shows the run is made of them). */
  function LeadingRun(s: string, chars: set<char>): (n: nat)
    ensures n <= |s|
    ensures n < |s| ==> s[n] !in chars
  {
    if |s| == 0 || s[0] !in chars then 0
    else
      var m := LeadingRun(s[1..], chars);
      assert m < |s| - 1 ==> s[1 + m] == s[1..][m];
      1 + m
  }

  /** The length of the run of `chars` at the end of `s`: the character just before it,
      if any, is not one of `chars` (`TrailingRunIn` shows the run is made of them). */
  function TrailingRun(s: string, chars: set<char>): (n: nat)
    ensures n <= |s|
    ensures n < |s| ==> s[|s| - n - 1] !in chars
  {
    if |s| == 0 || s[|s| - 1] !in chars then 0
    else
      var m := TrailingRun(s[..|s| - 1], chars);
      assert m < |s| - 1 ==> s[|s| - m - 2] == s[..|s| - 1][|s| - m - 2];
      1 + m
  }

  lemma {:induction false} LeadingRunIn(s: string, chars: set<char>)
    ensures forall k :: 0 <= k < LeadingRun(s, chars) ==> s[k] in chars
  {
    if |s| > 0 && s[0] in chars {
      LeadingRunIn(s[1..], chars);
      assert forall k :: 1 <= k < LeadingRun(s, chars) ==> s[k] == s[1..][k - 1];
    }
  }

  lemma {:induction false} TrailingRunIn(s: string, chars: set<char>)
    ensures forall k :: |s| - TrailingRun(s, chars) <= k < |s| ==> s[k] in chars
  {
    if |s| > 0 && s[|s| - 1] in chars {
      var front := s[..|s| - 1];
      TrailingRunIn(front, chars);
      assert forall k :: |s| - TrailingRun(s, chars) <= k < |s| - 1 ==> s[k] == front[k];
    }
  }

  /** Any index with the two properties of `LeadingRun` is `LeadingRun`. */
  lemma {:induction false} LeadingRunUnique(s: string, chars: set<char>, n: nat)
    requires n <= |s|
    requires forall k :: 0 <= k < n ==> s[k] in chars
    requires n < |s| ==> s[n] !in chars
    ensures LeadingRun(s, chars) == n
  {
    if n > 0 {
      var rest := s[1..];
      assert forall k :: 0 <= k < n - 1 ==> rest[k] == s[k + 1];
      assert n - 1 < |rest| ==> rest[n - 1] == s[n];
      LeadingRunUnique(rest, chars, n - 1);
    }
  }

  /** Any length with the two properties of `TrailingRun` is `TrailingRun`. */
  lemma {:induction false} TrailingRunUnique(s: string, chars: set<char>, n: nat)
    requires n <= |s|
    requires forall k :: |s| - n <= k < |s| ==> s[k] in chars
    requires n < |s| ==> s[|s| - n - 1] !in chars
    ensures TrailingRun(s, chars) == n
  {
    if n > 0 {
      var front := s[..|s| - 1];
      assert forall k :: |front| - (n - 1) <= k < |front| ==> front[k] == s[k];
      assert n - 1 < |front| ==> front[|front| - (n - 1) - 1] == s[|s| - n - 1];
      TrailingRunUnique(front, chars, n - 1);
    }
  }

  /** Python's `str.strip(chars)`: the part of `s` between its leading and trailing runs
      of `chars`; empty exactly when `s` consists of `chars` only. */
  function StripChars(s: string, chars: set<char>): (r: string)
    ensures r == "" <==> AllIn(s, chars)
    ensures r == "" || (r[0] !in chars && r[|r| - 1] !in chars)
    ensures |r| <= |s|
  {
    var i := LeadingRun(s, chars);
    if i == |s| then
      LeadingRunIn(s, chars);
      ""
    else
      TextBetweenRuns(s, chars);
      s[i..|s| - TrailingRun(s, chars)]
  }

  /** When `s` does not consist of `chars` only, its leading and trailing runs do not
      meet. */
  lemma TextBetweenRuns(s: string, chars: set<char>)
    requires LeadingRun(s, chars) < |s|
    ensures LeadingRun(s, chars) < |s| - TrailingRun(s, chars)
    ensures !AllIn(s, chars)
  {
    TrailingRunIn(s, chars);
    assert s[LeadingRun(s, chars)] !in chars;
  }

  /** Python's `str.strip()` with no argument, which removes whitespace. */
  function Strip(s: string): string {
    StripChars(s, Whitespace)
  }

  /** `u` is the upper-case form of the lower-case ASCII letter `l`. */
  predicate UpperOf(u: char, l: char) {
    'a' <= l <= 'z' && u as int == l as int - 32
  }

  /** ASCII lowercasing, used only to compare with `/quit`, `/exit` and `/reset`: the
      result has no upper-case ASCII letter left, and each character is the input's own
      or the lower-case letter of an upper-case one. */
  function Lower(s: string): (r: string)
    ensures |r| == |s|
    ensures forall i :: 0 <= i < |r| ==> !('A' <= r[i] <= 'Z')
    ensures forall i :: 0 <= i < |r| ==> r[i] == s[i] || UpperOf(s[i], r[i])
  {
    seq(|s|, i requires 0 <= i < |s| => if 'A' <= s[i] <= 'Z' then (s[i] as int + 32) as char else s[i])
  }

  /** For a word `w` with no upper-case letter, `s` lowercases to `w` exactly when it
      spells `w` with any mix of cases. */
  lemma LowerIs(s: string, w: string)
    requires forall i :: 0 <= i < |w| ==> !('A' <= w[i] <= 'Z')
    ensures Lower(s) == w <==> |s| == |w| && forall i :: 0 <= i < |s| ==> s[i] == w[i] || UpperOf(s[i], w[i])
  {
    if |s| == |w| && forall i :: 0 <= i < |s| ==> s[i] == w[i] || UpperOf(s[i], w[i]) {
      var r := Lower(s);
      forall i | 0 <= i < |s|
        ensures r[i] == w[i]
      {
        if s[i] == w[i] {
          assert !UpperOf(s[i], r[i]);
        } else {
          assert r[i] != s[i];
        }
      }
    }
  }

  /** The spellings that end the loop, after lowercasing. */
  const ExitWords: set<string> := {"/quit", "/exit"}

  /** The spelling that clears the history, after lowercasing. */
  const ResetWord := "/reset"

  /** What one input line asks for. */
  datatype Command = Skip | Quit | Reset | Say(text: string)

  /** The terminal loop's reading of one input line: blank input is skipped, the stripped
      input is compared case-insensitively with the commands, and anything else is sent
      stripped. */
  function Classify(raw: string): (c: Command)
    ensures c.Skip? <==> AllSpace(raw)
    ensures c == Quit <==> Lower(Strip(raw)) in ExitWords
    ensures c == Reset <==> Lower(Strip(raw)) == ResetWord
    ensures c.Say? <==> !AllSpace(raw) && Lower(Strip(raw)) !in ExitWords && Lower(Strip(raw)) != ResetWord
    ensures c.Say? ==> c.text == Strip(raw) && c.text != ""
    ensures c.Say? ==> c.text[0] !in Whitespace && c.text[|c.text| - 1] !in Whitespace
  {
    var user := Strip(raw);
    if user == "" then Skip
    else if Lower(user) in ExitWords then Quit
    else if Lower(user) == ResetWord then Reset
    else Say(user)
  }

  lemma PaddedAllIn(w1: string, s: string, w2: string, chars: set<char>)
    requires AllIn(w1, chars) && AllIn(s, chars) && AllIn(w2, chars)
    ensures AllIn(w1 + s + w2, chars)
  {
    var t := w1 + s + w2;
    forall k | 0 <= k < |t|
      ensures t[k] in chars
    {
      if k < |w1| {
        assert t[k] == w1[k];
      } else if k < |w1| + |s| {
        assert t[k] == s[k - |w1|];
      } else {
        assert t[k] == w2[k - |w1| - |s|];
      }
    }
  }

  lemma PaddedLeading(w1: string, s: string, w2: string, chars: set<char>)
    requires AllIn(w1, chars) && LeadingRun(s, chars) < |s|
    ensures LeadingRun(w1 + s + w2, chars) == |w1| + LeadingRun(s, chars)
  {
    var t := w1 + s + w2;
    var a := LeadingRun(s, chars);
    LeadingRunIn(s, chars);
    forall k | 0 <= k < |w1| + a
      ensures t[k] in chars
    {
      if k < |w1| {
        assert t[k] == w1[k];
      } else {
        assert t[k] == s[k - |w1|];
      }
    }
    assert t[|w1| + a] == s[a];
    LeadingRunUnique(t, chars, |w1| + a);
  }

  lemma PaddedTrailing(w1: string, s: string, w2: string, chars: set<char>)
    requires AllIn(w2, chars) && LeadingRun(s, chars) < |s|
    ensures TrailingRun(w1 + s + w2, chars) == |w2| + TrailingRun(s, chars)
  {
    TextBetweenRuns(s, chars);
    var t := w1 + s + w2;
    var b := TrailingRun(s, chars);
    TrailingRunIn(s, chars);
    forall k | |t| - (|w2| + b) <= k < |t|
      ensures t[k] in chars
    {
      if k < |w1| + |s| {
        assert t[k] == s[k - |w1|];
      } else {
        assert t[k] == w2[k - |w1| - |s|];
      }
    }
    assert t[|t| - (|w2| + b) - 1] == s[|s| - b - 1];
    TrailingRunUnique(t, chars, |w2| + b);
  }

  /** The slice of a padded text at positions shifted by the left padding is the
      corresponding slice of the text. */
  lemma SliceOfPadded(w1: string, s: string, w2: string, i: nat, j: nat, p: nat, q: nat)
    requires i <= j <= |s| && p == |w1| + i && q == |w1| + j
    ensures q <= |w1 + s + w2| && (w1 + s + w2)[p..q] == s[i..j]
  {
    var t := w1 + s + w2;
    var x, y := t[p..q], s[i..j];
    assert |x| == |y|;
    forall k | 0 <= k < |x|
      ensures x[k] == y[k]
    {
      assert x[k] == t[p + k];
    }
  }

  lemma PaddedBlankStrip(w1: string, s: string, w2: string, chars: set<char>)
    requires AllIn(w1, chars) && LeadingRun(s, chars) == |s| && AllIn(w2, chars)
    ensures StripChars(w1 + s + w2, chars) == "" == StripChars(s, chars)
  {
    LeadingRunIn(s, chars);
    PaddedAllIn(w1, s, w2, chars);
  }

  lemma PaddedTextStrip(w1: string, s: string, w2: string, chars: set<char>)
    requires AllIn(w1, chars) && LeadingRun(s, chars) < |s| && AllIn(w2, chars)
    ensures StripChars(w1 + s + w2, chars) == StripChars(s, chars)
  {
    PaddedLeading(w1, s, w2, chars);
    PaddedTrailing(w1, s, w2, chars);
    TextBetweenRuns(s, chars);
    MiddleOfPadded(w1, s, w2, chars);
  }

  /** Once the runs of a padded text are known, its middle is the text's middle. */
  lemma MiddleOfPadded(w1: string, s: string, w2: string, chars: set<char>)
    requires LeadingRun(s, chars) < |s| - TrailingRun(s, chars)
    requires LeadingRun(w1 + s + w2, chars) == |w1| + LeadingRun(s, chars)
    requires TrailingRun(w1 + s + w2, chars) == |w2| + TrailingRun(s, chars)
    ensures StripChars(w1 + s + w2, chars) == StripChars(s, chars)
  {
    var t := w1 + s + w2;
    var a, b := LeadingRun(s, chars), TrailingRun(s, chars);
    var p, q := LeadingRun(t, chars), |t| - TrailingRun(t, chars);
    assert |t| == |w1| + |s| + |w2|;
    assert p == |w1| + a && q == |w1| + (|s| - b);
    StripIsMiddle(s, chars);
    StripIsMiddle(t, chars);
    SliceOfPadded(w1, s, w2, a, |s| - b, p, q);
    EqualThrough(StripChars(t, chars), t[p..q], s[a..|s| - b], StripChars(s, chars));
  }

  /** Proof step: two strings equal to the same chain of strings are equal. */
  lemma EqualThrough(x: string, u: string, v: string, y: string)
    requires x == u && u == v && y == v
    ensures x == y
  {
  }

  /** When `s` is not all `chars`, stripping keeps exactly the part between the runs. */
  lemma StripIsMiddle(s: string, chars: set<char>)
    requires LeadingRun(s, chars) < |s|
    ensures LeadingRun(s, chars) < |s| - TrailingRun(s, chars)
    ensures StripChars(s, chars) == s[LeadingRun(s, chars)..|s| - TrailingRun(s, chars)]
  {
    TextBetweenRuns(s, chars);
  }

  /** Characters of `chars` around a text are removed along with the text's own. */
  lemma StripPadded(w1: string, s: string, w2: string, chars: set<char>)
    requires AllIn(w1, chars) && AllIn(w2, chars)
    ensures StripChars(w1 + s + w2, chars) == StripChars(s, chars)
  {
    if LeadingRun(s, chars) == |s| {
      PaddedBlankStrip(w1, s, w2, chars);
    } else {
      PaddedTextStrip(w1, s, w2, chars);
    }
  }

  /** Text that neither starts nor ends with one of `chars` is left as it is. */
  lemma StripKeepsTrimmed(s: string, chars: set<char>)
    requires s == "" || (s[0] !in chars && s[|s| - 1] !in chars)
    ensures StripChars(s, chars) == s
  {
  }

  /** Classification ignores surrounding whitespace: padded input is read as the input
      itself. */
  lemma ClassifyIgnoresPadding(w1: string, s: string, w2: string)
    requires AllSpace(w1) && AllSpace(w2)
    ensures Classify(w1 + s + w2) == Classify(s)
  {
    StripPadded(w1, s, w2, Whitespace);
  }

  /** The printable ASCII characters other than space are not whitespace. */
  lemma VisibleAscii(c: char)
    requires '!' <= c <= '~'
    ensures c !in Whitespace
  {
  }

  /** A character that lowercases to a printable ASCII character is one itself. */
  lemma VisibleUnderLower(s: string, i: nat)
    requires i < |s| && '!' <= Lower(s)[i] <= '~'
    ensures s[i] !in Whitespace
  {
    VisibleAscii(s[i]);
  }

  /** Every spelling of a command starts with `/` and ends with `t`, so it has no
      whitespace to strip. */
  lemma CommandIsTrimmed(s: string)
    requires Lower(s) in ExitWords || Lower(s) == ResetWord
    ensures Strip(s) == s
  {
    var w := Lower(s);
    assert w[0] == '/' && w[|w| - 1] == 't';
    VisibleUnderLower(s, 0);
    VisibleUnderLower(s, |s| - 1);
    StripKeepsTrimmed(s, Whitespace);
  }

  /** `/quit` and `/exit`, in any case and with any surrounding whitespace, end the
      loop. */
  lemma ExitAnyCase(w1: string, s: string, w2: string)
    requires AllSpace(w1) && AllSpace(w2) && Lower(s) in ExitWords
    ensures Classify(w1 + s + w2) == Quit
  {
    CommandIsTrimmed(s);
    ClassifyIgnoresPadding(w1, s, w2);
  }

  /** `/reset`, in any case and with any surrounding whitespace, clears the history. */
  lemma ResetAnyCase(w1: string, s: string, w2: string)
    requires AllSpace(w1) && AllSpace(w2) && Lower(s) == ResetWord
    ensures Classify(w1 + s + w2) == Reset
  {
    CommandIsTrimmed(s);
    ClassifyIgnoresPadding(w1, s, w2);
  }

  /** Any mix of cases of a command word lowercases to it. */
  lemma MixedCaseCommand(s: string, w: string)
    requires w in ExitWords || w == ResetWord
    requires |s| == |w| && forall i :: 0 <= i < |s| ==> s[i] == w[i] || UpperOf(s[i], w[i])
    ensures Lower(s) == w
  {
    LowerIs(s, w);
  }

  /** `/Exit` is read as the quit command. */
  lemma ExitExample()
    ensures Classify("/Exit") == Quit
  {
    var s := "/Exit";
    MixedCaseCommand(s, "/exit");
    ExitAnyCase("", s, "");
    assert "" + s + "" == s;
  }

  /** `/Reset` padded with spaces and a tab is read as the reset command. */
  lemma ResetPaddedExample()
    ensures Classify("  " + "/Reset" + " \t") == Reset
  {
    var w1, s, w2 := "  ", "/Reset", " \t";
    assert AllSpace(w1) && AllSpace(w2);
    MixedCaseCommand(s, ResetWord);
    ResetAnyCase(w1, s, w2);
  }
}
