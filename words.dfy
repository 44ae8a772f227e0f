/**
 * The last two stages of `countWords`: dropping every character that is not
 * a letter or white space, then `trim().split(/\s+/)` with empty tokens
 * filtered out. `RunCount` is the independent reference: the number of
 * maximal runs of non-white-space characters.
 */
module Words {
  import opened Text

  /** `text.replace(/[^a-zA-ZąćęłńóśźżĄĆĘŁŃÓŚŹŻ\s]/g, '')` */
  function KeepLetters(s: string): (r: string)
    ensures AllKept(r)
    decreases |s|
  {
    if s == [] then []
    else if IsKept(s[0]) then [s[0]] + KeepLetters(s[1..])
    else KeepLetters(s[1..])
  }

  /** `trim()` at the front: the suffix left after the leading white space. */
  function TrimStart(s: string): (r: string)
    ensures |r| <= |s| && r == s[|s| - |r|..]
    ensures AllWhitespace(s[..|s| - |r|])
    ensures r == [] || !IsWhitespace(r[0])
    decreases |s|
  {
    if s != [] && IsWhitespace(s[0]) then
      var r := TrimStart(s[1..]);
      var k := |s| - |r|;
      assert AllWhitespace(s[..k]) by {
        forall i | 0 <= i < k
          ensures IsWhitespace(s[..k][i])
        {
          if i > 0 {
            assert s[..k][i] == s[1..][..k - 1][i - 1];
          }
        }
      }
      assert s[1..][k - 1..] == s[k..];
      r
    else s
  }

  /** `trim()` at the back: the prefix left before the trailing white space. */
  function TrimEnd(s: string): (r: string)
    ensures |r| <= |s| && r == s[..|r|]
    ensures AllWhitespace(s[|r|..])
    ensures r == [] || !IsWhitespace(r[|r| - 1])
    decreases |s|
  {
    if s != [] && IsWhitespace(s[|s| - 1]) then
      var t := s[..|s| - 1];
      var r := TrimEnd(t);
      assert s[|r|..] == t[|r|..] + [s[|s| - 1]];
      assert t[..|r|] == s[..|r|];
      r
    else s
  }

  /** `String.prototype.trim` */
  function Trim(s: string): (r: string)
    ensures r == [] || (!IsWhitespace(r[0]) && !IsWhitespace(r[|r| - 1]))
  {
    TrimEnd(TrimStart(s))
  }

  /** The index of the first white-space character of `s`, or `|s|` if there is none. */
  function WhitespaceStart(s: string): (i: nat)
    ensures i <= |s| && NoWhitespace(s[..i])
    ensures i < |s| ==> IsWhitespace(s[i])
    decreases |s|
  {
    if s == [] || IsWhitespace(s[0]) then 0
    else
      var k := WhitespaceStart(s[1..]);
      assert s[..k + 1] == [s[0]] + s[1..][..k];
      k + 1
  }

  /** The end of the white-space run that starts at `i`: the longest match of `\s+` there. */
  function WhitespaceEnd(s: string, i: nat): (j: nat)
    requires i <= |s|
    ensures i <= j <= |s| && AllWhitespace(s[i..j])
    ensures j < |s| ==> !IsWhitespace(s[j])
    decreases |s| - i
  {
    if i < |s| && IsWhitespace(s[i]) then WhitespaceEnd(s, i + 1) else i
  }

  /**
   * `s.split(/\s+/)`: the pieces between successive maximal white-space
   * runs. A leading or trailing run yields an empty first or last piece,
   * and the empty string yields one empty piece.
   */
  function Split(s: string): (r: seq<string>)
    ensures |r| >= 1
    ensures forall k :: 0 <= k < |r| ==> NoWhitespace(r[k])
    decreases |s|
  {
    var i := WhitespaceStart(s);
    if i == |s| then [s]
    else [s[..i]] + Split(s[WhitespaceEnd(s, i)..])
  }

  /** Keeps the tokens of positive length, in order, and drops the empty ones. */
  function NonEmpty(ts: seq<string>): (r: seq<string>)
    ensures |r| <= |ts|
    ensures forall k :: 0 <= k < |r| ==> r[k] != [] && r[k] in ts
    ensures forall t :: multiset(r)[t] == if t == [] then 0 else multiset(ts)[t]
  {
    if ts == [] then []
    else
      assert ts == [ts[0]] + ts[1..];
      (if ts[0] == [] then [] else [ts[0]]) + NonEmpty(ts[1..])
  }

  /**
   * The number of maximal runs of non-white-space characters in `s`, read
   * one character at a time; `afterSpace` says whether the character before
   * `s` (or the start of the text) was white space, so that a non-white-space
   * character there starts a new run.
   */
  function Runs(s: string, afterSpace: bool): nat
    decreases |s|
  {
    if s == [] then 0
    else if IsWhitespace(s[0]) then Runs(s[1..], true)
    else (if afterSpace then 1 else 0) + Runs(s[1..], false)
  }

  function RunCount(s: string): nat {
    Runs(s, true)
  }

  // ---------------------------------------------------------------------
  // Character filter
  // ---------------------------------------------------------------------

  /** The filter only deletes: its output is a subsequence of its input. */
  lemma {:induction false} KeepLettersDeletes(s: string)
    ensures IsSubsequence(KeepLetters(s), s)
    decreases |s|
  {
    if s != [] {
      KeepLettersDeletes(s[1..]);
      if IsKept(s[0]) {
        SubsequenceCons(KeepLetters(s[1..]), s);
      } else {
        SubsequenceOfSuffix(KeepLetters(s), s, 1);
      }
    }
  }

  /** Every kept character of the input survives the filter, as often as it occurs; no other does. */
  lemma {:induction false} KeepLettersCounts(s: string)
    ensures forall c :: multiset(KeepLetters(s))[c] == if IsKept(c) then multiset(s)[c] else 0
    decreases |s|
  {
    if s != [] {
      KeepLettersCounts(s[1..]);
      assert s == [s[0]] + s[1..];
    }
  }

  /** Text made only of kept characters passes through the filter unchanged. */
  lemma {:induction false} KeepLettersIdentity(s: string)
    requires AllKept(s)
    ensures KeepLetters(s) == s
    decreases |s|
  {
    if s != [] {
      KeepLettersIdentity(s[1..]);
      assert s == [s[0]] + s[1..];
    }
  }

  /** Text with no kept character filters to nothing. */
  lemma {:induction false} KeepLettersDropsAll(s: string)
    requires forall i :: 0 <= i < |s| ==> !IsKept(s[i])
    ensures KeepLetters(s) == []
    decreases |s|
  {
    if s != [] {
      KeepLettersDropsAll(s[1..]);
    }
  }

  /** Filtering a concatenation filters each part. */
  lemma {:induction false} KeepLettersAppend(a: string, b: string)
    ensures KeepLetters(a + b) == KeepLetters(a) + KeepLetters(b)
    decreases |a|
  {
    if a == [] {
      assert a + b == b;
    } else {
      assert (a + b)[0] == a[0] && (a + b)[1..] == a[1..] + b;
      KeepLettersAppend(a[1..], b);
    }
  }

  // ---------------------------------------------------------------------
  // Runs
  // ---------------------------------------------------------------------

  /** Whether the text before is white space matters only when `s` starts a run. */
  lemma RunsStart(s: string)
    ensures Runs(s, true) == Runs(s, false) + (if s != [] && !IsWhitespace(s[0]) then 1 else 0)
  {
  }

  /** Text of white space alone holds no run. */
  lemma {:induction false} RunsOfWhitespace(s: string, afterSpace: bool)
    requires AllWhitespace(s)
    ensures Runs(s, afterSpace) == 0
    decreases |s|
  {
    if s != [] {
      RunsOfWhitespace(s[1..], true);
    }
  }

  /** A non-empty white-space prefix separates: what follows is counted as after a space. */
  lemma {:induction false} RunsWhitespacePrefix(w: string, rest: string, afterSpace: bool)
    requires w != [] && AllWhitespace(w)
    ensures Runs(w + rest, afterSpace) == Runs(rest, true)
    decreases |w|
  {
    assert (w + rest)[1..] == w[1..] + rest;
    if |w| > 1 {
      RunsWhitespacePrefix(w[1..], rest, true);
    } else {
      assert w[1..] + rest == rest;
    }
  }

  /** A non-empty prefix without white space is one run, or part of the run before it. */
  lemma {:induction false} RunsWordPrefix(p: string, rest: string, afterSpace: bool)
    requires p != [] && NoWhitespace(p)
    ensures Runs(p + rest, afterSpace) == (if afterSpace then 1 else 0) + Runs(rest, false)
    decreases |p|
  {
    assert (p + rest)[1..] == p[1..] + rest;
    if |p| > 1 {
      RunsWordPrefix(p[1..], rest, false);
    } else {
      assert p[1..] + rest == rest;
    }
  }

  /** Trailing white space adds no run. */
  lemma {:induction false} RunsWhitespaceSuffix(s: string, w: string, afterSpace: bool)
    requires AllWhitespace(w)
    ensures Runs(s + w, afterSpace) == Runs(s, afterSpace)
    decreases |s| + |w|
  {
    if s == [] {
      assert s + w == w;
      if w != [] {
        RunsWhitespaceSuffix(s, w[1..], true);
        assert s + w[1..] == w[1..];
      }
    } else {
      assert (s + w)[1..] == s[1..] + w;
      RunsWhitespaceSuffix(s[1..], w, IsWhitespace(s[0]));
    }
  }

  /** Removing leading white space changes no run count. */
  lemma TrimStartKeepsRuns(s: string)
    ensures RunCount(TrimStart(s)) == RunCount(s)
  {
    var t := TrimStart(s);
    var k := |s| - |t|;
    if k > 0 {
      assert s == s[..k] + t;
      RunsWhitespacePrefix(s[..k], t, true);
    }
  }

  /** Removing trailing white space changes no run count. */
  lemma TrimEndKeepsRuns(s: string)
    ensures RunCount(TrimEnd(s)) == RunCount(s)
  {
    var u := TrimEnd(s);
    assert s == u + s[|u|..];
    RunsWhitespaceSuffix(u, s[|u|..], true);
  }

  /** Trimming changes no run count. */
  lemma TrimKeepsRuns(s: string)
    ensures RunCount(Trim(s)) == RunCount(s)
  {
    TrimStartKeepsRuns(s);
    TrimEndKeepsRuns(TrimStart(s));
  }

  /** The empty-token filter counts a leading token when it is not empty. */
  lemma NonEmptyCons(t: string, ts: seq<string>)
    ensures |NonEmpty([t] + ts)| == (if t == [] then 0 else 1) + |NonEmpty(ts)|
  {
    assert ([t] + ts)[0] == t && ([t] + ts)[1..] == ts;
  }

  /** A word, then a white-space run: one run if the word is not empty, then the runs after. */
  lemma RunsAroundSeparator(s: string, i: nat, j: nat)
    requires i < j <= |s| && NoWhitespace(s[..i]) && AllWhitespace(s[i..j])
    ensures RunCount(s) == (if i > 0 then 1 else 0) + RunCount(s[j..])
  {
    var rest := s[j..];
    assert s == s[..i] + (s[i..j] + rest);
    RunsWhitespacePrefix(s[i..j], rest, i == 0);
    if i > 0 {
      RunsWordPrefix(s[..i], s[i..j] + rest, true);
      RunsWhitespacePrefix(s[i..j], rest, false);
    } else {
      assert s[..i] + (s[i..j] + rest) == s[i..j] + rest;
    }
  }

  /** Text without white space is one token, and one run unless it is empty. */
  lemma SplitWord(s: string)
    requires NoWhitespace(s)
    ensures |NonEmpty([s])| == RunCount(s)
  {
    if s != [] {
      assert s + [] == s;
      RunsWordPrefix(s, [], true);
    }
    NonEmptyCons(s, []);
  }

  /** Split followed by the empty-token filter yields one token per run. */
  lemma {:induction false} SplitCountsRuns(s: string)
    ensures |NonEmpty(Split(s))| == RunCount(s)
    decreases |s|
  {
    var i := WhitespaceStart(s);
    if i == |s| {
      assert s[..i] == s;
      SplitWord(s);
    } else {
      var j := WhitespaceEnd(s, i);
      SplitCountsRuns(s[j..]);
      NonEmptyCons(s[..i], Split(s[j..]));
      RunsAroundSeparator(s, i, j);
    }
  }

  /** Deleting characters other than white space never adds a run. */
  lemma {:induction false} KeepLettersRuns(s: string, afterSpace: bool)
    ensures Runs(KeepLetters(s), afterSpace) <= Runs(s, afterSpace)
    decreases |s|
  {
    if s != [] {
      var rest := KeepLetters(s[1..]);
      if IsKept(s[0]) {
        assert ([s[0]] + rest)[1..] == rest;
        KeepLettersRuns(s[1..], IsWhitespace(s[0]));
      } else {
        KeepLettersRuns(s[1..], afterSpace);
        KeepLettersRuns(s[1..], false);
        RunsStart(rest);
      }
    }
  }
}
