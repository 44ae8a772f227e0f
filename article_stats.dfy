/**
 * The article statistics shown on a blog post: the word count of the
 * rendered article markup and the estimated reading time derived from it,
 * and the two display strings written into the page.
 */
module ArticleStats {
  import opened Text
  import opened Markup
  import opened Words
  import opened Numerals

  /** The reading speed behind the estimate, in words per minute. */
  const WordsPerMinute: nat := 130

  /** The prose left once script and style elements, tags and every non-letter are gone. */
  function PlainText(html: string): (r: string)
    ensures AllKept(r)
  {
    KeepLetters(StripTags(StripScriptStyle(html)))
  }

  /** `countWords(htmlContent)` */
  function CountWords(html: string): nat {
    |NonEmpty(Split(Trim(PlainText(html))))|
  }

  /**
   * `estimateReadingTime(wordCount)`: `Math.ceil(wordCount / 130)`, written
   * as integer ceiling division, which it equals for every word count a page
   * can hold. The result is the least number of whole minutes that covers
   * every word.
   */
  function EstimateReadingTime(wordCount: nat): (minutes: nat)
    ensures WordsPerMinute * minutes >= wordCount
    ensures minutes == 0 || WordsPerMinute * (minutes - 1) < wordCount
  {
    (wordCount + WordsPerMinute - 1) / WordsPerMinute
  }

  /** The two texts written into the page: the word count and the reading time. */
  datatype StatsText = StatsText(wordCountText: string, readingTimeText: string)

  const WordCountLabel: string := "Words: "
  const ReadingTimeLabel: string := "Est. reading time: "
  const MinutesUnit: string := " min"

  /**
   * `updateArticleStats()`: given the markup of the page's `.content`
   * element, if there is one, the texts for `.word-count` and
   * `.reading-time`; a page without article content gets none.
   */
  function UpdateArticleStats(content: Option<string>): (r: Option<StatsText>)
    ensures r.Some? <==> content.Some?
  {
    match content
    case None => None
    case Some(html) =>
      var wordCount := CountWords(html);
      var minutes := EstimateReadingTime(wordCount);
      Some(StatsText(WordCountLabel + Decimal(wordCount), ReadingTimeLabel + Decimal(minutes) + MinutesUnit))
  }

  // ---------------------------------------------------------------------
  // Word count
  // ---------------------------------------------------------------------

  /** The word count is the number of maximal non-white-space runs of the plain text. */
  lemma CountWordsIsRunCount(html: string)
    ensures CountWords(html) == RunCount(PlainText(html))
  {
    SplitCountsRuns(Trim(PlainText(html)));
    TrimKeepsRuns(PlainText(html));
  }

  /** Text without `<` in which every character is kept is its own plain text. */
  lemma PlainTextOfPlain(s: string)
    requires AllKept(s)
    ensures PlainText(s) == s
  {
    assert '<' !in s;
    PlainTextWithoutMarkup(s);
    KeepLettersIdentity(s);
  }

  /** The empty string and text of white space alone count zero words: the empty token `split` yields is filtered out. */
  lemma CountWordsBlank(html: string)
    requires AllWhitespace(html)
    ensures CountWords(html) == 0
  {
    PlainTextOfPlain(html);
    CountWordsIsRunCount(html);
    RunsOfWhitespace(html, true);
  }

  /**
   * The character filter never inserts white space, so the count never
   * exceeds the number of white-space-separated tokens of the tag-free text.
   */
  lemma CountWordsAtMostTokens(html: string)
    ensures CountWords(html) <= RunCount(StripTags(StripScriptStyle(html)))
  {
    CountWordsIsRunCount(html);
    KeepLettersRuns(StripTags(StripScriptStyle(html)), true);
  }

  /** Counting the plain text again gives the same number as counting the markup. */
  lemma CountWordsIdempotent(html: string)
    ensures CountWords(PlainText(html)) == CountWords(html)
  {
    PlainTextOfPlain(PlainText(html));
  }

  // ---------------------------------------------------------------------
  // Sample inputs
  // ---------------------------------------------------------------------

  /** Markup without `<` loses only its non-letters. */
  lemma PlainTextWithoutMarkup(s: string)
    requires '<' !in s
    ensures PlainText(s) == KeepLetters(s)
  {
    assert s + [] == s;
    NoMarkupOpensNoElement(s);
    StripScriptStyleKeepsUnopened(s, []);
    StripTagsKeepsText(s, []);
  }

  /** One non-empty word is one run. */
  lemma RunCountOneWord(w: string)
    requires w != [] && NoWhitespace(w)
    ensures RunCount(w) == 1
  {
    assert w + [] == w;
    RunsWordPrefix(w, [], true);
  }

  /** A word followed by a space adds one run to what follows. */
  lemma RunCountWordThenSpace(w: string, rest: string)
    requires w != [] && NoWhitespace(w)
    ensures RunCount(w + (" " + rest)) == 1 + RunCount(rest)
  {
    RunsWordPrefix(w, " " + rest, true);
    RunsWhitespacePrefix(" ", rest, false);
  }

  /** The tags of a `<p>` element around text without `<` are removed, the text kept. */
  lemma ParagraphTags(text: string)
    requires '<' !in text
    ensures StripTags("<p>" + text + "</p>") == text
  {
    var close := "</p>";
    assert "<p>" + text + close == "<" + "p" + ">" + (text + close);
    StripTagsRemovesTag("p", text + close);
    StripTagsKeepsText(text, close);
    assert close == "<" + "/p" + ">" + [];
    StripTagsRemovesTag("/p", []);
    assert text + [] == text;
  }

  /** No script or style element opens in a `<p>` element around kept characters. */
  lemma ParagraphOpensNoElement(text: string)
    requires AllKept(text)
    ensures NoElementOpens("<p>" + text + "</p>")
  {
    var html := "<p>" + text + "</p>";
    forall i, j | 0 <= i < j < |html| && j == i + 1
      ensures !(html[i] == '<' && html[j] == 's')
    {
      if 3 <= i < 3 + |text| {
        assert html[i] == text[i - 3];
      } else if i == 3 + |text| {
        assert html[j] == '/';
      }
    }
  }

  /** A `<p>` element around kept characters counts one word per run of its text. */
  lemma CountWordsParagraph(text: string)
    requires AllKept(text)
    ensures CountWords("<p>" + text + "</p>") == RunCount(text)
  {
    var html := "<p>" + text + "</p>";
    ParagraphOpensNoElement(text);
    StripScriptStyleNoElement(html);
    assert '<' !in text;
    ParagraphTags(text);
    KeepLettersIdentity(text);
    CountWordsIsRunCount(html);
  }

  /** A single word of letters is kept whole and is one run. */
  lemma OneWord(w: string)
    requires w != [] && AllLetters(w)
    ensures AllKept(w) && RunCount(w) == 1
  {
    RunCountOneWord(w);
  }

  /** A word of letters, a space and kept text: one run more than the text. */
  lemma WordThenText(w: string, rest: string)
    requires w != [] && AllLetters(w) && AllKept(rest)
    ensures AllKept(w + (" " + rest))
    ensures RunCount(w + (" " + rest)) == 1 + RunCount(rest)
  {
    var s := w + (" " + rest);
    forall i | 0 <= i < |s|
      ensures IsKept(s[i])
    {
      if i > |w| {
        assert s[i] == rest[i - |w| - 1];
      }
    }
    RunCountWordThenSpace(w, rest);
  }

  /** `countWords("<p>Hello world</p>")` is 2. */
  lemma CountWordsHelloWorld()
    ensures CountWords("<p>" + "Hello world" + "</p>") == 2
  {
    OneWord("world");
    WordThenText("Hello", "world");
    assert "Hello world" == "Hello" + (" " + "world");
    CountWordsParagraph("Hello world");
  }

  /** `countWords("<p>One two three</p>")` is 3. */
  lemma CountWordsOneTwoThree()
    ensures CountWords("<p>" + "One two three" + "</p>") == 3
  {
    assert "One two three" == "One" + (" " + ("two" + (" " + "three")));
    OneTwoThreeRuns();
    CountWordsParagraph("One" + (" " + ("two" + (" " + "three"))));
  }

  /** `One two three` is kept whole and holds three runs. */
  lemma OneTwoThreeRuns()
    ensures var text := "One" + (" " + ("two" + (" " + "three")));
      AllKept(text) && RunCount(text) == 3
  {
    OneWord("three");
    WordThenText("two", "three");
    WordThenText("One", "two" + (" " + "three"));
  }

  /** Polish letters count as letters: `<p>Słowo śćęłó</p>` is two words. */
  lemma CountWordsPolish()
    ensures CountWords("<p>" + "S\U{0142}owo \U{015B}\U{0107}\U{0119}\U{0142}\U{00F3}" + "</p>") == 2
  {
    var first, second := "S\U{0142}owo", "\U{015B}\U{0107}\U{0119}\U{0142}\U{00F3}";
    OneWord(second);
    WordThenText(first, second);
    assert "S\U{0142}owo \U{015B}\U{0107}\U{0119}\U{0142}\U{00F3}" == first + (" " + second);
    CountWordsParagraph(first + (" " + second));
  }

  /** A complete script or style element in front of other markup adds no words. */
  lemma CountWordsAfterElement(name: string, body: string, rest: string)
    requires name == "script" || name == "style"
    requires !Occurs(body, ClosingTag(name))
    ensures CountWords("<" + name + body + ClosingTag(name) + rest) == CountWords(rest)
  {
    StripScriptStyleRemovesElement(name, body, rest);
  }

  /** The contents of a script element are not counted: `<script>var x=1;</script><p>One two three</p>` is 3 words. */
  lemma CountWordsSkipsScript()
    ensures CountWords("<script>" + "var x=1;" + "</script>" + "<p>" + "One two three" + "</p>") == 3
  {
    var body := ">" + "var x=1;";
    var para := "<p>" + "One two three" + "</p>";
    assert !Occurs(body, ClosingTag("script")) by {
      assert forall j :: OccursAt(body, ClosingTag("script"), j) ==> j == 0;
      assert body[0] != ClosingTag("script")[0];
    }
    assert "<script>" == "<" + "script" + ">";
    var html := "<script>" + "var x=1;" + "</script>" + "<p>" + "One two three" + "</p>";
    assert html == "<" + "script" + body + ClosingTag("script") + para;
    CountWordsAfterElement("script", body, para);
    CountWordsOneTwoThree();
  }

  /** Markup that holds no letter at all counts zero words, whatever its tags. */
  lemma CountWordsWithoutLetters(html: string)
    requires forall i :: 0 <= i < |html| ==> !IsLetter(html[i])
    ensures CountWords(html) == 0
  {
    var noScripts := StripScriptStyle(html);
    var noTags := StripTags(noScripts);
    var plain := PlainText(html);
    StripScriptStyleDeletes(html);
    SubsequenceMembers(noScripts, html);
    StripTagsDeletes(noScripts);
    SubsequenceMembers(noTags, noScripts);
    KeepLettersDeletes(noTags);
    SubsequenceMembers(plain, noTags);
    assert AllWhitespace(plain) by {
      forall i | 0 <= i < |plain|
        ensures IsWhitespace(plain[i])
      {
        assert plain[i] in html;
      }
    }
    CountWordsIsRunCount(html);
    RunsOfWhitespace(plain, true);
  }

  /** Joining two texts without letters gives a text without letters. */
  lemma NoLettersAppend(a: string, b: string)
    requires forall i :: 0 <= i < |a| ==> !IsLetter(a[i])
    requires forall i :: 0 <= i < |b| ==> !IsLetter(b[i])
    ensures forall i :: 0 <= i < |a + b| ==> !IsLetter((a + b)[i])
  {
    forall i | 0 <= i < |a + b|
      ensures !IsLetter((a + b)[i])
    {
      if i >= |a| {
        assert (a + b)[i] == b[i - |a|];
      }
    }
  }

  /** Digits and punctuation are not words: `countWords("123 ### ...")` is 0. */
  lemma CountWordsDigits()
    ensures CountWords("123" + " ### ...") == 0
  {
    NoLettersAppend("123", " ### ...");
    CountWordsWithoutLetters("123" + " ### ...");
  }

  /** The character filter drops what lies between two runs of letters. */
  lemma KeepLettersOfJoin(left: string, mid: string, right: string)
    requires AllLetters(left)
    requires AllLetters(right)
    requires forall i :: 0 <= i < |mid| ==> !IsKept(mid[i])
    ensures KeepLetters(left + mid + right) == left + right
  {
    calc {
      KeepLetters(left + mid + right);
      { assert left + mid + right == left + (mid + right); }
      KeepLetters(left + (mid + right));
      { KeepLettersAppend(left, mid + right); KeepLettersAppend(mid, right); }
      KeepLetters(left) + (KeepLetters(mid) + KeepLetters(right));
      { KeepLettersIdentity(left); KeepLettersIdentity(right); KeepLettersDropsAll(mid); }
      left + ([] + right);
      { assert [] + right == right; }
      left + right;
    }
  }

  /**
   * No script or style element matches in front of a run of letters when
   * only characters other than letters and white space come before it,
   * after a run of letters.
   */
  lemma NoElementInJoin(left: string, mid: string, right: string)
    requires AllLetters(left)
    requires AllLetters(right)
    requires forall i :: 0 <= i < |mid| ==> !IsKept(mid[i])
    ensures forall i :: 0 <= i < |left + mid| ==> ElementSpan((left + mid + right)[i..]) == None
  {
    forall i | 0 <= i < |left + mid|
      ensures ElementSpan((left + mid + right)[i..]) == None
    {
      NoElementAt(left, mid, right, i);
    }
  }

  /** One position of the lemma above. */
  lemma NoElementAt(left: string, mid: string, right: string, i: nat)
    requires AllLetters(left)
    requires AllLetters(right)
    requires forall i :: 0 <= i < |mid| ==> !IsKept(mid[i])
    requires i < |left + mid|
    ensures ElementSpan((left + mid + right)[i..]) == None
  {
    var lm := left + mid;
    var y := lm[i..];
    assert '>' !in right;
    assert (lm + right)[i..] == y + right;
    SpanWithoutClose(y, right);
    if |y| >= 2 && y[0] == '<' {
      assert lm[i] == '<' && i >= |left|;
      assert y[1] == mid[i + 1 - |left|];
    }
    NotOpened(y);
  }

  /** What the tag pass leaves of characters that are not kept holds no kept character either. */
  lemma NoKeptAfterMarkup(mid: string)
    requires forall i :: 0 <= i < |mid| ==> !IsKept(mid[i])
    ensures forall i :: 0 <= i < |StripTags(mid)| ==> !IsKept(StripTags(mid)[i])
  {
    forall i | 0 <= i < |StripTags(mid)|
      ensures !IsKept(StripTags(mid)[i])
    {
      assert StripTags(mid)[i] in mid;
    }
  }

  /** The first pass keeps two runs of letters and what lies between them. */
  lemma ScriptsInJoin(left: string, mid: string, right: string)
    requires AllLetters(left)
    requires AllLetters(right)
    requires forall i :: 0 <= i < |mid| ==> !IsKept(mid[i])
    ensures StripScriptStyle(left + mid + right) == left + (mid + right)
  {
    calc {
      StripScriptStyle(left + mid + right);
      { NoElementInJoin(left, mid, right); StripScriptStyleKeepsText(left + mid, right); }
      left + mid + StripScriptStyle(right);
      { LettersPassScripts(right); }
      left + mid + right;
      left + (mid + right);
    }
  }

  /** A run of letters passes the first pass unchanged. */
  lemma LettersPassScripts(s: string)
    requires AllLetters(s)
    ensures StripScriptStyle(s) == s
  {
    assert '>' !in s;
    StripScriptStyleNoClose(s);
  }

  /** The second pass keeps two runs of letters and strips what lies between them. */
  lemma TagsInJoin(left: string, mid: string, right: string)
    requires AllLetters(left)
    requires AllLetters(right)
    ensures StripTags(left + (mid + right)) == left + (StripTags(mid) + right)
  {
    assert '<' !in left && '>' !in right;
    StripTagsKeepsText(left, mid + right);
    StripTagsAppendNoClose(mid, right);
  }

  /**
   * Characters other than letters and white space between two runs of
   * letters vanish from the plain text, markup among them included.
   */
  lemma PlainTextOfJoin(left: string, mid: string, right: string)
    requires AllLetters(left)
    requires AllLetters(right)
    requires forall i :: 0 <= i < |mid| ==> !IsKept(mid[i])
    ensures PlainText(left + mid + right) == left + right
  {
    ScriptsInJoin(left, mid, right);
    TagsInJoin(left, mid, right);
    NoKeptAfterMarkup(mid);
    assert left + (StripTags(mid) + right) == left + StripTags(mid) + right;
    KeepLettersOfJoin(left, StripTags(mid), right);
  }

  /** Two runs of letters put together are a run of letters. */
  lemma LettersJoin(left: string, right: string)
    requires AllLetters(left)
    requires AllLetters(right)
    ensures NoWhitespace(left + right)
  {
    var word := left + right;
    forall i | 0 <= i < |word|
      ensures !IsWhitespace(word[i])
    {
      var c := if i < |left| then left[i] else right[i - |left|];
      assert word[i] == c && IsLetter(c);
    }
  }

  /**
   * Characters that are dropped between two words join them: the filter
   * never inserts white space, so `foo-bar` is one word.
   */
  lemma CountWordsJoinsAcrossDropped(left: string, mid: string, right: string)
    requires left != [] && right != []
    requires AllLetters(left)
    requires AllLetters(right)
    requires forall i :: 0 <= i < |mid| ==> !IsKept(mid[i])
    ensures CountWords(left + mid + right) == 1
  {
    PlainTextOfJoin(left, mid, right);
    LettersJoin(left, right);
    RunCountOneWord(left + right);
    CountWordsIsRunCount(left + mid + right);
  }

  /** `countWords("foo-bar")` is 1. */
  lemma CountWordsHyphen()
    ensures CountWords("foo" + "-" + "bar") == 1
  {
    CountWordsJoinsAcrossDropped("foo", "-", "bar");
  }

  /** `countWords("foo<->bar")` is 1: the tag goes and the runs join. */
  lemma CountWordsStrayTag()
    ensures CountWords("foo" + "<->" + "bar") == 1
  {
    CountWordsJoinsAcrossDropped("foo", "<->", "bar");
  }

  // ---------------------------------------------------------------------
  // Reading time
  // ---------------------------------------------------------------------

  /** A longer text never reads faster. */
  lemma ReadingTimeMonotone(w1: nat, w2: nat)
    requires w1 <= w2
    ensures EstimateReadingTime(w1) <= EstimateReadingTime(w2)
  {
  }

  /** The documented sample reading times. */
  lemma ReadingTimeExamples()
    ensures EstimateReadingTime(0) == 0
    ensures EstimateReadingTime(130) == 1
    ensures EstimateReadingTime(131) == 2
  {
  }

  // ---------------------------------------------------------------------
  // Display text
  // ---------------------------------------------------------------------

  /**
   * The texts shown read back as the numbers computed: after its label the
   * word-count text is the decimal numeral of the word count, and between
   * its label and the unit the reading-time text is the numeral of the
   * estimated minutes. Both numerals are canonical: a leading `0` is the
   * whole numeral.
   */
  lemma StatsTextReadsBack(html: string)
    ensures var t := UpdateArticleStats(Some(html)).value;
      var w, m := t.wordCountText, t.readingTimeText;
      var k, n := |WordCountLabel|, |ReadingTimeLabel|;
      && k < |w| && w[..k] == WordCountLabel && AllDigits(w[k..])
      && (w[k] == '0' ==> |w| == k + 1)
      && Value(w[k..]) == CountWords(html)
      && n + |MinutesUnit| < |m| && m[..n] == ReadingTimeLabel
      && m[|m| - |MinutesUnit|..] == MinutesUnit && AllDigits(m[n..|m| - |MinutesUnit|])
      && (m[n] == '0' ==> |m| == n + 1 + |MinutesUnit|)
      && Value(m[n..|m| - |MinutesUnit|]) == EstimateReadingTime(CountWords(html))
  {
    var wordCount := CountWords(html);
    var minutes := EstimateReadingTime(wordCount);
    var words, mins := Decimal(wordCount), Decimal(minutes);
    var t := UpdateArticleStats(Some(html)).value;
    var k, n := |WordCountLabel|, |ReadingTimeLabel|;
    assert t.wordCountText[..k] == WordCountLabel && t.wordCountText[k..] == words;
    var m := t.readingTimeText;
    assert m == ReadingTimeLabel + mins + MinutesUnit;
    assert m[..n] == ReadingTimeLabel;
    assert m[n..|m| - |MinutesUnit|] == mins;
    assert m[|m| - |MinutesUnit|..] == MinutesUnit;
    DecimalValue(wordCount);
    DecimalValue(minutes);
  }
}
