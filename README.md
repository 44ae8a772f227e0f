# Article statistics and scroll chrome of a blog theme, in Dafny

This project models the logic in `js/main.js` of the blog's theme script:

- **`countWords(htmlContent)`** is the word counter shown on every article. It runs in four stages:
  1. It deletes lower-case `<script …</script>` and `<style …</style>` elements together with their contents.
  2. It deletes every `<…>` tag.
  3. It deletes every character that is not an ASCII letter, one of the eighteen Polish letters `ąćęłńóśźżĄĆĘŁŃÓŚŹŻ`, or white space.
  4. It trims the text, splits it on white-space runs, drops empty tokens and counts what is left.

  Each stage is a recursive function over `string` (module `Markup` for stages 1–2, module `Words` for stages 3–4). `ArticleStats.CountWords` composes them.
- **`estimateReadingTime(wordCount)`** is the ceiling of the word count divided by 130 words per minute (`ArticleStats.EstimateReadingTime`).
- **`updateArticleStats()`** produces the two display texts, `Words: N` and `Est. reading time: M min` (`ArticleStats.UpdateArticleStats`). Numbers are written by `Numerals.Decimal`.
- **The two scroll listeners** are classes whose fields are the visibilities the listeners toggle (module `ScrollChrome`):
  - `MenuScroll` covers the desktop navigation links and the tablet icons.
  - `FooterScroll` covers the mobile footer menu and its `lastScrollTop` memory.

The main independent reference is `Words.RunCount`, the number of maximal runs of non-white-space characters. The word count is proved equal to the run count of the filtered text (`ArticleStats.CountWordsIsRunCount`). For the scroll listeners, the reference is `ScrollChrome.LastOutside`: the visibility after any series of scroll events is decided by the last offset outside the dead band (`ScrollChrome.HysteresisMemory`).

Two points of behaviour are worth stating plainly:

- A word count of 0 gives a reading time of 0 minutes.
- The comments at `js/main.js:95` and `js/main.js:98` say the footer menu is shown on scrolling down and hidden on scrolling up. The code does the opposite, and the model follows the code. The doc comment of the same block, at `js/main.js:85-88`, agrees with the code (show the menu after scrolling upwards, hide it after scrolling downwards), so the code is taken as the intended behaviour.

## Model

| member | source | states |
|---|---|---|
| Text.IsWhitespace | js/main.js:135-138 | The characters `\s` and `trim` treat as white space: the ECMAScript WhiteSpace and LineTerminator code points. A predicate without `ensures`; the lemmas below are stated with it. |
| Text.IsLetter | js/main.js:135 | The letters the filter keeps: `a-z`, `A-Z` and the eighteen Polish letters. A predicate without `ensures`. |
| Text.IsKept | js/main.js:135 | A character the filter keeps: a letter or white space. A predicate without `ensures`; `Words.KeepLettersCounts` states the filter in its terms. |
| Markup.StripScriptStyle | js/main.js:129 | The first `replace` as a left-to-right scan. It has no `ensures`; `Markup.StripScriptStyleDeletes`, `Markup.StripScriptStyleKeepsText`, `Markup.StripScriptStyleKeepsUnclosed`, `Markup.StripScriptStyleNoElement` and `Markup.StripScriptStyleRemovesElement` specify it. |
| Markup.FindFrom | js/main.js:129 | The result is the first index at or after the start where the pattern occurs; no result means the pattern does not occur there at all. This is how the lazy `.*?` finds the nearest closing tag. |
| Markup.OpenedElement | js/main.js:129 | The opening alternation captures `script` or `style` exactly when the text starts with `<script` or `<style`, lower case only. |
| Markup.ElementSpan | js/main.js:129 | A matched element span is non-empty and lies within the text. |
| Markup.StripScriptStyleDeletes | js/main.js:129 | The script/style pass only deletes: its output is a subsequence of its input. |
| Markup.StripScriptStyleKeepsText | js/main.js:129 | Text at none of whose positions the pattern matches, judged on the whole input, is kept unchanged and in order, whatever follows it. This covers every tag other than a complete script or style element, `<span>` and `<strong>` included. |
| Markup.StripScriptStyleKeepsUnopened | js/main.js:129 | Text in which no `<` is followed by `s`, and which does not end in `<`, is kept unchanged and in order, whatever follows it. |
| Markup.StripScriptStyleKeepsUnclosed | js/main.js:129 | A `<script` or `<style` with no matching closing tag after it is not matched: it is kept, and the pass goes on with the text after it. |
| Markup.TagOpensNoElement | js/main.js:129 | A tag whose name holds no `<` and does not begin with `sc` or `st` holds no match of the pattern, whatever follows it. One-letter names such as `<p>` and `<a>`, and the empty tag `<>`, are included. |
| Markup.NotOpened | js/main.js:129 | The pattern cannot match at a position that does not start with `<sc` or `<st`. |
| Markup.StripScriptStyleNoElement | js/main.js:129 | Text in which no `<s` occurs passes through unchanged. |
| Markup.StripScriptStyleRemovesElement | js/main.js:129 | A lower-case script or style element is removed whole, from its `<` through the nearest closing tag of the same name, contents included. What follows it is processed as if the element had never been there. |
| Markup.OpensElement | js/main.js:129 | Text starting with `<script` or `<style` opens an element of that name. |
| Markup.NoEarlierClosingTag | js/main.js:129 | When the body holds no closing tag of its own, no closing tag occurs before the one that ends the element. |
| Markup.IndexOf | js/main.js:132 | The index of the first `>`: that character is `>` and none comes before it. |
| Markup.StripTags | js/main.js:132 | After tag stripping no `<` has a `>` anywhere after it, and every character left comes from the input. |
| Markup.StripTagsDeletes | js/main.js:132 | Tag stripping only deletes: its output is a subsequence of its input. |
| Markup.StripTagsKeepsText | js/main.js:132 | Text without `<` in front of the rest is kept unchanged and in order. |
| Markup.StripTagsNoClose | js/main.js:132 | Text without `>` is kept unchanged: a `<` with no `>` after it is ordinary text. |
| Markup.IndexOfUnique | js/main.js:132 | An occurrence of a character with none before it is the first one; for `>`, it is where the tag pattern stops. |
| Markup.StripTagsAppendNoClose | js/main.js:132 | Appending text without `>` appends it unchanged to the result: a `<` left open before it never reaches into it. |
| Markup.OccursWithoutClose | js/main.js:129 | A pattern ending in `>` occurs in text followed by a tail without `>` exactly where it occurs in the text alone. |
| Markup.FindFromWithoutClose | js/main.js:129 | A tail without `>` does not change where the nearest closing tag is found. |
| Markup.SpanWithoutClose | js/main.js:129 | A tail without `>` does not change whether, or where, a script or style element matches at the start of the text. |
| Markup.StripScriptStyleNoClose | js/main.js:129 | Text without `>` passes the script/style pass unchanged, whatever `<script` or `<style` it holds. |
| Markup.StripScriptStyleAroundElement | js/main.js:129 | `<span>a</span><script>x</script>b` becomes `<span>a</span>b`: markup before the element and text after it are kept. |
| Markup.StripTagsRemovesTag | js/main.js:132 | A `<…>` span with no `>` inside is removed whole, and the rest is processed as if it were not there. |
| Words.KeepLetters | js/main.js:135 | Every character left by the filter is a letter of the alphabet or white space. |
| Words.KeepLettersDeletes | js/main.js:135 | The filter only deletes: its output is a subsequence of its input. |
| Words.KeepLettersCounts | js/main.js:135 | Each allowed character survives exactly as often as it occurs in the input; every other character occurs zero times. |
| Words.KeepLettersIdentity | js/main.js:135 | Text made only of allowed characters passes through unchanged. |
| Words.KeepLettersAppend | js/main.js:135 | Filtering a concatenation filters each part separately. |
| Words.KeepLettersRuns | js/main.js:135-142 | The filter never adds a run of non-white-space characters, because it never inserts white space. |
| Words.TrimStart | js/main.js:138 | The result is the suffix left after removing leading white space: what was removed is all white space, and the result is empty or starts with non-white-space. |
| Words.TrimEnd | js/main.js:138 | The result is the prefix left before trailing white space: what was removed is all white space, and the result is empty or ends with non-white-space. |
| Words.Trim | js/main.js:138 | The trimmed text is empty or starts and ends with non-white-space. |
| Words.WhitespaceStart | js/main.js:138 | The first white-space index: everything before it is non-white-space. |
| Words.WhitespaceEnd | js/main.js:138 | The end of the longest white-space run starting at the index, as `\s+` matches it. |
| Words.Split | js/main.js:138 | `split(/\s+/)` yields at least one token, and no token holds white space. |
| Words.NonEmpty | js/main.js:138-140 | The filtered tokens are non-empty, come from the input tokens, and are no more numerous. Every non-empty token is kept as often as it occurs, and the empty token never is. |
| Words.Runs | js/main.js:138-142 | The independent reference: maximal runs of non-white-space characters, counted one character at a time. A function without `ensures`; `Words.SplitCountsRuns` and `ArticleStats.CountWordsIsRunCount` are stated with it. |
| Words.RunCount | js/main.js:138-142 | The run count of a text read from its start. A function without `ensures`, specified through `Words.Runs`. |
| Words.TrimKeepsRuns | js/main.js:138 | Trimming does not change the number of non-white-space runs. |
| Words.SplitCountsRuns | js/main.js:138-142 | Splitting and dropping empty tokens yields exactly one token per maximal run of non-white-space characters. |
| ArticleStats.CountWords | js/main.js:127-143 | `countWords`: the four stages composed. It has no `ensures`; `ArticleStats.CountWordsIsRunCount` specifies it, with the lemmas below. |
| ArticleStats.PlainText | js/main.js:129-135 | After the three `replace` passes, every character is a letter or white space. |
| ArticleStats.CountWordsIsRunCount | js/main.js:127-143 | The word count is the number of maximal non-white-space runs of the filtered text. |
| ArticleStats.CountWordsBlank | js/main.js:138-142 | The empty string and white space alone count 0 words, because the single empty token from `split` is dropped. |
| ArticleStats.CountWordsAtMostTokens | js/main.js:135-142 | The count never exceeds the number of white-space-separated tokens of the text before filtering. |
| ArticleStats.CountWordsIdempotent | js/main.js:127-143 | Counting the filtered text again gives the same count. |
| ArticleStats.CountWordsWithoutLetters | js/main.js:135-142 | Markup with no letter at all counts 0 words, whatever tags or digits it holds. |
| ArticleStats.CountWordsDigits | js/main.js:135-142 | `countWords("123 ### ...")` is 0. |
| ArticleStats.NoElementInJoin | js/main.js:129 | Between two runs of letters, no script or style element can start in the first run or in characters that are neither letters nor white space, markup included. |
| ArticleStats.ScriptsInJoin | js/main.js:129 | Such a join passes the script/style pass unchanged. |
| ArticleStats.TagsInJoin | js/main.js:132 | The tag pass leaves the letters on either side as they are and touches only the characters between them. |
| ArticleStats.LettersPassScripts | js/main.js:129 | Letters alone pass the script/style pass unchanged. |
| ArticleStats.PlainTextOfJoin | js/main.js:129-135 | Characters other than letters and white space between two runs of letters vanish, whether they are punctuation, `<`, `>` or whole tags, so the runs join. |
| ArticleStats.CountWordsJoinsAcrossDropped | js/main.js:127-143 | Two runs of letters separated only by characters other than letters and white space, markup among them, form one word. |
| ArticleStats.CountWordsHyphen | js/main.js:135-142 | `countWords("foo-bar")` is 1. |
| ArticleStats.CountWordsStrayTag | js/main.js:127-143 | `countWords("foo<->bar")` is 1: the tag is removed and the runs join. |
| ArticleStats.PlainTextOfPlain | js/main.js:129-135 | Text of letters and white space alone is its own filtered text. |
| ArticleStats.ParagraphTags | js/main.js:132 | The tags of a `<p>` element are removed and the text inside is kept. |
| ArticleStats.CountWordsParagraph | js/main.js:127-143 | A `<p>` element around letters and white space counts one word per run of its text. |
| ArticleStats.CountWordsHelloWorld | js/main.js:127-143 | `countWords("<p>Hello world</p>")` is 2. |
| ArticleStats.CountWordsOneTwoThree | js/main.js:127-143 | `countWords("<p>One two three</p>")` is 3. |
| ArticleStats.CountWordsPolish | js/main.js:135 | Polish letters are letters: `<p>Słowo śćęłó</p>` counts 2 words. |
| ArticleStats.CountWordsAfterElement | js/main.js:129 | A complete script or style element in front of other markup adds no words. |
| ArticleStats.CountWordsSkipsScript | js/main.js:129 | `<script>var x=1;</script><p>One two three</p>` counts 3 words: the script's contents are not counted. |
| ArticleStats.EstimateReadingTime | js/main.js:163-166 | The reading time is the least whole number of minutes `r` with `130 * r >= wordCount`. |
| ArticleStats.ReadingTimeMonotone | js/main.js:163-166 | More words never give a shorter reading time. |
| ArticleStats.ReadingTimeExamples | js/main.js:163-166 | 0 words take 0 minutes, 130 words take 1 minute, and 131 words take 2 minutes. |
| ArticleStats.UpdateArticleStats | js/main.js:148-158 | Statistics are produced exactly when the page has article content. |
| ArticleStats.StatsTextReadsBack | js/main.js:155-156 | The word-count text is `Words: ` followed by a numeral that reads back as the word count. The reading-time text is `Est. reading time: `, a numeral that reads back as the estimated minutes, then ` min`. Both numerals are canonical: one that starts with `0` is exactly `0`. |
| Numerals.DigitChar | js/main.js:155-156 | The digit character for a value below 10 reads back as that value. |
| Numerals.Decimal | js/main.js:155-156 | A number is written as a non-empty string of digits. It starts with `0` only for zero and has one digit exactly below 10. |
| Numerals.DecimalValue | js/main.js:155-156 | Reading a numeral back gives the number written. |
| Numerals.DecimalInjective | js/main.js:155-156 | Distinct numbers get distinct numerals. |
| ScrollChrome.Band | js/main.js:67-81 | One dead-band visibility update: below `low` it becomes the near-top value, above `high` the opposite, and in between it stays. A function without `ensures`; the `OnScroll` methods and `ScrollChrome.HysteresisMemory` are stated with it. |
| ScrollChrome.AfterScrolls | js/main.js:110-114 | A series of scroll events applied first to last. A function without `ensures`; `ScrollChrome.HysteresisMemory` specifies it. |
| ScrollChrome.LastOutside | js/main.js:67-81 | The last offset outside the dead band, if any. It lies outside the band and sits at an index after which every offset is inside the band. With no result, every offset lies inside the band. |
| ScrollChrome.AfterScrollsAppend | js/main.js:110-114 | A further scroll event acts on the visibility the earlier events left. |
| ScrollChrome.HysteresisMemory | js/main.js:110-114 | After any series of scroll events, a dead-band visibility is set by the last offset outside the band. It is unchanged when no offset left the band. |
| ScrollChrome.MenuScroll.constructor | js/main.js:62-63 | The listener starts from the page's current visibilities. |
| ScrollChrome.MenuScroll.OnScroll | js/main.js:63-82 | While `#menu` is displayed, the navigation links are shown below 100, hidden above 100, and left alone at exactly 100. While `#menu` is hidden they only get shown, below 100. While `#menu-icon` is hidden, the tablet menu icon is shown below 50 and hidden above 100, and the tablet top icon does the opposite; both are unchanged otherwise. Exactly one tablet icon stays displayed once that holds. |
| ScrollChrome.FooterScroll.constructor | js/main.js:89-90 | `lastScrollTop` starts at 0. |
| ScrollChrome.FooterScroll.OnScroll | js/main.js:91-115 | The footer menu is hidden exactly when the offset grew since the previous event. `lastScrollTop` becomes the new offset. The three footer sub-menus are all hidden. The top icon is hidden below 50, shown above 100, and unchanged between. |

## Left out

- The Justified Gallery set-up (`js/main.js:1-11`) calls a third-party plugin whose behaviour is not visible here.
- The click handlers are not modelled: the responsive-menu toggle, the reveal-text toggle and the menu-icon toggle (`js/main.js:18-26`, `47-57`). The same goes for the 1440-pixel width check (`js/main.js:39`). They toggle classes and visibility from layout and DOM events.
- The scroll handlers do not query the DOM:
  - Whether `#menu` and `#menu-icon` are displayed is passed to `ScrollChrome.MenuScroll.OnScroll` as a parameter.
  - The registration guards (`menu.length`, `$("#footer-post").length`, `$(".post").length`) are left out; a page without those elements simply never builds the listener object.
- Scroll offsets are integers. A browser may report a fractional `scrollTop`, and the comparisons with 50 and 100 behave the same for it.
- ScrollChrome.MenuScroll.OnScroll: jQuery's `:visible` is modelled as "the element and `#menu` are both displayed". Hiding by CSS or by other ancestors is not modelled.
- The DOM reads and writes of `updateArticleStats` are not modelled: `$(".content").html()` and `.text(...)`. The article markup is a parameter, and the two texts are the result.
- ArticleStats.EstimateReadingTime: `Math.ceil(wordCount / 130)` on floating-point numbers is replaced by integer ceiling division. The two agree for every count below 2^53.
- Strings are sequences of Unicode scalar values. JavaScript strings are UTF-16 code units, which matters only for characters outside the Basic Multilingual Plane, and none of those is a letter or white space here.
- A general regular-expression engine is not modelled. The three `replace` passes and the `split` are written as scans that match these particular patterns.
- White space is the ECMAScript WhiteSpace and LineTerminator set, used by `\s` and by `trim` alike.
