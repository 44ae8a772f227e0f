/**
 * The two markup-removal passes of `countWords`: deleting script and style
 * elements together with their contents, then deleting every remaining tag.
 * Both are written as left-to-right scans that mirror a global
 * regular-expression replacement: at each index the pattern either matches
 * (the matched span is dropped and the scan resumes after it) or it does
 * not (one character is kept and the scan moves on by one).
 */
module Markup {
  import opened Text

  /** `pat` occurs in `s` starting at index `j`. */
  predicate OccursAt(s: string, pat: string, j: int) {
    0 <= j && j + |pat| <= |s| && s[j..j + |pat|] == pat
  }

  predicate Occurs(s: string, pat: string) {
    exists j :: 0 <= j <= |s| && OccursAt(s, pat, j)
  }

  /** The first index at or after `from` where `pat` occurs in `s`, if any. */
  function FindFrom(s: string, pat: string, from: nat): (r: Option<nat>)
    requires from <= |s|
    ensures r.Some? ==> from <= r.value && OccursAt(s, pat, r.value)
    ensures r.Some? ==> forall j :: from <= j < r.value ==> !OccursAt(s, pat, j)
    ensures r.None? ==> forall j :: from <= j ==> !OccursAt(s, pat, j)
    decreases |s| - from
  {
    if |s| - from < |pat| then None
    else if s[from..from + |pat|] == pat then Some(from)
    else FindFrom(s, pat, from + 1)
  }

  /** The closing tag that ends an element called `name`. */
  function ClosingTag(name: string): string {
    "</" + name + ">"
  }

  /**
   * The element name captured by `<(script|style)` at the head of `s`: the
   * alternatives are tried in order and only the lower-case spellings match.
   */
  function OpenedElement(s: string): (r: Option<string>)
    ensures r.Some? ==> (r.value == "script" || r.value == "style") && OccursAt(s, "<" + r.value, 0)
    ensures r.None? ==> !OccursAt(s, "<script", 0) && !OccursAt(s, "<style", 0)
  {
    if OccursAt(s, "<script", 0) then Some("script")
    else if OccursAt(s, "<style", 0) then Some("style")
    else None
  }

  /**
   * The length of the span `<(script|style).*?<\/\1>` matched at the head
   * of `s`, if it matches there. The lazy `.*?` (which, with the `s` flag,
   * also crosses line breaks) makes the span end at the FIRST closing tag of
   * the same name found after the opening `<name`.
   */
  function ElementSpan(s: string): (r: Option<nat>)
    ensures r.Some? ==> 0 < r.value <= |s|
  {
    match OpenedElement(s)
    case None => None
    case Some(name) =>
      match FindFrom(s, ClosingTag(name), 1 + |name|)
      case None => None
      case Some(j) => Some(j + |ClosingTag(name)|)
  }

  /** `text.replace(/<(script|style).*?<\/\1>/gs, '')` */
  function StripScriptStyle(s: string): (r: string)
    decreases |s|
  {
    if s == [] then []
    else match ElementSpan(s)
      case Some(k) => StripScriptStyle(s[k..])
      case None => [s[0]] + StripScriptStyle(s[1..])
  }

  /** The first index of `c` in `s`. */
  function IndexOf(s: string, c: char): (i: nat)
    requires c in s
    ensures i < |s| && s[i] == c && c !in s[..i]
  {
    if s[0] == c then 0
    else
      assert s == [s[0]] + s[1..];
      var k := IndexOf(s[1..], c);
      assert s[..k + 1] == [s[0]] + s[1..][..k];
      k + 1
  }

  /**
   * `text.replace(/<[^>]*>/g, '')`: a `<` that has a `>` somewhere after it
   * starts a tag that runs to the first such `>`; a `<` with no `>` after it
   * is ordinary text.
   */
  function StripTags(s: string): (r: string)
    ensures forall c :: c in r ==> c in s
    ensures forall i, j :: 0 <= i < j < |r| && r[i] == '<' ==> r[j] != '>'
    decreases |s|
  {
    if s == [] then []
    else if s[0] == '<' && '>' in s then
      StripTags(s[IndexOf(s, '>') + 1..])
    else
      var rest := StripTags(s[1..]);
      assert forall j :: 1 <= j < |[s[0]] + rest| ==> ([s[0]] + rest)[j] in s[1..];
      [s[0]] + rest
  }

  // ---------------------------------------------------------------------
  // Script and style removal
  // ---------------------------------------------------------------------

  /** The first pass only deletes: its output is a subsequence of its input. */
  lemma {:induction false} StripScriptStyleDeletes(s: string)
    ensures IsSubsequence(StripScriptStyle(s), s)
    decreases |s|
  {
    if s != [] {
      match ElementSpan(s)
      case Some(k) =>
        StripScriptStyleDeletes(s[k..]);
        SubsequenceOfSuffix(StripScriptStyle(s), s, k);
      case None =>
        StripScriptStyleDeletes(s[1..]);
        SubsequenceCons(StripScriptStyle(s[1..]), s);
    }
  }

  /** A pattern that occurs at the head of `s` fixes its first three characters. */
  lemma OccursAtHead(s: string, pat: string)
    requires |pat| >= 3
    ensures OccursAt(s, pat, 0) ==> s[0] == pat[0] && s[1] == pat[1] && s[2] == pat[2]
  {
    if OccursAt(s, pat, 0) {
      assert s[0..|pat|][0] == s[0] && s[0..|pat|][1] == s[1] && s[0..|pat|][2] == s[2];
    }
  }

  /** No element opens at the head of `s` unless it starts with `<sc` or `<st`. */
  lemma NotOpened(s: string)
    requires s == [] || s[0] != '<' || |s| < 3 || s[1] != 's' || (s[2] != 'c' && s[2] != 't')
    ensures OpenedElement(s) == None && ElementSpan(s) == None
  {
    OccursAtHead(s, "<script");
    OccursAtHead(s, "<style");
  }

  /** Where no `<s` starts the text, the first pass keeps the first character and moves on. */
  lemma NoElementAtHead(s: string)
    requires s != [] && (s[0] != '<' || |s| < 2 || s[1] != 's')
    ensures StripScriptStyle(s) == [s[0]] + StripScriptStyle(s[1..])
  {
    OccursAtHead(s, "<script");
    OccursAtHead(s, "<style");
    assert ElementSpan(s) == None;
  }

  /** No `<` in `s` is followed by an `s`, so no script or style element can open. */
  ghost predicate NoElementOpens(s: string) {
    forall i, j :: 0 <= i < j < |s| && j == i + 1 ==> !(s[i] == '<' && s[j] == 's')
  }

  /** Dropping the first character opens no new element. */
  lemma NoElementOpensTail(s: string)
    requires s != [] && NoElementOpens(s)
    ensures NoElementOpens(s[1..])
  {
    var t := s[1..];
    forall i, j | 0 <= i < j < |t| && j == i + 1
      ensures !(t[i] == '<' && t[j] == 's')
    {
      assert t[i] == s[i + 1] && t[j] == s[j + 1];
    }
  }

  /** Where the pattern does not match at the head, the first pass keeps the first character. */
  lemma KeepsHead(a: string, b: string)
    requires a != [] && ElementSpan((a + b)[0..]) == None
    ensures StripScriptStyle(a + b) == [a[0]] + StripScriptStyle(a[1..] + b)
  {
    var s := a + b;
    assert s[0..] == s;
    assert s[1..] == a[1..] + b;
  }

  /** Where the pattern matches at no position of `a`, it matches at none of its tail. */
  lemma NoneOpensInTail(a: string, b: string)
    requires a != []
    requires forall i :: 0 <= i < |a| ==> ElementSpan((a + b)[i..]) == None
    ensures forall i :: 0 <= i < |a[1..]| ==> ElementSpan((a[1..] + b)[i..]) == None
  {
    forall i | 0 <= i < |a[1..]|
      ensures ElementSpan((a[1..] + b)[i..]) == None
    {
      assert (a[1..] + b)[i..] == (a + b)[i + 1..];
    }
  }

  /**
   * Text at none of whose positions the pattern matches passes through the
   * first pass unchanged and in order, whatever follows it. Each position
   * is judged on `a + b`, since the closing tag of an element that opens
   * in `a` may lie in `b`; a `<script` or `<style` with no closing tag
   * after it is kept like any other text.
   */
  lemma {:induction false} StripScriptStyleKeepsText(a: string, b: string)
    requires forall i :: 0 <= i < |a| ==> ElementSpan((a + b)[i..]) == None
    ensures StripScriptStyle(a + b) == a + StripScriptStyle(b)
    decreases |a|
  {
    if a == [] {
      assert a + b == b;
    } else {
      calc {
        StripScriptStyle(a + b);
        { KeepsHead(a, b); }
        [a[0]] + StripScriptStyle(a[1..] + b);
        { NoneOpensInTail(a, b); StripScriptStyleKeepsText(a[1..], b); }
        [a[0]] + (a[1..] + StripScriptStyle(b));
        { assert a == [a[0]] + a[1..]; }
        a + StripScriptStyle(b);
      }
    }
  }

  /**
   * Text in which no `<` is followed by `s`, and which does not end in a `<`
   * that the following text could continue, is kept by the first pass.
   */
  lemma StripScriptStyleKeepsUnopened(a: string, b: string)
    requires NoElementOpens(a) && (a == [] || a[|a| - 1] != '<')
    ensures StripScriptStyle(a + b) == a + StripScriptStyle(b)
  {
    forall i | 0 <= i < |a|
      ensures ElementSpan((a + b)[i..]) == None
    {
      var s := (a + b)[i..];
      if s[0] == '<' {
        assert a[i] == '<' && i + 1 < |a|;
        assert s[1] == a[i + 1];
        assert !(a[i] == '<' && a[i + 1] == 's');
      }
      NotOpened(s);
    }
    StripScriptStyleKeepsText(a, b);
  }

  /** An occurrence past the end of `a` is an occurrence in what follows `a`. */
  lemma OccursPast(a: string, tail: string, pat: string, j: int)
    requires |a| <= j
    ensures OccursAt(a + tail, pat, j) ==> OccursAt(tail, pat, j - |a|)
  {
    if OccursAt(a + tail, pat, j) {
      assert (a + tail)[j..j + |pat|] == tail[j - |a|..j - |a| + |pat|];
    }
  }

  /**
   * A `<script` or `<style` with no closing tag after it is no match: the
   * first pass keeps it and goes on with the text after it.
   */
  lemma StripScriptStyleKeepsUnclosed(name: string, tail: string)
    requires name == "script" || name == "style"
    requires !Occurs(tail, ClosingTag(name))
    ensures StripScriptStyle("<" + name + tail) == "<" + name + StripScriptStyle(tail)
  {
    var a, close := "<" + name, ClosingTag(name);
    var s := a + tail;
    forall j | 1 + |name| <= j
      ensures !OccursAt(s, close, j)
    {
      OccursPast(a, tail, close, j);
    }
    forall i | 0 <= i < |a|
      ensures ElementSpan((a + tail)[i..]) == None
    {
      if i == 0 {
        assert (a + tail)[0..] == s;
        OpensElement(name, tail);
        assert FindFrom(s, close, 1 + |name|) == None;
      } else {
        assert (a + tail)[i..][0] == name[i - 1];
        NotOpened((a + tail)[i..]);
      }
    }
    StripScriptStyleKeepsText(a, tail);
  }

  /** Appending text keeps every occurrence. */
  lemma OccursExtends(m: string, r: string, pat: string, j: int)
    ensures OccursAt(m, pat, j) ==> OccursAt(m + r, pat, j)
  {
    if OccursAt(m, pat, j) {
      assert (m + r)[j..j + |pat|] == m[j..j + |pat|];
    }
  }

  /**
   * Appending text without `>` adds no occurrence of a pattern that ends in
   * `>`: the `>` of any occurrence lies in the first part.
   */
  lemma OccursWithoutClose(m: string, r: string, pat: string, j: int)
    requires '>' !in r && pat != [] && pat[|pat| - 1] == '>'
    ensures OccursAt(m + r, pat, j) <==> OccursAt(m, pat, j)
  {
    OccursExtends(m, r, pat, j);
    assert forall k :: |m| <= k < |m + r| ==> (m + r)[k] != '>' by {
      forall k | |m| <= k < |m + r|
        ensures (m + r)[k] != '>'
      {
        assert (m + r)[k] == r[k - |m|];
      }
    }
    if OccursAt(m + r, pat, j) {
      var e := j + |pat| - 1;
      assert (m + r)[j..j + |pat|][|pat| - 1] == (m + r)[e] == '>';
      assert (m + r)[j..j + |pat|] == m[j..j + |pat|];
    }
  }

  /** A closing tag ends in `>`. */
  lemma ClosingTagEnds(name: string)
    ensures ClosingTag(name) != [] && ClosingTag(name)[|ClosingTag(name)| - 1] == '>'
  {
  }

  /** Appending text without `>` moves no closing tag a search finds. */
  lemma FindFromWithoutClose(m: string, r: string, name: string, from: nat)
    requires '>' !in r && from <= |m|
    ensures FindFrom(m + r, ClosingTag(name), from) == FindFrom(m, ClosingTag(name), from)
  {
    var close := ClosingTag(name);
    ClosingTagEnds(name);
    forall j
      ensures OccursAt(m + r, close, j) <==> OccursAt(m, close, j)
    {
      OccursWithoutClose(m, r, close, j);
    }
    match FindFrom(m, close, from)
    case Some(at) =>
      FindFromFirst(m + r, close, from, at);
    case None =>
  }

  /** An element that opens within `m` opens in `m` alone too. */
  lemma SameOpening(m: string, r: string, name: string)
    requires OpenedElement(m + r) == Some(name) && |m| >= 1 + |name|
    ensures OpenedElement(m) == Some(name)
  {
    assert m[0..1 + |name|] == (m + r)[0..1 + |name|];
    OccursExtends(m, r, "<script", 0);
  }

  /** A search that starts past the end of `m` finds no closing tag in text without `>`. */
  lemma NoCloseAfter(m: string, r: string, name: string, from: nat)
    requires '>' !in r && |m| < from <= |m + r|
    ensures FindFrom(m + r, ClosingTag(name), from) == None
  {
    ClosingTagEnds(name);
    forall j | from <= j
      ensures !OccursAt(m + r, ClosingTag(name), j)
    {
      OccursWithoutClose(m, r, ClosingTag(name), j);
    }
  }

  /** Two texts that open the same element and find its closing tag at the same place match alike. */
  lemma SameSpan(s: string, t: string, name: string)
    requires OpenedElement(s) == Some(name) && OpenedElement(t) == Some(name)
    requires 1 + |name| <= |s| && 1 + |name| <= |t|
    requires FindFrom(s, ClosingTag(name), 1 + |name|) == FindFrom(t, ClosingTag(name), 1 + |name|)
    ensures ElementSpan(s) == ElementSpan(t)
  {
  }

  /** An element whose closing tag is never found is no match. */
  lemma NoSpan(s: string, name: string)
    requires OpenedElement(s) == Some(name) && 1 + |name| <= |s|
    requires FindFrom(s, ClosingTag(name), 1 + |name|) == None
    ensures ElementSpan(s) == None
  {
  }

  /** Appending text without `>` leaves a match at the head as it was, once an element opens there. */
  lemma OpenedWithoutClose(m: string, r: string, name: string)
    requires '>' !in r && OpenedElement(m + r) == Some(name)
    ensures ElementSpan(m + r) == ElementSpan(m)
  {
    if |m| >= 1 + |name| {
      SameOpening(m, r, name);
      FindFromWithoutClose(m, r, name, 1 + |name|);
      SameSpan(m + r, m, name);
    } else {
      NoCloseAfter(m, r, name, 1 + |name|);
      NoSpan(m + r, name);
      OccursExtends(m, r, "<script", 0);
      OccursExtends(m, r, "<style", 0);
      OccursAtHead(m + r, "<script");
      OccursAtHead(m + r, "<style");
      assert !OccursAt(m, "<script", 0) && !OccursAt(m, "<style", 0);
    }
  }

  /** Appending text without `>` leaves the match at the head as it was. */
  lemma SpanWithoutClose(m: string, r: string)
    requires '>' !in r
    ensures ElementSpan(m + r) == ElementSpan(m)
  {
    match OpenedElement(m + r)
    case None =>
      OccursExtends(m, r, "<script", 0);
      OccursExtends(m, r, "<style", 0);
    case Some(name) =>
      OpenedWithoutClose(m, r, name);
  }

  /** Text without `>` holds no match: the first pass keeps it whole. */
  lemma {:induction false} StripScriptStyleNoClose(r: string)
    requires '>' !in r
    ensures StripScriptStyle(r) == r
    decreases |r|
  {
    if r != [] {
      calc {
        StripScriptStyle(r);
        { SpanWithoutClose([], r); assert [] + r == r; }
        [r[0]] + StripScriptStyle(r[1..]);
        { StripScriptStyleNoClose(r[1..]); }
        [r[0]] + r[1..];
      }
    }
  }

  /**
   * A tag `<name>` whose name does not begin with `sc` or `st` holds no
   * match of the pattern, whatever follows it.
   */
  lemma TagOpensNoElement(name: string, b: string)
    requires '<' !in name
    requires |name| < 2 || name[0] != 's' || (name[1] != 'c' && name[1] != 't')
    ensures var t := "<" + name + ">";
      forall i :: 0 <= i < |t| ==> ElementSpan((t + b)[i..]) == None
  {
    var t := "<" + name + ">";
    forall i | 0 <= i < |t|
      ensures ElementSpan((t + b)[i..]) == None
    {
      var s := (t + b)[i..];
      if i == 0 {
        if |name| == 0 {
          assert s[1] == '>';
        } else if |name| == 1 {
          assert s[1] == name[0] && s[2] == '>';
        } else {
          assert s[1] == name[0] && s[2] == name[1];
        }
      } else if i <= |name| {
        assert s[0] == name[i - 1];
      } else {
        assert s[0] == '>';
      }
      NotOpened(s);
    }
  }

  /** Text without `<` opens no element and does not end in `<`. */
  lemma NoMarkupOpensNoElement(a: string)
    requires '<' !in a
    ensures NoElementOpens(a) && (a == [] || a[|a| - 1] != '<')
  {
  }

  /** Text where no script or style element opens passes through the first pass unchanged. */
  lemma {:induction false} StripScriptStyleNoElement(s: string)
    requires NoElementOpens(s)
    ensures StripScriptStyle(s) == s
    decreases |s|
  {
    if s != [] {
      assert s[0] != '<' || |s| < 2 || s[1] != 's' by {
        if |s| >= 2 {
          assert !(s[0] == '<' && s[1] == 's');
        }
      }
      NoElementAtHead(s);
      NoElementOpensTail(s);
      StripScriptStyleNoElement(s[1..]);
      assert s == [s[0]] + s[1..];
    }
  }

  /** No character of a closing tag after the first one is `<`. */
  lemma ClosingTagShape(name: string, m: int)
    requires name == "script" || name == "style"
    requires 1 <= m < |ClosingTag(name)|
    ensures ClosingTag(name)[m] != '<'
  {
  }

  /** An occurrence with none before it, from `from` on, is the one `FindFrom` returns. */
  lemma FindFromFirst(s: string, pat: string, from: nat, at: nat)
    requires from <= at && OccursAt(s, pat, at)
    requires forall j :: from <= j < at ==> !OccursAt(s, pat, j)
    ensures FindFrom(s, pat, from) == Some(at)
  {
  }

  /** An element whose body lacks its closing tag holds no closing tag before the real one. */
  lemma {:induction false} NoEarlierClosingTag(name: string, body: string, rest: string, j: int)
    requires name == "script" || name == "style"
    requires !Occurs(body, ClosingTag(name))
    requires 1 + |name| <= j < 1 + |name| + |body|
    ensures !OccursAt("<" + name + body + ClosingTag(name) + rest, ClosingTag(name), j)
  {
    var close := ClosingTag(name);
    var s := "<" + name + body + close + rest;
    var from := 1 + |name|;
    var at := from + |body|;
    if j + |close| <= at {
      assert s[j..j + |close|] == body[j - from..j - from + |close|];
      assert OccursAt(s, close, j) ==> OccursAt(body, close, j - from);
    } else {
      var m := at - j;
      assert s[at] == '<';
      ClosingTagShape(name, m);
      assert s[j..j + |close|][m] == s[at];
    }
  }

  /** A string that starts with `<script` or `<style` opens that element. */
  lemma OpensElement(name: string, tail: string)
    requires name == "script" || name == "style"
    ensures OpenedElement("<" + name + tail) == Some(name)
  {
    var s := "<" + name + tail;
    assert s[..1 + |name|] == "<" + name;
    if name == "style" {
      assert s[2] == 't';
      assert !OccursAt(s, "<script", 0);
    }
  }

  /**
   * A script or style element whose body does not contain its closing tag
   * is removed whole, opening `<` to closing `>`, and the scan goes on
   * right after it.
   */
  lemma {:induction false} StripScriptStyleRemovesElement(name: string, body: string, rest: string)
    requires name == "script" || name == "style"
    requires !Occurs(body, ClosingTag(name))
    ensures StripScriptStyle("<" + name + body + ClosingTag(name) + rest) == StripScriptStyle(rest)
  {
    var close := ClosingTag(name);
    var s := "<" + name + body + close + rest;
    var from := 1 + |name|;
    var at := from + |body|;
    OpensElement(name, body + close + rest);
    assert s == "<" + name + (body + close + rest);
    assert OccursAt(s, close, at) by {
      assert s[at..at + |close|] == close;
    }
    forall j | from <= j < at
      ensures !OccursAt(s, close, j)
    {
      NoEarlierClosingTag(name, body, rest, j);
    }
    FindFromFirst(s, close, from, at);
    assert ElementSpan(s) == Some(at + |close|);
    assert s[at + |close|..] == rest;
  }

  // ---------------------------------------------------------------------
  // Tag removal
  // ---------------------------------------------------------------------

  /** The second pass only deletes: its output is a subsequence of its input. */
  lemma {:induction false} StripTagsDeletes(s: string)
    ensures IsSubsequence(StripTags(s), s)
    decreases |s|
  {
    if s != [] {
      if s[0] == '<' && '>' in s {
        var k := IndexOf(s, '>') + 1;
        StripTagsDeletes(s[k..]);
        SubsequenceOfSuffix(StripTags(s), s, k);
      } else {
        StripTagsDeletes(s[1..]);
        SubsequenceCons(StripTags(s[1..]), s);
      }
    }
  }

  /** Text that contains no `<` passes through the second pass unchanged, in order. */
  lemma {:induction false} StripTagsKeepsText(a: string, b: string)
    requires '<' !in a
    ensures StripTags(a + b) == a + StripTags(b)
    decreases |a|
  {
    if a != [] {
      var s := a + b;
      assert s[0] == a[0] && s[0] != '<';
      assert s[1..] == a[1..] + b;
      StripTagsKeepsText(a[1..], b);
      calc {
        StripTags(s);
        [s[0]] + StripTags(s[1..]);
        [a[0]] + (a[1..] + StripTags(b));
        { assert a == [a[0]] + a[1..]; }
        a + StripTags(b);
      }
    } else {
      assert a + b == b;
    }
  }

  /** Text without `>` holds no tag: a `<` with no `>` after it is ordinary text. */
  lemma {:induction false} StripTagsNoClose(s: string)
    requires '>' !in s
    ensures StripTags(s) == s
    decreases |s|
  {
    if s != [] {
      assert '>' !in s[1..];
      StripTagsNoClose(s[1..]);
      assert s == [s[0]] + s[1..];
    }
  }

  /** The first occurrence of `c` is the only one with no `c` before it. */
  lemma {:induction false} IndexOfUnique(s: string, c: char, i: nat)
    requires i < |s| && s[i] == c && c !in s[..i]
    ensures IndexOf(s, c) == i
    decreases i
  {
    if i > 0 {
      assert s[0] == s[..i][0];
      assert s[1..][..i - 1] == s[1..i] && s[1..i] == s[..i][1..];
      IndexOfUnique(s[1..], c, i - 1);
    }
  }

  /** Appending text does not move the first `>` of text that has one. */
  lemma IndexOfPrefix(x: string, r: string, c: char)
    requires c in x
    ensures c in x + r && IndexOf(x + r, c) == IndexOf(x, c)
  {
    var i := IndexOf(x, c);
    assert (x + r)[..i] == x[..i] && (x + r)[i] == c;
    IndexOfUnique(x + r, c, i);
  }

  /**
   * Text without `>` after markup is kept by the second pass, whatever the
   * markup: no tag can close inside it.
   */
  lemma {:induction false} StripTagsAppendNoClose(x: string, r: string)
    requires '>' !in r
    ensures StripTags(x + r) == StripTags(x) + r
    decreases |x|
  {
    if x == [] {
      assert x + r == r;
      StripTagsNoClose(r);
    } else if x[0] == '<' && '>' in x {
      var i := IndexOf(x, '>');
      IndexOfPrefix(x, r, '>');
      calc {
        StripTags(x + r);
        { assert (x + r)[0] == '<' && (x + r)[i + 1..] == x[i + 1..] + r; }
        StripTags(x[i + 1..] + r);
        { StripTagsAppendNoClose(x[i + 1..], r); }
        StripTags(x[i + 1..]) + r;
      }
    } else {
      calc {
        StripTags(x + r);
        { assert (x + r)[0] == x[0] && (x + r)[1..] == x[1..] + r; }
        [x[0]] + StripTags(x[1..] + r);
        { StripTagsAppendNoClose(x[1..], r); }
        [x[0]] + (StripTags(x[1..]) + r);
      }
    }
  }

  /** A tag `<…>` whose inside holds no `>` is removed whole, brackets included. */
  lemma StripTagsRemovesTag(inside: string, rest: string)
    requires '>' !in inside
    ensures StripTags("<" + inside + ">" + rest) == StripTags(rest)
  {
    var s := "<" + inside + ">" + rest;
    assert s[1 + |inside|] == '>';
    assert s[..1 + |inside|] == "<" + inside;
    assert IndexOf(s, '>') == 1 + |inside|;
    assert s[2 + |inside|..] == rest;
  }

  // ---------------------------------------------------------------------
  // Sample
  // ---------------------------------------------------------------------

  /** A `<span>` element around a letter is kept by the first pass, whatever follows it. */
  lemma SpanKept(rest: string)
    ensures var open, close := "<" + "span" + ">", "<" + "/span" + ">";
      StripScriptStyle(open + ("a" + (close + rest))) == open + ("a" + (close + StripScriptStyle(rest)))
  {
    var open, close := "<" + "span" + ">", "<" + "/span" + ">";
    TagOpensNoElement("span", "a" + (close + rest));
    StripScriptStyleKeepsText(open, "a" + (close + rest));
    NoMarkupOpensNoElement("a");
    StripScriptStyleKeepsUnopened("a", close + rest);
    TagOpensNoElement("/span", rest);
    StripScriptStyleKeepsText(close, rest);
  }

  /** The script element of the sample below goes, and so does nothing after it. */
  lemma ScriptThenText()
    ensures StripScriptStyle("<" + "script" + (">" + "x") + ClosingTag("script") + "b") == "b"
  {
    var body := ">" + "x";
    assert !Occurs(body, ClosingTag("script")) by {
      assert forall j :: OccursAt(body, ClosingTag("script"), j) ==> j == 0;
      assert body[0] != ClosingTag("script")[0];
    }
    StripScriptStyleRemovesElement("script", body, "b");
    assert NoElementOpens("b");
    StripScriptStyleNoElement("b");
  }

  /**
   * Markup in front of a script element is kept, tags included, and so is
   * the text after it: `<span>a</span><script>x</script>b` becomes
   * `<span>a</span>b`.
   */
  lemma StripScriptStyleAroundElement()
    ensures StripScriptStyle("<span>a</span>" + "<script>" + "x" + "</script>" + "b") == "<span>a</span>" + "b"
  {
    var open, close := "<" + "span" + ">", "<" + "/span" + ">";
    var element := "<" + "script" + (">" + "x") + ClosingTag("script") + "b";
    calc {
      StripScriptStyle("<span>a</span>" + "<script>" + "x" + "</script>" + "b");
      { assert "<span>a</span>" + "<script>" + "x" + "</script>" + "b" == open + ("a" + (close + element)); }
      StripScriptStyle(open + ("a" + (close + element)));
      { SpanKept(element); }
      open + ("a" + (close + StripScriptStyle(element)));
      { ScriptThenText(); }
      open + ("a" + (close + "b"));
      "<span>a</span>" + "b";
    }
  }
}
