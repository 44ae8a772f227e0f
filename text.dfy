/** Character classes and sequence relations shared by the word counter. */
module Text {

  datatype Option<T> = None | Some(value: T)

  /**
   * The characters that the regular-expression class `\s` and
   * `String.prototype.trim` treat as white space: the ECMAScript
   * WhiteSpace and LineTerminator code points (tab, line feed, vertical tab,
   * form feed, carriage return, space, no-break space, the byte order mark,
   * the Unicode space separators, and the line and paragraph separators).
   */
  predicate IsWhitespace(c: char) {
    c == '\t' || c == '\n' || c == '\U{000B}' || c == '\U{000C}' || c == '\r' ||
    c == ' ' || c == '\U{00A0}' || c == '\U{1680}' ||
    ('\U{2000}' <= c <= '\U{200A}') ||
    c == '\U{2028}' || c == '\U{2029}' || c == '\U{202F}' || c == '\U{205F}' ||
    c == '\U{3000}' || c == '\U{FEFF}'
  }

  /** The nine lower-case Polish letters outside ASCII: ą ć ę ł ń ó ś ź ż. */
  predicate IsPolishLower(c: char) {
    c == '\U{0105}' || c == '\U{0107}' || c == '\U{0119}' || c == '\U{0142}' || c == '\U{0144}' ||
    c == '\U{00F3}' || c == '\U{015B}' || c == '\U{017A}' || c == '\U{017C}'
  }

  /** The nine upper-case Polish letters outside ASCII: Ą Ć Ę Ł Ń Ó Ś Ź Ż. */
  predicate IsPolishUpper(c: char) {
    c == '\U{0104}' || c == '\U{0106}' || c == '\U{0118}' || c == '\U{0141}' || c == '\U{0143}' ||
    c == '\U{00D3}' || c == '\U{015A}' || c == '\U{0179}' || c == '\U{017B}'
  }

  /** A letter of the word counter's alphabet: an ASCII letter or a Polish letter. */
  predicate IsLetter(c: char) {
    ('a' <= c <= 'z') || ('A' <= c <= 'Z') || IsPolishLower(c) || IsPolishUpper(c)
  }

  /** A character the word counter keeps: a letter or white space. */
  predicate IsKept(c: char) {
    IsLetter(c) || IsWhitespace(c)
  }

  predicate AllKept(s: string) {
    forall i :: 0 <= i < |s| ==> IsKept(s[i])
  }

  predicate AllLetters(s: string) {
    forall i :: 0 <= i < |s| ==> IsLetter(s[i])
  }

  predicate NoWhitespace(s: string) {
    forall i :: 0 <= i < |s| ==> !IsWhitespace(s[i])
  }

  predicate AllWhitespace(s: string) {
    forall i :: 0 <= i < |s| ==> IsWhitespace(s[i])
  }

  /** `a` is obtained from `b` by deleting zero or more characters, order kept. */
  predicate IsSubsequence(a: string, b: string)
    decreases |b|
  {
    if b == [] then a == []
    else (a != [] && a[0] == b[0] && IsSubsequence(a[1..], b[1..])) || IsSubsequence(a, b[1..])
  }

  lemma {:induction false} SubsequenceRefl(s: string)
    ensures IsSubsequence(s, s)
  {
    if s != [] {
      SubsequenceRefl(s[1..]);
    }
  }

  /** A subsequence of a suffix is a subsequence of the whole. */
  lemma {:induction false} SubsequenceOfSuffix(a: string, b: string, k: nat)
    requires k <= |b| && IsSubsequence(a, b[k..])
    ensures IsSubsequence(a, b)
  {
    if k > 0 {
      assert b[1..][k - 1..] == b[k..];
      SubsequenceOfSuffix(a, b[1..], k - 1);
    }
  }

  /** Keeping the first character and a subsequence of the rest gives a subsequence. */
  lemma SubsequenceCons(a: string, b: string)
    requires b != [] && IsSubsequence(a, b[1..])
    ensures IsSubsequence([b[0]] + a, b)
  {
    assert ([b[0]] + a)[1..] == a;
  }

  /** Every character of a subsequence occurs in the original. */
  lemma {:induction false} SubsequenceMembers(a: string, b: string)
    requires IsSubsequence(a, b)
    ensures forall c :: c in a ==> c in b
    decreases |b|
  {
    if b != [] {
      if a != [] && a[0] == b[0] && IsSubsequence(a[1..], b[1..]) {
        SubsequenceMembers(a[1..], b[1..]);
        assert a == [a[0]] + a[1..];
      } else {
        SubsequenceMembers(a, b[1..]);
      }
    }
  }
}
