/** Characters and words in a text, as JavaScript's patterns and string functions see them. */
module SqlText {
  predicate IsWordChar(c: char) {
    'a' <= c <= 'z' || 'A' <= c <= 'Z' || '0' <= c <= '9' || c == '_'
  }

  predicate IsWord(w: string) {
    w != [] && forall k :: 0 <= k < |w| ==> IsWordChar(w[k])
  }

  /** Letter case is ignored for the letters A to Z only. */
  function Fold(c: char): char {
    if 'A' <= c <= 'Z' then c - 'A' + 'a' else c
  }

  function FoldAll(s: string): string {
    seq(|s|, k requires 0 <= k < |s| => Fold(s[k]))
  }

  /** `w` stands at position `i`, in any case, with no character of `inWord` on either side. */
  predicate StandsAt(text: string, w: string, i: nat, inWord: char -> bool) {
    && i + |w| <= |text|
    && FoldAll(text[i..i + |w|]) == FoldAll(w)
    && (i == 0 || !inWord(text[i - 1]))
    && (i + |w| == |text| || !inWord(text[i + |w|]))
  }

  predicate Contains(text: string, w: string, inWord: char -> bool) {
    exists i :: 0 <= i <= |text| && StandsAt(text, w, i, inWord)
  }

  /** A pattern of `w` between word boundaries, with the `i` flag. */
  predicate ContainsWord(text: string, w: string) {
    Contains(text, w, IsWordChar)
  }

  lemma FoldIsIdempotent(w: string)
    ensures FoldAll(FoldAll(w)) == FoldAll(w)
  {
  }

  lemma CaseDoesNotMatter(text: string, w: string, inWord: char -> bool)
    ensures Contains(text, w, inWord) <==> Contains(text, FoldAll(w), inWord)
  {
    FoldIsIdempotent(w);
    if Contains(text, w, inWord) {
      var i :| 0 <= i <= |text| && StandsAt(text, w, i, inWord);
      assert StandsAt(text, FoldAll(w), i, inWord);
    }
    if Contains(text, FoldAll(w), inWord) {
      var i :| 0 <= i <= |text| && StandsAt(text, FoldAll(w), i, inWord);
      assert StandsAt(text, w, i, inWord);
    }
  }

  /** White space as `\s` has it. */
  predicate IsSpace(c: char) {
    c in "\t\n\r \U{000B}\U{000C}\U{00A0}\U{1680}\U{2028}\U{2029}\U{202F}\U{205F}\U{3000}\U{FEFF}"
    || '\U{2000}' <= c <= '\U{200A}'
  }

  /** The text after its leading white space. */
  function AfterSpaces(s: string): string {
    if s != [] && IsSpace(s[0]) then AfterSpaces(s[1..]) else s
  }

  /** How many characters of `inWord` the text starts with. */
  function WordLength(s: string, inWord: char -> bool): (n: nat)
    ensures n <= |s|
  {
    if s != [] && inWord(s[0]) then 1 + WordLength(s[1..], inWord) else 0
  }

  function IndexOf(s: string, c: char, from: nat): (r: int)
    requires from <= |s|
    ensures r == -1 ==> forall k :: from <= k < |s| ==> s[k] != c
    ensures r != -1 ==> from <= r < |s| && s[r] == c && forall k :: from <= k < r ==> s[k] != c
    decreases |s| - from
  {
    if from == |s| then -1 else if s[from] == c then from else IndexOf(s, c, from + 1)
  }
}
