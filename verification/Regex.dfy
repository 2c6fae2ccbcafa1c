/** Character classes and word boundaries of regular expressions, for ASCII text. */
module Regex {
  import opened Strings

  /** `\w` */
  predicate IsWord(c: char) { IsLetter(c) || IsDigit(c) || c == '_' }

  predicate WordAt(t: string, i: int) {
    0 <= i < |t| && IsWord(t[i])
  }

  /** `\b`: exactly one side of position `i` is a word character. */
  predicate Boundary(t: string, i: int) {
    WordAt(t, i - 1) != WordAt(t, i)
  }
}
