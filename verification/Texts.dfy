/** Text that may carry blanks around it, as the loaders meet it in JSON. */
module Texts {

  /**
   * A string split the way `str.strip` sees it: leading blanks, what is left, trailing blanks.
   * Blank text has an empty core. Two strings are equal exactly when their parts are.
   */
  datatype Text = Text(left: string, core: string, right: string)

  function Plain(s: string): Text { Text("", s, "") }

  /** A text whose core is a word of some vocabulary. */
  datatype Word<T> = Word(left: string, word: T, right: string) {
    predicate Exact() { left == "" && right == "" }
  }

  function Exactly<T>(word: T): Word<T> { Word("", word, "") }

  predicate HasText(t: Text) { t.core != "" }

  predicate Trimmed(t: Text) { t == Plain(t.core) }

  /** `t + suffix`, for a suffix without blanks at its ends. */
  function Suffixed(t: Text, suffix: string): Text { Text(t.left, t.core + t.right + suffix, "") }

  /** `t + "/" + u`. */
  function Qualified(t: Text, u: Text): Text { Text(t.left, t.core + t.right + "/" + u.left + u.core, u.right) }

  predicate IsHex(c: char) { '0' <= c <= '9' || 'a' <= c <= 'f' }

  /** A SHA-256 digest in lower-case hexadecimal digits. */
  predicate IsSha256(s: string) { |s| == 64 && forall c | c in s :: IsHex(c) }

  /** The characters that Python counts as white space. */
  predicate IsBlank(c: char) {
    || '\t' <= c <= '\r' || '\U{1c}' <= c <= ' ' || c == '\U{85}' || c == '\U{a0}' || c == '\U{1680}'
    || '\U{2000}' <= c <= '\U{200a}' || c == '\U{2028}' || c == '\U{2029}' || c == '\U{202f}' || c == '\U{205f}' ||
       c == '\U{3000}'
  }

  /** The parts are what `str.strip` would cut: blanks, text without blanks at its ends, blanks. */
  predicate Canonical(t: Text) {
    && (forall i | 0 <= i < |t.left| :: IsBlank(t.left[i]))
    && (forall i | 0 <= i < |t.right| :: IsBlank(t.right[i]))
    && (if t.core == "" then t.right == "" else !IsBlank(t.core[0]) && !IsBlank(t.core[|t.core| - 1]))
  }
}
