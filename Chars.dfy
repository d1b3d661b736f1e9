/**
 * The members of .NET's `System.Char` that the library calls.
 *
 * `IsWhiteSpace` is the full .NET set (which is also what a regular expression's
 * `\s` matches).  Letters, digits and case are the ASCII ones: the Unicode
 * category tables behind `char.IsLetter` and friends are not part of this model.
 */
module Chars {

  predicate IsUpper(c: char) { 'A' <= c <= 'Z' }

  predicate IsLower(c: char) { 'a' <= c <= 'z' }

  predicate IsLetter(c: char) { IsUpper(c) || IsLower(c) }

  predicate IsDigit(c: char) { '0' <= c <= '9' }

  predicate IsLetterOrDigit(c: char) { IsLetter(c) || IsDigit(c) }

  /** `char.IsWhiteSpace`: the separators Zs, Zl, Zp and the controls U+0009-U+000D, U+0085. */
  predicate IsWhiteSpace(c: char) {
    || c == ' '
    || '\t' <= c <= '\r'
    || c == '\U{85}'
    || c == '\U{A0}'
    || c == '\U{1680}'
    || '\U{2000}' <= c <= '\U{200A}'
    || c == '\U{2028}'
    || c == '\U{2029}'
    || c == '\U{202F}'
    || c == '\U{205F}'
    || c == '\U{3000}'
  }

  lemma WhiteSpaceIsNotLetterOrDigit(c: char)
    requires IsWhiteSpace(c)
    ensures !IsLetterOrDigit(c)
  {
  }

  /** `char.ToUpperInvariant` on ASCII: a lower-case letter moves to its capital, all else stays. */
  function ToUpper(c: char): (u: char)
    ensures IsLower(c) ==> IsUpper(u) && u as int + 32 == c as int
    ensures !IsLower(c) ==> u == c
  {
    if IsLower(c) then (c as int - 32) as char else c
  }

  /** `char.ToLowerInvariant` on ASCII: a capital moves to its lower-case letter, all else stays. */
  function ToLower(c: char): (l: char)
    ensures IsUpper(c) ==> IsLower(l) && l as int == c as int + 32
    ensures !IsUpper(c) ==> l == c
  {
    if IsUpper(c) then (c as int + 32) as char else c
  }

  /** The character for a decimal digit value. */
  function DigitChar(d: nat): (c: char)
    requires d < 10
    ensures IsDigit(c) && c as int - '0' as int == d
  {
    ('0' as int + d) as char
  }
}
