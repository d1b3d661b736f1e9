/**
 * `CharStringValidators`: "every character satisfies" and "some character
 * satisfies" checks over a nullable string.  Every check is false for a null or
 * empty string.  Character classes are the ASCII ones of module `Chars`.
 */
module CharStringValidators {
  import opened Wrappers
  import opened Chars
  import Strings
  import Enumerable

  /** The 31 characters `HasSpecialChars` looks for when given no extra ones. */
  const DefaultSpecialChars: seq<char> := "!@#$%^&*()-_=+[]{}|;:'\",.<>?/`~"

  /** A non-null, non-empty string. */
  predicate Present(input: Option<string>) {
    !Strings.IsNullOrEmpty(input)
  }

  predicate IsHexDigit(c: char) {
    IsDigit(c) || 'a' <= c <= 'f' || 'A' <= c <= 'F'
  }

  function IsAlpha(input: Option<string>): (r: bool)
    ensures r <==> Present(input) && forall i :: 0 <= i < |input.value| ==> IsLetter(input.value[i])
  {
    Present(input) && Enumerable.All(input.value, IsLetter)
  }

  /** Letters that upper-casing leaves alone: exactly the upper-case letters. */
  function IsUpperAlpha(input: Option<string>): (r: bool)
    ensures r <==> Present(input) && forall i :: 0 <= i < |input.value| ==> IsUpper(input.value[i])
  {
    Present(input) && Enumerable.All(input.value, c => IsLetter(c) && ToUpper(c) == c)
  }

  /** Letters that lower-casing leaves alone: exactly the lower-case letters. */
  function IsLowerAlpha(input: Option<string>): (r: bool)
    ensures r <==> Present(input) && forall i :: 0 <= i < |input.value| ==> IsLower(input.value[i])
  {
    Present(input) && Enumerable.All(input.value, c => IsLetter(c) && ToLower(c) == c)
  }

  /** Non-letters pass; letters must be left alone by lower-casing: no upper-case letter. */
  function IsLowerCase(input: Option<string>): (r: bool)
    ensures r <==> Present(input) && forall i :: 0 <= i < |input.value| ==> !IsUpper(input.value[i])
  {
    Present(input) && Enumerable.All(input.value, c => !IsLetter(c) || ToLower(c) == c)
  }

  /** Non-letters pass; letters must be left alone by upper-casing: no lower-case letter. */
  function IsUpperCase(input: Option<string>): (r: bool)
    ensures r <==> Present(input) && forall i :: 0 <= i < |input.value| ==> !IsLower(input.value[i])
  {
    Present(input) && Enumerable.All(input.value, c => !IsLetter(c) || ToUpper(c) == c)
  }

  function IsNumeric(input: Option<string>): (r: bool)
    ensures r <==> Present(input) && forall i :: 0 <= i < |input.value| ==> '0' <= input.value[i] <= '9'
  {
    Present(input) && Enumerable.All(input.value, IsDigit)
  }

  function IsBinary(input: Option<string>): (r: bool)
    ensures r <==> Present(input) && forall i :: 0 <= i < |input.value| ==> input.value[i] in "01"
  {
    Present(input) && Enumerable.All(input.value, c => c == '0' || c == '1')
  }

  /** A non-empty run of hexadecimal digits: what `[0-9a-fA-F]+` between `\b`s matches. */
  predicate HexRun(t: string) {
    t != [] && Enumerable.All(t, IsHexDigit)
  }

  /**
   * `\A\b[0-9a-fA-F]+\b\Z`.  The word boundaries always hold around a run of
   * word characters that fills the string, and `\Z` also matches before one
   * final '\n'.
   */
  function IsHexadecimal(input: Option<string>): (r: bool)
    ensures r <==> (Present(input) &&
      var s := input.value;
      (forall i :: 0 <= i < |s| - 1 ==> IsHexDigit(s[i])) &&
      (IsHexDigit(s[|s| - 1]) || (|s| >= 2 && s[|s| - 1] == '\n')))
  {
    Present(input) &&
    var s := input.value;
    HexRun(s) || (s[|s| - 1] == '\n' && HexRun(s[..|s| - 1]))
  }

  function IsAlphaNumeric(input: Option<string>): (r: bool)
    ensures r <==> Present(input) && forall i :: 0 <= i < |input.value| ==> IsLetter(input.value[i]) || IsDigit(input.value[i])
  {
    Present(input) && Enumerable.All(input.value, IsLetterOrDigit)
  }

  function HasDigits(input: Option<string>): (r: bool)
    ensures r <==> input.Some? && exists i :: 0 <= i < |input.value| && IsDigit(input.value[i])
  {
    Present(input) && Enumerable.Any(input.value, IsDigit)
  }

  function HasLetters(input: Option<string>): (r: bool)
    ensures r <==> input.Some? && exists i :: 0 <= i < |input.value| && IsLetter(input.value[i])
  {
    Present(input) && Enumerable.Any(input.value, IsLetter)
  }

  /** Some character is a default special character or one of `extraChars`. */
  function HasSpecialChars(input: Option<string>, extraChars: seq<char>): (r: bool)
    ensures r <==> (input.Some? &&
      exists i :: 0 <= i < |input.value| && (input.value[i] in DefaultSpecialChars || input.value[i] in extraChars))
  {
    if Strings.IsNullOrEmpty(input) then false
    else
      var allChars := if |extraChars| > 0 then DefaultSpecialChars + extraChars else DefaultSpecialChars;
      Enumerable.Any(input.value, c => c in allChars)
  }

  function ContainsOnly(input: Option<string>, chars: seq<char>): (r: bool)
    ensures r <==> Present(input) && forall i :: 0 <= i < |input.value| ==> input.value[i] in chars
  {
    Present(input) && Enumerable.All(input.value, c => c in chars)
  }

  function ContainsNone(input: Option<string>, chars: seq<char>): (r: bool)
    ensures r <==> Present(input) && forall i :: 0 <= i < |input.value| ==> input.value[i] !in chars
  {
    Present(input) && Enumerable.All(input.value, c => c !in chars)
  }

  /* ---------- Properties ---------- */

  /** Null and "" fail every check, whatever the character arguments. */
  lemma NullOrEmptyFailsEverything(input: Option<string>, extra: seq<char>, chars: seq<char>)
    requires Strings.IsNullOrEmpty(input)
    ensures !IsAlpha(input) && !IsUpperAlpha(input) && !IsLowerAlpha(input)
    ensures !IsLowerCase(input) && !IsUpperCase(input)
    ensures !IsNumeric(input) && !IsBinary(input) && !IsHexadecimal(input) && !IsAlphaNumeric(input)
    ensures !HasDigits(input) && !HasLetters(input) && !HasSpecialChars(input, extra)
    ensures !ContainsOnly(input, chars) && !ContainsNone(input, chars)
  {
  }

  lemma AlphaIsAlphaNumeric(input: Option<string>)
    requires IsAlpha(input)
    ensures IsAlphaNumeric(input)
  {
  }

  lemma UpperAlphaIsAlphaAndUpperCase(input: Option<string>)
    requires IsUpperAlpha(input)
    ensures IsAlpha(input) && IsUpperCase(input)
  {
  }

  lemma LowerAlphaIsAlphaAndLowerCase(input: Option<string>)
    requires IsLowerAlpha(input)
    ensures IsAlpha(input) && IsLowerCase(input)
  {
  }

  lemma BinaryIsNumericAndHexadecimal(input: Option<string>)
    requires IsBinary(input)
    ensures IsNumeric(input) && IsHexadecimal(input)
  {
    var s := input.value;
    assert forall i :: 0 <= i < |s| ==> s[i] == '0' || s[i] == '1';
  }

  lemma NumericHasDigits(input: Option<string>)
    requires IsNumeric(input)
    ensures HasDigits(input)
  {
    assert IsDigit(input.value[0]);
  }

  lemma AlphaHasLetters(input: Option<string>)
    requires IsAlpha(input)
    ensures HasLetters(input)
  {
    assert IsLetter(input.value[0]);
  }

  /** More extra characters never turn a match into a miss. */
  lemma HasSpecialCharsMonotone(input: Option<string>, extra: seq<char>, more: seq<char>)
    requires HasSpecialChars(input, extra)
    ensures HasSpecialChars(input, extra + more)
  {
    var i :| 0 <= i < |input.value| && (input.value[i] in DefaultSpecialChars || input.value[i] in extra);
    assert input.value[i] in DefaultSpecialChars || input.value[i] in extra + more;
  }

  /** One stretch of the default special characters holds no letter or digit. */
  lemma SpecialCharsStretch(lo: int, hi: int)
    requires 0 <= lo <= hi <= |DefaultSpecialChars| && hi - lo <= 8
    ensures forall j :: lo <= j < hi ==> !IsLetterOrDigit(DefaultSpecialChars[j])
  {
    forall j | lo <= j < hi ensures !IsLetterOrDigit(DefaultSpecialChars[j]) {
    }
  }

  /** No default special character is a letter or a digit. */
  lemma DefaultSpecialCharsAreNotLettersOrDigits()
    ensures forall c :: c in DefaultSpecialChars ==> !IsLetterOrDigit(c)
  {
    SpecialCharsStretch(0, 8);
    SpecialCharsStretch(8, 16);
    SpecialCharsStretch(16, 24);
    SpecialCharsStretch(24, |DefaultSpecialChars|);
  }

  /** With no characters given, nothing is "only" them and everything avoids them. */
  lemma EmptyCharacterSet(s: string)
    requires s != []
    ensures !ContainsOnly(Some(s), []) && ContainsNone(Some(s), [])
  {
    assert s[0] !in [];
  }

  /** A present string cannot consist only of characters it contains none of. */
  lemma ContainsOnlyExcludesContainsNone(input: Option<string>, chars: seq<char>)
    ensures !(ContainsOnly(input, chars) && ContainsNone(input, chars))
  {
    if ContainsOnly(input, chars) {
      assert input.value[0] in chars;
    }
  }

  /** Case checks ignore non-letters; the alpha checks reject them. */
  lemma LowerCaseIgnoresDigits()
    ensures IsLowerCase(Some("abc123")) && !IsLowerAlpha(Some("abc123"))
  {
    assert !IsLower("abc123"[3]);
  }

  lemma UpperCaseIgnoresDigits()
    ensures IsUpperCase(Some("ABC123")) && !IsUpperAlpha(Some("ABC123"))
  {
    assert !IsUpper("ABC123"[3]);
  }

  /* ---------- The library's own examples ---------- */

  lemma AlphaExamples()
    ensures IsAlpha(Some("abcXYZ")) && !IsAlpha(Some("abc123"))
  {
    assert !IsLetter("abc123"[3]);
  }

  lemma UpperAlphaExamples()
    ensures IsUpperAlpha(Some("ABC")) && !IsUpperAlpha(Some("AbC")) && !IsUpperAlpha(Some("123"))
  {
    assert !IsUpper("AbC"[1]) && !IsUpper("123"[0]);
  }

  lemma LowerAlphaExamples()
    ensures IsLowerAlpha(Some("abc")) && !IsLowerAlpha(Some("aBc")) && !IsLowerAlpha(Some("123"))
  {
    assert !IsLower("aBc"[1]) && !IsLower("123"[0]);
  }

  lemma CaseExamples()
    ensures !IsLowerCase(Some("Abc123")) && !IsUpperCase(Some("AbC123"))
  {
    assert IsUpper("Abc123"[0]) && IsLower("AbC123"[1]);
  }

  lemma NumericExamples()
    ensures IsNumeric(Some("123456")) && !IsNumeric(Some("123a"))
  {
    assert !('0' <= "123a"[3] <= '9');
  }

  lemma BinaryExamples()
    ensures IsBinary(Some("10101")) && !IsBinary(Some("10201"))
  {
    assert "10201"[2] !in "01";
  }

  lemma AlphaNumericExamples()
    ensures IsAlphaNumeric(Some("abc123")) && !IsAlphaNumeric(Some("abc123!"))
  {
    assert !IsLetter("abc123!"[6]) && !IsDigit("abc123!"[6]);
  }

  lemma HexadecimalExamples()
    ensures IsHexadecimal(Some("1A2b3C")) && !IsHexadecimal(Some("1A2b3G"))
  {
    assert !IsHexDigit("1A2b3G"[5]);
  }

  lemma HasDigitsExamples()
    ensures HasDigits(Some("abc123")) && !HasDigits(Some("abc"))
  {
    assert IsDigit("abc123"[3]);
  }

  lemma HasLettersExamples()
    ensures HasLetters(Some("123abc")) && !HasLetters(Some("123"))
  {
    assert IsLetter("123abc"[3]);
  }

  lemma SpecialCharsExamples()
    ensures HasSpecialChars(Some("abc!"), []) && HasSpecialChars(Some("abc$"), ['$'])
  {
    assert "abc!"[3] in DefaultSpecialChars;
    assert "abc$"[3] in DefaultSpecialChars;
  }

  lemma NoSpecialCharsExample()
    ensures !HasSpecialChars(Some("abc"), [])
  {
    DefaultSpecialCharsAreNotLettersOrDigits();
  }

  lemma ContainsOnlyExamples()
    ensures ContainsOnly(Some("aaa"), ['a']) && !ContainsOnly(Some("aab"), ['a'])
  {
    assert "aab"[2] !in ['a'];
  }

  lemma ContainsNoneExamples()
    ensures ContainsNone(Some("abc"), ['x', 'y', 'z']) && !ContainsNone(Some("abcx"), ['x'])
  {
    assert "abcx"[3] in ['x'];
  }
}
