/**
 * `BasicStringValidators`: null, empty, white-space and length checks on a
 * nullable string.
 */
module BasicStringValidators {
  import opened Wrappers
  import opened Chars
  import Strings

  /** Absent or of length zero; an empty string is in particular all white space. */
  function IsNullOrEmpty(input: Option<string>): (r: bool)
    ensures r <==> (input.None? || |input.value| == 0)
    ensures r ==> IsNullOrWhiteSpace(input)
  {
    Strings.IsNullOrEmpty(input)
  }

  /** Absent, or no character of it is anything but white space. */
  function IsNullOrWhiteSpace(input: Option<string>): (r: bool)
    ensures r <==> (input.None? || forall i :: 0 <= i < |input.value| ==> IsWhiteSpace(input.value[i]))
  {
    Strings.IsNullOrWhiteSpace(input)
  }

  function IsNotNullOrEmpty(input: Option<string>): (r: bool)
    ensures r <==> !IsNullOrEmpty(input)
    ensures r ==> input.Some? && input.value != []
  {
    !Strings.IsNullOrEmpty(input)
  }

  function IsNotNullOrWhiteSpace(input: Option<string>): (r: bool)
    ensures r <==> !IsNullOrWhiteSpace(input)
    ensures r <==> (input.Some? && exists i :: 0 <= i < |input.value| && !IsWhiteSpace(input.value[i]))
  {
    !Strings.IsNullOrWhiteSpace(input)
  }

  /** `input?.Length == length`: a null input compares unequal to every length. */
  function HasLength(input: Option<string>, length: int): (r: bool)
    ensures input.None? ==> !r
    ensures input.Some? ==> (r <==> HasMinLength(input, length) && HasMaxLength(input, length))
  {
    input.Some? && |input.value| == length
  }

  function HasMinLength(input: Option<string>, min: int): (r: bool)
    ensures input.None? ==> !r
    ensures input.Some? && min <= 0 ==> r
  {
    input.Some? && |input.value| >= min
  }

  function HasMaxLength(input: Option<string>, max: int): (r: bool)
    ensures input.None? ==> !r
    ensures max < 0 ==> !r
  {
    input.Some? && |input.value| <= max
  }

  /* ---------- Properties ---------- */

  /** Empty implies white space, but not the other way round: " " is white space and not empty. */
  lemma WhiteSpaceIsNotEmpty()
    ensures IsNullOrWhiteSpace(Some(" ")) && !IsNullOrEmpty(Some(" "))
    ensures exists s :: IsNullOrWhiteSpace(s) && !IsNullOrEmpty(s)
  {
    assert IsWhiteSpace(" "[0]);
    assert IsNullOrWhiteSpace(Some(" ")) && !IsNullOrEmpty(Some(" "));
  }

  /** A lower bound can always be lowered. */
  lemma HasMinLengthMonotone(input: Option<string>, m: int, m': int)
    requires m' <= m && HasMinLength(input, m)
    ensures HasMinLength(input, m')
  {
  }

  /** An upper bound can always be raised. */
  lemma HasMaxLengthMonotone(input: Option<string>, n: int, n': int)
    requires n <= n' && HasMaxLength(input, n)
    ensures HasMaxLength(input, n')
  {
  }

  /** The library's own examples. */
  lemma Examples()
    ensures IsNullOrEmpty(None) && IsNullOrEmpty(Some("")) && !IsNullOrEmpty(Some("abc"))
    ensures IsNullOrWhiteSpace(Some("   ")) && !IsNullOrWhiteSpace(Some("abc")) && !IsNullOrWhiteSpace(Some(" a "))
    ensures IsNotNullOrEmpty(Some(" ")) && !IsNotNullOrEmpty(None)
    ensures HasLength(Some("abc"), 3) && !HasLength(Some("abc"), 2) && !HasLength(None, 0) && HasLength(Some(""), 0)
    ensures HasMinLength(Some("abc"), 3) && !HasMinLength(Some("abc"), 4) && !HasMinLength(None, 0)
    ensures HasMaxLength(Some("abc"), 3) && !HasMaxLength(Some("abc"), 2) && !HasMaxLength(None, 0)
  {
    assert !IsWhiteSpace("abc"[0]);
    assert !IsWhiteSpace(" a "[1]);
  }
}
