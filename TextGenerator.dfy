/**
 * `TextGenerator`: random text generators, `Reverse`, `Slugify` and `WrapText`.
 *
 * Every value the generators draw from `Random.Shared` is a parameter: `picks[i]`
 * is the i-th result of `Random.Shared.Next(bound)`, so it lies in `[0, bound)`.
 */
module TextGenerator {
  import opened Wrappers
  import opened Chars
  import opened Strings
  import FormatValidators

  /* ---------- Alphabets ---------- */

  const UpperLetters: string := "ABCDEFGHIJKLMNOPQRSTUVWXYZ"
  const LowerLetters: string := "abcdefghijklmnopqrstuvwxyz"
  const DigitChars: string := "0123456789"
  const Letters: string := UpperLetters + LowerLetters
  const LettersDigits: string := Letters + DigitChars
  const SpecialChars: string := "!@#$%^&*()-_=+[]{}|;:'\",.<>?/`~"
  /** The alphabet of the private `GenerateRandomString(minLength, maxLength)`. */
  const LowerDigits: string := "abcdefghijklmnopqrstuvwxyz0123456789"

  /** The words `GenerateLoremIpsum` draws from. */
  const LoremWords: seq<string> := LoremRow1 + LoremRow2 + LoremRow3 + LoremRow4
  const LoremRow1: seq<string> := ["lorem", "ipsum", "dolor", "sit", "amet", "consectetur", "adipiscing", "elit", "sed", "do"]
  const LoremRow2: seq<string> := ["eiusmod", "tempor", "incididunt", "ut", "labore", "et", "dolore", "magna", "aliqua", "ut"]
  const LoremRow3: seq<string> := ["enim", "ad", "minim", "veniam", "quis", "nostrud", "exercitation", "ullamco", "laboris"]
  const LoremRow4: seq<string> := ["nisi", "ut", "aliquip", "ex", "ea", "commodo", "consequat"]

  lemma LettersAreLetters()
    ensures forall j :: 0 <= j < |Letters| ==> IsLetter(Letters[j])
  {
    forall j | 0 <= j < |UpperLetters| ensures IsUpper(UpperLetters[j]) {}
    forall j | 0 <= j < |LowerLetters| ensures IsLower(LowerLetters[j]) {}
    forall j | 0 <= j < |Letters| ensures IsLetter(Letters[j]) {
      if j < 26 { assert Letters[j] == UpperLetters[j]; }
      else { assert Letters[j] == LowerLetters[j - 26]; }
    }
  }

  lemma LettersDigitsAreLettersOrDigits()
    ensures forall j :: 0 <= j < |LettersDigits| ==> IsLetterOrDigit(LettersDigits[j])
  {
    LettersAreLetters();
    forall j | 0 <= j < |DigitChars| ensures IsDigit(DigitChars[j]) {}
    forall j | 0 <= j < |LettersDigits| ensures IsLetterOrDigit(LettersDigits[j]) {
      if j < 52 { assert LettersDigits[j] == Letters[j]; }
      else { assert LettersDigits[j] == DigitChars[j - 52]; }
    }
  }

  lemma LowerDigitsAreLowerOrDigits()
    ensures forall j :: 0 <= j < |LowerDigits| ==> IsLower(LowerDigits[j]) || IsDigit(LowerDigits[j])
  {
    forall j | 0 <= j < |LowerDigits| ensures IsLower(LowerDigits[j]) || IsDigit(LowerDigits[j]) {}
  }

  /* ---------- Drawing characters ---------- */

  /** Every pick is a valid index below `bound`. */
  predicate ValidPicks(picks: seq<int>, bound: int) {
    forall i :: 0 <= i < |picks| ==> 0 <= picks[i] < bound
  }

  /** `Enumerable.Range(0, n).Select(_ => chars[Random.Shared.Next(chars.Length)])`. */
  function Draw(chars: string, picks: seq<int>): (r: string)
    requires ValidPicks(picks, |chars|)
    ensures |r| == |picks|
    ensures forall i :: 0 <= i < |r| ==> r[i] in chars
  {
    seq(|picks|, i requires 0 <= i < |picks| => chars[picks[i]])
  }

  /** Some index of `c` in `chars`. */
  function IndexOf(chars: string, c: char): (k: int)
    requires c in chars
    ensures 0 <= k < |chars| && chars[k] == c
  {
    if chars[0] == c then 0 else 1 + IndexOf(chars[1..], c)
  }

  /** Every string over the alphabet is a possible outcome of the draws. */
  lemma DrawReachesEveryString(chars: string, s: string)
    requires forall i :: 0 <= i < |s| ==> s[i] in chars
    ensures exists picks :: ValidPicks(picks, |chars|) && Draw(chars, picks) == s
  {
    var picks := seq(|s|, i requires 0 <= i < |s| => IndexOf(chars, s[i]));
    assert ValidPicks(picks, |chars|);
    assert Draw(chars, picks) == s;
  }

  /* ---------- Generators ---------- */

  function GenerateRandomString(length: nat, picks: seq<int>): (r: string)
    requires |picks| == length && ValidPicks(picks, |LettersDigits|)
    ensures |r| == length
    ensures forall i :: 0 <= i < |r| ==> IsLetterOrDigit(r[i])
  {
    LettersDigitsAreLettersOrDigits();
    Draw(LettersDigits, picks)
  }

  function GenerateRandomAlpha(length: nat, picks: seq<int>): (r: string)
    requires |picks| == length && ValidPicks(picks, |Letters|)
    ensures |r| == length
    ensures forall i :: 0 <= i < |r| ==> IsLetter(r[i])
  {
    LettersAreLetters();
    Draw(Letters, picks)
  }

  /** The same generator as `GenerateRandomString`. */
  function GenerateRandomAlphaNumeric(length: nat, picks: seq<int>): (r: string)
    requires |picks| == length && ValidPicks(picks, |LettersDigits|)
    ensures |r| == length
    ensures forall i :: 0 <= i < |r| ==> IsLetterOrDigit(r[i])
  {
    GenerateRandomString(length, picks)
  }

  function PasswordAlphabet(includeSpecial: bool): string {
    LettersDigits + (if includeSpecial then SpecialChars else "")
  }

  function GenerateRandomPassword(length: nat, includeSpecial: bool, picks: seq<int>): (r: string)
    requires |picks| == length && ValidPicks(picks, |PasswordAlphabet(includeSpecial)|)
    ensures |r| == length
    ensures forall i :: 0 <= i < |r| ==> r[i] in LettersDigits || (includeSpecial && r[i] in SpecialChars)
    ensures !includeSpecial ==> forall i :: 0 <= i < |r| ==> IsLetterOrDigit(r[i])
  {
    LettersDigitsAreLettersOrDigits();
    var chars := PasswordAlphabet(includeSpecial);
    assert forall c :: c in chars ==> c in LettersDigits || (includeSpecial && c in SpecialChars);
    Draw(chars, picks)
  }

  /** With special characters included, a password may hold any of them. */
  lemma PasswordMayHoldSpecial(length: nat, c: char)
    requires length > 0 && c in SpecialChars
    ensures exists picks :: (|picks| == length && ValidPicks(picks, |PasswordAlphabet(true)|) &&
      c in GenerateRandomPassword(length, true, picks))
  {
    var chars := PasswordAlphabet(true);
    assert chars == LettersDigits + SpecialChars;
    var k := |LettersDigits| + IndexOf(SpecialChars, c);
    assert chars[k] == c;
    var picks := seq(length, i => k);
    assert ValidPicks(picks, |chars|);
    var r := GenerateRandomPassword(length, true, picks);
    assert r == Draw(chars, picks);
    assert r[0] == chars[picks[0]];
  }

  /** `string.Join(" ", …)` of `words` corpus words; "" when `words <= 0`. */
  function GenerateLoremIpsum(words: int, picks: seq<int>): (r: string)
    requires words > 0 ==> |picks| == words && ValidPicks(picks, |LoremWords|)
    ensures words <= 0 ==> r == ""
    ensures words > 0 ==> |Split(r, " ")| == words
    ensures r == Join(Split(r, " "))
    ensures forall k :: 0 <= k < |Split(r, " ")| ==> Split(r, " ")[k] in LoremWords
  {
    if words <= 0 then ""
    else
      var chosen := seq(words, i requires 0 <= i < words => LoremWords[picks[i]]);
      LoremWordsAreWords();
      SplitJoin(chosen, " ");
      Join(chosen)
  }

  /** Every word of `ws` is a non-empty run of lower-case letters. */
  predicate LowerWords(ws: seq<string>) {
    forall k :: 0 <= k < |ws| ==> ws[k] != [] && forall i :: 0 <= i < |ws[k]| ==> 'a' <= ws[k][i] <= 'z'
  }

  lemma LowerWordsAreWords(ws: seq<string>)
    requires LowerWords(ws)
    ensures forall k :: 0 <= k < |ws| ==> IsWord(ws[k], " ")
  {
    forall k, i | 0 <= k < |ws| && 0 <= i < |ws[k]| ensures ws[k][i] !in " " {
      assert 'a' <= ws[k][i] <= 'z';
    }
  }

  lemma LoremRow1IsLower() ensures LowerWords(LoremRow1) { }
  lemma LoremRow2IsLower() ensures LowerWords(LoremRow2) { }
  lemma LoremRow3IsLower() ensures LowerWords(LoremRow3) { }
  lemma LoremRow4IsLower() ensures LowerWords(LoremRow4) { }

  lemma LoremWordsAreWords()
    ensures forall k :: 0 <= k < |LoremWords| ==> IsWord(LoremWords[k], " ")
  {
    LoremRow1IsLower();
    LoremRow2IsLower();
    LoremRow3IsLower();
    LoremRow4IsLower();
    assert LowerWords(LoremWords);
    LowerWordsAreWords(LoremWords);
  }

  /** Ten digits, after "+" and the country code when one is given. */
  function GenerateRandomPhoneNumber(countryCode: Option<string>, digits: seq<int>): (r: string)
    requires |digits| == 10 && ValidPicks(digits, 10)
    ensures |r| >= 10 && forall i :: |r| - 10 <= i < |r| ==> IsDigit(r[i])
    ensures IsNullOrWhiteSpace(countryCode) <==> |r| == 10
    ensures !IsNullOrWhiteSpace(countryCode) ==> r[0] == '+' && r[1..|r| - 10] == countryCode.value
  {
    var number := seq(10, i requires 0 <= i < 10 => DigitChar(digits[i]));
    if IsNullOrWhiteSpace(countryCode) then number
    else
      var r := "+" + countryCode.value + number;
      assert r[1..|r| - 10] == countryCode.value;
      r
  }

  /** Only lower-case ASCII letters and digits. */
  predicate LowerOrDigits(s: string) {
    forall i :: 0 <= i < |s| ==> IsLower(s[i]) || IsDigit(s[i])
  }

  /** A lower-case user of 6 to 12 characters, "@", a domain of 5 to 8, and ".com". */
  function GenerateRandomEmail(userLength: int, userPicks: seq<int>, domainLength: int, domainPicks: seq<int>): (r: string)
    requires 6 <= userLength <= 12 && |userPicks| == userLength && ValidPicks(userPicks, |LowerDigits|)
    requires 5 <= domainLength <= 8 && |domainPicks| == domainLength && ValidPicks(domainPicks, |LowerDigits|)
    ensures FormatValidators.IsEmail(Some(r))
    ensures exists u, d :: (r == u + "@" + d + ".com" && 6 <= |u| <= 12 && 5 <= |d| <= 8 &&
      LowerOrDigits(u) && LowerOrDigits(d))
  {
    var u := ToLowerInvariant(Draw(LowerDigits, userPicks));
    var d := ToLowerInvariant(Draw(LowerDigits, domainPicks));
    DrawnAreLowerOrDigits(userPicks);
    DrawnAreLowerOrDigits(domainPicks);
    EmailOfLowerDigits(u, d);
    u + "@" + d + ".com"
  }

  /** Drawing from the lower-case letters and digits and lower-casing yields only those. */
  lemma DrawnAreLowerOrDigits(picks: seq<int>)
    requires ValidPicks(picks, |LowerDigits|)
    ensures LowerOrDigits(ToLowerInvariant(Draw(LowerDigits, picks)))
  {
    LowerDigitsAreLowerOrDigits();
    var w := Draw(LowerDigits, picks);
    forall i | 0 <= i < |picks|
      ensures IsLower(ToLowerInvariant(w)[i]) || IsDigit(ToLowerInvariant(w)[i])
    {
      assert w[i] == LowerDigits[picks[i]];
    }
  }

  lemma EmailOfLowerDigits(u: string, d: string)
    requires u != [] && d != []
    requires LowerOrDigits(u) && LowerOrDigits(d)
    ensures FormatValidators.IsEmail(Some(u + "@" + d + ".com"))
  {
    var r := u + "@" + d + ".com";
    var i, j := |u|, |u| + 1 + |d|;
    assert r[..i] == u && r[i + 1..j] == d && r[j + 1..] == "com";
    assert r[i] == '@' && r[j] == '.';
    assert FormatValidators.NotAtOrSpacePlus(r[j + 1..]);
    assert FormatValidators.EmailShape(r);
  }

  /* ---------- Reverse ---------- */

  /** The characters of `s` in the opposite order. */
  function Reversed(s: string): (r: string)
    ensures |r| == |s|
    ensures forall i :: 0 <= i < |s| ==> r[i] == s[|s| - 1 - i]
  {
    if s == [] then [] else Reversed(s[1..]) + [s[0]]
  }

  lemma ReversedInvolution(s: string)
    ensures Reversed(Reversed(s)) == s
  {
    assert forall i :: 0 <= i < |s| ==> Reversed(Reversed(s))[i] == s[i];
  }

  /** `Array.Reverse`: swaps pairs from both ends towards the middle. */
  method ReverseInPlace(a: array<char>)
    modifies a
    ensures a[..] == Reversed(old(a[..]))
  {
    var i, j := 0, a.Length - 1;
    while i < j
      invariant 0 <= i <= j + 1 <= a.Length
      invariant i + j == a.Length - 1
      invariant forall k :: 0 <= k < i || j < k < a.Length ==> a[k] == old(a[a.Length - 1 - k])
      invariant forall k :: i <= k <= j ==> a[k] == old(a[k])
    {
      a[i], a[j] := a[j], a[i];
      i, j := i + 1, j - 1;
    }
  }

  /** Null and "" come back as they are; anything else reversed through a char array. */
  method Reverse(input: Option<string>) returns (r: Option<string>)
    ensures r.None? <==> input.None?
    ensures r.Some? ==> r.value == Reversed(input.value)
  {
    if IsNullOrEmpty(input) {
      return input;
    }
    var s := input.value;
    var a := new char[|s|](i requires 0 <= i < |s| => s[i]);
    assert a[..] == s;
    ReverseInPlace(a);
    return Some(a[..]);
  }

  lemma ReverseExample()
    ensures Reversed("abc") == "cba" && Reversed("") == ""
  {
  }

  /* ---------- Slugify ---------- */

  /** The characters of `s` that satisfy `p`, in order. */
  function Keep(s: string, p: char -> bool): (r: string)
    ensures |r| <= |s|
    ensures forall i :: 0 <= i < |r| ==> p(r[i])
  {
    if s == [] then [] else Keep(s[..|s| - 1], p) + (if p(s[|s| - 1]) then [s[|s| - 1]] else [])
  }

  lemma {:induction false} KeepAppend(a: string, b: string, p: char -> bool)
    ensures Keep(a + b, p) == Keep(a, p) + Keep(b, p)
  {
    if b == [] {
      assert a + b == a;
    } else {
      assert (a + b)[..|a + b| - 1] == a + b[..|b| - 1];
      KeepAppend(a, b[..|b| - 1], p);
    }
  }

  /** Keeping every character of `s`. */
  lemma {:induction false} KeepAll(s: string, p: char -> bool)
    requires forall i :: 0 <= i < |s| ==> p(s[i])
    ensures Keep(s, p) == s
  {
    if s != [] {
      KeepAll(s[..|s| - 1], p);
    }
  }

  /** Keeping none of the characters of `s`. */
  lemma {:induction false} KeepNone(s: string, p: char -> bool)
    requires forall i :: 0 <= i < |s| ==> !p(s[i])
    ensures Keep(s, p) == []
  {
    if s != [] {
      KeepNone(s[..|s| - 1], p);
    }
  }

  /** Filtering twice by nested classes is filtering once by the smaller. */
  lemma {:induction false} KeepKeep(s: string, p: char -> bool, q: char -> bool)
    requires forall c :: q(c) ==> p(c)
    ensures Keep(Keep(s, p), q) == Keep(s, q)
  {
    if s != [] {
      var t, c := s[..|s| - 1], s[|s| - 1];
      KeepKeep(t, p, q);
      KeepAppend(Keep(t, p), if p(c) then [c] else [], q);
    }
  }

  /** The characters line 75 appends to the builder: `letterOrDigit` stands for the
      Unicode `char.IsLetterOrDigit`, which is never true of a non-spacing mark. */
  function KeptForSlug(letterOrDigit: char -> bool): char -> bool {
    c => letterOrDigit(c) || c == ' '
  }

  /** Length of the run of white space that `s` starts with. */
  function WhiteSpaceRun(s: string): (n: nat)
    ensures n <= |s|
    ensures forall i :: 0 <= i < n ==> IsWhiteSpace(s[i])
    ensures n < |s| ==> !IsWhiteSpace(s[n])
  {
    if s == [] || !IsWhiteSpace(s[0]) then 0 else 1 + WhiteSpaceRun(s[1..])
  }

  /** `Regex.Replace(s, @"\s+", "-")`: each maximal run of white space becomes one '-'. */
  function DashWhiteSpace(s: string): (r: string)
    ensures forall i :: 0 <= i < |r| ==> !IsWhiteSpace(r[i])
    decreases |s|
  {
    if s == [] then []
    else if IsWhiteSpace(s[0]) then "-" + DashWhiteSpace(s[WhiteSpaceRun(s)..])
    else [s[0]] + DashWhiteSpace(s[1..])
  }

  /** Keeping from a string with a known first character. */
  lemma {:induction false} KeepCons(c: char, s: string, p: char -> bool)
    ensures Keep([c] + s, p) == (if p(c) then [c] else []) + Keep(s, p)
  {
    KeepAppend([c], s, p);
    var one: string := [c];
    assert one[..0] == [];
    assert Keep(one, p) == Keep([], p) + (if p(c) then [c] else []);
  }

  /** The dash that replaces a leading run of white space is not kept. */
  lemma DashWhiteSpaceRunStep(s: string)
    requires s != [] && IsWhiteSpace(s[0])
    ensures Keep(DashWhiteSpace(s), IsLetterOrDigit) == Keep(DashWhiteSpace(s[WhiteSpaceRun(s)..]), IsLetterOrDigit)
  {
    var d := DashWhiteSpace(s[WhiteSpaceRun(s)..]);
    assert DashWhiteSpace(s) == "-" + d;
    KeepCons('-', d, IsLetterOrDigit);
    assert [] + Keep(d, IsLetterOrDigit) == Keep(d, IsLetterOrDigit);
  }

  /** Nor is anything of the leading run of white space itself. */
  lemma {:induction false} WhiteSpaceRunStep(s: string)
    ensures Keep(s, IsLetterOrDigit) == Keep(s[WhiteSpaceRun(s)..], IsLetterOrDigit)
    decreases |s|
  {
    if s != [] && IsWhiteSpace(s[0]) {
      WhiteSpaceRunStep(s[1..]);
      WhiteSpaceRunTail(s);
      KeepDropsWhiteSpace(s);
    }
  }

  /** After a white space character, the run goes on in the rest of the string. */
  lemma WhiteSpaceRunTail(s: string)
    requires s != [] && IsWhiteSpace(s[0])
    ensures s[WhiteSpaceRun(s)..] == s[1..][WhiteSpaceRun(s[1..])..]
  {
    var n := WhiteSpaceRun(s[1..]);
    assert WhiteSpaceRun(s) == 1 + n;
  }

  /** A leading white space character is not kept. */
  lemma KeepDropsWhiteSpace(s: string)
    requires s != [] && IsWhiteSpace(s[0])
    ensures Keep(s, IsLetterOrDigit) == Keep(s[1..], IsLetterOrDigit)
  {
    assert s == [s[0]] + s[1..];
    KeepCons(s[0], s[1..], IsLetterOrDigit);
    WhiteSpaceIsNotLetterOrDigit(s[0]);
  }

  /** A leading character that is not white space is copied by both sides. */
  lemma DashWhiteSpaceCharStep(s: string)
    requires s != [] && !IsWhiteSpace(s[0])
    ensures Keep(DashWhiteSpace(s), IsLetterOrDigit)
         == (if IsLetterOrDigit(s[0]) then [s[0]] else []) + Keep(DashWhiteSpace(s[1..]), IsLetterOrDigit)
    ensures Keep(s, IsLetterOrDigit)
         == (if IsLetterOrDigit(s[0]) then [s[0]] else []) + Keep(s[1..], IsLetterOrDigit)
  {
    KeepCons(s[0], DashWhiteSpace(s[1..]), IsLetterOrDigit);
    assert s == [s[0]] + s[1..];
    KeepCons(s[0], s[1..], IsLetterOrDigit);
  }

  /** Replacing white space by dashes leaves the letters and digits as they were. */
  lemma {:induction false} DashWhiteSpaceKeepsLettersAndDigits(s: string)
    ensures Keep(DashWhiteSpace(s), IsLetterOrDigit) == Keep(s, IsLetterOrDigit)
    decreases |s|
  {
    if s == [] {
    } else if IsWhiteSpace(s[0]) {
      DashWhiteSpaceKeepsLettersAndDigits(s[WhiteSpaceRun(s)..]);
      DashWhiteSpaceRunStep(s);
      WhiteSpaceRunStep(s);
    } else {
      DashWhiteSpaceKeepsLettersAndDigits(s[1..]);
      DashWhiteSpaceCharStep(s);
    }
  }

  /** The characters `[a-zA-Z0-9\-]` that line 83 leaves in place. */
  predicate IsSlugChar(c: char) {
    IsLetterOrDigit(c) || c == '-'
  }

  /** `Slugify`, with `formD` standing for `Normalize(NormalizationForm.FormD)`. */
  function SlugText(input: Option<string>, formD: string -> string, letterOrDigit: char -> bool): (r: string)
    ensures IsNullOrWhiteSpace(input) ==> r == []
    ensures forall i :: 0 <= i < |r| ==> IsLower(r[i]) || IsDigit(r[i]) || r[i] == '-'
  {
    if IsNullOrWhiteSpace(input) then ""
    else ToLowerInvariant(Keep(DashWhiteSpace(Keep(formD(input.value), KeptForSlug(letterOrDigit))), IsSlugChar))
  }

  /** The builder loop of lines 70-79, then the two replacements and the lower-casing. */
  method Slugify(input: Option<string>, formD: string -> string, letterOrDigit: char -> bool) returns (slug: string)
    ensures slug == SlugText(input, formD, letterOrDigit)
  {
    if IsNullOrWhiteSpace(input) {
      return "";
    }
    var normalized := formD(input.value);
    var sb := "";
    var i := 0;
    while i < |normalized|
      invariant 0 <= i <= |normalized|
      invariant sb == Keep(normalized[..i], KeptForSlug(letterOrDigit))
    {
      var c := normalized[i];
      assert normalized[..i + 1][..i] == normalized[..i];
      if letterOrDigit(c) || c == ' ' {
        sb := sb + [c];
      }
      i := i + 1;
    }
    assert normalized[..|normalized|] == normalized;
    slug := DashWhiteSpace(sb);
    slug := Keep(slug, IsSlugChar);
    slug := ToLowerInvariant(slug);
  }

  /** Lower-casing commutes with keeping the letters and digits. */
  lemma {:induction false} KeepLower(s: string)
    ensures Keep(ToLowerInvariant(s), IsLetterOrDigit) == ToLowerInvariant(Keep(s, IsLetterOrDigit))
  {
    if s != [] {
      var t, c := s[..|s| - 1], s[|s| - 1];
      assert s == t + [c];
      ToLowerInvariantAppend(t, [c]);
      assert ToLowerInvariant([c]) == [ToLower(c)];
      KeepLower(t);
      ToLowerInvariantAppend(Keep(t, IsLetterOrDigit), if IsLetterOrDigit(c) then [c] else []);
    }
  }

  /** The slug holds exactly the ASCII letters and digits of the normalised input,
      lower-cased and in order; every other character of it is '-'. */
  lemma SlugKeepsLettersAndDigits(input: Option<string>, formD: string -> string, letterOrDigit: char -> bool)
    requires forall c :: IsLetterOrDigit(c) ==> letterOrDigit(c)
    requires !IsNullOrWhiteSpace(input)
    ensures Keep(SlugText(input, formD, letterOrDigit), IsLetterOrDigit) ==
      ToLowerInvariant(Keep(formD(input.value), IsLetterOrDigit))
  {
    var t := formD(input.value);
    var kept := Keep(t, KeptForSlug(letterOrDigit));
    var dashed := DashWhiteSpace(kept);
    KeepLower(Keep(dashed, IsSlugChar));
    KeepKeep(dashed, IsSlugChar, IsLetterOrDigit);
    DashWhiteSpaceKeepsLettersAndDigits(kept);
    KeepKeep(t, KeptForSlug(letterOrDigit), IsLetterOrDigit);
  }

  /** Text without white space passes through the dash replacement unchanged. */
  lemma {:induction false} DashWhiteSpacePlain(a: string, t: string)
    requires forall i :: 0 <= i < |a| ==> !IsWhiteSpace(a[i])
    ensures DashWhiteSpace(a + t) == a + DashWhiteSpace(t)
  {
    if a != [] {
      assert (a + t)[0] == a[0];
      assert (a + t)[1..] == a[1..] + t;
      assert DashWhiteSpace(a + t) == [a[0]] + DashWhiteSpace(a[1..] + t);
      DashWhiteSpacePlain(a[1..], t);
      assert a + DashWhiteSpace(t) == [a[0]] + (a[1..] + DashWhiteSpace(t));
    } else {
      assert a + t == t;
    }
  }

  lemma HelloWorldIsKept()
    ensures Keep("Hello World", KeptForSlug(IsLetterOrDigit)) == "Hello World"
  {
    var s := "Hello World";
    forall i | 0 <= i < |s| ensures IsLetterOrDigit(s[i]) || s[i] == ' ' {
    }
    KeepAll(s, KeptForSlug(IsLetterOrDigit));
  }

  lemma BangIsDropped()
    ensures Keep("!", KeptForSlug(IsLetterOrDigit)) == []
  {
    assert "!"[0] == '!' && !IsLetterOrDigit('!');
    KeepNone("!", KeptForSlug(IsLetterOrDigit));
  }

  lemma SlugifyKeptExample()
    ensures Keep("Hello World!", KeptForSlug(IsLetterOrDigit)) == "Hello World"
  {
    assert "Hello World!" == "Hello World" + "!";
    KeepAppend("Hello World", "!", KeptForSlug(IsLetterOrDigit));
    HelloWorldIsKept();
    BangIsDropped();
  }

  /** A single leading space, followed by no white space, becomes one dash. */
  lemma DashLeadingSpace(b: string)
    requires forall i :: 0 <= i < |b| ==> !IsWhiteSpace(b[i])
    ensures DashWhiteSpace(" " + b) == "-" + b
  {
    var w := " " + b;
    assert w[1..] == b;
    assert WhiteSpaceRun(w[1..]) == 0;
    assert WhiteSpaceRun(w) == 1;
    assert b + [] == b;
    DashWhiteSpacePlain(b, []);
  }

  /** One space between two runs of other characters becomes one dash. */
  lemma DashOneSpace(a: string, b: string)
    requires forall i :: 0 <= i < |a| ==> !IsWhiteSpace(a[i])
    requires forall i :: 0 <= i < |b| ==> !IsWhiteSpace(b[i])
    ensures DashWhiteSpace(a + " " + b) == a + "-" + b
  {
    var spaced: string := " " + b;
    assert a + " " + b == a + spaced;
    DashWhiteSpacePlain(a, spaced);
    DashLeadingSpace(b);
    assert a + ("-" + b) == a + "-" + b;
  }

  lemma SlugifyDashExample()
    ensures DashWhiteSpace("Hello World") == "Hello-World"
  {
    HelloHasNoWhiteSpace();
    WorldHasNoWhiteSpace();
    DashOneSpace("Hello", "World");
    HelloWorldSpaced();
    HelloWorldDashed();
  }

  lemma HelloHasNoWhiteSpace() ensures forall i :: 0 <= i < |"Hello"| ==> !IsWhiteSpace("Hello"[i]) { }
  lemma WorldHasNoWhiteSpace() ensures forall i :: 0 <= i < |"World"| ==> !IsWhiteSpace("World"[i]) { }
  lemma HelloWorldSpaced() ensures "Hello" + " " + "World" == "Hello World" { }
  lemma HelloWorldDashed() ensures "Hello" + "-" + "World" == "Hello-World" { }

  lemma SlugCharsAreKept()
    ensures Keep("Hello-World", IsSlugChar) == "Hello-World"
  {
    var d := "Hello-World";
    forall i | 0 <= i < |d| ensures IsSlugChar(d[i]) {}
    KeepAll(d, IsSlugChar);
  }

  lemma SlugifyLowerExample()
    ensures ToLowerInvariant(Keep("Hello-World", IsSlugChar)) == "hello-world"
  {
    SlugCharsAreKept();
    var d := "Hello-World";
    var l := ToLowerInvariant(d);
    assert forall i :: 0 <= i < |d| ==> l[i] == ToLower(d[i]);
  }

  /** The library's own examples, on ASCII text where normalisation changes nothing. */
  lemma SlugifyExamples()
    ensures SlugText(Some("Hello World!"), s => s, IsLetterOrDigit) == "hello-world"
    ensures SlugText(Some(""), s => s, IsLetterOrDigit) == "" && SlugText(Some("   "), s => s, IsLetterOrDigit) == ""
  {
    SlugifyKeptExample();
    SlugifyDashExample();
    SlugifyLowerExample();
    assert IsWhiteSpace("   "[0]) && IsWhiteSpace("   "[1]) && IsWhiteSpace("   "[2]);
  }

  /* ---------- WrapText ---------- */

  /** The characters `WrapText` splits the input on. */
  const WrapSeparators: seq<char> := [' ', '\t', '\r', '\n']

  /** What the builder holds for a line: each word followed by one space. */
  function Spaced(line: seq<string>): (r: string)
    ensures r == [] <==> line == []
  {
    if line == [] then "" else Spaced(line[..|line| - 1]) + line[|line| - 1] + " "
  }

  lemma SpacedOne(w: string)
    ensures Spaced([w]) == w + " "
  {
    assert [w][..0] == [];
    assert "" + w == w;
  }

  lemma SpacedSnoc(line: seq<string>, w: string)
    ensures Spaced(line + [w]) == Spaced(line) + w + " "
  {
    assert (line + [w])[..|line|] == line;
  }

  lemma {:induction false} JoinSnoc(ws: seq<string>, w: string)
    requires ws != []
    ensures Join(ws + [w]) == Join(ws) + " " + w
  {
    if |ws| > 1 {
      assert (ws + [w])[1..] == ws[1..] + [w];
      JoinSnoc(ws[1..], w);
    } else {
      assert ws + [w] == [ws[0], w];
      assert [ws[0], w][1..] == [w];
    }
  }

  /** The builder's text is the line's words joined by single spaces, plus one space. */
  lemma {:induction false} SpacedIsJoin(line: seq<string>)
    requires line != []
    ensures Spaced(line) == Join(line) + " "
  {
    if |line| > 1 {
      var init, last := line[..|line| - 1], line[|line| - 1];
      SpacedIsJoin(init);
      assert line == init + [last];
      JoinSnoc(init, last);
    } else {
      assert line[..0] == [];
    }
  }

  /** The state of the loop of lines 168-180 after `words`: the lines already
      yielded, and the words of the line being built. */
  function Fill(words: seq<string>, max: int): (seq<seq<string>>, seq<string>)
  {
    if words == [] then ([], [])
    else
      var (done, current) := Fill(words[..|words| - 1], max);
      var w := words[|words| - 1];
      if |Spaced(current)| + |w| + 1 > max && current != [] then (done + [current], [w])
      else (done, current + [w])
  }

  /** Every line that `WrapText` yields, as its sequence of words. */
  function Grouped(words: seq<string>, max: int): seq<seq<string>>
  {
    var (done, current) := Fill(words, max);
    if current == [] then done else done + [current]
  }

  /** Each line as the source yields it: the builder's text with `TrimEnd` applied. */
  function Rendered(groups: seq<seq<string>>): (lines: seq<string>)
    ensures |lines| == |groups|
  {
    seq(|groups|, k requires 0 <= k < |groups| => TrimEnd(Spaced(groups[k])))
  }

  /** `WrapText(input, maxLineLength)`, as written. */
  function WrapTextAsWritten(input: Option<string>, maxLineLength: int): (lines: seq<string>)
  {
    if IsNullOrWhiteSpace(input) || maxLineLength <= 0 then []
    else Rendered(Grouped(Split(input.value, WrapSeparators), maxLineLength))
  }

  /** One more word for the loop of lines 168-180. */
  lemma FillSnoc(init: seq<string>, w: string, max: int)
    ensures Fill(init + [w], max) ==
      if |Spaced(Fill(init, max).1)| + |w| + 1 > max && Fill(init, max).1 != [] then
        (Fill(init, max).0 + [Fill(init, max).1], [w])
      else
        (Fill(init, max).0, Fill(init, max).1 + [w])
  {
    assert (init + [w])[..|init|] == init;
  }

  lemma RenderedSnoc(groups: seq<seq<string>>, g: seq<string>)
    ensures Rendered(groups + [g]) == Rendered(groups) + [TrimEnd(Spaced(g))]
  {
  }

  /** What lines 182-183 add once the loop is over: the builder text, when there is any. */
  lemma LoopDone(words: seq<string>, max: int)
    ensures var line := Spaced(Fill(words, max).1);
      Rendered(Grouped(words, max)) ==
        if |line| > 0 then Rendered(Fill(words, max).0) + [TrimEnd(line)] else Rendered(Fill(words, max).0)
  {
    if Fill(words, max).1 != [] {
      RenderedSnoc(Fill(words, max).0, Fill(words, max).1);
    }
  }

  /** What one turn of the loop does to the builder text and to the yielded lines. */
  lemma LoopStep(init: seq<string>, w: string, max: int)
    ensures var line := Spaced(Fill(init, max).1);
      if |line| + |w| + 1 > max && |line| > 0 then
        Rendered(Fill(init + [w], max).0) == Rendered(Fill(init, max).0) + [TrimEnd(line)] &&
        Spaced(Fill(init + [w], max).1) == "" + w + " "
      else
        Rendered(Fill(init + [w], max).0) == Rendered(Fill(init, max).0) &&
        Spaced(Fill(init + [w], max).1) == line + w + " "
  {
    FillSnoc(init, w, max);
    var done, current := Fill(init, max).0, Fill(init, max).1;
    if |Spaced(current)| + |w| + 1 > max && current != [] {
      RenderedSnoc(done, current);
      SpacedOne(w);
    } else {
      SpacedSnoc(current, w);
    }
  }

  /** The iterator of lines 160-184, with the yielded lines collected in order. */
  method WrapText(input: Option<string>, maxLineLength: int) returns (lines: seq<string>)
    ensures lines == WrapTextAsWritten(input, maxLineLength)
  {
    lines := [];
    if IsNullOrWhiteSpace(input) || maxLineLength <= 0 {
      return;
    }
    var words := Split(input.value, WrapSeparators);
    var currentLine := "";
    var i := 0;
    while i < |words|
      invariant 0 <= i <= |words|
      invariant currentLine == Spaced(Fill(words[..i], maxLineLength).1)
      invariant lines == Rendered(Fill(words[..i], maxLineLength).0)
    {
      var word := words[i];
      assert words[..i + 1] == words[..i] + [word];
      LoopStep(words[..i], word, maxLineLength);
      if |currentLine| + |word| + 1 > maxLineLength {
        if |currentLine| > 0 {
          lines := lines + [TrimEnd(currentLine)];
          currentLine := "";
        }
      }
      currentLine := currentLine + word + " ";
      i := i + 1;
    }
    assert words[..|words|] == words;
    LoopDone(words, maxLineLength);
    if |currentLine| > 0 {
      lines := lines + [TrimEnd(currentLine)];
    }
  }

  /** All the words of `groups`, in order. */
  function Flatten(groups: seq<seq<string>>): seq<string>
  {
    if groups == [] then [] else Flatten(groups[..|groups| - 1]) + groups[|groups| - 1]
  }

  lemma FlattenSnoc(groups: seq<seq<string>>, g: seq<string>)
    ensures Flatten(groups + [g]) == Flatten(groups) + g
  {
    assert (groups + [g])[..|groups|] == groups;
  }

  /** The greedy shape of the grouping: no line is empty, the builder text of a line of
      two or more words is at most `max` long, and every line after the first was
      started because its first word did not fit on the line before. */
  predicate Greedy(groups: seq<seq<string>>, max: int) {
    forall k :: 0 <= k < |groups| ==>
      groups[k] != [] &&
      (|groups[k]| >= 2 ==> |Spaced(groups[k])| <= max) &&
      (k > 0 ==> |Spaced(groups[k - 1])| + |groups[k][0]| + 1 > max)
  }

  /** The condition of lines 170 and 172: the word does not fit and the builder holds a line. */
  predicate StartsNewLine(current: seq<string>, w: string, max: int) {
    |Spaced(current)| + |w| + 1 > max && current != []
  }

  /** One more word: it starts a new line, or it extends the line being built. */
  lemma GroupedSnoc(init: seq<string>, w: string, max: int)
    ensures Fill(init, max).1 == [] <==> init == []
    ensures StartsNewLine(Fill(init, max).1, w, max) ==>
      Grouped(init, max) == Fill(init, max).0 + [Fill(init, max).1] &&
      Grouped(init + [w], max) == Grouped(init, max) + [[w]]
    ensures !StartsNewLine(Fill(init, max).1, w, max) ==>
      Grouped(init + [w], max) == Fill(init, max).0 + [Fill(init, max).1 + [w]]
  {
    assert (init + [w])[..|init|] == init;
  }

  /** The loop keeps every word, in order. */
  lemma {:induction false} GroupedKeepsWords(words: seq<string>, max: int)
    ensures Flatten(Grouped(words, max)) == words
  {
    if words != [] {
      var init, w := words[..|words| - 1], words[|words| - 1];
      assert words == init + [w];
      GroupedKeepsWords(init, max);
      GroupedSnoc(init, w, max);
      var done, cur := Fill(init, max).0, Fill(init, max).1;
      if StartsNewLine(cur, w, max) {
        FlattenSnoc(Grouped(init, max), [w]);
      } else {
        FlattenSnoc(done, cur + [w]);
        if cur != [] {
          assert Grouped(init, max) == done + [cur];
          FlattenSnoc(done, cur);
        }
      }
    }
  }

  /** Every word of a line is one of the input's words. */
  lemma GroupedWordsAreWords(words: seq<string>, max: int)
    ensures forall k, j :: 0 <= k < |Grouped(words, max)| && 0 <= j < |Grouped(words, max)[k]| ==>
      Grouped(words, max)[k][j] in words
  {
    var gs := Grouped(words, max);
    GroupedKeepsWords(words, max);
    forall k, j | 0 <= k < |gs| && 0 <= j < |gs[k]| ensures gs[k][j] in words {
      InFlatten(gs, k, j);
    }
  }

  lemma {:induction false} InFlatten(gs: seq<seq<string>>, k: int, j: int)
    requires 0 <= k < |gs| && 0 <= j < |gs[k]|
    ensures gs[k][j] in Flatten(gs)
  {
    var init, last := gs[..|gs| - 1], gs[|gs| - 1];
    assert gs == init + [last];
    FlattenSnoc(init, last);
    if k < |gs| - 1 {
      assert gs[k] == init[k];
      InFlatten(init, k, j);
    } else {
      assert Flatten(gs)[|Flatten(init)| + j] == last[j];
    }
  }

  /** A word that does not fit starts a line of its own. */
  lemma GreedyNewLine(before: seq<seq<string>>, w: string, max: int)
    requires Greedy(before, max) && before != []
    requires |Spaced(before[|before| - 1])| + |w| + 1 > max
    ensures Greedy(before + [[w]], max)
  {
    var after := before + [[w]];
    forall k | 0 <= k < |after|
      ensures after[k] != [] && (|after[k]| >= 2 ==> |Spaced(after[k])| <= max) &&
        (k > 0 ==> |Spaced(after[k - 1])| + |after[k][0]| + 1 > max)
    {
      if k < |before| {
        assert after[k] == before[k];
        if k > 0 { assert after[k - 1] == before[k - 1]; }
      } else {
        assert after[k] == [w] && after[k - 1] == before[|before| - 1];
      }
    }
  }

  /** A word that fits extends the line being built. */
  lemma GreedyExtendLine(done: seq<seq<string>>, cur: seq<string>, w: string, max: int)
    requires Greedy(done + [cur], max) && cur != []
    requires |Spaced(cur)| + |w| + 1 <= max
    ensures Greedy(done + [cur + [w]], max)
  {
    var before, after := done + [cur], done + [cur + [w]];
    SpacedSnoc(cur, w);
    forall k | 0 <= k < |after|
      ensures after[k] != [] && (|after[k]| >= 2 ==> |Spaced(after[k])| <= max) &&
        (k > 0 ==> |Spaced(after[k - 1])| + |after[k][0]| + 1 > max)
    {
      if k > 0 { assert after[k - 1] == before[k - 1]; }
      if k < |done| {
        assert after[k] == before[k];
      } else {
        assert after[k] == cur + [w] && before[k] == cur;
        assert after[k][0] == cur[0];
      }
    }
  }

  /** One more word keeps the grouping greedy. */
  lemma GreedySnoc(init: seq<string>, w: string, max: int)
    requires Greedy(Grouped(init, max), max)
    ensures Greedy(Grouped(init + [w], max), max)
  {
    GroupedSnoc(init, w, max);
    var done, cur := Fill(init, max).0, Fill(init, max).1;
    if StartsNewLine(cur, w, max) {
      GreedyNewLine(Grouped(init, max), w, max);
    } else if cur == [] {
      assert Grouped(init + [w], max) == [[w]];
    } else {
      assert Grouped(init, max) == done + [cur];
      GreedyExtendLine(done, cur, w, max);
    }
  }

  /** The loop fills lines greedily. */
  lemma {:induction false} GroupedIsGreedy(words: seq<string>, max: int)
    ensures Greedy(Grouped(words, max), max)
  {
    if words != [] {
      var init, w := words[..|words| - 1], words[|words| - 1];
      GroupedIsGreedy(init, max);
      GreedySnoc(init, w, max);
      assert words == init + [w];
    }
  }

  /** The words a line is made of. */
  function LineWords(line: string): seq<string> {
    Split(line, WrapSeparators)
  }

  /** `WrapText` as its summary describes it: each line is its words joined by single
      spaces, with nothing trimmed from the words themselves. */
  function WrapTextIntended(input: Option<string>, maxLineLength: int): (lines: seq<string>)
  {
    if IsNullOrWhiteSpace(input) || maxLineLength <= 0 then []
    else
      JoinedLines(Grouped(Split(input.value, WrapSeparators), maxLineLength))
  }

  /** A wrapping of `words` into lines for the length `max`: the lines' words are the
      input's words in order, each line is non-empty and its words joined by single
      spaces, a line of two or more words is at most `max - 1` long, and each line's
      first word would not have fitted, with its separating space, on the line before. */
  predicate WellWrapped(lines: seq<string>, words: seq<string>, max: int) {
    Flatten(seq(|lines|, k requires 0 <= k < |lines| => LineWords(lines[k]))) == words &&
    forall k :: 0 <= k < |lines| ==>
      lines[k] != [] && LineWords(lines[k]) != [] && lines[k] == Join(LineWords(lines[k])) &&
      (|LineWords(lines[k])| >= 2 ==> |lines[k]| <= max - 1) &&
      (k > 0 ==> |lines[k - 1]| + |LineWords(lines[k])[0]| + 2 > max)
  }

  /** The lines of a greedy grouping of words, each joined by single spaces. */
  function JoinedLines(gs: seq<seq<string>>): (lines: seq<string>)
    ensures |lines| == |gs|
  {
    seq(|gs|, k requires 0 <= k < |gs| => Join(gs[k]))
  }

  /** Splitting a joined line gives its words back. */
  lemma JoinedLinesWords(gs: seq<seq<string>>)
    requires forall k, j :: 0 <= k < |gs| && 0 <= j < |gs[k]| ==> IsWord(gs[k][j], WrapSeparators)
    ensures seq(|gs|, k requires 0 <= k < |gs| => LineWords(JoinedLines(gs)[k])) == gs
  {
    var lines := JoinedLines(gs);
    assert ' ' in WrapSeparators;
    forall k | 0 <= k < |gs| ensures LineWords(lines[k]) == gs[k] {
      SplitJoin(gs[k], WrapSeparators);
    }
  }

  /** A joined line is one space shorter than the builder's text for it. */
  lemma JoinedLinesLengths(gs: seq<seq<string>>)
    requires forall k :: 0 <= k < |gs| ==> gs[k] != [] && gs[k][0] != []
    ensures forall k :: 0 <= k < |gs| ==> JoinedLines(gs)[k] != [] && |Spaced(gs[k])| == |JoinedLines(gs)[k]| + 1
  {
    forall k | 0 <= k < |gs| ensures JoinedLines(gs)[k] != [] && |Spaced(gs[k])| == |JoinedLines(gs)[k]| + 1 {
      assert JoinedLines(gs)[k] == Join(gs[k]);
      SpacedIsJoin(gs[k]);
    }
  }

  /** Lines that split back into a greedy grouping of the words, each one space
      shorter than its builder text, are well wrapped. */
  lemma {:induction false} WellWrappedOfGroups(lines: seq<string>, gs: seq<seq<string>>, words: seq<string>, max: int)
    requires |lines| == |gs| && Flatten(gs) == words && Greedy(gs, max)
    requires forall k :: 0 <= k < |gs| ==> LineWords(lines[k]) == gs[k] && lines[k] == Join(gs[k])
    requires forall k :: 0 <= k < |gs| ==> lines[k] != [] && |Spaced(gs[k])| == |lines[k]| + 1
    ensures WellWrapped(lines, words, max)
  {
    assert seq(|lines|, k requires 0 <= k < |lines| => LineWords(lines[k])) == gs;
    forall k | 0 <= k < |lines|
      ensures lines[k] != [] && LineWords(lines[k]) != [] && lines[k] == Join(LineWords(lines[k]))
      ensures |LineWords(lines[k])| >= 2 ==> |lines[k]| <= max - 1
      ensures k > 0 ==> |lines[k - 1]| + |LineWords(lines[k])[0]| + 2 > max
    {
      assert gs[k] != [];
    }
  }

  lemma JoinedLinesWellWrapped(gs: seq<seq<string>>, words: seq<string>, max: int)
    requires Flatten(gs) == words && Greedy(gs, max)
    requires forall k, j :: 0 <= k < |gs| && 0 <= j < |gs[k]| ==> IsWord(gs[k][j], WrapSeparators)
    ensures WellWrapped(JoinedLines(gs), words, max)
  {
    var lines := JoinedLines(gs);
    JoinedLinesWords(gs);
    assert forall k :: 0 <= k < |gs| ==> LineWords(lines[k]) == gs[k] && lines[k] == Join(gs[k]);
    assert forall k :: 0 <= k < |gs| ==> gs[k] != [] && IsWord(gs[k][0], WrapSeparators);
    JoinedLinesLengths(gs);
    WellWrappedOfGroups(lines, gs, words, max);
  }

  /** The intended wrapping keeps the words, never yields an empty line, and is greedy. */
  lemma WrapTextIntendedIsWellWrapped(input: Option<string>, max: int)
    ensures IsNullOrWhiteSpace(input) || max <= 0 ==> WrapTextIntended(input, max) == []
    ensures !IsNullOrWhiteSpace(input) && max > 0 ==>
      WellWrapped(WrapTextIntended(input, max), Split(input.value, WrapSeparators), max)
  {
    if !IsNullOrWhiteSpace(input) && max > 0 {
      var words := Split(input.value, WrapSeparators);
      var gs := Grouped(words, max);
      GroupedKeepsWords(words, max);
      GroupedWordsAreWords(words, max);
      GroupedIsGreedy(words, max);
      JoinedLinesWellWrapped(gs, words, max);
      assert WrapTextIntended(input, max) == JoinedLines(gs);
    }
  }

  lemma TrimEndSpace(s: string)
    ensures TrimEnd(s + " ") == TrimEnd(s)
  {
    assert (s + " ")[..|s|] == s;
  }

  /** Each line as written is the intended line with its trailing white space trimmed. */
  lemma AsWrittenTrimsIntended(input: Option<string>, max: int)
    ensures |WrapTextAsWritten(input, max)| == |WrapTextIntended(input, max)|
    ensures forall k :: 0 <= k < |WrapTextAsWritten(input, max)| ==>
      WrapTextAsWritten(input, max)[k] == TrimEnd(WrapTextIntended(input, max)[k])
  {
    if !IsNullOrWhiteSpace(input) && max > 0 {
      var gs := Grouped(Split(input.value, WrapSeparators), max);
      GroupedIsGreedy(Split(input.value, WrapSeparators), max);
      forall k | 0 <= k < |gs| ensures TrimEnd(Spaced(gs[k])) == TrimEnd(Join(gs[k])) {
        SpacedIsJoin(gs[k]);
        TrimEndSpace(Join(gs[k]));
      }
    }
  }

  /** The last character of a join is the last character of its last word. */
  lemma JoinLast(ws: seq<string>)
    requires ws != [] && ws[|ws| - 1] != []
    ensures Join(ws) != [] && Join(ws)[|Join(ws)| - 1] == ws[|ws| - 1][|ws[|ws| - 1]| - 1]
  {
    if |ws| > 1 {
      var init, w := ws[..|ws| - 1], ws[|ws| - 1];
      assert ws == init + [w];
      JoinSnoc(init, w);
    }
  }

  /** When no word ends in white space, trimming changes nothing and the two agree. */
  lemma AsWrittenMatchesIntended(input: Option<string>, max: int)
    requires input.Some?
    requires forall k :: 0 <= k < |Split(input.value, WrapSeparators)| ==>
      var w := Split(input.value, WrapSeparators)[k]; !IsWhiteSpace(w[|w| - 1])
    ensures WrapTextAsWritten(input, max) == WrapTextIntended(input, max)
  {
    AsWrittenTrimsIntended(input, max);
    if !IsNullOrWhiteSpace(input) && max > 0 {
      var words := Split(input.value, WrapSeparators);
      var gs := Grouped(words, max);
      var lines := WrapTextIntended(input, max);
      GroupedIsGreedy(words, max);
      GroupedWordsAreWords(words, max);
      forall k | 0 <= k < |lines| ensures TrimEnd(lines[k]) == lines[k] {
        var g := gs[k];
        assert g[|g| - 1] in words;
        JoinLast(g);
      }
    }
  }

  /** A line fits when it is one word that fits, or a longer line the loop let through. */
  lemma JoinFits(g: seq<string>, max: int)
    requires g != [] && (|g| >= 2 ==> |Spaced(g)| <= max) && (|g| == 1 ==> |g[0]| <= max)
    ensures |Join(g)| <= max
  {
    SpacedIsJoin(g);
  }

  /** When every word fits on a line, every line fits, as written or as intended. */
  lemma WrapTextLinesFit(input: Option<string>, max: int)
    requires input.Some?
    requires forall k :: 0 <= k < |Split(input.value, WrapSeparators)| ==> |Split(input.value, WrapSeparators)[k]| <= max
    ensures forall k :: 0 <= k < |WrapTextIntended(input, max)| ==> |WrapTextIntended(input, max)[k]| <= max
    ensures forall k :: 0 <= k < |WrapTextAsWritten(input, max)| ==> |WrapTextAsWritten(input, max)[k]| <= max
  {
    AsWrittenTrimsIntended(input, max);
    if !IsNullOrWhiteSpace(input) && max > 0 {
      var words := Split(input.value, WrapSeparators);
      var gs := Grouped(words, max);
      GroupedIsGreedy(words, max);
      GroupedWordsAreWords(words, max);
      forall k | 0 <= k < |gs| ensures |Join(gs[k])| <= max {
        assert gs[k][0] in words;
        JoinFits(gs[k], max);
      }
      assert WrapTextIntended(input, max) == JoinedLines(gs);
    }
  }

  lemma VerticalTabWords()
    ensures Split("ab \U{B}", WrapSeparators) == ["ab", "\U{B}"]
    ensures !IsNullOrWhiteSpace(Some("ab \U{B}"))
  {
    var input := "ab \U{B}";
    var ws := ["ab", "\U{B}"];
    assert Join(ws) == input;
    assert IsWord(ws[0], WrapSeparators) && IsWord(ws[1], WrapSeparators);
    assert ' ' in WrapSeparators;
    SplitJoin(ws, WrapSeparators);
    assert !IsWhiteSpace(input[0]);
  }

  /** Two words where the second does not fit behind the first. */
  lemma TwoLines(a: string, b: string, max: int)
    requires a != [] && |a| + |b| + 2 > max
    ensures Grouped([a, b], max) == [[a], [b]]
  {
    GroupedSnoc([], a, max);
    assert [] + [a] == [a];
    assert Fill([a], max) == ([], [a]);
    SpacedOne(a);
    GroupedSnoc([a], b, max);
    assert [a] + [b] == [a, b];
  }

  /** Input of two words where the second does not fit behind the first. */
  lemma WrapTwoWordsAsWritten(input: string, a: string, b: string, max: int)
    requires Split(input, WrapSeparators) == [a, b] && !IsNullOrWhiteSpace(Some(input)) && max > 0
    requires a != [] && |a| + |b| + 2 > max
    ensures WrapTextAsWritten(Some(input), max) == [TrimEnd(a + " "), TrimEnd(b + " ")]
  {
    TwoLines(a, b, max);
    var r := Rendered([[a], [b]]);
    assert WrapTextAsWritten(Some(input), max) == r;
    SpacedOne(a);
    SpacedOne(b);
    assert r[0] == TrimEnd(a + " ") && r[1] == TrimEnd(b + " ");
  }

  lemma WrapTwoWordsIntended(input: string, a: string, b: string, max: int)
    requires Split(input, WrapSeparators) == [a, b] && !IsNullOrWhiteSpace(Some(input)) && max > 0
    requires a != [] && |a| + |b| + 2 > max
    ensures WrapTextIntended(Some(input), max) == [a, b]
  {
    TwoLines(a, b, max);
    var r := JoinedLines([[a], [b]]);
    assert WrapTextIntended(Some(input), max) == r;
    assert r[0] == a && r[1] == b;
  }

  /** A word that is nothing but a vertical tab (white space, but not a separator)
      comes out as an empty line, where the intended wrapping keeps it. */
  lemma WrapTextEmptyLine()
    ensures WrapTextAsWritten(Some("ab \U{B}"), 3) == ["ab", ""]
    ensures WrapTextIntended(Some("ab \U{B}"), 3) == ["ab", "\U{B}"]
  {
    var ab, vt := "ab", "\U{B}";
    VerticalTabWords();
    WrapTwoWordsAsWritten("ab \U{B}", ab, vt, 3);
    WrapTwoWordsIntended("ab \U{B}", ab, vt, 3);
    assert TrimEnd(ab + " ") == ab by {
      TrimEndSpace(ab);
    }
    assert TrimEnd(vt + " ") == [] by {
      TrimEndSpace(vt);
      assert vt[..0] == [];
    }
  }
}
