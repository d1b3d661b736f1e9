/**
 * `FormatValidators`: identifiers, password strength, and the e-mail and URL
 * shapes the library checks with two anchored regular expressions.  Each
 * expression is written out as the split of the string it accepts; `$` (no
 * multi-line option) also matches just before one final '\n', and `\s` is the
 * white-space class of module `Chars`.
 */
module FormatValidators {
  import opened Wrappers
  import opened Chars
  import opened Strings
  import Enumerable
  import CharStringValidators

  /** A non-null, non-empty string. */
  predicate Present(input: Option<string>) {
    !IsNullOrEmpty(input)
  }

  /** `$`: the match ends at the end of the string or just before one final '\n'. */
  predicate MatchesToEnd(s: string, shape: string -> bool) {
    shape(s) || (s != [] && s[|s| - 1] == '\n' && shape(s[..|s| - 1]))
  }

  /* ---------- IsEmail: ^[^@\s]+@[^@\s]+\.[^@\s]+$ ---------- */

  predicate NotAtOrSpace(c: char) {
    c != '@' && !IsWhiteSpace(c)
  }

  /** `[^@\s]+` */
  predicate NotAtOrSpacePlus(t: string) {
    t != [] && forall i :: 0 <= i < |t| ==> NotAtOrSpace(t[i])
  }

  /** The three runs of the pattern, split at some '@' and some later '.'. */
  predicate EmailShape(t: string) {
    exists i, j :: 0 <= i < j < |t| && t[i] == '@' && t[j] == '.' &&
      NotAtOrSpacePlus(t[..i]) && NotAtOrSpacePlus(t[i + 1..j]) && NotAtOrSpacePlus(t[j + 1..])
  }

  function IsEmail(input: Option<string>): (r: bool)
    ensures !Present(input) ==> !r
    ensures r ==> '@' in input.value
  {
    if IsNullOrEmpty(input) then false
    else MatchesToEnd(input.value, EmailShape)
  }

  /** The text an e-mail address is made of: one '@' after a non-empty local part,
      no white space, and a '.' in the domain that is neither its first nor its last
      character. */
  predicate PlainEmail(t: string) {
    exists i :: 0 < i < |t| && t[i] == '@' && OnlyAt(t, i) && NoWhiteSpace(t) && DotInDomain(t, i)
  }

  /** No '@' in `t` but the one at `i`. */
  predicate OnlyAt(t: string, i: int) {
    forall k :: 0 <= k < |t| && k != i ==> t[k] != '@'
  }

  predicate NoWhiteSpace(t: string) {
    forall k :: 0 <= k < |t| ==> !IsWhiteSpace(t[k])
  }

  /** A '.' after `i + 1` and before the last character. */
  predicate DotInDomain(t: string, i: int) {
    exists j :: 0 <= i + 1 < j < |t| - 1 && t[j] == '.'
  }

  /** A run of the pattern, read back at its positions in `t`. */
  lemma RunPositions(t: string, lo: int, hi: int)
    requires 0 <= lo <= hi <= |t| && NotAtOrSpacePlus(t[lo..hi])
    ensures lo < hi
    ensures forall k :: lo <= k < hi ==> t[k] != '@'
    ensures forall k :: lo <= k < hi ==> !IsWhiteSpace(t[k])
  {
    forall k | lo <= k < hi ensures NotAtOrSpace(t[k]) {
      assert t[k] == t[lo..hi][k - lo];
    }
  }

  /** The split the pattern finds, read as a plain e-mail address. */
  lemma {:induction false} SplitIsPlain(t: string, i: int, j: int)
    requires 0 <= i < j < |t| && t[i] == '@' && t[j] == '.'
    requires NotAtOrSpacePlus(t[0..i]) && NotAtOrSpacePlus(t[i + 1..j]) && NotAtOrSpacePlus(t[j + 1..|t|])
    ensures PlainEmail(t)
  {
    RunPositions(t, 0, i);
    RunPositions(t, i + 1, j);
    RunPositions(t, j + 1, |t|);
    assert OnlyAt(t, i);
    assert NoWhiteSpace(t) by {
      assert !IsWhiteSpace(t[i]) && !IsWhiteSpace(t[j]);
    }
    assert DotInDomain(t, i) by {
      assert i + 1 < j < |t| - 1;
    }
  }

  lemma {:induction false} EmailShapeIsPlain(t: string)
    requires EmailShape(t)
    ensures PlainEmail(t)
  {
    var i, j :| 0 <= i < j < |t| && t[i] == '@' && t[j] == '.' &&
      NotAtOrSpacePlus(t[..i]) && NotAtOrSpacePlus(t[i + 1..j]) && NotAtOrSpacePlus(t[j + 1..]);
    assert t[..i] == t[0..i] && t[j + 1..] == t[j + 1..|t|];
    SplitIsPlain(t, i, j);
  }

  lemma {:induction false} PlainIsEmailShape(t: string)
    requires PlainEmail(t)
    ensures EmailShape(t)
  {
    var i :| 0 < i < |t| && t[i] == '@' && OnlyAt(t, i) && NoWhiteSpace(t) && DotInDomain(t, i);
    var j :| i + 1 < j < |t| - 1 && t[j] == '.';
    assert NotAtOrSpacePlus(t[..i]);
    assert NotAtOrSpacePlus(t[i + 1..j]);
    assert NotAtOrSpacePlus(t[j + 1..]);
  }

  /** The pattern accepts exactly the plain e-mail addresses. */
  lemma EmailShapeIsPlainEmail(t: string)
    ensures EmailShape(t) <==> PlainEmail(t)
  {
    if EmailShape(t) {
      EmailShapeIsPlain(t);
    }
    if PlainEmail(t) {
      PlainIsEmailShape(t);
    }
  }

  /** What `IsEmail` accepts is a plain e-mail address, with at most one final '\n'. */
  lemma IsEmailIsPlainEmail(input: Option<string>)
    ensures IsEmail(input) <==> Present(input) && MatchesToEnd(input.value, PlainEmail)
  {
    if Present(input) {
      var s := input.value;
      EmailShapeIsPlainEmail(s);
      EmailShapeIsPlainEmail(s[..|s| - 1]);
    }
  }

  /** `$` lets one final '\n' through, although the pattern's runs exclude white space. */
  lemma EmailTrailingNewline(t: string)
    requires EmailShape(t)
    ensures IsEmail(Some(t + "\n")) && !EmailShape(t + "\n")
  {
    var s := t + "\n";
    assert s[..|s| - 1] == t;
    EmailShapeIsPlainEmail(s);
    assert IsWhiteSpace(s[|s| - 1]);
  }

  /* ---------- IsUrl: ^(https?|ftp)://[^\s/$.?#].[^\s]*$, ignoring case ---------- */

  /** `(https?|ftp)://` at the start of `t`, with the scheme in any case. */
  predicate SchemePrefix(t: string, scheme: string) {
    |scheme| + 3 <= |t| && ToUpperInvariant(t[..|scheme|]) == ToUpperInvariant(scheme) &&
    t[|scheme|..|scheme| + 3] == "://"
  }

  /** What follows `://`: a first character outside `\s/$.?#`, any second character
      but '\n', then no white space. */
  predicate HostPart(t: string) {
    |t| >= 2 && !IsWhiteSpace(t[0]) && t[0] !in "/$.?#" && t[1] != '\n' &&
    forall k :: 2 <= k < |t| ==> !IsWhiteSpace(t[k])
  }

  /** One alternative of the scheme group, followed by the rest of the pattern. */
  predicate SchemeUrl(t: string, scheme: string) {
    SchemePrefix(t, scheme) && HostPart(t[|scheme| + 3..])
  }

  /** The separator after a scheme, character by character. */
  lemma SchemeSeparator(t: string, scheme: string)
    requires SchemePrefix(t, scheme)
    ensures t[|scheme|] == ':' && t[|scheme| + 1] == '/' && t[|scheme| + 2] == '/'
  {
    var n := |scheme|;
    assert t[n..n + 3][0] == t[n] && t[n..n + 3][1] == t[n + 1] && t[n..n + 3][2] == t[n + 2];
  }

  predicate UrlShape(t: string) {
    SchemeUrl(t, "http") || SchemeUrl(t, "https") || SchemeUrl(t, "ftp")
  }

  function IsUrl(input: Option<string>): (r: bool)
    ensures !Present(input) ==> !r
    ensures r ==> |input.value| >= 8
  {
    if IsNullOrEmpty(input) then false
    else MatchesToEnd(input.value, UrlShape)
  }

  /** A URL read as its parts: a scheme that is http, https or ftp in any case,
      "://", a host part, and possibly the one final '\n' that `$` lets through. */
  predicate UrlOf(t: string, scheme: string, host: string) {
    ToUpperInvariant(scheme) in ["HTTP", "HTTPS", "FTP"] && HostPart(host) &&
    (t == scheme + "://" + host || t == scheme + "://" + host + "\n")
  }

  /** Any spelling of a scheme, "://" and a well-formed host part make the pattern's shape. */
  lemma UrlShapeOfParts(scheme: string, host: string)
    requires ToUpperInvariant(scheme) in ["HTTP", "HTTPS", "FTP"]
    requires HostPart(host)
    ensures UrlShape(scheme + "://" + host)
  {
    var t := scheme + "://" + host;
    var n := |scheme|;
    assert t[..n] == scheme && t[n..n + 3] == "://" && t[n + 3..] == host;
    var u := ToUpperInvariant(scheme);
    if u == "HTTP" {
      UpperHttp();
      assert SchemeUrl(t, "http");
    } else if u == "HTTPS" {
      UpperHttps();
      assert SchemeUrl(t, "https");
    } else {
      UpperFtp();
      assert SchemeUrl(t, "ftp");
    }
  }

  /** Any spelling of a scheme, "://" and a well-formed host part make a URL, with or
      without one final '\n'. */
  lemma UrlOfParts(scheme: string, host: string)
    requires ToUpperInvariant(scheme) in ["HTTP", "HTTPS", "FTP"]
    requires HostPart(host)
    ensures IsUrl(Some(scheme + "://" + host))
    ensures IsUrl(Some(scheme + "://" + host + "\n"))
  {
    var t := scheme + "://" + host;
    UrlShapeOfParts(scheme, host);
    var u := t + "\n";
    assert u[..|u| - 1] == t;
  }

  lemma UpperHttp() ensures ToUpperInvariant("http") == "HTTP" { }
  lemma UpperHttps() ensures ToUpperInvariant("https") == "HTTPS" { }
  lemma UpperFtp() ensures ToUpperInvariant("ftp") == "FTP" { }

  /** A text of one alternative of the scheme group splits into its scheme and host. */
  lemma SchemeUrlParts(t: string, sc: string)
    requires SchemeUrl(t, sc)
    requires ToUpperInvariant(sc) in ["HTTP", "HTTPS", "FTP"]
    ensures UrlOf(t, t[..|sc|], t[|sc| + 3..]) && t == t[..|sc|] + "://" + t[|sc| + 3..]
  {
    var n := |sc|;
    assert t == t[..n] + t[n..n + 3] + t[n + 3..];
  }

  /** The pattern's shape is read as a scheme and a host. */
  lemma UrlShapeParts(t: string)
    requires UrlShape(t)
    ensures exists scheme, host :: UrlOf(t, scheme, host) && t == scheme + "://" + host
  {
    UpperHttp();
    UpperHttps();
    UpperFtp();
    if SchemeUrl(t, "http") {
      SchemeUrlParts(t, "http");
    } else if SchemeUrl(t, "https") {
      SchemeUrlParts(t, "https");
    } else {
      SchemeUrlParts(t, "ftp");
    }
  }

  /** What `IsUrl` accepts is exactly a scheme, "://" and a host part, with at most one
      final '\n'. */
  lemma UrlIff(t: string)
    ensures IsUrl(Some(t)) <==> exists scheme, host :: UrlOf(t, scheme, host)
  {
    if IsUrl(Some(t)) {
      if UrlShape(t) {
        UrlShapeParts(t);
      } else {
        var s := t[..|t| - 1];
        UrlShapeParts(s);
        var scheme, host :| UrlOf(s, scheme, host) && s == scheme + "://" + host;
        NewlineUrl(s, t, scheme, host);
      }
    }
    if exists scheme, host :: UrlOf(t, scheme, host) {
      var scheme, host :| UrlOf(t, scheme, host);
      UrlOfParts(scheme, host);
    }
  }

  /** The final '\n' that `$` lets through, after a scheme and a host. */
  lemma NewlineUrl(s: string, t: string, scheme: string, host: string)
    requires t != [] && t[|t| - 1] == '\n' && s == t[..|t| - 1]
    requires UrlOf(s, scheme, host) && s == scheme + "://" + host
    ensures UrlOf(t, scheme, host)
  {
    assert t == s + "\n";
  }

  /* ---------- IsIdentifier ---------- */

  predicate IdentifierStart(c: char) {
    IsLetter(c) || c == '_'
  }

  predicate IdentifierPart(c: char) {
    IsLetterOrDigit(c) || c == '_'
  }

  /** A letter or '_', then letters, digits and '_'. */
  predicate Identifier(s: string) {
    s != [] && IdentifierStart(s[0]) && forall i :: 1 <= i < |s| ==> IdentifierPart(s[i])
  }

  /** `FormatValidators.IsIdentifier`: a scan that returns at the first bad character. */
  method IsIdentifier(input: Option<string>) returns (r: bool)
    ensures r <==> input.Some? && Identifier(input.value)
  {
    if IsNullOrEmpty(input) {
      return false;
    }
    var s := input.value;
    if !(IsLetter(s[0]) || s[0] == '_') {
      return false;
    }
    var i := 1;
    while i < |s|
      invariant 1 <= i <= |s|
      invariant forall k :: 1 <= k < i ==> IdentifierPart(s[k])
    {
      if !(IsLetterOrDigit(s[i]) || s[i] == '_') {
        return false;
      }
      i := i + 1;
    }
    return true;
  }

  /* ---------- IsStrongPassword ---------- */

  /** The guards of `IsStrongPassword`, in order, each returning false when it fails. */
  function IsStrongPassword(input: Option<string>, minLength: int, requireUpper: bool, requireLower: bool,
                            requireDigit: bool, requireSpecial: bool): (r: bool)
    ensures r <==> (Present(input) && |input.value| >= minLength &&
      (requireUpper ==> exists i :: 0 <= i < |input.value| && IsUpper(input.value[i])) &&
      (requireLower ==> exists i :: 0 <= i < |input.value| && IsLower(input.value[i])) &&
      (requireDigit ==> exists i :: 0 <= i < |input.value| && IsDigit(input.value[i])) &&
      (requireSpecial ==> exists i :: 0 <= i < |input.value| && !IsLetterOrDigit(input.value[i])))
  {
    if IsNullOrEmpty(input) || |input.value| < minLength then false
    else if requireUpper && !Enumerable.Any(input.value, IsUpper) then false
    else if requireLower && !Enumerable.Any(input.value, IsLower) then false
    else if requireDigit && !Enumerable.Any(input.value, IsDigit) then false
    else !requireSpecial || !Enumerable.All(input.value, IsLetterOrDigit)
  }

  /** The defaults: eight characters and all four requirements. */
  function IsStrongPasswordDefault(input: Option<string>): (r: bool)
    ensures r ==> input.Some? && |input.value| >= 8
  {
    IsStrongPassword(input, 8, true, true, true, true)
  }

  /* ---------- Properties ---------- */

  /** Null and "" are never strong, whatever the minimum length. */
  lemma EmptyPasswordIsWeak(input: Option<string>, minLength: int, u: bool, l: bool, d: bool, sp: bool)
    requires IsNullOrEmpty(input)
    ensures !IsStrongPassword(input, minLength, u, l, d, sp)
  {
  }

  /** With every requirement off, only presence and length count. */
  lemma NoRequirements(input: Option<string>, minLength: int)
    ensures IsStrongPassword(input, minLength, false, false, false, false) <==>
      (Present(input) && |input.value| >= minLength)
  {
  }

  /** Dropping requirements never turns a strong password into a weak one. */
  lemma FewerRequirements(input: Option<string>, minLength: int,
                          u: bool, l: bool, d: bool, sp: bool, u': bool, l': bool, d': bool, sp': bool)
    requires (u' ==> u) && (l' ==> l) && (d' ==> d) && (sp' ==> sp)
    requires IsStrongPassword(input, minLength, u, l, d, sp)
    ensures IsStrongPassword(input, minLength, u', l', d', sp')
  {
  }

  /** Each requirement is necessary: a password missing it fails whatever the others. */
  lemma EachRequirementIsNecessary(s: string, minLength: int, u: bool, l: bool, d: bool, sp: bool)
    ensures u && (forall i :: 0 <= i < |s| ==> !IsUpper(s[i])) ==> !IsStrongPassword(Some(s), minLength, u, l, d, sp)
    ensures l && (forall i :: 0 <= i < |s| ==> !IsLower(s[i])) ==> !IsStrongPassword(Some(s), minLength, u, l, d, sp)
    ensures d && (forall i :: 0 <= i < |s| ==> !IsDigit(s[i])) ==> !IsStrongPassword(Some(s), minLength, u, l, d, sp)
    ensures sp && (forall i :: 0 <= i < |s| ==> IsLetterOrDigit(s[i])) ==> !IsStrongPassword(Some(s), minLength, u, l, d, sp)
  {
  }

  /** Any default special character meets the special requirement. */
  lemma SpecialCharsMeetSpecialRequirement(s: string)
    ensures CharStringValidators.HasSpecialChars(Some(s), []) ==> exists i :: 0 <= i < |s| && !IsLetterOrDigit(s[i])
  {
    CharStringValidators.DefaultSpecialCharsAreNotLettersOrDigits();
  }

  lemma SpaceIsNotSpecialChar()
    ensures ' ' !in CharStringValidators.DefaultSpecialChars
  {
  }

  /** A space meets the special requirement, though it is not a default special character. */
  lemma SpaceMeetsSpecialRequirement()
    ensures IsStrongPasswordDefault(Some("Abcdef1 ")) && !CharStringValidators.HasSpecialChars(Some("Abcdef1 "), [])
  {
    var t := "Abcdef1 ";
    assert IsUpper(t[0]) && IsLower(t[1]) && IsDigit(t[6]) && !IsLetterOrDigit(t[7]);
    CharStringValidators.DefaultSpecialCharsAreNotLettersOrDigits();
    SpaceIsNotSpecialChar();
    forall i | 0 <= i < |t| ensures t[i] !in CharStringValidators.DefaultSpecialChars {
      if i < 7 {
        assert IsLetterOrDigit(t[i]);
      } else {
        assert t[i] == ' ';
      }
    }
  }

  /** The library's own examples: the defaults accept one upper, one lower, one digit
      and one special character in eight. */
  lemma StrongPasswordExample()
    ensures IsStrongPasswordDefault(Some("Abcdef1!"))
  {
    var t := "Abcdef1!";
    assert IsUpper(t[0]) && IsLower(t[1]) && IsDigit(t[6]) && !IsLetterOrDigit(t[7]);
  }

  lemma NoUpperExample()
    ensures !IsStrongPasswordDefault(Some("abcdefg1!"))
  {
    NoUpperIn();
    EachRequirementIsNecessary("abcdefg1!", 8, true, true, true, true);
  }

  lemma NoUpperIn() ensures forall i :: 0 <= i < |"abcdefg1!"| ==> !IsUpper("abcdefg1!"[i]) { }

  lemma NoLowerExample()
    ensures !IsStrongPasswordDefault(Some("ABCDEFG1!"))
  {
    var t := "ABCDEFG1!";
    assert IsUpper(t[0]);
    forall i | 0 <= i < |t| ensures !IsLower(t[i]) {}
  }

  lemma NoDigitExample()
    ensures !IsStrongPasswordDefault(Some("Abcdefgh!"))
  {
    var t := "Abcdefgh!";
    assert IsUpper(t[0]) && IsLower(t[1]);
    forall i | 0 <= i < |t| ensures !IsDigit(t[i]) {}
  }

  lemma NoSpecialExample()
    ensures !IsStrongPasswordDefault(Some("Abcdefg1"))
  {
    var t := "Abcdefg1";
    assert IsUpper(t[0]) && IsLower(t[1]) && IsDigit(t[7]);
    forall i | 0 <= i < |t| ensures IsLetterOrDigit(t[i]) {}
  }

  lemma ShortAndEmptyExamples()
    ensures !IsStrongPasswordDefault(Some("Ab1!")) && !IsStrongPasswordDefault(Some("")) && !IsStrongPasswordDefault(None)
  {
  }

  lemma CustomRequirementsExample()
    ensures IsStrongPassword(Some("12345678"), 8, false, false, true, false)
  {
    assert IsDigit("12345678"[0]);
  }

  lemma NoSpecialDigitsExample()
    ensures !IsStrongPasswordDefault(Some("Abcdef12"))
  {
    var t := "Abcdef12";
    assert IsUpper(t[0]) && IsLower(t[1]) && IsDigit(t[7]);
    forall i | 0 <= i < |t| ensures IsLetterOrDigit(t[i]) {}
  }

  lemma IdentifierExamples()
    ensures Identifier("myVar") && Identifier("_myVar123")
    ensures !Identifier("123abc") && !Identifier("my-var") && !Identifier("")
  {
    assert !IdentifierPart("my-var"[2]);
  }

  /** Three runs joined by '@' and '.' make an e-mail address. */
  lemma EmailOfParts(local: string, domain: string, tld: string)
    requires NotAtOrSpacePlus(local) && NotAtOrSpacePlus(domain) && NotAtOrSpacePlus(tld)
    ensures IsEmail(Some(local + "@" + domain + "." + tld))
  {
    var t := local + "@" + domain + "." + tld;
    var i, j := |local|, |local| + 1 + |domain|;
    assert t[..i] == local && t[i + 1..j] == domain && t[j + 1..] == tld;
    assert t[i] == '@' && t[j] == '.';
  }

  lemma EmailExampleParts()
    ensures NotAtOrSpacePlus("user") && NotAtOrSpacePlus("example") && NotAtOrSpacePlus("com")
  {
  }

  lemma EmailExample()
    ensures IsEmail(Some("user@example.com"))
  {
    EmailExampleParts();
    EmailOfParts("user", "example", "com");
    EmailExampleText();
  }

  lemma EmailExampleText()
    ensures "user" + "@" + "example" + "." + "com" == "user@example.com"
  {
    assert "user" + "@" == "user@";
    assert "user@" + "example" == "user@example";
    assert "user@example" + "." + "com" == "user@example.com";
  }

  lemma NoAtExample()
    ensures !IsEmail(Some("userexample.com"))
  {
    NoAtIn();
  }

  lemma NoAtIn() ensures '@' !in "userexample.com" { }

  /** The only '@' of "user@.com" is at 4 and its only '.' at 5. */
  lemma EmptyDomainPositions()
    ensures forall k :: 0 <= k < 9 && k != 4 ==> "user@.com"[k] != '@'
    ensures forall k :: 0 <= k < 9 && k != 5 ==> "user@.com"[k] != '.'
  {
  }

  lemma EmptyDomainExample()
    ensures !IsEmail(Some("user@.com"))
  {
    var t := "user@.com";
    EmptyDomainPositions();
    forall i, j | 0 <= i < j < |t| && t[i] == '@' && t[j] == '.'
      ensures !NotAtOrSpacePlus(t[i + 1..j])
    {
      assert i == 4 && j == 5;
    }
  }

  lemma NullOrEmptyIsNotEmail()
    ensures !IsEmail(Some("")) && !IsEmail(None)
  {
  }

  lemma HttpExample()
    ensures IsUrl(Some("http://example.com"))
  {
    var t := "http://example.com";
    assert t[..4] == "http" && t[4..7] == "://";
    assert HostPart(t[7..]);
  }

  lemma FtpScheme()
    ensures SchemePrefix("ftp://example.com/resource", "ftp")
  {
    var t := "ftp://example.com/resource";
    assert t[..3] == "ftp";
    assert t[3..6] == "://" by { assert t[3] == ':' && t[4] == '/' && t[5] == '/'; }
  }

  lemma FtpHost()
    ensures HostPart("ftp://example.com/resource"[6..])
  {
    FtpHostText();
    FtpHostHasNoWhiteSpace();
  }

  lemma FtpHostText() ensures "ftp://example.com/resource"[6..] == "example.com/resource" { }

  lemma FtpHostHasNoWhiteSpace()
    ensures forall k :: 0 <= k < |"example.com/resource"| ==> !IsWhiteSpace("example.com/resource"[k])
  {
  }

  lemma FtpExample()
    ensures IsUrl(Some("ftp://example.com/resource"))
  {
    FtpScheme();
    FtpHost();
    assert SchemeUrl("ftp://example.com/resource", "ftp");
  }

  /** A URL starts with 'h' or 'f', in either case. */
  lemma UrlInitial(t: string)
    requires UrlShape(t)
    ensures ToUpper(t[0]) == 'H' || ToUpper(t[0]) == 'F'
  {
    var n := if SchemeUrl(t, "ftp") then 3 else if SchemeUrl(t, "http") then 4 else 5;
    assert ToUpperInvariant(t[..n])[0] == ToUpper(t[0]);
  }

  lemma NoSchemeExample()
    ensures !IsUrl(Some("example.com"))
  {
    var a := "example.com";
    if UrlShape(a) { UrlInitial(a); }
  }

  lemma MissingSlashExample()
    ensures !IsUrl(Some("http:/example.com"))
  {
    var b := "http:/example.com";
    if SchemeUrl(b, "http") { SchemeSeparator(b, "http"); }
    if SchemeUrl(b, "https") { SchemeSeparator(b, "https"); }
    if SchemeUrl(b, "ftp") { SchemeSeparator(b, "ftp"); }
  }

  lemma ShortHostExample()
    ensures !IsUrl(Some("http://a"))
  {
    var c := "http://a";
    if SchemeUrl(c, "https") { SchemeSeparator(c, "https"); }
    if SchemeUrl(c, "ftp") { SchemeSeparator(c, "ftp"); }
  }

  lemma NullOrEmptyIsNotUrl()
    ensures !IsUrl(Some("")) && !IsUrl(None)
  {
  }
}
